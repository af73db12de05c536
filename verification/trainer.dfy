/** Collection of training data: a key names a pose, the recorder waits five
    seconds for the person to get into position, records every detected pose
    for ten seconds, and goes quiet again. The two delays are one-shot timers
    that are scheduled on every press and never cancelled. */
module Trainer {
  import opened Wrappers
  import opened Keypoints

  datatype RecState = Inactive | Waiting | Collecting

  /** One row of the key table: the key that starts recording, and the label
      the samples get. */
  datatype KeyEntry = KeyEntry(key: string, poseName: string)

  const TargetPoses: seq<KeyEntry> := [
    KeyEntry("D", "Hands & legs separated"),
    KeyEntry("U", "Half squat - upper body flex"),
    KeyEntry("B", "Stretch Hands straight up"),
    KeyEntry("R", "Candle Pose"),
    KeyEntry("C", "Huddle Pose"),
    KeyEntry("T", "Left-leg & right-arm triangles"),
    KeyEntry("H", "Halo around your head"),
    KeyEntry("S", "Stretch back (right side)"),
    KeyEntry("F", "Stretch back (left side)")
  ]

  /** Milliseconds of preparation, then of recording. */
  const WaitingTime: int := 5000
  const CollectingTime: int := 10000

  /** String.prototype.toUpperCase on one character: the ASCII letters, and
      the two non-ASCII lower-case letters whose upper case is an ASCII
      letter (long s and dotless i). */
  function UpperChar(c: char): (u: char)
    ensures 'a' <= c <= 'z' ==> u as int == c as int - 32
    ensures !('a' <= c <= 'z') && c != '\U{017F}' && c != '\U{0131}' ==> u == c
  {
    if 'a' <= c <= 'z' then (c as int - 32) as char
    else if c == '\U{017F}' then 'S'
    else if c == '\U{0131}' then 'I'
    else c
  }

  /** key.toUpperCase(), character by character. */
  function ToUpper(s: string): (r: string)
    ensures |r| == |s|
    ensures forall i :: 0 <= i < |s| ==> r[i] == UpperChar(s[i])
  {
    seq(|s|, i requires 0 <= i < |s| => UpperChar(s[i]))
  }

  /** targetPoses.some(entry => entry.key === key.toUpperCase()). Every key
      of the table is one capital letter, so only a one-character key whose
      upper case is a capital letter can be a pose key. */
  predicate IsPoseKey(key: string)
    ensures IsPoseKey(key) ==> |key| == 1 && 'A' <= ToUpper(key)[0] <= 'Z'
  {
    exists i :: 0 <= i < |TargetPoses| && TargetPoses[i].key == ToUpper(key)
  }

  /** Array.prototype.findIndex on the key column: the first row with that
      key, or -1. */
  function FindIndex(table: seq<KeyEntry>, key: string): (i: int)
    ensures -1 <= i < |table|
    ensures 0 <= i ==> table[i].key == key && forall j :: 0 <= j < i ==> table[j].key != key
    ensures i < 0 ==> forall j :: 0 <= j < |table| ==> table[j].key != key
  {
    if table == [] then -1
    else if table[0].key == key then 0
    else
      var k := FindIndex(table[1..], key);
      if k < 0 then -1 else k + 1
  }

  /** targetPoses.find(entry => entry.key === key.toUpperCase())?.poseName. */
  function Lookup(key: string): (name: Option<string>)
    ensures name.Some? <==> IsPoseKey(key)
    ensures name.Some? ==> exists i :: 0 <= i < |TargetPoses| && TargetPoses[i] == KeyEntry(ToUpper(key), name.value)
  {
    var i := FindIndex(TargetPoses, ToUpper(key));
    if i < 0 then None else Some(TargetPoses[i].poseName)
  }

  /** A pending setTimeout: when it is due, and the state it sets. */
  datatype Timer = Timer(due: int, sets: RecState)

  /** One call of addData: the feature vector and the target list. The
      target is whatever targetLabel held, undefined included. */
  datatype Sample = Sample(inputs: seq<real>, target: seq<Option<string>>)

  /** The training page's state: the recording state, the label of the last
      pose key, the clock in milliseconds, the timers not yet fired, the last
      pose seen (None for none or a falsy one), and the samples recorded so
      far. */
  datatype Recorder = Recorder(
    state: RecState,
    targetLabel: Option<string>,
    now: int,
    timers: seq<Timer>,
    pose: Option<Pose>,
    samples: seq<Sample>)

  const Initial: Recorder := Recorder(Inactive, None, 0, [], None, [])

  /** keyPressed, the recording part: a pose key, in either case, sets the
      state to waiting, remembers the label and schedules the two timers
      after any already pending; every other key leaves the recorder alone. */
  function KeyPressed(r: Recorder, key: string): (r': Recorder)
    ensures !IsPoseKey(key) ==> r' == r
    ensures IsPoseKey(key) ==>
              && r'.state == Waiting
              && r'.targetLabel == Lookup(key)
              && r'.timers == r.timers + [Timer(r.now + WaitingTime, Collecting),
                                          Timer(r.now + WaitingTime + CollectingTime, Inactive)]
              && r'.now == r.now && r'.pose == r.pose && r'.samples == r.samples
  {
    if IsPoseKey(key) then
      r.(state := Waiting,
         targetLabel := Some(Lookup(key).value),
         timers := r.timers + [Timer(r.now + WaitingTime, Collecting),
                               Timer(r.now + WaitingTime + CollectingTime, Inactive)])
    else
      r
  }

  /** The timer that fires first: the earliest due, and among equal dues the
      one scheduled first. */
  function Earliest(timers: seq<Timer>): (i: int)
    requires |timers| > 0
    ensures 0 <= i < |timers|
    ensures forall j :: 0 <= j < |timers| ==> timers[i].due <= timers[j].due
    ensures forall j :: 0 <= j < i ==> timers[j].due > timers[i].due
  {
    if |timers| == 1 then 0
    else
      var k := Earliest(timers[1..]) + 1;
      if timers[0].due <= timers[k].due then 0 else k
  }

  /** The clock reaches the earliest pending timer, which fires and is gone;
      the others stay pending in their order. Among timers due at the same
      time the one scheduled first fires first (Earliest). */
  function FireNext(r: Recorder): (r': Recorder)
    requires |r.timers| > 0
    ensures var i := Earliest(r.timers);
            && r'.timers == r.timers[..i] + r.timers[i + 1..]
            && r'.state == r.timers[i].sets && r'.now == r.timers[i].due
    ensures |r'.timers| == |r.timers| - 1
    ensures Timer(r'.now, r'.state) in r.timers
    ensures forall t :: t in r'.timers ==> t in r.timers
    ensures forall t :: t in r.timers ==> r'.now <= t.due
    ensures r'.targetLabel == r.targetLabel && r'.pose == r.pose && r'.samples == r.samples
  {
    var i := Earliest(r.timers);
    r.(state := r.timers[i].sets, now := r.timers[i].due, timers := r.timers[..i] + r.timers[i + 1..])
  }

  /** The clock moves on to t, which no pending timer precedes. */
  predicate CanWait(r: Recorder, t: int) {
    r.now <= t && forall tm :: tm in r.timers ==> t <= tm.due
  }

  /** addData: the keypoint vector and the label of the last pose seen, or
      two empty lists when there is no pose. */
  function NewSample(r: Recorder): (s: Sample)
    ensures r.pose.Some? ==> s.inputs == Flatten(r.pose.value.keypoints) && s.target == [r.targetLabel]
    ensures r.pose.None? ==> s == Sample([], [])
  {
    match r.pose
    case Some(p) => Sample(Flatten(p.keypoints), [r.targetLabel])
    case None => Sample([], [])
  }

  /** getPoses: a non-empty detection replaces the last pose by the first one
      detected, and while collecting records one sample of it; an empty
      detection changes nothing. */
  function GetPoses(r: Recorder, poses: seq<Option<Pose>>): (r': Recorder)
    ensures |poses| == 0 ==> r' == r
    ensures |poses| > 0 ==> r'.pose == poses[0]
    ensures r'.state == r.state && r'.targetLabel == r.targetLabel && r'.now == r.now && r'.timers == r.timers
    ensures |poses| > 0 && r.state == Collecting ==> r'.samples == r.samples + [NewSample(r'.(samples := r.samples))]
    ensures !(|poses| > 0 && r.state == Collecting) ==> r'.samples == r.samples
  {
    if |poses| > 0 then
      var seen := r.(pose := poses[0]);
      if seen.state == Collecting then seen.(samples := seen.samples + [NewSample(seen)]) else seen
    else
      r
  }

  /** What can happen to the training page. */
  datatype Event = Key(key: string) | Detect(poses: seq<Option<Pose>>) | Fire | Wait(until: int)

  predicate Enabled(r: Recorder, e: Event) {
    match e
    case Fire => |r.timers| > 0
    case Wait(t) => CanWait(r, t)
    case _ => true
  }

  function Step(r: Recorder, e: Event): Recorder
    requires Enabled(r, e)
  {
    match e
    case Key(k) => KeyPressed(r, k)
    case Detect(ps) => GetPoses(r, ps)
    case Fire => FireNext(r)
    case Wait(t) => r.(now := t)
  }
}
