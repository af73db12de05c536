/** Properties of the training-data recorder: which keys start a recording,
    the timeline of one press, the effect of presses that overlap, and the
    labels every recorded sample carries. */
module TrainerProps {
  import opened Wrappers
  import Catalog
  import opened Keypoints
  import opened Trainer

  /** The characters that start a recording: the nine key letters in either
      case, and the long s, whose upper case is S. */
  const PoseKeyChars: seq<char> := "DUBRCTHSFdubrcthsf" + ['\U{017F}']

  /** The key table has nine rows with distinct one-letter keys, and its
      labels are exactly the catalogue the game draws from, in order. */
  lemma TableWellFormed()
    ensures |TargetPoses| == 9
    ensures forall i :: 0 <= i < |TargetPoses| ==> |TargetPoses[i].key| == 1
    ensures forall i, j :: 0 <= i < j < |TargetPoses| ==> TargetPoses[i].key != TargetPoses[j].key
    ensures forall i :: 0 <= i < |TargetPoses| ==> TargetPoses[i].poseName == Catalog.Poses[i]
  {
  }

  /** Exactly the characters of PoseKeyChars, alone, are pose keys: the
      lookup ignores case, and longer key names such as "Enter" never
      match. */
  lemma PoseKeyIff(key: string)
    ensures IsPoseKey(key) <==> |key| == 1 && key[0] in PoseKeyChars
  {
    KeyColumn();
    if IsPoseKey(key) {
      var i :| 0 <= i < |TargetPoses| && TargetPoses[i].key == ToUpper(key);
      assert |key| == 1;
      assert UpperChar(key[0]) == KeyLetters[i];
      UpperLetter(key[0]);
    }
    if |key| == 1 && key[0] in PoseKeyChars {
      UpperLetter(key[0]);
      var i :| 0 <= i < |KeyLetters| && KeyLetters[i] == UpperChar(key[0]);
      assert TargetPoses[i].key == ToUpper(key);
    }
  }

  /** The key column, letter by letter. */
  const KeyLetters: seq<char> := "DUBRCTHSF"

  lemma KeyColumn()
    ensures |TargetPoses| == |KeyLetters|
    ensures forall i :: 0 <= i < |TargetPoses| ==> TargetPoses[i].key == [KeyLetters[i]]
  {
  }

  /** A character upper-cases to a key letter exactly when it is one of
      PoseKeyChars. */
  lemma UpperLetter(c: char)
    ensures UpperChar(c) in KeyLetters <==> c in PoseKeyChars
  {
  }

  /** The two keys with their own meaning on the training page, Enter (save
      the data) and space (train), never start a recording. */
  lemma CommandKeysAreNotPoseKeys()
    ensures !IsPoseKey("Enter") && !IsPoseKey(" ")
  {
    PoseKeyIff("Enter");
    PoseKeyIff(" ");
  }

  /** Upper-casing a key first changes nothing. */
  lemma KeyCaseInsensitive(r: Recorder, key: string)
    ensures KeyPressed(r, ToUpper(key)) == KeyPressed(r, key)
  {
    assert ToUpper(ToUpper(key)) == ToUpper(key);
  }

  /** A pose key's label is one of the catalogue's poses. */
  lemma LookupInCatalog(key: string)
    requires IsPoseKey(key)
    ensures Lookup(key).Some? && Lookup(key).value in Catalog.Poses
  {
    TableWellFormed();
  }

  /** A sample either carries nothing (no pose was seen) or an even-length
      keypoint vector and a single catalogue label. */
  predicate SampleOk(s: Sample) {
    || s == Sample([], [])
    || (|s.inputs| % 2 == 0 && |s.target| == 1 && s.target[0].Some? && s.target[0].value in Catalog.Poses)
  }

  /** The recorder's invariant: no pending timer is overdue, a label is set
      whenever the recorder is busy or a timer is pending, the label is a
      catalogue pose, and every sample is well formed. */
  predicate Inv(r: Recorder) {
    && (forall tm :: tm in r.timers ==> r.now <= tm.due)
    && ((r.state != Inactive || |r.timers| > 0) ==> r.targetLabel.Some?)
    && (r.targetLabel.Some? ==> r.targetLabel.value in Catalog.Poses)
    && (forall s :: s in r.samples ==> SampleOk(s))
  }

  lemma InitialInv()
    ensures Inv(Initial)
  {
  }

  /** Every event the page can receive keeps the invariant. */
  lemma StepPreservesInv(r: Recorder, e: Event)
    requires Inv(r) && Enabled(r, e)
    ensures Inv(Step(r, e))
  {
    match e
    case Key(k) =>
      if IsPoseKey(k) {
        LookupInCatalog(k);
      }
    case Detect(ps) =>
      var r' := Step(r, e);
      if |ps| > 0 && r.state == Collecting {
        var s := NewSample(r.(pose := ps[0]));
        assert SampleOk(s);
        assert r'.samples == r.samples + [s];
      }
    case Fire =>
    case Wait(t) =>
  }

  /** Events applied in order; one that cannot happen in the state reached
      is skipped. */
  function Run(r: Recorder, es: seq<Event>): Recorder
    decreases |es|
  {
    if es == [] then r else Run(StepOrSkip(r, es[0]), es[1..])
  }

  function StepOrSkip(r: Recorder, e: Event): Recorder {
    if Enabled(r, e) then Step(r, e) else r
  }

  lemma {:induction false} RunKeepsInv(r: Recorder, es: seq<Event>)
    requires Inv(r)
    ensures Inv(Run(r, es))
    decreases |es|
  {
    if es != [] {
      if Enabled(r, es[0]) {
        StepPreservesInv(r, es[0]);
      }
      RunKeepsInv(StepOrSkip(r, es[0]), es[1..]);
    }
  }

  /** Whatever happens on the page, every recorded sample is either empty or
      an even-length keypoint vector labelled with one catalogue pose: the
      label is never undefined. */
  lemma SamplesAlwaysLabelled(es: seq<Event>)
    ensures forall s :: s in Run(Initial, es).samples ==> SampleOk(s)
  {
    InitialInv();
    RunKeepsInv(Initial, es);
  }

  /** One press with nothing else pending: recording starts five seconds
      later, stops ten seconds after that, and then nothing is pending; the
      label stays the pressed pose throughout. */
  lemma SinglePress(r: Recorder, key: string)
    requires r.timers == [] && IsPoseKey(key)
    ensures var r1 := KeyPressed(r, key);
            && |r1.timers| == 2
            && var r2 := FireNext(r1);
               && r2.state == Collecting && r2.now == r.now + 5000
               && |r2.timers| == 1
               && var r3 := FireNext(r2);
                  && r3.state == Inactive && r3.now == r.now + 15000
                  && r3.timers == [] && r3.targetLabel == Lookup(key)
  {
    var r1 := KeyPressed(r, key);
    assert Earliest(r1.timers) == 0;
    var r2 := FireNext(r1);
    assert r2.timers == [Timer(r.now + 15000, Inactive)];
  }

  /** Presses never cancel earlier timers. Starting idle at time 0,
      pressing D and then U at 3000 starts recording U's samples at 5000, two
      seconds after U, and the timer left from D stops it at 15000 while U's
      own stop is still pending for 18000. */
  lemma OverlappingPresses(start: Recorder)
    requires start.now == 0 && start.timers == []
    ensures var r := Run(start, [Key("d"), Wait(3000), Key("u")] + Fires(1));
            r.state == Collecting && r.now == 5000 && r.targetLabel == Some("Half squat - upper body flex")
    ensures var r := Run(start, [Key("d"), Wait(3000), Key("u")] + Fires(3));
            && r.state == Inactive && r.now == 15000
            && r.targetLabel == Some("Half squat - upper body flex")
            && r.timers == [Timer(18000, Inactive)]
  {
    var u := TwoPresses(start);
    RunTwoPresses(start, Fires(1));
    RunTwoPresses(start, Fires(3));
    RunFires(u, 1);
    RunFires(u, 3);
    FiringOrder(u);
  }

  /** n Fire events. */
  function Fires(n: nat): (es: seq<Event>)
    ensures |es| == n && forall i :: 0 <= i < n ==> es[i] == Fire
  {
    if n == 0 then [] else [Fire] + Fires(n - 1)
  }

  /** The recorder after its n earliest timers have fired. */
  function FireTimes(r: Recorder, n: nat): (r': Recorder)
    requires n <= |r.timers|
    ensures |r'.timers| == |r.timers| - n
    ensures r'.targetLabel == r.targetLabel
    decreases n
  {
    if n == 0 then r else FireTimes(FireNext(r), n - 1)
  }

  /** Fire events fire the pending timers one at a time, earliest first. */
  lemma {:induction false} RunFires(r: Recorder, n: nat)
    requires n <= |r.timers|
    ensures Run(r, Fires(n)) == FireTimes(r, n)
    decreases n
  {
    if n > 0 {
      RunCons(r, Fire, Fires(n - 1));
      RunFires(FireNext(r), n - 1);
    }
  }

  /** D at 0 and U at 3000 from an idle start: U's label, and four timers
      pending in the order they were scheduled. */
  function TwoPresses(start: Recorder): (r: Recorder)
    requires start.now == 0 && start.timers == []
    ensures r.targetLabel == Some("Half squat - upper body flex") && r.now == 3000
    ensures r.timers == [Timer(5000, Collecting), Timer(15000, Inactive), Timer(8000, Collecting), Timer(18000, Inactive)]
  {
    var d := KeyPressed(start, "d");
    PressD(start, d);
    var u := KeyPressed(d.(now := 3000), "u");
    PressU(d.(now := 3000), u);
    u
  }

  /** U at 3000 after D at 0: U's label and two more timers behind D's. */
  lemma PressU(r: Recorder, u: Recorder)
    requires r.now == 3000 && r.timers == [Timer(5000, Collecting), Timer(15000, Inactive)]
    requires u == KeyPressed(r, "u")
    ensures u.targetLabel == Some("Half squat - upper body flex") && u.now == 3000
    ensures u.timers == [Timer(5000, Collecting), Timer(15000, Inactive), Timer(8000, Collecting), Timer(18000, Inactive)]
  {
    LetterKey("u", 1);
  }

  /** A lower-case letter key finds the table row of its upper case. */
  lemma LetterKey(key: string, i: int)
    requires |key| == 1 && 'a' <= key[0] <= 'z' && 0 <= i < |TargetPoses|
    requires TargetPoses[i].key == [(key[0] as int - 32) as char]
    ensures IsPoseKey(key) && Lookup(key) == Some(TargetPoses[i].poseName)
  {
    var k := ToUpper(key);
    assert k == [UpperChar(key[0])];
    assert k == TargetPoses[i].key;
    TableWellFormed();
    var j := FindIndex(TargetPoses, k);
    assert j == i;
  }

  /** Firing order of the four timers two overlapping presses leave. */
  lemma FiringOrder(u: Recorder)
    requires u.timers == [Timer(5000, Collecting), Timer(15000, Inactive), Timer(8000, Collecting), Timer(18000, Inactive)]
    ensures var f1 := FireTimes(u, 1);
            f1.state == Collecting && f1.now == 5000
    ensures var f3 := FireTimes(u, 3);
            f3.state == Inactive && f3.now == 15000 && f3.timers == [Timer(18000, Inactive)]
  {
    var f1 := FireNext(u);
    FireFirst(u);
    var f2 := FireNext(f1);
    FireSecond(f1);
    var f3 := FireNext(f2);
    FireThird(f2);
    assert FireTimes(u, 1) == FireTimes(f1, 0);
    assert FireTimes(u, 3) == FireTimes(f1, 2);
    assert FireTimes(f1, 2) == FireTimes(f2, 1);
    assert FireTimes(f2, 1) == FireTimes(f3, 0);
  }

  lemma FireFirst(u: Recorder)
    requires u.timers == [Timer(5000, Collecting), Timer(15000, Inactive), Timer(8000, Collecting), Timer(18000, Inactive)]
    ensures FireNext(u).timers == [Timer(15000, Inactive), Timer(8000, Collecting), Timer(18000, Inactive)]
    ensures FireNext(u).state == Collecting && FireNext(u).now == 5000
  {
    FireOne(u, 0, [Timer(15000, Inactive), Timer(8000, Collecting), Timer(18000, Inactive)]);
  }

  lemma FireSecond(u: Recorder)
    requires u.timers == [Timer(15000, Inactive), Timer(8000, Collecting), Timer(18000, Inactive)]
    ensures FireNext(u).timers == [Timer(15000, Inactive), Timer(18000, Inactive)]
    ensures FireNext(u).state == Collecting && FireNext(u).now == 8000
  {
    FireOne(u, 1, [Timer(15000, Inactive), Timer(18000, Inactive)]);
  }

  lemma FireThird(u: Recorder)
    requires u.timers == [Timer(15000, Inactive), Timer(18000, Inactive)]
    ensures FireNext(u).timers == [Timer(18000, Inactive)]
    ensures FireNext(u).state == Inactive && FireNext(u).now == 15000
  {
    FireOne(u, 0, [Timer(18000, Inactive)]);
  }

  /** The timer at index i fires when Earliest picks it. */
  lemma FireOne(r: Recorder, i: int, rest: seq<Timer>)
    requires 0 <= i < |r.timers|
    requires forall j :: 0 <= j < |r.timers| ==> r.timers[i].due <= r.timers[j].due
    requires forall j :: 0 <= j < i ==> r.timers[j].due > r.timers[i].due
    requires rest == r.timers[..i] + r.timers[i + 1..]
    ensures FireNext(r) == r.(state := r.timers[i].sets, now := r.timers[i].due, timers := rest)
  {
    var k := Earliest(r.timers);
    assert k == i;
  }

  lemma RunTwoPresses(start: Recorder, rest: seq<Event>)
    requires start.now == 0 && start.timers == []
    ensures Run(start, [Key("d"), Wait(3000), Key("u")] + rest) == Run(TwoPresses(start), rest)
  {
    var es := [Key("d"), Wait(3000), Key("u")] + rest;
    var d := KeyPressed(start, "d");
    PressD(start, d);
    assert es[0] == Key("d") && es[1..][0] == Wait(3000) && es[1..][1..][0] == Key("u");
    assert es[1..][1..][1..] == rest;
    RunHead(start, es);
    RunHead(d, es[1..]);
    RunHead(d.(now := 3000), es[1..][1..]);
  }

  /** The first press schedules its two timers, so waiting until 3000 ms is
      possible. */
  lemma PressD(start: Recorder, d: Recorder)
    requires start.now == 0 && start.timers == [] && d == KeyPressed(start, "d")
    ensures d.timers == [Timer(5000, Collecting), Timer(15000, Inactive)] && CanWait(d, 3000)
  {
    LetterKey("d", 0);
  }

  /** Run takes one enabled step off the front. */
  lemma RunHead(r: Recorder, es: seq<Event>)
    requires |es| > 0 && Enabled(r, es[0])
    ensures Run(r, es) == Run(Step(r, es[0]), es[1..])
  {
  }

  lemma RunCons(r: Recorder, e: Event, es: seq<Event>)
    requires Enabled(r, e)
    ensures Run(r, [e] + es) == Run(Step(r, e), es)
  {
    assert ([e] + es)[0] == e;
    assert ([e] + es)[1..] == es;
  }
}
