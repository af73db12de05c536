/** The pose-sequence game of the drawing loop: three target slots, the pose
    last reported by the classifier, the green-flash flag and the reveal flag.

    Every callback of the browser's event loop is one event with a pure step
    function: a classification result, a frame of the drawing loop, and the
    expiry of one of the two kinds of timer. Timers are never cancelled or tied
    to a round; the game only counts how many of each kind are pending, and an
    expiry is possible only while one is. */
module PoseGame {
  import opened Wrappers
  import opened Catalog
  import opened Sampler

  /** A value Math.random can return. */
  type UnitReal = u: real | 0.0 <= u < 1.0

  /** The `state` field of a slot: "current", "default" or "performed". */
  datatype SlotState = Current | Default | Performed

  /** One entry of the target array: a pose name and its state. */
  datatype Slot = Slot(poseName: string, state: SlotState)

  /** `currentDetectedPose`: undefined until the first classification result. */
  datatype Detected = Undefined | Label(name: string)

  /** What the classifier hands to its callback: an error, or its results
      of which only the first (label and confidence) is read. */
  datatype Classification = Failed | Ranked(poseLabel: string, confidence: real)

  /** The module-level variables the game reads and writes, plus the number of
      pending flash-clear and reveal-expiry timers. */
  datatype Game = Game(
    targets: seq<Slot>,
    posesSet: bool,
    detected: Detected,
    poseMatched: bool,
    timeRevealed: bool,
    flashTimers: nat,
    revealTimers: nat)

  /** The result of one callback. Exhausted: the finite random oracle ran out
      before three distinct indices were drawn (the source would go on
      drawing). Crashed: the callback throws a TypeError. */
  datatype Outcome = Next(game: Game) | Exhausted | Crashed

  datatype Event =
    | Classified(result: Classification)
    | Frame(randoms: seq<UnitReal>)
    | FlashExpired
    | RevealExpired(randoms: seq<UnitReal>)

  /** A result counts only when its confidence is strictly above this. */
  const Threshold: real := 0.98

  /** The state before the first frame. */
  const Initial: Game := Game([], false, Undefined, false, false, 0, 0)

  /** The slot names are pairwise distinct. */
  predicate NamesDistinct(t: seq<Slot>) {
    forall i, j :: 0 <= i < |t| && 0 <= j < |t| && i != j ==> t[i].poseName != t[j].poseName
  }

  /** Every slot names a catalogue pose. */
  predicate NamesInCatalog(t: seq<Slot>) {
    forall i :: 0 <= i < |t| ==> t[i].poseName in Poses
  }

  /** gotResults: an error leaves the detected pose alone; otherwise it becomes
      the top label when the confidence exceeds the threshold, and the empty
      string when it does not. */
  function GotResults(d: Detected, c: Classification): (r: Detected)
    ensures c.Failed? ==> r == d
    ensures c.Ranked? ==> r.Label?
    ensures c.Ranked? && c.confidence > Threshold ==> r == Label(c.poseLabel)
    ensures c.Ranked? && c.confidence <= Threshold ==> r == Label("")
  {
    match c
    case Failed => d
    case Ranked(poseLabel, confidence) => if confidence > Threshold then Label(poseLabel) else Label("")
  }

  /** setTargetPoses: three distinct catalogue indices, slot 0 current and the
      other two waiting. */
  function SetTargetPoses(randoms: seq<UnitReal>): (r: Option<seq<Slot>>)
    ensures var idx := FirstOccurrences(Draws(randoms, 0, |Poses| - 1));
            && (r.Some? <==> |idx| >= 3)
            && (r.Some? ==> |r.value| == 3 &&
                            forall i :: 0 <= i < 3 ==> 0 <= idx[i] < |Poses| && r.value[i].poseName == Poses[idx[i]])
    ensures r.Some? ==>
              && r.value[0].state == Current
              && r.value[1].state == Default
              && r.value[2].state == Default
              && NamesDistinct(r.value)
              && NamesInCatalog(r.value)
  {
    var all := FirstOccurrences(Draws(randoms, 0, |Poses| - 1));
    var idx := GetUniqueRandomNumbers(3, 0, |Poses| - 1, randoms);
    SampledIndices(randoms, idx, all);
    if idx.None? then None else Some(FreshTargets(idx.value))
  }

  /** The sampled indices are the first three first occurrences of the
      draws, distinct and valid indices of the catalogue. */
  lemma SampledIndices(randoms: seq<UnitReal>, idx: Option<seq<int>>, all: seq<int>)
    requires idx == GetUniqueRandomNumbers(3, 0, |Poses| - 1, randoms)
    requires all == FirstOccurrences(Draws(randoms, 0, |Poses| - 1))
    ensures idx.Some? <==> |all| >= 3
    ensures idx.Some? ==> && |idx.value| == 3 && Distinct(idx.value)
                          && forall i :: 0 <= i < 3 ==> 0 <= all[i] < |Poses| && idx.value[i] == all[i]
  {
    assert UnitInterval(randoms);
  }

  /** The target array built from three sampled indices. */
  function FreshTargets(idx: seq<int>): (t: seq<Slot>)
    requires |idx| == 3 && Distinct(idx)
    requires forall i :: 0 <= i < 3 ==> 0 <= idx[i] < |Poses|
    ensures |t| == 3 && Shape(t, 0) && NamesDistinct(t) && NamesInCatalog(t)
    ensures forall i :: 0 <= i < 3 ==> t[i].poseName == Poses[idx[i]]
  {
    PosesWellFormed();
    [Slot(Poses[idx[0]], Current), Slot(Poses[idx[1]], Default), Slot(Poses[idx[2]], Default)]
  }

  /** findIndex(pose => pose.state == "current"): the first current slot, or -1. */
  function FindCurrent(t: seq<Slot>): (i: int)
    ensures -1 <= i < |t|
    ensures 0 <= i ==> t[i].state == Current && forall j :: 0 <= j < i ==> t[j].state != Current
    ensures i == -1 ==> forall j :: 0 <= j < |t| ==> t[j].state != Current
  {
    if |t| == 0 then -1
    else if t[0].state == Current then 0
    else
      var k := FindCurrent(t[1..]);
      if k < 0 then -1 else k + 1
  }

  /** find(pose => pose.state == "current")?.poseName: the name of the first
      current slot, undefined when no slot is current. */
  function CurrentSetPose(t: seq<Slot>): (r: Detected)
    ensures r.Undefined? <==> forall j :: 0 <= j < |t| ==> t[j].state != Current
    ensures r.Label? ==> exists j :: && 0 <= j < |t| && t[j].state == Current && t[j].poseName == r.name
                                    && forall k :: 0 <= k < j ==> t[k].state != Current
  {
    var i := FindCurrent(t);
    if i < 0 then Undefined else Label(t[i].poseName)
  }

  /** The match block of a frame. When the current slot's name equals the
      detected pose (both undefined counts as equal, as JavaScript's `==` has
      it) and the time is not revealed: raise the flash and arm its timer, and
      either finish the last slot and open the reveal with its timer, or move
      the current mark one slot on. With no current slot the source indexes
      the array at -1 and throws. */
  function MatchBlock(g: Game): (o: Outcome)
    requires |g.targets| == 3
    ensures !o.Exhausted?
    ensures o.Crashed? <==>
              && g.detected.Undefined? && !g.timeRevealed
              && forall j :: 0 <= j < 3 ==> g.targets[j].state != Current
    ensures (g.timeRevealed || CurrentSetPose(g.targets) != g.detected) ==> o == Next(g)
    ensures o.Next? ==>
              && |o.game.targets| == 3
              && (forall j :: 0 <= j < 3 ==> o.game.targets[j].poseName == g.targets[j].poseName)
              && o.game.detected == g.detected && o.game.posesSet == g.posesSet
    ensures o.Next? && o.game != g ==>
              && o.game.poseMatched && o.game.flashTimers == g.flashTimers + 1
              && o.game.revealTimers == g.revealTimers + (if o.game.timeRevealed then 1 else 0)
  {
    if CurrentSetPose(g.targets) == g.detected && !g.timeRevealed then
      if g.targets[2].state == Current then
        Next(g.(poseMatched := true,
                timeRevealed := true,
                targets := g.targets[2 := g.targets[2].(state := Performed)],
                revealTimers := g.revealTimers + 1,
                flashTimers := g.flashTimers + 1))
      else
        var i := FindCurrent(g.targets);
        if i < 0 then Crashed
        else
          Next(g.(poseMatched := true,
                  targets := g.targets[i := g.targets[i].(state := Performed)]
                                      [i + 1 := g.targets[i + 1].(state := Current)],
                  flashTimers := g.flashTimers + 1))
    else
      Next(g)
  }

  /** A frame of `draw`: the first frame sets the target poses, then the match
      block runs. */
  function FrameStep(g: Game, randoms: seq<UnitReal>): (o: Outcome)
    requires g.posesSet ==> |g.targets| == 3
    ensures o.Exhausted? <==> !g.posesSet && SetTargetPoses(randoms).None?
    ensures !g.posesSet && SetTargetPoses(randoms).Some? ==>
              o == MatchBlock(g.(targets := SetTargetPoses(randoms).value, posesSet := true))
    ensures g.posesSet ==> o == MatchBlock(g)
    ensures o.Next? ==> o.game.posesSet && |o.game.targets| == 3
  {
    if !g.posesSet then
      match SetTargetPoses(randoms)
      case None => Exhausted
      case Some(t) => MatchBlock(g.(targets := t, posesSet := true))
    else
      MatchBlock(g)
  }

  /** The 300 ms timer: clears the flash flag, whichever match armed it. */
  function FlashExpiry(g: Game): (g': Game)
    requires g.flashTimers > 0
    ensures !g'.poseMatched && g'.flashTimers == g.flashTimers - 1
    ensures && g'.targets == g.targets && g'.posesSet == g.posesSet && g'.detected == g.detected
            && g'.timeRevealed == g.timeRevealed && g'.revealTimers == g.revealTimers
  {
    g.(poseMatched := false, flashTimers := g.flashTimers - 1)
  }

  /** The 10 000 ms timer: a fresh sequence, and the reveal closes. */
  function RevealExpiry(g: Game, randoms: seq<UnitReal>): (o: Outcome)
    requires g.revealTimers > 0
    ensures !o.Crashed?
    ensures o.Exhausted? <==> SetTargetPoses(randoms).None?
    ensures o.Next? ==>
              && o.game.targets == SetTargetPoses(randoms).value && Shape(o.game.targets, 0)
              && !o.game.timeRevealed && o.game.revealTimers == g.revealTimers - 1
              && o.game.detected == g.detected && o.game.poseMatched == g.poseMatched
              && o.game.flashTimers == g.flashTimers && o.game.posesSet == g.posesSet
  {
    match SetTargetPoses(randoms)
    case None => Exhausted
    case Some(t) => Next(g.(targets := t, timeRevealed := false, revealTimers := g.revealTimers - 1))
  }

  /** An event can be delivered: a timer only expires while one is pending. */
  predicate Enabled(g: Game, e: Event) {
    match e
    case Classified(_) => true
    case Frame(_) => g.posesSet ==> |g.targets| == 3
    case FlashExpired => g.flashTimers > 0
    case RevealExpired(_) => g.revealTimers > 0
  }

  function Step(g: Game, e: Event): Outcome
    requires Enabled(g, e)
  {
    match e
    case Classified(c) => Next(g.(detected := GotResults(g.detected, c)))
    case Frame(randoms) => FrameStep(g, randoms)
    case FlashExpired => Next(FlashExpiry(g))
    case RevealExpired(randoms) => RevealExpiry(g, randoms)
  }

  /** The slot states read performed^k current default^(2-k); k == 3 means all
      three are performed. */
  predicate Shape(t: seq<Slot>, k: int) {
    |t| == 3 && forall i :: 0 <= i < 3 ==>
      t[i].state == (if i < k then Performed else if i == k then Current else Default)
  }

  /** A round in progress or being revealed. */
  predicate RoundOk(t: seq<Slot>, revealed: bool) {
    && |t| == 3
    && NamesDistinct(t)
    && NamesInCatalog(t)
    && (if revealed then Shape(t, 3) else Shape(t, 0) || Shape(t, 1) || Shape(t, 2))
  }

  /** The invariant of every reachable state. */
  predicate Inv(g: Game) {
    && (g.poseMatched ==> g.flashTimers > 0)
    && g.revealTimers == (if g.timeRevealed then 1 else 0)
    && (!g.posesSet ==> g.targets == [] && !g.timeRevealed && !g.poseMatched && g.flashTimers == 0)
    && (g.posesSet ==> RoundOk(g.targets, g.timeRevealed))
  }

  /** Number of performed slots. */
  function PerformedCount(t: seq<Slot>): nat {
    if |t| == 0 then 0
    else (if t[0].state == Performed then 1 else 0) + PerformedCount(t[1..])
  }
}
