/** Properties of the pose-sequence game: the reachable-state invariant, the
    one-slot advance of a matching frame, the reveal guard, the two timer
    expiries, and the confidence gate seen from the match it allows. */
module PoseGameProps {
  import opened Catalog
  import opened Sampler
  import opened PoseGame

  /** While a round is in progress exactly one slot is current, with every
      earlier slot performed and every later one waiting; while the time is
      revealed all three are performed. */
  lemma SingleCurrent(g: Game)
    requires Inv(g) && g.posesSet
    ensures !g.timeRevealed ==>
              var k := FindCurrent(g.targets);
              && 0 <= k < 3
              && (forall i :: 0 <= i < 3 ==> (g.targets[i].state == Current <==> i == k))
              && Shape(g.targets, k)
              && CurrentSetPose(g.targets) == Label(g.targets[k].poseName)
    ensures g.timeRevealed ==> forall i :: 0 <= i < 3 ==> g.targets[i].state == Performed
  {
    if !g.timeRevealed {
      if Shape(g.targets, 0) {
        FindCurrentOfShape(g.targets, 0);
      } else if Shape(g.targets, 1) {
        FindCurrentOfShape(g.targets, 1);
      } else {
        FindCurrentOfShape(g.targets, 2);
      }
    }
  }

  lemma FindCurrentOfShape(t: seq<Slot>, k: int)
    requires 0 <= k < 3 && Shape(t, k)
    ensures FindCurrent(t) == k
  {
    var i := FindCurrent(t);
    assert t[k].state == Current;
    assert 0 <= i;
    assert t[i].state == Current;
  }

  lemma InitialInv()
    ensures Inv(Initial)
  {
  }

  /** A frame whose detected pose is the current slot's name, outside the
      reveal, raises the flash and advances exactly one slot: slot k < 2 is
      performed and slot k + 1 becomes current, or slot 2 is performed and the
      reveal opens with its timer. Names and the detected pose stay. */
  lemma MatchAdvancesOneSlot(g: Game)
    requires Inv(g) && g.posesSet && !g.timeRevealed
    requires g.detected == CurrentSetPose(g.targets)
    ensures var k := FindCurrent(g.targets);
            0 <= k < 3 && g.detected == Label(g.targets[k].poseName) &&
            var r := MatchBlock(g);
            && r.Next?
            && r.game.poseMatched
            && r.game.flashTimers == g.flashTimers + 1
            && r.game.detected == g.detected
            && |r.game.targets| == 3
            && (forall i :: 0 <= i < 3 ==> r.game.targets[i].poseName == g.targets[i].poseName)
            && r.game.targets[k].state == Performed
            && (k < 2 ==> && r.game.targets[k + 1].state == Current
                          && !r.game.timeRevealed
                          && r.game.revealTimers == g.revealTimers
                          && forall i :: 0 <= i < 3 && i != k && i != k + 1 ==>
                                           r.game.targets[i] == g.targets[i])
            && (k == 2 ==> r.game.timeRevealed && r.game.revealTimers == g.revealTimers + 1)
            && PerformedCount(r.game.targets) == PerformedCount(g.targets) + 1
  {
    SingleCurrent(g);
    var k := FindCurrent(g.targets);
    var r := MatchBlock(g);
    assert CurrentSetPose(g.targets) == g.detected;
    ShapeCount(g.targets, k);
    assert Shape(r.game.targets, k + 1);
    ShapeCount(r.game.targets, k + 1);
  }

  /** The number of performed slots of a shape is its index. */
  lemma ShapeCount(t: seq<Slot>, k: int)
    requires 0 <= k <= 3 && Shape(t, k)
    ensures PerformedCount(t) == k
  {
    var c := (i: int) requires 0 <= i < 3 => if t[i].state == Performed then 1 else 0;
    assert PerformedCount(t[2..]) == c(2) by {
      assert t[2..][1..] == [];
    }
    assert t[1..][1..] == t[2..];
    assert PerformedCount(t[1..]) == c(1) + c(2);
  }

  /** A frame during the reveal, or with a detected pose other than the
      current slot's name, changes nothing at all. */
  lemma NoMatchNoChange(g: Game)
    requires |g.targets| == 3
    requires g.timeRevealed || g.detected != CurrentSetPose(g.targets)
    ensures MatchBlock(g) == Next(g)
  {
  }

  /** In a reachable state the match block changes the state exactly when the
      time is not revealed and the detected pose names the current slot. */
  lemma MatchIff(g: Game)
    requires Inv(g) && g.posesSet
    ensures MatchBlock(g).Next?
    ensures MatchBlock(g) != Next(g) <==>
              !g.timeRevealed && g.detected == CurrentSetPose(g.targets)
  {
    SingleCurrent(g);
    if !g.timeRevealed && g.detected == CurrentSetPose(g.targets) {
      MatchAdvancesOneSlot(g);
    } else {
      NoMatchNoChange(g);
    }
  }

  /** Every enabled event keeps the invariant and no callback throws. An
      exhausted oracle is possible only where the source draws random
      numbers: the first frame and the reveal expiry. */
  lemma {:induction false} StepPreservesInv(g: Game, e: Event)
    requires Inv(g) && Enabled(g, e)
    ensures Step(g, e) != Crashed
    ensures Step(g, e).Next? ==> Inv(Step(g, e).game)
    ensures Step(g, e).Exhausted? ==> (e.Frame? && !g.posesSet) || e.RevealExpired?
  {
    match e
    case Classified(c) =>
    case Frame(randoms) =>
      if !g.posesSet {
        var t := SetTargetPoses(randoms);
        if t.Some? {
          var g1 := g.(targets := t.value, posesSet := true);
          assert Shape(t.value, 0);
          assert Inv(g1);
          MatchPreservesInv(g1);
        }
      } else {
        MatchPreservesInv(g);
      }
    case FlashExpired =>
    case RevealExpired(randoms) =>
      var t := SetTargetPoses(randoms);
      if t.Some? {
        assert Shape(t.value, 0);
      }
  }

  lemma MatchPreservesInv(g: Game)
    requires Inv(g) && g.posesSet
    ensures MatchBlock(g).Next? && Inv(MatchBlock(g).game)
  {
    SingleCurrent(g);
    MatchIff(g);
    if MatchBlock(g) != Next(g) {
      MatchAdvancesOneSlot(g);
      var k := FindCurrent(g.targets);
      var t := MatchBlock(g).game.targets;
      SameNames(g.targets, t);
      assert Shape(t, k + 1);
    }
  }

  /** Slots that keep their names keep the names distinct and in the
      catalogue. */
  lemma SameNames(t: seq<Slot>, u: seq<Slot>)
    requires |t| == 3 && NamesDistinct(t) && NamesInCatalog(t)
    requires |u| == 3 && forall i :: 0 <= i < 3 ==> u[i].poseName == t[i].poseName
    ensures NamesDistinct(u) && NamesInCatalog(u)
  {
  }

  /** The reveal expiry installs a fresh sequence with slot 0 current and
      closes the reveal; it fails only when the oracle has fewer than three
      distinct indices to offer. */
  lemma RevealExpiryRestarts(g: Game, randoms: seq<UnitReal>)
    requires Inv(g) && g.timeRevealed
    ensures var r := Step(g, RevealExpired(randoms));
            && (r.Exhausted? <==> |FirstOccurrences(Draws(randoms, 0, |Poses| - 1))| < 3)
            && (r.Next? ==>
                  && r.game.targets == SetTargetPoses(randoms).value
                  && Shape(r.game.targets, 0)
                  && !r.game.timeRevealed
                  && r.game.revealTimers == 0
                  && r.game.detected == g.detected
                  && r.game.poseMatched == g.poseMatched)
  {
    var t := SetTargetPoses(randoms);
    if t.Some? {
      assert Shape(t.value, 0);
    }
  }

  /** The flash expiry only lowers the flash flag: the slots, the reveal flag
      and the detected pose are untouched. */
  lemma FlashExpiryOnlyClearsFlash(g: Game)
    requires g.flashTimers > 0
    ensures var r := Step(g, FlashExpired);
            && r.Next?
            && !r.game.poseMatched
            && r.game.targets == g.targets
            && r.game.timeRevealed == g.timeRevealed
            && r.game.detected == g.detected
            && r.game.revealTimers == g.revealTimers
  {
  }

  /** The flash flag never blocks a transition: the match block reads it
      nowhere, so a frame does the same with the flag up or down. */
  lemma FlashDoesNotBlock(g: Game, b: bool)
    requires |g.targets| == 3
    ensures var r1 := MatchBlock(g);
            var r2 := MatchBlock(g.(poseMatched := b));
            && r1.Next? == r2.Next?
            && (r1.Next? ==> r1.game.targets == r2.game.targets
                             && r1.game.timeRevealed == r2.game.timeRevealed
                             && r1.game.flashTimers == r2.game.flashTimers)
  {
  }

  /** The confidence gate seen from the frame after it: in a round in
      progress, a ranked result makes the next frame advance exactly when its
      label is the current slot's name and its confidence is strictly above
      0.98. */
  lemma ClassifiedThenFrame(g: Game, name: string, confidence: real, randoms: seq<UnitReal>)
    requires Inv(g) && g.posesSet && !g.timeRevealed
    ensures var g1 := Step(g, Classified(Ranked(name, confidence))).game;
            var r := Step(g1, Frame(randoms));
            var k := FindCurrent(g.targets);
            && 0 <= k < 3
            && r.Next?
            && (r != Next(g1) <==> name == g.targets[k].poseName && confidence > Threshold)
  {
    var g1 := Step(g, Classified(Ranked(name, confidence))).game;
    SingleCurrent(g);
    PosesWellFormed();
    var k := FindCurrent(g.targets);
    assert g.targets[k].poseName in Poses;
    assert g.targets[k].poseName != "";
    assert CurrentSetPose(g.targets) == Label(g.targets[k].poseName);
    MatchIff(g1);
  }

  /** Exactly 0.98 is not enough; 0.981 is. */
  lemma ThresholdBoundary(d: Detected, name: string)
    ensures GotResults(d, Ranked(name, 0.98)) == Label("")
    ensures GotResults(d, Ranked(name, 0.981)) == Label(name)
  {
  }

  /** Repeated frames with no other event in between. */
  function Frames(g: Game, n: nat): Outcome
    requires g.posesSet && |g.targets| == 3
    decreases n
  {
    if n == 0 then Next(g)
    else
      match MatchBlock(g)
      case Next(g1) => if |g1.targets| == 3 then Frames(g1, n - 1) else Next(g1)
      case other => other
  }

  /** With an unchanged detected pose, any number of frames advance at most
      one slot: after a match the new current slot has a different name, or
      the reveal guard is up. */
  lemma {:induction false} FramesAdvanceAtMostOne(g: Game, n: nat)
    requires Inv(g) && g.posesSet
    ensures Frames(g, n).Next?
    ensures PerformedCount(Frames(g, n).game.targets) <= PerformedCount(g.targets) + 1
  {
    MatchIff(g);
    if n > 0 {
      if MatchBlock(g) == Next(g) {
        FramesIdle(g, n);
      } else {
        MatchSettles(g);
        FramesIdle(MatchBlock(g).game, n - 1);
      }
    }
  }

  /** After one match the next frame's match block changes nothing. */
  lemma MatchSettles(g: Game)
    requires Inv(g) && g.posesSet && MatchBlock(g) != Next(g)
    ensures MatchBlock(g).Next?
    ensures var g1 := MatchBlock(g).game;
            && g1.posesSet && |g1.targets| == 3 && MatchBlock(g1) == Next(g1)
            && PerformedCount(g1.targets) <= PerformedCount(g.targets) + 1
  {
    MatchIff(g);
    MatchAdvancesOneSlot(g);
    var g1 := MatchBlock(g).game;
    MatchPreservesInv(g);
    SingleCurrent(g1);
    if !g1.timeRevealed {
      var k := FindCurrent(g.targets);
      assert g1.targets[k + 1].poseName != g.targets[k].poseName;
    }
    MatchIff(g1);
  }

  /** Frames over a state the match block leaves unchanged change nothing. */
  lemma {:induction false} FramesIdle(g: Game, n: nat)
    requires g.posesSet && |g.targets| == 3 && MatchBlock(g) == Next(g)
    ensures Frames(g, n) == Next(g)
    decreases n
  {
    if n > 0 {
      FramesIdle(g, n - 1);
    }
  }

  /** Callbacks in order; the run ends at an event that cannot be delivered
      (an expiry with no pending timer) or at a callback that does not return
      a state. */
  function Run(g: Game, es: seq<Event>): Outcome
    decreases |es|
  {
    if |es| == 0 || !Enabled(g, es[0]) then Next(g)
    else
      match Step(g, es[0])
      case Next(g1) => Run(g1, es[1..])
      case other => other
  }

  /** Every state reachable from the initial one satisfies the invariant, and
      no callback on the way throws. */
  lemma {:induction false} RunKeepsInv(g: Game, es: seq<Event>)
    requires Inv(g)
    ensures Run(g, es) != Crashed
    ensures Run(g, es).Next? ==> Inv(Run(g, es).game)
    decreases |es|
  {
    if |es| > 0 && Enabled(g, es[0]) {
      StepPreservesInv(g, es[0]);
      if Step(g, es[0]).Next? {
        RunKeepsInv(Step(g, es[0]).game, es[1..]);
      }
    }
  }

  lemma ReachableInv(es: seq<Event>)
    ensures Run(Initial, es) != Crashed
    ensures Run(Initial, es).Next? ==> Inv(Run(Initial, es).game)
  {
    InitialInv();
    RunKeepsInv(Initial, es);
  }

  /** Detections are not cleared when a round ends: if the fresh sequence
      starts with the pose still held as detected, the first frame after the
      reveal advances without any new classification result. */
  lemma StaleDetectionCarriesOver(g: Game, randoms: seq<UnitReal>)
    requires Inv(g) && g.timeRevealed
    requires SetTargetPoses(randoms).Some?
    requires g.detected == Label(SetTargetPoses(randoms).value[0].poseName)
    ensures var g1 := Step(g, RevealExpired(randoms)).game;
            var r := Step(g1, Frame([]));
            && r.Next?
            && r.game.targets[0].state == Performed
            && r.game.targets[1].state == Current
  {
    RevealExpiryRestarts(g, randoms);
    var g1 := Step(g, RevealExpired(randoms)).game;
    assert Inv(g1) by { StepPreservesInv(g, RevealExpired(randoms)); }
    FindCurrentOfShape(g1.targets, 0);
    MatchAdvancesOneSlot(g1);
  }
}
