/** One full round, event by event: three matches in order with a wrong pose
    and a flash expiry in between, a detection ignored during the reveal, and
    the fresh sequence after the reveal expiry. */
module PoseGameScenario {
  import opened Wrappers
  import opened Catalog
  import opened Sampler
  import opened PoseGame

  /** The first frame draws indices 0, 1 and 4 and matches nothing yet. */
  lemma FirstFrame()
    ensures Step(Initial, Frame([0.0, 0.2, 0.5]))
              == Next(Initial.(targets := [Slot(Poses[0], Current), Slot(Poses[1], Default), Slot(Poses[4], Default)],
                               posesSet := true))
  {
    FirstRound();
    FrameWith([0.0, 0.2, 0.5], [Slot(Poses[0], Current), Slot(Poses[1], Default), Slot(Poses[4], Default)]);
  }

  /** A first frame that draws a round installs it; the undefined detected
      pose differs from the current slot's name, so nothing matches. */
  lemma FrameWith(randoms: seq<UnitReal>, t: seq<Slot>)
    requires SetTargetPoses(randoms) == Some(t)
    ensures Step(Initial, Frame(randoms)) == Next(Initial.(targets := t, posesSet := true))
  {
    var g := Initial.(targets := t, posesSet := true);
    assert t[0].state == Current;
    assert CurrentSetPose(t) != Undefined;
    assert FrameStep(Initial, randoms) == MatchBlock(g);
  }

  /** The three draws give the round 0, 1, 4. */
  lemma FirstRound()
    ensures SetTargetPoses([0.0, 0.2, 0.5])
              == Some([Slot(Poses[0], Current), Slot(Poses[1], Default), Slot(Poses[4], Default)])
  {
    FirstDraws();
  }

  /** The draws 0, 1, 4 are their own first occurrences. */
  lemma FirstDraws()
    ensures FirstOccurrences(Draws([0.0, 0.2, 0.5], 0, 8)) == [0, 1, 4]
  {
    var d := Draws([0.0, 0.2, 0.5], 0, 8);
    assert d == [0, 1, 4];
    assert d[..2] == [0, 1] && d[..2][..1] == [0] && [0][..0] == [];
  }

  /** A result for `name` at confidence 0.99 followed by a frame. */
  function Detect(g: Game, name: string): Outcome
    requires g.posesSet && |g.targets| == 3
  {
    Step(g.(detected := GotResults(g.detected, Ranked(name, 0.99))), Frame([]))
  }

  /** The states of one round over the names a, b, c of its three slots. */
  function S0(a: string, b: string, c: string): Game {
    Initial.(targets := [Slot(a, Current), Slot(b, Default), Slot(c, Default)], posesSet := true)
  }

  function S1(a: string, b: string, c: string): Game {
    S0(a, b, c).(detected := Label(a), poseMatched := true, flashTimers := 1,
                 targets := [Slot(a, Performed), Slot(b, Current), Slot(c, Default)])
  }

  function S2(a: string, b: string, c: string): Game {
    S1(a, b, c).(poseMatched := false, flashTimers := 0)
  }

  function S3(a: string, b: string, c: string): Game {
    S2(a, b, c).(detected := Label(c))
  }

  function S4(a: string, b: string, c: string): Game {
    S3(a, b, c).(detected := Label(b), poseMatched := true, flashTimers := 1,
                 targets := [Slot(a, Performed), Slot(b, Performed), Slot(c, Current)])
  }

  function S5(a: string, b: string, c: string): Game {
    S4(a, b, c).(detected := Label(c), flashTimers := 2, timeRevealed := true, revealTimers := 1,
                 targets := [Slot(a, Performed), Slot(b, Performed), Slot(c, Performed)])
  }

  function S6(a: string, b: string, c: string): Game {
    S5(a, b, c).(detected := Label(a))
  }

  /** The round drawn on the first frame, played through: the first pose
      matches, its flash expires, a wrong pose is ignored, the second and
      third poses match and open the reveal, and a detection during the
      reveal changes only the detected pose. */
  lemma Round()
    ensures var a, b, c := Poses[0], Poses[1], Poses[4];
            && Detect(S0(a, b, c), a) == Next(S1(a, b, c))
            && Step(S1(a, b, c), FlashExpired) == Next(S2(a, b, c))
            && Detect(S2(a, b, c), c) == Next(S3(a, b, c))
            && Detect(S3(a, b, c), b) == Next(S4(a, b, c))
            && Detect(S4(a, b, c), c) == Next(S5(a, b, c))
            && Detect(S5(a, b, c), a) == Next(S6(a, b, c))
  {
    PosesWellFormed();
    var a, b, c := Poses[0], Poses[1], Poses[4];
    assert a != b && a != c && b != c;
    MatchFirst(a, b, c);
    FlashClears(a, b, c);
    WrongPose(a, b, c);
    MatchSecond(a, b, c);
    MatchLast(a, b, c);
    DuringReveal(a, b, c);
  }

  lemma MatchFirst(a: string, b: string, c: string)
    ensures Detect(S0(a, b, c), a) == Next(S1(a, b, c))
  {
    var t0 := S0(a, b, c).targets;
    assert FindCurrent(t0) == 0;
    assert t0[0 := t0[0].(state := Performed)][1 := t0[1].(state := Current)] == S1(a, b, c).targets;
  }

  lemma FlashClears(a: string, b: string, c: string)
    ensures Step(S1(a, b, c), FlashExpired) == Next(S2(a, b, c))
  {
  }

  lemma WrongPose(a: string, b: string, c: string)
    requires b != c
    ensures Detect(S2(a, b, c), c) == Next(S3(a, b, c))
  {
    var t1 := S2(a, b, c).targets;
    assert FindCurrent(t1[1..]) == 0;
    assert FindCurrent(t1) == 1;
  }

  lemma MatchSecond(a: string, b: string, c: string)
    ensures Detect(S3(a, b, c), b) == Next(S4(a, b, c))
  {
    var t1 := S3(a, b, c).targets;
    assert FindCurrent(t1[1..]) == 0;
    assert FindCurrent(t1) == 1;
    assert t1[1 := t1[1].(state := Performed)][2 := t1[2].(state := Current)] == S4(a, b, c).targets;
  }

  lemma MatchLast(a: string, b: string, c: string)
    ensures Detect(S4(a, b, c), c) == Next(S5(a, b, c))
  {
    var t2 := S4(a, b, c).targets;
    assert FindCurrent(t2[1..][1..]) == 0;
    assert FindCurrent(t2) == 2;
    assert t2[2 := t2[2].(state := Performed)] == S5(a, b, c).targets;
  }

  lemma DuringReveal(a: string, b: string, c: string)
    ensures Detect(S5(a, b, c), a) == Next(S6(a, b, c))
  {
  }

  /** The reveal expiry draws 8, 8, 0, 4: the repeated 8 is skipped and the
      fresh round is 8, 0, 4 with slot 0 current and the reveal closed. */
  lemma AfterReveal(g: Game)
    requires g.revealTimers == 1
    ensures Step(g, RevealExpired([0.9, 0.9, 0.1, 0.5]))
              == Next(g.(targets := [Slot(Poses[8], Current), Slot(Poses[0], Default), Slot(Poses[4], Default)],
                         timeRevealed := false, revealTimers := 0))
  {
    RevealRound();
    RevealWith(g, [0.9, 0.9, 0.1, 0.5], [Slot(Poses[8], Current), Slot(Poses[0], Default), Slot(Poses[4], Default)]);
  }

  lemma RevealWith(g: Game, randoms: seq<UnitReal>, t: seq<Slot>)
    requires g.revealTimers == 1 && SetTargetPoses(randoms) == Some(t)
    ensures Step(g, RevealExpired(randoms)) == Next(g.(targets := t, timeRevealed := false, revealTimers := 0))
  {
    assert RevealExpiry(g, randoms) == Next(g.(targets := t, timeRevealed := false, revealTimers := 0));
  }

  /** The four draws give the round 8, 0, 4. */
  lemma RevealRound()
    ensures SetTargetPoses([0.9, 0.9, 0.1, 0.5])
              == Some([Slot(Poses[8], Current), Slot(Poses[0], Default), Slot(Poses[4], Default)])
  {
    RevealDraws();
  }

  /** The draws 8, 8, 0, 4 first occur as 8, 0, 4. */
  lemma RevealDraws()
    ensures FirstOccurrences(Draws([0.9, 0.9, 0.1, 0.5], 0, 8)) == [8, 0, 4]
  {
    var d := Draws([0.9, 0.9, 0.1, 0.5], 0, 8);
    assert d == [8, 8, 0, 4];
    assert d[..1][..0] == [];
    assert FirstOccurrences(d[..1]) == [8];
    assert d[..2][..1] == d[..1];
    assert FirstOccurrences(d[..2]) == [8];
    assert d[..3][..2] == d[..2];
    assert FirstOccurrences(d[..3]) == [8, 0];
    assert d[..4][..3] == d[..3] && d[..4] == d;
  }
}
