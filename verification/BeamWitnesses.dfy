/** A sentence whose gold path ties with another: in a beam that does not spare gold, the order decides. */
module BeamWitnesses {
  import opened Wrappers
  import opened ParserStates
  import ArcStandard
  import opened TransitionSystems
  import opened TrainingBeam
  import opened ArcStandardSystem

  /** A single token with one of two labels, at its start, after its shift, and with an arc of some label. */
  function Annotated(first: bool): Gold {
    Gold([-1], [if first then "x" else "y"], map["x" := 0, "y" := 1])
  }

  function Ready(first: bool): Parse {
    ParseState(Annotated(first), Config(0, [-1], [-1], [-1]))
  }

  function Shifted(first: bool): Parse {
    ParseState(Annotated(first), Config(1, [-1, 0], [-1], [-1]))
  }

  function Parsed(first: bool, arcLabel: nat): Parse {
    ParseState(Annotated(first), Config(1, [-1], [-1], [arcLabel]))
  }

  /** All actions score the same: a shift and the arcs of two labels. */
  const ROW: seq<real> := [0.0, 0.0, 0.0, 0.0, 0.0]

  const ONE := Options(1, true)

  function StartView(first: bool): BeamView<Parse> {
    BeamView([Item(0.0, Ready(first), true, [], [], [])], Some(Ready(first)), Alive, false)
  }

  function Path(first: bool): Item<Parse> {
    Item(0.0, Shifted(first), true, [0], [0], [0.0])
  }

  function ShiftedView(first: bool): BeamView<Parse> {
    BeamView([Path(first)], Some(Shifted(first)), Alive, false)
  }

  lemma ReadyOnlyShifts(first: bool)
    ensures RowCandidates(Transitions(), StartView(first).slots[0], 0, ROW, 0, 5) == [Path(first)]
  {
    var t, x := Transitions(), StartView(first).slots[0];
    assert Extend(t, x, 0, 0, 0.0, 0) == Path(first) by {
      assert ArcStandard.Step(Ready(first).config, 0) == Shifted(first).config;
    }
    assert RowCandidates(t, x, 0, ROW, 0, 0) == [];
    assert RowCandidates(t, x, 0, ROW, 0, 1) == [Path(first)];
    assert RowCandidates(t, x, 0, ROW, 0, 2) == [Path(first)];
    assert RowCandidates(t, x, 0, ROW, 0, 3) == [Path(first)];
    assert RowCandidates(t, x, 0, ROW, 0, 4) == [Path(first)];
  }

  lemma FirstCandidates(first: bool)
    ensures StepCandidates(Transitions(), StartView(first), [ROW], 5) == [Path(first)]
  {
    ReadyOnlyShifts(first);
    assert Candidates(Transitions(), StartView(first).slots, [ROW], 5, 0, 0) == [];
  }

  lemma OneCandidateStays<S>(x: Item<S>)
    ensures ConsiderAll([x], 1, true) == Agenda([x], false)
  {
    assert [x][..0] == [] && ConsiderAll([x][..0], 1, true) == Agenda([], false);
  }

  lemma GoldShifts(first: bool)
    ensures NextGold(Transitions(), Ready(first)) == Shifted(first)
  {
    assert ArcStandard.Step(Ready(first).config, 0) == Shifted(first).config;
  }

  /** The first step can only shift. */
  lemma FirstStep(first: bool)
    ensures AdvanceView(Transitions(), ONE, StartView(first), [ROW], 5) == ShiftedView(first)
  {
    FirstCandidates(first);
    OneCandidateStays(Path(first));
    GoldShifts(first);
    assert !AllFinal(Transitions(), [Path(first)]) by {
      assert !Transitions().isFinal([Path(first)][0].state);
    }
  }

  function Arc(first: bool, arcLabel: nat): Item<Parse> {
    Item(0.0, Parsed(first, arcLabel), first == (arcLabel == 0), [0, 0], [0, 2 + 2 * arcLabel], [0.0, 0.0])
  }

  lemma ExtendsByArc(first: bool, arcLabel: nat)
    requires arcLabel < 2
    ensures Extend(Transitions(), Path(first), 0, 2 + 2 * arcLabel, 0.0, if first then 2 else 4) == Arc(first, arcLabel)
  {
    assert ArcStandard.Step(Shifted(first).config, 2 + 2 * arcLabel) == Parsed(first, arcLabel).config;
  }

  lemma ShiftedMakesArcs(first: bool)
    ensures RowCandidates(Transitions(), Path(first), 0, ROW, if first then 2 else 4, 5) ==
            [Arc(first, 0), Arc(first, 1)]
  {
    var t, x, g := Transitions(), Path(first), if first then 2 else 4;
    ExtendsByArc(first, 0);
    ExtendsByArc(first, 1);
    assert RowCandidates(t, x, 0, ROW, g, 0) == [];
    assert RowCandidates(t, x, 0, ROW, g, 1) == [];
    assert RowCandidates(t, x, 0, ROW, g, 2) == [];
    assert RowCandidates(t, x, 0, ROW, g, 3) == [Arc(first, 0)];
    assert RowCandidates(t, x, 0, ROW, g, 4) == [Arc(first, 0)];
  }

  /** The second step has two candidates of the same score. */
  lemma SecondStep(first: bool)
    ensures StepCandidates(Transitions(), ShiftedView(first), [ROW], 5) == [Arc(first, 0), Arc(first, 1)]
    ensures GoldCanGoOn(Transitions(), Shifted(first), 5)
  {
    var t, v := Transitions(), ShiftedView(first);
    assert NextGoldAction(t, Shifted(first)) == if first then 2 else 4;
    ShiftedMakesArcs(first);
    assert Candidates(t, v.slots, [ROW], 5, if first then 2 else 4, 0) == [];
  }

  lemma OutscoredIfLast(first: bool, xs: seq<Item<Parse>>)
    requires xs == [Arc(first, 0), Arc(first, 1)]
    ensures GoldCount(xs) == 1 && Rivals(xs, 0.0, true) == 0 && Rivals(xs, 0.0, false) == 1
    ensures Outscored(xs, 1, 0.0) <==> !first
  {
    assert xs[1..] == [Arc(first, 1)] && xs[1..][1..] == [];
    assert GoldCount(xs[1..]) == if first then 0 else 1;
    assert Rivals(xs[1..], 0.0, true) == 0 && Rivals(xs[1..], 0.0, false) == if first then 1 else 0;
    assert xs[..0] == [] && xs[..1] == [Arc(first, 0)] && xs[..1][1..] == [];
    assert PushesOut(xs[..1], xs[1], 1, 0.0) <==> !first;
    assert !PushesOut(xs[..0], xs[0], 1, 0.0);
  }

  lemma GoldScoresZero(first: bool, xs: seq<Item<Parse>>)
    requires xs == [Arc(first, 0), Arc(first, 1)] && GoldCount(xs) == 1
    ensures GoldScore(xs) == 0.0
  {
    var x := if first then xs[0] else xs[1];
    assert x in xs && x.isGold;
  }

  lemma SecondStepTracks(first: bool)
    ensures var v := ShiftedView(first);
            TracksGold(v) && (TracksGold(AdvanceView(Transitions(), ONE, v, [ROW], 5)) <==> first)
  {
    var t, v := Transitions(), ShiftedView(first);
    assert v.slots[1..] == [];
    SecondStep(first);
    var xs := StepCandidates(t, v, [ROW], 5);
    OutscoredIfLast(first, xs);
    GoldScoresZero(first, xs);
    AdvanceTracksGold(t, ONE, v, [ROW], 5);
  }

  lemma ReadyIsInitial(first: bool)
    ensures Ready(first).config == ArcStandard.Init(Annotated(first))
  {
    assert ArcStandard.Init(Annotated(first)).head == [-1];
  }

  /** In a beam of width one that continues until all paths are final, one candidate ties with gold: the beam keeps the
      gold path if gold comes first and loses it if gold comes last. */
  lemma TiesDecideByOrder(first: bool)
    ensures Ready(first).config == ArcStandard.Init(Annotated(first))
    ensures var t, v := Transitions(), AdvanceView(Transitions(), ONE, StartView(first), [ROW], 5);
            && v.status == Alive && TracksGold(v) && GoldCanGoOn(t, v.gold.value, 5) && Covers(t, v.slots, [ROW], 5)
            && (TracksGold(AdvanceView(t, ONE, v, [ROW], 5)) <==> first)
  {
    ReadyIsInitial(first);
    FirstStep(first);
    SecondStep(first);
    SecondStepTracks(first);
  }
}
