/** The arc-standard system as a transition system for searches and readers. */
module ArcStandardSystem {
  import opened Wrappers
  import opened HeadGraph
  import opened ParserStates
  import opened ArcStandard
  import opened TransitionSystems
  import opened TrainingBeam
  import ReaderRuns
  import GoldBatches

  /** An annotated sentence and how far its parse has got. */
  datatype ParseState = ParseState(gold: Gold, config: Config)

  predicate Fits(p: ParseState) {
    p.gold.Valid() && Coherent(p.config) && |p.config.head| == p.gold.Size()
  }

  const EMPTY := ParseState(Gold([], [], map[]), Config(0, [-1], [], []))

  type Parse = p: ParseState | Fits(p) witness EMPTY

  /** What Push, Pop, Advance and AddArc check when an action is performed. */
  predicate PassesChecks(p: Parse, action: int) {
    var c := p.config;
    match TypeOf(action)
    case Shift => |c.stack| <= |c.head| && c.next < |c.head|
    case LeftArc => |c.stack| >= 2 && Second(c) >= 0
    case RightArc => |c.stack| >= 2 && Top(c) >= 0
    case NoAction => true
  }

  /** Checks fail only for actions that are not allowed. */
  lemma AllowedPassesChecks(p: Parse, action: int)
    requires IsAllowed(p.config, action)
    ensures PassesChecks(p, action)
  {
    if TypeOf(action) == Shift {
      StackFits(p.config, |p.config.stack| - 1);
    }
  }

  function PerformOn(p: Parse, action: int): Parse {
    if IsAllowed(p.config, action) then
      StepKeepsCoherent(p.config, action);
      p.(config := Step(p.config, action))
    else p
  }

  function GoldActionOf(p: Parse): int {
    if IsFinal(p.config) then -1 else GoldAction(p.gold, p.config)
  }

  function Transitions(): System<Parse> {
    System((p: Parse, a: int) => IsAllowed(p.config, a), (p: Parse) => IsFinal(p.config),
           PassesChecks, PerformOn, GoldActionOf, (p: Parse) => [GoldActionOf(p)])
  }

  /** Exactly the empty sentences are finished from the start. */
  lemma StartIsFinalIffEmpty(g: Gold)
    requires g.Valid()
    ensures IsFinal(Init(g)) <==> g.Size() == 0
  {
  }

  /** No action can be performed on a final state. */
  lemma ArcStandardHalts()
    ensures ReaderRuns.Halts(Transitions())
  {
  }

  /** Every label has a number below the number of labels. */
  predicate Numbered(g: Gold, numLabels: nat) {
    forall l {:trigger l in g.labelMap} :: l in g.labelMap ==> g.labelMap[l] < numLabels
  }

  function NumActions(numLabels: nat): nat {
    1 + 2 * numLabels
  }

  /** A gold parse of a document that training accepts, on the oracle's way. */
  ghost predicate Accepted(p: Parse, numLabels: nat) {
    var g := p.gold;
    && Rooted(g.heads) && Projective(g.heads) && Labelled(g) && Numbered(g, numLabels)
    && Sound(p.config) && OnTrack(g, p.config)
  }

  lemma StartIsAccepted(g: Gold, numLabels: nat)
    requires g.Valid() && Rooted(g.heads) && Projective(g.heads) && Labelled(g) && Numbered(g, numLabels)
    ensures Fits(ParseState(g, Init(g))) && Accepted(ParseState(g, Init(g)), numLabels)
  {
    InitIsSound(g);
    InitIsOnTrack(g);
  }

  lemma GoldActionIsNumbered(p: Parse, numLabels: nat)
    requires Accepted(p, numLabels) && !IsFinal(p.config)
    ensures 0 <= GoldAction(p.gold, p.config) < NumActions(numLabels)
  {
  }

  /** On accepted documents the gold path of the training beam can always go on. */
  lemma AcceptedGoesOn(p: Parse, numLabels: nat)
    requires Accepted(p, numLabels)
    ensures GoldCanGoOn(Transitions(), p, NumActions(numLabels)) && Accepted(NextGold(Transitions(), p), numLabels)
  {
    if !IsFinal(p.config) {
      GoldActionIsNumbered(p, numLabels);
      OracleStaysOnTrack(p.gold, p.config);
      StepKeepsSound(p.config, GoldAction(p.gold, p.config));
    }
  }

  lemma ArcStandardGoesOn(numLabels: nat)
    ensures GoldBatches.GoesOn(Transitions(), p => Accepted(p, numLabels), NumActions(numLabels))
  {
    forall p: Parse | Accepted(p, numLabels)
      ensures GoldCanGoOn(Transitions(), p, NumActions(numLabels)) && Accepted(NextGold(Transitions(), p), numLabels)
    {
      AcceptedGoesOn(p, numLabels);
    }
  }
}
