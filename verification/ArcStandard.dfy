/** The arc-standard transition system: actions, runs and the gold oracle. */
module ArcStandard {
  import opened Wrappers
  import opened HeadGraph
  import opened ParserStates

  // ----- Action encoding -----

  const SHIFT := 0

  function LeftArcAction(arcLabel: int): int {
    1 + 2 * arcLabel
  }

  function RightArcAction(arcLabel: int): int {
    1 + (2 * arcLabel + 1)
  }

  datatype ActionType = Shift | LeftArc | RightArc | NoAction

  function TypeOf(action: int): ActionType {
    if action == SHIFT then Shift
    else if action < 0 then NoAction
    else if action % 2 == 1 then LeftArc
    else RightArc
  }

  function LabelOf(action: int): int {
    if action < 1 then -1 else (action - 1) / 2
  }

  /** The two arc encodings are decodable exactly for non-negative labels. */
  lemma ArcsDecodeIffLabelled(arcLabel: int)
    ensures TypeOf(LeftArcAction(arcLabel)) == LeftArc && LabelOf(LeftArcAction(arcLabel)) == arcLabel <==>
              arcLabel >= 0
    ensures TypeOf(RightArcAction(arcLabel)) == RightArc && LabelOf(RightArcAction(arcLabel)) == arcLabel <==>
              arcLabel >= 0
    ensures arcLabel == -1 ==> TypeOf(LeftArcAction(arcLabel)) == NoAction && TypeOf(RightArcAction(arcLabel)) == Shift
  {
    if arcLabel >= 0 {
      assert (2 * arcLabel) / 2 == arcLabel && (2 * arcLabel + 1) / 2 == arcLabel;
    }
  }

  // ----- Steps -----

  function Init(g: Gold): Config {
    Config(0, [-1], seq(g.Size(), _ => -1), seq(g.Size(), _ => g.RootLabel()))
  }

  function Top(c: Config): int
    requires c.stack != []
  {
    c.stack[|c.stack| - 1]
  }

  function Second(c: Config): int
    requires |c.stack| >= 2
  {
    c.stack[|c.stack| - 2]
  }

  predicate IsFinal(c: Config) {
    c.next == |c.head| && |c.stack| < 2
  }

  predicate IsAllowed(c: Config, action: int) {
    match TypeOf(action)
    case Shift => c.next != |c.head|
    case LeftArc => |c.stack| > 2
    case RightArc => |c.stack| > 1
    case NoAction => false
  }

  /** The stack climbs from the artificial root through tokens already read. */
  predicate Coherent(c: Config) {
    && c.next <= |c.head| == |c.arcLabel|
    && c.stack != [] && c.stack[0] == -1
    && (forall j, k :: 0 <= j < k < |c.stack| ==> c.stack[j] < c.stack[k])
    && (forall k :: 0 <= k < |c.stack| ==> -1 <= c.stack[k] < c.next)
  }

  lemma {:induction false} StackFits(c: Config, k: nat)
    requires Coherent(c) && k < |c.stack|
    ensures k <= c.stack[k] + 1
  {
    if k > 0 {
      StackFits(c, k - 1);
    }
  }

  function Step(c: Config, action: int): Config
    requires Coherent(c) && IsAllowed(c, action)
  {
    var n := |c.stack|;
    match TypeOf(action)
    case Shift => c.(stack := c.stack + [c.next], next := c.next + 1)
    case LeftArc =>
      c.(stack := c.stack[..n - 2] + [Top(c)],
         head := c.head[Second(c) := Top(c)], arcLabel := c.arcLabel[Second(c) := LabelOf(action)])
    case RightArc =>
      c.(stack := c.stack[..n - 1],
         head := c.head[Top(c) := Second(c)], arcLabel := c.arcLabel[Top(c) := LabelOf(action)])
  }

  /** A token that has no head yet: it is on the stack or still in the input. */
  predicate Open(c: Config, t: int) {
    t in c.stack || t >= c.next
  }

  /** The number of actions still to come. */
  function Remaining(c: Config): int {
    2 * (|c.head| - c.next) + |c.stack| - 1
  }

  /** Open tokens have no head; closed ones have a labelled arc into the part already read. */
  predicate Settled(c: Config)
    requires Coherent(c)
  {
    && (forall t :: 0 <= t < |c.head| && Open(c, t) ==> c.head[t] == -1)
    && (forall t :: 0 <= t < |c.head| && !Open(c, t) ==> c.head[t] < c.next && c.arcLabel[t] >= 0)
  }

  /** No arc built so far reaches over a stack token. */
  predicate Uncovered(c: Config) {
    forall t, k :: 0 <= t < |c.head| && !Open(c, t) && 0 <= k < |c.stack| ==>
                     !(Lo(c.head, t) < c.stack[k] < Hi(c.head, t))
  }

  /** No two arcs built so far cross. */
  predicate Uncrossed(c: Config) {
    forall t, u :: 0 <= t < |c.head| && 0 <= u < |c.head| && !Open(c, t) && !Open(c, u) ==>
                     !Cross(c.head, t, u)
  }

  /** What every run of allowed actions keeps. */
  ghost predicate Sound(c: Config) {
    Coherent(c) && Rooted(c.head) && Settled(c) && Uncovered(c) && Uncrossed(c)
  }

  lemma InitIsSound(g: Gold)
    requires g.Valid()
    ensures Sound(Init(g)) && Remaining(Init(g)) == 2 * g.Size()
  {
    var c := Init(g);
    forall i | 0 <= i < |c.head| ensures Under(c.head, i, -1) {
      assert Up(c.head, i, 1) == -1;
    }
  }

  /** An arc action takes exactly one token, the dependent, out of the open ones. */
  lemma ArcCloses(c: Config, action: int, t: int)
    requires Coherent(c) && IsAllowed(c, action) && TypeOf(action) != Shift
    ensures Open(Step(c, action), t) <==> Open(c, t) && t != Dependent(c, action)
  {
    var s, s' := c.stack, Step(c, action).stack;
    if t in s {
      var k :| 0 <= k < |s| && s[k] == t;
      if TypeOf(action) == LeftArc {
        assert k < |s| - 2 ==> s'[k] == t;
        assert k == |s| - 1 ==> s'[|s| - 2] == t;
      } else {
        assert k < |s| - 1 ==> s'[k] == t;
      }
    }
  }

  lemma BetweenIsClosed(c: Config, k: nat, t: int)
    requires Coherent(c) && k + 1 < |c.stack| && c.stack[k] < t < c.stack[k + 1]
    ensures !Open(c, t)
  {
    if t in c.stack {
      var j :| 0 <= j < |c.stack| && c.stack[j] == t && (j <= k || k + 1 <= j);
    }
  }

  function Dependent(c: Config, action: int): int
    requires |c.stack| >= 2
  {
    if TypeOf(action) == LeftArc then Second(c) else Top(c)
  }

  function Governor(c: Config, action: int): int
    requires |c.stack| >= 2
  {
    if TypeOf(action) == LeftArc then Top(c) else Second(c)
  }

  lemma ArcKeepsRooted(c: Config, action: int)
    requires Sound(c) && IsAllowed(c, action) && TypeOf(action) != Shift
    ensures Rooted(Step(c, action).head)
  {
    var d, u := Dependent(c, action), Governor(c, action);
    assert d in c.stack && u in c.stack;
    assert forall k: nat :: Up(c.head, -1, k) == -1;
    if u != -1 {
      UnderHead(c.head, u, d);
    }
    Rehang(c.head, d, u);
  }

  lemma ArcKeepsSettled(c: Config, action: int)
    requires Coherent(c) && Settled(c) && IsAllowed(c, action) && TypeOf(action) != Shift
    ensures Coherent(Step(c, action)) && Settled(Step(c, action))
  {
    forall t ensures Open(Step(c, action), t) <==> Open(c, t) && t != Dependent(c, action) {
      ArcCloses(c, action, t);
    }
  }

  lemma ArcKeepsUncovered(c: Config, action: int)
    requires Coherent(c) && Uncovered(c) && IsAllowed(c, action) && TypeOf(action) != Shift
    ensures Uncovered(Step(c, action))
  {
    var c', n := Step(c, action), |c.stack|;
    forall t, k | 0 <= t < |c.head| && !Open(c', t) && 0 <= k < |c'.stack|
      ensures !(Lo(c'.head, t) < c'.stack[k] < Hi(c'.head, t))
    {
      ArcCloses(c, action, t);
      var k0 := if k == n - 2 && TypeOf(action) == LeftArc then n - 1 else k;
      assert c'.stack[k] == c.stack[k0];
    }
  }

  lemma NewArcIsUncrossed(c: Config, action: int, t: int)
    requires Coherent(c) && Uncovered(c) && IsAllowed(c, action) && TypeOf(action) != Shift
    requires 0 <= t < |c.head| && !Open(c, t)
    ensures var h := Step(c, action).head; var d := Dependent(c, action);
            !Cross(h, t, d) && !Cross(h, d, t)
  {
    var h, d, n := Step(c, action).head, Dependent(c, action), |c.stack|;
    assert t != d && Lo(h, d) == c.stack[n - 2] && Hi(h, d) == c.stack[n - 1];
    assert !(Lo(c.head, t) < c.stack[n - 2] < Hi(c.head, t));
    assert !(Lo(c.head, t) < c.stack[n - 1] < Hi(c.head, t));
  }

  lemma ArcKeepsUncrossed(c: Config, action: int)
    requires Coherent(c) && Uncovered(c) && Uncrossed(c) && IsAllowed(c, action) && TypeOf(action) != Shift
    ensures Uncrossed(Step(c, action))
  {
    var c', d := Step(c, action), Dependent(c, action);
    forall t | 0 <= t < |c.head| && !Open(c', t)
      ensures t == d || (!Open(c, t) && !Cross(c'.head, t, d) && !Cross(c'.head, d, t))
    {
      ArcCloses(c, action, t);
      if t != d {
        NewArcIsUncrossed(c, action, t);
      }
    }
    forall t, u | 0 <= t < |c.head| && 0 <= u < |c.head| && !Open(c', t) && !Open(c', u)
      ensures !Cross(c'.head, t, u)
    {
      assert t != d && u != d ==> !Cross(c.head, t, u);
    }
  }

  lemma ShiftOpensNothing(c: Config, t: int)
    requires Coherent(c) && IsAllowed(c, SHIFT)
    ensures Open(Step(c, SHIFT), t) <==> Open(c, t)
  {
    var c' := Step(c, SHIFT);
    assert t in c.stack ==> t in c'.stack;
    assert c'.stack[|c.stack|] == c.next;
  }

  lemma ShiftKeepsSound(c: Config)
    requires Sound(c) && IsAllowed(c, SHIFT)
    ensures Sound(Step(c, SHIFT))
  {
    forall t ensures Open(Step(c, SHIFT), t) <==> Open(c, t) {
      ShiftOpensNothing(c, t);
    }
  }

  lemma StepKeepsSound(c: Config, action: int)
    requires Sound(c) && IsAllowed(c, action)
    ensures Sound(Step(c, action)) && Remaining(Step(c, action)) == Remaining(c) - 1
  {
    if TypeOf(action) == Shift {
      ShiftKeepsSound(c);
    } else {
      ArcKeepsRooted(c, action);
      ArcKeepsSettled(c, action);
      ArcKeepsUncovered(c, action);
      ArcKeepsUncrossed(c, action);
    }
  }

  // ----- Runs of allowed actions -----

  /** The configuration after performing the actions, or None at the first one not allowed. */
  ghost function Run(c: Config, actions: seq<int>): (r: Option<Config>)
    requires Sound(c)
    decreases |actions|
  {
    if actions == [] then Some(c)
    else if !IsAllowed(c, actions[0]) then None
    else
      StepKeepsSound(c, actions[0]);
      Run(Step(c, actions[0]), actions[1..])
  }

  lemma {:induction false} RunKeepsSound(c: Config, actions: seq<int>)
    requires Sound(c) && Run(c, actions).Some?
    ensures var d := Run(c, actions).value;
            Sound(d) && |d.head| == |c.head| && Remaining(d) == Remaining(c) - |actions|
    decreases |actions|
  {
    if actions != [] {
      StepKeepsSound(c, actions[0]);
      RunKeepsSound(Step(c, actions[0]), actions[1..]);
    }
  }

  lemma FinalIffNothingRemains(c: Config)
    requires Sound(c)
    ensures Remaining(c) >= 0 && (IsFinal(c) <==> Remaining(c) == 0)
    ensures IsFinal(c) <==> forall a :: !IsAllowed(c, a)
  {
    if !IsFinal(c) {
      assert IsAllowed(c, SHIFT) || IsAllowed(c, RightArcAction(0));
    }
  }

  lemma FinalIsTree(c: Config)
    requires Sound(c) && IsFinal(c)
    ensures Rooted(c.head) && Projective(c.head)
    ensures forall t :: 0 <= t < |c.head| ==> c.arcLabel[t] >= 0
  {
    forall t | 0 <= t < |c.head| ensures !Open(c, t) {
    }
  }

  ghost function RunFromStart(g: Gold, actions: seq<int>): Option<Config>
    requires g.Valid()
  {
    InitIsSound(g);
    Run(Init(g), actions)
  }

  /** Every run of allowed actions is at most 2n long, is never stuck before it is final,
      and is final exactly after 2n actions, when it holds a projective tree. */
  lemma EveryRunBuildsAProjectiveTree(g: Gold, actions: seq<int>)
    requires g.Valid() && RunFromStart(g, actions).Some?
    ensures var c := RunFromStart(g, actions).value;
            && Coherent(c) && |actions| <= 2 * g.Size()
            && (IsFinal(c) <==> |actions| == 2 * g.Size())
            && (!IsFinal(c) ==> exists a :: IsAllowed(c, a))
            && (IsFinal(c) ==> Rooted(c.head) && Projective(c.head))
  {
    InitIsSound(g);
    RunKeepsSound(Init(g), actions);
    var c := RunFromStart(g, actions).value;
    FinalIffNothingRemains(c);
    if IsFinal(c) {
      FinalIsTree(c);
    }
  }

  // ----- The gold oracle -----

  /** The scan for further children of head, skipping forward over left arcs. */
  predicate ScanDone(g: Gold, index: nat, head: int)
    requires g.Valid() && index <= g.Size()
    decreases g.Size() - index
  {
    if index == g.Size() then true
    else if g.heads[index] == head then false
    else ScanDone(g, if g.heads[index] > index then g.heads[index] else index + 1, head)
  }

  /** From token i the scan goes on to the next one, or to the head of i if that lies further on. */
  predicate ScansOn(g: Gold, i: int, j: int)
    requires g.Valid()
  {
    0 <= i < g.Size() && j == if g.heads[i] > i then g.heads[i] else i + 1
  }

  /** The tokens the scan comes to, up to the end of the input. */
  predicate ScanPath(g: Gold, path: seq<int>, index: int)
    requires g.Valid()
  {
    && path != [] && path[0] == index && path[|path| - 1] == g.Size()
    && forall k :: 0 <= k < |path| - 1 ==> ScansOn(g, path[k], path[k + 1])
  }

  /** On any tree the scan is done exactly if none of the tokens it comes to has that head. */
  lemma {:induction false} ScanFollowsPath(g: Gold, path: seq<int>, index: nat, head: int)
    requires g.Valid() && index <= g.Size() && ScanPath(g, path, index)
    ensures ScanDone(g, index, head) <==> forall i :: i in path && 0 <= i < g.Size() ==> g.heads[i] != head
  {
    if |path| > 1 {
      var rest := path[1..];
      assert path == [index] + rest && ScansOn(g, path[0], path[1]);
      forall k | 0 <= k < |rest| - 1 ensures ScansOn(g, rest[k], rest[k + 1]) {
        assert ScansOn(g, path[k + 1], path[k + 1 + 1]);
      }
      ScanFollowsPath(g, rest, path[1], head);
    }
  }

  lemma {:induction false} ScanPathExists(g: Gold, index: nat) returns (path: seq<int>)
    requires g.Valid() && index <= g.Size()
    ensures ScanPath(g, path, index)
    decreases g.Size() - index
  {
    path := [index];
    if index < g.Size() {
      var rest := ScanPathExists(g, if g.heads[index] > index then g.heads[index] else index + 1);
      path := [index] + rest;
    }
  }

  /** The skipping scan agrees with a plain scan of every remaining token. */
  lemma {:induction false} ScanAgrees(g: Gold, index: nat, head: int)
    requires g.Valid() && Projective(g.heads) && index <= g.Size() && head < index
    ensures ScanDone(g, index, head) <==> forall j :: index <= j < g.Size() ==> g.heads[j] != head
    decreases g.Size() - index
  {
    if index < g.Size() && g.heads[index] != head {
      var skip := if g.heads[index] > index then g.heads[index] else index + 1;
      ScanAgrees(g, skip, head);
      forall j | index <= j < skip ensures g.heads[j] != head {
        assert !Cross(g.heads, j, index);
      }
    }
  }

  function GoldAction(g: Gold, c: Config): int
    requires g.Valid() && Coherent(c) && |c.head| == g.Size() && !IsFinal(c)
  {
    if |c.stack| < 2 then SHIFT
    else if g.GoldHead(Top(c)) == Second(c) && ScanDone(g, c.next, Top(c)) then
      RightArcAction(g.GoldLabel(Top(c)))
    else if g.GoldHead(Second(c)) == Top(c) then
      LeftArcAction(g.GoldLabel(Second(c)))
    else SHIFT
  }

  lemma StepKeepsCoherent(c: Config, action: int)
    requires Coherent(c) && IsAllowed(c, action)
    ensures Coherent(Step(c, action)) && |Step(c, action).head| == |c.head|
  {
  }

  /** One gold action, if the state is not final and the action is allowed. */
  function OracleStep(g: Gold, c: Config): Option<Config>
    requires g.Valid()
  {
    if !Coherent(c) || |c.head| != g.Size() || IsFinal(c) || !IsAllowed(c, GoldAction(g, c)) then None
    else Some(Step(c, GoldAction(g, c)))
  }

  /** The oracle run from the initial configuration: k gold actions, each of them allowed. */
  function OracleRun(g: Gold, k: nat): Option<Config>
    requires g.Valid()
  {
    Chain(c => OracleStep(g, c), Init(g), k)
  }

  lemma {:induction false} OracleRunIsSound(g: Gold, k: nat)
    requires g.Valid() && OracleRun(g, k).Some?
    ensures var c := OracleRun(g, k).value; Sound(c) && |c.head| == g.Size() && Remaining(c) == 2 * g.Size() - k
  {
    if k == 0 {
      InitIsSound(g);
    } else {
      OracleRunIsSound(g, k - 1);
      var c := OracleRun(g, k - 1).value;
      StepKeepsSound(c, GoldAction(g, c));
    }
  }

  /** The oracle's run is final after exactly 2n actions. */
  lemma OracleRunCounts(g: Gold, k: nat)
    requires g.Valid() && OracleRun(g, k).Some?
    ensures k <= 2 * g.Size() && (IsFinal(OracleRun(g, k).value) <==> k == 2 * g.Size())
  {
    OracleRunIsSound(g, k);
    FinalIffNothingRemains(OracleRun(g, k).value);
  }

  /** A gold action that is not allowed ends the oracle's run for good. */
  lemma OracleRunStops(g: Gold, k: nat, m: nat)
    requires g.Valid() && k <= m && OracleRun(g, k).None?
    ensures OracleRun(g, m).None?
  {
    ChainStops(c => OracleStep(g, c), Init(g), k, m);
  }

  ghost predicate Rebuilds(g: Gold, c: Config)
    requires g.Valid()
  {
    c.head == g.heads && c.arcLabel == seq(g.Size(), i requires 0 <= i < g.Size() => g.GoldLabel(i))
  }

  /** Every label has a number: it is in the dictionary, or else the root label is. */
  predicate Labelled(g: Gold)
    requires g.Valid()
  {
    ROOT_LABEL in g.labelMap || forall i :: 0 <= i < g.Size() ==> g.labels[i] in g.labelMap
  }

  /** Closed tokens have their gold arcs. */
  predicate GoldArcs(g: Gold, c: Config)
    requires g.Valid() && Coherent(c) && |c.head| == g.Size()
  {
    forall t :: 0 <= t < g.Size() && !Open(c, t) ==> c.head[t] == g.heads[t] && c.arcLabel[t] == g.GoldLabel(t)
  }

  /** Closed tokens have their gold arcs, and no open children. */
  predicate Copied(g: Gold, c: Config)
    requires g.Valid() && Coherent(c) && |c.head| == g.Size()
  {
    && GoldArcs(g, c)
    && (forall t :: 0 <= t < g.Size() && Open(c, t) && g.heads[t] != -1 ==> Open(c, g.heads[t]))
  }

  /** No arc between neighbours on the stack has been passed over. */
  ghost predicate NothingPassed(g: Gold, c: Config)
    requires g.Valid() && Coherent(c) && |c.head| == g.Size()
  {
    && (forall k :: 0 <= k < |c.stack| - 2 ==> g.GoldHead(c.stack[k]) != c.stack[k + 1])
    && forall k :: 1 <= k < |c.stack| - 1 && g.heads[c.stack[k]] == c.stack[k - 1] ==>
         HasOpenRightChild(g, c, c.stack[k])
  }

  /** What the oracle keeps on a projective tree. */
  ghost predicate OnTrack(g: Gold, c: Config)
    requires g.Valid()
  {
    Coherent(c) && |c.head| == g.Size() && Copied(g, c) && NothingPassed(g, c)
  }

  ghost predicate HasOpenRightChild(g: Gold, c: Config, t: int)
    requires t >= -1
  {
    exists u :: t < u < g.Size() && Open(c, u) && g.heads[u] == t
  }

  ghost predicate RunOnTrack(g: Gold, k: nat)
    requires g.Valid()
  {
    OracleRun(g, k).Some? && OnTrack(g, OracleRun(g, k).value)
  }

  lemma InitIsOnTrack(g: Gold)
    requires g.Valid()
    ensures RunOnTrack(g, 0)
  {
    InitIsSound(g);
  }

  /** A stack token that sits under an arc ending at another stack token, and whose own head
      lies to its left, has its head right below it on the stack and an open child to its right. */
  lemma OpenHeadIsOnStack(g: Gold, c: Config, p: nat)
    requires g.Valid() && OnTrack(g, c) && 1 <= p < |c.stack|
    requires g.heads[c.stack[p]] < c.stack[p]
    ensures g.heads[c.stack[p]] >= c.stack[p - 1] ==> g.heads[c.stack[p]] == c.stack[p - 1]
  {
    var x := g.heads[c.stack[p]];
    assert c.stack[p] in c.stack;
    if c.stack[p - 1] < x {
      BetweenIsClosed(c, p - 1, x);
    }
  }

  lemma OpenHeadIsOutside(g: Gold, c: Config, p: nat)
    requires g.Valid() && OnTrack(g, c) && 1 <= p < |c.stack| - 1
    ensures !(c.stack[p] < g.heads[c.stack[p]] < c.stack[p + 1])
  {
    assert c.stack[p] in c.stack;
    if c.stack[p] < g.heads[c.stack[p]] < c.stack[p + 1] {
      BetweenIsClosed(c, p, g.heads[c.stack[p]]);
    }
  }

  /** No stack token is strictly under an arc that ends at the stack token right above it. */
  lemma {:induction false} HeadNotBelowNeighbour(g: Gold, c: Config, p: nat)
    requires g.Valid() && Rooted(g.heads) && Projective(g.heads) && OnTrack(g, c)
    requires 1 <= p < |c.stack| && g.GoldHead(c.stack[p - 1]) != c.stack[p]
    ensures g.heads[c.stack[p]] >= c.stack[p - 1]
    decreases p, 0
  {
    var h, b, y := g.heads, c.stack[p], c.stack[p - 1];
    if h[b] < y {
      ArcsStopAtNeighbour(g, c, p - 1, b);
    }
  }

  /** An arc whose right end is a stack token does not start below the stack token next to it,
      unless those two stack tokens are linked themselves. */
  lemma {:induction false} ArcsStopAtNeighbour(g: Gold, c: Config, p: nat, d: int)
    requires g.Valid() && Rooted(g.heads) && Projective(g.heads) && OnTrack(g, c)
    requires 1 <= p < |c.stack| - 1 && 0 <= d < g.Size() && Hi(g.heads, d) == c.stack[p + 1]
    requires g.heads[c.stack[p]] != c.stack[p + 1] && g.heads[c.stack[p + 1]] != c.stack[p]
    ensures Lo(g.heads, d) >= c.stack[p]
    decreases p, 1
  {
    var h, y := g.heads, c.stack[p];
    if Lo(g.heads, d) < y {
      forall u | y < u < g.Size() && Open(c, u) && h[u] == y
        ensures Cross(h, d, u)
      {
        if u < c.stack[p + 1] {
          BetweenIsClosed(c, p, u);
        }
      }
      assert !Cross(h, d, y) && !Cross(h, y, d);
      NoReturn(h, y);
      UnderSelf(h, h[y]);
      OpenHeadIsOutside(g, c, p);
      HeadNotBelowNeighbour(g, c, p);
      OpenHeadIsOnStack(g, c, p);
    }
  }

  /** A right arc is only chosen once the dependent has all its children. */
  lemma RightArcIsComplete(g: Gold, c: Config, t: int)
    requires g.Valid() && Rooted(g.heads) && Projective(g.heads) && OnTrack(g, c) && |c.stack| >= 2
    requires g.heads[Top(c)] == Second(c) && ScanDone(g, c.next, Top(c))
    requires 0 <= t < g.Size() && Open(c, t)
    ensures g.heads[t] != Top(c)
  {
    var h, s0, s1 := g.heads, Top(c), Second(c);
    ScanAgrees(g, c.next, s0);
    if h[t] == s0 {
      NoReturn(h, s0);
      var k :| 0 <= k < |c.stack| && c.stack[k] == t;
      if t == s1 {
        UnderHead(h, s1, s0);
        UnderSelf(h, s0);
      } else if t < s1 {
        CoveredIsDescendant(h, t, s1);
      } else {
        UnderSelf(h, s0);
      }
    }
  }

  /** A left arc is only chosen once the dependent has all its children. */
  lemma LeftArcIsComplete(g: Gold, c: Config, t: int)
    requires g.Valid() && Rooted(g.heads) && Projective(g.heads) && OnTrack(g, c) && |c.stack| > 2
    requires g.heads[Second(c)] == Top(c)
    requires 0 <= t < g.Size() && Open(c, t)
    ensures g.heads[t] != Second(c)
  {
    var h, s0, s1, n := g.heads, Top(c), Second(c), |c.stack|;
    if h[t] == s1 {
      NoReturn(h, s1);
      if t == s0 {
        UnderHead(h, s0, s1);
        UnderSelf(h, s1);
      } else if t > s0 {
        CoveredIsDescendant(h, t, s0);
      } else {
        var k :| 0 <= k < n && c.stack[k] == t;
        if k < n - 3 {
          ArcsStopAtNeighbour(g, c, n - 3, t);
        }
      }
    }
  }

  lemma ArcStaysCopied(g: Gold, c: Config, action: int)
    requires g.Valid() && Coherent(c) && |c.head| == g.Size() && Copied(g, c) && IsAllowed(c, action)
    requires TypeOf(action) != Shift
    requires g.heads[Dependent(c, action)] == Governor(c, action)
    requires g.GoldLabel(Dependent(c, action)) == LabelOf(action)
    requires forall t :: 0 <= t < g.Size() && Open(c, t) ==> g.heads[t] != Dependent(c, action)
    requires Coherent(Step(c, action))
    ensures Copied(g, Step(c, action))
  {
    forall t ensures Open(Step(c, action), t) <==> Open(c, t) && t != Dependent(c, action) {
      ArcCloses(c, action, t);
    }
  }

  lemma ArcPassesNothing(g: Gold, c: Config, action: int)
    requires g.Valid() && Coherent(c) && |c.head| == g.Size() && NothingPassed(g, c) && IsAllowed(c, action)
    requires TypeOf(action) != Shift
    requires g.heads[Dependent(c, action)] == Governor(c, action)
    requires Coherent(Step(c, action))
    ensures NothingPassed(g, Step(c, action))
  {
    var c', d := Step(c, action), Dependent(c, action);
    forall k | 1 <= k < |c'.stack| - 1 && g.heads[c'.stack[k]] == c'.stack[k - 1]
      ensures HasOpenRightChild(g, c', c'.stack[k])
    {
      assert c'.stack[k] == c.stack[k] && c'.stack[k - 1] == c.stack[k - 1];
      var u :| c.stack[k] < u < g.Size() && Open(c, u) && g.heads[u] == c.stack[k];
      ArcCloses(c, action, u);
    }
  }

  lemma ArcStaysOnTrack(g: Gold, c: Config, action: int)
    requires g.Valid() && OnTrack(g, c) && IsAllowed(c, action) && TypeOf(action) != Shift
    requires g.heads[Dependent(c, action)] == Governor(c, action)
    requires g.GoldLabel(Dependent(c, action)) == LabelOf(action)
    requires forall t :: 0 <= t < g.Size() && Open(c, t) ==> g.heads[t] != Dependent(c, action)
    ensures Coherent(Step(c, action)) ==> OnTrack(g, Step(c, action))
  {
    if Coherent(Step(c, action)) {
      ArcStaysCopied(g, c, action);
      ArcPassesNothing(g, c, action);
    }
  }

  lemma ShiftPassesNothing(g: Gold, c: Config, k: nat)
    requires g.Valid() && Projective(g.heads) && Coherent(c) && |c.head| == g.Size() && IsAllowed(c, SHIFT)
    requires NothingPassed(g, c) && 1 <= k < |c.stack| && g.heads[c.stack[k]] == c.stack[k - 1]
    requires k == |c.stack| - 1 ==> !ScanDone(g, c.next, Top(c))
    ensures HasOpenRightChild(g, Step(c, SHIFT), c.stack[k])
  {
    var u;
    if k < |c.stack| - 1 {
      u :| c.stack[k] < u < g.Size() && Open(c, u) && g.heads[u] == c.stack[k];
    } else {
      ScanAgrees(g, c.next, Top(c));
      u :| c.next <= u < g.Size() && g.heads[u] == Top(c);
    }
    ShiftOpensNothing(c, u);
  }

  lemma ShiftStaysCopied(g: Gold, c: Config)
    requires g.Valid() && Coherent(c) && |c.head| == g.Size() && IsAllowed(c, SHIFT) && Coherent(Step(c, SHIFT))
    ensures GoldArcs(g, c) ==> GoldArcs(g, Step(c, SHIFT))
    ensures Copied(g, c) ==> Copied(g, Step(c, SHIFT))
  {
    forall t ensures Open(Step(c, SHIFT), t) <==> Open(c, t) {
      ShiftOpensNothing(c, t);
    }
  }

  lemma ShiftStaysOnTrack(g: Gold, c: Config)
    requires g.Valid() && Projective(g.heads) && OnTrack(g, c) && IsAllowed(c, SHIFT)
    requires |c.stack| >= 2 ==> g.GoldHead(Second(c)) != Top(c)
    requires |c.stack| >= 2 ==> g.heads[Top(c)] != Second(c) || !ScanDone(g, c.next, Top(c))
    ensures Coherent(Step(c, SHIFT)) ==> OnTrack(g, Step(c, SHIFT))
  {
    if Coherent(Step(c, SHIFT)) {
      ShiftStaysCopied(g, c);
      ShiftKeepsNothingPassed(g, c);
    }
  }

  lemma ShiftKeepsNothingPassed(g: Gold, c: Config)
    requires g.Valid() && Projective(g.heads) && Coherent(c) && |c.head| == g.Size() && IsAllowed(c, SHIFT)
    requires NothingPassed(g, c) && (|c.stack| >= 2 ==> g.GoldHead(Second(c)) != Top(c))
    requires |c.stack| >= 2 ==> g.heads[Top(c)] != Second(c) || !ScanDone(g, c.next, Top(c))
    requires Coherent(Step(c, SHIFT))
    ensures NothingPassed(g, Step(c, SHIFT))
  {
    var c' := Step(c, SHIFT);
    forall k | 0 <= k < |c'.stack| - 2 ensures g.GoldHead(c'.stack[k]) != c'.stack[k + 1] {
      assert c'.stack[k] == c.stack[k] && c'.stack[k + 1] == c.stack[k + 1];
    }
    forall k | 1 <= k < |c'.stack| - 1 && g.heads[c'.stack[k]] == c'.stack[k - 1]
      ensures HasOpenRightChild(g, c', c'.stack[k])
    {
      assert c'.stack[k] == c.stack[k] && c'.stack[k - 1] == c.stack[k - 1];
      ShiftPassesNothing(g, c, k);
    }
  }

  /** At the end of the input one of the top two stack tokens is the other's head. */
  lemma EndOfInputReduces(g: Gold, c: Config)
    requires g.Valid() && Rooted(g.heads) && Projective(g.heads) && OnTrack(g, c)
    requires c.next == g.Size() && |c.stack| >= 2
    ensures g.GoldHead(Second(c)) == Top(c) || g.heads[Top(c)] == Second(c)
  {
    if g.GoldHead(Second(c)) != Top(c) {
      var p := |c.stack| - 1;
      HeadNotBelowNeighbour(g, c, p);
      NoReturn(g.heads, Top(c));
      UnderSelf(g.heads, g.heads[Top(c)]);
      assert Top(c) in c.stack;
      assert forall k :: 0 <= k < |c.stack| ==> c.stack[k] <= Top(c);
      OpenHeadIsOnStack(g, c, p);
    }
  }

  /** On a projective labelled tree the oracle's action is allowed and keeps the run on track. */
  lemma OracleStaysOnTrack(g: Gold, c: Config)
    requires g.Valid() && Rooted(g.heads) && Projective(g.heads) && Labelled(g)
    requires OnTrack(g, c) && !IsFinal(c)
    ensures IsAllowed(c, GoldAction(g, c))
    ensures Coherent(Step(c, GoldAction(g, c))) ==> OnTrack(g, Step(c, GoldAction(g, c)))
  {
    var a := GoldAction(g, c);
    if |c.stack| >= 2 && g.GoldHead(Top(c)) == Second(c) && ScanDone(g, c.next, Top(c)) {
      ArcsDecodeIffLabelled(g.GoldLabel(Top(c)));
      forall t | 0 <= t < g.Size() && Open(c, t) ensures g.heads[t] != Top(c) {
        RightArcIsComplete(g, c, t);
      }
      ArcStaysOnTrack(g, c, a);
    } else if |c.stack| >= 2 && g.GoldHead(Second(c)) == Top(c) {
      ArcsDecodeIffLabelled(g.GoldLabel(Second(c)));
      forall t | 0 <= t < g.Size() && Open(c, t) ensures g.heads[t] != Second(c) {
        LeftArcIsComplete(g, c, t);
      }
      ArcStaysOnTrack(g, c, a);
    } else {
      if |c.stack| >= 2 && c.next == g.Size() {
        EndOfInputReduces(g, c);
      }
      ShiftStaysOnTrack(g, c);
    }
  }

  /** Gold makes t a dependent of u and nothing that is still open a dependent of t. */
  ghost predicate Attachable(g: Gold, c: Config, t: int, u: int)
    requires g.Valid()
  {
    0 <= t < g.Size() && g.heads[t] == u && forall v :: 0 <= v < g.Size() && Open(c, v) ==> g.heads[v] != t
  }

  /** On the oracle's way the gold action is the arc between the two top elements as soon as gold has it and the
      dependent is complete, with the gold label; otherwise it is a shift. */
  lemma OracleIsEager(g: Gold, c: Config)
    requires g.Valid() && Rooted(g.heads) && Projective(g.heads) && Labelled(g)
    requires OnTrack(g, c) && !IsFinal(c)
    ensures var a := GoldAction(g, c);
            if |c.stack| >= 2 && Attachable(g, c, Top(c), Second(c)) then
              TypeOf(a) == RightArc && LabelOf(a) == g.GoldLabel(Top(c))
            else if |c.stack| >= 2 && Attachable(g, c, Second(c), Top(c)) then
              TypeOf(a) == LeftArc && LabelOf(a) == g.GoldLabel(Second(c))
            else TypeOf(a) == Shift
  {
    if |c.stack| >= 2 {
      ArcsDecodeIffLabelled(g.GoldLabel(Top(c)));
      ArcsDecodeIffLabelled(g.GoldLabel(Second(c)));
      ScanAgrees(g, c.next, Top(c));
      if g.heads[Top(c)] == Second(c) && ScanDone(g, c.next, Top(c)) {
        forall t | 0 <= t < g.Size() && Open(c, t) ensures g.heads[t] != Top(c) {
          RightArcIsComplete(g, c, t);
        }
      } else if g.GoldHead(Second(c)) == Top(c) {
        forall t | 0 <= t < g.Size() && Open(c, t) ensures g.heads[t] != Second(c) {
          LeftArcIsComplete(g, c, t);
        }
      }
    }
  }

  lemma OracleStepStaysOnTrack(g: Gold, c: Config)
    requires g.Valid() && Rooted(g.heads) && Projective(g.heads) && Labelled(g)
    requires OnTrack(g, c) && !IsFinal(c)
    ensures OracleStep(g, c).Some? && OnTrack(g, OracleStep(g, c).value)
  {
    OracleStaysOnTrack(g, c);
    StepKeepsCoherent(c, GoldAction(g, c));
  }

  lemma OracleRunContinues(g: Gold, k: nat)
    requires g.Valid() && Rooted(g.heads) && Projective(g.heads) && Labelled(g)
    requires 0 < k <= 2 * g.Size() && RunOnTrack(g, k - 1)
    ensures RunOnTrack(g, k)
  {
    OracleRunCounts(g, k - 1);
    OracleStepStaysOnTrack(g, OracleRun(g, k - 1).value);
  }

  lemma {:induction false} OracleRunIsOnTrack(g: Gold, k: nat)
    requires g.Valid() && Rooted(g.heads) && Projective(g.heads) && Labelled(g)
    requires k <= 2 * g.Size()
    ensures RunOnTrack(g, k)
  {
    if k == 0 {
      InitIsOnTrack(g);
    } else {
      OracleRunIsOnTrack(g, k - 1);
      OracleRunContinues(g, k);
    }
  }

  // ----- When the oracle's run ends in a final state -----

  /** On any gold tree an arc that the oracle makes is a gold arc. */
  lemma OracleArcIsGold(g: Gold, c: Config)
    requires g.Valid() && Coherent(c) && |c.head| == g.Size() && !IsFinal(c)
    requires IsAllowed(c, GoldAction(g, c)) && TypeOf(GoldAction(g, c)) != Shift
    ensures var a := GoldAction(g, c);
            |c.stack| >= 2 && g.heads[Dependent(c, a)] == Governor(c, a) && g.GoldLabel(Dependent(c, a)) == LabelOf(a)
  {
    ArcsDecodeIffLabelled(g.GoldLabel(Top(c)));
    ArcsDecodeIffLabelled(g.GoldLabel(Second(c)));
  }

  lemma OracleStepCopies(g: Gold, c: Config)
    requires g.Valid() && Coherent(c) && |c.head| == g.Size() && GoldArcs(g, c) && OracleStep(g, c).Some?
    requires Coherent(OracleStep(g, c).value)
    ensures GoldArcs(g, OracleStep(g, c).value)
  {
    var a := GoldAction(g, c);
    if TypeOf(a) == Shift {
      ShiftStaysCopied(g, c);
    } else {
      OracleArcIsGold(g, c);
      forall t ensures Open(Step(c, a), t) <==> Open(c, t) && t != Dependent(c, a) {
        ArcCloses(c, a, t);
      }
    }
  }

  /** On any gold tree, however far the oracle's run gets, it makes gold arcs only. */
  lemma {:induction false} OracleRunCopies(g: Gold, k: nat)
    requires g.Valid() && OracleRun(g, k).Some?
    ensures var c := OracleRun(g, k).value; Coherent(c) && |c.head| == g.Size() && GoldArcs(g, c)
  {
    OracleRunIsSound(g, k);
    if k > 0 {
      OracleRunCopies(g, k - 1);
      OracleStepCopies(g, OracleRun(g, k - 1).value);
    }
  }

  /** A final state with only gold arcs is the gold tree, which then is projective and labelled. */
  lemma FinalCopyIsProjective(g: Gold, c: Config)
    requires g.Valid() && Sound(c) && |c.head| == g.Size() && GoldArcs(g, c) && IsFinal(c)
    ensures Rebuilds(g, c) && Rooted(g.heads) && Projective(g.heads) && Labelled(g)
  {
    assert forall t :: 0 <= t < g.Size() ==> !Open(c, t);
    FinalIsTree(c);
    forall i | 0 <= i < g.Size() && ROOT_LABEL !in g.labelMap ensures g.labels[i] in g.labelMap {
      assert c.arcLabel[i] == g.GoldLabel(i);
    }
  }

  /** The oracle's 2n actions are all allowed exactly when the annotated tree is rooted, projective and labelled by
      the dictionary; and then they rebuild it. */
  lemma OracleRebuildsIffProjective(g: Gold)
    requires g.Valid()
    ensures var r := OracleRun(g, 2 * g.Size());
            && (r.Some? <==> Rooted(g.heads) && Projective(g.heads) && Labelled(g))
            && (r.Some? ==> IsFinal(r.value) && Rebuilds(g, r.value))
  {
    var r := OracleRun(g, 2 * g.Size());
    if Rooted(g.heads) && Projective(g.heads) && Labelled(g) {
      OracleRunIsOnTrack(g, 2 * g.Size());
    }
    if r.Some? {
      OracleRunIsSound(g, 2 * g.Size());
      OracleRunCounts(g, 2 * g.Size());
      OracleRunCopies(g, 2 * g.Size());
      FinalCopyIsProjective(g, r.value);
    }
  }

  /** The oracle's action is not allowed only if it is a shift without input left, which fails a check, or the left
      arc of a missing label, which does nothing. */
  lemma OracleStopsBy(g: Gold, c: Config)
    requires g.Valid() && Coherent(c) && |c.head| == g.Size() && !IsFinal(c) && !IsAllowed(c, GoldAction(g, c))
    ensures (GoldAction(g, c) == SHIFT && c.next == g.Size()) || (GoldAction(g, c) == LeftArcAction(-1) && !Labelled(g))
  {
    if |c.stack| >= 2 {
      ArcsDecodeIffLabelled(g.GoldLabel(Top(c)));
      ArcsDecodeIffLabelled(g.GoldLabel(Second(c)));
    }
  }

  /** A replay that cannot go on has performed all 2n actions or never will. */
  lemma ReplayEnds(g: Gold, k: nat)
    requires g.Valid() && OracleRun(g, k).Some?
    requires IsFinal(OracleRun(g, k).value) || OracleRun(g, k + 1).None?
    ensures if IsFinal(OracleRun(g, k).value) then k == 2 * g.Size() else OracleRun(g, 2 * g.Size()).None?
  {
    OracleRunCounts(g, k);
    if k < 2 * g.Size() {
      OracleRunStops(g, k + 1, 2 * g.Size());
    }
  }

  /** A replay that stopped after k allowed gold actions is final exactly if the gold tree is rooted, projective and
      labelled, and then has rebuilt it. */
  lemma ReplayTells(g: Gold, k: nat)
    requires g.Valid() && OracleRun(g, k).Some?
    requires IsFinal(OracleRun(g, k).value) || OracleRun(g, k + 1).None?
    ensures var c := OracleRun(g, k).value;
            && (IsFinal(c) <==> Rooted(g.heads) && Projective(g.heads) && Labelled(g))
            && (IsFinal(c) ==> Rebuilds(g, c))
  {
    ReplayEnds(g, k);
    OracleRebuildsIffProjective(g);
  }
}
