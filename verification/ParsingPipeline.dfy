/**
 The arc-standard system acting on parser states, and the training pipeline: cycle filter,
 projectivizer, then the gold reader replaying the tree.
 */
module ParsingPipeline {
  import opened Wrappers
  import opened HeadGraph
  import opened RootYields
  import opened ParserStates
  import opened ArcStandard
  import opened DocumentFilters

  ghost predicate Ready(state: ParserState)
    reads state
  {
    state.Valid() && Coherent(state.View())
  }

  method PerformShift(state: ParserState)
    requires Ready(state) && IsAllowed(state.View(), SHIFT)
    modifies state
    ensures state.Valid() && state.View() == Step(old(state.View()), SHIFT)
  {
    StackFits(state.View(), |state.stack| - 1);
    state.Push(state.next);
    state.Advance();
  }

  method PerformLeftArc(state: ParserState, arcLabel: nat)
    requires Ready(state) && |state.stack| > 2
    modifies state
    ensures state.Valid() && state.View() == Step(old(state.View()), LeftArcAction(arcLabel))
  {
    StackFits(state.View(), |state.stack| - 1);
    ArcsDecodeIffLabelled(arcLabel);
    var s0 := state.Pop();
    var s1 := state.Pop();
    state.AddArc(s1, s0, arcLabel);
    state.Push(s0);
  }

  method PerformRightArc(state: ParserState, arcLabel: nat)
    requires Ready(state) && |state.stack| > 1
    modifies state
    ensures state.Valid() && state.View() == Step(old(state.View()), RightArcAction(arcLabel))
  {
    StackFits(state.View(), |state.stack| - 1);
    ArcsDecodeIffLabelled(arcLabel);
    var s0 := state.Pop();
    var s1 := state.Pop();
    state.AddArc(s0, s1, arcLabel);
    state.Push(s1);
  }

  method PerformAction(action: int, state: ParserState)
    requires Ready(state) && IsAllowed(state.View(), action)
    modifies state
    ensures state.Valid() && state.View() == Step(old(state.View()), action)
  {
    match TypeOf(action)
    case Shift => PerformShift(state);
    case LeftArc => PerformLeftArc(state, LabelOf(action));
    case RightArc => PerformRightArc(state, LabelOf(action));
  }

  method DoneChildrenRightOf(state: ParserState, head: int) returns (done: bool)
    requires state.Valid()
    ensures done == ScanDone(state.gold, state.next, head)
    ensures Projective(state.gold.heads) && head < state.next ==>
              (done <==> forall j :: state.next <= j < state.gold.Size() ==> state.gold.heads[j] != head)
  {
    var index := state.next;
    if Projective(state.gold.heads) && head < state.next {
      ScanAgrees(state.gold, state.next, head);
    }
    while index < state.gold.Size()
      invariant index <= state.gold.Size()
      invariant ScanDone(state.gold, index, head) == ScanDone(state.gold, state.next, head)
    {
      var actualHead := state.gold.heads[index];
      if actualHead == head {
        return false;
      }
      if actualHead > index {
        index := actualHead;
      } else {
        index := index + 1;
      }
    }
    return true;
  }

  method GetNextGoldAction(state: ParserState) returns (action: int)
    requires Ready(state) && !IsFinal(state.View())
    ensures action == GoldAction(state.gold, state.View())
    ensures var g, n := state.gold, |state.stack|;
            if n < 2 then action == 0
            else
              var s0, s1 := state.stack[n - 1], state.stack[n - 2];
              if g.GoldHead(s0) == s1 && ScanDone(g, state.next, s0) then action == 2 + 2 * g.GoldLabel(s0)
              else if g.GoldHead(s1) == s0 then action == 1 + 2 * g.GoldLabel(s1)
              else action == 0
  {
    if |state.stack| < 2 {
      return SHIFT;
    }
    if state.gold.GoldHead(state.Stack(0)) == state.Stack(1) {
      var done := DoneChildrenRightOf(state, state.Stack(0));
      if done {
        return RightArcAction(state.gold.GoldLabel(state.Stack(0)));
      }
    }
    if state.gold.GoldHead(state.Stack(1)) == state.Stack(0) {
      return LeftArcAction(state.gold.GoldLabel(state.Stack(1)));
    }
    return SHIFT;
  }

  /** A parser state to which the transition system has added the artificial root. */
  method StartParse(gold: Gold) returns (state: ParserState)
    requires gold.Valid()
    ensures fresh(state) && state.gold == gold && state.Valid() && state.View() == Init(gold)
  {
    state := new ParserState(gold);
    state.Push(-1);
    assert state.head == Init(gold).head && state.arcLabel == Init(gold).arcLabel && state.stack == [-1];
  }

  /** Performs gold action k + 1, unless it is not allowed. */
  method PerformGold(state: ParserState, ghost k: nat) returns (ok: bool)
    requires state.Valid() && OracleRun(state.gold, k) == Some(state.View()) && !IsFinal(state.View())
    modifies state
    ensures state.Valid() && k < 2 * state.gold.Size()
    ensures if ok then OracleRun(state.gold, k + 1) == Some(state.View())
            else OracleRun(state.gold, k + 1).None? && state.View() == old(state.View())
  {
    OracleRunCounts(state.gold, k);
    OracleRunIsSound(state.gold, k);
    var action := GetNextGoldAction(state);
    ok := IsAllowed(state.View(), action);
    if ok {
      PerformAction(action, state);
    }
  }

  /** Replays gold actions until the state is final, as the gold reader does, or until one is not allowed:
      a shift without input left, which breaks a check, or the action of a missing label, which does nothing
      for ever. It ends in a final state exactly on the acyclic, projective and labelled trees, and rebuilds those. */
  method ReplayGold(gold: Gold) returns (state: ParserState, ok: bool)
    requires gold.Valid()
    ensures fresh(state) && state.gold == gold && state.Valid()
    ensures ok <==> IsFinal(state.View())
    ensures ok <==> Rooted(gold.heads) && Projective(gold.heads) && Labelled(gold)
    ensures ok ==> Rebuilds(gold, state.View())
  {
    state := StartParse(gold);
    ok := true;
    ghost var k: nat := 0;
    while ok && !IsFinal(state.View())
      invariant state.gold == gold && state.Valid() && fresh(state)
      invariant OracleRun(gold, k) == Some(state.View()) && k <= 2 * gold.Size()
      invariant !ok ==> OracleRun(gold, k + 1).None? && !IsFinal(state.View())
      decreases ok, 2 * gold.Size() - k
    {
      ok := PerformGold(state, k);
      k := if ok then k + 1 else k;
    }
    ReplayTells(gold, k);
  }

  /** The whole training pipeline on one document. A document is dropped exactly when it has a
      cycle, or crossing arcs that are not to be lifted; otherwise the gold reader reaches a final state if and
      only if no label is missing, and then has rebuilt heads and labels of the projectivized tree. The heads are
      ancestors in the given tree, and its own heads if it was projective already. */
  method TrainOnDocument(heads: array<int>, labels: seq<string>, labelMap: map<string, nat>, discard: bool)
      returns (state: ParserState?, ok: bool)
    requires ValidHeads(heads[..]) && |labels| == heads.Length
    modifies heads
    ensures state == null <==> !Acyclic(old(heads[..])) || (discard && !Projective(old(heads[..])))
    ensures state != null ==> fresh(state) && (ok <==> IsFinal(state.View()))
    ensures state != null ==> Rooted(old(heads[..])) && heads[..] == Projectivized(old(heads[..]))
    ensures state != null ==> RaisedTo(old(heads[..]), heads[..])
    ensures state != null ==>
              var gold := Gold(heads[..], labels, labelMap);
              gold.Valid() && (ok <==> Labelled(gold)) && (ok ==> Rebuilds(gold, state.View()))
    ensures state != null ==> Rooted(heads[..]) && Projective(heads[..]) && LiftedFrom(old(heads[..]), heads[..])
    ensures state != null && Projective(old(heads[..])) ==> heads[..] == old(heads[..])
    ensures state != null ==> (SameRoots(heads[..], old(heads[..])) <==> RootYieldsAreIntervals(old(heads[..])))
  {
    var keep := ShouldKeep(heads[..], false);
    if !keep {
      return null, false;
    }
    RootedIffAcyclic(heads[..]);
    var kept := Process(heads, discard);
    if !kept {
      return null, false;
    }
    state, ok := ReplayGold(Gold(heads[..], labels, labelMap));
  }
}
