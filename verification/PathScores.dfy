/** Where the steps of a path are found in the concatenated score matrix. */
module PathScores {
  import opened Wrappers
  import opened TransitionSystems
  import opened TrainingBeam

  type Matrix = seq<seq<real>>

  function Sum(xs: seq<real>): real {
    if xs == [] then 0.0 else Sum(xs[..|xs| - 1]) + xs[|xs| - 1]
  }

  lemma SumAppend(xs: seq<real>, x: real)
    ensures Sum(xs + [x]) == Sum(xs) + x
  {
    assert (xs + [x])[..|xs|] == xs;
  }

  predicate Rectangular(m: Matrix, numActions: nat) {
    forall r :: 0 <= r < |m| ==> |m[r]| == numActions
  }

  // ----- One path -----

  /** Every step t of the path is found at the row offsets[t] + slot of the matrix, and the
      path's score is the sum of its steps. */
  ghost predicate Located<S>(x: Item<S>, m: Matrix, offsets: seq<nat>, numActions: nat) {
    && |x.slotHistory| == |x.actionHistory| == |x.scoreHistory| <= |offsets|
    && Rectangular(m, numActions)
    && (forall t :: 0 <= t < |x.slotHistory| ==>
          && offsets[t] + x.slotHistory[t] < |m| && x.actionHistory[t] < numActions
          && m[offsets[t] + x.slotHistory[t]][x.actionHistory[t]] == x.scoreHistory[t])
    && x.score == Sum(x.scoreHistory)
  }

  lemma LocatedStays<S>(x: Item<S>, m: Matrix, offsets: seq<nat>, numActions: nat, more: Matrix, offset: nat)
    requires Located(x, m, offsets, numActions) && Rectangular(more, numActions)
    ensures Located(x, m + more, offsets + [offset], numActions)
  {
  }

  lemma ExtendedIsLocated<S>(sys: System<S>, x: Item<S>, m: Matrix, offsets: seq<nat>, numActions: nat,
                             more: Matrix, first: nat, slot: nat, action: nat, goldAction: int)
    requires Located(x, m, offsets, numActions) && Rectangular(more, numActions) && |x.slotHistory| == |offsets|
    requires first + slot < |more| && action < numActions
    ensures Located(Extend(sys, x, slot, action, more[first + slot][action], goldAction),
                    m + more, offsets + [|m| + first], numActions)
  {
    SumAppend(x.scoreHistory, more[first + slot][action]);
    assert (m + more)[|m| + first + slot] == more[first + slot];
  }

  // ----- One beam -----

  /** Every path in the beam is located; in a live beam unfinished paths have one step for each row block. */
  ghost predicate BeamLocated<S>(sys: System<S>, v: BeamView<S>, m: Matrix, offsets: seq<nat>, numActions: nat) {
    && (forall x :: x in v.slots ==> Located(x, m, offsets, numActions))
    && (v.status == Alive ==> v.gold != None)
    && (v.status == Alive ==> forall x :: x in v.slots && !sys.isFinal(x.state) ==> |x.slotHistory| == |offsets|)
  }

  lemma {:induction false} RowOrigin<S>(sys: System<S>, x: Item<S>, slot: nat, row: seq<real>, goldAction: int, a: nat,
                                        y: Item<S>)
      returns (action: nat)
    requires a <= |row| && y in RowCandidates(sys, x, slot, row, goldAction, a)
    ensures action < a && y == Extend(sys, x, slot, action, row[action], goldAction)
  {
    action := a - 1;
    if !sys.isAllowed(x.state, a - 1) || y != Extend(sys, x, slot, a - 1, row[a - 1], goldAction) {
      action := RowOrigin(sys, x, slot, row, goldAction, a - 1, y);
    }
  }

  lemma {:induction false} CandidateOrigin<S>(sys: System<S>, slots: seq<Item<S>>, scores: seq<seq<real>>,
                                             numActions: nat, goldAction: int, n: nat, y: Item<S>) returns (s: nat)
    requires n <= |slots| && Covers(sys, slots, scores, numActions)
    requires y in Candidates(sys, slots, scores, numActions, goldAction, n)
    ensures s < n && y in SlotCandidates(sys, slots, scores, numActions, goldAction, s)
  {
    s := n - 1;
    if y !in SlotCandidates(sys, slots, scores, numActions, goldAction, n - 1) {
      s := CandidateOrigin(sys, slots, scores, numActions, goldAction, n - 1, y);
    }
  }

  /** The rows of the step's scores that belong to one beam. */
  function Slice(scores: Matrix, first: nat, count: nat): Matrix
    requires first + count <= |scores|
  {
    scores[first..first + count]
  }

  /** Advancing a beam keeps all its paths located. */
  lemma AdvanceKeepsLocated<S>(sys: System<S>, o: Options, v: BeamView<S>, m: Matrix, offsets: seq<nat>,
                               numActions: nat, scores: Matrix, first: nat, count: nat)
    requires o.maxBeamSize > 0 && BeamLocated(sys, v, m, offsets, numActions) && Rectangular(scores, numActions)
    requires first + count <= |scores| && (v.status == Alive ==> count == |v.slots|)
    ensures v.status == Alive ==> Covers(sys, v.slots, Slice(scores, first, count), numActions)
    ensures BeamLocated(sys, AdvanceView(sys, o, v, Slice(scores, first, count), numActions),
                        m + scores, offsets + [|m| + first], numActions)
  {
    var rows := Slice(scores, first, count);
    var w := AdvanceView(sys, o, v, rows, numActions);
    forall x | x in v.slots ensures Located(x, m + scores, offsets + [|m| + first], numActions) {
      LocatedStays(x, m, offsets, numActions, scores, |m| + first);
    }
    if v.status == Alive && v.gold != None {
      var xs := StepCandidates(sys, v, rows, numActions);
      AgendaHoldsCandidates(xs, o.maxBeamSize, o.continueUntilAllFinal);
      forall y | y in xs
        ensures Located(y, m + scores, offsets + [|m| + first], numActions)
        ensures sys.isFinal(y.state) || |y.slotHistory| == |offsets| + 1
      {
        CandidateIsLocated(sys, v, m, offsets, numActions, scores, first, count, y);
      }
    }
  }

  lemma CandidateIsLocated<S>(sys: System<S>, v: BeamView<S>, m: Matrix, offsets: seq<nat>,
                              numActions: nat, scores: Matrix, first: nat, count: nat, y: Item<S>)
    requires BeamLocated(sys, v, m, offsets, numActions) && Rectangular(scores, numActions)
    requires first + count <= |scores| && v.status == Alive && count == |v.slots| && v.gold != None
    requires y in StepCandidates(sys, v, Slice(scores, first, count), numActions)
    ensures Located(y, m + scores, offsets + [|m| + first], numActions)
    ensures sys.isFinal(y.state) || |y.slotHistory| == |offsets| + 1
  {
    var rows, goldAction := Slice(scores, first, count), NextGoldAction(sys, v.gold.value);
    var s := CandidateOrigin(sys, v.slots, rows, numActions, goldAction, |v.slots|, y);
    var x := v.slots[s];
    assert x in v.slots;
    if sys.isFinal(x.state) {
      LocatedStays(x, m, offsets, numActions, scores, |m| + first);
    } else {
      var action := RowOrigin(sys, x, s, rows[s], goldAction, numActions, y);
      ExtendedIsLocated(sys, x, m, offsets, numActions, scores, first, s, action, goldAction);
    }
  }

  // ----- Flat indices -----

  function Flatten(m: Matrix): seq<real> {
    if m == [] then [] else Flatten(m[..|m| - 1]) + m[|m| - 1]
  }

  lemma RowEnds(numActions: nat, r: nat, last: nat)
    requires r < last
    ensures numActions * r + numActions <= numActions * last
  {
    var gap := last - r - 1;
    assert numActions * last == numActions * r + numActions + numActions * gap;
  }

  lemma {:induction false} FlattenLength(m: Matrix, numActions: nat)
    requires Rectangular(m, numActions)
    ensures |Flatten(m)| == numActions * |m|
  {
    if m != [] {
      FlattenLength(m[..|m| - 1], numActions);
      var last := |m| - 1;
      assert numActions * (last + 1) == numActions * last + numActions;
    }
  }

  /** The flat index of a cell of the concatenated matrix. */
  lemma {:induction false} FlattenAt(m: Matrix, numActions: nat, r: nat, a: nat)
    requires Rectangular(m, numActions) && r < |m| && a < numActions
    ensures numActions * r + a < |Flatten(m)| && Flatten(m)[numActions * r + a] == m[r][a]
  {
    var init, last := m[..|m| - 1], |m| - 1;
    FlattenLength(init, numActions);
    if r < last {
      RowEnds(numActions, r, last);
      FlattenAt(init, numActions, r, a);
    }
  }

  /** The flat index emitted for one step of a path. */
  function StepIndex<S>(x: Item<S>, offsets: seq<nat>, numActions: nat, t: nat): nat
    requires t < |x.slotHistory| && t < |x.actionHistory| && t < |offsets|
  {
    numActions * (offsets[t] + x.slotHistory[t]) + x.actionHistory[t]
  }

  lemma StepIndexFindsScore<S>(x: Item<S>, m: Matrix, offsets: seq<nat>, numActions: nat, t: nat)
    requires Located(x, m, offsets, numActions) && t < |x.slotHistory|
    ensures StepIndex(x, offsets, numActions, t) < |Flatten(m)|
    ensures Flatten(m)[StepIndex(x, offsets, numActions, t)] == x.scoreHistory[t]
  {
    FlattenAt(m, numActions, offsets[t] + x.slotHistory[t], x.actionHistory[t]);
  }

  /** The sum of the entries that the indices of one path select. */
  function SumForPath(flat: seq<real>, indices: seq<nat>, pathIds: seq<nat>, path: nat): real
    requires |indices| == |pathIds| && forall i :: 0 <= i < |indices| ==> indices[i] < |flat|
  {
    if indices == [] then 0.0
    else
      var last := |indices| - 1;
      SumForPath(flat, indices[..last], pathIds[..last], path) +
      if pathIds[last] == path then flat[indices[last]] else 0.0
  }

  lemma SumForPathAppend(flat: seq<real>, indices: seq<nat>, pathIds: seq<nat>, path: nat, index: nat, id: nat)
    requires |indices| == |pathIds| && index < |flat| && forall i :: 0 <= i < |indices| ==> indices[i] < |flat|
    ensures SumForPath(flat, indices + [index], pathIds + [id], path) ==
            SumForPath(flat, indices, pathIds, path) + if id == path then flat[index] else 0.0
  {
    assert (indices + [index])[..|indices|] == indices && (pathIds + [id])[..|pathIds|] == pathIds;
  }

  lemma {:induction false} UnusedPathIsZero(flat: seq<real>, indices: seq<nat>, pathIds: seq<nat>, path: nat)
    requires |indices| == |pathIds| && forall i :: 0 <= i < |indices| ==> indices[i] < |flat|
    requires forall i :: 0 <= i < |pathIds| ==> pathIds[i] < path
    ensures SumForPath(flat, indices, pathIds, path) == 0.0
  {
    if indices != [] {
      UnusedPathIsZero(flat, indices[..|indices| - 1], pathIds[..|indices| - 1], path);
    }
  }
}
