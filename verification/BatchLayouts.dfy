/** The beams of a batch in one concatenated score matrix: offsets, and the outputs that use them. */
module BatchLayouts {
  import opened Wrappers
  import opened TransitionSystems
  import opened TrainingBeam
  import opened PathScores

  // ----- Offsets -----

  function Rows<S>(v: BeamView<S>): nat {
    if v.status == Dead then 0 else |v.slots|
  }

  /** Beams that are not dead take consecutive rows, one for each slot. */
  predicate Layout<S>(offsets: seq<nat>, views: seq<BeamView<S>>) {
    && |offsets| == |views| + 1 && offsets[0] == 0
    && forall b {:trigger views[b]} :: 0 <= b < |views| ==> offsets[b + 1] == offsets[b] + Rows(views[b])
  }

  lemma {:induction false} LayoutGrows<S>(offsets: seq<nat>, views: seq<BeamView<S>>, b: nat, c: nat)
    requires Layout(offsets, views) && b <= c <= |views|
    ensures offsets[b] <= offsets[c]
    decreases c
  {
    if b < c {
      LayoutGrows(offsets, views, b, c - 1);
      assert offsets[c - 1 + 1] == offsets[c - 1] + Rows(views[c - 1]);
    }
  }

  /** The row at which each completed step's block of a beam starts in the concatenated matrix. */
  function RowStarts(beamOffsets: seq<seq<nat>>, stepOffsets: seq<nat>, beamId: nat, steps: nat): seq<nat>
    requires steps <= |beamOffsets| && steps <= |stepOffsets|
    requires forall t :: 0 <= t < steps ==> beamId < |beamOffsets[t]|
  {
    seq(steps, t requires 0 <= t < steps => stepOffsets[t] + beamOffsets[t][beamId])
  }

  /** The offsets fit the matrix of all completed steps and the current beams, and every path of
      every beam is located in that matrix. */
  ghost predicate Consistent<S>(sys: System<S>, views: seq<BeamView<S>>, numActions: nat, m: Matrix,
                                beamOffsets: seq<seq<nat>>, stepOffsets: seq<nat>) {
    && |beamOffsets| > 0 && |stepOffsets| == |beamOffsets| + 1 && Rectangular(m, numActions)
    && (forall t :: 0 <= t < |beamOffsets| ==> |beamOffsets[t]| == |views| + 1)
    && var steps := |beamOffsets| - 1;
    && stepOffsets[steps] == |m| && Layout(beamOffsets[steps], views)
    && stepOffsets[steps + 1] == |m| + beamOffsets[steps][|views|]
    && forall b: nat {:trigger BeamFits(sys, views[b], numActions, m, beamOffsets, stepOffsets, b)} ::
         b < |views| ==> BeamFits(sys, views[b], numActions, m, beamOffsets, stepOffsets, b)
  }

  /** The paths of one beam are located in the matrix of all completed steps. */
  ghost predicate BeamFits<S>(sys: System<S>, v: BeamView<S>, numActions: nat, m: Matrix,
                              beamOffsets: seq<seq<nat>>, stepOffsets: seq<nat>, b: nat) {
    && |beamOffsets| > 0 && |stepOffsets| == |beamOffsets| + 1
    && (forall t :: 0 <= t < |beamOffsets| ==> b < |beamOffsets[t]|)
    && BeamLocated(sys, v, m, RowStarts(beamOffsets, stepOffsets, b, |beamOffsets| - 1), numActions)
  }

  /** Advancing every beam by its rows and adding the new offsets keeps the batch consistent. */
  lemma StepKeepsConsistent<S>(sys: System<S>, o: Options, views: seq<BeamView<S>>, numActions: nat, m: Matrix,
                               beamOffsets: seq<seq<nat>>, stepOffsets: seq<nat>, scores: Matrix,
                               next: seq<BeamView<S>>, offsets: seq<nat>)
    requires o.maxBeamSize > 0 && Consistent(sys, views, numActions, m, beamOffsets, stepOffsets)
    requires Rectangular(scores, numActions) && |scores| == beamOffsets[|beamOffsets| - 1][|views|]
    requires |next| == |views| && Layout(offsets, next)
    requires AllAdvance(sys, o, views, next, numActions, scores, beamOffsets[|beamOffsets| - 1])
    ensures Consistent(sys, next, numActions, m + scores, beamOffsets + [offsets],
                       stepOffsets + [stepOffsets[|stepOffsets| - 1] + offsets[|views|]])
  {
    AllStillFit(sys, o, views, numActions, m, beamOffsets, stepOffsets, scores, next, offsets);
  }

  lemma AllStillFit<S>(sys: System<S>, o: Options, views: seq<BeamView<S>>, numActions: nat, m: Matrix,
                       beamOffsets: seq<seq<nat>>, stepOffsets: seq<nat>, scores: Matrix,
                       next: seq<BeamView<S>>, offsets: seq<nat>)
    requires o.maxBeamSize > 0 && Consistent(sys, views, numActions, m, beamOffsets, stepOffsets)
    requires Rectangular(scores, numActions) && |next| == |views| && |offsets| == |views| + 1
    requires AllAdvance(sys, o, views, next, numActions, scores, beamOffsets[|beamOffsets| - 1])
    ensures var beamOffsets' := beamOffsets + [offsets];
            var stepOffsets' := stepOffsets + [stepOffsets[|stepOffsets| - 1] + offsets[|views|]];
            forall b: nat {:trigger BeamFits(sys, next[b], numActions, m + scores, beamOffsets', stepOffsets', b)} ::
              b < |views| ==> BeamFits(sys, next[b], numActions, m + scores, beamOffsets', stepOffsets', b)
  {
    var beamOffsets' := beamOffsets + [offsets];
    var stepOffsets' := stepOffsets + [stepOffsets[|stepOffsets| - 1] + offsets[|views|]];
    forall b: nat | b < |views|
      ensures BeamFits(sys, next[b], numActions, m + scores, beamOffsets', stepOffsets', b)
    {
      assert BeamFits(sys, views[b], numActions, m, beamOffsets, stepOffsets, b);
      assert Advances(sys, o, views[b], next[b], numActions, scores, beamOffsets[|beamOffsets| - 1], b);
      BeamStillFits(sys, o, views[b], next[b], numActions, m, beamOffsets, stepOffsets, scores, offsets,
                    offsets[|views|], b);
    }
  }

  /** One beam is still located after its step. */
  lemma BeamStillFits<S>(sys: System<S>, o: Options, v: BeamView<S>, w: BeamView<S>, numActions: nat, m: Matrix,
                         beamOffsets: seq<seq<nat>>, stepOffsets: seq<nat>, scores: Matrix, offsets: seq<nat>,
                         rows: nat, b: nat)
    requires o.maxBeamSize > 0 && BeamFits(sys, v, numActions, m, beamOffsets, stepOffsets, b)
    requires Rectangular(scores, numActions)
    requires Advances(sys, o, v, w, numActions, scores, beamOffsets[|beamOffsets| - 1], b)
    requires b < |offsets| && stepOffsets[|beamOffsets| - 1] == |m|
    ensures BeamFits(sys, w, numActions, m + scores, beamOffsets + [offsets],
                     stepOffsets + [stepOffsets[|beamOffsets|] + rows], b)
  {
    var steps := |beamOffsets| - 1;
    var first := beamOffsets[steps][b];
    AdvanceKeepsLocated(sys, o, v, m, RowStarts(beamOffsets, stepOffsets, b, steps), numActions, scores, first,
                        Rows(v));
    RowStartsGrow(beamOffsets, stepOffsets, b, offsets, stepOffsets[|beamOffsets|] + rows);
  }

  lemma RowStartsGrow(beamOffsets: seq<seq<nat>>, stepOffsets: seq<nat>, b: nat, offsets: seq<nat>, step: nat)
    requires |beamOffsets| > 0 && |stepOffsets| == |beamOffsets| + 1 && b < |offsets|
    requires forall t :: 0 <= t < |beamOffsets| ==> b < |beamOffsets[t]|
    ensures var steps := |beamOffsets| - 1;
            RowStarts(beamOffsets + [offsets], stepOffsets + [step], b, steps + 1) ==
            RowStarts(beamOffsets, stepOffsets, b, steps) + [stepOffsets[steps] + beamOffsets[steps][b]]
  {
  }


  /** The beam has just been reset. */
  ghost predicate JustReset<S>(v: BeamView<S>) {
    if v.gold == None then v.status == Dead && v.slots == []
    else v.status == Alive && v.slots == [Item(0.0, v.gold.value, true, [], [], [])]
  }

  /** Beams that hold at most their gold path, at its start, need no row of the matrix yet. */
  lemma StartIsConsistent<S>(sys: System<S>, views: seq<BeamView<S>>, numActions: nat, offsets: seq<nat>)
    requires Layout(offsets, views)
    requires forall b :: 0 <= b < |views| ==> JustReset(views[b])
    ensures Consistent(sys, views, numActions, [], [offsets], [0, offsets[|views|]])
  {
    forall b: nat | b < |views| ensures BeamFits(sys, views[b], numActions, [], [offsets], [0, offsets[|views|]], b) {
      assert RowStarts([offsets], [0, offsets[|views|]], b, 0) == [];
    }
  }

  /** A beam's rows lie within the scores and are what its advance needs. */
  lemma RowsOfBeam<S>(sys: System<S>, o: Options, views: seq<BeamView<S>>, numActions: nat, m: Matrix,
                      beamOffsets: seq<seq<nat>>, stepOffsets: seq<nat>, scores: Matrix, b: nat)
    requires o.maxBeamSize > 0 && Consistent(sys, views, numActions, m, beamOffsets, stepOffsets) && b < |views|
    requires Rectangular(scores, numActions) && |scores| == beamOffsets[|beamOffsets| - 1][|views|]
    ensures var offsets := beamOffsets[|beamOffsets| - 1];
            && b + 1 < |offsets| && offsets[b] + Rows(views[b]) == offsets[b + 1] <= |scores|
            && Slice(scores, offsets[b], Rows(views[b])) == scores[offsets[b]..offsets[b + 1]]
            && (views[b].status == Alive ==>
                  Covers(sys, views[b].slots, scores[offsets[b]..offsets[b + 1]], numActions))
  {
    var offsets := beamOffsets[|beamOffsets| - 1];
    LayoutGrows(offsets, views, b + 1, |views|);
    assert offsets[b + 1] == offsets[b] + Rows(views[b]);
    assert BeamFits(sys, views[b], numActions, m, beamOffsets, stepOffsets, b);
    AdvanceKeepsLocated(sys, o, views[b], m, RowStarts(beamOffsets, stepOffsets, b, |beamOffsets| - 1), numActions,
                        scores, offsets[b], Rows(views[b]));
  }

  /** The first |next| beams have been advanced by their rows. */
  ghost predicate AllAdvance<S>(sys: System<S>, o: Options, views: seq<BeamView<S>>, next: seq<BeamView<S>>,
                                numActions: nat, scores: Matrix, offsets: seq<nat>)
    requires o.maxBeamSize > 0 && |next| <= |views|
  {
    forall b: nat {:trigger Advances(sys, o, views[b], next[b], numActions, scores, offsets, b)} ::
      b < |next| ==> Advances(sys, o, views[b], next[b], numActions, scores, offsets, b)
  }

  ghost predicate Advances<S>(sys: System<S>, o: Options, v: BeamView<S>, w: BeamView<S>, numActions: nat,
                              scores: Matrix, offsets: seq<nat>, b: nat)
    requires o.maxBeamSize > 0
  {
    && b < |offsets| && offsets[b] + Rows(v) <= |scores|
    && var rows := Slice(scores, offsets[b], Rows(v));
    && (v.status == Alive ==> Covers(sys, v.slots, rows, numActions))
    && w == AdvanceView(sys, o, v, rows, numActions)
  }

  // ----- The outputs -----

  function ItemScores<S>(slots: seq<Item<S>>): seq<real> {
    seq(|slots|, i requires 0 <= i < |slots| => slots[i].score)
  }

  /** The path scores of the first n beams, beams without a sentence left out. */
  function ScoresOf<S>(views: seq<BeamView<S>>, n: nat): seq<real>
    requires n <= |views|
  {
    if n == 0 then []
    else ScoresOf(views, n - 1) + if views[n - 1].gold.None? then [] else ItemScores(views[n - 1].slots)
  }

  /** A path is known by its beam and its slot there. */
  datatype Path = Path(beam: nat, slot: nat)

  /** The paths of the first n beams in order, beams without a sentence left out. */
  function PathsOf<S>(views: seq<BeamView<S>>, n: nat): seq<Path>
    requires n <= |views|
  {
    if n == 0 then []
    else PathsOf(views, n - 1) + if views[n - 1].gold.None? then [] else PathsIn(n - 1, |views[n - 1].slots|)
  }

  function PathsIn(beam: nat, slots: nat): seq<Path> {
    seq(slots, s requires 0 <= s < slots => Path(beam, s))
  }

  /** The beam ids and slot ids emitted are those of the paths. */
  predicate Names(beamIds: seq<nat>, slotIds: seq<nat>, paths: seq<Path>) {
    && |beamIds| == |slotIds| == |paths|
    && forall p {:trigger paths[p]} :: 0 <= p < |paths| ==> paths[p] == Path(beamIds[p], slotIds[p])
  }

  /** Every path of every beam that has a sentence is named once, beam by beam and slot by slot, with its score. */
  ghost predicate NamesAll<S>(views: seq<BeamView<S>>, n: nat, beamIds: seq<nat>, slotIds: seq<nat>,
                              pathScores: seq<real>)
    requires n <= |views|
  {
    && |beamIds| == |slotIds| == |pathScores|
    && (forall p :: 0 <= p < |beamIds| ==> HasScore(views, n, beamIds[p], slotIds[p], pathScores[p]))
    && (forall p, q :: 0 <= p < q < |beamIds| ==>
          beamIds[p] < beamIds[q] || (beamIds[p] == beamIds[q] && slotIds[p] < slotIds[q]))
    && (forall b: nat, s: nat :: IsPath(views, n, b, s) ==>
          exists p :: 0 <= p < |beamIds| && beamIds[p] == b && slotIds[p] == s)
  }

  predicate IsPath<S>(views: seq<BeamView<S>>, n: nat, b: nat, s: nat)
    requires n <= |views|
  {
    b < n && views[b].gold.Some? && s < |views[b].slots|
  }

  predicate HasScore<S>(views: seq<BeamView<S>>, n: nat, b: nat, s: nat, score: real)
    requires n <= |views|
  {
    IsPath(views, n, b, s) && score == views[b].slots[s].score
  }

  predicate PathBefore(x: Path, y: Path) {
    x.beam < y.beam || (x.beam == y.beam && x.slot < y.slot)
  }

  predicate PathsAscend(paths: seq<Path>) {
    forall p, q :: 0 <= p < q < |paths| ==> PathBefore(paths[p], paths[q])
  }

  lemma AscendMore(before: seq<Path>, b: nat, slots: nat)
    requires PathsAscend(before) && forall p :: 0 <= p < |before| ==> before[p].beam < b
    ensures PathsAscend(before + PathsIn(b, slots))
  {
  }

  lemma {:induction false} PathsInOrder<S>(views: seq<BeamView<S>>, n: nat)
    requires n <= |views|
    ensures PathsAscend(PathsOf(views, n))
    ensures forall p :: 0 <= p < |PathsOf(views, n)| ==> PathsOf(views, n)[p].beam < n
  {
    if n > 0 {
      PathsInOrder(views, n - 1);
      AscendMore(PathsOf(views, n - 1), n - 1, |views[n - 1].slots|);
    }
  }

  lemma {:induction false} PathsAreAll<S>(views: seq<BeamView<S>>, n: nat, b: nat, s: nat)
    requires n <= |views| && IsPath(views, n, b, s)
    ensures Path(b, s) in PathsOf(views, n)
  {
    if b < n - 1 {
      PathsAreAll(views, n - 1, b, s);
    } else {
      assert PathsIn(b, |views[b].slots|)[s] == Path(b, s);
    }
  }

  predicate HaveScores<S>(views: seq<BeamView<S>>, n: nat, paths: seq<Path>, scores: seq<real>)
    requires n <= |views|
  {
    |scores| == |paths| && forall p :: 0 <= p < |paths| ==> HasScore(views, n, paths[p].beam, paths[p].slot, scores[p])
  }

  lemma HaveScoresConcat<S>(views: seq<BeamView<S>>, n: nat, paths: seq<Path>, scores: seq<real>,
                            morePaths: seq<Path>, moreScores: seq<real>)
    requires n <= |views| && HaveScores(views, n, paths, scores) && HaveScores(views, n, morePaths, moreScores)
    ensures HaveScores(views, n, paths + morePaths, scores + moreScores)
  {
  }

  lemma HaveScoresLater<S>(views: seq<BeamView<S>>, n: nat, paths: seq<Path>, scores: seq<real>)
    requires n < |views| && HaveScores(views, n, paths, scores)
    ensures HaveScores(views, n + 1, paths, scores)
  {
    forall p | 0 <= p < |paths| ensures HasScore(views, n + 1, paths[p].beam, paths[p].slot, scores[p]) {
      assert HasScore(views, n, paths[p].beam, paths[p].slot, scores[p]);
    }
  }

  lemma {:induction false} ScoresFollowPaths<S>(views: seq<BeamView<S>>, n: nat)
    requires n <= |views|
    ensures HaveScores(views, n, PathsOf(views, n), ScoresOf(views, n))
  {
    if n > 0 {
      var v := views[n - 1];
      ScoresFollowPaths(views, n - 1);
      HaveScoresLater(views, n - 1, PathsOf(views, n - 1), ScoresOf(views, n - 1));
      if v.gold.Some? {
        HaveScoresConcat(views, n, PathsOf(views, n - 1), ScoresOf(views, n - 1),
                         PathsIn(n - 1, |v.slots|), ItemScores(v.slots));
      }
    }
  }

  lemma NamedPathsAreAll<S>(views: seq<BeamView<S>>, n: nat, beamIds: seq<nat>, slotIds: seq<nat>,
                            pathScores: seq<real>)
    requires n <= |views| && Names(beamIds, slotIds, PathsOf(views, n)) && pathScores == ScoresOf(views, n)
    ensures NamesAll(views, n, beamIds, slotIds, pathScores)
  {
    PathsInOrder(views, n);
    ScoresFollowPaths(views, n);
    var paths := PathsOf(views, n);
    forall p | 0 <= p < |beamIds| ensures HasScore(views, n, beamIds[p], slotIds[p], pathScores[p]) {
      assert paths[p] == Path(beamIds[p], slotIds[p]);
    }
    forall p, q | 0 <= p < q < |beamIds|
      ensures beamIds[p] < beamIds[q] || (beamIds[p] == beamIds[q] && slotIds[p] < slotIds[q])
    {
      assert PathBefore(paths[p], paths[q]);
    }
    forall b: nat, s: nat | IsPath(views, n, b, s)
      ensures exists p :: 0 <= p < |beamIds| && beamIds[p] == b && slotIds[p] == s
    {
      PathsAreAll(views, n, b, s);
      var p :| 0 <= p < |paths| && paths[p] == Path(b, s);
    }
  }

  predicate GoldSlotOf<S>(v: BeamView<S>, slot: int) {
    if v.gold.None? then slot == -1 else 0 <= slot < |v.slots| && v.slots[slot].isGold
  }

  /** The indices emitted so far select, for every path, entries that add up to its score. */
  ghost predicate Emitted(flat: seq<real>, indices: seq<nat>, pathIds: seq<nat>, pathScores: seq<real>) {
    && |indices| == |pathIds| && (forall i :: 0 <= i < |indices| ==> indices[i] < |flat|)
    && (forall i :: 0 <= i < |pathIds| ==> pathIds[i] < |pathScores|)
    && (forall i, j :: 0 <= i < j < |pathIds| ==> pathIds[i] <= pathIds[j])
    && (forall p :: 0 <= p < |pathScores| ==> SumForPath(flat, indices, pathIds, p) == pathScores[p])
  }

  lemma EmitNothing(flat: seq<real>, indices: seq<nat>, pathIds: seq<nat>, pathScores: seq<real>)
    requires Emitted(flat, indices, pathIds, pathScores)
    ensures Emitted(flat, indices, pathIds, pathScores + [0.0])
  {
    UnusedPathIsZero(flat, indices, pathIds, |pathScores|);
  }

  lemma EmitStep(flat: seq<real>, indices: seq<nat>, pathIds: seq<nat>, pathScores: seq<real>, partial: real,
                 index: nat)
    requires Emitted(flat, indices, pathIds, pathScores + [partial]) && index < |flat|
    ensures Emitted(flat, indices + [index], pathIds + [|pathScores|], pathScores + [partial + flat[index]])
  {
    var before, after := pathScores + [partial], pathScores + [partial + flat[index]];
    forall p: nat | p < |after|
      ensures SumForPath(flat, indices + [index], pathIds + [|pathScores|], p) == after[p]
    {
      SumForPathAppend(flat, indices, pathIds, p, index, |pathScores|);
      assert SumForPath(flat, indices, pathIds, p) == before[p];
    }
  }

  /** The paths of the beam are in the matrix under its offsets, and its gold path is there if it has a sentence. */
  ghost predicate Emits<S>(sys: System<S>, v: BeamView<S>, numActions: nat, m: Matrix, beamOffsets: seq<seq<nat>>,
                           stepOffsets: seq<nat>, b: nat)
  {
    BeamFits(sys, v, numActions, m, beamOffsets, stepOffsets, b) && (v.gold != None ==> TracksGold(v))
  }

  method OffsetsOf<S>(views: seq<BeamView<S>>) returns (offsets: seq<nat>)
    ensures Layout(offsets, views)
    ensures forall b :: 0 <= b < |views| ==>
              offsets[b + 1] == offsets[b] + if views[b].status == Dead then 0 else |views[b].slots|
  {
    offsets := [0];
    for beamId := 0 to |views|
      invariant |offsets| == beamId + 1 && offsets[0] == 0
      invariant forall b :: 0 <= b < beamId ==> offsets[b + 1] == offsets[b] + Rows(views[b])
    {
      var beamSize := if views[beamId].status == Dead then 0 else |views[beamId].slots|;
      offsets := offsets + [offsets[beamId] + beamSize];
    }
  }

  /** The index of one step of a path. */
  method IndexOfStep<S>(item: Item<S>, numActions: nat, beamOffsets: seq<seq<nat>>, stepOffsets: seq<nat>, beamId: nat,
                        step: nat, ghost m: Matrix, ghost starts: seq<nat>)
      returns (index: nat)
    requires |beamOffsets| > 0 && |stepOffsets| == |beamOffsets| + 1 && step < |item.slotHistory|
    requires forall t :: 0 <= t < |beamOffsets| ==> beamId < |beamOffsets[t]|
    requires starts == RowStarts(beamOffsets, stepOffsets, beamId, |beamOffsets| - 1)
    requires Located(item, m, starts, numActions)
    ensures index < |Flatten(m)| && Flatten(m)[index] == item.scoreHistory[step]
    ensures index == numActions * (stepOffsets[step] + beamOffsets[step][beamId] + item.slotHistory[step])
                     + item.actionHistory[step]
  {
    StepIndexFindsScore(item, m, starts, numActions, step);
    var stepBeamOffset := stepOffsets[step] + beamOffsets[step][beamId];
    index := numActions * (stepBeamOffset + item.slotHistory[step]) + item.actionHistory[step];
    assert index == StepIndex(item, starts, numActions, step);
  }

  /** One more step of a path adds its score. */
  lemma EmitHistory(flat: seq<real>, indices: seq<nat>, pathIds: seq<nat>, pathScores: seq<real>, history: seq<real>,
                    step: nat, index: nat)
    requires step < |history| && index < |flat| && flat[index] == history[step]
    requires Emitted(flat, indices, pathIds, pathScores + [Sum(history[..step])])
    ensures Emitted(flat, indices + [index], pathIds + [|pathScores|], pathScores + [Sum(history[..step + 1])])
  {
    EmitStep(flat, indices, pathIds, pathScores, Sum(history[..step]), index);
    SumAppend(history[..step], history[step]);
    assert history[..step + 1] == history[..step] + [history[step]];
  }

  /** The indices of all steps of one path. */
  method EmitPath<S>(item: Item<S>, numActions: nat, beamOffsets: seq<seq<nat>>, stepOffsets: seq<nat>, beamId: nat,
                     pathId: nat, ghost m: Matrix, indices: seq<nat>, pathIds: seq<nat>, ghost pathScores: seq<real>)
      returns (indices': seq<nat>, pathIds': seq<nat>)
    requires |beamOffsets| > 0 && |stepOffsets| == |beamOffsets| + 1 && pathId == |pathScores|
    requires forall t :: 0 <= t < |beamOffsets| ==> beamId < |beamOffsets[t]|
    requires Located(item, m, RowStarts(beamOffsets, stepOffsets, beamId, |beamOffsets| - 1), numActions)
    requires Emitted(Flatten(m), indices, pathIds, pathScores)
    ensures Emitted(Flatten(m), indices', pathIds', pathScores + [item.score])
    ensures var steps := |item.slotHistory|;
            && |indices'| == |indices| + steps && indices'[..|indices|] == indices
            && pathIds' == pathIds + seq(steps, _ => pathId)
            && forall t :: 0 <= t < steps ==>
                 indices'[|indices| + t] ==
                 numActions * (stepOffsets[t] + beamOffsets[t][beamId] + item.slotHistory[t]) + item.actionHistory[t]
  {
    ghost var flat, history := Flatten(m), item.scoreHistory;
    ghost var starts := RowStarts(beamOffsets, stepOffsets, beamId, |beamOffsets| - 1);
    indices', pathIds' := indices, pathIds;
    EmitNothing(flat, indices, pathIds, pathScores);
    assert history[..0] == [];
    for step := 0 to |item.slotHistory|
      invariant Emitted(flat, indices', pathIds', pathScores + [Sum(history[..step])])
      invariant |indices'| == |indices| + step && indices'[..|indices|] == indices
      invariant pathIds' == pathIds + seq(step, _ => pathId)
      invariant forall t :: 0 <= t < step ==>
                  indices'[|indices| + t] ==
                  numActions * (stepOffsets[t] + beamOffsets[t][beamId] + item.slotHistory[t]) + item.actionHistory[t]
    {
      var index := IndexOfStep(item, numActions, beamOffsets, stepOffsets, beamId, step, m, starts);
      EmitHistory(flat, indices', pathIds', pathScores, history, step, index);
      indices' := indices' + [index];
      pathIds' := pathIds' + [pathId];
    }
    assert history[..|item.slotHistory|] == history;
  }

  /** The outputs for the paths of one beam. */
  method EmitPaths<S>(slots: seq<Item<S>>, numActions: nat, beamOffsets: seq<seq<nat>>, stepOffsets: seq<nat>,
                      beamId: nat, ghost m: Matrix, indices: seq<nat>, pathIds: seq<nat>, pathScores: seq<real>)
      returns (indices': seq<nat>, pathIds': seq<nat>, pathScores': seq<real>)
    requires |beamOffsets| > 0 && |stepOffsets| == |beamOffsets| + 1
    requires forall t :: 0 <= t < |beamOffsets| ==> beamId < |beamOffsets[t]|
    requires forall x :: x in slots ==>
               Located(x, m, RowStarts(beamOffsets, stepOffsets, beamId, |beamOffsets| - 1), numActions)
    requires Emitted(Flatten(m), indices, pathIds, pathScores)
    ensures Emitted(Flatten(m), indices', pathIds', pathScores') && pathScores' == pathScores + ItemScores(slots)
  {
    indices', pathIds', pathScores' := indices, pathIds, pathScores;
    for slot := 0 to |slots|
      invariant Emitted(Flatten(m), indices', pathIds', pathScores')
      invariant pathScores' == pathScores + ItemScores(slots[..slot])
    {
      assert slots[slot] in slots;
      indices', pathIds' := EmitPath(slots[slot], numActions, beamOffsets, stepOffsets, beamId, |pathScores'|, m,
                                     indices', pathIds', pathScores');
      assert ItemScores(slots[..slot + 1]) == ItemScores(slots[..slot]) + [slots[slot].score];
      pathScores' := pathScores' + [slots[slot].score];
    }
    assert slots[..|slots|] == slots;
  }

  /** Where the gold path of a beam is. */
  method FindGold<S>(v: BeamView<S>) returns (goldSlot: int)
    requires v.gold != None ==> TracksGold(v)
    ensures GoldSlotOf(v, goldSlot)
  {
    goldSlot := -1;
    if v.gold.None? {
      return;
    }
    for slot := 0 to |v.slots|
      invariant if goldSlot == -1 then forall s :: 0 <= s < slot ==> !v.slots[s].isGold
                else 0 <= goldSlot < slot && v.slots[goldSlot].isGold
    {
      if v.slots[slot].isGold {
        goldSlot := slot;
      }
    }
    ghost var g := GoldIsThere(v.slots);
  }

  /** The beam and slot ids for one beam. */
  method NamePaths(slots: nat, beamId: nat, beamIds: seq<nat>, slotIds: seq<nat>, ghost paths: seq<Path>)
      returns (beamIds': seq<nat>, slotIds': seq<nat>)
    requires Names(beamIds, slotIds, paths)
    ensures Names(beamIds', slotIds', paths + PathsIn(beamId, slots))
  {
    beamIds', slotIds' := beamIds, slotIds;
    assert paths + PathsIn(beamId, 0) == paths;
    for slot := 0 to slots
      invariant Names(beamIds', slotIds', paths + PathsIn(beamId, slot))
    {
      assert PathsIn(beamId, slot + 1) == PathsIn(beamId, slot) + [Path(beamId, slot)];
      assert paths + PathsIn(beamId, slot + 1) == paths + PathsIn(beamId, slot) + [Path(beamId, slot)];
      beamIds', slotIds' := beamIds' + [beamId], slotIds' + [slot];
    }
  }

  /** The names, indices and scores of all paths of the first n beams. */
  ghost predicate Listed<S>(views: seq<BeamView<S>>, n: nat, flat: seq<real>, indices: seq<nat>, pathIds: seq<nat>,
                            beamIds: seq<nat>, slotIds: seq<nat>, pathScores: seq<real>)
    requires n <= |views|
  {
    && Emitted(flat, indices, pathIds, pathScores) && pathScores == ScoresOf(views, n)
    && Names(beamIds, slotIds, PathsOf(views, n))
  }

  /** The outputs for one beam, which has none if it has no sentence. */
  method EmitBeam<S>(ghost sys: System<S>, ghost views: seq<BeamView<S>>, v: BeamView<S>, numActions: nat,
                     beamOffsets: seq<seq<nat>>, stepOffsets: seq<nat>, beamId: nat, ghost m: Matrix,
                     indices: seq<nat>, pathIds: seq<nat>, beamIds: seq<nat>, slotIds: seq<nat>, pathScores: seq<real>)
      returns (indices': seq<nat>, pathIds': seq<nat>, beamIds': seq<nat>, slotIds': seq<nat>, pathScores': seq<real>)
    requires beamId < |views| && v == views[beamId] && BeamFits(sys, v, numActions, m, beamOffsets, stepOffsets, beamId)
    requires Listed(views, beamId, Flatten(m), indices, pathIds, beamIds, slotIds, pathScores)
    ensures Listed(views, beamId + 1, Flatten(m), indices', pathIds', beamIds', slotIds', pathScores')
  {
    indices', pathIds', beamIds', slotIds', pathScores' := indices, pathIds, beamIds, slotIds, pathScores;
    if v.gold.None? {
      assert PathsOf(views, beamId + 1) == PathsOf(views, beamId);
      assert ScoresOf(views, beamId + 1) == ScoresOf(views, beamId);
      return;
    }
    indices', pathIds', pathScores' :=
      EmitPaths(v.slots, numActions, beamOffsets, stepOffsets, beamId, m, indices, pathIds, pathScores);
    beamIds', slotIds' := NamePaths(|v.slots|, beamId, beamIds, slotIds, PathsOf(views, beamId));
  }

  /** The outputs for training: for every step of every path its index into the flat score matrix and the
      id of its path; for every path its beam, its slot and its score; for every beam its gold slot. */
  method EmitBatch<S>(ghost sys: System<S>, views: seq<BeamView<S>>, numActions: nat, beamOffsets: seq<seq<nat>>,
                      stepOffsets: seq<nat>, ghost m: Matrix)
      returns (indices: seq<nat>, pathIds: seq<nat>, beamIds: seq<nat>, slotIds: seq<nat>, pathScores: seq<real>,
               goldSlots: seq<int>)
    requires forall b: nat {:trigger Emits(sys, views[b], numActions, m, beamOffsets, stepOffsets, b)} ::
               b < |views| ==> Emits(sys, views[b], numActions, m, beamOffsets, stepOffsets, b)
    ensures Listed(views, |views|, Flatten(m), indices, pathIds, beamIds, slotIds, pathScores)
    ensures |goldSlots| == |views|
    ensures forall b {:trigger goldSlots[b]} :: 0 <= b < |views| ==> GoldSlotOf(views[b], goldSlots[b])
  {
    indices, pathIds, beamIds, slotIds, pathScores, goldSlots := [], [], [], [], [], [];
    for beamId := 0 to |views|
      invariant Listed(views, beamId, Flatten(m), indices, pathIds, beamIds, slotIds, pathScores)
      invariant |goldSlots| == beamId
      invariant forall b {:trigger goldSlots[b]} :: 0 <= b < beamId ==> GoldSlotOf(views[b], goldSlots[b])
    {
      assert Emits(sys, views[beamId], numActions, m, beamOffsets, stepOffsets, beamId);
      indices, pathIds, beamIds, slotIds, pathScores :=
        EmitBeam(sys, views, views[beamId], numActions, beamOffsets, stepOffsets, beamId, m,
                 indices, pathIds, beamIds, slotIds, pathScores);
      var goldSlot := FindGold(views[beamId]);
      goldSlots := goldSlots + [goldSlot];
    }
  }
}
