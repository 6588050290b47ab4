/** Training beams in batches: all beams advance together, and their paths index one score matrix. */
module BeamBatch {
  import opened Wrappers
  import opened TransitionSystems
  import opened TrainingBeam
  import opened PathScores
  import opened BeamStates
  import opened BatchLayouts

  class BatchState<S> {
    const sys: System<S>
    const options: Options
    const numActions: nat
    const beams: seq<BeamState<S>>
    var beamOffsets: seq<seq<nat>>
    var stepOffsets: seq<nat>
    /** The rows of scores of all completed steps, and the beams as they are now. */
    ghost var matrix: Matrix
    ghost var views: seq<BeamView<S>>

    constructor (sys: System<S>, options: Options, numActions: nat, beams: seq<BeamState<S>>)
      ensures this.sys == sys && this.options == options && this.numActions == numActions && this.beams == beams
    {
      this.sys, this.options, this.numActions, this.beams := sys, options, numActions, beams;
      beamOffsets, stepOffsets, matrix, views := [], [], [], [];
    }

    ghost predicate OwnsBeams() {
      && options.maxBeamSize > 0
      && (forall b :: 0 <= b < |beams| ==> beams[b].sys == sys && beams[b].options == options)
      && (forall b, c :: 0 <= b < c < |beams| ==> beams[b] != beams[c])
    }

    ghost predicate Shows(vs: seq<BeamView<S>>)
      reads beams
    {
      |vs| == |beams| && forall b :: 0 <= b < |beams| ==> vs[b] == beams[b].View()
    }

    ghost predicate Placed()
      reads this
    {
      Consistent(sys, views, numActions, matrix, beamOffsets, stepOffsets)
    }

    ghost predicate Valid()
      reads this, beams
    {
      OwnsBeams() && Shows(views) && Placed()
    }

    /** The beams as they are now. */
    method Snapshot() returns (vs: seq<BeamView<S>>)
      ensures Shows(vs)
    {
      vs := [];
      for b := 0 to |beams|
        invariant |vs| == b && forall c :: 0 <= c < b ==> vs[c] == beams[c].View()
      {
        vs := vs + [beams[b].View()];
      }
    }

    /** Offsets of a new matrix, for beams that were just reset. */
    method ResetOffsets()
      requires OwnsBeams()
      requires forall b :: 0 <= b < |beams| ==> JustReset(beams[b].View())
      modifies this
      ensures Valid() && matrix == []
    {
      beamOffsets, stepOffsets, matrix := [], [0], [];
      views := Snapshot();
      ghost var added := UpdateOffsets(views);
      StartIsConsistent(sys, views, numActions, added);
    }

    /** Adds the offsets of the beams as they are now. */
    method UpdateOffsets(ghost now: seq<BeamView<S>>) returns (ghost added: seq<nat>)
      requires stepOffsets != [] && Shows(now)
      modifies this`beamOffsets, this`stepOffsets
      ensures Layout(added, now) && beamOffsets == old(beamOffsets) + [added]
      ensures forall b :: 0 <= b < |now| ==>
                added[b + 1] == added[b] + if now[b].status == Dead then 0 else |now[b].slots|
      ensures stepOffsets == old(stepOffsets) + [old(stepOffsets)[|old(stepOffsets)| - 1] + added[|now|]]
    {
      var vs := Snapshot();
      assert vs == now;
      var offsets := OffsetsOf(vs);
      beamOffsets := beamOffsets + [offsets];
      stepOffsets := stepOffsets + [stepOffsets[|stepOffsets| - 1] + offsets[|offsets| - 1]];
      added := offsets;
    }

    /** One evaluation of the parser: advances every beam by its rows of the scores. */
    method Advance(scores: Matrix)
      requires Valid() && Rectangular(scores, numActions) && |scores| == beamOffsets[|beamOffsets| - 1][|beams|]
      modifies this, beams
      ensures Valid() && matrix == old(matrix) + scores && |beamOffsets| == |old(beamOffsets)| + 1
      ensures AllAdvance(sys, options, old(views), views, numActions, scores, old(beamOffsets)[|old(beamOffsets)| - 1])
    {
      ghost var offsets, steps := beamOffsets, stepOffsets;
      ghost var next := AdvanceBeams(scores);
      ghost var added := UpdateOffsets(next);
      StepKeepsConsistent(sys, options, views, numActions, matrix, offsets, steps, scores, next, added);
      matrix, views := matrix + scores, next;
    }

    method AdvanceBeams(scores: Matrix) returns (ghost next: seq<BeamView<S>>)
      requires Valid() && Rectangular(scores, numActions) && |scores| == beamOffsets[|beamOffsets| - 1][|beams|]
      modifies beams
      ensures Shows(next) && AllAdvance(sys, options, views, next, numActions, scores, beamOffsets[|beamOffsets| - 1])
    {
      next := [];
      for beamId := 0 to |beams|
        invariant |next| == beamId
        invariant AllAdvance(sys, options, views, next, numActions, scores, beamOffsets[|beamOffsets| - 1])
        invariant forall b :: 0 <= b < |beams| ==> beams[b].View() == if b < beamId then next[b] else views[b]
      {
        AdvanceBeam(beamId, scores);
        next := next + [beams[beamId].View()];
      }
    }

    method AdvanceBeam(beamId: nat, scores: Matrix)
      requires OwnsBeams() && Placed() && beamId < |beams| == |views| && beams[beamId].View() == views[beamId]
      requires Rectangular(scores, numActions) && |scores| == beamOffsets[|beamOffsets| - 1][|beams|]
      modifies beams[beamId]
      ensures Advances(sys, options, views[beamId], beams[beamId].View(), numActions, scores,
                       beamOffsets[|beamOffsets| - 1], beamId)
    {
      var offsets := beamOffsets[|beamOffsets| - 1];
      RowsOfBeam(sys, options, views, numActions, matrix, beamOffsets, stepOffsets, scores, beamId);
      beams[beamId].Advance(scores[offsets[beamId]..offsets[beamId + 1]], numActions);
    }

    /** The outputs for training. */
    method Output() returns (indices: seq<nat>, pathIds: seq<nat>, beamIds: seq<nat>, slotIds: seq<nat>,
                             pathScores: seq<real>, goldSlots: seq<int>)
      requires Valid() && forall b :: 0 <= b < |beams| && views[b].gold != None ==> TracksGold(views[b])
      ensures Emitted(Flatten(matrix), indices, pathIds, pathScores) && pathScores == ScoresOf(views, |beams|)
      ensures Names(beamIds, slotIds, PathsOf(views, |beams|))
      ensures NamesAll(views, |views|, beamIds, slotIds, pathScores)
      ensures |goldSlots| == |beams|
      ensures forall b {:trigger goldSlots[b]} :: 0 <= b < |beams| ==> GoldSlotOf(views[b], goldSlots[b])
    {
      var vs := Snapshot();
      assert vs == views;
      forall b: nat | b < |vs| ensures Emits(sys, vs[b], numActions, matrix, beamOffsets, stepOffsets, b) {
        assert BeamFits(sys, views[b], numActions, matrix, beamOffsets, stepOffsets, b);
      }
      indices, pathIds, beamIds, slotIds, pathScores, goldSlots :=
        EmitBatch(sys, vs, numActions, beamOffsets, stepOffsets, matrix);
      NamedPathsAreAll(views, |views|, beamIds, slotIds, pathScores);
    }
  }
}
