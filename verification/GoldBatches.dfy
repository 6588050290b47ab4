/** Training batches over whole runs: which evaluations cost a beam its gold path, and when none does. */
module GoldBatches {
  import opened Wrappers
  import opened TransitionSystems
  import opened TrainingBeam
  import opened PathScores
  import opened BeamStates
  import opened BatchLayouts
  import opened BeamBatch

  // ----- One evaluation -----

  /** The beams before an evaluation, the scores it gave and the rows of the beams in them. */
  datatype Evaluation<S> = Evaluation(views: seq<BeamView<S>>, scores: Matrix, offsets: seq<nat>)

  ghost predicate AllFollow<S>(views: seq<BeamView<S>>) {
    forall b {:trigger views[b]} :: 0 <= b < |views| ==> views[b].gold == None || FollowsGold(views[b])
  }

  /** Every beam that has a sentence has its gold path. */
  ghost predicate AllTrack<S>(views: seq<BeamView<S>>) {
    forall b {:trigger views[b]} :: 0 <= b < |views| ==> views[b].gold == None || TracksGold(views[b])
  }

  /** The gold path of a live beam cannot go on, or is outscored in a beam that does not spare it. */
  ghost predicate GoldEnds<S>(sys: System<S>, o: Options, v: BeamView<S>, scores: Matrix, numActions: nat) {
    && v.status == Alive && v.gold != None
    && (!GoldCanGoOn(sys, v.gold.value, numActions) || LosesGold(sys, o, v, scores, numActions))
  }

  ghost predicate GoldEndsIn<S>(sys: System<S>, o: Options, numActions: nat, e: Evaluation<S>, b: nat)
    requires b < |e.views|
  {
    && b < |e.offsets| && e.offsets[b] + Rows(e.views[b]) <= |e.scores|
    && GoldEnds(sys, o, e.views[b], Slice(e.scores, e.offsets[b], Rows(e.views[b])), numActions)
  }

  /** No beam loses its gold path in the evaluation. */
  ghost predicate Harmless<S>(sys: System<S>, o: Options, numActions: nat, e: Evaluation<S>) {
    forall b: nat :: b < |e.views| ==> !GoldEndsIn(sys, o, numActions, e, b)
  }

  /** What an evaluation makes of one beam's gold path. */
  ghost predicate GoldTurns<S>(sys: System<S>, o: Options, numActions: nat, e: Evaluation<S>, w: BeamView<S>, b: nat)
    requires b < |e.views|
  {
    var ends := GoldEndsIn(sys, o, numActions, e, b);
    if e.views[b].gold == None then w.gold == None && !ends
    else FollowsGold(w) && (TracksGold(w) <==> TracksGold(e.views[b]) && !ends)
  }

  lemma AdvanceKeepsGold<S>(sys: System<S>, o: Options, v: BeamView<S>, scores: Matrix, numActions: nat)
    requires o.maxBeamSize > 0 && v.gold != None && FollowsGold(v)
    requires v.status == Alive ==> Covers(sys, v.slots, scores, numActions)
    ensures var w := AdvanceView(sys, o, v, scores, numActions);
            FollowsGold(w) && (TracksGold(w) <==> TracksGold(v) && !GoldEnds(sys, o, v, scores, numActions))
  {
    if v.status == Alive {
      AdvanceTracksGold(sys, o, v, scores, numActions);
    }
  }

  /** After an evaluation all beams have their gold paths if and only if they had them before and it was harmless. */
  lemma BatchKeepsGold<S>(sys: System<S>, o: Options, numActions: nat, e: Evaluation<S>, next: seq<BeamView<S>>)
    requires o.maxBeamSize > 0 && AllFollow(e.views)
    requires |next| == |e.views| && AllAdvance(sys, o, e.views, next, numActions, e.scores, e.offsets)
    ensures AllFollow(next) && (AllTrack(next) <==> AllTrack(e.views) && Harmless(sys, o, numActions, e))
  {
    forall b: nat | b < |next| ensures GoldTurns(sys, o, numActions, e, next[b], b) {
      assert Advances(sys, o, e.views[b], next[b], numActions, e.scores, e.offsets, b);
      BeamKeepsGold(sys, o, numActions, e, next[b], b);
    }
    if AllTrack(next) {
      forall b: nat | b < |next|
        ensures (e.views[b].gold == None || TracksGold(e.views[b])) && !GoldEndsIn(sys, o, numActions, e, b)
      {
        assert GoldTurns(sys, o, numActions, e, next[b], b);
      }
    } else {
      var b: nat :| b < |next| && next[b].gold != None && !TracksGold(next[b]);
      assert GoldTurns(sys, o, numActions, e, next[b], b);
    }
  }

  lemma BeamKeepsGold<S>(sys: System<S>, o: Options, numActions: nat, e: Evaluation<S>, w: BeamView<S>, b: nat)
    requires o.maxBeamSize > 0 && b < |e.views| && (e.views[b].gold == None || FollowsGold(e.views[b]))
    requires Advances(sys, o, e.views[b], w, numActions, e.scores, e.offsets, b)
    ensures GoldTurns(sys, o, numActions, e, w, b)
  {
    if e.views[b].gold != None {
      AdvanceKeepsGold(sys, o, e.views[b], Slice(e.scores, e.offsets[b], Rows(e.views[b])), numActions);
    }
  }

  // ----- Gold paths that can always go on -----

  /** From every good gold state the gold path can go on, to a good state. */
  ghost predicate GoesOn<S(!new)>(sys: System<S>, good: S -> bool, numActions: nat) {
    forall s :: good(s) ==> GoldCanGoOn(sys, s, numActions) && good(NextGold(sys, s))
  }

  ghost predicate AllGood<S>(views: seq<BeamView<S>>, good: S -> bool) {
    forall b {:trigger views[b]} :: 0 <= b < |views| ==> views[b].gold == None || good(views[b].gold.value)
  }

  /** With good gold states only beams that continue until all paths are final lose gold. */
  lemma GoodIsHarmless<S(!new)>(sys: System<S>, o: Options, numActions: nat, e: Evaluation<S>, next: seq<BeamView<S>>,
                                good: S -> bool)
    requires o.maxBeamSize > 0 && GoesOn(sys, good, numActions) && AllGood(e.views, good)
    requires |next| == |e.views| && AllAdvance(sys, o, e.views, next, numActions, e.scores, e.offsets)
    ensures AllGood(next, good) && (!o.continueUntilAllFinal ==> Harmless(sys, o, numActions, e))
  {
    forall b | 0 <= b < |next| ensures next[b].gold == None || good(next[b].gold.value) {
      assert Advances(sys, o, e.views[b], next[b], numActions, e.scores, e.offsets, b);
    }
  }

  // ----- Whole runs -----

  lemma ResetTracksGold<S>(v: BeamView<S>)
    requires JustReset(v)
    ensures v.gold == None || (FollowsGold(v) && TracksGold(v))
  {
    if v.gold != None {
      assert v.slots[1..] == [] && GoldCount(v.slots) == 1;
    }
  }

  lemma AllResetTrackGold<S>(views: seq<BeamView<S>>)
    requires forall b :: 0 <= b < |views| ==> JustReset(views[b])
    ensures AllFollow(views) && AllTrack(views)
  {
    forall b | 0 <= b < |views| ensures views[b].gold == None || (FollowsGold(views[b]) && TracksGold(views[b])) {
      ResetTracksGold(views[b]);
    }
  }

  /** Scores of the right shape for any number of rows. */
  ghost predicate Scores(scorer: (nat, nat) -> Matrix, numActions: nat) {
    forall step, rows :: |scorer(step, rows)| == rows && Rectangular(scorer(step, rows), numActions)
  }

  /** The run evaluates the beams step by step, with the scores given for each step. */
  ghost predicate Evaluates<S>(sys: System<S>, o: Options, numActions: nat, scorer: (nat, nat) -> Matrix,
                               run: seq<Evaluation<S>>, last: seq<BeamView<S>>)
    requires o.maxBeamSize > 0
  {
    forall k: nat {:trigger run[k]} :: k < |run| ==>
      Follows(sys, o, numActions, scorer, k, run[k], if k + 1 < |run| then run[k + 1].views else last)
  }

  ghost predicate Follows<S>(sys: System<S>, o: Options, numActions: nat, scorer: (nat, nat) -> Matrix, k: nat,
                             e: Evaluation<S>, next: seq<BeamView<S>>)
    requires o.maxBeamSize > 0
  {
    && |next| == |e.views| < |e.offsets| && e.scores == scorer(k, e.offsets[|e.views|])
    && AllAdvance(sys, o, e.views, next, numActions, e.scores, e.offsets)
  }

  ghost predicate AllHarmless<S>(sys: System<S>, o: Options, numActions: nat, run: seq<Evaluation<S>>) {
    forall k :: 0 <= k < |run| ==> Harmless(sys, o, numActions, run[k])
  }

  /** A run from the first beams to the last, and what is known of it. */
  ghost predicate RunsTo<S>(sys: System<S>, o: Options, numActions: nat, scorer: (nat, nat) -> Matrix,
                            first: seq<BeamView<S>>, run: seq<Evaluation<S>>, last: seq<BeamView<S>>) {
    && o.maxBeamSize > 0 && Evaluates(sys, o, numActions, scorer, run, last)
    && (if run == [] then last else run[0].views) == first
    && AllFollow(last) && (AllTrack(last) <==> AllHarmless(sys, o, numActions, run))
  }

  lemma EvaluatesOneMore<S>(sys: System<S>, o: Options, numActions: nat, scorer: (nat, nat) -> Matrix,
                            run: seq<Evaluation<S>>, e: Evaluation<S>, last: seq<BeamView<S>>)
    requires o.maxBeamSize > 0 && Evaluates(sys, o, numActions, scorer, run, e.views)
    requires Follows(sys, o, numActions, scorer, |run|, e, last)
    ensures Evaluates(sys, o, numActions, scorer, run + [e], last)
  {
    var longer := run + [e];
    forall k: nat | k < |longer|
      ensures Follows(sys, o, numActions, scorer, k, longer[k], if k + 1 < |longer| then longer[k + 1].views else last)
    {
      if k < |run| {
        assert longer[k] == run[k];
      }
    }
  }

  lemma HarmlessOneMore<S>(sys: System<S>, o: Options, numActions: nat, run: seq<Evaluation<S>>, e: Evaluation<S>)
    ensures AllHarmless(sys, o, numActions, run + [e]) <==>
            AllHarmless(sys, o, numActions, run) && Harmless(sys, o, numActions, e)
  {
    assert forall k :: 0 <= k < |run| ==> (run + [e])[k] == run[k];
    assert (run + [e])[|run|] == e;
  }

  lemma RunsOneMore<S>(sys: System<S>, o: Options, numActions: nat, scorer: (nat, nat) -> Matrix,
                       first: seq<BeamView<S>>, run: seq<Evaluation<S>>, e: Evaluation<S>, last: seq<BeamView<S>>)
    requires RunsTo(sys, o, numActions, scorer, first, run, e.views)
    requires Follows(sys, o, numActions, scorer, |run|, e, last)
    ensures RunsTo(sys, o, numActions, scorer, first, run + [e], last)
  {
    BatchKeepsGold(sys, o, numActions, e, last);
    EvaluatesOneMore(sys, o, numActions, scorer, run, e, last);
    HarmlessOneMore(sys, o, numActions, run, e);
  }

  method Evaluate<S(!new)>(batch: BatchState<S>, scorer: (nat, nat) -> Matrix, step: nat)
      returns (ghost e: Evaluation<S>)
    requires batch.Valid() && Scores(scorer, batch.numActions)
    modifies batch, batch.beams
    ensures batch.Valid() && e.views == old(batch.views)
    ensures Follows(batch.sys, batch.options, batch.numActions, scorer, step, e, batch.views)
  {
    var offsets := batch.beamOffsets[|batch.beamOffsets| - 1];
    var scores := scorer(step, offsets[|batch.beams|]);
    e := Evaluation(batch.views, scores, offsets);
    batch.Advance(scores);
  }

  /** Evaluates the beams any number of times. */
  method EvaluateAll<S(!new)>(batch: BatchState<S>, scorer: (nat, nat) -> Matrix, steps: nat, ghost good: S -> bool)
      returns (ghost run: seq<Evaluation<S>>)
    requires batch.Valid() && Scores(scorer, batch.numActions) && AllFollow(batch.views) && AllTrack(batch.views)
    modifies batch, batch.beams
    ensures batch.Valid() && |run| == steps
    ensures RunsTo(batch.sys, batch.options, batch.numActions, scorer, old(batch.views), run, batch.views)
    ensures GoesOn(batch.sys, good, batch.numActions) && AllGood(old(batch.views), good) ==>
              batch.options.continueUntilAllFinal || AllTrack(batch.views)
  {
    run := [];
    ghost var sure := GoesOn(batch.sys, good, batch.numActions) && AllGood(batch.views, good);
    for step := 0 to steps
      invariant batch.Valid() && |run| == step
      invariant RunsTo(batch.sys, batch.options, batch.numActions, scorer, old(batch.views), run, batch.views)
      invariant sure ==> AllGood(batch.views, good) && (!batch.options.continueUntilAllFinal ==> AllTrack(batch.views))
    {
      ghost var e := Evaluate(batch, scorer, step);
      RunsOneMore(batch.sys, batch.options, batch.numActions, scorer, old(batch.views), run, e, batch.views);
      if sure {
        GoodIsHarmless(batch.sys, batch.options, batch.numActions, e, batch.views, good);
        BatchKeepsGold(batch.sys, batch.options, batch.numActions, e, batch.views);
      }
      run := run + [e];
    }
  }

  /** Whether every beam that has a sentence has its gold path. */
  method GoldIsHeld<S>(batch: BatchState<S>) returns (held: bool)
    requires batch.Valid() && AllFollow(batch.views)
    ensures held <==> AllTrack(batch.views)
  {
    var views := batch.Snapshot();
    assert views == batch.views;
    for b := 0 to |views|
      invariant AllTrack(views[..b])
    {
      if views[b].gold.Some? && GoldCount(views[b].slots) != 1 {
        return false;
      }
    }
    assert views[..|views|] == views;
    return true;
  }

  /** A training batch: the beams are evaluated any number of times. Afterwards every beam that has a sentence still
      has its gold path if and only if all evaluations were harmless, which they are with good gold states in beams
      that spare the gold path; and then the indices of every path sum up to its score. */
  method TrainBatch<S(!new)>(batch: BatchState<S>, scorer: (nat, nat) -> Matrix, steps: nat, ghost good: S -> bool)
      returns (ok: bool, indices: seq<nat>, pathIds: seq<nat>, beamIds: seq<nat>, slotIds: seq<nat>,
               pathScores: seq<real>, goldSlots: seq<int>, ghost first: seq<BeamView<S>>, ghost run: seq<Evaluation<S>>)
    requires batch.OwnsBeams() && Scores(scorer, batch.numActions)
    requires forall b :: 0 <= b < |batch.beams| ==> JustReset(batch.beams[b].View())
    modifies batch, batch.beams
    ensures batch.Valid() && |run| == steps && |first| == |batch.beams|
    ensures forall b :: 0 <= b < |batch.beams| ==> first[b] == old(batch.beams[b].View())
    ensures RunsTo(batch.sys, batch.options, batch.numActions, scorer, first, run, batch.views)
    ensures ok <==> AllTrack(batch.views)
    ensures ok <==> AllHarmless(batch.sys, batch.options, batch.numActions, run)
    ensures GoesOn(batch.sys, good, batch.numActions) && AllGood(first, good) ==>
              batch.options.continueUntilAllFinal || ok
    ensures ok ==> Emitted(Flatten(batch.matrix), indices, pathIds, pathScores)
    ensures ok ==> pathScores == ScoresOf(batch.views, |batch.beams|)
    ensures ok ==> Names(beamIds, slotIds, PathsOf(batch.views, |batch.beams|))
    ensures ok ==>
              && |goldSlots| == |batch.beams|
              && forall b {:trigger goldSlots[b]} :: 0 <= b < |batch.beams| ==> GoldSlotOf(batch.views[b], goldSlots[b])
  {
    first := Begin(batch);
    run := EvaluateAll(batch, scorer, steps, good);
    ok, indices, pathIds, beamIds, slotIds, pathScores, goldSlots := OutputIfGoldIsHeld(batch);
  }

  /** New offsets for beams that were just reset: all have their gold paths. */
  method Begin<S>(batch: BatchState<S>) returns (ghost first: seq<BeamView<S>>)
    requires batch.OwnsBeams() && forall b :: 0 <= b < |batch.beams| ==> JustReset(batch.beams[b].View())
    modifies batch
    ensures batch.Valid() && first == batch.views && |first| == |batch.beams| && AllFollow(first) && AllTrack(first)
    ensures forall b :: 0 <= b < |batch.beams| ==> first[b] == old(batch.beams[b].View())
  {
    batch.ResetOffsets();
    first := batch.views;
    AllResetTrackGold(first);
  }

  /** The closing check on gold slots, and the outputs if it holds. */
  method OutputIfGoldIsHeld<S>(batch: BatchState<S>)
      returns (ok: bool, indices: seq<nat>, pathIds: seq<nat>, beamIds: seq<nat>, slotIds: seq<nat>,
               pathScores: seq<real>, goldSlots: seq<int>)
    requires batch.Valid() && AllFollow(batch.views)
    ensures ok <==> AllTrack(batch.views)
    ensures ok ==> Emitted(Flatten(batch.matrix), indices, pathIds, pathScores)
    ensures ok ==> pathScores == ScoresOf(batch.views, |batch.beams|)
    ensures ok ==> Names(beamIds, slotIds, PathsOf(batch.views, |batch.beams|))
    ensures ok ==>
              && |goldSlots| == |batch.beams|
              && forall b {:trigger goldSlots[b]} :: 0 <= b < |batch.beams| ==> GoldSlotOf(batch.views[b], goldSlots[b])
  {
    ok := GoldIsHeld(batch);
    indices, pathIds, beamIds, slotIds, pathScores, goldSlots := [], [], [], [], [], [];
    if ok {
      indices, pathIds, beamIds, slotIds, pathScores, goldSlots := batch.Output();
    }
  }
}
