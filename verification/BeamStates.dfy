/** One training beam as an object: its slots, its gold state and whether it is alive. */
module BeamStates {
  import opened Wrappers
  import opened TransitionSystems
  import opened TrainingBeam
  import opened BeamSelection

  class BeamState<S> {
    const sys: System<S>
    const options: Options
    var slots: seq<Item<S>>
    var gold: Option<S>
    var goldAction: int
    var state: Status
    var allFinal: bool

    constructor (sys: System<S>, options: Options)
      requires options.maxBeamSize > 0
      ensures this.sys == sys && this.options == options && gold == None && slots == []
    {
      this.sys, this.options := sys, options;
      slots, gold, goldAction, state, allFinal := [], None, -1, Alive, false;
    }

    function View(): BeamView<S>
      reads this
    {
      BeamView(slots, gold, state, allFinal)
    }

    /** Starts over from the gold state, moving to the next sentence if that is final or asked for. */
    method Reset(alwaysStartNew: bool, nextSentence: Option<S>)
      modifies this
      ensures gold ==
              if alwaysStartNew || old(gold) == None || sys.isFinal(old(gold).value) then nextSentence else old(gold)
      ensures gold == None ==> state == Dead && slots == []
      ensures gold != None ==> state == Alive && slots == [Item(0.0, gold.value, true, [], [], [])]
    {
      if alwaysStartNew || gold.None? || sys.isFinal(gold.value) {
        gold := nextSentence;
      }
      slots := [];
      if gold.None? {
        state := Dead;
      } else {
        slots := Insert(slots, Item(0.0, gold.value, true, [], [], []));
        state := Alive;
      }
    }

    method AdvanceGold()
      requires gold != None
      modifies this`gold, this`goldAction
      ensures goldAction == NextGoldAction(sys, old(gold).value) && gold == Some(NextGold(sys, old(gold).value))
      ensures GoldMoves(sys, old(gold).value, goldAction, gold.value)
    {
      goldAction := -1;
      if !sys.isFinal(gold.value) {
        goldAction := sys.goldAction(gold.value);
        if sys.isAllowed(gold.value, goldAction) {
          gold := Some(sys.perform(gold.value, goldAction));
        }
      }
    }

    /** The agenda holds what is left of the candidates seen so far. */
    ghost predicate Holds(seen: seq<Item<S>>)
      requires options.maxBeamSize > 0
      reads this
    {
      && state != Dead
      && Agenda(slots, state == Dying) == ConsiderAll(seen, options.maxBeamSize, options.continueUntilAllFinal)
    }

    method MaybeInsertItem(x: Item<S>)
      requires options.maxBeamSize > 0 && Ascending(slots)
      modifies this`slots
      ensures slots == MaybeInsert(old(slots), x, options.maxBeamSize)
      ensures if x.isGold || |old(slots)| < options.maxBeamSize || x.score > old(slots)[0].score
              then exists i :: InsertedAt(old(slots), x, slots, i) else slots == old(slots)
    {
      ghost var i := InsertsAt(slots, x);
      if x.isGold || |slots| < options.maxBeamSize || x.score > slots[0].score {
        slots := Insert(slots, x);
      }
    }

    method PruneBeam()
      requires options.maxBeamSize > 0 && state != Dead
      modifies this`slots, this`state
      ensures state != Dead
      ensures Agenda(slots, state == Dying)
              == Prune(Agenda(old(slots), old(state) == Dying), options.maxBeamSize, options.continueUntilAllFinal)
      ensures |old(slots)| <= options.maxBeamSize ==> slots == old(slots) && state == old(state)
      ensures |old(slots)| > options.maxBeamSize && (options.continueUntilAllFinal || !old(slots)[0].isGold) ==>
                slots == old(slots)[1..] && state == old(state)
      ensures |old(slots)| > options.maxBeamSize && !options.continueUntilAllFinal && old(slots)[0].isGold ==>
                slots == [old(slots)[0]] + old(slots)[2..] && state == Dying
    {
      if |slots| > options.maxBeamSize {
        var bottom := 0;
        if !options.continueUntilAllFinal && slots[bottom].isGold {
          state := Dying;
          bottom := bottom + 1;
        }
        slots := slots[..bottom] + slots[bottom + 1..];
      }
    }

    method InsertAndPrune(x: Item<S>, ghost seen: seq<Item<S>>)
      requires options.maxBeamSize > 0 && Holds(seen)
      modifies this`slots, this`state
      ensures Holds(seen + [x])
    {
      ConsiderOneMore(seen, x, options.maxBeamSize, options.continueUntilAllFinal);
      AgendaHoldsCandidates(seen, options.maxBeamSize, options.continueUntilAllFinal);
      MaybeInsertItem(x);
      PruneBeam();
    }

    method UpdateAllFinal()
      modifies this`state, this`allFinal
      ensures allFinal == AllFinal(sys, slots) && state == if allFinal then Dead else old(state)
    {
      allFinal := true;
      for i := 0 to |slots|
        invariant allFinal && state == old(state) && forall j :: 0 <= j < i ==> sys.isFinal(slots[j].state)
      {
        if !sys.isFinal(slots[i].state) {
          allFinal := false;
          break;
        }
      }
      if allFinal {
        state := Dead;
      }
    }

    method Advance(scores: seq<seq<real>>, numActions: nat)
      requires options.maxBeamSize > 0 && (state == Alive ==> Covers(sys, slots, scores, numActions))
      modifies this
      ensures View() == AdvanceView(sys, options, old(View()), scores, numActions)
      ensures old(state) == Alive && FollowsGold(old(View())) ==>
                exists a, cs, xs :: Steps(sys, options, old(View()), scores, numActions, View(), a, cs, xs)
      ensures old(state) != Alive ==> slots == old(slots) && gold == old(gold) && state == Dead
    {
      if state == Alive && FollowsGold(View()) {
        ghost var a, cs, xs := AdvanceSteps(sys, options, View(), scores, numActions);
      }
      if state == Dying {
        state := Dead;
      }
      if state != Alive || gold.None? {
        return;
      }
      AdvanceGold();
      AdvanceSlots(scores, numActions);
      UpdateAllFinal();
    }

    /** Considers what every path can become, starting with an empty agenda. */
    method AdvanceSlots(scores: seq<seq<real>>, numActions: nat)
      requires options.maxBeamSize > 0 && state == Alive && Covers(sys, slots, scores, numActions)
      modifies this`slots, this`state
      ensures Holds(Candidates(sys, old(slots), scores, numActions, goldAction, |old(slots)|))
    {
      var previous := slots;
      slots := [];
      for slot := 0 to |previous|
        invariant Holds(Candidates(sys, previous, scores, numActions, goldAction, slot))
      {
        AdvanceSlot(previous, scores, numActions, slot,
                    Candidates(sys, previous, scores, numActions, goldAction, slot));
      }
    }

    method AdvanceSlot(previous: seq<Item<S>>, scores: seq<seq<real>>, numActions: nat, slot: nat,
                       ghost seen: seq<Item<S>>)
      requires options.maxBeamSize > 0 && Holds(seen)
      requires slot < |previous| && Covers(sys, previous, scores, numActions)
      modifies this`slots, this`state
      ensures Holds(seen + SlotCandidates(sys, previous, scores, numActions, goldAction, slot))
    {
      var item := previous[slot];
      if !sys.isFinal(item.state) {
        AdvanceRow(item, slot, scores[slot], seen);
      } else {
        InsertAndPrune(item, seen);
      }
    }

    /** Considers what every allowed action makes of one path. */
    method AdvanceRow(item: Item<S>, slot: nat, row: seq<real>, ghost seen: seq<Item<S>>)
      requires options.maxBeamSize > 0 && Holds(seen)
      modifies this`slots, this`state
      ensures Holds(seen + RowCandidates(sys, item, slot, row, goldAction, |row|))
    {
      assert seen + [] == seen;
      for action := 0 to |row|
        invariant Holds(seen + RowCandidates(sys, item, slot, row, goldAction, action))
      {
        AdvanceAction(item, slot, row, action, seen);
      }
    }

    /** Considers what one action makes of a path, if it is allowed. */
    method AdvanceAction(item: Item<S>, slot: nat, row: seq<real>, action: nat, ghost seen: seq<Item<S>>)
      requires options.maxBeamSize > 0 && action < |row|
      requires Holds(seen + RowCandidates(sys, item, slot, row, goldAction, action))
      modifies this`slots, this`state
      ensures Holds(seen + RowCandidates(sys, item, slot, row, goldAction, action + 1))
    {
      if sys.isAllowed(item.state, action) {
        ghost var tried := RowCandidates(sys, item, slot, row, goldAction, action);
        var x := Extend(sys, item, slot, action, row[action], goldAction);
        InsertAndPrune(x, seen + tried);
        assert seen + tried + [x] == seen + (tried + [x]);
      }
    }
  }
}
