/** What one step of the training beam makes of its paths: which candidates come up, and which are kept. */
module BeamSelection {
  import opened Wrappers
  import opened TransitionSystems
  import opened TrainingBeam

  // ----- Insertion -----

  /** From slots to r the item x has come in, behind all that are not greater and before all that are. */
  predicate InsertedAt<S(==)>(slots: seq<Item<S>>, x: Item<S>, r: seq<Item<S>>, i: nat) {
    && i <= |slots| && r == slots[..i] + [x] + slots[i..]
    && forall j :: 0 <= j < |slots| ==> (KeyLess(x, slots[j]) <==> i <= j)
  }

  lemma {:induction false} InsertsAt<S>(slots: seq<Item<S>>, x: Item<S>) returns (i: nat)
    requires Ascending(slots)
    ensures InsertedAt(slots, x, Insert(slots, x), i)
  {
    if slots == [] || KeyLess(x, slots[0]) {
      i := 0;
      assert slots[..0] == [] && slots[0..] == slots;
    } else {
      var k := InsertsAt(slots[1..], x);
      i := k + 1;
      assert slots[..i] == [slots[0]] + slots[1..][..k] && slots[i..] == slots[1..][k..];
      assert forall j :: 1 <= j < |slots| ==> slots[j] == slots[1..][j - 1];
    }
  }

  lemma {:induction false} InsertAdds<S>(slots: seq<Item<S>>, x: Item<S>)
    ensures multiset(Insert(slots, x)) == multiset(slots) + multiset{x}
  {
    if slots != [] && !KeyLess(x, slots[0]) {
      InsertAdds(slots[1..], x);
      assert slots == [slots[0]] + slots[1..];
    }
  }

  // ----- Selection -----

  /** None of the other paths left out scores above the given one. */
  ghost predicate Above<S>(y: Item<S>, out: multiset<Item<S>>) {
    forall x :: x in out && !x.isGold ==> x.score <= y.score
  }

  ghost predicate AllAbove<S>(slots: seq<Item<S>>, out: multiset<Item<S>>, untilAllFinal: bool) {
    forall y :: y in slots && (untilAllFinal || !y.isGold) ==> Above(y, out)
  }

  /** The slots are as many of the candidates as fit, and no other path left out scores above another path kept;
      in a beam that does not spare gold it does not score above gold either, if that is kept. */
  ghost predicate Selects<S>(slots: seq<Item<S>>, xs: seq<Item<S>>, maxSize: nat, untilAllFinal: bool) {
    && Ascending(slots) && |slots| == Least(maxSize, |xs|) && multiset(slots) <= multiset(xs)
    && AllAbove(slots, multiset(xs) - multiset(slots), untilAllFinal)
  }

  /** x comes in and z goes out. */
  lemma Exchange<T>(all: multiset<T>, a: multiset<T>, s: multiset<T>, x: T, z: T)
    requires a <= all && s + multiset{z} == a + multiset{x}
    ensures s <= all + multiset{x} && all + multiset{x} - s == all - a + multiset{z}
  {
    forall e ensures s[e] <= (all + multiset{x})[e] && (all + multiset{x} - s)[e] == (all - a + multiset{z})[e] {
      assert (s + multiset{z})[e] == (a + multiset{x})[e];
    }
  }

  lemma ExchangedWasThere<T>(a: multiset<T>, s: multiset<T>, x: T, z: T)
    requires s + multiset{z} == a + multiset{x} && x in s && x !in a
    ensures z in a
  {
    assert (s + multiset{z})[x] == (a + multiset{x})[x];
    assert (s + multiset{z})[z] == (a + multiset{x})[z];
  }

  lemma SelectsOneMore<S>(a: seq<Item<S>>, s: seq<Item<S>>, z: Item<S>, xs: seq<Item<S>>, x: Item<S>, maxSize: nat,
                          untilAllFinal: bool)
    requires Selects(a, xs, maxSize, untilAllFinal) && |a| == maxSize > 0 && Ascending(s) && |s| == maxSize
    requires multiset(s) + multiset{z} == multiset(a) + multiset{x}
    requires AllAbove(s, multiset(xs) - multiset(a), untilAllFinal)
    requires !z.isGold ==> forall y :: y in s && (untilAllFinal || !y.isGold) ==> z.score <= y.score
    ensures Selects(s, xs + [x], maxSize, untilAllFinal)
  {
    var out, more := multiset(xs) - multiset(a), multiset(xs + [x]) - multiset(s);
    assert multiset(xs + [x]) == multiset(xs) + multiset{x};
    Exchange(multiset(xs), multiset(a), multiset(s), x, z);
    forall y | y in s && (untilAllFinal || !y.isGold) ensures Above(y, more) {
      assert Above(y, out);
    }
  }

  lemma RoomTakesAll<S>(a: seq<Item<S>>, xs: seq<Item<S>>, x: Item<S>, maxSize: nat, untilAllFinal: bool)
    requires Selects(a, xs, maxSize, untilAllFinal) && |a| < maxSize
    ensures Selects(Insert(a, x), xs + [x], maxSize, untilAllFinal)
  {
    assert multiset(xs) == multiset(a) by {
      assert |multiset(xs) - multiset(a)| == 0;
    }
    InsertAdds(a, x);
    InsertAscends(a, x);
    assert multiset(xs + [x]) == multiset(xs) + multiset{x};
  }

  lemma RejectKeepsBest<S>(a: seq<Item<S>>, xs: seq<Item<S>>, x: Item<S>, maxSize: nat, untilAllFinal: bool)
    requires Selects(a, xs, maxSize, untilAllFinal) && |a| == maxSize > 0 && x.score <= a[0].score
    ensures Selects(a, xs + [x], maxSize, untilAllFinal)
  {
    FirstIsLowest(a);
    SelectsOneMore(a, a, x, xs, x, maxSize, untilAllFinal);
  }

  lemma DropFirst<S>(s: seq<Item<S>>)
    requires s != []
    ensures multiset(s[1..]) + multiset{s[0]} == multiset(s)
  {
    assert s == [s[0]] + s[1..];
  }

  lemma DropSecond<S>(s: seq<Item<S>>)
    requires |s| >= 2
    ensures multiset([s[0]] + s[2..]) + multiset{s[1]} == multiset(s)
  {
    assert s == [s[0]] + [s[1]] + s[2..];
  }

  /** Everything kept after the lowest other path z went is still above what was left out: it was there before, or it
      is the new item, which is not below z. */
  lemma CutStaysAbove<S>(a: seq<Item<S>>, xs: seq<Item<S>>, x: Item<S>, s: seq<Item<S>>, r: seq<Item<S>>, z: Item<S>,
                         maxSize: nat, untilAllFinal: bool)
    requires Selects(a, xs, maxSize, untilAllFinal) && s == Insert(a, x) && !z.isGold
    requires multiset(r) + multiset{z} == multiset(a) + multiset{x}
    requires forall y :: y in r ==> y in s && (untilAllFinal || !y.isGold ==> z.score <= y.score)
    ensures AllAbove(r, multiset(xs) - multiset(a), untilAllFinal)
  {
    var out := multiset(xs) - multiset(a);
    forall y | y in r && (untilAllFinal || !y.isGold) ensures Above(y, out) {
      if y !in a {
        assert y == x;
        ExchangedWasThere(multiset(a), multiset(r), x, z);
        assert Above(z, out);
      }
    }
  }

  /** A full beam gives up its lowest other path z and keeps r. */
  lemma CutOtherKeepsBest<S>(a: seq<Item<S>>, xs: seq<Item<S>>, x: Item<S>, z: Item<S>, r: seq<Item<S>>, maxSize: nat,
                             untilAllFinal: bool)
    requires Selects(a, xs, maxSize, untilAllFinal) && |a| == |r| == maxSize > 0 && Ascending(r)
    requires multiset(r) + multiset{z} == multiset(Insert(a, x)) && !z.isGold
    requires forall y :: y in r ==> y in Insert(a, x) && (untilAllFinal || !y.isGold ==> z.score <= y.score)
    ensures Selects(r, xs + [x], maxSize, untilAllFinal)
  {
    InsertAdds(a, x);
    CutStaysAbove(a, xs, x, Insert(a, x), r, z, maxSize, untilAllFinal);
    SelectsOneMore(a, r, z, xs, x, maxSize, untilAllFinal);
  }

  /** The lowest path of a full beam goes. */
  lemma CutLowestKeepsBest<S>(a: seq<Item<S>>, xs: seq<Item<S>>, x: Item<S>, s: seq<Item<S>>, maxSize: nat,
                              untilAllFinal: bool)
    requires Selects(a, xs, maxSize, untilAllFinal) && |a| == maxSize > 0 && s == Insert(a, x) && !s[0].isGold
    ensures Selects(s[1..], xs + [x], maxSize, untilAllFinal)
  {
    InsertAscends(a, x);
    TailAscends(s);
    FirstIsLowest(s);
    DropFirst(s);
    CutOtherKeepsBest(a, xs, x, s[0], s[1..], maxSize, untilAllFinal);
  }

  lemma AboveSecond<S>(s: seq<Item<S>>)
    requires Ascending(s) && |s| >= 2
    ensures forall y :: y in [s[0]] + s[2..] ==> y in s && (y == s[0] || s[1].score <= y.score)
  {
    forall y | y in [s[0]] + s[2..] ensures y in s && (y == s[0] || s[1].score <= y.score) {
      if y != s[0] {
        var i :| 2 <= i < |s| && s[i] == y;
      }
    }
  }

  /** Gold at the bottom of a full beam stays, and the path above it goes. */
  lemma SparingKeepsBest<S>(a: seq<Item<S>>, xs: seq<Item<S>>, x: Item<S>, s: seq<Item<S>>, maxSize: nat)
    requires Selects(a, xs, maxSize, false) && |a| == maxSize > 0 && s == Insert(a, x)
    requires s[0].isGold && GoldCount(s) <= 1
    ensures Selects([s[0]] + s[2..], xs + [x], maxSize, false)
  {
    InsertAscends(a, x);
    WithoutSecond(s);
    DropSecond(s);
    assert !s[1].isGold by {
      NoGoldIsThere(s[1..]);
      assert s[1] in s[1..];
    }
    AboveSecond(s);
    CutOtherKeepsBest(a, xs, x, s[1], [s[0]] + s[2..], maxSize, false);
  }

  /** Gold at the bottom of a full beam that does not spare it goes. */
  lemma CutGoldKeepsBest<S>(a: seq<Item<S>>, xs: seq<Item<S>>, x: Item<S>, s: seq<Item<S>>, maxSize: nat)
    requires Selects(a, xs, maxSize, true) && |a| == maxSize > 0 && s == Insert(a, x) && s[0].isGold
    requires x.isGold || x.score > a[0].score
    ensures Selects(s[1..], xs + [x], maxSize, true)
  {
    InsertAdds(a, x);
    InsertAscends(a, x);
    TailAscends(s);
    DropFirst(s);
    GoldGoesAbove(a, x, s, multiset(xs) - multiset(a));
    SelectsOneMore(a, s[1..], s[0], xs, x, maxSize, true);
  }

  lemma GoldGoesAbove<S>(a: seq<Item<S>>, x: Item<S>, s: seq<Item<S>>, out: multiset<Item<S>>)
    requires a != [] && AllAbove(a, out, true) && s == Insert(a, x) && s[0].isGold
    requires x.isGold || x.score > a[0].score
    ensures AllAbove(s[1..], out, true)
  {
    assert a[0] in a && Above(a[0], out);
    if KeyLess(x, a[0]) {
      assert s[1..] == a;
    } else {
      assert s[1..] == Insert(a[1..], x);
      forall y | y in s[1..] ensures Above(y, out) {
        assert y == x || y in a;
        assert Above(a[0], out);
      }
    }
  }

  lemma PruneKeepsBest<S>(a: seq<Item<S>>, xs: seq<Item<S>>, x: Item<S>, b: Agenda<S>, maxSize: nat,
                          untilAllFinal: bool)
    requires maxSize > 0 && Selects(a, xs, maxSize, untilAllFinal) && |a| == maxSize && b.slots == Insert(a, x)
    requires GoldCount(b.slots) <= 1 && (x.isGold || x.score > a[0].score)
    ensures Selects(Prune(b, maxSize, untilAllFinal).slots, xs + [x], maxSize, untilAllFinal)
  {
    if !b.slots[0].isGold {
      CutLowestKeepsBest(a, xs, x, b.slots, maxSize, untilAllFinal);
    } else if untilAllFinal {
      CutGoldKeepsBest(a, xs, x, b.slots, maxSize);
    } else {
      SparingKeepsBest(a, xs, x, b.slots, maxSize);
    }
  }

  lemma ConsiderKeepsBest<S>(a: Agenda<S>, xs: seq<Item<S>>, x: Item<S>, maxSize: nat, untilAllFinal: bool)
    requires maxSize > 0 && Selects(a.slots, xs, maxSize, untilAllFinal) && GoldCount(Insert(a.slots, x)) <= 1
    ensures Selects(Consider(a, x, maxSize, untilAllFinal).slots, xs + [x], maxSize, untilAllFinal)
  {
    if !(x.isGold || |a.slots| < maxSize || x.score > a.slots[0].score) {
      RejectKeepsBest(a.slots, xs, x, maxSize, untilAllFinal);
    } else if |a.slots| < maxSize {
      RoomTakesAll(a.slots, xs, x, maxSize, untilAllFinal);
    } else {
      PruneKeepsBest(a.slots, xs, x, a.(slots := Insert(a.slots, x)), maxSize, untilAllFinal);
    }
  }

  /** Whether gold is spared or not, the beam holds as many of the candidates as fit, and the best of those that are
      not gold. */
  lemma {:induction false} SearchSelects<S>(xs: seq<Item<S>>, maxSize: nat, untilAllFinal: bool)
    requires maxSize > 0 && GoldCount(xs) <= 1
    ensures Selects(ConsiderAll(xs, maxSize, untilAllFinal).slots, xs, maxSize, untilAllFinal)
  {
    if xs != [] {
      var init, x := xs[..|xs| - 1], xs[|xs| - 1];
      assert xs == init + [x];
      CountsAppend(init, x, 0.0, true);
      SearchSelects(init, maxSize, untilAllFinal);
      var a := ConsiderAll(init, maxSize, untilAllFinal);
      SearchKeepsGold(init, maxSize, untilAllFinal, GoldScore(init));
      CountsInsert(a.slots, x, 0.0, true);
      ConsiderKeepsBest(a, init, x, maxSize, untilAllFinal);
    }
  }

  // ----- Candidates -----

  /** A slot with an action, or with -1 if its path is final and stays as it is. */
  datatype Choice = Choice(slot: nat, action: int)

  predicate ChoiceBefore(c: Choice, d: Choice) {
    c.slot < d.slot || (c.slot == d.slot && c.action < d.action)
  }

  predicate IsChoice<S>(sys: System<S>, slots: seq<Item<S>>, numActions: nat, c: Choice) {
    && c.slot < |slots|
    && if sys.isFinal(slots[c.slot].state) then c.action == -1
       else 0 <= c.action < numActions && sys.isAllowed(slots[c.slot].state, c.action)
  }

  /** y is the path of the chosen slot after the chosen action, with the score of that action in the slot's row. */
  predicate ComesFrom<S(==)>(sys: System<S>, slots: seq<Item<S>>, scores: seq<seq<real>>, numActions: nat,
                             goldAction: int, c: Choice, y: Item<S>) {
    && IsChoice(sys, slots, numActions, c)
    && var x := slots[c.slot];
    if c.action == -1 then y == x
    else
      && c.slot < |scores| && c.action < |scores[c.slot]|
      && y.score == x.score + scores[c.slot][c.action] && y.state == sys.perform(x.state, c.action)
      && (y.isGold <==> x.isGold && c.action == goldAction)
      && y.slotHistory == x.slotHistory + [c.slot] && y.actionHistory == x.actionHistory + [c.action]
      && y.scoreHistory == x.scoreHistory + [scores[c.slot][c.action]]
  }

  /** The candidates xs come from the choices cs, one from each choice before the given one, in their order. */
  ghost predicate Lists<S>(sys: System<S>, slots: seq<Item<S>>, scores: seq<seq<real>>, numActions: nat,
                           goldAction: int, limit: Choice, cs: seq<Choice>, xs: seq<Item<S>>) {
    && |cs| == |xs|
    && (forall i :: 0 <= i < |cs| ==> ComesFrom(sys, slots, scores, numActions, goldAction, cs[i], xs[i]))
    && (forall i, j :: 0 <= i < j < |cs| ==> ChoiceBefore(cs[i], cs[j]))
    && (forall c :: c in cs <==> IsChoice(sys, slots, numActions, c) && ChoiceBefore(c, limit))
  }

  lemma ListsOneMore<S>(sys: System<S>, slots: seq<Item<S>>, scores: seq<seq<real>>, numActions: nat,
                        goldAction: int, c: Choice, next: Choice, cs: seq<Choice>, xs: seq<Item<S>>, x: Item<S>)
    requires Lists(sys, slots, scores, numActions, goldAction, c, cs, xs)
    requires ComesFrom(sys, slots, scores, numActions, goldAction, c, x)
    requires forall d :: IsChoice(sys, slots, numActions, d) ==>
               (ChoiceBefore(d, next) <==> d == c || ChoiceBefore(d, c))
    ensures Lists(sys, slots, scores, numActions, goldAction, next, cs + [c], xs + [x])
  {
    forall i | 0 <= i < |cs| ensures ChoiceBefore(cs[i], c) {
      assert cs[i] in cs;
    }
  }

  lemma ListsNoMore<S>(sys: System<S>, slots: seq<Item<S>>, scores: seq<seq<real>>, numActions: nat,
                       goldAction: int, c: Choice, next: Choice, cs: seq<Choice>, xs: seq<Item<S>>)
    requires Lists(sys, slots, scores, numActions, goldAction, c, cs, xs)
    requires forall d :: IsChoice(sys, slots, numActions, d) ==> (ChoiceBefore(d, next) <==> ChoiceBefore(d, c))
    ensures Lists(sys, slots, scores, numActions, goldAction, next, cs, xs)
  {
  }

  /** The candidates of the slots before s and of the first a actions of slot s, which is not final. */
  lemma {:induction false} RowListed<S>(sys: System<S>, slots: seq<Item<S>>, scores: seq<seq<real>>, numActions: nat,
                                        goldAction: int, s: nat, a: nat, seen: seq<Item<S>>, cs: seq<Choice>)
      returns (ds: seq<Choice>)
    requires Covers(sys, slots, scores, numActions) && s < |slots| && !sys.isFinal(slots[s].state) && a <= numActions
    requires Lists(sys, slots, scores, numActions, goldAction, Choice(s, 0), cs, seen)
    ensures Lists(sys, slots, scores, numActions, goldAction, Choice(s, a), ds,
                  seen + RowCandidates(sys, slots[s], s, scores[s], goldAction, a))
  {
    if a == 0 {
      ds := cs;
      assert seen + [] == seen;
    } else {
      ds := RowListed(sys, slots, scores, numActions, goldAction, s, a - 1, seen, cs);
      var row := RowCandidates(sys, slots[s], s, scores[s], goldAction, a - 1);
      var c, next := Choice(s, a - 1), Choice(s, a);
      if sys.isAllowed(slots[s].state, a - 1) {
        var x := Extend(sys, slots[s], s, a - 1, scores[s][a - 1], goldAction);
        ListsOneMore(sys, slots, scores, numActions, goldAction, c, next, ds, seen + row, x);
        assert seen + row + [x] == seen + (row + [x]);
        ds := ds + [c];
      } else {
        ListsNoMore(sys, slots, scores, numActions, goldAction, c, next, ds, seen + row);
      }
    }
  }

  lemma {:induction false} CandidatesListed<S>(sys: System<S>, slots: seq<Item<S>>, scores: seq<seq<real>>,
                                               numActions: nat, goldAction: int, n: nat) returns (cs: seq<Choice>)
    requires n <= |slots| && Covers(sys, slots, scores, numActions)
    ensures Lists(sys, slots, scores, numActions, goldAction, Choice(n, -1), cs,
                  Candidates(sys, slots, scores, numActions, goldAction, n))
  {
    if n == 0 {
      cs := [];
    } else {
      cs := CandidatesListed(sys, slots, scores, numActions, goldAction, n - 1);
      var seen := Candidates(sys, slots, scores, numActions, goldAction, n - 1);
      if sys.isFinal(slots[n - 1].state) {
        ListsOneMore(sys, slots, scores, numActions, goldAction, Choice(n - 1, -1), Choice(n, -1), cs, seen,
                     slots[n - 1]);
        cs := cs + [Choice(n - 1, -1)];
      } else {
        ListsNoMore(sys, slots, scores, numActions, goldAction, Choice(n - 1, -1), Choice(n - 1, 0), cs, seen);
        cs := RowListed(sys, slots, scores, numActions, goldAction, n - 1, numActions, seen, cs);
        ListsNoMore(sys, slots, scores, numActions, goldAction, Choice(n - 1, numActions), Choice(n, -1), cs,
                    seen + SlotCandidates(sys, slots, scores, numActions, goldAction, n - 1));
      }
    }
  }

  // ----- A step -----

  /** The gold state after its gold action, if that is allowed. */
  predicate GoldMoves<S(==)>(sys: System<S>, gold: S, goldAction: int, next: S) {
    if sys.isFinal(gold) then goldAction == -1 && next == gold
    else
      && goldAction == sys.goldAction(gold)
      && next == if sys.isAllowed(gold, goldAction) then sys.perform(gold, goldAction) else gold
  }

  /** A step of a live beam: gold takes its action, every path is extended by every allowed action or stays if it is
      final, and as many as fit are kept, the best of those that are not gold. */
  ghost predicate Steps<S>(sys: System<S>, o: Options, v: BeamView<S>, scores: seq<seq<real>>, numActions: nat,
                           w: BeamView<S>, goldAction: int, cs: seq<Choice>, xs: seq<Item<S>>) {
    && v.gold.Some? && w.gold.Some? && GoldMoves(sys, v.gold.value, goldAction, w.gold.value)
    && Lists(sys, v.slots, scores, numActions, goldAction, Choice(|v.slots|, -1), cs, xs)
    && Selects(w.slots, xs, o.maxBeamSize, o.continueUntilAllFinal)
    && (w.allFinal <==> forall i :: 0 <= i < |w.slots| ==> sys.isFinal(w.slots[i].state))
  }

  lemma AdvanceSteps<S>(sys: System<S>, o: Options, v: BeamView<S>, scores: seq<seq<real>>, numActions: nat)
      returns (goldAction: int, cs: seq<Choice>, xs: seq<Item<S>>)
    requires o.maxBeamSize > 0 && v.status == Alive && FollowsGold(v) && Covers(sys, v.slots, scores, numActions)
    ensures Steps(sys, o, v, scores, numActions, AdvanceView(sys, o, v, scores, numActions), goldAction, cs, xs)
  {
    goldAction := NextGoldAction(sys, v.gold.value);
    xs := StepCandidates(sys, v, scores, numActions);
    cs := CandidatesListed(sys, v.slots, scores, numActions, goldAction, |v.slots|);
    StepGoldCount(sys, v, scores, numActions);
    SearchSelects(xs, o.maxBeamSize, o.continueUntilAllFinal);
  }
}
