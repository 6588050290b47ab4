/** The training beam: bounded search in which the gold path is never pruned. */
module TrainingBeam {
  import opened Wrappers
  import opened TransitionSystems

  /** A path in the beam, with the beam slots, actions and scores along it. */
  datatype Item<S> = Item(score: real, state: S, isGold: bool,
                          slotHistory: seq<nat>, actionHistory: seq<nat>, scoreHistory: seq<real>)

  datatype Status = Alive | Dying | Dead

  // ----- The agenda: items in ascending order, gold first among equal scores -----

  predicate KeyLess<S>(x: Item<S>, y: Item<S>) {
    x.score < y.score || (x.score == y.score && x.isGold && !y.isGold)
  }

  predicate Ascending<S>(slots: seq<Item<S>>) {
    forall i, j :: 0 <= i < j < |slots| ==> !KeyLess(slots[j], slots[i])
  }

  /** Inserts after all items whose key is not greater. */
  function Insert<S>(slots: seq<Item<S>>, x: Item<S>): (r: seq<Item<S>>)
    ensures |r| == |slots| + 1
    ensures forall y :: y in r ==> y == x || y in slots
  {
    if slots == [] || KeyLess(x, slots[0]) then [x] + slots else [slots[0]] + Insert(slots[1..], x)
  }

  lemma {:induction false} InsertAscends<S>(slots: seq<Item<S>>, x: Item<S>)
    requires Ascending(slots)
    ensures Ascending(Insert(slots, x))
  {
    if slots != [] && !KeyLess(x, slots[0]) {
      InsertAscends(slots[1..], x);
      var r := Insert(slots[1..], x);
      forall i | 0 <= i < |r| ensures !KeyLess(r[i], slots[0]) {
        assert r[i] in r;
      }
    }
  }

  datatype Agenda<S> = Agenda(slots: seq<Item<S>>, dying: bool)

  /** Inserts an item that is gold, finds room or beats the lowest score. */
  function MaybeInsert<S>(slots: seq<Item<S>>, x: Item<S>, maxSize: nat): seq<Item<S>>
    requires maxSize > 0
  {
    if x.isGold || |slots| < maxSize || x.score > slots[0].score then Insert(slots, x) else slots
  }

  /** Drops the lowest item of an overfull agenda, but spares the gold one. */
  function Prune<S>(a: Agenda<S>, maxSize: nat, untilAllFinal: bool): Agenda<S>
    requires maxSize > 0
  {
    if |a.slots| <= maxSize then a
    else if !untilAllFinal && a.slots[0].isGold then Agenda([a.slots[0]] + a.slots[2..], true)
    else a.(slots := a.slots[1..])
  }

  function Consider<S>(a: Agenda<S>, x: Item<S>, maxSize: nat, untilAllFinal: bool): Agenda<S>
    requires maxSize > 0
  {
    Prune(a.(slots := MaybeInsert(a.slots, x, maxSize)), maxSize, untilAllFinal)
  }

  function ConsiderAll<S>(xs: seq<Item<S>>, maxSize: nat, untilAllFinal: bool): Agenda<S>
    requires maxSize > 0
  {
    if xs == [] then Agenda([], false)
    else Consider(ConsiderAll(xs[..|xs| - 1], maxSize, untilAllFinal), xs[|xs| - 1], maxSize, untilAllFinal)
  }

  lemma ConsiderOneMore<S>(xs: seq<Item<S>>, x: Item<S>, maxSize: nat, untilAllFinal: bool)
    requires maxSize > 0
    ensures ConsiderAll(xs + [x], maxSize, untilAllFinal) ==
            Consider(ConsiderAll(xs, maxSize, untilAllFinal), x, maxSize, untilAllFinal)
  {
    assert (xs + [x])[..|xs|] == xs;
  }

  lemma ConsiderHoldsCandidates<S>(a: Agenda<S>, x: Item<S>, maxSize: nat, untilAllFinal: bool)
    requires maxSize > 0 && |a.slots| <= maxSize && Ascending(a.slots)
    ensures var b := Consider(a, x, maxSize, untilAllFinal);
            |b.slots| <= maxSize && Ascending(b.slots) && forall y :: y in b.slots ==> y == x || y in a.slots
  {
    InsertAscends(a.slots, x);
    var s := MaybeInsert(a.slots, x, maxSize);
    if |s| > maxSize {
      WithoutSecond(s);
      assert forall y :: y in s[1..] ==> y in s;
    }
  }

  lemma WithoutSecond<S>(s: seq<Item<S>>)
    requires Ascending(s) && |s| >= 2
    ensures Ascending([s[0]] + s[2..])
    ensures forall y :: y in [s[0]] + s[2..] ==> y in s
  {
    var r := [s[0]] + s[2..];
    assert forall i :: 0 <= i < |r| ==> r[i] == if i == 0 then s[0] else s[i + 1];
  }

  lemma {:induction false} AgendaHoldsCandidates<S>(xs: seq<Item<S>>, maxSize: nat, untilAllFinal: bool)
    requires maxSize > 0
    ensures var a := ConsiderAll(xs, maxSize, untilAllFinal);
            |a.slots| <= maxSize && Ascending(a.slots) && forall x :: x in a.slots ==> x in xs
  {
    if xs != [] {
      var init, x := xs[..|xs| - 1], xs[|xs| - 1];
      AgendaHoldsCandidates(init, maxSize, untilAllFinal);
      ConsiderHoldsCandidates(ConsiderAll(init, maxSize, untilAllFinal), x, maxSize, untilAllFinal);
      assert forall y :: y in init ==> y in xs;
    }
  }

  // ----- Counting rivals of the gold path -----

  function GoldCount<S>(xs: seq<Item<S>>): nat {
    if xs == [] then 0 else (if xs[0].isGold then 1 else 0) + GoldCount(xs[1..])
  }

  /** Items off the gold path that score above a bound, or at least at it. */
  function Rivals<S>(xs: seq<Item<S>>, bound: real, strict: bool): nat {
    if xs == [] then 0
    else (if Rival(xs[0], bound, strict) then 1 else 0) + Rivals(xs[1..], bound, strict)
  }

  predicate Rival<S>(x: Item<S>, bound: real, strict: bool) {
    !x.isGold && (x.score > bound || (!strict && x.score == bound))
  }

  lemma {:induction false} CountsAppend<S>(xs: seq<Item<S>>, x: Item<S>, bound: real, strict: bool)
    ensures GoldCount(xs + [x]) == GoldCount(xs) + if x.isGold then 1 else 0
    ensures Rivals(xs + [x], bound, strict) == Rivals(xs, bound, strict) + if Rival(x, bound, strict) then 1 else 0
  {
    if xs == [] {
      assert xs + [x] == [x];
    } else {
      CountsAppend(xs[1..], x, bound, strict);
      assert (xs + [x])[1..] == xs[1..] + [x];
    }
  }

  lemma {:induction false} CountsInsert<S>(xs: seq<Item<S>>, x: Item<S>, bound: real, strict: bool)
    ensures GoldCount(Insert(xs, x)) == GoldCount(xs) + if x.isGold then 1 else 0
    ensures Rivals(Insert(xs, x), bound, strict) == Rivals(xs, bound, strict) + if Rival(x, bound, strict) then 1 else 0
  {
    if xs == [] || KeyLess(x, xs[0]) {
      assert ([x] + xs)[1..] == xs;
    } else {
      CountsInsert(xs[1..], x, bound, strict);
      assert Insert(xs, x)[1..] == Insert(xs[1..], x);
    }
  }

  lemma {:induction false} CountsAreBounded<S>(xs: seq<Item<S>>, bound: real, strict: bool)
    ensures GoldCount(xs) + Rivals(xs, bound, strict) <= |xs|
    ensures (forall x :: x in xs ==> x.isGold || Rival(x, bound, strict)) ==>
              GoldCount(xs) + Rivals(xs, bound, strict) == |xs|
  {
    if xs != [] {
      CountsAreBounded(xs[1..], bound, strict);
    }
  }

  lemma {:induction false} GoldIsThere<S>(xs: seq<Item<S>>) returns (i: nat)
    requires GoldCount(xs) > 0
    ensures i < |xs| && xs[i].isGold
  {
    if xs[0].isGold {
      i := 0;
    } else {
      i := GoldIsThere(xs[1..]);
      i := i + 1;
    }
  }

  lemma {:induction false} NoGoldIsThere<S>(xs: seq<Item<S>>)
    requires GoldCount(xs) == 0
    ensures forall x :: x in xs ==> !x.isGold
  {
    if xs != [] {
      NoGoldIsThere(xs[1..]);
    }
  }

  /** What holds of the agenda after each candidate, for a gold path of score g. */
  ghost predicate Fair<S>(a: Agenda<S>, xs: seq<Item<S>>, maxSize: nat, g: real) {
    && Ascending(a.slots) && |a.slots| <= maxSize
    && GoldCount(a.slots) == GoldCount(xs) <= 1
    && (forall x :: x in a.slots && x.isGold ==> x.score == g)
    && Rivals(a.slots, g, true) <= Rivals(xs, g, true) && Rivals(a.slots, g, false) <= Rivals(xs, g, false)
    && (a.dying ==> GoldCount(xs) == 1 && Rivals(xs, g, false) >= maxSize)
    && (GoldCount(xs) == 0 ==> Rivals(a.slots, g, true) >= maxSize || Rivals(a.slots, g, true) == Rivals(xs, g, true))
    && (GoldCount(xs) == 1 && !a.dying ==> Rivals(a.slots, g, true) == Rivals(xs, g, true))
  }

  lemma FirstIsLowest<S>(s: seq<Item<S>>)
    requires Ascending(s) && s != []
    ensures forall x :: x in s ==> s[0].score <= x.score
  {
    forall x | x in s ensures s[0].score <= x.score {
      var i :| 0 <= i < |s| && s[i] == x;
    }
  }

  lemma TailAscends<S>(s: seq<Item<S>>)
    requires Ascending(s) && s != []
    ensures Ascending(s[1..]) && forall x :: x in s[1..] ==> x in s
  {
  }

  lemma AllAreRivals<S>(s: seq<Item<S>>, g: real, strict: bool)
    requires Ascending(s) && GoldCount(s) == 0 && s != [] && Rival(s[0], g, strict)
    ensures Rivals(s, g, strict) == |s|
  {
    NoGoldIsThere(s);
    FirstIsLowest(s);
    CountsAreBounded(s, g, strict);
  }

  lemma AllAboveGoldAreRivals<S>(s: seq<Item<S>>, g: real)
    requires Ascending(s) && GoldCount(s) == 1 && s != [] && s[0].isGold && s[0].score == g
    ensures Rivals(s, g, false) == |s| - 1
  {
    NoGoldIsThere(s[1..]);
    FirstIsLowest(s);
    CountsAreBounded(s, g, false);
    forall x | x in s ensures x.isGold || Rival(x, g, false) {
      if x != s[0] {
        assert x in s[1..];
      }
    }
  }

  lemma LowestIsBelowGold<S>(s: seq<Item<S>>, g: real)
    requires Ascending(s) && GoldCount(s) == 1 && s != [] && !s[0].isGold
    requires forall x :: x in s && x.isGold ==> x.score == g
    ensures s[0].score < g
  {
    var i := GoldIsThere(s);
    assert s[i] in s && !KeyLess(s[i], s[0]);
  }

  lemma CountsWithoutSecond<S>(s: seq<Item<S>>, g: real, strict: bool)
    requires |s| >= 2
    ensures GoldCount([s[0]] + s[2..]) == GoldCount(s) - if s[1].isGold then 1 else 0
    ensures Rivals([s[0]] + s[2..], g, strict) == Rivals(s, g, strict) - if Rival(s[1], g, strict) then 1 else 0
  {
    assert ([s[0]] + s[2..])[1..] == s[1..][1..];
  }

  lemma RejectIsFair<S>(a: Agenda<S>, xs: seq<Item<S>>, x: Item<S>, maxSize: nat, g: real)
    requires maxSize > 0 && Fair(a, xs, maxSize, g) && !x.isGold && |a.slots| == maxSize
    requires x.score <= a.slots[0].score
    ensures Fair(a, xs + [x], maxSize, g)
  {
    CountsAppend(xs, x, g, true);
    CountsAppend(xs, x, g, false);
    if x.score > g {
      if GoldCount(xs) == 0 {
        AllAreRivals(a.slots, g, true);
      } else {
        FirstIsLowest(a.slots);
        var i := GoldIsThere(a.slots);
      }
    }
  }

  lemma InsertIsFair<S>(a: Agenda<S>, xs: seq<Item<S>>, x: Item<S>, maxSize: nat, g: real)
    requires maxSize > 0 && Fair(a, xs, maxSize, g) && |a.slots| < maxSize
    requires GoldCount(xs + [x]) <= 1 && (x.isGold ==> x.score == g)
    ensures Fair(a.(slots := Insert(a.slots, x)), xs + [x], maxSize, g)
  {
    CountsAppend(xs, x, g, true);
    CountsAppend(xs, x, g, false);
    CountsInsert(a.slots, x, g, true);
    CountsInsert(a.slots, x, g, false);
    InsertAscends(a.slots, x);
    CountsAreBounded(a.slots, g, true);
  }

  lemma PruneSparesGold<S>(a: Agenda<S>, xs: seq<Item<S>>, x: Item<S>, s: seq<Item<S>>, maxSize: nat, g: real)
    requires maxSize > 0 && Fair(a, xs, maxSize, g) && |a.slots| == maxSize && s == Insert(a.slots, x)
    requires GoldCount(xs + [x]) <= 1 && (x.isGold ==> x.score == g) && s[0].isGold
    ensures Fair(Agenda([s[0]] + s[2..], true), xs + [x], maxSize, g)
  {
    CountsAppend(xs, x, g, true);
    CountsAppend(xs, x, g, false);
    CountsInsert(a.slots, x, g, true);
    CountsInsert(a.slots, x, g, false);
    InsertAscends(a.slots, x);
    assert s[0] in s;
    AllAboveGoldAreRivals(s, g);
    WithoutSecond(s);
    CountsWithoutSecond(s, g, true);
    CountsWithoutSecond(s, g, false);
  }

  lemma PruneDropsLowest<S>(a: Agenda<S>, xs: seq<Item<S>>, x: Item<S>, s: seq<Item<S>>, maxSize: nat, g: real)
    requires maxSize > 0 && Fair(a, xs, maxSize, g) && |a.slots| == maxSize && s == Insert(a.slots, x)
    requires GoldCount(xs + [x]) <= 1 && (x.isGold ==> x.score == g) && !s[0].isGold
    ensures Fair(a.(slots := s[1..]), xs + [x], maxSize, g)
  {
    CountsBoth(a.slots, xs, x, g, true);
    CountsBoth(a.slots, xs, x, g, false);
    InsertAscends(a.slots, x);
    TailAscends(s);
    CountsAreBounded(s[1..], g, true);
    if GoldCount(s) == 1 {
      LowestIsBelowGold(s, g);
    } else if s[0].score > g {
      AllAreRivals(s, g, true);
    }
  }

  /** Considering one more candidate is fair to the gold path. */
  lemma ConsiderIsFair<S>(a: Agenda<S>, xs: seq<Item<S>>, x: Item<S>, maxSize: nat, g: real)
    requires maxSize > 0 && Fair(a, xs, maxSize, g)
    requires GoldCount(xs + [x]) <= 1 && (x.isGold ==> x.score == g)
    ensures Fair(Consider(a, x, maxSize, false), xs + [x], maxSize, g)
  {
    if !(x.isGold || |a.slots| < maxSize || x.score > a.slots[0].score) {
      RejectIsFair(a, xs, x, maxSize, g);
    } else if |a.slots| < maxSize {
      InsertIsFair(a, xs, x, maxSize, g);
    } else if Insert(a.slots, x)[0].isGold {
      PruneSparesGold(a, xs, x, Insert(a.slots, x), maxSize, g);
    } else {
      PruneDropsLowest(a, xs, x, Insert(a.slots, x), maxSize, g);
    }
  }

  lemma {:induction false} SearchIsFair<S>(xs: seq<Item<S>>, maxSize: nat, g: real)
    requires maxSize > 0 && GoldCount(xs) <= 1 && forall x :: x in xs && x.isGold ==> x.score == g
    ensures Fair(ConsiderAll(xs, maxSize, false), xs, maxSize, g)
  {
    if xs != [] {
      var init, x := xs[..|xs| - 1], xs[|xs| - 1];
      assert xs == init + [x];
      CountsAppend(init, x, g, true);
      SearchIsFair(init, maxSize, g);
      ConsiderIsFair(ConsiderAll(init, maxSize, false), init, x, maxSize, g);
    }
  }

  // ----- When the gold path is outscored -----

  /** After the candidates xs, the candidate x leaves no room for gold: it is gold and a full beam does as well,
      or it is better than gold and takes the last place that others have left. */
  predicate PushesOut<S>(xs: seq<Item<S>>, x: Item<S>, maxSize: nat, g: real) {
    if x.isGold then Rivals(xs, g, false) >= maxSize
    else GoldCount(xs) == 1 && x.score > g && Rivals(xs, g, false) >= maxSize - 1
  }

  /** Some candidate leaves no room for gold. */
  predicate Outscored<S>(xs: seq<Item<S>>, maxSize: nat, g: real) {
    exists i :: 0 <= i < |xs| && PushesOut(xs[..i], xs[i], maxSize, g)
  }

  lemma OutscoredOneMore<S>(xs: seq<Item<S>>, x: Item<S>, maxSize: nat, g: real)
    ensures Outscored(xs + [x], maxSize, g) <==> Outscored(xs, maxSize, g) || PushesOut(xs, x, maxSize, g)
  {
    var ys := xs + [x];
    assert forall i :: 0 <= i < |xs| ==> ys[..i] == xs[..i] && ys[i] == xs[i];
    assert ys[..|xs|] == xs && ys[|xs|] == x;
    if Outscored(xs, maxSize, g) {
      var i :| 0 <= i < |xs| && PushesOut(xs[..i], xs[i], maxSize, g);
      assert PushesOut(ys[..i], ys[i], maxSize, g);
    }
  }

  /** Only a gold path that has come up is outscored. */
  lemma {:induction false} OutscoredHasGold<S>(xs: seq<Item<S>>, maxSize: nat, g: real)
    requires Outscored(xs, maxSize, g)
    ensures GoldCount(xs) > 0
  {
    var init, x := xs[..|xs| - 1], xs[|xs| - 1];
    assert xs == init + [x];
    OutscoredOneMore(init, x, maxSize, g);
    CountsAppend(init, x, g, false);
    if Outscored(init, maxSize, g) {
      OutscoredHasGold(init, maxSize, g);
    }
  }

  function Least(a: int, b: int): int {
    if a < b then a else b
  }

  /** The agenda holds as many rivals of the gold path as there are, or as it has room for beside gold. */
  ghost predicate Counted<S>(slots: seq<Item<S>>, xs: seq<Item<S>>, maxSize: nat, g: real, strict: bool) {
    Rivals(slots, g, strict) == Least(maxSize - GoldCount(slots), Rivals(xs, g, strict))
  }

  /** The agenda is in order and has one gold path at most, of score g. */
  ghost predicate Ordered<S>(slots: seq<Item<S>>, g: real) {
    Ascending(slots) && GoldCount(slots) <= 1 && forall x :: x in slots && x.isGold ==> x.score == g
  }

  lemma InsertIsOrdered<S>(slots: seq<Item<S>>, x: Item<S>, g: real)
    requires Ordered(slots, g) && GoldCount(Insert(slots, x)) <= 1 && (x.isGold ==> x.score == g)
    ensures Ordered(Insert(slots, x), g)
  {
    InsertAscends(slots, x);
  }

  lemma TailIsOrdered<S>(s: seq<Item<S>>, g: real)
    requires Ordered(s, g) && s != []
    ensures Ordered(s[1..], g)
  {
    TailAscends(s);
  }

  /** If the lowest item is a rival of the gold path, so are all, and gold is not among them. */
  lemma AboveGoldIsNoGold<S>(s: seq<Item<S>>, g: real, strict: bool)
    requires Ordered(s, g) && s != [] && Rival(s[0], g, strict)
    ensures GoldCount(s) == 0 && Rivals(s, g, strict) == |s|
  {
    if GoldCount(s) > 0 {
      LowestIsBelowGold(s, g);
      assert false;
    }
    AllAreRivals(s, g, strict);
  }

  lemma RejectIsCounted<S>(slots: seq<Item<S>>, xs: seq<Item<S>>, x: Item<S>, maxSize: nat, g: real, strict: bool)
    requires Ordered(slots, g) && |slots| == maxSize > 0 && Counted(slots, xs, maxSize, g, strict)
    requires !x.isGold && x.score <= slots[0].score
    ensures Counted(slots, xs + [x], maxSize, g, strict)
  {
    CountsAppend(xs, x, g, strict);
    if Rival(x, g, strict) {
      assert slots[0] in slots;
      if slots[0].isGold {
        AllAboveGoldAreRivals(slots, g);
      } else {
        AboveGoldIsNoGold(slots, g, strict);
      }
    }
  }

  lemma InsertIsCounted<S>(slots: seq<Item<S>>, xs: seq<Item<S>>, x: Item<S>, maxSize: nat, g: real, strict: bool)
    requires |slots| < maxSize && Counted(slots, xs, maxSize, g, strict)
    ensures Counted(Insert(slots, x), xs + [x], maxSize, g, strict)
  {
    CountsBoth(slots, xs, x, g, strict);
    CountsAreBounded(slots, g, strict);
  }

  /** How one more item changes the counts of an agenda that takes it in. */
  lemma CountsBoth<S>(slots: seq<Item<S>>, xs: seq<Item<S>>, x: Item<S>, g: real, strict: bool)
    ensures GoldCount(xs + [x]) - GoldCount(xs) == GoldCount(Insert(slots, x)) - GoldCount(slots)
            == if x.isGold then 1 else 0
    ensures Rivals(xs + [x], g, strict) - Rivals(xs, g, strict)
            == Rivals(Insert(slots, x), g, strict) - Rivals(slots, g, strict)
            == if Rival(x, g, strict) then 1 else 0
  {
    CountsAppend(xs, x, g, strict);
    CountsInsert(slots, x, g, strict);
  }

  lemma CutGoldIsCounted<S>(slots: seq<Item<S>>, xs: seq<Item<S>>, x: Item<S>, maxSize: nat, g: real, strict: bool)
    requires |slots| == maxSize > 0 && Counted(slots, xs, maxSize, g, strict)
    requires x.isGold || x.score > slots[0].score
    requires var s := Insert(slots, x); Ordered(s, g) && s[0].isGold
    ensures Counted(Insert(slots, x)[1..], xs + [x], maxSize, g, strict)
  {
    CountsBoth(slots, xs, x, g, strict);
    assert Insert(slots, x)[0] in Insert(slots, x);
  }

  lemma CutOtherIsCounted<S>(slots: seq<Item<S>>, xs: seq<Item<S>>, x: Item<S>, maxSize: nat, g: real, strict: bool)
    requires |slots| == maxSize > 0 && Counted(slots, xs, maxSize, g, strict)
    requires var s := Insert(slots, x); Ordered(s, g) && !s[0].isGold
    ensures Counted(Insert(slots, x)[1..], xs + [x], maxSize, g, strict)
  {
    var s := Insert(slots, x);
    CountsBoth(slots, xs, x, g, strict);
    if Rival(s[0], g, strict) {
      AboveGoldIsNoGold(s, g, strict);
    } else {
      CountsAreBounded(s[1..], g, strict);
    }
  }

  /** What holds of the agenda of a beam that does not spare the gold path, for a gold path of score g. */
  ghost predicate Selective<S>(a: Agenda<S>, xs: seq<Item<S>>, maxSize: nat, g: real) {
    && Ordered(a.slots, g) && |a.slots| <= maxSize && !a.dying
    && GoldCount(a.slots) == (if Outscored(xs, maxSize, g) then 0 else GoldCount(xs))
    && Counted(a.slots, xs, maxSize, g, true) && Counted(a.slots, xs, maxSize, g, false)
  }

  /** The candidate makes the agenda overfull with gold at its bottom. */
  predicate Overfills<S>(slots: seq<Item<S>>, x: Item<S>, maxSize: nat)
    requires maxSize > 0
  {
    var s := MaybeInsert(slots, x, maxSize);
    |s| > maxSize && s[0].isGold
  }

  lemma OverfullPushesOut<S>(slots: seq<Item<S>>, xs: seq<Item<S>>, x: Item<S>, maxSize: nat, g: real)
    requires maxSize > 0 && Ordered(slots, g) && |slots| <= maxSize && Counted(slots, xs, maxSize, g, false)
    requires GoldCount(slots) == GoldCount(xs) && GoldCount(xs + [x]) <= 1 && (x.isGold ==> x.score == g)
    requires Overfills(slots, x, maxSize)
    ensures PushesOut(xs, x, maxSize, g)
  {
    var s := Insert(slots, x);
    CountsBoth(slots, xs, x, g, false);
    InsertIsOrdered(slots, x, g);
    assert s[0] in s;
    AllAboveGoldAreRivals(s, g);
  }

  lemma PushedOutOverfills<S>(slots: seq<Item<S>>, xs: seq<Item<S>>, x: Item<S>, maxSize: nat, g: real)
    requires maxSize > 0 && Ordered(slots, g) && |slots| <= maxSize && Counted(slots, xs, maxSize, g, false)
    requires GoldCount(slots) == GoldCount(xs) && GoldCount(xs + [x]) <= 1 && (x.isGold ==> x.score == g)
    requires PushesOut(xs, x, maxSize, g)
    ensures Overfills(slots, x, maxSize)
  {
    var s := Insert(slots, x);
    CountsBoth(slots, xs, x, g, false);
    CountsAreBounded(slots, g, false);
    InsertIsOrdered(slots, x, g);
    if GoldCount(slots) == 1 {
      GoldIsNotBelowLowest(slots, g);
    }
    if !s[0].isGold {
      LowestIsBelowGold(s, g);
      CountsAreBounded(s[1..], g, false);
    }
  }

  lemma GoldIsNotBelowLowest<S>(s: seq<Item<S>>, g: real)
    requires Ordered(s, g) && GoldCount(s) == 1
    ensures s[0].score <= g
  {
    FirstIsLowest(s);
    var i := GoldIsThere(s);
    assert s[i] in s;
  }

  lemma CountedAfter<S>(a: Agenda<S>, xs: seq<Item<S>>, x: Item<S>, maxSize: nat, g: real, strict: bool)
    requires maxSize > 0 && Ordered(a.slots, g) && |a.slots| <= maxSize && Counted(a.slots, xs, maxSize, g, strict)
    requires GoldCount(a.slots) + (if x.isGold then 1 else 0) <= 1 && (x.isGold ==> x.score == g)
    ensures Counted(Consider(a, x, maxSize, true).slots, xs + [x], maxSize, g, strict)
  {
    CountsInsert(a.slots, x, g, strict);
    if !(x.isGold || |a.slots| < maxSize || x.score > a.slots[0].score) {
      RejectIsCounted(a.slots, xs, x, maxSize, g, strict);
    } else if |a.slots| < maxSize {
      InsertIsCounted(a.slots, xs, x, maxSize, g, strict);
    } else {
      InsertIsOrdered(a.slots, x, g);
      if Insert(a.slots, x)[0].isGold {
        CutGoldIsCounted(a.slots, xs, x, maxSize, g, strict);
      } else {
        CutOtherIsCounted(a.slots, xs, x, maxSize, g, strict);
      }
    }
  }

  /** Gold leaves an agenda that does not spare it exactly if it makes it overfull from the bottom. */
  lemma GoldAfter<S>(a: Agenda<S>, x: Item<S>, maxSize: nat, g: real)
    requires maxSize > 0 && Ordered(a.slots, g) && |a.slots| <= maxSize
    requires GoldCount(a.slots) + (if x.isGold then 1 else 0) <= 1 && (x.isGold ==> x.score == g)
    ensures var b := Consider(a, x, maxSize, true);
            && Ordered(b.slots, g) && |b.slots| <= maxSize
            && GoldCount(b.slots) ==
               if Overfills(a.slots, x, maxSize) then 0 else GoldCount(a.slots) + if x.isGold then 1 else 0
  {
    CountsInsert(a.slots, x, g, false);
    InsertIsOrdered(a.slots, x, g);
    TailIsOrdered(Insert(a.slots, x), g);
  }

  lemma ConsiderIsSelective<S>(a: Agenda<S>, xs: seq<Item<S>>, x: Item<S>, maxSize: nat, g: real)
    requires maxSize > 0 && Selective(a, xs, maxSize, g)
    requires GoldCount(xs + [x]) <= 1 && (x.isGold ==> x.score == g)
    ensures Selective(Consider(a, x, maxSize, true), xs + [x], maxSize, g)
    ensures !Outscored(xs, maxSize, g) ==> (Overfills(a.slots, x, maxSize) <==> Outscored(xs + [x], maxSize, g))
  {
    CountsAppend(xs, x, g, false);
    OutscoredOneMore(xs, x, maxSize, g);
    CountedAfter(a, xs, x, maxSize, g, true);
    CountedAfter(a, xs, x, maxSize, g, false);
    GoldAfter(a, x, maxSize, g);
    if Outscored(xs, maxSize, g) {
      OutscoredHasGold(xs, maxSize, g);
    } else if Overfills(a.slots, x, maxSize) {
      OverfullPushesOut(a.slots, xs, x, maxSize, g);
    } else if PushesOut(xs, x, maxSize, g) {
      PushedOutOverfills(a.slots, xs, x, maxSize, g);
    }
  }

  /** A beam that does not spare the gold path loses it exactly if it is outscored. */
  lemma {:induction false} SearchIsSelective<S>(xs: seq<Item<S>>, maxSize: nat, g: real)
    requires maxSize > 0 && GoldCount(xs) <= 1 && forall x :: x in xs && x.isGold ==> x.score == g
    ensures Selective(ConsiderAll(xs, maxSize, true), xs, maxSize, g)
  {
    if xs != [] {
      var init, x := xs[..|xs| - 1], xs[|xs| - 1];
      assert xs == init + [x];
      CountsAppend(init, x, g, true);
      SearchIsSelective(init, maxSize, g);
      ConsiderIsSelective(ConsiderAll(init, maxSize, true), init, x, maxSize, g);
    }
  }

  lemma SparingGold<S>(a: Agenda<S>, x: Item<S>, maxSize: nat)
    requires maxSize > 0
    ensures Consider(a, x, maxSize, false).dying <==> a.dying || Overfills(a.slots, x, maxSize)
    ensures !Overfills(a.slots, x, maxSize) ==> Consider(a, x, maxSize, false) == Consider(a, x, maxSize, true)
  {
  }

  lemma DyingOneMore<S>(xs: seq<Item<S>>, x: Item<S>, maxSize: nat, g: real)
    requires maxSize > 0 && GoldCount(xs + [x]) <= 1 && (x.isGold ==> x.score == g)
    requires var a, b := ConsiderAll(xs, maxSize, true), ConsiderAll(xs, maxSize, false);
             Selective(a, xs, maxSize, g) && if Outscored(xs, maxSize, g) then b.dying else a == b
    ensures var c, d := ConsiderAll(xs + [x], maxSize, true), ConsiderAll(xs + [x], maxSize, false);
            if Outscored(xs + [x], maxSize, g) then d.dying else c == d && !d.dying
  {
    var a, b := ConsiderAll(xs, maxSize, true), ConsiderAll(xs, maxSize, false);
    ConsiderOneMore(xs, x, maxSize, true);
    ConsiderOneMore(xs, x, maxSize, false);
    OutscoredOneMore(xs, x, maxSize, g);
    SparingGold(b, x, maxSize);
    ConsiderIsSelective(a, xs, x, maxSize, g);
  }

  /** A beam that spares the gold path is dying exactly if gold is outscored, and until then does the same. */
  lemma {:induction false} DyingIffOutscored<S>(xs: seq<Item<S>>, maxSize: nat, g: real)
    requires maxSize > 0 && GoldCount(xs) <= 1 && forall x :: x in xs && x.isGold ==> x.score == g
    ensures ConsiderAll(xs, maxSize, false).dying <==> Outscored(xs, maxSize, g)
    ensures !Outscored(xs, maxSize, g) ==> ConsiderAll(xs, maxSize, true) == ConsiderAll(xs, maxSize, false)
  {
    if xs != [] {
      var init, x := xs[..|xs| - 1], xs[|xs| - 1];
      assert xs == init + [x];
      CountsAppend(init, x, g, true);
      DyingIffOutscored(init, maxSize, g);
      SearchIsSelective(init, maxSize, g);
      DyingOneMore(init, x, maxSize, g);
    }
  }

  /** Only a beam that does not spare the gold path loses it, and only if it is outscored. */
  lemma SearchKeepsGold<S>(xs: seq<Item<S>>, maxSize: nat, untilAllFinal: bool, g: real)
    requires maxSize > 0 && GoldCount(xs) <= 1 && forall x :: x in xs && x.isGold ==> x.score == g
    ensures GoldCount(ConsiderAll(xs, maxSize, untilAllFinal).slots) ==
            if untilAllFinal && GoldCount(xs) == 1 && Outscored(xs, maxSize, g) then 0 else GoldCount(xs)
  {
    if untilAllFinal {
      SearchIsSelective(xs, maxSize, g);
    } else {
      SearchIsFair(xs, maxSize, g);
    }
  }

  /** Only a beam that spares the gold path is dying, and only if it is outscored. */
  lemma SearchDies<S>(xs: seq<Item<S>>, maxSize: nat, untilAllFinal: bool, g: real)
    requires maxSize > 0 && GoldCount(xs) <= 1 && forall x :: x in xs && x.isGold ==> x.score == g
    ensures ConsiderAll(xs, maxSize, untilAllFinal).dying <==> !untilAllFinal && Outscored(xs, maxSize, g)
  {
    if untilAllFinal {
      SearchIsSelective(xs, maxSize, g);
    } else {
      DyingIffOutscored(xs, maxSize, g);
    }
  }

  /** Gold is outscored if a full beam of candidates is better, and only if a full beam does at least as well;
      between the two, the order in which the candidates come decides. */
  lemma OutscoredBounds<S>(xs: seq<Item<S>>, maxSize: nat, g: real)
    requires maxSize > 0 && GoldCount(xs) == 1 && forall x :: x in xs && x.isGold ==> x.score == g
    ensures Rivals(xs, g, true) >= maxSize ==> Outscored(xs, maxSize, g)
    ensures Outscored(xs, maxSize, g) ==> Rivals(xs, g, false) >= maxSize
  {
    SearchIsFair(xs, maxSize, g);
    DyingIffOutscored(xs, maxSize, g);
    CountsAreBounded(ConsiderAll(xs, maxSize, false).slots, g, true);
  }

  // ----- The candidates of one step -----

  /** The path extended by one action. It stays gold if it took the gold action. */
  function Extend<S>(sys: System<S>, x: Item<S>, slot: nat, action: nat, delta: real, goldAction: int): Item<S> {
    Item(x.score + delta, sys.perform(x.state, action), x.isGold && action == goldAction,
         x.slotHistory + [slot], x.actionHistory + [action], x.scoreHistory + [delta])
  }

  function RowCandidates<S>(sys: System<S>, x: Item<S>, slot: nat, row: seq<real>, goldAction: int,
                            a: nat): seq<Item<S>>
    requires a <= |row|
  {
    if a == 0 then []
    else
      var shorter := RowCandidates(sys, x, slot, row, goldAction, a - 1);
      if sys.isAllowed(x.state, a - 1) then shorter + [Extend(sys, x, slot, a - 1, row[a - 1], goldAction)] else shorter
  }

  /** A final path is kept as it is, any other is extended by every allowed action. */
  function SlotCandidates<S>(sys: System<S>, slots: seq<Item<S>>, scores: seq<seq<real>>, numActions: nat,
                             goldAction: int, s: nat): seq<Item<S>>
    requires s < |slots| && Covers(sys, slots, scores, numActions)
  {
    if sys.isFinal(slots[s].state) then [slots[s]]
    else RowCandidates(sys, slots[s], s, scores[s], goldAction, numActions)
  }

  predicate Covers<S>(sys: System<S>, slots: seq<Item<S>>, scores: seq<seq<real>>, numActions: nat) {
    forall s :: 0 <= s < |slots| && !sys.isFinal(slots[s].state) ==> s < |scores| && |scores[s]| == numActions
  }

  /** All candidates of the first n slots. */
  function Candidates<S>(sys: System<S>, slots: seq<Item<S>>, scores: seq<seq<real>>, numActions: nat,
                         goldAction: int, n: nat): seq<Item<S>>
    requires n <= |slots| && Covers(sys, slots, scores, numActions)
  {
    if n == 0 then []
    else
      Candidates(sys, slots, scores, numActions, goldAction, n - 1) +
      SlotCandidates(sys, slots, scores, numActions, goldAction, n - 1)
  }

  lemma {:induction false} GoldCountConcat<S>(xs: seq<Item<S>>, ys: seq<Item<S>>)
    ensures GoldCount(xs + ys) == GoldCount(xs) + GoldCount(ys)
  {
    if xs == [] {
      assert xs + ys == ys;
    } else {
      GoldCountConcat(xs[1..], ys);
      assert (xs + ys)[1..] == xs[1..] + ys;
    }
  }

  lemma {:induction false} RowGoldCount<S>(sys: System<S>, x: Item<S>, slot: nat, row: seq<real>, goldAction: int,
                                           a: nat)
    requires a <= |row|
    ensures GoldCount(RowCandidates(sys, x, slot, row, goldAction, a)) ==
            if x.isGold && 0 <= goldAction < a && sys.isAllowed(x.state, goldAction) then 1 else 0
    ensures forall y :: y in RowCandidates(sys, x, slot, row, goldAction, a) && y.isGold ==>
              y.state == sys.perform(x.state, goldAction)
  {
    if a > 0 {
      RowGoldCount(sys, x, slot, row, goldAction, a - 1);
      if sys.isAllowed(x.state, a - 1) {
        CountsAppend(RowCandidates(sys, x, slot, row, goldAction, a - 1),
                     Extend(sys, x, slot, a - 1, row[a - 1], goldAction), 0.0, true);
      }
    }
  }

  /** The gold state can take its gold action, or needs none. */
  predicate GoldCanGoOn<S>(sys: System<S>, gold: S, numActions: nat) {
    sys.isFinal(gold) || (0 <= sys.goldAction(gold) < numActions && sys.isAllowed(gold, sys.goldAction(gold)))
  }

  function NextGoldAction<S>(sys: System<S>, gold: S): int {
    if sys.isFinal(gold) then -1 else sys.goldAction(gold)
  }

  function NextGold<S>(sys: System<S>, gold: S): S {
    if !sys.isFinal(gold) && sys.isAllowed(gold, sys.goldAction(gold)) then sys.perform(gold, sys.goldAction(gold))
    else gold
  }

  lemma SlotGoldCount<S>(sys: System<S>, slots: seq<Item<S>>, scores: seq<seq<real>>, numActions: nat, gold: S, s: nat)
    requires s < |slots| && Covers(sys, slots, scores, numActions) && (slots[s].isGold ==> slots[s].state == gold)
    ensures var xs := SlotCandidates(sys, slots, scores, numActions, NextGoldAction(sys, gold), s);
            && GoldCount(xs) == (if slots[s].isGold && GoldCanGoOn(sys, gold, numActions) then 1 else 0)
            && forall y :: y in xs && y.isGold ==> y.state == NextGold(sys, gold)
  {
    if !sys.isFinal(slots[s].state) {
      RowGoldCount(sys, slots[s], s, scores[s], NextGoldAction(sys, gold), numActions);
      var xs := SlotCandidates(sys, slots, scores, numActions, NextGoldAction(sys, gold), s);
      if GoldCount(xs) == 0 {
        NoGoldIsThere(xs);
      }
    }
  }

  lemma GoldCountUpTo<S>(slots: seq<Item<S>>, n: nat)
    requires n < |slots|
    ensures GoldCount(slots[..n + 1]) == GoldCount(slots[..n]) + if slots[n].isGold then 1 else 0
  {
    assert slots[..n + 1] == slots[..n] + [slots[n]];
    CountsAppend(slots[..n], slots[n], 0.0, true);
  }

  /** There are that many gold items, and their state is the given one. */
  ghost predicate GoldIn<S>(xs: seq<Item<S>>, count: nat, state: S) {
    GoldCount(xs) == count && forall y :: y in xs && y.isGold ==> y.state == state
  }

  lemma GoldInConcat<S>(xs: seq<Item<S>>, ys: seq<Item<S>>, a: nat, b: nat, state: S)
    requires GoldIn(xs, a, state) && GoldIn(ys, b, state)
    ensures GoldIn(xs + ys, a + b, state)
  {
    GoldCountConcat(xs, ys);
  }

  lemma {:induction false} CandidatesGoldCount<S>(sys: System<S>, slots: seq<Item<S>>, scores: seq<seq<real>>,
                                                 numActions: nat, gold: S, n: nat)
    requires n <= |slots| && Covers(sys, slots, scores, numActions)
    requires forall s :: 0 <= s < |slots| && slots[s].isGold ==> slots[s].state == gold
    ensures GoldIn(Candidates(sys, slots, scores, numActions, NextGoldAction(sys, gold), n),
                   if GoldCanGoOn(sys, gold, numActions) then GoldCount(slots[..n]) else 0, NextGold(sys, gold))
  {
    if n > 0 {
      var goes := GoldCanGoOn(sys, gold, numActions);
      CandidatesGoldCount(sys, slots, scores, numActions, gold, n - 1);
      GoldCountUpTo(slots, n - 1);
      SlotGoldCount(sys, slots, scores, numActions, gold, n - 1);
      GoldInConcat(Candidates(sys, slots, scores, numActions, NextGoldAction(sys, gold), n - 1),
                   SlotCandidates(sys, slots, scores, numActions, NextGoldAction(sys, gold), n - 1),
                   if goes then GoldCount(slots[..n - 1]) else 0,
                   if goes && slots[n - 1].isGold then 1 else 0, NextGold(sys, gold));
    }
  }

  lemma {:induction false} GoldIsUnique<S>(xs: seq<Item<S>>, x: Item<S>, y: Item<S>)
    requires GoldCount(xs) <= 1 && x in xs && y in xs && x.isGold && y.isGold
    ensures x == y
  {
    if xs[0].isGold {
      NoGoldIsThere(xs[1..]);
    } else {
      GoldIsUnique(xs[1..], x, y);
    }
  }

  // ----- One step of the beam -----

  datatype BeamView<S> = BeamView(slots: seq<Item<S>>, gold: Option<S>, status: Status, allFinal: bool)

  datatype Options = Options(maxBeamSize: nat, continueUntilAllFinal: bool)

  predicate AllFinal<S>(sys: System<S>, slots: seq<Item<S>>) {
    forall i :: 0 <= i < |slots| ==> sys.isFinal(slots[i].state)
  }

  function AdvanceView<S>(sys: System<S>, o: Options, v: BeamView<S>, scores: seq<seq<real>>,
                          numActions: nat): BeamView<S>
    requires o.maxBeamSize > 0 && (v.status == Alive ==> Covers(sys, v.slots, scores, numActions))
  {
    if v.status == Dying then v.(status := Dead)
    else if v.status == Dead || v.gold == None then v
    else
      var xs := StepCandidates(sys, v, scores, numActions);
      var a := ConsiderAll(xs, o.maxBeamSize, o.continueUntilAllFinal);
      BeamView(a.slots, Some(NextGold(sys, v.gold.value)),
               if AllFinal(sys, a.slots) then Dead else if a.dying then Dying else Alive, AllFinal(sys, a.slots))
  }

  function StepCandidates<S>(sys: System<S>, v: BeamView<S>, scores: seq<seq<real>>, numActions: nat): seq<Item<S>>
    requires v.gold != None && Covers(sys, v.slots, scores, numActions)
  {
    Candidates(sys, v.slots, scores, numActions, NextGoldAction(sys, v.gold.value), |v.slots|)
  }

  /** Exactly one slot holds the gold path, and its state is the gold state. */
  ghost predicate TracksGold<S>(v: BeamView<S>) {
    v.gold != None && GoldCount(v.slots) == 1 && forall x :: x in v.slots && x.isGold ==> x.state == v.gold.value
  }

  /** At most one slot holds the gold path, and its state is the gold state. */
  ghost predicate FollowsGold<S>(v: BeamView<S>) {
    v.gold != None && GoldCount(v.slots) <= 1 && forall x :: x in v.slots && x.isGold ==> x.state == v.gold.value
  }

  /** A live beam that continues until all paths are final has its gold path outscored in this step. */
  ghost predicate LosesGold<S>(sys: System<S>, o: Options, v: BeamView<S>, scores: seq<seq<real>>, numActions: nat) {
    && o.continueUntilAllFinal && v.status == Alive && v.gold != None && Covers(sys, v.slots, scores, numActions)
    && var xs := StepCandidates(sys, v, scores, numActions);
    GoldCount(xs) == 1 && Outscored(xs, o.maxBeamSize, GoldScore(xs))
  }

  /** A step of a live beam keeps the one gold slot exactly when the gold action can be taken and, if the beam
      continues until all paths are final, gold is not outscored. */
  lemma AdvanceTracksGold<S>(sys: System<S>, o: Options, v: BeamView<S>, scores: seq<seq<real>>, numActions: nat)
    requires o.maxBeamSize > 0
    requires v.status == Alive && FollowsGold(v) && Covers(sys, v.slots, scores, numActions)
    ensures var w := AdvanceView(sys, o, v, scores, numActions);
            && |w.slots| <= o.maxBeamSize && FollowsGold(w)
            && (TracksGold(w) <==> TracksGold(v) && GoldCanGoOn(sys, v.gold.value, numActions) &&
                                   !LosesGold(sys, o, v, scores, numActions))
  {
    var xs := StepCandidates(sys, v, scores, numActions);
    StepGoldCount(sys, v, scores, numActions);
    AgendaHoldsCandidates(xs, o.maxBeamSize, o.continueUntilAllFinal);
    SearchKeepsGold(xs, o.maxBeamSize, o.continueUntilAllFinal, GoldScore(xs));
  }

  lemma StepGoldCount<S>(sys: System<S>, v: BeamView<S>, scores: seq<seq<real>>, numActions: nat)
    requires FollowsGold(v) && Covers(sys, v.slots, scores, numActions)
    ensures var xs := StepCandidates(sys, v, scores, numActions);
            && GoldCount(xs) == (if GoldCanGoOn(sys, v.gold.value, numActions) then GoldCount(v.slots) else 0)
            && forall y :: y in xs && y.isGold ==> y.state == NextGold(sys, v.gold.value)
  {
    assert v.slots[..|v.slots|] == v.slots;
    forall s | 0 <= s < |v.slots| && v.slots[s].isGold ensures v.slots[s].state == v.gold.value {
      assert v.slots[s] in v.slots;
    }
    CandidatesGoldCount(sys, v.slots, scores, numActions, v.gold.value, |v.slots|);
  }

  ghost function GoldScore<S>(xs: seq<Item<S>>): (g: real)
    requires GoldCount(xs) <= 1
    ensures forall x :: x in xs && x.isGold ==> x.score == g
  {
    if GoldCount(xs) == 0 then
      NoGoldIsThere(xs);
      0.0
    else
      assert exists x :: x in xs && x.isGold by {
        var i := GoldIsThere(xs);
        assert xs[i] in xs;
      }
      var x :| x in xs && x.isGold;
      assert forall y :: y in xs && y.isGold ==> y == x by {
        forall y | y in xs && y.isGold ensures y == x {
          GoldIsUnique(xs, x, y);
        }
      }
      x.score
  }

  /** A beam that spares the gold path is dying exactly if gold is outscored and some path is not final; a beam
      that continues until all paths are final never is. */
  lemma DyingMeansOutscored<S>(sys: System<S>, o: Options, v: BeamView<S>, scores: seq<seq<real>>, numActions: nat)
    requires o.maxBeamSize > 0
    requires v.status == Alive && FollowsGold(v) && Covers(sys, v.slots, scores, numActions)
    ensures var xs := StepCandidates(sys, v, scores, numActions);
            var w := AdvanceView(sys, o, v, scores, numActions);
            && GoldCount(xs) <= 1 && (w.status == Dead <==> AllFinal(sys, w.slots))
            && (w.status == Dying <==> !o.continueUntilAllFinal && Outscored(xs, o.maxBeamSize, GoldScore(xs)) &&
                                       !AllFinal(sys, w.slots))
  {
    var xs := StepCandidates(sys, v, scores, numActions);
    StepGoldCount(sys, v, scores, numActions);
    SearchDies(xs, o.maxBeamSize, o.continueUntilAllFinal, GoldScore(xs));
  }
}
