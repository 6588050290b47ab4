/** The component beam: bounded selection of the best transitions, with back-pointers. */
module DragnnBeam {
  import opened TransitionSystems

  // ----- Selecting candidates -----

  /** Taking an action in the state of one slot, and the score that results. */
  datatype Candidate = Candidate(score: real, source: nat, action: nat)

  predicate Descending(kept: seq<Candidate>) {
    forall i, j :: 0 <= i < j < |kept| ==> kept[i].score >= kept[j].score
  }

  predicate Distinct(cs: seq<Candidate>) {
    forall i, j :: 0 <= i < j < |cs| ==> cs[i] != cs[j]
  }

  /** Inserts below every candidate of at least the same score. */
  function Insert(kept: seq<Candidate>, c: Candidate): (r: seq<Candidate>)
    ensures |r| == |kept| + 1
    ensures forall x :: x in r <==> x == c || x in kept
  {
    if kept == [] || kept[0].score < c.score then [c] + kept
    else
      assert kept == [kept[0]] + kept[1..];
      [kept[0]] + Insert(kept[1..], c)
  }

  lemma {:induction false} InsertKeepsOrder(kept: seq<Candidate>, c: Candidate)
    requires Descending(kept)
    ensures Descending(Insert(kept, c))
  {
    if kept != [] && kept[0].score >= c.score {
      InsertKeepsOrder(kept[1..], c);
      var r := Insert(kept[1..], c);
      forall i | 0 <= i < |r| ensures r[i].score <= kept[0].score {
        assert r[i] in r;
      }
    }
  }

  lemma {:induction false} InsertKeepsDistinct(kept: seq<Candidate>, c: Candidate)
    requires Distinct(kept) && c !in kept
    ensures Distinct(Insert(kept, c))
  {
    if kept != [] && kept[0].score >= c.score {
      InsertKeepsDistinct(kept[1..], c);
      var r := Insert(kept[1..], c);
      forall i | 0 <= i < |r| ensures r[i] != kept[0] {
        assert r[i] in r;
      }
    }
  }

  /** Offers a candidate to a beam of width k: a full beam gives up its last place to a
      candidate that does not score below it. */
  function Offer(kept: seq<Candidate>, c: Candidate, k: nat): seq<Candidate>
    requires k > 0
  {
    if |kept| != k then Insert(kept, c)
    else if c.score < kept[k - 1].score then kept
    else Insert(kept[..k - 1], c)
  }

  function OfferAll(cs: seq<Candidate>, k: nat): seq<Candidate>
    requires k > 0
  {
    if cs == [] then [] else Offer(OfferAll(cs[..|cs| - 1], k), cs[|cs| - 1], k)
  }

  lemma OfferOneMore(cs: seq<Candidate>, c: Candidate, k: nat)
    requires k > 0
    ensures OfferAll(cs + [c], k) == Offer(OfferAll(cs, k), c, k)
  {
    assert (cs + [c])[..|cs|] == cs;
  }

  /** kept lists k best candidates of cs, or all if there are fewer, best first. */
  predicate BestOf(kept: seq<Candidate>, cs: seq<Candidate>, k: nat) {
    && |kept| == (if |cs| < k then |cs| else k)
    && Descending(kept) && Distinct(kept)
    && (forall c :: c in kept ==> c in cs)
    && (forall c, d :: c in cs && c !in kept && d in kept ==> c.score <= d.score)
    && (|cs| <= k ==> forall c :: c in cs ==> c in kept)
  }

  lemma OfferWithRoom(kept: seq<Candidate>, cs: seq<Candidate>, c: Candidate, k: nat)
    requires |kept| < k && BestOf(kept, cs, k) && c !in cs
    ensures BestOf(Insert(kept, c), cs + [c], k)
  {
    InsertKeepsOrder(kept, c);
    InsertKeepsDistinct(kept, c);
  }

  lemma OfferWhenFull(rest: seq<Candidate>, last: Candidate, cs: seq<Candidate>, c: Candidate, k: nat)
    requires k == |rest| + 1 && BestOf(rest + [last], cs, k) && c !in cs && last.score <= c.score
    ensures BestOf(Insert(rest, c), cs + [c], k)
  {
    var kept, r := rest + [last], Insert(rest, c);
    assert kept[k - 1] == last && last in kept;
    assert forall i :: 0 <= i < |rest| ==> rest[i] == kept[i];
    InsertKeepsOrder(rest, c);
    InsertKeepsDistinct(rest, c);
    forall d | d in r ensures last.score <= d.score && d in cs + [c] {
      if d != c {
        var i :| 0 <= i < |rest| && rest[i] == d;
        assert kept[i] in kept;
      }
    }
    forall x, d | x in cs + [c] && x !in r && d in r ensures x.score <= d.score {
      assert x in cs && x !in rest;
      assert x in kept ==> x == last;
    }
  }

  lemma OfferKeepsBest(kept: seq<Candidate>, cs: seq<Candidate>, c: Candidate, k: nat)
    requires k > 0 && BestOf(kept, cs, k) && c !in cs
    ensures BestOf(Offer(kept, c, k), cs + [c], k)
  {
    if |kept| != k {
      OfferWithRoom(kept, cs, c, k);
    } else {
      var rest, last := kept[..k - 1], kept[k - 1];
      assert kept == rest + [last] && last in kept;
      if c.score < last.score {
        assert forall d :: d in kept ==> d.score >= last.score;
      } else {
        OfferWhenFull(rest, last, cs, c, k);
      }
    }
  }

  lemma DistinctButLast(cs: seq<Candidate>, c: Candidate)
    requires Distinct(cs + [c])
    ensures Distinct(cs) && c !in cs
  {
    forall i, j | 0 <= i < j < |cs| ensures cs[i] != cs[j] {
      assert (cs + [c])[i] != (cs + [c])[j];
    }
    forall i | 0 <= i < |cs| ensures cs[i] != c {
      assert (cs + [c])[i] != (cs + [c])[|cs|];
    }
  }

  /** Offering candidates one at a time keeps the best ones. */
  lemma {:induction false} OfferAllKeepsBest(cs: seq<Candidate>, k: nat)
    requires k > 0 && Distinct(cs)
    ensures BestOf(OfferAll(cs, k), cs, k)
    decreases |cs|
  {
    if cs != [] {
      var init, c := cs[..|cs| - 1], cs[|cs| - 1];
      assert cs == init + [c];
      DistinctButLast(init, c);
      OfferAllKeepsBest(init, k);
      OfferOneMore(init, c, k);
      OfferKeepsBest(OfferAll(init, k), init, c, k);
    }
  }

  // ----- Ties -----

  /** The slot x comes from is before that of y, or its action is. */
  predicate Earlier(x: Candidate, y: Candidate) {
    x.source < y.source || (x.source == y.source && x.action < y.action)
  }

  predicate EarlierFirst(cs: seq<Candidate>) {
    forall i, j :: 0 <= i < j < |cs| ==> Earlier(cs[i], cs[j])
  }

  /** Best first, and earlier first among those of the same score. */
  predicate Ranked(kept: seq<Candidate>) {
    forall i, j :: 0 <= i < j < |kept| ==>
      kept[i].score > kept[j].score || (kept[i].score == kept[j].score && Earlier(kept[i], kept[j]))
  }

  lemma {:induction false} InsertKeepsRanked(kept: seq<Candidate>, c: Candidate)
    requires Ranked(kept) && forall x :: x in kept ==> Earlier(x, c)
    ensures Ranked(Insert(kept, c))
  {
    if kept != [] && kept[0].score >= c.score {
      InsertKeepsRanked(kept[1..], c);
      var r := Insert(kept[1..], c);
      forall i | 0 <= i < |r|
        ensures kept[0].score > r[i].score || (kept[0].score == r[i].score && Earlier(kept[0], r[i]))
      {
        assert r[i] in r && kept[0] in kept;
      }
    }
  }

  lemma OfferKeepsRanked(kept: seq<Candidate>, c: Candidate, k: nat)
    requires k > 0 && Ranked(kept) && forall x :: x in kept ==> Earlier(x, c)
    ensures Ranked(Offer(kept, c, k))
  {
    var room := if |kept| == k then kept[..k - 1] else kept;
    assert forall x :: x in room ==> x in kept;
    InsertKeepsRanked(room, c);
  }

  /** Candidates offered in their order are kept in that order among those of the same score. */
  lemma {:induction false} OfferAllKeepsRanked(cs: seq<Candidate>, k: nat)
    requires k > 0 && EarlierFirst(cs)
    ensures Ranked(OfferAll(cs, k))
  {
    if cs != [] {
      var init, c := cs[..|cs| - 1], cs[|cs| - 1];
      OfferAllKeepsRanked(init, k);
      forall x | x in OfferAll(init, k) ensures Earlier(x, c) {
        KeptWasOffered(init, k, x);
        var i :| 0 <= i < |init| && init[i] == x;
        assert Earlier(cs[i], cs[|cs| - 1]);
      }
      OfferKeepsRanked(OfferAll(init, k), c, k);
    }
  }

  lemma {:induction false} KeptWasOffered(cs: seq<Candidate>, k: nat, x: Candidate)
    requires k > 0 && x in OfferAll(cs, k)
    ensures x in cs
  {
    var init, c := cs[..|cs| - 1], cs[|cs| - 1];
    var kept := OfferAll(init, k);
    if x != c {
      assert x in kept by {
        if |kept| == k && c.score >= kept[k - 1].score {
          assert x in kept[..k - 1];
        }
      }
      KeptWasOffered(init, k, x);
    }
  }

  // ----- Candidates of a beam -----

  datatype Slot<S> = Slot(state: S, score: real, parentBeamIndex: int, beamIndex: int, gold: bool)

  type Matrix = seq<real>

  function Cell(beamIdx: nat, action: nat, numActions: nat): nat {
    action + beamIdx * numActions
  }

  lemma CellInMatrix(beamIdx: nat, action: nat, numActions: nat, rows: nat)
    requires beamIdx < rows && action < numActions
    ensures Cell(beamIdx, action, numActions) < rows * numActions
  {
    var gap := rows - beamIdx - 1;
    assert rows * numActions == beamIdx * numActions + numActions + gap * numActions;
  }

  function Resulting<S>(beam: seq<Slot<S>>, m: Matrix, numActions: nat, b: nat, a: nat): Candidate
    requires b < |beam| && a < numActions && |m| >= |beam| * numActions
  {
    CellInMatrix(b, a, numActions, |beam|);
    Candidate(beam[b].score + m[Cell(b, a, numActions)], b, a)
  }

  /** The allowed candidates of the first b slots and of the first a actions of the next one,
      in the order in which they are examined. */
  function Examined<S>(sys: System<S>, beam: seq<Slot<S>>, m: Matrix, numActions: nat, b: nat, a: nat): seq<Candidate>
    requires |m| >= |beam| * numActions
    requires b <= |beam| && a <= numActions && (b == |beam| ==> a == 0)
    decreases b, a
  {
    if a > 0 then
      Examined(sys, beam, m, numActions, b, a - 1) +
      (if sys.isAllowed(beam[b].state, a - 1) then [Resulting(beam, m, numActions, b, a - 1)] else [])
    else if b > 0 then ExaminedRow(sys, beam, m, numActions, b - 1)
    else []
  }

  function ExaminedRow<S>(sys: System<S>, beam: seq<Slot<S>>, m: Matrix, numActions: nat, b: nat): seq<Candidate>
    requires |m| >= |beam| * numActions && b < |beam|
    decreases b, numActions + 1
  {
    Examined(sys, beam, m, numActions, b, numActions)
  }

  lemma ExaminedSlot<S>(sys: System<S>, beam: seq<Slot<S>>, m: Matrix, numActions: nat, b: nat)
    requires |m| >= |beam| * numActions && b < |beam|
    ensures Examined(sys, beam, m, numActions, b + 1, 0) == Examined(sys, beam, m, numActions, b, numActions)
  {
  }

  lemma OfferNext<S>(sys: System<S>, beam: seq<Slot<S>>, m: Matrix, numActions: nat, b: nat, a: nat, k: nat)
    requires |m| >= |beam| * numActions && b < |beam| && a < numActions && k > 0
    ensures var kept := OfferAll(Examined(sys, beam, m, numActions, b, a), k);
            OfferAll(Examined(sys, beam, m, numActions, b, a + 1), k) ==
            if sys.isAllowed(beam[b].state, a) then Offer(kept, Resulting(beam, m, numActions, b, a), k) else kept
  {
    var seen, c := Examined(sys, beam, m, numActions, b, a), Resulting(beam, m, numActions, b, a);
    assert Examined(sys, beam, m, numActions, b, a + 1) == if sys.isAllowed(beam[b].state, a) then seen + [c] else seen;
    OfferOneMore(seen, c, k);
  }

  /** What is kept after examining that much. */
  function KeptUpTo<S>(sys: System<S>, beam: seq<Slot<S>>, m: Matrix, numActions: nat, b: nat, a: nat,
                       k: nat): seq<Candidate>
    requires |m| >= |beam| * numActions && k > 0
    requires b <= |beam| && a <= numActions && (b == |beam| ==> a == 0)
    decreases b, a
  {
    if a > 0 then
      var kept := KeptUpTo(sys, beam, m, numActions, b, a - 1, k);
      if sys.isAllowed(beam[b].state, a - 1) then Offer(kept, Resulting(beam, m, numActions, b, a - 1), k) else kept
    else if b > 0 then KeptUpTo(sys, beam, m, numActions, b - 1, numActions, k)
    else []
  }

  lemma {:induction false} KeptIsOffered<S>(sys: System<S>, beam: seq<Slot<S>>, m: Matrix, numActions: nat, b: nat,
                                            a: nat, k: nat)
    requires |m| >= |beam| * numActions && k > 0
    requires b <= |beam| && a <= numActions && (b == |beam| ==> a == 0)
    ensures KeptUpTo(sys, beam, m, numActions, b, a, k) == OfferAll(Examined(sys, beam, m, numActions, b, a), k)
    decreases b, a
  {
    if a > 0 {
      KeptIsOffered(sys, beam, m, numActions, b, a - 1, k);
      OfferNext(sys, beam, m, numActions, b, a - 1, k);
    } else if b > 0 {
      KeptIsOffered(sys, beam, m, numActions, b - 1, numActions, k);
      ExaminedSlot(sys, beam, m, numActions, b - 1);
    }
  }

  predicate IsCandidate<S>(sys: System<S>, beam: seq<Slot<S>>, m: Matrix, numActions: nat, c: Candidate)
    requires |m| >= |beam| * numActions
  {
    && c.source < |beam| && c.action < numActions && sys.isAllowed(beam[c.source].state, c.action)
    && c == Resulting(beam, m, numActions, c.source, c.action)
  }

  /** Every allowed candidate is examined, and only once. */
  lemma {:induction false} ExaminedOnce<S>(sys: System<S>, beam: seq<Slot<S>>, m: Matrix, numActions: nat, b: nat,
                                           a: nat)
    requires |m| >= |beam| * numActions
    requires b <= |beam| && a <= numActions && (b == |beam| ==> a == 0)
    ensures var cs := Examined(sys, beam, m, numActions, b, a);
            && Distinct(cs)
            && forall c :: c in cs <==> IsCandidate(sys, beam, m, numActions, c) &&
                                        (c.source < b || (c.source == b && c.action < a))
    decreases b, a
  {
    if a > 0 {
      ExaminedOnce(sys, beam, m, numActions, b, a - 1);
    } else if b > 0 {
      ExaminedOnce(sys, beam, m, numActions, b - 1, numActions);
    }
  }

  lemma {:induction false} ExaminedEarlierFirst<S>(sys: System<S>, beam: seq<Slot<S>>, m: Matrix, numActions: nat,
                                                   b: nat, a: nat)
    requires |m| >= |beam| * numActions
    requires b <= |beam| && a <= numActions && (b == |beam| ==> a == 0)
    ensures EarlierFirst(Examined(sys, beam, m, numActions, b, a))
    decreases b, a
  {
    if a > 0 {
      ExaminedEarlierFirst(sys, beam, m, numActions, b, a - 1);
      ExaminedOnce(sys, beam, m, numActions, b, a - 1);
      var seen := Examined(sys, beam, m, numActions, b, a - 1);
      forall i | 0 <= i < |seen| ensures Earlier(seen[i], Resulting(beam, m, numActions, b, a - 1)) {
        assert seen[i] in seen;
      }
    } else if b > 0 {
      ExaminedEarlierFirst(sys, beam, m, numActions, b - 1, numActions);
    }
  }

  // ----- Width one -----

  /** The fast path's choice: the first allowed action with the highest score. */
  predicate FirstBest<S>(sys: System<S>, state: S, m: Matrix, numActions: nat, best: nat)
    requires |m| >= numActions
  {
    && best < numActions && sys.isAllowed(state, best)
    && (forall a: nat :: a < numActions && sys.isAllowed(state, a) ==> m[a] <= m[best])
    && (forall a: nat :: a < best && sys.isAllowed(state, a) ==> m[a] < m[best])
  }

  /** A general beam of width one keeps the last of the candidates with the highest score. */
  lemma {:induction false} WidthOneKeepsLast(cs: seq<Candidate>) returns (i: nat)
    requires cs != []
    ensures i < |cs| && OfferAll(cs, 1) == [cs[i]]
    ensures forall j :: 0 <= j < |cs| ==> cs[j].score <= cs[i].score && (i < j ==> cs[j].score < cs[i].score)
  {
    var init, c := cs[..|cs| - 1], cs[|cs| - 1];
    if init == [] {
      i := 0;
      assert OfferAll(init, 1) == [];
    } else {
      i := WidthOneKeepsLast(init);
      if c.score >= init[i].score {
        i := |cs| - 1;
        assert OfferAll(init, 1)[..0] == [];
      }
    }
  }

  predicate InActionOrder(cs: seq<Candidate>, a: nat) {
    && (forall i :: 0 <= i < |cs| ==> cs[i].action < a)
    && (forall i, j :: 0 <= i < j < |cs| ==> cs[i].action < cs[j].action)
  }

  lemma OneMoreInOrder(cs: seq<Candidate>, c: Candidate, a: nat)
    requires InActionOrder(cs, a) && c.action == a
    ensures InActionOrder(cs, a + 1) && InActionOrder(cs + [c], a + 1)
  {
  }

  /** The candidates of a single slot are examined in the order of their actions. */
  lemma {:induction false} ExaminedInOrder<S>(sys: System<S>, beam: seq<Slot<S>>, m: Matrix, numActions: nat, a: nat)
    requires |beam| == 1 && |m| >= |beam| * numActions && a <= numActions
    ensures InActionOrder(Examined(sys, beam, m, numActions, 0, a), a)
  {
    if a > 0 {
      ExaminedInOrder(sys, beam, m, numActions, a - 1);
      OneMoreInOrder(Examined(sys, beam, m, numActions, 0, a - 1), Resulting(beam, m, numActions, 0, a - 1), a - 1);
    }
  }

  predicate LastBest<S>(sys: System<S>, state: S, m: Matrix, numActions: nat, best: nat)
    requires |m| >= numActions
  {
    && best < numActions && sys.isAllowed(state, best)
    && (forall a: nat :: a < numActions && sys.isAllowed(state, a) ==> m[a] <= m[best])
    && (forall a: nat :: best < a < numActions && sys.isAllowed(state, a) ==> m[a] < m[best])
  }

  lemma CandidateIsExamined<S>(sys: System<S>, beam: seq<Slot<S>>, m: Matrix, numActions: nat, a: nat) returns (j: nat)
    requires |beam| == 1 && |m| >= |beam| * numActions && a < numActions && sys.isAllowed(beam[0].state, a)
    ensures var cs := Examined(sys, beam, m, numActions, 1, 0);
            j < |cs| && cs[j] == Candidate(beam[0].score + m[a], 0, a)
  {
    ExaminedOnce(sys, beam, m, numActions, 1, 0);
    var c := Resulting(beam, m, numActions, 0, a);
    assert IsCandidate(sys, beam, m, numActions, c);
    j :| 0 <= j < |Examined(sys, beam, m, numActions, 1, 0)| && Examined(sys, beam, m, numActions, 1, 0)[j] == c;
  }

  lemma ExaminedIsCandidate<S>(sys: System<S>, beam: seq<Slot<S>>, m: Matrix, numActions: nat, j: nat)
    requires |beam| == 1 && |m| >= |beam| * numActions && j < |Examined(sys, beam, m, numActions, 1, 0)|
    ensures var c := Examined(sys, beam, m, numActions, 1, 0)[j];
            && c.action < numActions && sys.isAllowed(beam[0].state, c.action)
            && c == Candidate(beam[0].score + m[c.action], 0, c.action)
  {
    ExaminedOnce(sys, beam, m, numActions, 1, 0);
    var c := Examined(sys, beam, m, numActions, 1, 0)[j];
    assert c in Examined(sys, beam, m, numActions, 1, 0);
    assert IsCandidate(sys, beam, m, numActions, c);
  }

  lemma GeneralKeepsLastBest<S>(sys: System<S>, beam: seq<Slot<S>>, m: Matrix, numActions: nat, some: nat)
      returns (last: nat)
    requires |beam| == 1 && |m| >= |beam| * numActions && some < numActions && sys.isAllowed(beam[0].state, some)
    ensures LastBest(sys, beam[0].state, m, numActions, last)
    ensures OfferAll(Examined(sys, beam, m, numActions, 1, 0), 1) == [Candidate(beam[0].score + m[last], 0, last)]
  {
    var cs := Examined(sys, beam, m, numActions, 1, 0);
    ExaminedInOrder(sys, beam, m, numActions, numActions);
    assert InActionOrder(cs, numActions);
    var j0 := CandidateIsExamined(sys, beam, m, numActions, some);
    var i := WidthOneKeepsLast(cs);
    ExaminedIsCandidate(sys, beam, m, numActions, i);
    last := cs[i].action;
    forall a: nat | a < numActions && sys.isAllowed(beam[0].state, a)
      ensures m[a] <= m[last] && (last < a ==> m[a] < m[last])
    {
      var j := CandidateIsExamined(sys, beam, m, numActions, a);
      assert last < a ==> i < j;
    }
  }

  /** At width one the fast path and the general path reach the same score, and choose the same
      action exactly when a single action has the highest score. */
  lemma FastAgreesWithGeneral<S>(sys: System<S>, beam: seq<Slot<S>>, m: Matrix, numActions: nat, best: nat)
    requires |beam| == 1 && |m| >= |beam| * numActions && FirstBest(sys, beam[0].state, m, numActions, best)
    ensures var kept := OfferAll(Examined(sys, beam, m, numActions, 1, 0), 1);
            && |kept| == 1 && kept[0].score == beam[0].score + m[best]
            && (kept[0].action == best <==>
                forall a: nat :: a < numActions && sys.isAllowed(beam[0].state, a) && m[a] == m[best] ==> a == best)
  {
    var last := GeneralKeepsLastBest(sys, beam, m, numActions, best);
  }

  // ----- The beam -----

  /** t results from s by one transition of the beam; final states stay as they are. */
  ghost predicate StepOf<S>(sys: System<S>, s: S, t: S) {
    || (exists a: nat :: sys.isAllowed(s, a) && t == sys.perform(s, a))
    || (!sys.isFinal(s) && sys.oracle(s) != [] && t == sys.perform(s, sys.oracle(s)[0]))
    || (sys.isFinal(s) && t == s)
  }

  /** The states held at every step so far, and for each of them the slot it came from. */
  datatype Past<S> = Past(states: seq<seq<S>>, parents: seq<seq<nat>>) {
    ghost predicate Valid(sys: System<S>) {
      && |states| == |parents| > 0
      && (forall i :: 0 <= i < |states| ==> |parents[i]| == |states[i]|)
      && (forall i, b :: 1 <= i < |states| && 0 <= b < |states[i]| ==>
            parents[i][b] < |states[i - 1]| && StepOf(sys, states[i - 1][parents[i][b]], states[i][b]))
    }

    /** Nothing recorded earlier has changed. */
    ghost predicate Extends(older: Past<S>) {
      && |states| >= |older.states| && states[..|older.states|] == older.states
      && |parents| >= |older.parents| && parents[..|older.parents|] == older.parents
    }

    function Append(now: seq<S>, from: seq<nat>): Past<S> {
      Past(states + [now], parents + [from])
    }
  }

  /** The slots held by one state and its ancestors, one for each step. */
  ghost predicate IsLineage<S>(past: Past<S>, line: seq<nat>, b: nat) {
    && |line| == |past.states| == |past.parents| > 0 && line[|line| - 1] == b
    && (forall i :: 0 <= i < |line| ==> line[i] < |past.states[i]| == |past.parents[i]|)
    && (forall i :: 1 <= i < |line| ==> line[i - 1] == past.parents[i][line[i]])
  }

  /** A row of back-pointers as it is stored: -1 in the slots that hold no state. */
  predicate StoredRow(row: seq<int>, from: seq<int>, width: nat) {
    && |row| == width >= |from|
    && (forall b :: 0 <= b < |from| ==> row[b] == from[b])
    && (forall b :: |from| <= b < width ==> row[b] == -1)
  }

  function Kept<S>(sys: System<S>, beam: seq<Slot<S>>, m: Matrix, numActions: nat, k: nat): seq<Candidate>
    requires |m| >= |beam| * numActions && k > 0
  {
    OfferAll(Examined(sys, beam, m, numActions, |beam|, 0), k)
  }

  /** The general advance keeps the best candidates among all allowed ones, each of them once. */
  lemma KeptAreBest<S>(sys: System<S>, beam: seq<Slot<S>>, m: Matrix, numActions: nat, k: nat)
    requires |m| >= |beam| * numActions && k > 0
    ensures var all := Examined(sys, beam, m, numActions, |beam|, 0);
            && (forall c :: c in all <==> IsCandidate(sys, beam, m, numActions, c))
            && Distinct(all) && BestOf(Kept(sys, beam, m, numActions, k), all, k)
  {
    ExaminedOnce(sys, beam, m, numActions, |beam|, 0);
    OfferAllKeepsBest(Examined(sys, beam, m, numActions, |beam|, 0), k);
  }

  lemma KeptAreSteps<S>(sys: System<S>, beam: seq<Slot<S>>, m: Matrix, numActions: nat, k: nat)
    requires |m| >= |beam| * numActions && k > 0
    ensures |Kept(sys, beam, m, numActions, k)| <= k
    ensures forall c :: c in Kept(sys, beam, m, numActions, k) ==>
              c.source < |beam| && sys.isAllowed(beam[c.source].state, c.action)
  {
    KeptAreBest(sys, beam, m, numActions, k);
  }

  function Sources(kept: seq<Candidate>): seq<nat> {
    seq(|kept|, i requires 0 <= i < |kept| => kept[i].source)
  }

  function Advanced<S>(sys: System<S>, trackGold: bool, source: Slot<S>, c: Candidate, i: nat): Slot<S> {
    Slot(sys.perform(source.state, c.action), c.score, source.parentBeamIndex, i,
         trackGold && source.gold && c.action in sys.oracle(source.state))
  }

  function NewSlots<S>(sys: System<S>, trackGold: bool, beam: seq<Slot<S>>, kept: seq<Candidate>): seq<Slot<S>>
    requires forall c :: c in kept ==> c.source < |beam|
  {
    seq(|kept|, i requires 0 <= i < |kept| =>
          assert kept[i] in kept; Advanced(sys, trackGold, beam[kept[i].source], kept[i], i))
  }

  lemma NewSlotsFollow<S>(sys: System<S>, trackGold: bool, beam: seq<Slot<S>>, kept: seq<Candidate>)
    requires forall c :: c in kept ==> c.source < |beam| && sys.isAllowed(beam[c.source].state, c.action)
    ensures forall b :: 0 <= b < |kept| ==>
              && Sources(kept)[b] < |beam|
              && StepOf(sys, beam[Sources(kept)[b]].state, NewSlots(sys, trackGold, beam, kept)[b].state)
  {
    assert forall b :: 0 <= b < |kept| ==> kept[b] in kept;
  }

  function OracleStep<S>(sys: System<S>, slot: Slot<S>, i: nat): Slot<S>
    requires !sys.isFinal(slot.state) ==> sys.oracle(slot.state) != []
  {
    if sys.isFinal(slot.state) then slot
    else slot.(state := sys.perform(slot.state, sys.oracle(slot.state)[0]), score := 0.0, beamIndex := i)
  }

  /** The slots of states that have not moved. */
  function Unmoved(n: nat): seq<nat> {
    seq(n, i => i)
  }

  /** The slots of the component before from which the states came. */
  function Parents<S>(beam: seq<Slot<S>>): seq<int> {
    seq(|beam|, i requires 0 <= i < |beam| => beam[i].parentBeamIndex)
  }

  function States<S>(beam: seq<Slot<S>>): seq<S> {
    seq(|beam|, i requires 0 <= i < |beam| => beam[i].state)
  }

  function ExtendLines(lineage: seq<seq<nat>>, from: seq<nat>): seq<seq<nat>>
    requires forall b :: 0 <= b < |from| ==> from[b] < |lineage|
  {
    seq(|from|, b requires 0 <= b < |from| => lineage[from[b]] + [b])
  }

  /** past and lineage describe how the states in the beam came about. */
  ghost predicate Chained<S>(sys: System<S>, past: Past<S>, lineage: seq<seq<nat>>, beam: seq<Slot<S>>,
                             numSteps: nat, maxSize: nat) {
    && past.Valid(sys) && |past.states| == numSteps + 1 && past.states[numSteps] == States(beam)
    && (forall i :: 0 <= i <= numSteps ==> |past.states[i]| <= maxSize)
    && |lineage| == |beam| && (forall b: nat :: b < |beam| ==> IsLineage(past, lineage[b], b))
  }

  /** The stored back-pointers are those of the past. The first row is kept for the previous component. */
  ghost predicate Stored<S>(history: seq<seq<int>>, past: Past<S>, maxSize: nat) {
    && |history| == |past.states| == |past.parents| > 0
    && (forall i :: 0 <= i < |history| ==> |history[i]| == maxSize >= |past.states[i]| == |past.parents[i]|)
    && (forall b :: |past.states[0]| <= b < maxSize ==> history[0][b] == -1)
    && (forall i :: 1 <= i < |history| ==> StoredRow(history[i], past.parents[i], maxSize))
  }

  lemma ChainGrows<S>(sys: System<S>, past: Past<S>, lineage: seq<seq<nat>>, before: seq<Slot<S>>,
                      numSteps: nat, maxSize: nat, beam: seq<Slot<S>>, from: seq<nat>)
    requires Chained(sys, past, lineage, before, numSteps, maxSize)
    requires |from| == |beam| <= maxSize && forall b :: 0 <= b < |from| ==> from[b] < |before|
    requires forall b :: 0 <= b < |from| ==> StepOf(sys, before[from[b]].state, beam[b].state)
    ensures Chained(sys, past.Append(States(beam), from), ExtendLines(lineage, from), beam, numSteps + 1, maxSize)
  {
    var lines := ExtendLines(lineage, from);
    forall b: nat | b < |beam| ensures IsLineage(past.Append(States(beam), from), lines[b], b) {
      LineageGrows(past, lineage[from[b]], States(beam), from, b);
    }
  }

  lemma StoreGrows<S>(history: seq<seq<int>>, past: Past<S>, maxSize: nat, row: seq<int>, now: seq<S>, from: seq<nat>)
    requires Stored(history, past, maxSize) && |now| == |from| && StoredRow(row, from, maxSize)
    ensures Stored(history + [row], past.Append(now, from), maxSize)
  {
  }

  lemma LineageGrows<S>(past: Past<S>, line: seq<nat>, now: seq<S>, from: seq<nat>, b: nat)
    requires b < |now| == |from| && IsLineage(past, line, from[b])
    ensures IsLineage(past.Append(now, from), line + [b], b)
  {
  }

  lemma MoreRows(rows: nat, maxRows: nat, numActions: nat)
    requires rows <= maxRows
    ensures rows * numActions <= maxRows * numActions
  {
    var gap := maxRows - rows;
    assert maxRows * numActions == rows * numActions + gap * numActions;
  }

  predicate SomeAllowed<S>(sys: System<S>, state: S, numActions: nat) {
    exists a: nat :: a < numActions && sys.isAllowed(state, a)
  }

  // ----- What an advance does to the slots -----

  /** An action taken in one slot. */
  datatype Move = Move(source: nat, action: nat)

  predicate MoveBefore(x: Move, y: Move) {
    x.source < y.source || (x.source == y.source && x.action < y.action)
  }

  predicate Possible<S>(sys: System<S>, before: seq<Slot<S>>, numActions: nat, x: Move) {
    x.source < |before| && x.action < numActions && sys.isAllowed(before[x.source].state, x.action)
  }

  /** The score that a move leads to: that of its source and the entry of the action in the source's row. */
  predicate Scores<S>(before: seq<Slot<S>>, m: Matrix, numActions: nat, x: Move, score: real) {
    && x.source < |before| && x.action + x.source * numActions < |m|
    && score == before[x.source].score + m[x.action + x.source * numActions]
  }

  /** Slot i holds what a possible move makes of its source. */
  predicate MovesTo<S(==)>(sys: System<S>, trackGold: bool, before: seq<Slot<S>>, m: Matrix, numActions: nat,
                           x: Move, slot: Slot<S>, i: int) {
    && Possible(sys, before, numActions, x) && Scores(before, m, numActions, x, slot.score)
    && var source := before[x.source];
    && slot.state == sys.perform(source.state, x.action)
    && slot.beamIndex == i && slot.parentBeamIndex == source.parentBeamIndex
    && (slot.gold <==> trackGold && source.gold && x.action in sys.oracle(source.state))
  }

  /** The single state has taken the first of its best allowed actions. */
  ghost predicate TakesFirstBest<S>(sys: System<S>, trackGold: bool, before: seq<Slot<S>>, after: seq<Slot<S>>,
                                    m: Matrix, numActions: nat, best: nat) {
    && |before| == |after| == 1 && |m| == numActions && FirstBest(sys, before[0].state, m, numActions, best)
    && MovesTo(sys, trackGold, before, m, numActions, Move(0, best), after[0], 0)
  }

  /** The new slots hold the results of k best moves, or of all if there are fewer, best first and earlier first
      among those of the same score. */
  ghost predicate TakesBest<S>(sys: System<S>, trackGold: bool, before: seq<Slot<S>>, after: seq<Slot<S>>, m: Matrix,
                               numActions: nat, k: nat, moves: seq<Move>) {
    && |moves| == |after| <= k
    && (forall i :: 0 <= i < |after| ==> MovesTo(sys, trackGold, before, m, numActions, moves[i], after[i], i))
    && (forall i, j :: 0 <= i < j < |after| ==>
          after[i].score > after[j].score || (after[i].score == after[j].score && MoveBefore(moves[i], moves[j])))
    && (forall x, score :: Possible(sys, before, numActions, x) && Scores(before, m, numActions, x, score) ==>
          x in moves || (|after| == k > 0 && score <= after[k - 1].score))
  }

  function MovesOf(kept: seq<Candidate>): (moves: seq<Move>)
    ensures |moves| == |kept|
  {
    seq(|kept|, i requires 0 <= i < |kept| => Move(kept[i].source, kept[i].action))
  }

  function MoveSources(moves: seq<Move>): (from: seq<nat>)
    ensures |from| == |moves|
  {
    seq(|moves|, i requires 0 <= i < |moves| => moves[i].source)
  }

  lemma LeftOutIsNoBetter<S>(sys: System<S>, beam: seq<Slot<S>>, m: Matrix, numActions: nat, k: nat, x: Move,
                             score: real)
    requires |m| >= |beam| * numActions && k > 0
    requires Possible(sys, beam, numActions, x) && Scores(beam, m, numActions, x, score)
    ensures var kept := Kept(sys, beam, m, numActions, k);
            x in MovesOf(kept) || (|kept| == k && score <= kept[k - 1].score)
  {
    KeptAreBest(sys, beam, m, numActions, k);
    var kept, all := Kept(sys, beam, m, numActions, k), Examined(sys, beam, m, numActions, |beam|, 0);
    var c := Resulting(beam, m, numActions, x.source, x.action);
    assert IsCandidate(sys, beam, m, numActions, c);
    if c in kept {
      var i :| 0 <= i < |kept| && kept[i] == c;
      assert MovesOf(kept)[i] == x;
    } else {
      assert kept[k - 1] in kept;
    }
  }

  lemma NewSlotMoves<S>(sys: System<S>, trackGold: bool, beam: seq<Slot<S>>, m: Matrix, numActions: nat, c: Candidate,
                        i: nat)
    requires |m| >= |beam| * numActions && IsCandidate(sys, beam, m, numActions, c)
    ensures MovesTo(sys, trackGold, beam, m, numActions, Move(c.source, c.action),
                    Advanced(sys, trackGold, beam[c.source], c, i), i)
  {
    CellInMatrix(c.source, c.action, numActions, |beam|);
  }

  lemma RankedSlotsDescend<S>(sys: System<S>, trackGold: bool, beam: seq<Slot<S>>, kept: seq<Candidate>,
                              after: seq<Slot<S>>, moves: seq<Move>)
    requires Ranked(kept) && moves == MovesOf(kept) && forall c :: c in kept ==> c.source < |beam|
    requires after == NewSlots(sys, trackGold, beam, kept)
    ensures forall i, j :: 0 <= i < j < |after| ==>
              after[i].score > after[j].score || (after[i].score == after[j].score && MoveBefore(moves[i], moves[j]))
  {
    assert forall i :: 0 <= i < |after| ==> after[i].score == kept[i].score;
  }

  lemma NewSlotsTakeBest<S>(sys: System<S>, trackGold: bool, beam: seq<Slot<S>>, m: Matrix, numActions: nat, k: nat,
                            after: seq<Slot<S>>, moves: seq<Move>)
    requires |m| >= |beam| * numActions && k > 0
    requires var kept := Kept(sys, beam, m, numActions, k);
             && (forall c :: c in kept ==> c.source < |beam|)
             && after == NewSlots(sys, trackGold, beam, kept) && moves == MovesOf(kept)
    ensures TakesBest(sys, trackGold, beam, after, m, numActions, k, moves)
  {
    var kept := Kept(sys, beam, m, numActions, k);
    KeptAreBest(sys, beam, m, numActions, k);
    ExaminedEarlierFirst(sys, beam, m, numActions, |beam|, 0);
    OfferAllKeepsRanked(Examined(sys, beam, m, numActions, |beam|, 0), k);
    forall i | 0 <= i < |after|
      ensures MovesTo(sys, trackGold, beam, m, numActions, moves[i], after[i], i)
    {
      assert kept[i] in kept;
      NewSlotMoves(sys, trackGold, beam, m, numActions, kept[i], i);
    }
    RankedSlotsDescend(sys, trackGold, beam, kept, after, moves);
    forall x, score | Possible(sys, beam, numActions, x) && Scores(beam, m, numActions, x, score)
      ensures x in moves || (|after| == k && score <= after[k - 1].score)
    {
      LeftOutIsNoBetter(sys, beam, m, numActions, k, x, score);
    }
  }

  lemma FirstBestIsStep<S>(sys: System<S>, trackGold: bool, before: seq<Slot<S>>, after: seq<Slot<S>>, m: Matrix,
                           numActions: nat, best: nat)
    requires TakesFirstBest(sys, trackGold, before, after, m, numActions, best)
    ensures |after| == 1 && StepOf(sys, before[0].state, after[0].state)
  {
  }

  class Beam<S> {
    const sys: System<S>
    const maxSize: nat
    const trackGold: bool
    var beam: seq<Slot<S>>
    var history: seq<seq<int>>
    var numSteps: nat
    /** All states held so far, and for each live slot the slots its ancestors held. */
    ghost var past: Past<S>
    ghost var lineage: seq<seq<nat>>

    /** Reset and ready for Init. */
    ghost predicate Empty()
      reads this
    {
      maxSize > 0 && beam == [] && history == [] && numSteps == 0
    }

    ghost predicate Valid()
      reads this
    {
      && maxSize > 0 && |beam| <= maxSize && (maxSize == 1 ==> |beam| == 1)
      && Chained(sys, past, lineage, beam, numSteps, maxSize)
      && (maxSize > 1 ==> Stored(history, past, maxSize))
    }

    constructor (sys: System<S>, maxSize: nat, trackGold: bool)
      requires maxSize > 0
      ensures Empty() && this.sys == sys && this.maxSize == maxSize && this.trackGold == trackGold
    {
      this.sys, this.maxSize, this.trackGold := sys, maxSize, trackGold;
      beam, history, numSteps, past, lineage := [], [], 0, Past([], []), [];
    }

    method Reset()
      requires maxSize > 0
      modifies this
      ensures Empty()
    {
      beam, history, numSteps := [], [], 0;
    }

    /** What the search for earlier slots checks of a beam wider than one. */
    predicate InStep()
      reads this
    {
      numSteps == |history| - 1
    }

    /** Takes over the states and stores where they came from. A beam in use is not cleared: its history
        grows by a row while the steps stay, so a beam wider than one is in step afterwards exactly if it
        had a row less before, which a valid beam never has. */
    method Init(initialStates: seq<Slot<S>>)
      requires maxSize > 0 && |initialStates| <= maxSize
      modifies this
      ensures numSteps == old(numSteps) && |beam| == |initialStates|
      ensures forall i :: 0 <= i < |beam| ==>
        beam[i] == initialStates[i].(beamIndex := i, gold := trackGold && initialStates[i].gold)
      ensures |history| == |old(history)| + 1 && history[..|old(history)|] == old(history)
      ensures StoredRow(history[|old(history)|], Parents(initialStates), maxSize)
      ensures InStep() <==> |old(history)| == old(numSteps)
      ensures old(Empty()) && (maxSize == 1 ==> |initialStates| == 1) ==> Valid()
      ensures maxSize > 1 && old(Valid()) ==> !InStep() && !Valid()
    {
      var row := TakeStates(initialStates);
      history := history + [row];
      past := Past([States(beam)], [seq(|beam|, i => i)]);
      lineage := seq(|beam|, i => [i]);
    }

    method TakeStates(initialStates: seq<Slot<S>>) returns (row: seq<int>)
      requires |initialStates| <= maxSize
      modifies this`beam
      ensures |beam| == |initialStates| && StoredRow(row, Parents(initialStates), maxSize)
      ensures forall i :: 0 <= i < |beam| ==>
        beam[i] == initialStates[i].(beamIndex := i, gold := trackGold && initialStates[i].gold)
    {
      beam := initialStates;
      row := seq(maxSize, _ => -1);
      for i := 0 to |initialStates|
        invariant |row| == maxSize && |beam| == |initialStates|
        invariant forall j :: 0 <= j < maxSize ==> row[j] == if j < i then initialStates[j].parentBeamIndex else -1
        invariant forall j :: 0 <= j < i ==>
          beam[j] == initialStates[j].(beamIndex := j, gold := trackGold && initialStates[j].gold)
        invariant forall j :: i <= j < |beam| ==> beam[j] == initialStates[j]
      {
        row := row[i := beam[i].parentBeamIndex];
        beam := beam[i := beam[i].(beamIndex := i)];
        if !trackGold {
          beam := beam[i := beam[i].(gold := false)];
        }
      }
    }

    /** Keeps a candidate if there is room or its score reaches the lowest one kept. */
    method OfferCandidate(candidates: seq<Candidate>, c: Candidate) returns (kept: seq<Candidate>)
      requires maxSize > 0
      ensures kept == Offer(candidates, c, maxSize)
    {
      kept := candidates;
      if |kept| == maxSize {
        if c.score < kept[maxSize - 1].score {
          return;
        }
        kept := kept[..maxSize - 1];
      }
      kept := Insert(kept, c);
    }

    /** Offers one action of a slot, if it is allowed. */
    method OfferAction(m: Matrix, numActions: nat, b: nat, a: nat, candidates: seq<Candidate>)
        returns (kept: seq<Candidate>)
      requires maxSize > 0 && |m| >= |beam| * numActions && b < |beam| && a < numActions
      requires candidates == KeptUpTo(sys, beam, m, numActions, b, a, maxSize)
      ensures kept == KeptUpTo(sys, beam, m, numActions, b, a + 1, maxSize)
    {
      kept := candidates;
      if sys.isAllowed(beam[b].state, a) {
        CellInMatrix(b, a, numActions, |beam|);
        var resultingScore := beam[b].score + m[Cell(b, a, numActions)];
        kept := OfferCandidate(kept, Candidate(resultingScore, b, a));
      }
    }

    method SelectCandidates(m: Matrix, numActions: nat) returns (candidates: seq<Candidate>)
      requires maxSize > 0 && |m| >= |beam| * numActions
      ensures candidates == Kept(sys, beam, m, numActions, maxSize)
    {
      candidates := [];
      for beamIdx := 0 to |beam|
        invariant candidates == KeptUpTo(sys, beam, m, numActions, beamIdx, 0, maxSize)
      {
        for actionIdx := 0 to numActions
          invariant candidates == KeptUpTo(sys, beam, m, numActions, beamIdx, actionIdx, maxSize)
        {
          candidates := OfferAction(m, numActions, beamIdx, actionIdx, candidates);
        }
      }
      KeptIsOffered(sys, beam, m, numActions, |beam|, 0, maxSize);
    }

    /** Applies the selected transitions to copies of their source states. */
    method ApplyCandidates(candidates: seq<Candidate>) returns (newBeam: seq<Slot<S>>, row: seq<int>)
      requires |candidates| <= maxSize && forall c :: c in candidates ==> c.source < |beam|
      ensures newBeam == NewSlots(sys, trackGold, beam, candidates) && StoredRow(row, Sources(candidates), maxSize)
    {
      newBeam, row := [], seq(maxSize, _ => -1);
      for i := 0 to |candidates|
        invariant |newBeam| == i && |row| == maxSize
        invariant forall j :: 0 <= j < i ==> newBeam[j] == NewSlots(sys, trackGold, beam, candidates)[j]
        invariant forall j :: 0 <= j < maxSize ==> row[j] == if j < i then candidates[j].source else -1
      {
        var c := candidates[i];
        newBeam := newBeam + [Advanced(sys, trackGold, beam[c.source], c, i)];
        row := row[i := c.source];
      }
    }

    /** The general advance: the new slots hold the results of the best moves, in order. */
    method BeamAdvanceFromPrediction(m: Matrix, numActions: nat) returns (ghost moves: seq<Move>)
      requires Valid() && maxSize > 1 && |m| == maxSize * numActions
      modifies this`beam, this`history, this`past, this`lineage
      ensures |history| == |old(history)| + 1 && history[..|old(history)|] == old(history)
      ensures TakesBest(sys, trackGold, old(beam), beam, m, numActions, maxSize, moves)
      ensures StoredRow(history[|old(history)|], MoveSources(moves), maxSize)
      ensures |beam| <= maxSize && past.Extends(old(past))
      ensures Chained(sys, past, lineage, beam, numSteps + 1, maxSize) && Stored(history, past, maxSize)
    {
      MoreRows(|beam|, maxSize, numActions);
      var candidates := SelectCandidates(m, numActions);
      KeptAreSteps(sys, beam, m, numActions, maxSize);
      var newBeam, row := ApplyCandidates(candidates);
      NewSlotsFollow(sys, trackGold, beam, candidates);
      moves := MovesOf(candidates);
      NewSlotsTakeBest(sys, trackGold, beam, m, numActions, maxSize, newBeam, moves);
      assert MoveSources(moves) == Sources(candidates);
      ghost var before := beam;
      beam := newBeam;
      Remember(before, row, Sources(candidates));
    }

    /** Stores a row of back-pointers, which a beam of width one does without. */
    method Remember(ghost before: seq<Slot<S>>, row: seq<int>, ghost from: seq<nat>)
      requires maxSize > 0 && Chained(sys, past, lineage, before, numSteps, maxSize)
      requires maxSize > 1 ==> Stored(history, past, maxSize)
      requires |from| == |beam| && StoredRow(row, from, maxSize) && forall b :: 0 <= b < |from| ==> from[b] < |before|
      requires forall b :: 0 <= b < |from| ==> StepOf(sys, before[from[b]].state, beam[b].state)
      modifies this`history, this`past, this`lineage
      ensures Chained(sys, past, lineage, beam, numSteps + 1, maxSize)
      ensures maxSize > 1 ==> Stored(history, past, maxSize)
      ensures past.Extends(old(past)) && history == old(history) + if maxSize > 1 then [row] else []
    {
      ChainGrows(sys, past, lineage, before, numSteps, maxSize, beam, from);
      if maxSize > 1 {
        StoreGrows(history, past, maxSize, row, States(beam), from);
        history := history + [row];
      }
      past, lineage := past.Append(States(beam), from), ExtendLines(lineage, from);
    }

    /** The width-one advance: takes the first best allowed action in place, if there is one. */
    method FastAdvanceFromPrediction(m: Matrix, numActions: nat) returns (success: bool, ghost best: nat)
      requires Valid() && maxSize == 1 && |m| == numActions
      modifies this`beam
      ensures success <==> SomeAllowed(sys, old(beam)[0].state, numActions)
      ensures !success ==> beam == old(beam)
      ensures success ==> TakesFirstBest(sys, trackGold, old(beam), beam, m, numActions, best)
    {
      var bestAction, state := -1, beam[0].state;
      for actionIdx := 0 to numActions
        invariant bestAction == -1 ==> forall a: nat :: a < actionIdx ==> !sys.isAllowed(state, a)
        invariant bestAction != -1 ==>
                    0 <= bestAction < actionIdx && FirstBest(sys, state, m[..actionIdx], actionIdx, bestAction)
      {
        if sys.isAllowed(state, actionIdx) && (bestAction == -1 || m[actionIdx] > m[bestAction]) {
          bestAction := actionIdx;
        }
      }
      if bestAction == -1 {
        return false, 0;
      }
      assert m[..numActions] == m;
      beam := [Advanced(sys, trackGold, beam[0], Candidate(beam[0].score + m[bestAction], 0, bestAction), 0)];
      return true, bestAction;
    }

    method AdvanceFromPrediction(m: Matrix, numActions: nat) returns (success: bool, ghost moves: seq<Move>)
      requires Valid() && |m| == maxSize * numActions
      modifies this
      ensures Valid() && numSteps == old(numSteps) + if success then 1 else 0
      ensures |history| >= |old(history)| && history[..|old(history)|] == old(history)
      ensures success <==> maxSize > 1 || SomeAllowed(sys, old(beam)[0].state, numActions)
      ensures past.Extends(old(past))
      ensures !success ==> beam == old(beam)
      ensures success && maxSize == 1 ==>
                |moves| == 1 && TakesFirstBest(sys, trackGold, old(beam), beam, m, numActions, moves[0].action)
      ensures success && maxSize > 1 ==> TakesBest(sys, trackGold, old(beam), beam, m, numActions, maxSize, moves)
      ensures success && maxSize > 1 ==> |history| == |old(history)| + 1 &&
                                         StoredRow(history[|old(history)|], MoveSources(moves), maxSize)
    {
      if maxSize == 1 {
        ghost var best;
        success, best := NarrowAdvance(m, numActions);
        moves := [Move(0, best)];
      } else {
        moves := WideAdvance(m, numActions);
        success := true;
      }
    }

    /** The general advance, counted as a step. */
    method WideAdvance(m: Matrix, numActions: nat) returns (ghost moves: seq<Move>)
      requires Valid() && maxSize > 1 && |m| == maxSize * numActions
      modifies this
      ensures Valid() && numSteps == old(numSteps) + 1 && past.Extends(old(past))
      ensures |history| == |old(history)| + 1 && history[..|old(history)|] == old(history)
      ensures StoredRow(history[|old(history)|], MoveSources(moves), maxSize)
      ensures TakesBest(sys, trackGold, old(beam), beam, m, numActions, maxSize, moves)
    {
      moves := BeamAdvanceFromPrediction(m, numActions);
      numSteps := numSteps + 1;
    }

    /** The width-one advance, counted as a step if it succeeds. */
    method NarrowAdvance(m: Matrix, numActions: nat) returns (success: bool, ghost best: nat)
      requires Valid() && maxSize == 1 && |m| == numActions
      modifies this
      ensures Valid() && numSteps == old(numSteps) + (if success then 1 else 0) && past.Extends(old(past))
      ensures history == old(history)
      ensures success <==> SomeAllowed(sys, old(beam)[0].state, numActions)
      ensures if success then TakesFirstBest(sys, trackGold, old(beam), beam, m, numActions, best)
              else beam == old(beam)
    {
      ghost var before := beam;
      success, best := FastAdvanceFromPrediction(m, numActions);
      if success {
        FirstBestIsStep(sys, trackGold, before, beam, m, numActions, best);
        RememberOne(before);
      }
    }

    /** Counts a step of the only state. */
    method RememberOne(ghost before: seq<Slot<S>>)
      requires maxSize == 1 && Chained(sys, past, lineage, before, numSteps, maxSize)
      requires |before| == |beam| == 1 && StepOf(sys, before[0].state, beam[0].state)
      modifies this`history, this`past, this`lineage, this`numSteps
      ensures Valid() && numSteps == old(numSteps) + 1 && history == old(history) && past.Extends(old(past))
    {
      Remember(before, [0], [0]);
      numSteps := numSteps + 1;
    }

    /** Takes the first oracle action in every slot that is not final, which stays in its slot. */
    method StepByOracle() returns (row: seq<int>)
      requires |beam| <= maxSize
      requires forall i :: 0 <= i < |beam| && !sys.isFinal(beam[i].state) ==> sys.oracle(beam[i].state) != []
      modifies this`beam
      ensures |beam| == |old(beam)| && forall i :: 0 <= i < |beam| ==> beam[i] == OracleStep(sys, old(beam)[i], i)
      ensures StoredRow(row, Unmoved(|beam|), maxSize)
    {
      ghost var before := beam;
      row := seq(maxSize, _ => -1);
      for i := 0 to |beam|
        invariant |beam| == |before| && |row| == maxSize
        invariant forall j :: 0 <= j < maxSize ==> row[j] == if j < i then j else -1
        invariant forall j :: 0 <= j < |beam| ==> beam[j] == if j < i then OracleStep(sys, before[j], j) else before[j]
      {
        row := row[i := i];
        if sys.isFinal(beam[i].state) {
          continue;
        }
        var oracleLabel := sys.oracle(beam[i].state)[0];
        beam := beam[i := beam[i].(state := sys.perform(beam[i].state, oracleLabel), score := 0.0, beamIndex := i)];
      }
    }

    method AdvanceFromOracle()
      requires Valid() && forall i :: 0 <= i < |beam| && !sys.isFinal(beam[i].state) ==> sys.oracle(beam[i].state) != []
      modifies this
      ensures Valid() && numSteps == old(numSteps) + 1 && |beam| == |old(beam)| && past.Extends(old(past))
      ensures |history| >= |old(history)| && history[..|old(history)|] == old(history)
      ensures forall i :: 0 <= i < |beam| && sys.isFinal(old(beam)[i].state) ==> beam[i] == old(beam)[i]
      ensures forall i :: 0 <= i < |beam| && !sys.isFinal(old(beam)[i].state) ==>
                && beam[i].state == sys.perform(old(beam)[i].state, sys.oracle(old(beam)[i].state)[0])
                && beam[i].score == 0.0 && beam[i].beamIndex == i
                && beam[i].parentBeamIndex == old(beam)[i].parentBeamIndex && beam[i].gold == old(beam)[i].gold
      ensures maxSize > 1 ==> |history| == |old(history)| + 1 &&
                              StoredRow(history[|old(history)|], Unmoved(|beam|), maxSize)
    {
      ghost var before := beam;
      var row := StepByOracle();
      Remember(before, row, Unmoved(|beam|));
      numSteps := numSteps + 1;
    }

    /** The slot held just before a step by the ancestor of the state now in a slot. */
    method FindPreviousIndex(currentIndex: int, step: int) returns (index: int)
      requires Valid()
      requires step == 0 && maxSize > 1 && 0 <= currentIndex < |beam| && numSteps > 0 ==>
                 history[0][lineage[currentIndex][0]] >= 0
      ensures step < 0 || step > numSteps || currentIndex < 0 || currentIndex >= |beam| ==> index == -1
      ensures 1 <= step <= numSteps && 0 <= currentIndex < |beam| ==> index == lineage[currentIndex][step - 1]
      ensures step == 0 && 0 <= currentIndex < |beam| ==>
                index == if maxSize == 1 then 0 else history[0][lineage[currentIndex][0]]
    {
      if step < 0 || step > numSteps {
        return -1;
      }
      if currentIndex < 0 || currentIndex >= maxSize {
        return -1;
      }
      if maxSize == 1 {
        return 0;
      }
      if history[|history| - 1][currentIndex] == -1 {
        return -1;
      }
      index := currentIndex;
      var i := |history| - 1;
      while i >= step
        invariant step - 1 <= i < |history|
        invariant index == if i < 0 then history[0][lineage[currentIndex][0]] else lineage[currentIndex][i]
      {
        index := history[i][index];
        i := i - 1;
      }
    }
  }
}
