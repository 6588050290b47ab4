/**
 Dependency heads as graphs. A sentence of n tokens is a sequence of n head
 positions; position -1 is the artificial root, which is its own parent.
 */
module HeadGraph {

  type Heads = seq<int>

  predicate ValidHeads(h: Heads) {
    forall i :: 0 <= i < |h| ==> -1 <= h[i] < |h|
  }

  predicate Position(h: Heads, i: int) {
    -1 <= i < |h|
  }

  /** The k-th parent of i: the head function applied k times. */
  function Up(h: Heads, i: int, k: nat): (r: int)
    requires ValidHeads(h) && Position(h, i)
    ensures Position(h, r)
    decreases k
  {
    if k == 0 || i == -1 then i else Up(h, h[i], k - 1)
  }

  /** a is i itself or one of its ancestors. */
  ghost predicate Under(h: Heads, i: int, a: int)
    requires ValidHeads(h) && Position(h, i)
  {
    exists k: nat :: Up(h, i, k) == a
  }

  /** a is the head of i, the head of its head, and so on. */
  ghost predicate ProperlyUnder(h: Heads, i: int, a: int)
    requires ValidHeads(h) && 0 <= i < |h|
  {
    Under(h, h[i], a)
  }

  /** Every token climbs to the artificial root. */
  ghost predicate Rooted(h: Heads) {
    ValidHeads(h) && forall i :: 0 <= i < |h| ==> Under(h, i, -1)
  }

  /** No token is its own proper ancestor. */
  ghost predicate Acyclic(h: Heads)
    requires ValidHeads(h)
  {
    forall i, k: nat :: 0 <= i < |h| && k > 0 ==> Up(h, i, k) != i
  }

  // ----- Arcs and crossing -----

  function Lo(h: Heads, i: int): int
    requires 0 <= i < |h|
  {
    if i < h[i] then i else h[i]
  }

  function Hi(h: Heads, i: int): int
    requires 0 <= i < |h|
  {
    if i < h[i] then h[i] else i
  }

  /** The arc of j starts strictly inside the arc of i and ends strictly outside it. */
  predicate Cross(h: Heads, i: int, j: int)
    requires 0 <= i < |h| && 0 <= j < |h|
  {
    Lo(h, i) < Lo(h, j) < Hi(h, i) < Hi(h, j)
  }

  /** No two arcs cross, arcs from the artificial root included. */
  predicate Projective(h: Heads) {
    forall i, j :: 0 <= i < |h| && 0 <= j < |h| ==> !Cross(h, i, j)
  }

  // ----- Climbing -----

  lemma {:induction false} UpAdd(h: Heads, i: int, a: nat, b: nat)
    requires ValidHeads(h) && Position(h, i)
    ensures Up(h, Up(h, i, a), b) == Up(h, i, a + b)
    decreases a
  {
    if a > 0 && i != -1 {
      UpAdd(h, h[i], a - 1, b);
    }
  }

  lemma UnderTrans(h: Heads, i: int, a: int, b: int)
    requires ValidHeads(h) && Position(h, i) && Position(h, a)
    requires Under(h, i, a) && Under(h, a, b)
    ensures Under(h, i, b)
  {
    var k: nat :| Up(h, i, k) == a;
    var m: nat :| Up(h, a, m) == b;
    UpAdd(h, i, k, m);
  }

  lemma UnderSelf(h: Heads, i: int)
    requires ValidHeads(h) && Position(h, i)
    ensures Under(h, i, i)
  {
    assert Up(h, i, 0) == i;
  }

  lemma UnderHead(h: Heads, i: int, a: int)
    requires ValidHeads(h) && 0 <= i < |h|
    ensures Under(h, i, a) <==> i == a || Under(h, h[i], a)
  {
    if i == a {
      UnderSelf(h, i);
    }
    if Under(h, h[i], a) {
      var k: nat :| Up(h, h[i], k) == a;
      assert Up(h, i, k + 1) == a;
    }
    if Under(h, i, a) && i != a {
      var k: nat :| Up(h, i, k) == a;
      assert Up(h, h[i], k - 1) == a;
    }
  }

  // ----- Depth -----

  ghost function DepthWithin(h: Heads, i: int, k: nat): (d: nat)
    requires ValidHeads(h) && Position(h, i) && Up(h, i, k) == -1
    ensures d <= k && Up(h, i, d) == -1
    ensures forall j: nat :: j < d ==> Up(h, i, j) != -1
    decreases k
  {
    if i == -1 then 0 else 1 + DepthWithin(h, h[i], k - 1)
  }

  /** The number of tokens on the way from i up to the artificial root. */
  ghost function Depth(h: Heads, i: int): (d: nat)
    requires Rooted(h) && Position(h, i)
    ensures Up(h, i, d) == -1
    ensures forall j: nat :: j < d ==> Up(h, i, j) != -1
    ensures d == 0 <==> i == -1
  {
    UnderSelf(h, -1);
    assert Under(h, i, -1);
    var k: nat :| Up(h, i, k) == -1;
    DepthWithin(h, i, k)
  }

  lemma DepthStep(h: Heads, i: int)
    requires Rooted(h) && 0 <= i < |h|
    ensures Depth(h, i) == 1 + Depth(h, h[i])
  {
    var d, e := Depth(h, i), Depth(h, h[i]);
    assert Up(h, i, 1 + e) == -1;
    assert Up(h, h[i], d - 1) == -1;
  }

  lemma {:induction false} AncestorsAreShallower(h: Heads, i: int, k: nat)
    requires Rooted(h) && Position(h, i)
    ensures Depth(h, Up(h, i, k)) == if k <= Depth(h, i) then Depth(h, i) - k else 0
    decreases k
  {
    if k > 0 && i != -1 {
      DepthStep(h, i);
      AncestorsAreShallower(h, h[i], k - 1);
    }
  }

  /** A token never climbs back to itself in a rooted graph. */
  lemma NoReturn(h: Heads, i: int)
    requires Rooted(h) && 0 <= i < |h|
    ensures !Under(h, h[i], i)
  {
    if Under(h, h[i], i) {
      var k: nat :| Up(h, h[i], k) == i;
      DepthStep(h, i);
      AncestorsAreShallower(h, h[i], k);
    }
  }

  // ----- Rooted is the same as acyclic -----

  lemma RootedIsAcyclic(h: Heads)
    requires Rooted(h)
    ensures Acyclic(h)
  {
    forall i, k: nat | 0 <= i < |h| && k > 0
      ensures Up(h, i, k) != i
    {
      AncestorsAreShallower(h, i, k);
    }
  }

  /** Climbing from i without a cycle meets a new token each time, so it ends at the root. */
  lemma {:induction false} AcyclicClimbs(h: Heads, i: int, passed: set<int>)
    requires ValidHeads(h) && Acyclic(h) && Position(h, i)
    requires forall x :: x in passed ==> 0 <= x < |h| && ProperlyUnder(h, x, i)
    ensures Under(h, i, -1)
    decreases (set x | 0 <= x < |h| && Position(h, x)) - passed
  {
    if i == -1 {
      UnderSelf(h, i);
    } else {
      forall k: nat ensures Up(h, h[i], k) != i {
        assert Up(h, i, k + 1) == Up(h, h[i], k);
      }
      assert i !in passed;
      UnderSelf(h, h[i]);
      forall x | x in passed
        ensures ProperlyUnder(h, x, h[i])
      {
        UnderHead(h, i, h[i]);
        UnderTrans(h, h[x], i, h[i]);
      }
      AcyclicClimbs(h, h[i], passed + {i});
      UnderHead(h, i, -1);
    }
  }

  lemma AcyclicIsRooted(h: Heads)
    requires ValidHeads(h) && Acyclic(h)
    ensures Rooted(h)
  {
    forall i | 0 <= i < |h|
      ensures Under(h, i, -1)
    {
      AcyclicClimbs(h, i, {});
    }
  }

  /** Having no cycle and climbing to the root everywhere are the same condition. */
  lemma RootedIffAcyclic(h: Heads)
    requires ValidHeads(h)
    ensures Rooted(h) <==> Acyclic(h)
  {
    if Rooted(h) {
      RootedIsAcyclic(h);
    }
    if Acyclic(h) {
      AcyclicIsRooted(h);
    }
  }

  // ----- Moving one token to a new head -----

  lemma {:induction false} RehangOffPath(h: Heads, t: int, u: int, i: int)
    requires Rooted(h) && 0 <= t < |h| && Position(h, u) && Position(h, i)
    requires !Under(h, i, t)
    ensures Under(h[t := u], i, -1)
    decreases Depth(h, i)
  {
    var h' := h[t := u];
    if i == -1 {
      UnderSelf(h', -1);
    } else {
      UnderHead(h, i, t);
      DepthStep(h, i);
      RehangOffPath(h, t, u, h[i]);
      UnderHead(h', i, -1);
    }
  }

  lemma {:induction false} RehangClimbs(h: Heads, t: int, u: int, i: int)
    requires Rooted(h) && 0 <= t < |h| && Position(h, u) && Position(h, i)
    requires !Under(h, u, t)
    ensures Under(h[t := u], i, -1)
    decreases Depth(h, i)
  {
    var h' := h[t := u];
    if i == -1 {
      UnderSelf(h', -1);
    } else if i == t {
      RehangOffPath(h, t, u, u);
      UnderHead(h', t, -1);
    } else {
      DepthStep(h, i);
      RehangClimbs(h, t, u, h[i]);
      UnderHead(h', i, -1);
    }
  }

  /** Moving t below a token that is not under t keeps the graph rooted. */
  lemma Rehang(h: Heads, t: int, u: int)
    requires Rooted(h) && 0 <= t < |h| && Position(h, u)
    requires !Under(h, u, t)
    ensures Rooted(h[t := u])
  {
    var h' := h[t := u];
    forall i | 0 <= i < |h'|
      ensures Under(h', i, -1)
    {
      RehangClimbs(h, t, u, i);
    }
  }

  // ----- The key property of projective trees -----

  /** Every token strictly under an arc is a descendant of the arc's head. */
  lemma {:induction false} CoveredIsDescendant(h: Heads, d: int, m: int)
    requires Rooted(h) && Projective(h)
    requires 0 <= d < |h| && Lo(h, d) < m < Hi(h, d)
    ensures Under(h, m, h[d])
    decreases Depth(h, m)
  {
    assert !Cross(h, d, m) && !Cross(h, m, d);
    DepthStep(h, m);
    UnderHead(h, m, h[d]);
    UnderSelf(h, h[d]);
    if h[m] == d {
      UnderHead(h, d, h[d]);
    } else if h[m] != h[d] {
      CoveredIsDescendant(h, d, h[m]);
    }
  }
}
