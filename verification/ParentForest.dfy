/** Parent lists over the nodes [0, n), in which roots are self-loops. */
module ParentForest {

  type Parents = seq<nat>

  predicate InRange(p: Parents) {
    forall x :: 0 <= x < |p| ==> p[x] < |p|
  }

  predicate IsRoot(p: Parents, x: nat)
    requires x < |p|
  {
    p[x] == x
  }

  function Climb(p: Parents, x: nat, k: nat): (r: nat)
    requires InRange(p) && x < |p|
    ensures r < |p|
    decreases k
  {
    if k == 0 then x else Climb(p, p[x], k - 1)
  }

  /** The climb from x comes past y. */
  ghost predicate Passes(p: Parents, x: nat, y: nat)
    requires InRange(p) && x < |p|
  {
    exists k: nat :: Climb(p, x, k) == y
  }

  lemma PassesStep(p: Parents, x: nat, y: nat)
    requires InRange(p) && x < |p|
    ensures Passes(p, x, y) <==> y == x || Passes(p, p[x], y)
  {
    assert Climb(p, x, 0) == x;
    if y != x && Passes(p, x, y) {
      var k: nat :| Climb(p, x, k) == y;
      assert Climb(p, p[x], k - 1) == y;
    }
    if Passes(p, p[x], y) {
      var k: nat :| Climb(p, p[x], k) == y;
      assert Climb(p, x, k + 1) == y;
    }
  }

  lemma {:induction false} RootPassesItself(p: Parents, r: nat, k: nat)
    requires InRange(p) && r < |p| && IsRoot(p, r)
    ensures Climb(p, r, k) == r
  {
    if k > 0 {
      RootPassesItself(p, r, k - 1);
    }
  }

  ghost predicate HasRoot(p: Parents, x: nat)
    requires InRange(p) && x < |p|
  {
    exists k: nat :: IsRoot(p, Climb(p, x, k))
  }

  /** Every node climbs to a self-loop, so there is no longer cycle. */
  ghost predicate Forest(p: Parents) {
    InRange(p) && forall x: nat :: x < |p| ==> HasRoot(p, x)
  }

  /** d links lead from x to a root, and no fewer do. */
  ghost predicate Shortest(p: Parents, x: nat, d: nat)
    requires InRange(p) && x < |p|
  {
    IsRoot(p, Climb(p, x, d)) && forall j: nat :: j < d ==> !IsRoot(p, Climb(p, x, j))
  }

  lemma {:induction false} ShortestExists(p: Parents, x: nat, k: nat) returns (d: nat)
    requires InRange(p) && x < |p| && IsRoot(p, Climb(p, x, k))
    ensures Shortest(p, x, d)
    decreases k
  {
    if IsRoot(p, x) {
      d := 0;
      assert Climb(p, x, 0) == x;
    } else {
      d := ShortestExists(p, p[x], k - 1);
      d := d + 1;
    }
  }

  /** The number of links from x up to its root. */
  ghost function Hops(p: Parents, x: nat): (d: nat)
    requires Forest(p) && x < |p|
    ensures d == 0 <==> IsRoot(p, x)
  {
    assert Climb(p, x, 0) == x;
    assert exists d: nat :: Shortest(p, x, d) by {
      assert HasRoot(p, x);
      var k: nat :| IsRoot(p, Climb(p, x, k));
      var d := ShortestExists(p, x, k);
    }
    var d: nat :| Shortest(p, x, d);
    d
  }

  ghost function Root(p: Parents, x: nat): (r: nat)
    requires Forest(p) && x < |p|
    ensures r < |p| && IsRoot(p, r) && (IsRoot(p, x) <==> r == x)
  {
    assert Shortest(p, x, Hops(p, x));
    Climb(p, x, Hops(p, x))
  }

  lemma RootStep(p: Parents, x: nat)
    requires Forest(p) && x < |p| && !IsRoot(p, x)
    ensures Hops(p, x) == 1 + Hops(p, p[x]) && Root(p, x) == Root(p, p[x])
  {
    var d, e := Hops(p, x), Hops(p, p[x]);
    assert Shortest(p, x, d) && Shortest(p, p[x], e);
    assert Climb(p, x, 1 + e) == Climb(p, p[x], e);
    assert Climb(p, p[x], d - 1) == Climb(p, x, d);
  }

  lemma {:induction false} ClimbCloser(p: Parents, x: nat, k: nat)
    requires Forest(p) && x < |p|
    ensures Root(p, Climb(p, x, k)) == Root(p, x)
    ensures Hops(p, Climb(p, x, k)) == if k <= Hops(p, x) then Hops(p, x) - k else 0
    decreases k
  {
    if k > 0 {
      if !IsRoot(p, x) {
        RootStep(p, x);
      }
      ClimbCloser(p, p[x], k - 1);
    }
  }

  /** A climb that ends at a root found the root. */
  lemma ClimbToRoot(p: Parents, x: nat, k: nat)
    requires Forest(p) && x < |p| && IsRoot(p, Climb(p, x, k))
    ensures Root(p, x) == Climb(p, x, k)
  {
    ClimbCloser(p, x, k);
  }
}
