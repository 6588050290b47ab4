/**
 The two document filters applied to a training corpus: the cycle check and the
 in-place projectivizer.
 */
module DocumentFilters {
  import opened HeadGraph
  import opened RootYields

  // ----- WellFormedFilter -----

  /** The walk from i passes x within its first k steps. */
  ghost predicate OnPath(h: Heads, i: int, k: nat, x: int)
    requires ValidHeads(h) && Position(h, i)
  {
    exists m: nat :: m < k && Up(h, i, m) == x
  }

  lemma OnPathGrows(h: Heads, i: int, k: nat, x: int)
    requires ValidHeads(h) && Position(h, i)
    ensures OnPath(h, i, k + 1, x) <==> OnPath(h, i, k, x) || x == Up(h, i, k)
  {
    if OnPath(h, i, k + 1, x) {
      var m: nat :| m < k + 1 && Up(h, i, m) == x;
      assert m < k || x == Up(h, i, k);
    }
  }

  lemma RevisitIsCycle(h: Heads, i: int, k: nat, t: int)
    requires ValidHeads(h) && Position(h, i)
    requires 0 <= t < |h| && Up(h, i, k) == t && OnPath(h, i, k, t)
    ensures !Acyclic(h)
  {
    var m: nat :| m < k && Up(h, i, m) == t;
    UpAdd(h, i, m, k - m);
    assert Up(h, t, k - m) == t;
  }

  lemma PathClimbsFurther(h: Heads, i: int, k: nat, x: int)
    requires ValidHeads(h) && Position(h, i) && Position(h, x)
    requires OnPath(h, i, k, x) && Under(h, Up(h, i, k), -1)
    ensures Under(h, x, -1)
  {
    var m: nat :| m < k && Up(h, i, m) == x;
    UpAdd(h, i, m, k - m);
    assert Under(h, x, Up(h, i, k));
    UnderTrans(h, x, Up(h, i, k), -1);
  }

  /** Keeps exactly the acyclic documents, or all of them if malformed ones are wanted. */
  method ShouldKeep(h: Heads, keepMalformed: bool) returns (keep: bool)
    requires ValidHeads(h)
    ensures keep <==> keepMalformed || Acyclic(h)
  {
    var visited := seq(|h|, _ => -1);
    for i := 0 to |h|
      invariant |visited| == |h|
      invariant forall j :: 0 <= j < |h| ==> -1 <= visited[j] < i
      invariant forall j :: 0 <= j < |h| && visited[j] != -1 ==> Under(h, j, -1)
      invariant forall j :: 0 <= j < i ==> visited[j] != -1
    {
      if visited[i] != -1 {
        continue;
      }
      var t := i;
      ghost var k: nat := 0;
      ghost var unseen := set j | 0 <= j < |h| && visited[j] == -1;
      while t != -1
        invariant |visited| == |h| && Position(h, t) && t == Up(h, i, k)
        invariant forall j :: 0 <= j < |h| ==> -1 <= visited[j] <= i
        invariant forall j :: 0 <= j < |h| && -1 < visited[j] < i ==> Under(h, j, -1)
        invariant forall j :: 0 <= j < |h| ==> (visited[j] == i <==> OnPath(h, i, k, j))
        invariant forall j :: 0 <= j < i ==> visited[j] != -1
        invariant k > 0 ==> visited[i] != -1
        invariant unseen == set j | 0 <= j < |h| && visited[j] == -1
        decreases unseen
      {
        if visited[t] == -1 {
          visited := visited[t := i];
          unseen := unseen - {t};
        } else if visited[t] < i {
          break;
        } else {
          RevisitIsCycle(h, i, k, t);
          return keepMalformed;
        }
        forall j | 0 <= j < |h|
          ensures visited[j] == i <==> OnPath(h, i, k + 1, j)
        {
          OnPathGrows(h, i, k, j);
        }
        UpAdd(h, i, k, 1);
        t := h[t];
        k := k + 1;
      }
      UnderSelf(h, -1);
      forall j | 0 <= j < |h| && visited[j] == i
        ensures Under(h, j, -1)
      {
        PathClimbsFurther(h, i, k, j);
      }
    }
    RootedIffAcyclic(h);
    return true;
  }

  // ----- ProjectivizeFilter: one lift -----

  /** Token i hangs from a real head and its arc crosses another arc. */
  ghost predicate Crossing(h: Heads, i: int)
    requires 0 <= i < |h|
  {
    h[i] != -1 && exists j :: 0 <= j < |h| && (Cross(h, i, j) || Cross(h, j, i))
  }

  /** Two crossing arcs never both hang from the artificial root. */
  lemma CrossingIffNotProjective(h: Heads)
    requires ValidHeads(h)
    ensures Projective(h) <==> forall i :: 0 <= i < |h| ==> !Crossing(h, i)
  {
    if !Projective(h) {
      var i, j :| 0 <= i < |h| && 0 <= j < |h| && Cross(h, i, j);
      assert Crossing(h, j);
    }
  }

  function Lift(h: Heads, d: int): Heads
    requires ValidHeads(h) && 0 <= d < |h| && h[d] != -1
  {
    h[d := h[h[d]]]
  }

  lemma LiftKeepsRooted(h: Heads, d: int)
    requires Rooted(h) && 0 <= d < |h| && h[d] != -1
    ensures Rooted(Lift(h, d))
  {
    NoReturn(h, d);
    UnderHead(h, h[d], d);
    Rehang(h, d, h[h[d]]);
  }

  /** Moving d from its head to its head's head raises d and everything under it by exactly one level. */
  lemma {:induction false} LiftRaisesByOne(h: Heads, d: int, i: int)
    requires Rooted(h) && 0 <= d < |h| && h[d] != -1 && Position(h, i)
    requires Rooted(Lift(h, d))
    ensures Depth(Lift(h, d), i) == Depth(h, i) - if Under(h, i, d) then 1 else 0
    decreases Depth(h, i)
  {
    if i != -1 {
      var h' := Lift(h, d);
      DepthStep(h, i);
      DepthStep(h', i);
      UnderHead(h, i, d);
      if i == d {
        DepthStep(h, h[d]);
        NoReturn(h, d);
        UnderHead(h, h[d], d);
        LiftRaisesByOne(h, d, h[h[d]]);
      } else {
        LiftRaisesByOne(h, d, h[i]);
      }
    }
  }

  ghost function DepthSum(h: Heads, n: nat): nat
    requires Rooted(h) && n <= |h|
  {
    if n == 0 then 0 else DepthSum(h, n - 1) + Depth(h, n - 1)
  }

  lemma {:induction false} LiftLowersDepthSum(h: Heads, d: int, n: nat)
    requires Rooted(h) && 0 <= d < |h| && h[d] != -1 && n <= |h|
    requires Rooted(Lift(h, d))
    ensures DepthSum(Lift(h, d), n) <= DepthSum(h, n)
    ensures d < n ==> DepthSum(Lift(h, d), n) < DepthSum(h, n)
  {
    if n > 0 {
      LiftLowersDepthSum(h, d, n - 1);
      LiftRaisesByOne(h, d, n - 1);
      UnderSelf(h, n - 1);
    }
  }

  /** Every head of h is a proper ancestor, in g, of its token (the root counts as one). */
  ghost predicate LiftedFrom(g: Heads, h: Heads)
    requires ValidHeads(g)
  {
    |h| == |g| && forall i :: 0 <= i < |g| ==> ProperlyUnder(g, i, h[i])
  }

  lemma LiftStaysLifted(g: Heads, h: Heads, d: int)
    requires ValidHeads(g) && ValidHeads(h) && LiftedFrom(g, h)
    requires 0 <= d < |h| && h[d] != -1
    ensures LiftedFrom(g, Lift(h, d))
  {
    UnderHead(g, h[d], h[h[d]]);
    UnderTrans(g, g[d], h[d], h[h[d]]);
  }

  /** r is the only token that hangs from the artificial root. */
  predicate SingleRoot(h: Heads, r: int) {
    0 <= r < |h| && forall i :: 0 <= i < |h| ==> (h[i] == -1 <==> i == r)
  }

  ghost predicate DeepestCrossing(h: Heads, d: int)
    requires Rooted(h)
  {
    && 0 <= d < |h| && Crossing(h, d)
    && forall i :: 0 <= i < |h| && Crossing(h, i) ==> Depth(h, i) <= Depth(h, d)
  }

  // ----- ProjectivizeFilter: finding the arc to lift -----

  predicate Covers(h: Heads, i: int, j: int)
    requires 0 <= i < |h|
  {
    Lo(h, i) < j < Hi(h, i)
  }

  /** left holds the rightmost left end of the first n arcs over each token. */
  ghost predicate TightLeft(h: Heads, n: nat, left: seq<int>)
    requires n <= |h|
  {
    && |left| == |h|
    && (forall i, j :: 0 <= i < n && 0 <= j < |h| && Covers(h, i, j) ==> Lo(h, i) <= left[j])
    && forall j :: 0 <= j < |h| ==> left[j] == -1 || exists i :: 0 <= i < n && Covers(h, i, j) && left[j] == Lo(h, i)
  }

  /** right holds the leftmost right end of the first n arcs over each token. */
  ghost predicate TightRight(h: Heads, n: nat, right: seq<int>)
    requires n <= |h|
  {
    && |right| == |h|
    && (forall i, j :: 0 <= i < n && 0 <= j < |h| && Covers(h, i, j) ==> right[j] <= Hi(h, i))
    && forall j :: 0 <= j < |h| ==>
         right[j] == |h| - 1 || exists i :: 0 <= i < n && Covers(h, i, j) && right[j] == Hi(h, i)
  }

  /** left and right are the tightest arc ends over each token, among the first n arcs. */
  ghost predicate TightBounds(h: Heads, n: nat, left: seq<int>, right: seq<int>)
    requires n <= |h|
  {
    TightLeft(h, n, left) && TightRight(h, n, right)
  }

  method ArcBounds(h: Heads) returns (left: seq<int>, right: seq<int>)
    requires ValidHeads(h)
    ensures TightBounds(h, |h|, left, right)
  {
    left, right := seq(|h|, _ => -1), seq(|h|, _ => |h| - 1);
    for i := 0 to |h|
      invariant TightBounds(h, i, left, right)
    {
      var l, r := Lo(h, i), Hi(h, i);
      ghost var left0, right0 := left, right;
      var j := l + 1;
      while j < r
        invariant l < j && (j <= r || l == r) && |left| == |right| == |h|
        invariant forall q :: 0 <= q < |h| ==>
                                left[q] == if l < q < r && q < j && left0[q] < l then l else left0[q]
        invariant forall q :: 0 <= q < |h| ==>
                                right[q] == if l < q < r && q < j && right0[q] > r then r else right0[q]
      {
        if left[j] < l { left := left[j := l]; }
        if right[j] > r { right := right[j := r]; }
        j := j + 1;
      }
      LeftBoundsStep(h, i, left0, left);
      RightBoundsStep(h, i, right0, right);
    }
  }

  lemma LeftBoundsStep(h: Heads, i: nat, left0: seq<int>, left: seq<int>)
    requires ValidHeads(h) && i < |h| && TightLeft(h, i, left0) && |left| == |h|
    requires forall q :: 0 <= q < |h| ==>
                           left[q] == if Covers(h, i, q) && left0[q] < Lo(h, i) then Lo(h, i) else left0[q]
    ensures TightLeft(h, i + 1, left)
  {
    forall j | 0 <= j < |h|
      ensures left[j] == -1 || exists q :: 0 <= q < i + 1 && Covers(h, q, j) && left[j] == Lo(h, q)
    {
      if left[j] == left0[j] && left0[j] != -1 {
        var q :| 0 <= q < i && Covers(h, q, j) && left[j] == Lo(h, q);
      }
    }
  }

  lemma RightBoundsStep(h: Heads, i: nat, right0: seq<int>, right: seq<int>)
    requires ValidHeads(h) && i < |h| && TightRight(h, i, right0) && |right| == |h|
    requires forall q :: 0 <= q < |h| ==>
                           right[q] == if Covers(h, i, q) && right0[q] > Hi(h, i) then Hi(h, i) else right0[q]
    ensures TightRight(h, i + 1, right)
  {
    forall j | 0 <= j < |h|
      ensures right[j] == |h| - 1 || exists q :: 0 <= q < i + 1 && Covers(h, q, j) && right[j] == Hi(h, q)
    {
      if right[j] == right0[j] && right0[j] != |h| - 1 {
        var q :| 0 <= q < i && Covers(h, q, j) && right[j] == Hi(h, q);
      }
    }
  }

  predicate ExceedsBounds(h: Heads, left: seq<int>, right: seq<int>, i: int)
    requires ValidHeads(h) && |left| == |right| == |h|
    requires 0 <= i < |h| && h[i] != -1
  {
    var l, r := Lo(h, i), Hi(h, i);
    l < left[l] || l < left[r] || r > right[l] || r > right[r]
  }

  /** Exceeding the bounds of an end is the same as crossing an arc. */
  lemma ExceedsIffCrossing(h: Heads, left: seq<int>, right: seq<int>, i: int)
    requires ValidHeads(h) && TightBounds(h, |h|, left, right)
    requires 0 <= i < |h| && h[i] != -1
    ensures ExceedsBounds(h, left, right, i) <==> Crossing(h, i)
  {
    var l, r := Lo(h, i), Hi(h, i);
    if ExceedsBounds(h, left, right, i) {
      var e := if l < left[l] || r > right[l] then l else r;
      var q :| 0 <= q < |h| && Covers(h, q, e) && (l < Lo(h, q) || Hi(h, q) < r);
      assert Cross(h, i, q) || Cross(h, q, i);
    }
    if Crossing(h, i) {
      var q :| 0 <= q < |h| && (Cross(h, i, q) || Cross(h, q, i));
      assert Covers(h, q, l) || Covers(h, q, r);
    }
  }

  /** The number of tokens met on the way to the root. */
  method CountDepth(h: Heads, i: int) returns (depth: nat)
    requires Rooted(h) && Position(h, i)
    ensures depth == Depth(h, i)
  {
    depth := 0;
    var j := i;
    while j != -1
      invariant Position(h, j) && depth + Depth(h, j) == Depth(h, i)
      decreases Depth(h, j)
    {
      DepthStep(h, j);
      depth := depth + 1;
      j := h[j];
    }
  }

  /** The first of the deepest crossing arcs. */
  ghost predicate FirstDeepest(h: Heads, d: int)
    requires Rooted(h)
  {
    DeepestCrossing(h, d) && forall i :: 0 <= i < d && Crossing(h, i) ==> Depth(h, i) < Depth(h, d)
  }

  /** The first of the deepest crossing arcs, or -1 when the heads are projective. */
  method FindDeepestCrossing(h: Heads) returns (deepest: int)
    requires Rooted(h)
    ensures deepest == -1 <==> Projective(h)
    ensures deepest != -1 ==> FirstDeepest(h, deepest)
  {
    var left, right := ArcBounds(h);
    deepest := -1;
    var maxDepth: int := -1;
    for i := 0 to |h|
      invariant deepest == -1 ==> maxDepth == -1 && forall j :: 0 <= j < i ==> !Crossing(h, j)
      invariant deepest != -1 ==> 0 <= deepest < i && Crossing(h, deepest) && maxDepth == Depth(h, deepest)
      invariant forall j :: 0 <= j < i && Crossing(h, j) ==> Depth(h, j) <= maxDepth
      invariant forall j :: 0 <= j < deepest && Crossing(h, j) ==> Depth(h, j) < maxDepth
    {
      if h[i] == -1 {
        continue;
      }
      ExceedsIffCrossing(h, left, right, i);
      if ExceedsBounds(h, left, right, i) {
        var depth := CountDepth(h, i);
        if depth > maxDepth {
          deepest, maxDepth := i, depth;
        }
      }
    }
    CrossingIffNotProjective(h);
  }

  // ----- ProjectivizeFilter: the whole loop -----

  /** The heads after lifting the first of the deepest crossing arcs until there is none. */
  ghost function Projectivized(h: Heads): Heads
    requires Rooted(h)
    decreases DepthSum(h, |h|)
  {
    if d :| FirstDeepest(h, d) then
      LiftKeepsRooted(h, d);
      LiftLowersDepthSum(h, d, |h|);
      Projectivized(Lift(h, d))
    else h
  }

  lemma ProjectivizedStep(h: Heads, d: int)
    requires Rooted(h) && FirstDeepest(h, d)
    ensures Rooted(Lift(h, d)) && Projectivized(h) == Projectivized(Lift(h, d))
  {
    LiftKeepsRooted(h, d);
    forall e | FirstDeepest(h, e) ensures e == d {
    }
  }

  // ----- ProjectivizeFilter: the loop as a sequence of documents -----

  /** From h to g token d has moved up to an ancestor, so far that it and all that is under it are one level less
      deep, and no other head has changed. */
  ghost predicate RaisedOnce(h: Heads, d: int, g: Heads)
    requires Rooted(h) && 0 <= d < |h|
  {
    && |g| == |h| && Rooted(g) && (forall i :: 0 <= i < |h| && i != d ==> g[i] == h[i])
    && ProperlyUnder(h, d, g[d])
    && forall i :: 0 <= i < |h| ==> Depth(g, i) == Depth(h, i) - if Under(h, i, d) then 1 else 0
  }

  /** Moving up by one level determines the new heads. */
  lemma RaisedOnceIsLift(h: Heads, d: int, g: Heads)
    requires Rooted(h) && 0 <= d < |h| && h[d] != -1 && RaisedOnce(h, d, g)
    ensures g == Lift(h, d)
  {
    var k: nat :| Up(h, h[d], k) == g[d];
    NoReturn(h, d);
    if Under(h, g[d], d) {
      UnderTrans(h, h[d], g[d], d);
    }
    UnderSelf(h, d);
    DepthStep(h, d);
    DepthStep(h, h[d]);
    DepthStep(g, d);
    AncestorsAreShallower(h, h[d], k);
    assert k == 1 ==> Up(h, h[d], k) == Up(h, h[h[d]], 0);
  }

  lemma LiftIsRaisedOnce(h: Heads, d: int)
    requires Rooted(h) && 0 <= d < |h| && h[d] != -1
    ensures RaisedOnce(h, d, Lift(h, d))
  {
    LiftKeepsRooted(h, d);
    UnderSelf(h, h[h[d]]);
    UnderHead(h, h[d], h[h[d]]);
    forall i | 0 <= i < |h| ensures Depth(Lift(h, d), i) == Depth(h, i) - if Under(h, i, d) then 1 else 0 {
      LiftRaisesByOne(h, d, i);
    }
  }

  /** The first of the deepest crossing tokens of h has moved up by one level. */
  ghost predicate Raises(h: Heads, g: Heads) {
    Rooted(h) && exists d :: FirstDeepest(h, d) && RaisedOnce(h, d, g)
  }

  /** The steps lead from h to g. */
  ghost predicate Raising(steps: seq<Heads>, h: Heads, g: Heads) {
    && steps != [] && steps[0] == h && steps[|steps| - 1] == g
    && forall k :: 0 < k < |steps| ==> Raises(steps[k - 1], steps[k])
  }

  ghost predicate RaisedTo(h: Heads, g: Heads) {
    exists steps :: Raising(steps, h, g)
  }

  lemma {:induction false} ProjectivizedIsRaised(h: Heads) returns (steps: seq<Heads>)
    requires Rooted(h)
    ensures Raising(steps, h, Projectivized(h))
    decreases DepthSum(h, |h|)
  {
    var d := FindFirstDeepest(h, |h|);
    if d == -1 {
      steps := [h];
    } else {
      ProjectivizedStep(h, d);
      LiftLowersDepthSum(h, d, |h|);
      LiftIsRaisedOnce(h, d);
      var rest := ProjectivizedIsRaised(Lift(h, d));
      assert Raises(h, rest[0]);
      steps := [h] + rest;
    }
  }

  lemma {:induction false} RaisedIsProjectivized(steps: seq<Heads>, h: Heads, g: Heads)
    requires Rooted(h) && Raising(steps, h, g) && Projective(g)
    ensures g == Projectivized(h)
  {
    if |steps| == 1 {
      CrossingIffNotProjective(h);
    } else {
      assert Raises(steps[0], steps[1]);
      var d :| FirstDeepest(h, d) && RaisedOnce(h, d, steps[1]);
      RaisedOnceIsLift(h, d, steps[1]);
      ProjectivizedStep(h, d);
      forall k | 0 < k < |steps| - 1 ensures Raises(steps[1..][k - 1], steps[1..][k]) {
        assert Raises(steps[k + 1 - 1], steps[k + 1]);
      }
      RaisedIsProjectivized(steps[1..], steps[1], g);
    }
  }

  /** The projectivized document is the projective one that is reached by raising, time after time, the first of the
      deepest crossing tokens by one level. */
  lemma ProjectivizedIffRaised(h: Heads, g: Heads)
    requires Rooted(h)
    ensures g == Projectivized(h) <==> RaisedTo(h, g) && Projective(g)
  {
    var steps := ProjectivizedIsRaised(h);
    ProjectivizedIsProjective(h);
    if RaisedTo(h, g) && Projective(g) {
      var others :| Raising(others, h, g);
      RaisedIsProjectivized(others, h, g);
    }
  }

  // ----- ProjectivizeFilter: what becomes of the roots -----

  /** A lift that makes no new root changes no token's root token. */
  lemma {:induction false} LiftKeepsRootTokens(h: Heads, d: int, i: int)
    requires Rooted(h) && 0 <= d < |h| && h[d] != -1 && h[h[d]] != -1 && 0 <= i < |h|
    requires Rooted(Lift(h, d))
    ensures RootToken(Lift(h, d), i) == RootToken(h, i)
    decreases Depth(Lift(h, d), i)
  {
    var h' := Lift(h, d);
    DepthStep(h', i);
    if h'[i] != -1 {
      LiftKeepsRootTokens(h, d, h'[i]);
    }
  }

  lemma LiftKeepsYields(h: Heads, d: int)
    requires Rooted(h) && 0 <= d < |h| && h[d] != -1 && h[h[d]] != -1
    requires Rooted(Lift(h, d))
    ensures RootYieldsAreIntervals(Lift(h, d)) <==> RootYieldsAreIntervals(h)
  {
    forall i | 0 <= i < |h| ensures RootToken(Lift(h, d), i) == RootToken(h, i) {
      LiftKeepsRootTokens(h, d, i);
    }
  }

  /** If the tokens under each root token form an interval, arcs that cross hang under one root token,
      so the deepest of them does not hang directly from it. */
  lemma DeepestIsNotBelowARoot(h: Heads, d: int)
    requires Rooted(h) && RootYieldsAreIntervals(h) && DeepestCrossing(h, d)
    ensures h[h[d]] != -1
  {
    if h[h[d]] == -1 {
      var r := h[d];
      var j :| 0 <= j < |h| && (Cross(h, d, j) || Cross(h, j, d));
      assert RootToken(h, d) == RootToken(h, r) == r;
      if h[j] == -1 {
        YieldHolds(h, Lo(h, d), j, Hi(h, d));
      } else {
        assert Crossing(h, j);
        DepthStep(h, d);
        DepthStep(h, r);
        DepthStep(h, j);
        DepthStep(h, h[j]);
        assert RootToken(h, j) == RootToken(h, h[j]) == h[j];
        if Cross(h, d, j) {
          YieldHolds(h, Lo(h, d), Lo(h, j), Hi(h, d));
        } else {
          YieldHolds(h, Lo(h, j), Lo(h, d), Hi(h, j));
        }
      }
    }
  }

  /** The first of the deepest among the first n arcs, if any of them crosses another. */
  lemma {:induction false} FindFirstDeepest(h: Heads, n: nat) returns (d: int)
    requires Rooted(h) && n <= |h|
    ensures d == -1 ==> forall i :: 0 <= i < n ==> !Crossing(h, i)
    ensures d != -1 ==> 0 <= d < n && Crossing(h, d)
    ensures d != -1 ==> forall i :: 0 <= i < n && Crossing(h, i) ==> Depth(h, i) <= Depth(h, d)
    ensures d != -1 ==> forall i :: 0 <= i < d && Crossing(h, i) ==> Depth(h, i) < Depth(h, d)
  {
    if n == 0 {
      d := -1;
    } else {
      d := FindFirstDeepest(h, n - 1);
      if Crossing(h, n - 1) && (d == -1 || Depth(h, d) < Depth(h, n - 1)) {
        d := n - 1;
      }
    }
  }

  /** Lifting ends in a projective tree that has all the roots of the given one. */
  lemma {:induction false} ProjectivizedIsProjective(h: Heads)
    requires Rooted(h)
    ensures |Projectivized(h)| == |h| && Rooted(Projectivized(h)) && Projective(Projectivized(h))
    ensures forall i :: 0 <= i < |h| && h[i] == -1 ==> Projectivized(h)[i] == -1
    decreases DepthSum(h, |h|)
  {
    var d := FindFirstDeepest(h, |h|);
    if d == -1 {
      CrossingIffNotProjective(h);
    } else {
      ProjectivizedStep(h, d);
      LiftLowersDepthSum(h, d, |h|);
      ProjectivizedIsProjective(Lift(h, d));
    }
  }

  /** Lifting makes no new root if and only if the tokens under each root token form an interval. */
  lemma {:induction false} RootsStayIffIntervals(h: Heads)
    requires Rooted(h)
    ensures SameRoots(Projectivized(h), h) <==> RootYieldsAreIntervals(h)
    decreases DepthSum(h, |h|)
  {
    ProjectivizedIsProjective(h);
    var d := FindFirstDeepest(h, |h|);
    if d == -1 {
      ProjectiveYieldsAreIntervals(Projectivized(h));
    } else {
      var h' := Lift(h, d);
      ProjectivizedStep(h, d);
      ProjectivizedIsProjective(h');
      LiftLowersDepthSum(h, d, |h|);
      if h[h[d]] == -1 {
        assert h'[d] == -1;
        if RootYieldsAreIntervals(h) {
          DeepestIsNotBelowARoot(h, d);
        }
      } else {
        RootsStayIffIntervals(h');
        LiftKeepsYields(h, d);
      }
    }
  }

  /** A single root stays the single root. */
  lemma SingleRootStays(h: Heads, r: int)
    requires Rooted(h) && SingleRoot(h, r)
    ensures SingleRoot(Projectivized(h), r)
  {
    SingleYieldIsInterval(h, r);
    RootsStayIffIntervals(h);
  }

  /** Lifts the deepest crossing arc until no arcs cross, or rejects the document. */
  method Process(heads: array<int>, discardNonProjective: bool) returns (kept: bool)
    requires Rooted(heads[..])
    modifies heads
    ensures kept <==> !discardNonProjective || Projective(old(heads[..]))
    ensures kept ==> Rooted(heads[..]) && Projective(heads[..]) && heads[..] == Projectivized(old(heads[..]))
    ensures kept ==> RaisedTo(old(heads[..]), heads[..])
    ensures !kept || Projective(old(heads[..])) ==> heads[..] == old(heads[..])
    ensures LiftedFrom(old(heads[..]), heads[..])
    ensures forall r :: SingleRoot(old(heads[..]), r) ==> SingleRoot(heads[..], r)
    ensures kept ==> (SameRoots(heads[..], old(heads[..])) <==> RootYieldsAreIntervals(old(heads[..])))
  {
    ghost var given := heads[..];
    RootsStayIffIntervals(given);
    ProjectivizedIffRaised(given, Projectivized(given));
    forall r | SingleRoot(given, r) ensures SingleRoot(Projectivized(given), r) {
      SingleRootStays(given, r);
    }
    assert LiftedFrom(given, heads[..]) by {
      forall i | 0 <= i < |given| ensures ProperlyUnder(given, i, given[i]) {
        UnderSelf(given, given[i]);
      }
    }
    while true
      invariant Rooted(heads[..]) && LiftedFrom(given, heads[..]) && Projectivized(heads[..]) == Projectivized(given)
      invariant Projective(given) || discardNonProjective ==> heads[..] == given
      decreases DepthSum(heads[..], heads.Length)
    {
      var d := FindDeepestCrossing(heads[..]);
      if d == -1 {
        CrossingIffNotProjective(heads[..]);
        return true;
      }
      if discardNonProjective {
        return false;
      }
      ghost var h := heads[..];
      ProjectivizedStep(h, d);
      LiftLowersDepthSum(h, d, |h|);
      LiftStaysLifted(given, h, d);
      var liftedHead := heads[heads[d]];
      heads[d] := liftedHead;
      assert heads[..] == Lift(h, d);
    }
  }

  /** Two roots with one token each. */
  lemma TwoPairs(h: Heads)
    requires h == [-1, -1, 0, 1]
    ensures Rooted(h) && Depth(h, 2) == Depth(h, 3) == 2
    ensures RootToken(h, 0) == RootToken(h, 2) != RootToken(h, 1)
  {
    assert Up(h, 0, 1) == -1 && Up(h, 1, 1) == -1;
    assert Up(h, 2, 2) == Up(h, 0, 1) && Up(h, 3, 2) == Up(h, 1, 1);
    DepthStep(h, 0);
    DepthStep(h, 1);
    DepthStep(h, 2);
    DepthStep(h, 3);
  }

  lemma OnePair(h: Heads)
    requires h == [-1, -1, -1, 1]
    ensures Rooted(h)
  {
    assert Up(h, 0, 1) == -1 && Up(h, 1, 1) == -1 && Up(h, 2, 1) == -1;
    assert Up(h, 3, 2) == Up(h, 1, 1);
  }

  /** Tokens 2 and 3 hang under the roots 0 and 1 and cross. */
  lemma FirstLiftMakesARoot(h: Heads)
    requires h == [-1, -1, 0, 1]
    ensures Rooted(h) && !RootYieldsAreIntervals(h) && FirstDeepest(h, 2) && Lift(h, 2) == [-1, -1, -1, 1]
  {
    TwoPairs(h);
    assert Cross(h, 2, 3);
  }

  /** Token 3 now crosses the arc of the new root. */
  lemma SecondLiftMakesARoot(h: Heads)
    requires h == [-1, -1, -1, 1]
    ensures Rooted(h) && FirstDeepest(h, 3) && Lift(h, 3) == [-1, -1, -1, -1]
  {
    OnePair(h);
    assert Cross(h, 2, 3);
  }

  /** With several roots new ones can appear: here two tokens are lifted to the artificial root. */
  lemma SeveralRootsMayGrow(h: Heads)
    requires h == [-1, -1, 0, 1]
    ensures Rooted(h) && !RootYieldsAreIntervals(h) && Projectivized(h) == [-1, -1, -1, -1]
  {
    FirstLiftMakesARoot(h);
    ProjectivizedStep(h, 2);
    var h' := Lift(h, 2);
    SecondLiftMakesARoot(h');
    ProjectivizedStep(h', 3);
    var g := Lift(h', 3);
    assert forall d :: 0 <= d < |g| ==> !Crossing(g, d);
  }
}
