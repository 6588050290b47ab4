/** The disjoint-set forest with path compression and optional union by rank. */
module DisjointSets {
  import opened ParentForest

  // ----- Root maps -----

  /** roots names the root above each element; heights fall along every link. */
  ghost predicate RootMap(p: Parents, roots: seq<nat>, heights: seq<nat>) {
    && |roots| == |heights| == |p|
    && InRange(p)
    && (forall x {:trigger roots[x]} :: 0 <= x < |p| ==> roots[x] < |p| && p[roots[x]] == roots[x])
    && (forall x {:trigger p[x]} :: 0 <= x < |p| && p[x] == x ==> roots[x] == x)
    && (forall x {:trigger p[x]} :: 0 <= x < |p| && p[x] != x ==> roots[x] == roots[p[x]] && heights[p[x]] < heights[x])
  }

  lemma {:induction false} RootMapClimbs(p: Parents, roots: seq<nat>, heights: seq<nat>, x: nat) returns (k: nat)
    requires RootMap(p, roots, heights) && InRange(p) && x < |p|
    ensures Climb(p, x, k) == roots[x]
    decreases heights[x]
  {
    if p[x] == x {
      k := 0;
    } else {
      k := RootMapClimbs(p, roots, heights, p[x]);
      k := k + 1;
    }
  }

  /** A root map gives exactly the roots found by following parents. */
  lemma RootMapIsRoot(p: Parents, roots: seq<nat>, heights: seq<nat>)
    requires RootMap(p, roots, heights)
    ensures Forest(p) && forall x: nat :: x < |p| ==> Root(p, x) == roots[x]
  {
    forall x: nat | x < |p| ensures HasRoot(p, x) {
      var k := RootMapClimbs(p, roots, heights, x);
    }
    forall x: nat | x < |p| ensures Root(p, x) == roots[x] {
      var k := RootMapClimbs(p, roots, heights, x);
      ClimbToRoot(p, x, k);
    }
  }

  lemma {:induction false} RootIsLower(p: Parents, roots: seq<nat>, heights: seq<nat>, x: nat)
    requires RootMap(p, roots, heights) && x < |p|
    ensures p[x] != x ==> heights[roots[x]] < heights[x]
    decreases heights[x]
  {
    if p[x] != x {
      RootIsLower(p, roots, heights, p[x]);
    }
  }

  /** Pointing an element straight at its root changes no root. */
  lemma CompressionKeepsRoots(p: Parents, roots: seq<nat>, heights: seq<nat>, x: nat)
    requires RootMap(p, roots, heights) && x < |p| && p[x] != x
    ensures RootMap(p[x := roots[x]], roots, heights)
  {
    RootIsLower(p, roots, heights, x);
  }

  /** Exactly the elements that the climb from x comes past point at the root, and the others are unchanged. */
  ghost predicate Compresses(p: Parents, q: Parents, x: nat, root: nat)
    requires InRange(p) && x < |p|
  {
    |q| == |p| && forall y {:trigger q[y]} :: 0 <= y < |p| ==> q[y] == if Passes(p, x, y) then root else p[y]
  }

  /** The elements in done already point at the root, and the climb goes on from current. */
  ghost predicate Compressing(p: Parents, q: Parents, x: nat, root: nat, current: nat, done: set<nat>,
                              heights: seq<nat>)
    requires InRange(p) && x < |p| && current < |p| == |heights|
  {
    && |q| == |p| && (forall y {:trigger q[y]} :: 0 <= y < |p| ==> q[y] == if y in done then root else p[y])
    && (forall y {:trigger y in done} :: y in done ==> y < |p| && heights[current] < heights[y])
    && forall y: nat {:trigger Passes(p, x, y)} :: Passes(p, x, y) <==> y in done || Passes(p, current, y)
  }

  lemma CompressOne(p: Parents, q: Parents, x: nat, root: nat, current: nat, done: set<nat>, heights: seq<nat>)
    requires InRange(p) && x < |p| && current < |p| == |heights| && Compressing(p, q, x, root, current, done, heights)
    requires heights[p[current]] < heights[current]
    ensures q[current] == p[current]
    ensures Compressing(p, q[current := root], x, root, p[current], done + {current}, heights)
  {
    forall y: nat ensures Passes(p, current, y) <==> y == current || Passes(p, p[current], y) {
      PassesStep(p, current, y);
    }
  }

  /** An element whose parent is the root ends the climb. */
  lemma CompressLast(p: Parents, q: Parents, x: nat, root: nat, current: nat, done: set<nat>, heights: seq<nat>)
    requires InRange(p) && x < |p| && current < |p| == |heights| && Compressing(p, q, x, root, current, done, heights)
    requires p[current] == root < |p| && p[root] == root
    ensures Compresses(p, q, x, root)
  {
    forall y: nat ensures Passes(p, current, y) <==> y == current || y == root {
      PassesStep(p, current, y);
      PassesOnlyRoot(p, root, y);
    }
  }

  lemma PassesOnlyRoot(p: Parents, root: nat, y: nat)
    requires InRange(p) && root < |p| && p[root] == root
    ensures Passes(p, root, y) <==> y == root
  {
    assert Climb(p, root, 0) == root;
    if Passes(p, root, y) {
      var k: nat :| Climb(p, root, k) == y;
      RootPassesItself(p, root, k);
    }
  }

  function JoinRoots(roots: seq<nat>, loser: nat, winner: nat): (joined: seq<nat>)
    ensures |joined| == |roots|
  {
    seq(|roots|, x requires 0 <= x < |roots| => if roots[x] == loser then winner else roots[x])
  }

  /** Attaching one root to another joins their sets and moves no other element. */
  lemma LinkJoinsRoots(p: Parents, roots: seq<nat>, heights: seq<nat>, loser: nat, winner: nat)
      returns (heights': seq<nat>)
    requires RootMap(p, roots, heights) && loser < |p| && winner < |p| && loser != winner
    requires p[loser] == loser && p[winner] == winner
    ensures RootMap(p[loser := winner], JoinRoots(roots, loser, winner), heights')
  {
    heights' := seq(|p|, x requires 0 <= x < |p| =>
                    if roots[x] == loser then heights[x] + heights[winner] + 1 else heights[x]);
  }

  // ----- The equivalence closure of the unions made -----

  type Pairs = set<(nat, nat)>

  ghost predicate Equivalence(r: Pairs, n: nat) {
    && (forall x: nat :: x < n ==> (x, x) in r)
    && (forall x: nat, y: nat :: (x, y) in r ==> (y, x) in r)
    && (forall x: nat, y: nat, z: nat :: (x, y) in r && (y, z) in r ==> (x, z) in r)
  }

  /** x and y are related by every equivalence over [0, n) that contains the unions. */
  ghost predicate Linked(unions: Pairs, n: nat, x: nat, y: nat) {
    forall r: Pairs {:trigger Equivalence(r, n)} :: Equivalence(r, n) && unions <= r ==> (x, y) in r
  }

  /** Elements share a root exactly when the unions link them. */
  ghost predicate Represents(roots: seq<nat>, unions: Pairs) {
    && (forall x: nat, y: nat :: (x, y) in unions ==> x < |roots| && y < |roots|)
    && (forall x: nat, y: nat {:trigger Linked(unions, |roots|, x, y)} ::
          x < |roots| && y < |roots| ==> (roots[x] == roots[y] <==> Linked(unions, |roots|, x, y)))
  }

  ghost function SameRootPairs(roots: seq<nat>): Pairs {
    set x: nat, y: nat | x < |roots| && y < |roots| && roots[x] == roots[y] :: (x, y)
  }

  lemma SameRootIsEquivalence(roots: seq<nat>)
    ensures Equivalence(SameRootPairs(roots), |roots|)
  {
  }

  lemma InitialSetsAreSingletons(roots: seq<nat>)
    requires forall x :: 0 <= x < |roots| ==> roots[x] == x
    ensures Represents(roots, {})
  {
    SameRootIsEquivalence(roots);
    forall x: nat, y: nat | x < |roots| && y < |roots| && Linked({}, |roots|, x, y)
      ensures roots[x] == roots[y]
    {
      assert (x, y) in SameRootPairs(roots);
    }
  }

  lemma JoinedIsLinked(roots: seq<nat>, unions: Pairs, a: nat, b: nat, x: nat, y: nat)
    requires Represents(roots, unions) && a < |roots| && b < |roots| && x < |roots| && y < |roots|
    requires roots[x] == roots[y] || {roots[x], roots[y]} == {roots[a], roots[b]}
    ensures Linked(unions + {(a, b)}, |roots|, x, y)
  {
    var n := |roots|;
    forall r: Pairs | Equivalence(r, n) && unions + {(a, b)} <= r
      ensures (x, y) in r
    {
      assert (a, b) in r && (b, a) in r;
      if roots[x] == roots[y] {
        assert Linked(unions, n, x, y);
      } else if roots[x] == roots[a] {
        assert Linked(unions, n, x, a) && Linked(unions, n, b, y);
        assert (x, a) in r && (b, y) in r;
        assert (x, b) in r;
      } else {
        assert Linked(unions, n, x, b) && Linked(unions, n, a, y);
        assert (x, b) in r && (a, y) in r;
        assert (x, a) in r;
      }
    }
  }

  lemma JoinedHoldsUnions(roots: seq<nat>, joined: seq<nat>, unions: Pairs, a: nat, b: nat)
    requires Represents(roots, unions) && a < |roots| && b < |roots| && |joined| == |roots|
    requires forall x, y :: 0 <= x < |roots| && 0 <= y < |roots| && roots[x] == roots[y] ==> joined[x] == joined[y]
    requires joined[a] == joined[b]
    ensures unions + {(a, b)} <= SameRootPairs(joined)
  {
    forall e | e in unions + {(a, b)} ensures e in SameRootPairs(joined) {
      assert e == (e.0, e.1);
      if e in unions {
        assert Linked(unions, |roots|, e.0, e.1);
      }
    }
  }

  /** Joining the sets of a and b represents one more union. */
  lemma JoinRepresents(roots: seq<nat>, unions: Pairs, a: nat, b: nat, loser: nat, winner: nat)
    requires Represents(roots, unions) && a < |roots| && b < |roots|
    requires (loser == roots[a] && winner == roots[b]) || (loser == roots[b] && winner == roots[a])
    ensures Represents(JoinRoots(roots, loser, winner), unions + {(a, b)})
  {
    var joined := JoinRoots(roots, loser, winner);
    JoinedHoldsUnions(roots, joined, unions, a, b);
    SameRootIsEquivalence(joined);
    forall x: nat, y: nat | x < |roots| && y < |roots|
      ensures joined[x] == joined[y] <==> Linked(unions + {(a, b)}, |roots|, x, y)
    {
      if joined[x] == joined[y] {
        JoinedIsLinked(roots, unions, a, b, x, y);
      } else {
        assert (x, y) !in SameRootPairs(joined);
      }
    }
  }

  // ----- Ranks -----

  function Pow2(k: nat): nat {
    if k == 0 then 1 else 2 * Pow2(k - 1)
  }

  ghost function Members(roots: seq<nat>, r: nat): set<nat> {
    set x: nat | x < |roots| && roots[x] == r
  }

  /** Ranks rise along links, and a root of rank k has at least 2^k members. */
  ghost predicate Ranked(p: Parents, roots: seq<nat>, ranks: seq<nat>)
    requires InRange(p)
  {
    && |ranks| == |p|
    && (forall x {:trigger p[x]} :: 0 <= x < |p| && p[x] != x ==> ranks[x] < ranks[p[x]])
    && (forall r {:trigger Members(roots, r)} :: 0 <= r < |p| && p[r] == r ==> Pow2(ranks[r]) <= |Members(roots, r)|)
  }

  lemma {:induction false} RankBelowRoot(p: Parents, roots: seq<nat>, heights: seq<nat>, ranks: seq<nat>, x: nat)
    requires RootMap(p, roots, heights) && InRange(p) && Ranked(p, roots, ranks) && x < |p|
    ensures if p[x] == x then ranks[x] == ranks[roots[x]] else ranks[x] < ranks[roots[x]]
    decreases heights[x]
  {
    if p[x] != x {
      RankBelowRoot(p, roots, heights, ranks, p[x]);
    }
  }

  lemma {:induction false} Pow2Grows(j: nat, k: nat)
    requires j <= k
    ensures Pow2(j) <= Pow2(k)
    decreases k
  {
    if j < k {
      Pow2Grows(j, k - 1);
    }
  }

  lemma {:induction false} MembersAreFew(s: set<nat>, n: nat)
    requires forall x :: x in s ==> x < n
    ensures |s| <= n
  {
    if n == 0 {
      assert forall x :: x !in s;
    } else {
      MembersAreFew(s - {n - 1}, n - 1);
    }
  }

  /** No rank exceeds the base-two logarithm of the number of elements. */
  lemma RanksAreLogarithmic(p: Parents, roots: seq<nat>, heights: seq<nat>, ranks: seq<nat>, x: nat)
    requires RootMap(p, roots, heights) && InRange(p) && Ranked(p, roots, ranks) && x < |p|
    ensures Pow2(ranks[x]) <= |p|
  {
    RankBelowRoot(p, roots, heights, ranks, x);
    Pow2Grows(ranks[x], ranks[roots[x]]);
    MembersAreFew(Members(roots, roots[x]), |p|);
  }

  lemma JoinedMembers(roots: seq<nat>, loser: nat, winner: nat, r: nat)
    requires loser != winner && r != loser
    ensures |Members(JoinRoots(roots, loser, winner), r)| ==
            |Members(roots, r)| + if r == winner then |Members(roots, loser)| else 0
  {
    var joined := JoinRoots(roots, loser, winner);
    if r == winner {
      assert Members(joined, r) == Members(roots, r) + Members(roots, loser);
      assert Members(roots, r) !! Members(roots, loser);
    } else {
      assert Members(joined, r) == Members(roots, r);
    }
  }

  /** The root of the merged set: the second one, unless the first has the higher rank. */
  function Survivor(ranks: seq<nat>, byRank: bool, root1: nat, root2: nat): nat
    requires byRank ==> root1 < |ranks| && root2 < |ranks|
  {
    if byRank && ranks[root2] < ranks[root1] then root1 else root2
  }

  function MergedRanks(ranks: seq<nat>, root1: nat, root2: nat): seq<nat>
    requires root1 < |ranks| && root2 < |ranks|
  {
    if ranks[root1] == ranks[root2] then ranks[root2 := ranks[root2] + 1] else ranks
  }

  /** Two roots are linked: without ranks the first hangs under the second; by rank the lower one hangs under the
      higher one, and on a tie the first under the second, whose rank grows. Nothing else changes. */
  predicate Merges(byRank: bool, root1: nat, root2: nat, p: Parents, ranks: seq<nat>, p': Parents, ranks': seq<nat>)
    requires root1 < |p| && root2 < |p| && (byRank ==> |ranks| == |p|)
  {
    if root1 == root2 then p' == p && ranks' == ranks
    else if !byRank then p' == p[root1 := root2] && ranks' == ranks
    else if ranks[root1] > ranks[root2] then p' == p[root2 := root1] && ranks' == ranks
    else if ranks[root1] < ranks[root2] then p' == p[root1 := root2] && ranks' == ranks
    else p' == p[root1 := root2] && ranks' == ranks[root2 := ranks[root2] + 1]
  }

  lemma LinkKeepsRanked(p: Parents, roots: seq<nat>, ranks: seq<nat>, root1: nat, root2: nat)
    requires InRange(p) && Ranked(p, roots, ranks) && |roots| == |p|
    requires root1 < |p| && root2 < |p| && root1 != root2 && p[root1] == root1 && p[root2] == root2
    ensures var winner := Survivor(ranks, true, root1, root2);
            var loser := if winner == root1 then root2 else root1;
            Ranked(p[loser := winner], JoinRoots(roots, loser, winner), MergedRanks(ranks, root1, root2))
  {
    var winner := Survivor(ranks, true, root1, root2);
    var loser := if winner == root1 then root2 else root1;
    var q, joined, ranks' := p[loser := winner], JoinRoots(roots, loser, winner), MergedRanks(ranks, root1, root2);
    forall r | 0 <= r < |p| && q[r] == r ensures Pow2(ranks'[r]) <= |Members(joined, r)| {
      JoinedMembers(roots, loser, winner, r);
    }
  }

  // ----- The data structure -----

  class DisjointSetForest {
    const useUnionByRank: bool
    var size: nat
    var parents: seq<nat>
    var ranks: seq<nat>
    /** The root above each element, a height for each element, and the pairs passed to the
        union operations since the last Init. */
    ghost var roots: seq<nat>
    ghost var heights: seq<nat>
    ghost var unions: Pairs

    ghost predicate Valid()
      reads this
    {
      && size == |parents| && RootMap(parents, roots, heights) && Represents(roots, unions)
      && (useUnionByRank ==> Ranked(parents, roots, ranks))
    }

    constructor (useUnionByRank: bool)
      ensures this.useUnionByRank == useUnionByRank && Valid() && size == 0
    {
      this.useUnionByRank := useUnionByRank;
      size, parents, ranks, roots, heights, unions := 0, [], [], [], [], {};
      new;
      InitialSetsAreSingletons([]);
    }

    method Init(size: nat)
      modifies this
      ensures Valid() && this.size == size && unions == {} && forall x :: 0 <= x < size ==> roots[x] == x
    {
      this.size := size;
      parents := seq(size, i => i);
      if useUnionByRank {
        ranks := seq(size, _ => 0);
      }
      roots, heights, unions := parents, seq(size, _ => 0), {};
      InitialSetsAreSingletons(roots);
      forall r: nat | r < size ensures r in Members(roots, r) {
      }
    }

    /** Climbs to the root of an element. */
    method ClimbToRootOf(element: nat) returns (root: nat)
      requires Valid() && element < size
      ensures root == roots[element]
    {
      var current: nat, parent := element, parents[element];
      while current != parent
        invariant current < size && parent == parents[current] && roots[current] == roots[element]
        decreases heights[current]
      {
        current := parent;
        parent := parents[current];
      }
      root := current;
    }

    /** Points one element at its root, which changes no root and no rank. */
    method PointAtRoot(element: nat, root: nat)
      requires Valid() && element < size && parents[element] != element && root == roots[element]
      modifies this`parents
      ensures Valid() && parents == old(parents)[element := root]
    {
      CompressionKeepsRoots(parents, roots, heights, element);
      if useUnionByRank {
        RankBelowRoot(parents, roots, heights, ranks, element);
      }
      parents := parents[element := root];
    }

    /** The root of the element's set. Shortening its path changes no root and no rank: it points every element on
        the path at the root, and no other element. */
    method FindRoot(element: nat) returns (root: nat)
      requires Valid() && element < size
      modifies this`parents
      ensures Valid() && root == roots[element] == parents[element]
      ensures Compresses(old(parents), parents, element, root)
    {
      assert Compressing(parents, parents, element, roots[element], element, {}, heights);
      PassesStep(parents, element, element);
      var current: nat := element;
      var parent := parents[current];
      if current == parent {
        CompressLast(parents, parents, element, current, current, {}, heights);
        return current;
      }
      current := parent;
      parent := parents[current];
      if current == parent {
        CompressLast(parents, parents, element, current, element, {}, heights);
        return current;
      }
      root := ClimbToRootOf(parent);

      current := element;
      parent := parents[current];
      ghost var given: Parents, done: set<nat> := parents, {};
      while true
        invariant Valid() && current < size && parent == parents[current]
        invariant root == roots[current] == roots[element] && current != root && parent != root
        invariant Compressing(given, parents, element, root, current, done, heights)
        decreases heights[current]
      {
        CompressOne(given, parents, element, root, current, done, heights);
        done := done + {current};
        PointAtRoot(current, root);
        current := parent;
        parent := parents[current];
        if parent == root {
          CompressLast(given, parents, element, root, current, done, heights);
          break;
        }
      }
    }

    method SameSet(element1: nat, element2: nat) returns (same: bool)
      requires Valid() && element1 < size && element2 < size
      modifies this`parents
      ensures Valid() && (same <==> Linked(unions, size, element1, element2))
    {
      var root1 := FindRoot(element1);
      var root2 := FindRoot(element2);
      same := root1 == root2;
      assert same <==> Linked(unions, |roots|, element1, element2);
    }

    /** Makes one of two roots the parent of the other. */
    method Link(loser: nat, winner: nat, ghost a: nat, ghost b: nat)
      requires Valid() && a < size && b < size && loser != winner
      requires (loser == roots[a] && winner == roots[b]) || (loser == roots[b] && winner == roots[a])
      modifies this`parents, this`roots, this`heights, this`unions
      ensures parents == old(parents)[loser := winner] && roots == JoinRoots(old(roots), loser, winner)
      ensures RootMap(parents, roots, heights) && |parents| == size && Represents(roots, unions)
      ensures unions == old(unions) + {(a, b)}
    {
      JoinRepresents(roots, unions, a, b, loser, winner);
      heights := LinkJoinsRoots(parents, roots, heights, loser, winner);
      parents := parents[loser := winner];
      roots := JoinRoots(roots, loser, winner);
      unions := unions + {(a, b)};
    }

    /** Merges the sets of a and b given by their roots; without ranks the second root survives. */
    method UnionOfRoots(root1: nat, root2: nat, ghost a: nat, ghost b: nat)
      requires Valid() && a < size && b < size && root1 == roots[a] && root2 == roots[b]
      modifies this`parents, this`ranks, this`roots, this`heights, this`unions
      ensures Valid() && unions == old(unions) + {(a, b)}
      ensures var winner := Survivor(old(ranks), useUnionByRank, root1, root2);
              roots == JoinRoots(old(roots), if winner == root1 then root2 else root1, winner)
      ensures Merges(useUnionByRank, root1, root2, old(parents), old(ranks), parents, ranks)
    {
      if root1 == root2 {
        JoinRepresents(roots, unions, a, b, root1, root2);
        assert JoinRoots(roots, root1, root2) == roots;
        unions := unions + {(a, b)};
        return;
      }
      if useUnionByRank {
        LinkByRank(root1, root2, a, b);
      } else {
        Link(root1, root2, a, b);
      }
    }

    /** Makes the root of higher rank the parent of the other, and the second one, in a new rank, on a tie. */
    method LinkByRank(root1: nat, root2: nat, ghost a: nat, ghost b: nat)
      requires Valid() && useUnionByRank && a < size && b < size && root1 == roots[a] && root2 == roots[b]
      requires root1 != root2
      modifies this`parents, this`ranks, this`roots, this`heights, this`unions
      ensures Valid() && unions == old(unions) + {(a, b)}
      ensures var winner := Survivor(old(ranks), true, root1, root2);
              roots == JoinRoots(old(roots), if winner == root1 then root2 else root1, winner)
      ensures Merges(true, root1, root2, old(parents), old(ranks), parents, ranks)
    {
      LinkKeepsRanked(parents, roots, ranks, root1, root2);
      var rank1, rank2 := ranks[root1], ranks[root2];
      if rank2 < rank1 {
        Link(root2, root1, a, b);
      } else {
        Link(root1, root2, a, b);
        if rank1 == rank2 {
          ranks := ranks[root2 := rank2 + 1];
        }
      }
    }

    method Union(element1: nat, element2: nat)
      requires Valid() && element1 < size && element2 < size
      modifies this`parents, this`ranks, this`roots, this`heights, this`unions
      ensures Valid() && unions == old(unions) + {(element1, element2)}
      ensures var root1, root2 := old(roots)[element1], old(roots)[element2];
              var winner := Survivor(old(ranks), useUnionByRank, root1, root2);
              roots == JoinRoots(old(roots), if winner == root1 then root2 else root1, winner)
    {
      var root1 := FindRoot(element1);
      var root2 := FindRoot(element2);
      UnionOfRoots(root1, root2, element1, element2);
    }
  }
}
