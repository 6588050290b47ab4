/** Which root token every token hangs under, and how the tokens under one root token lie. */
module RootYields {
  import opened HeadGraph

  /** The last token on the way from i to the artificial root. */
  ghost function RootToken(h: Heads, i: int): (r: int)
    requires Rooted(h) && 0 <= i < |h|
    ensures 0 <= r < |h| && h[r] == -1
    decreases Depth(h, i)
  {
    DepthStep(h, i);
    if h[i] == -1 then i else RootToken(h, h[i])
  }

  /** The tokens under each root token form an interval of positions. */
  ghost predicate RootYieldsAreIntervals(h: Heads)
    requires Rooted(h)
  {
    forall i, j, k :: 0 <= i < j < k < |h| && RootToken(h, i) == RootToken(h, k) ==> RootToken(h, j) == RootToken(h, i)
  }

  lemma YieldHolds(h: Heads, i: int, j: int, k: int)
    requires Rooted(h) && RootYieldsAreIntervals(h)
    requires 0 <= i < j < k < |h| && RootToken(h, i) == RootToken(h, k)
    ensures RootToken(h, j) == RootToken(h, i)
  {
  }

  predicate SameRoots(g: Heads, h: Heads) {
    |g| == |h| && forall i :: 0 <= i < |h| ==> (g[i] == -1 <==> h[i] == -1)
  }

  /** A token shares its root token with all its ancestors among the tokens. */
  lemma {:induction false} AncestorsShareRoot(h: Heads, i: int, k: nat)
    requires Rooted(h) && 0 <= i < |h| && Up(h, i, k) != -1
    ensures RootToken(h, Up(h, i, k)) == RootToken(h, i)
    decreases k
  {
    if k > 0 {
      AncestorsShareRoot(h, h[i], k - 1);
    }
  }

  /** In a projective tree, what lies between a token and its root token hangs under the same root token. */
  lemma {:induction false} BetweenSharesRoot(h: Heads, i: int, j: int)
    requires Rooted(h) && Projective(h) && 0 <= i < |h|
    requires i < j < RootToken(h, i) || RootToken(h, i) < j < i
    ensures RootToken(h, j) == RootToken(h, i)
    decreases Depth(h, i)
  {
    DepthStep(h, i);
    if Lo(h, i) < j < Hi(h, i) {
      CoveredIsDescendant(h, i, j);
      var k: nat :| Up(h, j, k) == h[i];
      AncestorsShareRoot(h, j, k);
    } else if j != h[i] {
      BetweenSharesRoot(h, h[i], j);
    }
  }

  lemma ProjectiveYieldsAreIntervals(h: Heads)
    requires Rooted(h) && Projective(h)
    ensures RootYieldsAreIntervals(h)
  {
    forall i, j, k | 0 <= i < j < k < |h| && RootToken(h, i) == RootToken(h, k)
      ensures RootToken(h, j) == RootToken(h, i)
    {
      var r := RootToken(h, i);
      if j < r {
        BetweenSharesRoot(h, i, j);
      } else if j > r {
        BetweenSharesRoot(h, k, j);
      }
    }
  }

  /** A single root token leaves only one yield. */
  lemma SingleYieldIsInterval(h: Heads, r: int)
    requires Rooted(h) && forall i :: 0 <= i < |h| && h[i] == -1 ==> i == r
    ensures RootYieldsAreIntervals(h)
  {
  }
}
