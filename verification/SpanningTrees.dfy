/** Enumerating all spanning trees or forests of a complete digraph by counting in base n. */
module SpanningTrees {
  import opened ParentForest

  // ----- What is enumerated -----

  ghost predicate AllUnder(s: Parents, r: nat)
    requires Forest(s)
  {
    forall x: nat :: x < |s| ==> Root(s, x) == r
  }

  ghost predicate SingleRooted(s: Parents)
    requires Forest(s)
  {
    exists r: nat :: r < |s| && AllUnder(s, r)
  }

  /** A spanning forest, or a spanning tree if only one root is wanted. */
  ghost predicate Spans(s: Parents, forest: bool) {
    Forest(s) && (forest || SingleRooted(s))
  }

  ghost function Roots(s: Parents): set<nat> {
    set x: nat | x < |s| && IsRoot(s, x)
  }

  lemma OneRootIffSingleRooted(s: Parents)
    requires Forest(s)
    ensures |Roots(s)| == 1 <==> SingleRooted(s)
  {
    if |Roots(s)| == 1 {
      var r :| r in Roots(s);
      assert |Roots(s) - {r}| == 0;
      forall x: nat | x < |s| ensures Root(s, x) == r {
        assert Root(s, x) in Roots(s);
        assert Root(s, x) !in Roots(s) - {r};
      }
      assert AllUnder(s, r);
    }
    if SingleRooted(s) {
      var r: nat :| r < |s| && AllUnder(s, r);
      forall x: nat | x < |s| && IsRoot(s, x) ensures x == r {
        assert Root(s, x) == r;
      }
      assert Root(s, r) == r;
      assert Roots(s) == {r};
    }
  }

  /** A cycle longer than a self-loop. */
  ghost predicate OnCycle(s: Parents, x: nat)
    requires InRange(s)
  {
    x < |s| && !IsRoot(s, x) && exists k: nat :: k > 0 && Climb(s, x, k) == x
  }

  lemma CycleHasNoRoot(s: Parents, x: nat)
    requires InRange(s) && OnCycle(s, x)
    ensures !Forest(s)
  {
    if Forest(s) {
      var k: nat :| k > 0 && Climb(s, x, k) == x;
      ClimbCloser(s, x, k);
    }
  }

  /** A path upwards that repeats no node. */
  ghost predicate Trail(s: Parents, path: seq<nat>)
    requires InRange(s)
  {
    && (forall m :: 0 <= m < |path| ==> path[m] < |s|)
    && (forall m :: 0 <= m < |path| - 1 ==> path[m + 1] == s[path[m]])
    && (forall m, j :: 0 <= m < j < |path| ==> path[m] != path[j])
  }

  lemma TrailExtends(s: Parents, path: seq<nat>, x: nat)
    requires InRange(s) && Trail(s, path) && x < |s| && x !in path
    requires path != [] ==> x == s[path[|path| - 1]]
    ensures Trail(s, path + [x])
  {
    assert forall m :: 0 <= m < |path| ==> path[m] in path;
  }

  lemma RootEndsTrail(s: Parents, path: seq<nat>, m: nat)
    requires InRange(s) && Trail(s, path) && m < |path|
    ensures IsRoot(s, path[m]) ==> m == |path| - 1
  {
    if m + 1 < |path| {
      assert path[m] != path[m + 1];
    }
  }

  /** The path consists of new nodes only and stops at a root or just below a searched node. */
  ghost predicate Ends(s: Parents, path: seq<nat>, initial: nat, searched: seq<bool>)
    requires InRange(s) && Trail(s, path) && initial < |s| == |searched|
  {
    && (forall x :: x in path ==> !searched[x])
    && if path == [] then searched[initial]
       else path[0] == initial && (var last := path[|path| - 1]; IsRoot(s, last) || searched[s[last]])
  }

  lemma {:induction false} TrailClimbs(s: Parents, path: seq<nat>, m: nat, j: nat)
    requires InRange(s) && Trail(s, path) && m + j < |path|
    ensures Climb(s, path[m], j) == path[m + j]
    decreases j
  {
    if j > 0 {
      TrailClimbs(s, path, m + 1, j - 1);
    }
  }

  lemma {:induction false} ClimbOneMore(s: Parents, x: nat, k: nat)
    requires InRange(s) && x < |s|
    ensures Climb(s, x, k + 1) == s[Climb(s, x, k)]
    decreases k
  {
    if k > 0 {
      ClimbOneMore(s, s[x], k - 1);
    }
  }

  lemma RevisitIsCycle(s: Parents, path: seq<nat>, current: nat)
    requires InRange(s) && Trail(s, path) && path != [] && current == s[path[|path| - 1]]
    requires current in path && !IsRoot(s, current)
    ensures OnCycle(s, current)
  {
    var m :| 0 <= m < |path| && path[m] == current;
    TrailClimbs(s, path, m, |path| - 1 - m);
    ClimbOneMore(s, current, |path| - 1 - m);
  }

  lemma TrailReachesRoot(s: Parents, path: seq<nat>, initial: nat, searched: seq<bool>)
    requires InRange(s) && Trail(s, path) && initial < |s| == |searched| && Ends(s, path, initial, searched)
    requires forall x: nat :: x < |s| && searched[x] ==> HasRoot(s, x)
    ensures forall x :: x in path ==> HasRoot(s, x)
  {
    var m: nat := |path|;
    while m > 0
      invariant m <= |path| && forall j: nat :: m <= j < |path| ==> HasRoot(s, path[j])
    {
      m := m - 1;
      var x := path[m];
      if IsRoot(s, x) {
        assert Climb(s, x, 0) == x;
      } else {
        if m + 1 < |path| {
          assert path[m + 1] == s[x];
        }
        assert HasRoot(s, s[x]);
        var k: nat :| IsRoot(s, Climb(s, s[x], k));
        assert Climb(s, x, k + 1) == Climb(s, s[x], k);
      }
    }
  }

  // ----- Source lists as base-n numbers, least significant digit first -----

  predicate Digits(s: seq<nat>, base: nat) {
    forall i :: 0 <= i < |s| ==> s[i] < base
  }

  function Value(s: seq<nat>, base: nat): nat {
    if s == [] then 0 else s[0] + base * Value(s[1..], base)
  }

  lemma {:induction false} ValueInjective(s: seq<nat>, t: seq<nat>, base: nat)
    requires |s| == |t| && Digits(s, base) && Digits(t, base) && Value(s, base) == Value(t, base)
    ensures s == t
  {
    if s != [] {
      var a, b := Value(s[1..], base), Value(t[1..], base);
      DigitsUnique(s[0], a, t[0], b, base);
      ValueInjective(s[1..], t[1..], base);
      assert s == [s[0]] + s[1..] && t == [t[0]] + t[1..];
    }
  }

  lemma DigitsUnique(d: nat, a: nat, e: nat, b: nat, base: nat)
    requires d < base && e < base && d + base * a == e + base * b
    ensures d == e && a == b
  {
    if a < b {
      MulStep(base, a, b);
    } else if b < a {
      MulStep(base, b, a);
    }
  }

  lemma MulStep(base: nat, a: nat, b: nat)
    requires a < b
    ensures base * a + base <= base * b
  {
    var c := b - a - 1;
    assert b == a + 1 + c && base * b == base * a + base + base * c;
  }

  lemma {:induction false} FullIsLargest(s: seq<nat>, t: seq<nat>, base: nat)
    requires base > 0 && |s| == |t| && Digits(t, base) && forall i :: 0 <= i < |s| ==> s[i] == base - 1
    ensures Value(t, base) <= Value(s, base)
  {
    if s != [] {
      FullIsLargest(s[1..], t[1..], base);
      var v, w := Value(t[1..], base), Value(s[1..], base);
      if v < w {
        MulStep(base, v, w);
      }
    }
  }

  lemma {:induction false} ZeroIsSmallest(s: seq<nat>, base: nat)
    requires forall i :: 0 <= i < |s| ==> s[i] == 0
    ensures Value(s, base) == 0
  {
    if s != [] {
      ZeroIsSmallest(s[1..], base);
    }
  }

  /** t is s with the first i digits carried over and the next one increased. */
  predicate Carried(s: seq<nat>, t: seq<nat>, i: nat, base: nat) {
    && i < |s| == |t| && t[i] == s[i] + 1
    && (forall j :: 0 <= j < i ==> s[j] == base - 1 && t[j] == 0)
    && (forall j :: i < j < |s| ==> t[j] == s[j])
  }

  lemma MulSuccessor(base: nat, v: nat)
    ensures base * (v + 1) == base * v + base
  {
  }

  lemma {:induction false} CarryAddsOne(s: seq<nat>, t: seq<nat>, i: nat, base: nat)
    requires base > 0 && Carried(s, t, i, base)
    ensures Value(t, base) == Value(s, base) + 1
    decreases i
  {
    if i == 0 {
      assert s[1..] == t[1..];
    } else {
      CarryAddsOne(s[1..], t[1..], i - 1, base);
      MulSuccessor(base, Value(s[1..], base));
    }
  }

  lemma {:induction false} ValueBelowLimit(s: seq<nat>, base: nat)
    requires Digits(s, base)
    ensures Value(s, base) <= Value(seq(|s|, _ => base), base)
  {
    if s != [] {
      var full := seq(|s|, _ => base);
      assert full[1..] == seq(|s| - 1, _ => base);
      ValueBelowLimit(s[1..], base);
      MulGrows(base, Value(s[1..], base), Value(full[1..], base));
    }
  }

  lemma MulGrows(base: nat, v: nat, w: nat)
    requires v <= w
    ensures base * v <= base * w
  {
    if v < w {
      MulStep(base, v, w);
    }
  }

  ghost function Number(s: Parents): nat {
    Value(s, |s|)
  }

  ghost function Left(s: Parents): int {
    Number(seq(|s|, _ => |s|)) - Number(s)
  }

  /** b comes after a in counting order and no tree lies strictly between them. */
  ghost predicate Between(a: Parents, b: Parents, forest: bool) {
    && |a| == |b| && Number(a) < Number(b)
    && forall t: Parents :: |t| == |a| && Spans(t, forest) ==> Number(t) <= Number(a) || Number(b) <= Number(t)
  }

  /** No tree comes after a and up to b. */
  ghost predicate Skipped(a: Parents, b: Parents, forest: bool) {
    && |a| == |b| && Number(a) <= Number(b)
    && forall t: Parents :: |t| == |a| && Spans(t, forest) ==> Number(t) <= Number(a) || Number(b) < Number(t)
  }

  lemma CountingStep(a: Parents, b: Parents, c: Parents, forest: bool)
    requires Skipped(a, b, forest) && |c| == |b| && InRange(c) && Number(c) == Number(b) + 1
    ensures 0 <= Left(c) < Left(b) && Between(a, c, forest)
    ensures !Spans(c, forest) ==> Skipped(a, c, forest)
  {
    ValueBelowLimit(c, |c|);
    forall t: Parents | |t| == |a| && Spans(t, forest) && Number(t) == Number(c) ensures t == c {
      ValueInjective(t, c, |c|);
    }
  }

  lemma SkippedToTheEnd(a: Parents, b: Parents, forest: bool)
    requires Skipped(a, b, forest) && IsLast(b)
    ensures NoneAfter(a, forest)
  {
  }

  ghost predicate NoneAfter(s: Parents, forest: bool) {
    forall t: Parents :: |t| == |s| && Spans(t, forest) ==> Number(t) <= Number(s)
  }

  ghost predicate IsLast(s: Parents) {
    forall t: Parents :: |t| == |s| && InRange(t) ==> Number(t) <= Number(s)
  }

  lemma RootCountRejects(s: Parents, forest: bool)
    requires InRange(s) && |s| > 0
    requires if forest then |Roots(s)| == 0 else |Roots(s)| != 1
    ensures !Spans(s, forest)
  {
    if Forest(s) {
      OneRootIffSingleRooted(s);
      assert Root(s, 0) in Roots(s);
    }
  }

  /** The next source list in counting order, or false after the last one. */
  method NextSourceList(sources: array<nat>) returns (more: bool)
    requires InRange(sources[..])
    modifies sources
    ensures InRange(sources[..])
    ensures more ==> Number(sources[..]) == Number(old(sources[..])) + 1
    ensures more ==> exists i: nat :: Carried(old(sources[..]), sources[..], i, sources.Length)
    ensures !more ==> IsLast(old(sources[..]))
    ensures !more ==> forall i :: 0 <= i < sources.Length ==> old(sources[i]) == sources.Length - 1
  {
    var n := sources.Length;
    ghost var s := sources[..];
    for i := 0 to n
      invariant forall j :: 0 <= j < i ==> s[j] == n - 1 && sources[j] == 0
      invariant forall j :: i <= j < n ==> sources[j] == s[j]
    {
      sources[i] := sources[i] + 1;
      if sources[i] < n {
        assert Carried(s, sources[..], i, n);
        CarryAddsOne(s, sources[..], i, n);
        return true;
      }
      sources[i] := 0;
    }
    forall t: Parents | |t| == n && InRange(t) ensures Number(t) <= Number(s) {
      if n > 0 {
        FullIsLargest(s, t, n);
      }
    }
    return false;
  }

  /** At the last place where they differ, s has the smaller parent. */
  predicate Precedes(s: Parents, t: Parents) {
    |s| == |t| && exists k :: 0 <= k < |s| && s[k] < t[k] && s[k + 1..] == t[k + 1..]
  }

  lemma {:induction false} SmallerPrecedes(s: seq<nat>, t: seq<nat>, base: nat)
    requires |s| == |t| && Digits(s, base) && Digits(t, base) && Value(s, base) < Value(t, base)
    ensures Precedes(s, t)
  {
    var a, b := Value(s[1..], base), Value(t[1..], base);
    if a < b {
      SmallerPrecedes(s[1..], t[1..], base);
      var k :| 0 <= k < |s| - 1 && s[1..][k] < t[1..][k] && s[1..][k + 1..] == t[1..][k + 1..];
      assert s[k + 1] < t[k + 1] && s[k + 1 + 1..] == s[1..][k + 1..] && t[k + 1 + 1..] == t[1..][k + 1..];
    } else if a == b {
      ValueInjective(s[1..], t[1..], base);
      assert s[0] < t[0] && s[0 + 1..] == t[0 + 1..];
    } else {
      MulStep(base, b, a);
      assert false;
    }
  }

  /** The list holds exactly the trees up to the last one, in counting order. */
  ghost predicate Listed(visited: seq<Parents>, last: Parents, forest: bool) {
    && |visited| > 0 && visited[|visited| - 1] == last
    && (forall i :: 0 <= i < |visited| ==> |visited[i]| == |last|)
    && (forall i, j :: 0 <= i < j < |visited| ==> Number(visited[i]) < Number(visited[j]))
    && (|last| > 0 ==>
          forall t: Parents :: t in visited <==> |t| == |last| && Spans(t, forest) && Number(t) <= Number(last))
  }

  lemma ListedGrows(visited: seq<Parents>, last: Parents, next: Parents, forest: bool)
    requires Listed(visited, last, forest) && Spans(next, forest) && Between(last, next, forest)
    ensures Listed(visited + [next], next, forest)
  {
    forall t: Parents | |t| == |last| && Spans(t, forest) && Number(t) == Number(next) ensures t == next {
      ValueInjective(t, next, |next|);
    }
  }

  lemma ListedIsComplete(visited: seq<Parents>, last: Parents, forest: bool)
    requires Listed(visited, last, forest) && NoneAfter(last, forest)
    ensures |last| > 0 ==> forall t :: t in visited <==> |t| == |last| && Spans(t, forest)
    ensures |last| > 0 ==> forall i, j :: 0 <= i < j < |visited| ==> Precedes(visited[i], visited[j])
  {
    if |last| > 0 {
      forall i, j | 0 <= i < j < |visited| ensures Precedes(visited[i], visited[j]) {
        assert visited[i] in visited && visited[j] in visited;
        SmallerPrecedes(visited[i], visited[j], |last|);
      }
    }
  }

  lemma LeftShrinks(a: Parents, b: Parents, forest: bool)
    requires Between(a, b, forest) && InRange(b)
    ensures 0 <= Left(b) < Left(a)
  {
    ValueBelowLimit(b, |b|);
  }

  lemma ZeroIsTree(s: Parents, forest: bool)
    requires forall x :: 0 <= x < |s| ==> s[x] == 0
    ensures Listed([s], s, forest) && InRange(s)
  {
    ZeroIsSmallest(s, |s|);
    if |s| > 0 {
      forall x: nat | x < |s| ensures HasRoot(s, x) {
        assert Climb(s, x, 1) == Climb(s, 0, 0);
      }
      forall x: nat | x < |s| ensures Root(s, x) == 0 {
        assert Climb(s, x, 1) == Climb(s, 0, 0);
        ClimbToRoot(s, x, 1);
      }
      assert AllUnder(s, 0);
      forall t: Parents | |t| == |s| && Spans(t, forest) && Number(t) <= Number(s) ensures t == s {
        ValueInjective(t, s, |s|);
      }
    }
  }

  method NumRoots(s: Parents) returns (count: nat)
    ensures count == |Roots(s)|
  {
    count := 0;
    ghost var found: set<nat> := {};
    for node := 0 to |s|
      invariant found == set x: nat | x < node && IsRoot(s, x)
      invariant count == |found|
    {
      if node == s[node] {
        found := found + {node};
        count := count + 1;
      }
    }
    assert found == Roots(s);
  }

  class SpanningTreeIterator {
    const forest: bool
    var searched: seq<bool>
    var visiting: seq<bool>

    constructor (forest: bool)
      ensures this.forest == forest
    {
      this.forest := forest;
      searched, visiting := [], [];
    }

    /** Searches upwards from every node. The flags tell nodes known to reach a root from
        nodes on the current path. */
    method HasCycle(s: Parents) returns (found: bool)
      requires InRange(s)
      modifies this
      ensures found <==> exists x: nat :: OnCycle(s, x)
      ensures found <==> !Forest(s)
    {
      searched := seq(|s|, _ => false);
      visiting := seq(|s|, _ => false);
      for initial := 0 to |s|
        invariant |searched| == |visiting| == |s|
        invariant forall x: nat :: x < |s| && searched[x] ==> HasRoot(s, x)
        invariant forall x: nat :: x < |s| ==> !visiting[x]
        invariant forall x: nat :: x < initial ==> searched[x]
      {
        ghost var path;
        found, path := SearchUp(s, initial);
        if found {
          ghost var x: nat :| OnCycle(s, x);
          CycleHasNoRoot(s, x);
          return;
        }
        TrailReachesRoot(s, path, initial, searched);
        MarkSearched(s, initial, path);
      }
      forall x: nat | x < |s| ensures !OnCycle(s, x) {
        assert Forest(s);
        if OnCycle(s, x) {
          CycleHasNoRoot(s, x);
        }
      }
      return false;
    }

    method SearchUp(s: Parents, initial: nat) returns (found: bool, ghost path: seq<nat>)
      requires InRange(s) && initial < |s| == |searched| == |visiting|
      requires forall x: nat :: x < |s| ==> !visiting[x]
      modifies this`visiting
      ensures |visiting| == |s|
      ensures found ==> exists x: nat :: OnCycle(s, x)
      ensures !found ==> Trail(s, path) && Ends(s, path, initial, searched)
      ensures !found ==> forall x: nat :: x < |s| ==> (visiting[x] <==> x in path)
    {
      var current: nat := initial;
      path := [];
      ghost var unseen := set x: nat | x < |s| && !visiting[x];
      while true
        invariant |visiting| == |s| && current < |s| && Trail(s, path)
        invariant if path == [] then current == initial else path[0] == initial && current == s[path[|path| - 1]]
        invariant forall x :: x in path ==> !IsRoot(s, x) && !searched[x]
        invariant forall x: nat :: x < |s| ==> (visiting[x] <==> x in path)
        invariant unseen == set x: nat | x < |s| && !visiting[x]
        decreases unseen
      {
        if searched[current] {
          return false, path;
        }
        if visiting[current] {
          RevisitIsCycle(s, path, current);
          return true, path;
        }
        TrailExtends(s, path, current);
        visiting := visiting[current := true];
        path := path + [current];
        unseen := unseen - {current};
        var source := s[current];
        if source == current {
          return false, path;
        }
        current := source;
      }
    }

    method MarkSearched(s: Parents, initial: nat, ghost path: seq<nat>)
      requires InRange(s) && initial < |s| == |searched| == |visiting|
      requires Trail(s, path) && Ends(s, path, initial, searched)
      requires forall x: nat :: x < |s| ==> (visiting[x] <==> x in path)
      modifies this
      ensures |searched| == |visiting| == |s|
      ensures forall x: nat :: x < |s| ==> (searched[x] <==> old(searched)[x] || x in path)
      ensures forall x: nat :: x < |s| ==> !visiting[x]
      ensures searched[initial]
    {
      var current: nat := initial;
      ghost var j: nat := 0;
      while true
        invariant |searched| == |visiting| == |s| && current < |s| && j <= |path|
        invariant if j < |path| then current == path[j] else searched[current]
        invariant forall m :: 0 <= m < j ==> searched[path[m]] && !visiting[path[m]]
        invariant forall m :: j <= m < |path| ==> !searched[path[m]]
        invariant forall x: nat :: x < |s| && x !in path ==> searched[x] == old(searched)[x] && !visiting[x]
        decreases |path| - j
      {
        if searched[current] {
          break;
        }
        searched := searched[current := true];
        visiting := visiting[current := false];
        RootEndsTrail(s, path, j);
        j := j + 1;
        var source := s[current];
        if source == current {
          break;
        }
        current := source;
      }
      assert j == |path|;
    }

    /** Advances to the next tree in counting order, skipping everything that is not a tree. */
    method NextTree(sources: array<nat>) returns (more: bool)
      requires InRange(sources[..])
      modifies this, sources
      ensures InRange(sources[..])
      ensures more ==> Spans(sources[..], forest)
      ensures more ==> Between(old(sources[..]), sources[..], forest)
      ensures !more ==> NoneAfter(old(sources[..]), forest)
    {
      ghost var start := sources[..];
      while true
        invariant InRange(sources[..]) && Skipped(start, sources[..], forest)
        decreases Left(sources[..])
      {
        ghost var before := sources[..];
        more := NextSourceList(sources);
        if !more {
          SkippedToTheEnd(start, before, forest);
          return;
        }
        CountingStep(start, before, sources[..], forest);
        var numRoots := NumRoots(sources[..]);
        if if forest then numRoots == 0 else numRoots != 1 {
          RootCountRejects(sources[..], forest);
          continue;
        }
        var cyclic := HasCycle(sources[..]);
        if cyclic {
          continue;
        }
        OneRootIffSingleRooted(sources[..]);
        return;
      }
    }

    /** The trees passed to the functor, in order. */
    method ForEachTree(numNodes: nat) returns (visited: seq<Parents>)
      modifies this
      ensures numNodes > 0 ==> forall t :: t in visited <==> |t| == numNodes && Spans(t, forest)
      ensures forall i, j :: 0 <= i < j < |visited| ==> Precedes(visited[i], visited[j])
      ensures numNodes == 0 ==> visited == [[]]
    {
      var sources := new nat[numNodes](_ => 0);
      ZeroIsTree(sources[..], forest);
      visited := [sources[..]];
      while true
        invariant InRange(sources[..]) && Listed(visited, sources[..], forest)
        invariant fresh(sources) && (numNodes == 0 ==> visited == [[]])
        decreases Left(sources[..])
      {
        ghost var before := sources[..];
        var more := NextTree(sources);
        if !more {
          ListedIsComplete(visited, before, forest);
          return;
        }
        LeftShrinks(before, sources[..], forest);
        ListedGrows(visited, before, sources[..], forest);
        visited := visited + [sources[..]];
      }
    }
  }
}
