/** Mesh cooking: welding of vertices by position, and a greedy reordering of triangles. */
module MeshCooker {
  import opened Bytes

  const POSITION_SIZE := 12
  const NORMAL_OFFSET := 12
  const NORMAL_SIZE := 12
  const CACHE_SIZE := 16

  // ---------------------------------------------------------------------------------------------
  // Greedy triangle order
  // ---------------------------------------------------------------------------------------------

  type Triangle = (nat, nat, nat)

  function TriangleAt(indices: seq<nat>, t: nat): Triangle
    requires 3 * t + 2 < |indices|
  {
    (indices[3 * t], indices[3 * t + 1], indices[3 * t + 2])
  }

  lemma Corners(indices: seq<nat>, t: nat)
    requires 3 * t + 2 < |indices|
    ensures TriangleAt(indices, t) == (indices[3 * t], indices[3 * t + 1], indices[3 * t + 2])
  {
  }

  /** The FIFO cache after one vertex. */
  function CacheVertex(cache: seq<nat>, v: nat): seq<nat> {
    if v in cache then cache
    else (if |cache| >= CACHE_SIZE then cache[1..] else cache) + [v]
  }

  function CacheTriangle(cache: seq<nat>, t: Triangle): seq<nat> {
    CacheVertex(CacheVertex(CacheVertex(cache, t.0), t.1), t.2)
  }

  function CacheAfter(indices: seq<nat>, order: seq<nat>): seq<nat>
    requires forall t :: t in order ==> t < |indices| / 3
  {
    if order == [] then [] else
      var n := |order| - 1;
      assert order[n] in order && forall t :: t in order[..n] ==> t in order;
      CacheTriangle(CacheAfter(indices, order[..n]), TriangleAt(indices, order[n]))
  }

  predicate DistinctNats(s: seq<nat>) {
    forall i, j :: 0 <= i < j < |s| ==> s[i] != s[j]
  }

  lemma CacheVertexKeeps(cache: seq<nat>, v: nat)
    requires DistinctNats(cache) && |cache| <= CACHE_SIZE
    ensures DistinctNats(CacheVertex(cache, v)) && |CacheVertex(cache, v)| <= CACHE_SIZE && v in CacheVertex(cache, v)
  {
  }

  /** The cache never holds more than its size, and no vertex twice. */
  lemma {:induction false} CacheBounded(indices: seq<nat>, order: seq<nat>)
    requires forall t :: t in order ==> t < |indices| / 3
    ensures DistinctNats(CacheAfter(indices, order)) && |CacheAfter(indices, order)| <= CACHE_SIZE
    decreases |order|
  {
    hide CacheVertex, DistinctNats;
    if order == [] {
      EmptyIsDistinct();
    } else {
      var n := |order| - 1;
      assert order[n] in order && forall t :: t in order[..n] ==> t in order;
      CacheBounded(indices, order[..n]);
      var c, t := CacheAfter(indices, order[..n]), TriangleAt(indices, order[n]);
      CacheVertexKeeps(c, t.0);
      CacheVertexKeeps(CacheVertex(c, t.0), t.1);
      CacheVertexKeeps(CacheVertex(CacheVertex(c, t.0), t.1), t.2);
    }
  }

  lemma EmptyIsDistinct()
    ensures DistinctNats([])
  {
  }

  /** How many corners of a triangle are in the cache. */
  function Score(cache: seq<nat>, t: Triangle): nat {
    (if t.0 in cache then 1 else 0) + (if t.1 in cache then 1 else 0) + (if t.2 in cache then 1 else 0)
  }

  /** The triangles of `order` one behind the other, corners in their order. */
  function Emit(indices: seq<nat>, order: seq<nat>): seq<nat>
    requires forall t :: t in order ==> t < |indices| / 3
  {
    if order == [] then [] else
      var n := |order| - 1;
      assert order[n] in order && forall t :: t in order[..n] ==> t in order;
      var t := order[n];
      Emit(indices, order[..n]) + [indices[3 * t], indices[3 * t + 1], indices[3 * t + 2]]
  }

  predicate IsSelection(order: seq<nat>, n: nat) {
    (forall t :: t in order ==> t < n) && DistinctNats(order)
  }

  /** Each of the `n` triangles exactly once. */
  predicate IsPermutation(order: seq<nat>, n: nat) {
    IsSelection(order, n) && |order| == n && forall t :: 0 <= t < n ==> t in order
  }

  /** The first triangle with the most cache hits among those that are left. */
  ghost predicate IsBest(indices: seq<nat>, order: seq<nat>, t: nat)
    requires IsSelection(order, |indices| / 3) && t < |indices| / 3
  {
    var cache := CacheAfter(indices, order);
    && (forall u :: 0 <= u < |indices| / 3 && u !in order ==>
          Score(cache, TriangleAt(indices, u)) <= Score(cache, TriangleAt(indices, t)))
    && (forall u :: 0 <= u < t && u !in order ==>
          Score(cache, TriangleAt(indices, u)) < Score(cache, TriangleAt(indices, t)))
  }

  /** No triangle that is left has a corner in the cache. */
  ghost predicate NoHit(indices: seq<nat>, order: seq<nat>)
    requires IsSelection(order, |indices| / 3)
  {
    forall u :: 0 <= u < |indices| / 3 && u !in order ==> Score(CacheAfter(indices, order), TriangleAt(indices, u)) == 0
  }

  /** Everything from `from` on, below `to`, is taken. */
  predicate AllTaken(order: seq<nat>, from: nat, to: nat) {
    forall u :: from <= u < to ==> u in order
  }

  /** The first triangle that is left from `from` on, or, when there is none, the first of all. */
  ghost predicate IsNextOpen(order: seq<nat>, n: nat, from: nat, t: nat) {
    (from <= t && AllTaken(order, from, t)) || (AllTaken(order, from, n) && AllTaken(order, 0, t))
  }

  /** What follows `order`: the best triangle, or without any hit the next one that is left behind the last. */
  ghost predicate IsPick(indices: seq<nat>, order: seq<nat>, t: nat)
    requires IsSelection(order, |indices| / 3) && t < |indices| / 3 && order != []
  {
    && t !in order
    && if NoHit(indices, order) then IsNextOpen(order, |indices| / 3, order[|order| - 1] + 1, t)
       else IsBest(indices, order, t)
  }

  lemma PickIsUnique(indices: seq<nat>, order: seq<nat>, t: nat, u: nat)
    requires IsSelection(order, |indices| / 3) && t < |indices| / 3 && u < |indices| / 3 && order != []
    requires IsPick(indices, order, t) && IsPick(indices, order, u)
    ensures t == u
  {
    hide Score, CacheAfter, TriangleAt, IsSelection;
  }

  /** Step `k` takes the triangle that the search has to take. */
  ghost predicate GreedyStep(indices: seq<nat>, order: seq<nat>, k: nat)
    requires IsSelection(order, |indices| / 3) && 0 < k < |order|
  {
    FrontSelects(order, k, |indices| / 3);
    assert order[k] in order;
    IsPick(indices, order[..k], order[k])
  }

  lemma FrontSelects(order: seq<nat>, k: nat, n: nat)
    requires IsSelection(order, n) && k <= |order|
    ensures IsSelection(order[..k], n)
  {
    assert forall t :: t in order[..k] ==> t in order;
  }

  lemma AppendSelects(order: seq<nat>, t: nat, n: nat)
    requires IsSelection(order, n) && t < n && t !in order
    ensures IsSelection(order + [t], n) && (order + [t])[..|order|] == order
  {
  }

  lemma EmitAppend(indices: seq<nat>, order: seq<nat>, t: nat)
    requires IsSelection(order, |indices| / 3) && t < |indices| / 3 && t !in order
    ensures IsSelection(order + [t], |indices| / 3)
    ensures Emit(indices, order + [t])
      == Emit(indices, order) + [indices[3 * t], indices[3 * t + 1], indices[3 * t + 2]]
    ensures CacheAfter(indices, order + [t]) == CacheTriangle(CacheAfter(indices, order), TriangleAt(indices, t))
  {
    hide CacheTriangle, TriangleAt, IsSelection;
    AppendSelects(order, t, |indices| / 3);
    SelectedIsBelow(order, |indices| / 3);
    SelectedIsBelow(order + [t], |indices| / 3);
  }

  lemma SelectedIsBelow(order: seq<nat>, n: nat)
    requires IsSelection(order, n)
    ensures forall t :: t in order ==> t < n
  {
  }

  lemma FrontIsIn(order: seq<nat>)
    ensures order != [] ==> order[0] in order
  {
  }

  lemma {:induction false} SelectionBound(order: seq<nat>, n: nat)
    requires IsSelection(order, n)
    ensures |order| <= n
    ensures (forall t :: 0 <= t < n ==> t in order) ==> |order| == n
    decreases n
  {
    if n == 0 {
      FrontIsIn(order);
    } else if n - 1 in order {
      var i :| 0 <= i < |order| && order[i] == n - 1;
      var rest := order[..i] + order[i + 1..];
      assert forall t :: t in rest ==> t in order && t != n - 1;
      SelectionBound(rest, n - 1);
      assert forall t :: t in order && t != n - 1 ==> t in rest;
    } else {
      SelectionBound(order, n - 1);
    }
  }

  /** The first triangle that is not emitted yet, if there is one. */
  method FirstOpen(emitted: seq<bool>) returns (t: nat)
    ensures t <= |emitted| && (forall u :: 0 <= u < t ==> emitted[u]) && (t < |emitted| ==> !emitted[t])
  {
    t := 0;
    while t < |emitted| && emitted[t]
      invariant t <= |emitted| && forall u :: 0 <= u < t ==> emitted[u]
    {
      t := t + 1;
    }
  }

  /** The scan for the best open triangle; `found` is false when none has a hit. */
  method BestOpen(indices: seq<nat>, emitted: array<bool>, cache: seq<nat>) returns (found: bool, best: nat)
    requires emitted.Length == |indices| / 3
    ensures found ==> best < emitted.Length && !emitted[best] && Score(cache, TriangleAt(indices, best)) > 0
    ensures found ==> forall t :: 0 <= t < emitted.Length && !emitted[t] ==>
      Score(cache, TriangleAt(indices, t)) <= Score(cache, TriangleAt(indices, best))
      && (t < best ==> Score(cache, TriangleAt(indices, t)) < Score(cache, TriangleAt(indices, best)))
    ensures !found ==> forall t :: 0 <= t < emitted.Length && !emitted[t] ==> Score(cache, TriangleAt(indices, t)) == 0
  {
    hide Score, TriangleAt;
    found, best := false, 0;
    var bestScore := 0;
    var t := 0;
    while t < emitted.Length
      invariant t <= emitted.Length
      invariant found ==> best < t && !emitted[best]
      invariant bestScore == if found then Score(cache, TriangleAt(indices, best)) else 0
      invariant found ==> bestScore > 0
      invariant forall u :: 0 <= u < t && !emitted[u] ==>
        Score(cache, TriangleAt(indices, u)) <= bestScore
        && (found && u < best ==> Score(cache, TriangleAt(indices, u)) < bestScore)
    {
      if !emitted[t] {
        var score := Score(cache, TriangleAt(indices, t));
        if score > bestScore {
          bestScore := score;
          found, best := true, t;
        }
      }
      t := t + 1;
    }
  }

  /** Where the search starts: at the best triangle, or without any hit right behind the last one. */
  ghost predicate Promising(indices: seq<nat>, order: seq<nat>, t: nat)
    requires IsSelection(order, |indices| / 3) && order != []
  {
    if NoHit(indices, order) then t == order[|order| - 1] + 1
    else t < |indices| / 3 && t !in order && IsBest(indices, order, t)
  }

  /** Where the search ends. */
  lemma PromisingIsPick(indices: seq<nat>, order: seq<nat>, aimed: nat, t: nat)
    requires IsSelection(order, |indices| / 3) && order != [] && Promising(indices, order, aimed)
    requires t < |indices| / 3 && t !in order && IsNextOpen(order, |indices| / 3, aimed, t)
    ensures IsPick(indices, order, t)
  {
    hide NoHit, IsBest, IsSelection;
  }

  /** The order starts with the first triangle and goes on greedily. */
  ghost predicate Greedy(indices: seq<nat>, order: seq<nat>)
    requires IsSelection(order, |indices| / 3)
  {
    && (order != [] ==> order[0] == 0)
    && forall k :: 0 < k < |order| ==> GreedyStep(indices, order, k)
  }

  /** The result is the triangles in a greedy order. */
  ghost predicate Reorders(indices: seq<nat>, result: seq<nat>, order: seq<nat>) {
    IsPermutation(order, |indices| / 3) && result == Emit(indices, order) && Greedy(indices, order)
  }

  lemma GreedyAppend(indices: seq<nat>, order: seq<nat>, t: nat)
    requires IsSelection(order, |indices| / 3) && t < |indices| / 3 && t !in order
    requires Greedy(indices, order) && if order == [] then t == 0 else IsPick(indices, order, t)
    ensures IsSelection(order + [t], |indices| / 3) && Greedy(indices, order + [t])
  {
    hide IsPick;
    AppendSelects(order, t, |indices| / 3);
    var all := order + [t];
    forall k | 0 < k < |all| ensures GreedyStep(indices, all, k) {
      assert all[..k] == order[..k];
      if k < |order| {
        assert GreedyStep(indices, order, k);
      } else {
        assert order[..k] == order;
      }
    }
  }

  lemma {:induction false} GreedyFronts(indices: seq<nat>, first: seq<nat>, second: seq<nat>, k: nat)
    requires IsPermutation(first, |indices| / 3) && IsPermutation(second, |indices| / 3)
    requires Greedy(indices, first) && Greedy(indices, second) && k <= |first|
    ensures first[..k] == second[..k]
    decreases k
  {
    hide IsPick;
    if k > 0 {
      GreedyFronts(indices, first, second, k - 1);
      var front := first[..k - 1];
      assert first[k - 1] in first && second[k - 1] in second;
      if k > 1 {
        FrontSelects(first, k - 1, |indices| / 3);
        assert GreedyStep(indices, first, k - 1) && GreedyStep(indices, second, k - 1);
        PickIsUnique(indices, front, first[k - 1], second[k - 1]);
      }
      assert first[..k] == front + [first[k - 1]] && second[..k] == front + [second[k - 1]];
    }
  }

  /** The description leaves no choice: the reordered indices follow from the given ones. */
  lemma ReorderIsUnique(indices: seq<nat>, first: seq<nat>, second: seq<nat>, order: seq<nat>, order': seq<nat>)
    requires Reorders(indices, first, order) && Reorders(indices, second, order')
    ensures order == order' && first == second
  {
    hide Greedy, Emit;
    GreedyFronts(indices, order, order', |order|);
    assert order[..|order|] == order && order'[..|order|] == order';
  }

  // ---------------------------------------------------------------------------------------------
  // What the cache holds
  // ---------------------------------------------------------------------------------------------

  /** The last sixteen. */
  function Window(s: seq<nat>): seq<nat> {
    if |s| <= 16 then s else s[|s| - 16..]
  }

  /** The corners that were not among the last sixteen misses when their turn came. */
  function Misses(corners: seq<nat>): seq<nat> {
    if corners == [] then [] else
      var n := |corners| - 1;
      var before := Misses(corners[..n]);
      if corners[n] in Window(before) then before else before + [corners[n]]
  }

  lemma MissesAppend(corners: seq<nat>, v: nat)
    ensures Misses(corners + [v])
      == if v in Window(Misses(corners)) then Misses(corners) else Misses(corners) + [v]
    ensures Window(Misses(corners + [v])) == CacheVertex(Window(Misses(corners)), v)
  {
    assert (corners + [v])[..|corners|] == corners;
  }

  /** First in, first out: the cache holds the last sixteen misses of the corners emitted so far. */
  lemma {:induction false} CacheIsLastMisses(indices: seq<nat>, order: seq<nat>)
    requires forall t :: t in order ==> t < |indices| / 3
    ensures CacheAfter(indices, order) == Window(Misses(Emit(indices, order)))
    decreases |order|
  {
    hide CacheVertex, Window, Misses;
    if order == [] {
      NoMisses();
    } else {
      var n := |order| - 1;
      assert order[n] in order && forall t :: t in order[..n] ==> t in order;
      CacheIsLastMisses(indices, order[..n]);
      var front, t := Emit(indices, order[..n]), TriangleAt(indices, order[n]);
      MissesAppend(front, t.0);
      MissesAppend(front + [t.0], t.1);
      MissesAppend(front + [t.0] + [t.1], t.2);
      assert Emit(indices, order) == front + [t.0] + [t.1] + [t.2];
    }
  }

  lemma NoMisses()
    ensures Window(Misses([])) == []
  {
  }

  /** The score of a triangle is its number of corners in the cache. */
  lemma ScoreCounts(cache: seq<nat>, t: Triangle)
    ensures Score(cache, t) == |set k | 0 <= k < 3 && [t.0, t.1, t.2][k] in cache|
  {
    var hits := set k | 0 <= k < 3 && [t.0, t.1, t.2][k] in cache;
    var a, b, c := if t.0 in cache then {0} else {}, if t.1 in cache then {1} else {}, if t.2 in cache then {2} else {};
    assert hits == a + b + c;
    assert |a + b| == |a| + |b| && |a + b + c| == |a + b| + |c|;
  }

  lemma StartEmpty(indices: seq<nat>)
    ensures Emit(indices, []) == [] && CacheAfter(indices, []) == [] && Greedy(indices, [])
  {
  }

  /** After the scan. */
  lemma ScanIsPromising(indices: seq<nat>, order: seq<nat>, found: bool, best: nat, next: nat)
    requires IsSelection(order, |indices| / 3) && order != []
    requires if found then best < |indices| / 3 && best !in order && next == best else next == order[|order| - 1] + 1
    requires found ==> Score(CacheAfter(indices, order), TriangleAt(indices, best)) > 0 && IsBest(indices, order, best)
    requires !found ==> NoHit(indices, order)
    ensures Promising(indices, order, next)
  {
    hide CacheAfter, IsBest, Score;
  }

  /** The loop that updates the FIFO cache. */
  method UpdateCache(cache: seq<nat>, tri: Triangle) returns (cache': seq<nat>)
    ensures cache' == CacheTriangle(cache, tri)
  {
    cache' := cache;
    var corners := [tri.0, tri.1, tri.2];
    var i := 0;
    while i < 3
      invariant i <= 3
      invariant i == 0 ==> cache' == cache
      invariant i == 1 ==> cache' == CacheVertex(cache, tri.0)
      invariant i == 2 ==> cache' == CacheVertex(CacheVertex(cache, tri.0), tri.1)
      invariant i == 3 ==> cache' == CacheTriangle(cache, tri)
    {
      var v := corners[i];
      if v !in cache' {
        if |cache'| >= CACHE_SIZE {
          cache' := cache'[1..];
        }
        cache' := cache' + [v];
      }
      i := i + 1;
    }
  }

  /**
    `optimize_index_order`: emits every whole triangle exactly once with its corners in order, and after the first
    always one with the most cache hits. Less than one triangle comes back as it is.
  */
  method OptimizeIndexOrder(indices: seq<nat>) returns (result: seq<nat>)
    ensures |indices| < 3 ==> result == indices
    ensures |indices| >= 3 ==> exists order :: Reorders(indices, result, order)
  {
    hide Score, CacheTriangle, Greedy, TriangleAt, Emit, CacheAfter, IsPick, Promising;
    StartEmpty(indices);
    var triCount := |indices| / 3;
    ghost var order: seq<nat> := [];
    if triCount == 0 {
      return indices;
    }
    result := [];
    var emitted := new bool[triCount](i => false);
    var cache: seq<nat> := [];
    var nextTri: nat := 0;
    while true
      invariant emitted.Length == triCount && IsSelection(order, triCount)
      invariant forall t :: 0 <= t < triCount ==> (emitted[t] <==> t in order)
      invariant result == Emit(indices, order) && cache == CacheAfter(indices, order)
      invariant order == [] ==> nextTri == 0
      invariant Greedy(indices, order)
      invariant order != [] ==> Promising(indices, order, nextTri)
      decreases triCount - |order|
    {
      ghost var aimed := nextTri;
      while nextTri < triCount && emitted[nextTri]
        invariant aimed <= nextTri && AllTaken(order, aimed, nextTri)
        decreases triCount - nextTri
      {
        nextTri := nextTri + 1;
      }
      if nextTri >= triCount {
        nextTri := FirstOpen(emitted[..]);
        if nextTri == triCount {
          break;
        }
      }
      assert nextTri !in order;
      assert order == [] ==> nextTri == 0 || 0 in order;
      if order != [] {
        PromisingIsPick(indices, order, aimed, nextTri);
      }
      var tri := (indices[3 * nextTri], indices[3 * nextTri + 1], indices[3 * nextTri + 2]);
      assert tri == TriangleAt(indices, nextTri) by { Corners(indices, nextTri); }
      GreedyAppend(indices, order, nextTri);
      EmitAppend(indices, order, nextTri);
      SelectionBound(order + [nextTri], triCount);
      result := result + [tri.0, tri.1, tri.2];
      emitted[nextTri] := true;
      order := order + [nextTri];
      cache := UpdateCache(cache, tri);
      var found, best := BestOpen(indices, emitted, cache);
      nextTri := if found then best else nextTri + 1;
      ScanIsPromising(indices, order, found, best, nextTri);
    }
    SelectionBound(order, triCount);
    assert Reorders(indices, result, order);
  }
}
