/** Welding of vertices by position, the normal write-back, and the pipeline that chains them with the reordering. */
module MeshWeld {
  import opened Basics
  import opened Bytes
  import opened MeshCooker

  // ---------------------------------------------------------------------------------------------
  // Interleaved vertex buffers
  // ---------------------------------------------------------------------------------------------

  /** Vertex `i` lies inside the buffer. */
  predicate HasVertex(verts: seq<byte>, stride: nat, i: nat) {
    i * stride + stride <= |verts|
  }

  function VertexAt(verts: seq<byte>, stride: nat, i: nat): (v: seq<byte>)
    requires HasVertex(verts, stride, i)
    ensures |v| == stride
  {
    verts[i * stride..i * stride + stride]
  }

  function PositionAt(verts: seq<byte>, stride: nat, i: nat): (p: seq<byte>)
    requires HasVertex(verts, stride, i) && stride >= POSITION_SIZE
    ensures |p| == 12
  {
    VertexAt(verts, stride, i)[..POSITION_SIZE]
  }

  /** `i < len / stride`, as the source asks. */
  lemma CountIsHas(verts: seq<byte>, stride: nat, i: nat)
    requires stride > 0
    ensures i < |verts| / stride <==> HasVertex(verts, stride, i)
  {
    var q := |verts| / stride;
    assert q * stride <= |verts| < q * stride + stride;
    if i < q {
      MulMono(i + 1, q, stride);
      assert (i + 1) * stride == i * stride + stride;
    } else {
      MulMono(q, i, stride);
    }
  }

  lemma WholeCount(n: nat, stride: nat)
    requires stride > 0
    ensures n * stride / stride == n
  {
    var q := n * stride / stride;
    assert q * stride <= n * stride < q * stride + stride;
    if q < n {
      assert (q + 1) * stride == q * stride + stride;
      MulMono(q + 1, n, stride);
    }
  }

  /** Longer buffers agree with their fronts. */
  lemma VertexInFront(front: seq<byte>, verts: seq<byte>, stride: nat, i: nat)
    requires front <= verts && HasVertex(front, stride, i)
    ensures HasVertex(verts, stride, i) && VertexAt(verts, stride, i) == VertexAt(front, stride, i)
  {
    assert verts[..|front|] == front;
  }

  // ---------------------------------------------------------------------------------------------
  // Welding
  // ---------------------------------------------------------------------------------------------

  /** A welded mesh: `n` whole vertices and the indices into them. */
  datatype Mesh = Mesh(verts: seq<byte>, n: nat, indices: seq<nat>)

  predicate Sized(m: Mesh, stride: nat) {
    |m.verts| == m.n * stride
  }

  lemma SizedHas(m: Mesh, stride: nat, i: nat)
    requires Sized(m, stride) && i < m.n
    ensures HasVertex(m.verts, stride, i)
  {
    MulMono(i + 1, m.n, stride);
    assert (i + 1) * stride == i * stride + stride;
  }

  /** The first of the `n` vertices at `pos`, or `n`. */
  function Find(verts: seq<byte>, stride: nat, n: nat, pos: seq<byte>): (j: nat)
    requires stride >= POSITION_SIZE && n * stride <= |verts|
    ensures j <= n
    ensures j < n ==> HasVertex(verts, stride, j) && PositionAt(verts, stride, j) == pos
    ensures forall i | 0 <= i < j :: HasVertex(verts, stride, i) && PositionAt(verts, stride, i) != pos
    decreases n
  {
    if n == 0 then 0 else
      SmallerFits(verts, stride, n);
      var j := Find(verts, stride, n - 1, pos);
      if j < n - 1 then j
      else if PositionAt(verts, stride, n - 1) == pos then n - 1
      else n
  }

  lemma SmallerFits(verts: seq<byte>, stride: nat, n: nat)
    requires n > 0 && n * stride <= |verts|
    ensures (n - 1) * stride <= |verts| && HasVertex(verts, stride, n - 1)
  {
    assert (n - 1) * stride + stride == n * stride;
  }

  /** One more index: skipped when out of range, else the vertex at its position, old or new. */
  function WeldStep(verts: seq<byte>, stride: nat, m: Mesh, i: nat): (m': Mesh)
    requires stride >= POSITION_SIZE && Sized(m, stride)
    ensures Sized(m', stride) && m.verts <= m'.verts && m.n <= m'.n
  {
    if !HasVertex(verts, stride, i) then m else
      var j := Find(m.verts, stride, m.n, PositionAt(verts, stride, i));
      if j < m.n then m.(indices := m.indices + [j])
      else
        Grown(m.verts, m.n, VertexAt(verts, stride, i), stride);
        Mesh(m.verts + VertexAt(verts, stride, i), m.n + 1, m.indices + [m.n])
  }

  lemma Grown(verts: seq<byte>, n: nat, v: seq<byte>, stride: nat)
    requires |verts| == n * stride && |v| == stride
    ensures |verts + v| == (n + 1) * stride
    ensures HasVertex(verts + v, stride, n) && VertexAt(verts + v, stride, n) == v
  {
    assert (n + 1) * stride == n * stride + stride;
    assert (verts + v)[n * stride..n * stride + stride] == v;
  }

  function Weld(verts: seq<byte>, stride: nat, indices: seq<nat>): (m: Mesh)
    requires stride >= POSITION_SIZE
    ensures Sized(m, stride)
  {
    if indices == [] then Mesh([], 0, [])
    else WeldStep(verts, stride, Weld(verts, stride, indices[..|indices| - 1]), indices[|indices| - 1])
  }

  /** No two vertices share a position. */
  ghost predicate DistinctPositions(m: Mesh, stride: nat)
    requires stride >= POSITION_SIZE && Sized(m, stride)
  {
    forall i, j | 0 <= i < j < m.n ::
      HasVertex(m.verts, stride, i) && HasVertex(m.verts, stride, j)
      && PositionAt(m.verts, stride, i) != PositionAt(m.verts, stride, j)
  }

  lemma FindIsOnly(m: Mesh, stride: nat, i: nat)
    requires stride >= POSITION_SIZE && Sized(m, stride) && DistinctPositions(m, stride) && i < m.n
    ensures HasVertex(m.verts, stride, i)
    ensures Find(m.verts, stride, m.n, PositionAt(m.verts, stride, i)) == i
  {
    SizedHas(m, stride, i);
  }

  lemma StepKeepsDistinct(verts: seq<byte>, stride: nat, m: Mesh, i: nat)
    requires stride >= POSITION_SIZE && Sized(m, stride) && DistinctPositions(m, stride)
    ensures DistinctPositions(WeldStep(verts, stride, m, i), stride)
  {
    var m' := WeldStep(verts, stride, m, i);
    if m'.n > m.n {
      var pos := PositionAt(verts, stride, i);
      Grown(m.verts, m.n, VertexAt(verts, stride, i), stride);
      forall a, b | 0 <= a < b < m'.n
        ensures HasVertex(m'.verts, stride, a) && HasVertex(m'.verts, stride, b)
        ensures PositionAt(m'.verts, stride, a) != PositionAt(m'.verts, stride, b)
      {
        SizedHas(m, stride, a);
        VertexInFront(m.verts, m'.verts, stride, a);
        if b < m.n {
          SizedHas(m, stride, b);
          VertexInFront(m.verts, m'.verts, stride, b);
        }
      }
    }
  }

  lemma {:induction false} WeldedAreDistinct(verts: seq<byte>, stride: nat, indices: seq<nat>)
    requires stride >= POSITION_SIZE
    ensures DistinctPositions(Weld(verts, stride, indices), stride)
    decreases |indices|
  {
    hide WeldStep;
    if indices != [] {
      var n := |indices| - 1;
      WeldedAreDistinct(verts, stride, indices[..n]);
      StepKeepsDistinct(verts, stride, Weld(verts, stride, indices[..n]), indices[n]);
    }
  }

  // ---------------------------------------------------------------------------------------------
  // Welding keeps every corner where it was
  // ---------------------------------------------------------------------------------------------

  /** The indices that are in range. */
  function Kept(verts: seq<byte>, stride: nat, indices: seq<nat>): (k: seq<nat>)
    ensures forall i :: i in k ==> HasVertex(verts, stride, i)
  {
    if indices == [] then [] else
      var n := |indices| - 1;
      Kept(verts, stride, indices[..n]) + (if HasVertex(verts, stride, indices[n]) then [indices[n]] else [])
  }

  lemma KeptUnfolds(verts: seq<byte>, stride: nat, indices: seq<nat>)
    ensures indices == [] ==> Kept(verts, stride, indices) == []
    ensures indices != [] ==>
      var n := |indices| - 1;
      Kept(verts, stride, indices)
      == Kept(verts, stride, indices[..n])
         + (if indices[n] * stride + stride <= |verts| then [indices[n]] else [])
    ensures |indices| == 1 ==> indices[..0] == [] && Kept(verts, stride, indices[..0]) == []
  {
  }

  lemma {:induction false} KeptAll(verts: seq<byte>, stride: nat, indices: seq<nat>)
    requires forall i :: i in indices ==> HasVertex(verts, stride, i)
    ensures Kept(verts, stride, indices) == indices
    decreases |indices|
  {
    KeptUnfolds(verts, stride, indices);
    if indices != [] {
      hide Kept;
      var n := |indices| - 1;
      assert forall i :: i in indices[..n] ==> i in indices;
      KeptAll(verts, stride, indices[..n]);
      assert indices[n] in indices && indices[..n] + [indices[n]] == indices;
    }
  }

  /** The kept indices are a selection of the given ones, in their order. */
  lemma {:induction false} KeptConcat(verts: seq<byte>, stride: nat, front: seq<nat>, rest: seq<nat>)
    ensures Kept(verts, stride, front + rest) == Kept(verts, stride, front) + Kept(verts, stride, rest)
    ensures |rest| == 1 ==> Kept(verts, stride, rest) == if rest[0] * stride + stride <= |verts| then rest else []
    decreases |rest|
  {
    KeptUnfolds(verts, stride, rest);
    if rest == [] {
      assert front + rest == front;
    } else {
      hide Kept;
      var n := |rest| - 1;
      KeptUnfolds(verts, stride, front + rest);
      assert (front + rest)[..|front| + n] == front + rest[..n];
      KeptConcat(verts, stride, front, rest[..n]);
    }
  }

  predicate InRange(verts: seq<byte>, stride: nat, indices: seq<nat>) {
    forall k :: 0 <= k < |indices| ==> HasVertex(verts, stride, indices[k])
  }

  /** The position of a corner; a dangling index has none, which is the empty string. */
  function Corner(verts: seq<byte>, stride: nat, i: nat): seq<byte>
    requires stride >= POSITION_SIZE
  {
    if HasVertex(verts, stride, i) then PositionAt(verts, stride, i) else []
  }

  /** The positions of the corners, in the order of the indices. */
  function Positions(verts: seq<byte>, stride: nat, indices: seq<nat>): (p: seq<seq<byte>>)
    requires stride >= POSITION_SIZE
    ensures |p| == |indices|
  {
    seq(|indices|, k requires 0 <= k < |indices| => Corner(verts, stride, indices[k]))
  }

  lemma PositionsInFront(front: seq<byte>, verts: seq<byte>, stride: nat, indices: seq<nat>)
    requires stride >= POSITION_SIZE && front <= verts && InRange(front, stride, indices)
    ensures InRange(verts, stride, indices)
    ensures Positions(verts, stride, indices) == Positions(front, stride, indices)
  {
    forall k | 0 <= k < |indices|
      ensures HasVertex(verts, stride, indices[k])
        && PositionAt(verts, stride, indices[k]) == PositionAt(front, stride, indices[k])
    {
      VertexInFront(front, verts, stride, indices[k]);
    }
  }

  lemma {:induction false} WeldKeepsPositions(verts: seq<byte>, stride: nat, indices: seq<nat>)
    requires stride >= POSITION_SIZE
    ensures
      var m, kept := Weld(verts, stride, indices), Kept(verts, stride, indices);
      && InRange(m.verts, stride, m.indices) && InRange(verts, stride, kept)
      && (forall i :: i in m.indices ==> i < m.n)
      && Positions(m.verts, stride, m.indices) == Positions(verts, stride, kept)
    decreases |indices|
  {
    if indices != [] {
      var n := |indices| - 1;
      var i := indices[n];
      WeldKeepsPositions(verts, stride, indices[..n]);
      StepKeepsPositions(verts, stride, Weld(verts, stride, indices[..n]), Kept(verts, stride, indices[..n]), i);
    }
  }

  lemma StepKeepsPositions(verts: seq<byte>, stride: nat, m: Mesh, kept: seq<nat>, i: nat)
    requires stride >= POSITION_SIZE && Sized(m, stride)
    requires InRange(m.verts, stride, m.indices) && InRange(verts, stride, kept)
    requires forall i :: i in m.indices ==> i < m.n
    requires Positions(m.verts, stride, m.indices) == Positions(verts, stride, kept)
    ensures
      var m' := WeldStep(verts, stride, m, i);
      var kept' := kept + (if HasVertex(verts, stride, i) then [i] else []);
      && InRange(m'.verts, stride, m'.indices) && InRange(verts, stride, kept')
      && (forall i :: i in m'.indices ==> i < m'.n)
      && Positions(m'.verts, stride, m'.indices) == Positions(verts, stride, kept')
  {
    var m' := WeldStep(verts, stride, m, i);
    PositionsInFront(m.verts, m'.verts, stride, m.indices);
    if HasVertex(verts, stride, i) {
      var j := m'.indices[|m.indices|];
      assert m'.indices == m.indices + [j];
      var pos := PositionAt(verts, stride, i);
      assert HasVertex(m'.verts, stride, j) && PositionAt(m'.verts, stride, j) == pos by {
        if m'.n > m.n {
          Grown(m.verts, m.n, VertexAt(verts, stride, i), stride);
        }
      }
      PositionsAppend(m'.verts, stride, m.indices, j);
      PositionsAppend(verts, stride, kept, i);
    } else {
      assert kept + [] == kept;
    }
  }

  /** Index `k` is the first one of vertex `j`; only earlier vertices come before it. */
  predicate FirstUse(indices: seq<nat>, j: nat, k: nat) {
    k < |indices| && indices[k] == j && forall l :: 0 <= l < k ==> indices[l] < j
  }

  /** Vertex `j` came from the corner that used it first, byte for byte. */
  ghost predicate TakenFrom(verts: seq<byte>, stride: nat, kept: seq<nat>, m: Mesh, j: nat, k: nat) {
    && FirstUse(m.indices, j, k) && k < |kept|
    && HasVertex(m.verts, stride, j) && HasVertex(verts, stride, kept[k])
    && VertexAt(m.verts, stride, j) == VertexAt(verts, stride, kept[k])
  }

  /** Every vertex came from the corner that used it first, in the order of these first uses. */
  ghost predicate InOrderOfUse(verts: seq<byte>, stride: nat, kept: seq<nat>, m: Mesh) {
    forall j :: 0 <= j < m.n ==> Originates(verts, stride, kept, m, j)
  }

  ghost predicate Originates(verts: seq<byte>, stride: nat, kept: seq<nat>, m: Mesh, j: nat) {
    exists k: nat :: TakenFrom(verts, stride, kept, m, j, k)
  }

  lemma {:induction false} WeldedInOrderOfUse(verts: seq<byte>, stride: nat, indices: seq<nat>)
    requires stride >= POSITION_SIZE
    ensures InOrderOfUse(verts, stride, Kept(verts, stride, indices), Weld(verts, stride, indices))
    decreases |indices|
  {
    hide HasVertex, VertexAt, WeldStep;
    if indices != [] {
      var n := |indices| - 1;
      WeldedInOrderOfUse(verts, stride, indices[..n]);
      WeldKeepsPositions(verts, stride, indices[..n]);
      StepInOrderOfUse(verts, stride, Weld(verts, stride, indices[..n]), Kept(verts, stride, indices[..n]), indices[n]);
    }
  }

  lemma StepInOrderOfUse(verts: seq<byte>, stride: nat, m: Mesh, kept: seq<nat>, i: nat)
    requires stride >= POSITION_SIZE && Sized(m, stride) && |m.indices| == |kept|
    requires (forall i :: i in m.indices ==> i < m.n) && InOrderOfUse(verts, stride, kept, m)
    ensures
      var kept' := kept + (if HasVertex(verts, stride, i) then [i] else []);
      InOrderOfUse(verts, stride, kept', WeldStep(verts, stride, m, i))
  {
    hide HasVertex, VertexAt;
    var m' := WeldStep(verts, stride, m, i);
    var kept' := kept + (if HasVertex(verts, stride, i) then [i] else []);
    assert forall l | 0 <= l < |m.indices| :: m'.indices[l] == m.indices[l] && m.indices[l] in m.indices;
    forall j | 0 <= j < m'.n ensures Originates(verts, stride, kept', m', j) {
      if j < m.n {
        assert Originates(verts, stride, kept, m, j);
        var k: nat :| TakenFrom(verts, stride, kept, m, j, k);
        VertexInFront(m.verts, m'.verts, stride, j);
        assert TakenFrom(verts, stride, kept', m', j, k);
      } else {
        Grown(m.verts, m.n, VertexAt(verts, stride, i), stride);
        assert TakenFrom(verts, stride, kept', m', j, |kept|);
      }
    }
  }

  lemma PositionsAppend(verts: seq<byte>, stride: nat, indices: seq<nat>, i: nat)
    requires stride >= POSITION_SIZE && InRange(verts, stride, indices) && HasVertex(verts, stride, i)
    ensures InRange(verts, stride, indices + [i])
    ensures Positions(verts, stride, indices + [i]) == Positions(verts, stride, indices) + [PositionAt(verts, stride, i)]
  {
  }

  // ---------------------------------------------------------------------------------------------
  // Welding twice
  // ---------------------------------------------------------------------------------------------

  /** Welding a welded mesh, or any buffer that starts with it, changes nothing. */
  lemma {:induction false} WeldAgain(verts: seq<byte>, stride: nat, indices: seq<nat>, big: seq<byte>)
    requires stride >= POSITION_SIZE && Weld(verts, stride, indices).verts <= big
    ensures Weld(big, stride, Weld(verts, stride, indices).indices) == Weld(verts, stride, indices)
    decreases |indices|
  {
    if indices != [] {
      var n := |indices| - 1;
      var m, m' := Weld(verts, stride, indices[..n]), Weld(verts, stride, indices);
      WeldAgain(verts, stride, indices[..n], big);
      WeldedAreDistinct(verts, stride, indices[..n]);
      if HasVertex(verts, stride, indices[n]) {
        var j := m'.indices[|m.indices|];
        assert m'.indices == m.indices + [j] && m'.indices[..|m.indices|] == m.indices;
        StepAgain(verts, stride, m, indices[n], big);
      }
    }
  }

  lemma StepAgain(verts: seq<byte>, stride: nat, m: Mesh, i: nat, big: seq<byte>)
    requires stride >= POSITION_SIZE && Sized(m, stride) && DistinctPositions(m, stride)
    requires HasVertex(verts, stride, i) && WeldStep(verts, stride, m, i).verts <= big
    ensures
      var m' := WeldStep(verts, stride, m, i);
      |m'.indices| == |m.indices| + 1 && WeldStep(big, stride, m, m'.indices[|m.indices|]) == m'
  {
    var m' := WeldStep(verts, stride, m, i);
    var j := m'.indices[|m.indices|];
    if j < m.n {
      FindIsOnly(m, stride, j);
      VertexInFront(m.verts, big, stride, j);
    } else {
      Grown(m.verts, m.n, VertexAt(verts, stride, i), stride);
      VertexInFront(m'.verts, big, stride, m.n);
    }
  }

  lemma WeldTwice(verts: seq<byte>, stride: nat, indices: seq<nat>)
    requires stride >= POSITION_SIZE
    ensures
      var once := Weld(verts, stride, indices);
      Weld(once.verts, stride, once.indices) == once
  {
    WeldAgain(verts, stride, indices, Weld(verts, stride, indices).verts);
  }

  /** `deduplicate_vertices`. */
  method DeduplicateVertices(vertices: seq<byte>, indices: seq<nat>, stride: nat)
    returns (newVerts: seq<byte>, newIdxs: seq<nat>)
    requires stride >= POSITION_SIZE
    ensures newVerts == Weld(vertices, stride, indices).verts && newIdxs == Weld(vertices, stride, indices).indices
  {
    hide Find, HasVertex, VertexAt;
    var vertexCount := |vertices| / stride;
    newVerts, newIdxs := [], [];
    var seen: map<seq<byte>, nat> := map[];
    ghost var m := Mesh([], 0, []);
    var k := 0;
    while k < |indices|
      invariant k <= |indices| && m == Weld(vertices, stride, indices[..k])
      invariant newVerts == m.verts && newIdxs == m.indices
      invariant Remembers(seen, m, stride)
    {
      var i := indices[k];
      assert indices[..k + 1][..k] == indices[..k];
      CountIsHas(vertices, stride, i);
      k := k + 1;
      if i >= vertexCount {
        continue;
      }
      var base := i * stride;
      assert HasVertex(vertices, stride, i) && base + stride <= |vertices| by { InsideBuffer(vertices, stride, i); }
      var posBytes := vertices[base..base + POSITION_SIZE];
      assert posBytes == PositionAt(vertices, stride, i) by { PositionSlice(vertices, stride, i); }
      ghost var m' := WeldStep(vertices, stride, m, i);
      RememberStep(seen, m, stride, vertices, i);
      if posBytes in seen {
        newIdxs := newIdxs + [seen[posBytes]];
      } else {
        WholeCount(m.n, stride);
        var newIdx := |newVerts| / stride;
        seen := seen[posBytes := newIdx];
        newVerts := newVerts + vertices[base..base + stride];
        newIdxs := newIdxs + [newIdx];
      }
      m := m';
    }
    assert indices[..k] == indices;
  }

  lemma InsideBuffer(verts: seq<byte>, stride: nat, i: nat)
    requires HasVertex(verts, stride, i)
    ensures i * stride + stride <= |verts|
  {
  }

  lemma PositionSlice(verts: seq<byte>, stride: nat, i: nat)
    requires HasVertex(verts, stride, i) && stride >= POSITION_SIZE
    ensures PositionAt(verts, stride, i) == verts[i * stride..i * stride + POSITION_SIZE]
  {
  }

  /** The hash map knows exactly the positions of the new vertices, and where they are. */
  ghost predicate Remembers(seen: map<seq<byte>, nat>, m: Mesh, stride: nat)
    requires stride >= POSITION_SIZE && Sized(m, stride)
  {
    forall pos ::
      var j := Find(m.verts, stride, m.n, pos);
      (pos in seen <==> j < m.n) && (pos in seen ==> seen[pos] == j)
  }

  lemma RememberStep(seen: map<seq<byte>, nat>, m: Mesh, stride: nat, verts: seq<byte>, i: nat)
    requires stride >= POSITION_SIZE && Sized(m, stride) && Remembers(seen, m, stride) && HasVertex(verts, stride, i)
    ensures
      var m', pos := WeldStep(verts, stride, m, i), PositionAt(verts, stride, i);
      if pos in seen then m' == m.(indices := m.indices + [seen[pos]]) && Remembers(seen, m', stride)
      else
        && m' == Mesh(m.verts + verts[i * stride..i * stride + stride], m.n + 1, m.indices + [m.n])
        && Remembers(seen[pos := m.n], m', stride)
  {
    var m', pos := WeldStep(verts, stride, m, i), PositionAt(verts, stride, i);
    assert pos in seen <==> Find(m.verts, stride, m.n, pos) < m.n;
    if pos !in seen {
      Grown(m.verts, m.n, VertexAt(verts, stride, i), stride);
      assert m'.verts == m.verts + verts[i * stride..i * stride + stride];
      forall p
        ensures
          var j := Find(m'.verts, stride, m'.n, p);
          (p in seen[pos := m.n] <==> j < m'.n) && (p in seen[pos := m.n] ==> seen[pos := m.n][p] == j)
      {
        FindGrown(m, m', stride, pos, p);
      }
    }
  }

  lemma FindGrown(m: Mesh, m': Mesh, stride: nat, pos: seq<byte>, p: seq<byte>)
    requires stride >= POSITION_SIZE && Sized(m, stride) && Sized(m', stride)
    requires m.verts <= m'.verts && m'.n == m.n + 1
    requires HasVertex(m'.verts, stride, m.n) && PositionAt(m'.verts, stride, m.n) == pos
    requires Find(m.verts, stride, m.n, pos) == m.n
    ensures
      var j := Find(m.verts, stride, m.n, p);
      Find(m'.verts, stride, m'.n, p) == if p == pos then m.n else if j < m.n then j else m.n + 1
  {
    SmallerFits(m'.verts, stride, m'.n);
    FindInFront(m.verts, m'.verts, stride, m.n, p);
  }

  lemma {:induction false} FindInFront(front: seq<byte>, verts: seq<byte>, stride: nat, n: nat, pos: seq<byte>)
    requires stride >= POSITION_SIZE && n * stride <= |front| && front <= verts
    ensures n * stride <= |verts| && Find(verts, stride, n, pos) == Find(front, stride, n, pos)
    decreases n
  {
    if n > 0 {
      SmallerFits(front, stride, n);
      FindInFront(front, verts, stride, n - 1, pos);
      VertexInFront(front, verts, stride, n - 1);
    }
  }

  // ---------------------------------------------------------------------------------------------
  // Normals
  // ---------------------------------------------------------------------------------------------

  /** `write_normals_into_vertices`: only bytes 12 to 23 of each vertex change, and only where they exist. */
  method WriteNormals(vertices: array<byte>, normals: seq<seq<byte>>, stride: nat)
    requires forall i :: 0 <= i < |normals| ==> |normals[i]| == NORMAL_SIZE
    modifies vertices
    ensures stride < NORMAL_OFFSET + NORMAL_SIZE ==> vertices[..] == old(vertices[..])
    ensures stride >= NORMAL_OFFSET + NORMAL_SIZE ==> NormalsWritten(old(vertices[..]), vertices[..], normals, |normals|, stride)
  {
    if stride < NORMAL_OFFSET + NORMAL_SIZE {
      return;
    }
    ghost var before := vertices[..];
    var i := 0;
    while i < |normals|
      invariant i <= |normals| && NormalsWritten(before, vertices[..], normals, i, stride)
    {
      var base := i * stride + NORMAL_OFFSET;
      if base + NORMAL_SIZE > vertices.Length {
        NoMoreFit(before, vertices[..], normals, i, stride);
        break;
      }
      WriteNormal(vertices, normals, i, stride, before);
      i := i + 1;
    }
  }

  /** There is room for the whole normal of vertex `i`. */
  predicate Fits(i: nat, stride: nat, size: nat) {
    i * stride + 24 <= size
  }

  /** Of the first `n` normals, those that fit are written; every other byte is as before. */
  ghost predicate NormalsWritten(
    before: seq<byte>, now: seq<byte>, normals: seq<seq<byte>>, n: nat, stride: nat)
    requires n <= |normals| && forall i :: 0 <= i < |normals| ==> |normals[i]| == NORMAL_SIZE
  {
    && |now| == |before|
    && (forall i, o | 0 <= i < n && 0 <= o < NORMAL_SIZE && Fits(i, stride, |now|) ::
         now[Slot(i, o, stride)] == normals[i][o])
    && (forall b | 0 <= b < |now| && Outside(b, n, stride, |now|) :: now[b] == before[b])
  }

  /** Byte `b` belongs to none of the first `n` normals that fit. */
  ghost predicate Outside(b: nat, n: nat, stride: nat, size: nat) {
    forall i, o | 0 <= i < n && 0 <= o < NORMAL_SIZE && Fits(i, stride, size) :: b != Slot(i, o, stride)
  }

  /** Behind the first normal that does not fit no other one does. */
  lemma NoMoreFit(before: seq<byte>, now: seq<byte>, normals: seq<seq<byte>>, i: nat, stride: nat)
    requires forall k :: 0 <= k < |normals| ==> |normals[k]| == NORMAL_SIZE
    requires i < |normals| && !Fits(i, stride, |now|) && NormalsWritten(before, now, normals, i, stride)
    ensures NormalsWritten(before, now, normals, |normals|, stride)
  {
    forall k | i <= k < |normals| ensures !Fits(k, stride, |now|) {
      if i < k {
        RowsAhead(i, k, stride);
      }
    }
    forall b | 0 <= b < |now| && Outside(b, |normals|, stride, |now|) ensures now[b] == before[b] {
      assert Outside(b, i, stride, |now|);
    }
  }

  /** Byte `o` of the normal of vertex `i`. */
  function Slot(i: nat, o: nat, stride: nat): nat {
    i * stride + 12 + o
  }

  method WriteNormal(
    vertices: array<byte>, normals: seq<seq<byte>>, i: nat, stride: nat, ghost before: seq<byte>)
    requires forall k :: 0 <= k < |normals| ==> |normals[k]| == NORMAL_SIZE
    requires i < |normals| && stride >= NORMAL_OFFSET + NORMAL_SIZE
    requires i * stride + NORMAL_OFFSET + NORMAL_SIZE <= vertices.Length
    requires NormalsWritten(before, vertices[..], normals, i, stride)
    modifies vertices
    ensures NormalsWritten(before, vertices[..], normals, i + 1, stride)
  {
    ghost var was := vertices[..];
    var base := i * stride + NORMAL_OFFSET;
    var o := 0;
    while o < NORMAL_SIZE
      invariant o <= NORMAL_SIZE
      invariant forall k | 0 <= k < o :: vertices[base + k] == normals[i][k]
      invariant forall b | 0 <= b < vertices.Length && !(base <= b < base + NORMAL_SIZE) :: vertices[b] == was[b]
    {
      vertices[base + o] := normals[i][o];
      o := o + 1;
    }
    OneMoreNormal(before, was, vertices[..], normals, i, stride);
  }

  lemma OneMoreNormal(
    before: seq<byte>, was: seq<byte>, now: seq<byte>, normals: seq<seq<byte>>, i: nat, stride: nat)
    requires forall k :: 0 <= k < |normals| ==> |normals[k]| == NORMAL_SIZE
    requires i < |normals| && stride >= NORMAL_OFFSET + NORMAL_SIZE && |now| == |was|
    requires i * stride + NORMAL_OFFSET + NORMAL_SIZE <= |now|
    requires NormalsWritten(before, was, normals, i, stride)
    requires forall k | 0 <= k < NORMAL_SIZE :: now[i * stride + NORMAL_OFFSET + k] == normals[i][k]
    requires forall b |
      0 <= b < |now| && !(i * stride + NORMAL_OFFSET <= b < i * stride + NORMAL_OFFSET + NORMAL_SIZE) :: now[b] == was[b]
    ensures NormalsWritten(before, now, normals, i + 1, stride)
  {
    forall k, o | 0 <= k < i + 1 && 0 <= o < NORMAL_SIZE && Fits(k, stride, |now|)
      ensures now[Slot(k, o, stride)] == normals[k][o]
    {
      if k < i {
        RowsAhead(k, i, stride);
        assert was[Slot(k, o, stride)] == normals[k][o];
      }
    }
    forall b | 0 <= b < |now| && Outside(b, i + 1, stride, |now|)
      ensures now[b] == before[b]
    {
      assert Outside(b, i, stride, |now|);
      var o := b - (i * stride + NORMAL_OFFSET);
      assert 0 <= o < NORMAL_SIZE ==> b == Slot(i, o, stride);
      assert was[b] == before[b];
    }
  }

  /** Writing normals moves no vertex. */
  lemma NormalsKeepPositions(
    before: seq<byte>, now: seq<byte>, normals: seq<seq<byte>>, stride: nat, indices: seq<nat>)
    requires forall i :: 0 <= i < |normals| ==> |normals[i]| == NORMAL_SIZE
    requires stride >= NORMAL_OFFSET + NORMAL_SIZE && NormalsWritten(before, now, normals, |normals|, stride)
    ensures InRange(before, stride, indices) ==> InRange(now, stride, indices)
    ensures Positions(now, stride, indices) == Positions(before, stride, indices)
  {
    hide VertexAt, NormalsWritten;
    SameSize(before, now, normals, stride);
    forall k | 0 <= k < |indices|
      ensures Corner(now, stride, indices[k]) == Corner(before, stride, indices[k])
    {
      var i := indices[k];
      if HasVertex(before, stride, i) {
        SamePosition(before, now, normals, stride, i);
        PositionSlice(now, stride, i);
        PositionSlice(before, stride, i);
      }
    }
  }

  lemma SameSize(before: seq<byte>, now: seq<byte>, normals: seq<seq<byte>>, stride: nat)
    requires forall i :: 0 <= i < |normals| ==> |normals[i]| == NORMAL_SIZE
    requires NormalsWritten(before, now, normals, |normals|, stride)
    ensures |now| == |before|
  {
  }

  lemma SamePosition(before: seq<byte>, now: seq<byte>, normals: seq<seq<byte>>, stride: nat, i: nat)
    requires forall k :: 0 <= k < |normals| ==> |normals[k]| == NORMAL_SIZE
    requires stride >= NORMAL_OFFSET + NORMAL_SIZE && NormalsWritten(before, now, normals, |normals|, stride)
    requires HasVertex(before, stride, i)
    ensures HasVertex(now, stride, i)
    ensures now[i * stride..i * stride + POSITION_SIZE] == before[i * stride..i * stride + POSITION_SIZE]
  {
    var base := i * stride;
    var a, b := now[base..base + POSITION_SIZE], before[base..base + POSITION_SIZE];
    forall p | 0 <= p < POSITION_SIZE ensures a[p] == b[p] {
      SameByte(before, now, normals, stride, i, p);
    }
  }

  lemma SameByte(before: seq<byte>, now: seq<byte>, normals: seq<seq<byte>>, stride: nat, i: nat, p: nat)
    requires forall k :: 0 <= k < |normals| ==> |normals[k]| == NORMAL_SIZE
    requires stride >= NORMAL_OFFSET + NORMAL_SIZE && NormalsWritten(before, now, normals, |normals|, stride)
    requires i * stride + p < |now| && p < POSITION_SIZE
    ensures now[i * stride + p] == before[i * stride + p]
  {
    hide Slot;
    PositionByteIsNoSlot(i, p, stride, |normals|);
    assert Outside(i * stride + p, |normals|, stride, |now|);
  }

  lemma PositionByteIsNoSlot(i: nat, p: nat, stride: nat, n: nat)
    requires p < POSITION_SIZE && stride >= NORMAL_OFFSET + NORMAL_SIZE
    ensures forall k, o | 0 <= k < n && 0 <= o < NORMAL_SIZE :: i * stride + p != Slot(k, o, stride)
  {
    forall k, o | 0 <= k < n && 0 <= o < NORMAL_SIZE ensures i * stride + p != Slot(k, o, stride) {
      if k < i {
        RowsAhead(k, i, stride);
      } else if i < k {
        RowsAhead(i, k, stride);
      }
    }
  }

  // ---------------------------------------------------------------------------------------------
  // The geometry
  // ---------------------------------------------------------------------------------------------

  type Corners = (seq<byte>, seq<byte>, seq<byte>)

  /** The triangles as position triples, corners in their order. */
  function Triangles(p: seq<seq<byte>>): (t: seq<Corners>)
    ensures |t| == |p| / 3
  {
    seq(|p| / 3, k requires 0 <= k < |p| / 3 => (p[3 * k], p[3 * k + 1], p[3 * k + 2]))
  }

  function Pick<T>(s: seq<T>, order: seq<nat>): (r: seq<T>)
    requires forall t :: t in order ==> t < |s|
    ensures |r| == |order|
  {
    seq(|order|, k requires 0 <= k < |order| => assert order[k] in order; s[order[k]])
  }

  /** Picking every element once keeps the multiset. */
  lemma {:induction false} PickIsPermutation<T>(s: seq<T>, order: seq<nat>)
    requires IsPermutation(order, |s|)
    ensures multiset(Pick(s, order)) == multiset(s)
    decreases |s|
  {
    if s == [] {
      assert order == [] && Pick(s, order) == [];
    } else {
      var n := |s| - 1;
      assert n in order;
      var i :| 0 <= i < |order| && order[i] == n;
      var rest := order[..i] + order[i + 1..];
      WithoutLast(order, i, n);
      PickIsPermutation(s[..n], rest);
      PickSplit(s, order, i, n);
      assert s == s[..n] + [s[n]];
    }
  }

  /** Taking the last element out of the middle of an order. */
  lemma PickSplit<T>(s: seq<T>, order: seq<nat>, i: nat, n: nat)
    requires n + 1 == |s| && IsPermutation(order, n + 1) && i < |order| && order[i] == n
    requires IsPermutation(order[..i] + order[i + 1..], n)
    ensures
      var p := Pick(s[..n], order[..i] + order[i + 1..]);
      multiset(Pick(s, order)) == multiset(p) + multiset{s[n]}
  {
    var rest := order[..i] + order[i + 1..];
    var p := Pick(s[..n], rest);
    var q := Pick(s, order);
    forall k | 0 <= k < |rest| ensures rest[k] < n && p[k] == s[rest[k]] {
      assert rest[k] in rest;
    }
    assert forall k | 0 <= k < i :: rest[k] == order[k];
    assert forall k | i <= k < |rest| :: rest[k] == order[k + 1];
    assert q == p[..i] + [s[n]] + p[i..];
    assert p == p[..i] + p[i..];
  }

  lemma WithoutLast(order: seq<nat>, i: nat, n: nat)
    requires IsPermutation(order, n + 1) && i < |order| && order[i] == n
    ensures IsPermutation(order[..i] + order[i + 1..], n)
  {
    var rest := order[..i] + order[i + 1..];
    forall t | t in rest ensures t < n {
      assert t in order;
      var j :| 0 <= j < |rest| && rest[j] == t;
      assert t == order[if j < i then j else j + 1];
    }
    forall t | 0 <= t < n ensures t in rest {
      assert t in order;
      var j :| 0 <= j < |order| && order[j] == t;
      assert t == rest[if j < i then j else j - 1];
    }
  }

  lemma EmitNothing(indices: seq<nat>)
    ensures Emit(indices, []) == []
  {
  }

  lemma EmitUnfolds(indices: seq<nat>, order: seq<nat>)
    requires order != [] && forall t :: t in order ==> t < |indices| / 3
    ensures
      var n := |order| - 1;
      var t := order[n];
      && (forall u :: u in order[..n] ==> u in order) && t in order
      && Emit(indices, order) == Emit(indices, order[..n]) + [indices[3 * t], indices[3 * t + 1], indices[3 * t + 2]]
  {
  }

  /** Emitting in an order picks the triangles in that order. */
  lemma {:induction false} EmitPicks(indices: seq<nat>, order: seq<nat>)
    requires forall t :: t in order ==> t < |indices| / 3
    ensures |Emit(indices, order)| == 3 * |order|
    ensures forall k | 0 <= k < |order| ::
      order[k] in order && TriangleAt(Emit(indices, order), k) == TriangleAt(indices, order[k])
    decreases |order|
  {
    if order == [] {
      EmitNothing(indices);
    } else {
      hide Emit;
      var n := |order| - 1;
      assert order[n] in order && forall t :: t in order[..n] ==> t in order;
      EmitPicks(indices, order[..n]);
      EmitUnfolds(indices, order);
      var front, all := Emit(indices, order[..n]), Emit(indices, order);
      forall k | 0 <= k < |order| ensures order[k] in order && TriangleAt(all, k) == TriangleAt(indices, order[k]) {
        if k < n {
          assert TriangleAt(front, k) == TriangleAt(indices, order[..n][k]);
          assert all[3 * k] == front[3 * k] && all[3 * k + 1] == front[3 * k + 1] && all[3 * k + 2] == front[3 * k + 2];
        }
      }
    }
  }

  /** Reordering keeps the multiset of position triangles, and the indices in range. */
  lemma ReorderKeepsGeometry(verts: seq<byte>, stride: nat, indices: seq<nat>, order: seq<nat>)
    requires stride >= POSITION_SIZE && IsPermutation(order, |indices| / 3)
    ensures InRange(verts, stride, indices) ==> InRange(verts, stride, Emit(indices, order))
    ensures
      multiset(Triangles(Positions(verts, stride, Emit(indices, order))))
      == multiset(Triangles(Positions(verts, stride, indices)))
  {
    hide Corner, HasVertex, Emit;
    var all := Emit(indices, order);
    EmitPicks(indices, order);
    forall k | 0 <= k < |all| ensures all[k] in indices {
      var t := k / 3;
      assert TriangleAt(all, t) == TriangleAt(indices, order[t]);
      assert k == 3 * t || k == 3 * t + 1 || k == 3 * t + 2;
    }
    var p, q := Positions(verts, stride, indices), Positions(verts, stride, all);
    forall k | 0 <= k < |order| ensures Triangles(q)[k] == Pick(Triangles(p), order)[k] {
      assert order[k] in order;
      assert TriangleAt(all, k) == TriangleAt(indices, order[k]);
    }
    assert Triangles(q) == Pick(Triangles(p), order);
    PickIsPermutation(Triangles(p), order);
  }

  /** Reordering whole triangles loses no index. */
  lemma ReorderKeepsIndices(indices: seq<nat>, order: seq<nat>, i: nat)
    requires IsPermutation(order, |indices| / 3) && |indices| % 3 == 0 && i in indices
    ensures i in Emit(indices, order)
  {
    hide Emit;
    EmitPicks(indices, order);
    var k :| 0 <= k < |indices| && indices[k] == i;
    assert k / 3 in order;
    var j :| 0 <= j < |order| && order[j] == k / 3;
    assert TriangleAt(Emit(indices, order), j) == TriangleAt(indices, k / 3);
    assert Emit(indices, order)[3 * j + k % 3] == i;
  }

  // ---------------------------------------------------------------------------------------------
  // The pipeline
  // ---------------------------------------------------------------------------------------------

  datatype CookConfig = CookConfig(weld: bool, optimizeVertexCache: bool, normals: bool)

  /** The indices that the cooked mesh stands for: welding drops those out of range, one by one. */
  function Used(vertices: seq<byte>, stride: nat, indices: seq<nat>, weld: bool): (used: seq<nat>)
    ensures InRange(vertices, stride, indices) ==> used == indices
  {
    var kept := Kept(vertices, stride, indices);
    assert InRange(vertices, stride, indices) ==> kept == indices by {
      if InRange(vertices, stride, indices) {
        AllKept(vertices, stride, indices);
      }
    }
    if weld then kept else indices
  }

  /**
    What welding has to yield: whole vertices, no two at one position, each taken from the corner that used it first, and
    every corner where it was.
  */
  ghost predicate IsWelded(vertices: seq<byte>, stride: nat, kept: seq<nat>, m: Mesh)
    requires stride >= POSITION_SIZE
  {
    && Sized(m, stride) && DistinctPositions(m, stride) && InOrderOfUse(vertices, stride, kept, m)
    && InRange(m.verts, stride, m.indices)
    && Positions(m.verts, stride, m.indices) == Positions(vertices, stride, kept)
  }

  lemma WeldIsWelded(vertices: seq<byte>, stride: nat, indices: seq<nat>)
    requires stride >= POSITION_SIZE
    ensures IsWelded(vertices, stride, Kept(vertices, stride, indices), Weld(vertices, stride, indices))
  {
    hide Weld, Kept, Positions, InOrderOfUse, DistinctPositions;
    WeldKeepsPositions(vertices, stride, indices);
    WeldedAreDistinct(vertices, stride, indices);
    WeldedInOrderOfUse(vertices, stride, indices);
  }

  /** The stages between the input and the cooked mesh: `m` is welded, then reordered, then given its normals. */
  ghost predicate Stages(
    vertices: seq<byte>, indices: seq<nat>, stride: nat, config: CookConfig,
    m: Mesh, normals: seq<seq<byte>>, verts: seq<byte>, idxs: seq<nat>)
    requires stride >= POSITION_SIZE && forall k :: 0 <= k < |normals| ==> |normals[k]| == NORMAL_SIZE
  {
    && (if config.weld then IsWelded(vertices, stride, Kept(vertices, stride, indices), m)
        else m.verts == vertices && m.indices == indices)
    && (if config.optimizeVertexCache && |m.indices| >= 3 then exists order :: Reorders(m.indices, idxs, order)
        else idxs == m.indices)
    && (if config.normals && stride >= 24 then NormalsWritten(m.verts, verts, normals, |normals|, stride)
        else verts == m.verts)
  }

  /** No two vertices of the buffer share a position. */
  ghost predicate NoSharedPosition(verts: seq<byte>, stride: nat)
    requires stride >= POSITION_SIZE
  {
    forall i: nat, j: nat | i < j && HasVertex(verts, stride, i) && HasVertex(verts, stride, j) ::
      PositionAt(verts, stride, i) != PositionAt(verts, stride, j)
  }

  ghost predicate AllUsed(verts: seq<byte>, stride: nat, indices: seq<nat>) {
    forall i: nat | HasVertex(verts, stride, i) :: i in indices
  }

  /** The vertices of a welded buffer are the first `n`. */
  lemma SizedOnly(m: Mesh, stride: nat, i: nat)
    requires stride > 0 && Sized(m, stride) && HasVertex(m.verts, stride, i)
    ensures i < m.n
  {
    CountIsHas(m.verts, stride, i);
    WholeCount(m.n, stride);
  }

  lemma WeldedVertices(vertices: seq<byte>, stride: nat, kept: seq<nat>, m: Mesh)
    requires stride >= POSITION_SIZE && IsWelded(vertices, stride, kept, m)
    ensures NoSharedPosition(m.verts, stride) && AllUsed(m.verts, stride, m.indices)
  {
    hide HasVertex, PositionAt, Positions, VertexAt;
    forall i: nat | HasVertex(m.verts, stride, i) ensures i < m.n && i in m.indices {
      SizedOnly(m, stride, i);
      assert Originates(vertices, stride, kept, m, i);
    }
  }

  /** The normals leave all positions as they are, distinct ones distinct. */
  lemma NormalsKeepDistinct(before: seq<byte>, now: seq<byte>, normals: seq<seq<byte>>, stride: nat)
    requires forall i :: 0 <= i < |normals| ==> |normals[i]| == NORMAL_SIZE
    requires stride >= NORMAL_OFFSET + NORMAL_SIZE && NormalsWritten(before, now, normals, |normals|, stride)
    ensures NoSharedPosition(before, stride) ==> NoSharedPosition(now, stride)
    ensures forall i: nat :: HasVertex(now, stride, i) <==> HasVertex(before, stride, i)
  {
    hide NormalsWritten, VertexAt;
    SameSize(before, now, normals, stride);
    forall i: nat | HasVertex(now, stride, i)
      ensures HasVertex(before, stride, i) && PositionAt(now, stride, i) == PositionAt(before, stride, i)
    {
      SamePosition(before, now, normals, stride, i);
      PositionSlice(now, stride, i);
      PositionSlice(before, stride, i);
    }
  }

  /**
    The part of `cook_full` that touches vertices and indices. `computeNormals` stands for the normal computation.
    The cooked mesh has the position triangles of the input, as a multiset; for in-range indices these are all. With
    welding no two of its vertices share a position, and none is left over unless the reordering drops an unfinished
    triangle.
  */
  method Cook(
    vertices: seq<byte>, indices: seq<nat>, stride: nat, config: CookConfig,
    computeNormals: (seq<byte>, seq<nat>) -> seq<seq<byte>>)
    returns (verts: seq<byte>, idxs: seq<nat>)
    requires stride >= POSITION_SIZE
    requires forall v, i, k :: 0 <= k < |computeNormals(v, i)| ==> |computeNormals(v, i)[k]| == NORMAL_SIZE
    ensures exists m: Mesh ::
      Stages(vertices, indices, stride, config, m, computeNormals(m.verts, idxs), verts, idxs)
    ensures
      var used := Used(vertices, stride, indices, config.weld);
      && multiset(Triangles(Positions(verts, stride, idxs))) == multiset(Triangles(Positions(vertices, stride, used)))
      && |idxs| == (if config.optimizeVertexCache && |used| >= 3 then |used| / 3 * 3 else |used|)
      && (InRange(vertices, stride, used) ==> InRange(verts, stride, idxs))
      && (config.weld ==> NoSharedPosition(verts, stride))
      && (config.weld && (!config.optimizeVertexCache || |used| % 3 == 0) ==> AllUsed(verts, stride, idxs))
  {
    hide Weld, Positions, Corner, HasVertex, VertexAt, Emit, NormalsWritten, Greedy, Triangles, Kept, IsWelded;
    hide NoSharedPosition, AllUsed;
    verts, idxs := vertices, indices;
    ghost var used := Used(vertices, stride, indices, config.weld);
    ghost var m := Mesh(vertices, 0, indices);
    if config.weld {
      verts, idxs := DeduplicateVertices(vertices, indices, stride);
      WeldKeepsPositions(vertices, stride, indices);
      m := Weld(vertices, stride, indices);
      WeldIsWelded(vertices, stride, indices);
      WeldedVertices(vertices, stride, Kept(vertices, stride, indices), m);
    }
    assert Positions(verts, stride, idxs) == Positions(vertices, stride, used);
    if config.optimizeVertexCache && idxs != [] {
      idxs := OptimizeIndexOrder(idxs);
      if |m.indices| >= 3 {
        ghost var order :| Reorders(m.indices, idxs, order);
        ReorderKeepsGeometry(verts, stride, m.indices, order);
        EmitPicks(m.indices, order);
        ReorderKeepsUse(verts, stride, m.indices, order);
      }
    }
    if config.normals {
      var n := computeNormals(verts, idxs);
      var buffer := new byte[|verts|](i requires 0 <= i < |verts| => verts[i]);
      assert buffer[..] == verts;
      WriteNormals(buffer, n, stride);
      if stride >= NORMAL_OFFSET + NORMAL_SIZE {
        NormalsKeepPositions(verts, buffer[..], n, stride, idxs);
        NormalsKeepDistinct(verts, buffer[..], n, stride);
        SameUse(verts, buffer[..], stride, idxs);
      }
      verts := buffer[..];
    }
    assert Stages(vertices, indices, stride, config, m, computeNormals(m.verts, idxs), verts, idxs);
  }

  lemma ReorderKeepsUse(verts: seq<byte>, stride: nat, indices: seq<nat>, order: seq<nat>)
    requires IsPermutation(order, |indices| / 3)
    ensures AllUsed(verts, stride, indices) && |indices| % 3 == 0 ==> AllUsed(verts, stride, Emit(indices, order))
  {
    hide Emit, HasVertex;
    if |indices| % 3 == 0 {
      forall i | i in indices ensures i in Emit(indices, order) {
        ReorderKeepsIndices(indices, order, i);
      }
    }
  }

  lemma SameUse(before: seq<byte>, now: seq<byte>, stride: nat, indices: seq<nat>)
    requires forall i: nat :: HasVertex(now, stride, i) <==> HasVertex(before, stride, i)
    ensures AllUsed(before, stride, indices) ==> AllUsed(now, stride, indices)
  {
  }

  lemma AllKept(verts: seq<byte>, stride: nat, indices: seq<nat>)
    requires InRange(verts, stride, indices)
    ensures Kept(verts, stride, indices) == indices
  {
    KeptAll(verts, stride, indices);
  }
}
