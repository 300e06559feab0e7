/**
 * The geometry flattener of `UsdRerunLogger._log_mesh`: the decision between
 * a shared-vertex mesh and a per-corner triangle soup, fan triangulation of
 * every polygon in both index spaces, the face -> triangle-position map, and
 * the re-indexing of vertex-interpolated attributes.
 *
 * The specification is a set of functions over prefixes of the face-count
 * sequence (face f starts at corner offset Sum(counts[..f]) and at triangle
 * position TriCount(counts[..f])); the two triangulation loops are methods
 * proved equal to those functions.
 */
module MeshFlattener {
  import opened Viewer

  const FaceVarying: string := "faceVarying"
  const VertexInterpolation: string := "vertex"

  // ---------------------------------------------------------------------
  // Flatten decision
  // ---------------------------------------------------------------------

  /**
   * A mesh becomes a triangle soup when the texture coordinates or the
   * normals are face-varying, or, whatever the metadata says, when there are
   * as many texture coordinates as face corners and not as many as vertices.
   */
  function ShouldFlatten(stInterpolation: string, normalsInterpolation: string,
                         texcoordCount: Option<nat>, cornerCount: nat, vertexCount: nat): (flatten: bool)
    ensures flatten <==>
      || stInterpolation == FaceVarying
      || normalsInterpolation == FaceVarying
      || (texcoordCount.Some? && texcoordCount.value == cornerCount && texcoordCount.value != vertexCount)
  {
    var byMetadata := stInterpolation == FaceVarying || normalsInterpolation == FaceVarying;
    if texcoordCount.Some? && texcoordCount.value == cornerCount && texcoordCount.value != vertexCount
    then true
    else byMetadata
  }

  // ---------------------------------------------------------------------
  // Fan triangulation of one face
  // ---------------------------------------------------------------------

  /** Number of triangles a face with `count` corners yields: max(count - 2, 0). */
  function NumTris(count: nat): nat {
    if count >= 2 then count - 2 else 0
  }

  /**
   * The fan from corner 0 of a face whose corners are the positions
   * idx, idx + 1, ..., idx + count - 1 of the corner stream.
   */
  function Fan(count: nat, idx: int): seq<Tri> {
    seq(NumTris(count), j => Tri(idx, idx + j + 1, idx + j + 2))
  }

  function Corners(t: Tri): set<int> {
    {t.a, t.b, t.c}
  }

  /** Every corner position referenced by a triangle list. */
  function CornerSet(ts: seq<Tri>): set<int> {
    if ts == [] then {} else CornerSet(ts[..|ts| - 1]) + Corners(ts[|ts| - 1])
  }

  /** All three corners of t lie in lo, lo + 1, ..., lo + n - 1. */
  predicate Within(t: Tri, lo: int, n: nat) {
    lo <= t.a < lo + n && lo <= t.b < lo + n && lo <= t.c < lo + n
  }

  lemma FanExtend(count: nat, idx: int)
    requires count >= 2
    ensures Fan(count + 1, idx) == Fan(count, idx) + [Tri(idx, idx + count - 1, idx + count)]
  {
    var l, r := Fan(count + 1, idx), Fan(count, idx) + [Tri(idx, idx + count - 1, idx + count)];
    assert |l| == |r|;
    forall j | 0 <= j < |l| ensures l[j] == r[j] { }
  }

  /**
   * Every triangle of a face starts at the face's first corner and uses
   * only the face's own corners; for a face of at least three corners the
   * fan uses every one of them.
   */
  lemma {:induction false} FanCorners(count: nat, idx: int)
    ensures forall t :: t in Fan(count, idx) ==> t.a == idx && Within(t, idx, count)
    ensures forall t :: t in CornerSet(Fan(count, idx)) ==> idx <= t < idx + count
    ensures count >= 3 ==> forall k :: idx <= k < idx + count ==> k in CornerSet(Fan(count, idx))
  {
    forall t | t in Fan(count, idx)
      ensures t.a == idx && Within(t, idx, count)
    {
      var j :| 0 <= j < |Fan(count, idx)| && Fan(count, idx)[j] == t;
      assert t == Tri(idx, idx + j + 1, idx + j + 2);
    }
    if count >= 3 {
      FanCornerSet(count, idx);
    }
    forall t | t in CornerSet(Fan(count, idx)) ensures idx <= t < idx + count {
      CornerSetMember(Fan(count, idx), t);
    }
  }

  lemma {:induction false} CornerSetMember(ts: seq<Tri>, k: int)
    requires k in CornerSet(ts)
    ensures exists t :: t in ts && k in Corners(t)
  {
    if ts != [] && k !in Corners(ts[|ts| - 1]) {
      CornerSetMember(ts[..|ts| - 1], k);
      var t :| t in ts[..|ts| - 1] && k in Corners(t);
      assert t in ts;
    }
  }

  lemma {:induction false} FanCornerSet(count: nat, idx: int)
    requires count >= 3
    ensures forall k :: idx <= k < idx + count ==> k in CornerSet(Fan(count, idx))
  {
    var f := Fan(count, idx);
    if count == 3 {
      assert f == [Tri(idx, idx + 1, idx + 2)];
      assert f[..0] == [];
    } else {
      FanCornerSet(count - 1, idx);
      FanExtend(count - 1, idx);
      assert f[..|f| - 1] == Fan(count - 1, idx);
      assert CornerSet(f) == CornerSet(Fan(count - 1, idx)) + {idx, idx + count - 2, idx + count - 1};
    }
  }

  // ---------------------------------------------------------------------
  // The whole mesh, face by face
  // ---------------------------------------------------------------------

  /** Corner offset after the given faces: the sum of their counts. */
  function Sum(counts: seq<nat>): nat {
    if counts == [] then 0 else Sum(counts[..|counts| - 1]) + counts[|counts| - 1]
  }

  /** Triangle count of the given faces: the sum of max(count - 2, 0). */
  function TriCount(counts: seq<nat>): nat {
    if counts == [] then 0 else TriCount(counts[..|counts| - 1]) + NumTris(counts[|counts| - 1])
  }

  /**
   * The triangle list over corner positions: each face's fan, at the face's
   * corner offset, in face order. This is the flattened path's list as is.
   */
  function CornerTris(counts: seq<nat>): seq<Tri> {
    if counts == [] then []
    else
      var prefix := counts[..|counts| - 1];
      CornerTris(prefix) + Fan(counts[|counts| - 1], Sum(prefix))
  }

  /** The n consecutive positions lo, lo + 1, ..., lo + n - 1. */
  function Range(lo: nat, n: nat): seq<nat> {
    seq(n, i => lo + i)
  }

  /** face -> positions in the triangle list of that face's triangles. */
  function FaceMap(counts: seq<nat>): seq<seq<nat>> {
    if counts == [] then []
    else
      var prefix := counts[..|counts| - 1];
      FaceMap(prefix) + [Range(TriCount(prefix), NumTris(counts[|counts| - 1]))]
  }

  /** Concatenation of a list of lists, in order. */
  function Concat<T>(ss: seq<seq<T>>): seq<T> {
    if ss == [] then [] else Concat(ss[..|ss| - 1]) + ss[|ss| - 1]
  }

  lemma {:induction false} CornerTrisLength(counts: seq<nat>)
    ensures |CornerTris(counts)| == TriCount(counts)
  {
    if counts != [] {
      CornerTrisLength(counts[..|counts| - 1]);
    }
  }

  lemma {:induction false} SumPrefix(counts: seq<nat>, n: nat)
    requires n <= |counts|
    ensures Sum(counts[..n]) <= Sum(counts)
    ensures n < |counts| ==> Sum(counts[..n]) + counts[n] <= Sum(counts)
    decreases |counts| - n
  {
    if n < |counts| {
      assert counts[..n + 1][..n] == counts[..n];
      SumPrefix(counts, n + 1);
    } else {
      assert counts[..n] == counts;
    }
  }

  lemma {:induction false} CornerTrisPrefix(counts: seq<nat>, n: nat)
    requires n <= |counts|
    ensures CornerTris(counts[..n]) <= CornerTris(counts)
    decreases |counts| - n
  {
    if n < |counts| {
      assert counts[..n + 1][..n] == counts[..n];
      CornerTrisPrefix(counts, n + 1);
    } else {
      assert counts[..n] == counts;
    }
  }

  /** Every corner position in the triangle list lies below the total corner count. */
  lemma {:induction false} CornerTrisInRange(counts: seq<nat>)
    ensures forall t :: t in CornerTris(counts) ==> Within(t, 0, Sum(counts))
  {
    if counts != [] {
      var prefix := counts[..|counts| - 1];
      CornerTrisInRange(prefix);
      FanCorners(counts[|counts| - 1], Sum(prefix));
    }
  }

  /**
   * face_to_triangle_indices has one entry per face, and the entry of face f
   * is the run of NumTris(counts[f]) positions starting after the triangles
   * of faces 0 .. f-1.
   */
  lemma {:induction false} FaceMapAt(counts: seq<nat>)
    ensures |FaceMap(counts)| == |counts|
    ensures forall f :: 0 <= f < |counts| ==>
              FaceMap(counts)[f] == Range(TriCount(counts[..f]), NumTris(counts[f]))
  {
    if counts != [] {
      var prefix := counts[..|counts| - 1];
      FaceMapAt(prefix);
      forall f | 0 <= f < |counts|
        ensures FaceMap(counts)[f] == Range(TriCount(counts[..f]), NumTris(counts[f]))
      {
        if f < |prefix| {
          assert prefix[..f] == counts[..f];
        } else {
          assert counts[..f] == prefix;
        }
      }
    }
  }

  lemma RangeAppend(lo: nat, n: nat, m: nat)
    ensures Range(lo, n) + Range(lo + n, m) == Range(lo, n + m)
  {
    var l, r := Range(lo, n) + Range(lo + n, m), Range(lo, n + m);
    assert |l| == |r|;
    forall i | 0 <= i < |l| ensures l[i] == r[i] {
      if i >= n { assert l[i] == Range(lo + n, m)[i - n]; }
    }
  }

  /**
   * Concatenating face_to_triangle_indices in face order gives exactly the
   * positions 0, 1, ..., T - 1 of the T triangles: every triangle belongs to
   * exactly one face, and each face's triangles are consecutive.
   */
  lemma {:induction false} FaceMapConcat(counts: seq<nat>)
    ensures Concat(FaceMap(counts)) == Range(0, TriCount(counts))
  {
    if counts != [] {
      var prefix := counts[..|counts| - 1];
      var fm := FaceMap(counts);
      FaceMapConcat(prefix);
      assert fm[..|fm| - 1] == FaceMap(prefix);
      RangeAppend(0, TriCount(prefix), NumTris(counts[|counts| - 1]));
    }
  }

  /**
   * The k-th position recorded for face f points at the k-th triangle of
   * that face's fan: the map really locates each face's own triangles.
   */
  lemma FaceMapLocates(counts: seq<nat>, f: nat, k: nat)
    requires f < |counts| && k < NumTris(counts[f])
    ensures |FaceMap(counts)| == |counts| && |FaceMap(counts)[f]| == NumTris(counts[f])
    ensures FaceMap(counts)[f][k] < |CornerTris(counts)|
    ensures CornerTris(counts)[FaceMap(counts)[f][k]] == Fan(counts[f], Sum(counts[..f]))[k]
  {
    var pos := TriCount(counts[..f]) + k;
    assert |FaceMap(counts)| == |counts| && |FaceMap(counts)[f]| == NumTris(counts[f]) && FaceMap(counts)[f][k] == pos by {
      FaceMapAt(counts);
    }
    var pre := counts[..f + 1];
    var fan := Fan(counts[f], Sum(counts[..f]));
    assert CornerTris(pre) == CornerTris(counts[..f]) + fan by {
      assert pre[..f] == counts[..f] && pre[f] == counts[f];
    }
    assert pos < |CornerTris(pre)| && CornerTris(pre)[pos] == fan[k] by {
      CornerTrisLength(counts[..f]);
    }
    CornerTrisPrefix(counts, f + 1);
  }

  // ---------------------------------------------------------------------
  // Shared-vertex index space
  // ---------------------------------------------------------------------

  /**
   * How far into face_vertex_indices the shared path reads: the furthest end
   * of a face of three or more corners, 0 when there is none. A smaller face
   * gives no triangle and is never read.
   */
  function ReadEnd(counts: seq<nat>): nat {
    if counts == [] then 0
    else
      var prefix, last := counts[..|counts| - 1], counts[|counts| - 1];
      var own := if last >= 3 then Sum(prefix) + last else 0;
      if own > ReadEnd(prefix) then own else ReadEnd(prefix)
  }

  /** The corners the shared path reads stay inside face_vertex_indices. */
  predicate SharedReadable(counts: seq<nat>, fvi: seq<int>) {
    ReadEnd(counts) <= |fvi|
  }

  /** The shared path never reads past the total corner count. */
  lemma {:induction false} ReadEndWithinCorners(counts: seq<nat>)
    ensures ReadEnd(counts) <= Sum(counts)
  {
    if counts != [] {
      ReadEndWithinCorners(counts[..|counts| - 1]);
    }
  }

  /** Every prefix reads no further, and each face of three or more corners ends within the read range. */
  lemma {:induction false} ReadablePrefix(counts: seq<nat>, fvi: seq<int>, n: nat)
    requires SharedReadable(counts, fvi) && n <= |counts|
    ensures SharedReadable(counts[..n], fvi)
    ensures n < |counts| && counts[n] >= 3 ==> Sum(counts[..n]) + counts[n] <= |fvi|
    decreases |counts| - n
  {
    if n < |counts| {
      ReadablePrefix(counts, fvi, n + 1);
      assert counts[..n + 1][..n] == counts[..n];
    } else {
      assert counts[..n] == counts;
    }
  }

  /**
   * A trailing face of fewer than three corners is never read: counts
   * [3, 2] over three indices give one triangle, though the corners sum to 5.
   */
  lemma ShortFaceIsNotRead()
    ensures Sum([3, 2]) == 5 && SharedReadable([3, 2], [0, 1, 2])
    ensures SharedTris([3, 2], [0, 1, 2]) == [Tri(0, 1, 2)]
  {
    assert [3, 2][..1] == [3] && [3][..0] == [];
    assert SharedFan(2, 3, [0, 1, 2]) == [];
    assert SharedFan(3, 0, [0, 1, 2]) == [Tri(0, 1, 2)];
  }

  /** A face's fan read through face_vertex_indices: the shared path's rows. */
  function SharedFan(count: nat, idx: nat, fvi: seq<int>): seq<Tri>
    requires count >= 3 ==> idx + count <= |fvi|
  {
    seq(NumTris(count), j requires 0 <= j < NumTris(count) => Tri(fvi[idx], fvi[idx + j + 1], fvi[idx + j + 2]))
  }

  /** The shared path's triangle list, face by face. */
  function SharedTris(counts: seq<nat>, fvi: seq<int>): seq<Tri>
    requires SharedReadable(counts, fvi)
  {
    if counts == [] then []
    else
      var prefix := counts[..|counts| - 1];
      SharedTris(prefix, fvi) + SharedFan(counts[|counts| - 1], Sum(prefix), fvi)
  }

  /** Reads each corner position of a triangle through face_vertex_indices. */
  function Lookup(fvi: seq<int>, t: Tri): Tri
    requires 0 <= t.a < |fvi| && 0 <= t.b < |fvi| && 0 <= t.c < |fvi|
  {
    Tri(fvi[t.a], fvi[t.b], fvi[t.c])
  }

  /**
   * Both paths triangulate by the same rule: the j-th shared triangle is the
   * j-th corner-position triangle with its corners read through
   * face_vertex_indices.
   */
  lemma {:induction false} SharedIsLookupOfCorners(counts: seq<nat>, fvi: seq<int>)
    requires SharedReadable(counts, fvi)
    ensures |SharedTris(counts, fvi)| == |CornerTris(counts)|
    ensures forall j :: 0 <= j < |CornerTris(counts)| ==>
              Within(CornerTris(counts)[j], 0, |fvi|) &&
              SharedTris(counts, fvi)[j] == Lookup(fvi, CornerTris(counts)[j])
  {
    if counts != [] {
      var prefix, last := counts[..|counts| - 1], counts[|counts| - 1];
      SharedIsLookupOfCorners(prefix, fvi);
      FanCorners(last, Sum(prefix));
      var ct, st := CornerTris(counts), SharedTris(counts, fvi);
      var n := |CornerTris(prefix)|;
      forall j | 0 <= j < |ct|
        ensures Within(ct[j], 0, |fvi|) && st[j] == Lookup(fvi, ct[j])
      {
        if j >= n {
          var t := Fan(last, Sum(prefix))[j - n];
          assert ct[j] == t && t in Fan(last, Sum(prefix));
        }
      }
    }
  }

  // ---------------------------------------------------------------------
  // Per-corner buffers
  // ---------------------------------------------------------------------

  predicate IndexesInto(fvi: seq<int>, n: nat) {
    forall k :: 0 <= k < |fvi| ==> 0 <= fvi[k] < n
  }

  /** numpy's data[face_vertex_indices]: one element per face corner. */
  function Reindex<T>(data: seq<T>, fvi: seq<int>): (r: seq<T>)
    requires IndexesInto(fvi, |data|)
    ensures |r| == |fvi|
    ensures forall k :: 0 <= k < |fvi| ==> r[k] == data[fvi[k]]
  {
    seq(|fvi|, k requires 0 <= k < |fvi| => data[fvi[k]])
  }

  /**
   * When flattening, a vertex-interpolated attribute is re-indexed per
   * corner like the positions; any other interpolation (face-varying data
   * already per corner, constant, uniform, unset) is left untouched.
   */
  function FlattenAttribute<T>(attr: Option<seq<T>>, interpolation: string, fvi: seq<int>): (r: Option<seq<T>>)
    requires attr.Some? && interpolation == VertexInterpolation ==> IndexesInto(fvi, |attr.value|)
    ensures r.Some? <==> attr.Some?
    ensures attr.Some? && interpolation == VertexInterpolation ==>
              |r.value| == |fvi| && forall k :: 0 <= k < |fvi| ==> r.value[k] == attr.value[fvi[k]]
    ensures interpolation != VertexInterpolation ==> r == attr
  {
    match attr
    case None => None
    case Some(data) => if interpolation == VertexInterpolation then Some(Reindex(data, fvi)) else attr
  }

  /**
   * The two paths describe the same geometry: in every triangle, the
   * duplicated vertex the flattened path addresses is the original vertex
   * the shared path addresses.
   */
  lemma FlattenedMatchesShared(vertices: seq<Vec3>, fvi: seq<int>, counts: seq<nat>)
    requires SharedReadable(counts, fvi) && IndexesInto(fvi, |vertices|)
    ensures |CornerTris(counts)| == |SharedTris(counts, fvi)|
    ensures forall j :: 0 <= j < |CornerTris(counts)| ==>
              var t, s := CornerTris(counts)[j], SharedTris(counts, fvi)[j];
              && Within(t, 0, |fvi|)
              && Within(s, 0, |vertices|)
              && Reindex(vertices, fvi)[t.a] == vertices[s.a]
              && Reindex(vertices, fvi)[t.b] == vertices[s.b]
              && Reindex(vertices, fvi)[t.c] == vertices[s.c]
  {
    SharedIsLookupOfCorners(counts, fvi);
  }

  // ---------------------------------------------------------------------
  // The two triangulation loops
  // ---------------------------------------------------------------------

  lemma StepFace(counts: seq<nat>, f: nat)
    requires f < |counts|
    ensures CornerTris(counts[..f + 1]) == CornerTris(counts[..f]) + Fan(counts[f], Sum(counts[..f]))
    ensures FaceMap(counts[..f + 1]) == FaceMap(counts[..f]) + [Range(TriCount(counts[..f]), NumTris(counts[f]))]
    ensures Sum(counts[..f + 1]) == Sum(counts[..f]) + counts[f]
    ensures TriCount(counts[..f + 1]) == TriCount(counts[..f]) + NumTris(counts[f])
  {
    assert counts[..f + 1][..f] == counts[..f];
  }

  /** One more readable face extends the shared triangle list by that face's fan. */
  lemma StepSharedFace(counts: seq<nat>, fvi: seq<int>, f: nat)
    requires SharedReadable(counts, fvi) && f < |counts|
    ensures SharedReadable(counts[..f], fvi) && SharedReadable(counts[..f + 1], fvi)
    ensures counts[f] >= 3 ==> Sum(counts[..f]) + counts[f] <= |fvi|
    ensures SharedTris(counts[..f + 1], fvi) == SharedTris(counts[..f], fvi) + SharedFan(counts[f], Sum(counts[..f]), fvi)
  {
    ReadablePrefix(counts, fvi, f);
    ReadablePrefix(counts, fvi, f + 1);
    var grown := counts[..f + 1];
    assert grown[..|grown| - 1] == counts[..f] && grown[|grown| - 1] == counts[f];
  }

  /**
   * One face of the flattened path: the explicit triangle and quad branches
   * and the fan for every other count, over corner positions idx, idx + 1,
   * ...; `positions` are the triangle-list positions handed out from
   * `current` on.
   */
  method FaceFlattened(count: nat, idx: int, current: nat) returns (tris: seq<Tri>, positions: seq<nat>)
    ensures tris == Fan(count, idx)
    ensures positions == Range(current, NumTris(count))
  {
    var next := current;
    tris, positions := [], [];
    if count == 3 {
      tris := tris + [Tri(idx, idx + 1, idx + 2)];
      positions := positions + [next];
      next := next + 1;
      assert Fan(3, idx) == tris;
    } else if count == 4 {
      tris := tris + [Tri(idx, idx + 1, idx + 2)];
      positions := positions + [next];
      next := next + 1;

      tris := tris + [Tri(idx, idx + 2, idx + 3)];
      positions := positions + [next];
      next := next + 1;
      assert Fan(4, idx) == tris;
    } else {
      var i := 1;
      while i < count - 1
        invariant 1 <= i <= if count >= 2 then count - 1 else 1
        invariant tris == Fan(count, idx)[..i - 1]
        invariant next == current + i - 1
        invariant positions == Range(current, i - 1)
      {
        assert Fan(count, idx)[..i] == Fan(count, idx)[..i - 1] + [Tri(idx, idx + i, idx + i + 1)];
        assert Range(current, i) == Range(current, i - 1) + [next];
        tris := tris + [Tri(idx, idx + i, idx + i + 1)];
        positions := positions + [next];
        next := next + 1;
        i := i + 1;
      }
      assert Fan(count, idx)[..NumTris(count)] == Fan(count, idx);
    }
  }

  /**
   * One face of the shared path: the same branches, with each corner
   * position read through face_vertex_indices.
   */
  method FaceShared(count: nat, idx: nat, fvi: seq<int>, current: nat) returns (tris: seq<Tri>, positions: seq<nat>)
    requires count >= 3 ==> idx + count <= |fvi|
    ensures tris == SharedFan(count, idx, fvi)
    ensures positions == Range(current, NumTris(count))
  {
    var next := current;
    tris, positions := [], [];
    if count == 3 {
      tris := tris + [Tri(fvi[idx], fvi[idx + 1], fvi[idx + 2])];
      positions := positions + [next];
      next := next + 1;
      assert SharedFan(3, idx, fvi) == tris;
    } else if count == 4 {
      tris := tris + [Tri(fvi[idx], fvi[idx + 1], fvi[idx + 2])];
      positions := positions + [next];
      next := next + 1;

      tris := tris + [Tri(fvi[idx], fvi[idx + 2], fvi[idx + 3])];
      positions := positions + [next];
      next := next + 1;
      assert SharedFan(4, idx, fvi) == tris;
    } else {
      var i := 1;
      while i < count - 1
        invariant 1 <= i <= if count >= 2 then count - 1 else 1
        invariant tris == SharedFan(count, idx, fvi)[..i - 1]
        invariant next == current + i - 1
        invariant positions == Range(current, i - 1)
      {
        assert SharedFan(count, idx, fvi)[..i] ==
               SharedFan(count, idx, fvi)[..i - 1] + [Tri(fvi[idx], fvi[idx + i], fvi[idx + i + 1])];
        assert Range(current, i) == Range(current, i - 1) + [next];
        tris := tris + [Tri(fvi[idx], fvi[idx + i], fvi[idx + i + 1])];
        positions := positions + [next];
        next := next + 1;
        i := i + 1;
      }
      assert SharedFan(count, idx, fvi)[..NumTris(count)] == SharedFan(count, idx, fvi);
    }
  }

  /**
   * The flattened path's loop over faces: triangles over corner positions,
   * with face_to_triangle_indices filled face by face.
   */
  method TriangulateFlattened(counts: seq<nat>) returns (triangles: seq<Tri>, faceToTris: seq<seq<nat>>)
    ensures triangles == CornerTris(counts)
    ensures faceToTris == FaceMap(counts)
  {
    faceToTris := seq(|counts|, _ => []);
    triangles := [];
    var current: nat := 0;
    var idx: nat := 0;
    for f := 0 to |counts|
      invariant idx == Sum(counts[..f])
      invariant triangles == CornerTris(counts[..f])
      invariant current == TriCount(counts[..f])
      invariant |faceToTris| == |counts|
      invariant faceToTris[..f] == FaceMap(counts[..f])
      invariant forall g :: f <= g < |counts| ==> faceToTris[g] == []
    {
      StepFace(counts, f);
      var count := counts[f];
      var tris, positions := FaceFlattened(count, idx, current);
      ghost var ftt0 := faceToTris;
      triangles := triangles + tris;
      faceToTris := faceToTris[f := faceToTris[f] + positions];
      assert faceToTris[..f] == ftt0[..f] && faceToTris[f] == positions;
      current := current + |tris|;
      assert faceToTris[..f + 1] == faceToTris[..f] + [faceToTris[f]];
      idx := idx + count;
    }
    assert counts[..|counts|] == counts;
    assert faceToTris[..|counts|] == faceToTris;
  }

  /** The shared path's loop over faces. */
  method TriangulateShared(counts: seq<nat>, fvi: seq<int>) returns (triangles: seq<Tri>, faceToTris: seq<seq<nat>>)
    requires SharedReadable(counts, fvi)
    ensures triangles == SharedTris(counts, fvi)
    ensures faceToTris == FaceMap(counts)
  {
    faceToTris := seq(|counts|, _ => []);
    triangles := [];
    var current: nat := 0;
    var idx: nat := 0;
    for f := 0 to |counts|
      invariant idx == Sum(counts[..f])
      invariant (ReadablePrefix(counts, fvi, f); triangles == SharedTris(counts[..f], fvi))
      invariant current == TriCount(counts[..f])
      invariant |faceToTris| == |counts|
      invariant faceToTris[..f] == FaceMap(counts[..f])
      invariant forall g :: f <= g < |counts| ==> faceToTris[g] == []
    {
      StepFace(counts, f);
      StepSharedFace(counts, fvi, f);
      var count := counts[f];
      var tris, positions := FaceShared(count, idx, fvi, current);
      ghost var ftt0 := faceToTris;
      triangles := triangles + tris;
      faceToTris := faceToTris[f := faceToTris[f] + positions];
      assert faceToTris[..f] == ftt0[..f] && faceToTris[f] == positions;
      current := current + |tris|;
      assert faceToTris[..f + 1] == faceToTris[..f] + [faceToTris[f]];
      idx := idx + count;
    }
    assert counts[..|counts|] == counts;
    assert faceToTris[..|counts|] == faceToTris;
  }
}
