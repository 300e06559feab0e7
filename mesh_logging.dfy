/**
 * `UsdRerunLogger._log_mesh` end to end: the missing-data fallbacks, the
 * texture-coordinate resolution, the flatten decision, both triangulation
 * paths, and the per-subset (or whole-mesh) Mesh3D events it logs.
 */
module MeshLogging {
  import opened Viewer
  import opened MeshFlattener
  import opened SubsetSlicing

  /** The "st" primvar: its interpolation token, its data (None when it has no value) and its indices. */
  datatype Primvar = Primvar(interpolation: string, data: Option<seq<Vec2>>, indices: seq<int>)

  /** A normals attribute that has a value, with its interpolation metadata. */
  datatype NormalsAttr = NormalsAttr(data: seq<Vec3>, interpolation: string)

  /**
   * What `_log_mesh` reads from a mesh prim: None for an attribute that does
   * not exist (points, face indices and counts), an unauthored primvar, or
   * normals without a value.
   */
  datatype MeshData = MeshData(
    points: Option<seq<Vec3>>,
    faceVertexIndices: Option<seq<int>>,
    faceVertexCounts: Option<seq<nat>>,
    st: Option<Primvar>,
    normals: Option<NormalsAttr>,
    subsets: seq<Subset>)

  const ConstantInterpolation: string := "constant"

  function StInterpolation(st: Option<Primvar>): string {
    if st.Some? then st.value.interpolation else ConstantInterpolation
  }

  function NormalsInterpolation(n: Option<NormalsAttr>): string {
    if n.Some? then n.value.interpolation else ConstantInterpolation
  }

  function NormalsData(n: Option<NormalsAttr>): Option<seq<Vec3>> {
    if n.Some? then Some(n.value.data) else None
  }

  /** Indexed st data is read through its indices; numpy needs them in range. */
  predicate StResolvable(st: Option<Primvar>) {
    st.Some? && st.value.data.Some? && st.value.indices != [] ==>
      IndexesInto(st.value.indices, |st.value.data.value|)
  }

  /**
   * The texture coordinates: none without a primvar or without data; the
   * data read through the indices when there are indices; the data as is
   * otherwise.
   */
  function Texcoords(st: Option<Primvar>): (r: Option<seq<Vec2>>)
    requires StResolvable(st)
    ensures r.Some? <==> st.Some? && st.value.data.Some?
    ensures r.Some? && st.value.indices != [] ==>
              |r.value| == |st.value.indices| &&
              forall k :: 0 <= k < |r.value| ==> r.value[k] == st.value.data.value[st.value.indices[k]]
    ensures r.Some? && st.value.indices == [] ==> r.value == st.value.data.value
  {
    match st
    case None => None
    case Some(pv) =>
      match pv.data
      case None => None
      case Some(data) => if pv.indices != [] then Some(Reindex(data, pv.indices)) else Some(data)
  }

  /** A mesh whose points, face indices and face counts all exist. */
  predicate Complete(m: MeshData) {
    m.points.Some? && m.faceVertexIndices.Some? && m.faceVertexCounts.Some?
  }

  function Flattens(m: MeshData): bool
    requires Complete(m) && StResolvable(m.st)
  {
    var tc := Texcoords(m.st);
    ShouldFlatten(StInterpolation(m.st), NormalsInterpolation(m.normals),
                  if tc.Some? then Some(|tc.value|) else None,
                  |m.faceVertexIndices.value|, |m.points.value|)
  }

  /**
   * Every numpy index `_log_mesh` takes stays in range: the st indices; on
   * the flattened path the corner indices into the points and into every
   * vertex-interpolated attribute; on the shared path the corners of every
   * face of three or more corners into face_vertex_indices.
   */
  predicate Indexable(m: MeshData) {
    && StResolvable(m.st)
    && (Complete(m) ==>
          var fvi, tc := m.faceVertexIndices.value, Texcoords(m.st);
          if Flattens(m) then
            && IndexesInto(fvi, |m.points.value|)
            && (m.normals.Some? && m.normals.value.interpolation == VertexInterpolation ==>
                  IndexesInto(fvi, |m.normals.value.data|))
            && (tc.Some? && StInterpolation(m.st) == VertexInterpolation ==> IndexesInto(fvi, |tc.value|))
          else
            SharedReadable(m.faceVertexCounts.value, fvi))
  }

  /** The buffers `_log_mesh` hands to the viewer, and the face map of its subsets. */
  datatype Geometry = Geometry(vertices: seq<Vec3>, triangles: seq<Tri>, faceMap: seq<seq<nat>>,
                               normals: Option<seq<Vec3>>, texcoords: Option<seq<Vec2>>)

  /** The geometry of a complete mesh, on the path the flatten decision picks. */
  function MeshGeometry(m: MeshData): Geometry
    requires Complete(m) && Indexable(m)
  {
    var points, fvi, counts := m.points.value, m.faceVertexIndices.value, m.faceVertexCounts.value;
    var normals, texcoords := NormalsData(m.normals), Texcoords(m.st);
    if Flattens(m) then
      Geometry(Reindex(points, fvi), CornerTris(counts), FaceMap(counts),
               FlattenAttribute(normals, NormalsInterpolation(m.normals), fvi),
               FlattenAttribute(texcoords, StInterpolation(m.st), fvi))
    else
      Geometry(points, SharedTris(counts, fvi), FaceMap(counts), normals, texcoords)
  }

  /**
   * What the flatten decision buys. Face-varying st or normals always
   * flatten. A flattened mesh has one vertex per face corner, the corner's
   * original point; a vertex-interpolated normal or texture buffer is read
   * per corner the same way, so it lines up with the vertices, and any other
   * buffer is handed on as it is. A shared mesh keeps its points and both
   * buffers as they are.
   */
  lemma FlattenedBuffers(m: MeshData)
    requires Complete(m) && Indexable(m)
    ensures StInterpolation(m.st) == FaceVarying || NormalsInterpolation(m.normals) == FaceVarying ==> Flattens(m)
    ensures var g, points, fvi := MeshGeometry(m), m.points.value, m.faceVertexIndices.value;
            Flattens(m) ==>
              && |g.vertices| == |fvi|
              && (forall k :: 0 <= k < |fvi| ==> g.vertices[k] == points[fvi[k]])
              && (m.normals.Some? && m.normals.value.interpolation == VertexInterpolation ==>
                    && g.normals.Some? && |g.normals.value| == |g.vertices|
                    && forall k :: 0 <= k < |fvi| ==> g.normals.value[k] == m.normals.value.data[fvi[k]])
              && (NormalsInterpolation(m.normals) != VertexInterpolation ==> g.normals == NormalsData(m.normals))
              && (Texcoords(m.st).Some? && StInterpolation(m.st) == VertexInterpolation ==>
                    && g.texcoords.Some? && |g.texcoords.value| == |g.vertices|
                    && forall k :: 0 <= k < |fvi| ==> g.texcoords.value[k] == Texcoords(m.st).value[fvi[k]])
              && (StInterpolation(m.st) != VertexInterpolation ==> g.texcoords == Texcoords(m.st))
    ensures var g := MeshGeometry(m);
            !Flattens(m) ==>
              g.vertices == m.points.value && g.normals == NormalsData(m.normals) && g.texcoords == Texcoords(m.st)
  {
  }

  /** The triangle list has one row per face-map position. */
  predicate Consistent(g: Geometry) {
    forall f, k :: 0 <= f < |g.faceMap| && 0 <= k < |g.faceMap[f]| ==> g.faceMap[f][k] < |g.triangles|
  }

  lemma MeshGeometryConsistent(m: MeshData)
    requires Complete(m) && Indexable(m)
    ensures Consistent(MeshGeometry(m))
    ensures |MeshGeometry(m).triangles| == TriCount(m.faceVertexCounts.value)
  {
    var counts, fvi := m.faceVertexCounts.value, m.faceVertexIndices.value;
    CornerTrisLength(counts);
    if !Flattens(m) {
      SharedIsLookupOfCorners(counts, fvi);
    }
    forall f, k | 0 <= f < |FaceMap(counts)| && 0 <= k < |FaceMap(counts)[f]|
      ensures FaceMap(counts)[f][k] < TriCount(counts)
    {
      FaceMapAt(counts);
      FaceMapLocates(counts, f, k);
    }
  }

  /** The Mesh3D event of one subset, or nothing when the subset is skipped. */
  function SubsetEvent(s: Subset, g: Geometry): seq<Event>
    requires Consistent(g)
  {
    if s.elementType != FaceElement || s.indices.None? || s.indices.value == [] then []
    else
      var positions := SubsetPositions(g.faceMap, s.indices.value);
      if positions == [] then []
      else
        SubsetPositionsBounded(g, s.indices.value);
        [Event(s.path, Mesh3D(g.vertices, SliceRows(g.triangles, positions), g.normals, g.texcoords), true)]
  }

  lemma SubsetPositionsBounded(g: Geometry, faces: seq<int>)
    requires Consistent(g)
    ensures forall k :: 0 <= k < |SubsetPositions(g.faceMap, faces)| ==>
              SubsetPositions(g.faceMap, faces)[k] < |g.triangles|
  {
    var ps := SubsetPositions(g.faceMap, faces);
    forall k | 0 <= k < |ps| ensures ps[k] < |g.triangles| {
      SubsetMembership(g.faceMap, faces, ps[k]);
      var i :| 0 <= i < |faces| && 0 <= faces[i] < |g.faceMap| && ps[k] in g.faceMap[faces[i]];
      var j :| 0 <= j < |g.faceMap[faces[i]]| && g.faceMap[faces[i]][j] == ps[k];
    }
  }

  /** The events of all subsets, in declaration order. */
  function SubsetEvents(subsets: seq<Subset>, g: Geometry): (r: seq<Event>)
    requires Consistent(g)
    ensures |r| <= |subsets|
    ensures forall i :: 0 <= i < |r| ==> r[i].isStatic && r[i].payload.Mesh3D? && r[i].payload.vertices == g.vertices
    ensures forall i :: 0 <= i < |r| ==> exists j :: 0 <= j < |subsets| && subsets[j].path == r[i].path && subsets[j].elementType == FaceElement
  {
    if subsets == [] then []
    else
      var prefix, last := subsets[..|subsets| - 1], subsets[|subsets| - 1];
      assert forall j :: 0 <= j < |prefix| ==> prefix[j] == subsets[j];
      assert subsets[|subsets| - 1] == last;
      SubsetEvents(prefix, g) + SubsetEvent(last, g)
  }

  /**
   * Everything `_log_mesh` logs for a mesh prim at `path`: nothing without
   * points; a static point cloud without face indices or counts; otherwise
   * one static Mesh3D per sliced subset, or one for the whole mesh when the
   * mesh has no subsets.
   */
  function MeshEvents(path: Path, m: MeshData): (r: seq<Event>)
    requires Indexable(m)
    ensures m.points.None? ==> r == []
    ensures m.points.Some? && !Complete(m) ==> r == [Event(path, Points3D(m.points.value), true)]
    ensures Complete(m) && m.subsets == [] ==>
              |r| == 1 && r[0].path == path && r[0].isStatic && r[0].payload.Mesh3D? &&
              |r[0].payload.triangles| == TriCount(m.faceVertexCounts.value)
    ensures Complete(m) && m.subsets != [] ==> |r| <= |m.subsets| && forall i :: 0 <= i < |r| ==> exists j :: 0 <= j < |m.subsets| && m.subsets[j].path == r[i].path
    ensures forall i :: 0 <= i < |r| ==> r[i].isStatic
  {
    if m.points.None? then []
    else if m.faceVertexIndices.None? || m.faceVertexCounts.None? then
      [Event(path, Points3D(m.points.value), true)]
    else
      var g := MeshGeometry(m);
      MeshGeometryConsistent(m);
      if |m.subsets| > 0 then SubsetEvents(m.subsets, g)
      else [Event(path, Mesh3D(g.vertices, g.triangles, g.normals, g.texcoords), true)]
  }

  /** `_log_mesh` itself. */
  method LogMesh(path: Path, m: MeshData) returns (events: seq<Event>)
    requires Indexable(m)
    ensures events == MeshEvents(path, m)
  {
    if m.points.None? {
      return [];
    }
    var vertices := m.points.value;
    if m.faceVertexIndices.None? || m.faceVertexCounts.None? {
      return [Event(path, Points3D(vertices), true)];
    }
    var fvi, counts := m.faceVertexIndices.value, m.faceVertexCounts.value;

    var texcoords := Texcoords(m.st);
    var stInterpolation := StInterpolation(m.st);
    var normals := NormalsData(m.normals);
    var normalsInterpolation := NormalsInterpolation(m.normals);

    var shouldFlatten := ShouldFlatten(stInterpolation, normalsInterpolation,
                                       if texcoords.Some? then Some(|texcoords.value|) else None,
                                       |fvi|, |vertices|);

    var triangles, faceToTris;
    if shouldFlatten {
      vertices := Reindex(vertices, fvi);
      normals := FlattenAttribute(normals, normalsInterpolation, fvi);
      texcoords := FlattenAttribute(texcoords, stInterpolation, fvi);
      triangles, faceToTris := TriangulateFlattened(counts);
    } else {
      triangles, faceToTris := TriangulateShared(counts, fvi);
    }
    var g := Geometry(vertices, triangles, faceToTris, normals, texcoords);
    assert g == MeshGeometry(m);
    MeshGeometryConsistent(m);

    if |m.subsets| > 0 {
      events := LogSubsets(m.subsets, g);
    } else {
      events := [Event(path, Mesh3D(vertices, triangles, normals, texcoords), true)];
    }
  }

  /** The subset loop of `_log_mesh`: one sliced Mesh3D per usable subset, in declaration order. */
  method LogSubsets(subsets: seq<Subset>, g: Geometry) returns (events: seq<Event>)
    requires Consistent(g)
    ensures events == SubsetEvents(subsets, g)
  {
    events := [];
    for s := 0 to |subsets|
      invariant events == SubsetEvents(subsets[..s], g)
    {
      SubsetEventsStep(subsets, s, g);
      var subset := subsets[s];
      if subset.elementType != FaceElement {
        continue;
      }
      if subset.indices.None? || subset.indices.value == [] {
        continue;
      }
      var positions := CollectSubsetPositions(g.faceMap, subset.indices.value);
      if positions == [] {
        continue;
      }
      SubsetPositionsBounded(g, subset.indices.value);
      events := events + [Event(subset.path, Mesh3D(g.vertices, SliceRows(g.triangles, positions), g.normals, g.texcoords), true)];
    }
    assert subsets[..|subsets|] == subsets;
  }

  lemma SubsetEventsStep(subsets: seq<Subset>, s: nat, g: Geometry)
    requires Consistent(g) && s < |subsets|
    ensures SubsetEvents(subsets[..s + 1], g) == SubsetEvents(subsets[..s], g) + SubsetEvent(subsets[s], g)
  {
    assert subsets[..s + 1][..s] == subsets[..s] && subsets[..s + 1][s] == subsets[s];
  }

  /**
   * A subset that lists every face in order logs exactly the whole-mesh
   * triangle list.
   */
  lemma FullSubsetIsWholeMesh(m: MeshData, s: Subset)
    requires Complete(m) && Indexable(m)
    requires s.elementType == FaceElement && s.indices == Some(Range(0, |m.faceVertexCounts.value|))
    requires TriCount(m.faceVertexCounts.value) > 0
    ensures Consistent(MeshGeometry(m))
    ensures var g := MeshGeometry(m);
            SubsetEvent(s, g) == [Event(s.path, Mesh3D(g.vertices, g.triangles, g.normals, g.texcoords), true)]
  {
    var g := MeshGeometry(m);
    var counts := m.faceVertexCounts.value;
    MeshGeometryConsistent(m);
    AllFacesSubset(counts);
    var ps := SubsetPositions(g.faceMap, s.indices.value);
    assert ps == Range(0, TriCount(counts));
    assert |ps| > 0;
    assert s.indices.value != [] by { FaceMapLength(counts); assert |Range(0, TriCount(counts))| > 0; }
    assert SliceRows(g.triangles, ps) == g.triangles;
  }

  /** A single quad with per-vertex UVs stays on the shared path and is split along its 0-2 diagonal. */
  lemma QuadWithVertexUVs(path: Path, points: seq<Vec3>, uvs: seq<Vec2>)
    requires |points| == 4 && |uvs| == 4
    ensures var m := MeshData(Some(points), Some([0, 1, 2, 3]), Some([4]),
                              Some(Primvar(VertexInterpolation, Some(uvs), [])), None, []);
            && Indexable(m) && !Flattens(m)
            && MeshGeometry(m).faceMap == [[0, 1]]
            && MeshEvents(path, m) == [Event(path, Mesh3D(points, [Tri(0, 1, 2), Tri(0, 2, 3)], None, Some(uvs)), true)]
  {
    var m := MeshData(Some(points), Some([0, 1, 2, 3]), Some([4]),
                      Some(Primvar(VertexInterpolation, Some(uvs), [])), None, []);
    var counts: seq<nat> := [4];
    var fvi: seq<int> := [0, 1, 2, 3];
    assert counts[..0] == [];
    assert Texcoords(m.st) == Some(uvs);
    assert !Flattens(m);
    assert Sum(counts) == 4;
    assert Indexable(m);
    assert SharedFan(4, 0, fvi) == [Tri(0, 1, 2), Tri(0, 2, 3)];
    assert SharedTris(counts, fvi) == [Tri(0, 1, 2), Tri(0, 2, 3)];
    assert Range(0, 2) == [0, 1];
    assert FaceMap(counts) == [[0, 1]];
    assert MeshGeometry(m) == Geometry(points, [Tri(0, 1, 2), Tri(0, 2, 3)], [[0, 1]], None, Some(uvs));
  }

  /** The same quad with face-varying UVs is flattened into one vertex per corner. */
  lemma QuadWithFaceVaryingUVs(path: Path, points: seq<Vec3>, uvs: seq<Vec2>)
    requires |points| == 4 && |uvs| == 4
    ensures var m := MeshData(Some(points), Some([0, 1, 2, 3]), Some([4]),
                              Some(Primvar(FaceVarying, Some(uvs), [])), None, []);
            && Indexable(m) && Flattens(m)
            && MeshGeometry(m).faceMap == [[0, 1]]
            && |MeshGeometry(m).vertices| == 4
            && MeshEvents(path, m) == [Event(path, Mesh3D(points, [Tri(0, 1, 2), Tri(0, 2, 3)], None, Some(uvs)), true)]
  {
    var m := MeshData(Some(points), Some([0, 1, 2, 3]), Some([4]),
                      Some(Primvar(FaceVarying, Some(uvs), [])), None, []);
    var counts: seq<nat> := [4];
    var fvi: seq<int> := [0, 1, 2, 3];
    assert counts[..0] == [];
    assert Texcoords(m.st) == Some(uvs);
    assert Flattens(m);
    assert Indexable(m);
    assert Fan(4, 0) == [Tri(0, 1, 2), Tri(0, 2, 3)];
    assert CornerTris(counts) == [Tri(0, 1, 2), Tri(0, 2, 3)];
    assert Range(0, 2) == [0, 1];
    assert FaceMap(counts) == [[0, 1]];
    assert Reindex(points, fvi) == points;
    assert MeshGeometry(m) == Geometry(points, [Tri(0, 1, 2), Tri(0, 2, 3)], [[0, 1]], None, Some(uvs));
  }

  /**
   * Two triangles sharing an edge, whose UVs are tagged "vertex" but hold one
   * entry per corner: the length heuristic flattens the mesh, and since the
   * tag still says "vertex" the UVs are read through the corner indices too.
   */
  lemma CornerLengthUVsFlatten(path: Path, points: seq<Vec3>, uvs: seq<Vec2>)
    requires |points| == 4 && |uvs| == 6
    ensures var m := MeshData(Some(points), Some([0, 1, 2, 0, 2, 3]), Some([3, 3]),
                              Some(Primvar(VertexInterpolation, Some(uvs), [])), None, []);
            && Indexable(m) && Flattens(m)
            && MeshGeometry(m).faceMap == [[0], [1]]
            && MeshEvents(path, m) ==
                 [Event(path, Mesh3D([points[0], points[1], points[2], points[0], points[2], points[3]],
                                     [Tri(0, 1, 2), Tri(3, 4, 5)], None,
                                     Some([uvs[0], uvs[1], uvs[2], uvs[0], uvs[2], uvs[3]])), true)]
  {
    var m := MeshData(Some(points), Some([0, 1, 2, 0, 2, 3]), Some([3, 3]),
                      Some(Primvar(VertexInterpolation, Some(uvs), [])), None, []);
    var counts: seq<nat> := [3, 3];
    var fvi: seq<int> := [0, 1, 2, 0, 2, 3];
    assert counts[..1] == [3] && counts[..1][..0] == [];
    assert Texcoords(m.st) == Some(uvs);
    assert Flattens(m);
    assert Indexable(m);
    assert Sum([3]) == 3;
    assert Fan(3, 0) == [Tri(0, 1, 2)];
    assert Fan(3, 3) == [Tri(3, 4, 5)];
    assert CornerTris([3]) == [Tri(0, 1, 2)];
    assert CornerTris(counts) == [Tri(0, 1, 2), Tri(3, 4, 5)];
    assert Range(0, 1) == [0] && Range(1, 1) == [1];
    assert TriCount([3]) == 1;
    assert FaceMap([3]) == [[0]];
    assert FaceMap(counts) == [[0], [1]];
    var flat := [points[0], points[1], points[2], points[0], points[2], points[3]];
    var flatUVs := [uvs[0], uvs[1], uvs[2], uvs[0], uvs[2], uvs[3]];
    assert Reindex(points, fvi) == flat;
    assert Reindex(uvs, fvi) == flatUVs;
    assert MeshGeometry(m) == Geometry(flat, [Tri(0, 1, 2), Tri(3, 4, 5)], [[0], [1]], None, Some(flatUVs));
  }
}
