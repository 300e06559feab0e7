/**
 * Values shared by every logger of the model: the optional-value and result
 * wrappers, the geometric values kept abstract, and the append-only event log that
 * stands for the visualization viewer (one entry per entity-log call).
 */
module Viewer {

  datatype Option<+T> = None | Some(value: T)

  /** A value, or the message of the exception raised instead. */
  datatype Result<+T> = Ok(value: T) | Err(message: string)

  /** An entity path in the viewer, the same string as the prim path. */
  type Path = string

  /** Positions, normals and texture coordinates are compared by value only. */
  datatype Vec3 = Vec3(x: real, y: real, z: real)
  datatype Vec2 = Vec2(u: real, v: real)

  /** One row of a triangle-index list. */
  datatype Tri = Tri(a: int, b: int, c: int)

  /** A 4x4 local transformation; only equality is used by the loggers. */
  type Matrix = seq<real>

  /** What one entity-log call sends. */
  datatype Payload =
    | Transform3D(matrix: Matrix)
    | RigidTransform(translation: seq<real>, quaternion: seq<real>)
    | Mesh3D(vertices: seq<Vec3>, triangles: seq<Tri>,
             normals: Option<seq<Vec3>>, texcoords: Option<seq<Vec2>>)
    | Points3D(positions: seq<Vec3>)
    | Boxes3D
    | ClearFlat
      /** The transforms and visuals below one Isaac Lab environment root. */
    | SceneStructure

  datatype Event = Event(path: Path, payload: Payload, isStatic: bool)

  predicate IsTransform(e: Event) {
    e.payload.Transform3D? || e.payload.RigidTransform?
  }

  /** The clear instruction a logger issues for a path that vanished. */
  function ClearEvent(p: Path): Event {
    Event(p, ClearFlat, false)
  }

  /**
   * `clears` clears every path of `paths` exactly once, and nothing else, in
   * some order: the shape of the sweep that closes a stage traversal.
   */
  predicate ClearsExactly(clears: seq<Event>, paths: set<Path>)
    decreases |clears|
  {
    if clears == [] then paths == {}
    else
      var last := clears[|clears| - 1];
      && last == ClearEvent(last.path)
      && last.path in paths
      && ClearsExactly(clears[..|clears| - 1], paths - {last.path})
  }

  /** What ClearsExactly amounts to: one non-static clear per path, for no other path, none twice. */
  lemma ClearsExactlyMeans(clears: seq<Event>, paths: set<Path>)
    requires ClearsExactly(clears, paths)
    ensures |clears| == |paths|
    ensures forall i :: 0 <= i < |clears| ==> clears[i].payload == ClearFlat && !clears[i].isStatic
    ensures forall i :: 0 <= i < |clears| ==> clears[i].path in paths
    ensures forall p :: p in paths ==> exists i :: 0 <= i < |clears| && clears[i].path == p
    ensures forall i, j :: 0 <= i < j < |clears| ==> clears[i].path != clears[j].path
  {
    ClearsShape(clears, paths);
    ClearsCover(clears, paths);
    ClearsDistinct(clears, paths);
  }

  lemma {:induction false} ClearsShape(clears: seq<Event>, paths: set<Path>)
    requires ClearsExactly(clears, paths)
    ensures forall i :: 0 <= i < |clears| ==> clears[i] == ClearEvent(clears[i].path) && clears[i].path in paths
  {
    if clears != [] {
      var n := |clears| - 1;
      ClearsShape(clears[..n], paths - {clears[n].path});
      forall i | 0 <= i < n ensures clears[i] == ClearEvent(clears[i].path) && clears[i].path in paths {
        assert clears[..n][i] == clears[i];
      }
    }
  }

  lemma {:induction false} ClearsCover(clears: seq<Event>, paths: set<Path>)
    requires ClearsExactly(clears, paths)
    ensures |clears| == |paths|
    ensures forall p :: p in paths ==> exists i :: 0 <= i < |clears| && clears[i].path == p
  {
    if clears != [] {
      var n := |clears| - 1;
      var last := clears[n].path;
      ClearsCover(clears[..n], paths - {last});
      assert paths == (paths - {last}) + {last};
      forall p | p in paths ensures exists i :: 0 <= i < |clears| && clears[i].path == p {
        if p == last {
          assert clears[n].path == p;
        } else {
          var i :| 0 <= i < n && clears[..n][i].path == p;
          assert clears[i].path == p;
        }
      }
    }
  }

  lemma {:induction false} ClearsDistinct(clears: seq<Event>, paths: set<Path>)
    requires ClearsExactly(clears, paths)
    ensures forall i, j :: 0 <= i < j < |clears| ==> clears[i].path != clears[j].path
  {
    if clears != [] {
      var n := |clears| - 1;
      var last := clears[n].path;
      ClearsDistinct(clears[..n], paths - {last});
      ClearsShape(clears[..n], paths - {last});
      forall i, j | 0 <= i < j < |clears| ensures clears[i].path != clears[j].path {
        assert clears[..n][i] == clears[i];
        if j < n {
          assert clears[..n][j] == clears[j];
        }
      }
    }
  }

  /** Appending the clear of a new path extends the cleared set by that path. */
  lemma ClearsExtend(clears: seq<Event>, paths: set<Path>, p: Path)
    requires ClearsExactly(clears, paths) && p !in paths
    ensures ClearsExactly(clears + [ClearEvent(p)], paths + {p})
  {
    var c := clears + [ClearEvent(p)];
    assert c[..|c| - 1] == clears;
    assert (paths + {p}) - {p} == paths;
  }
}
