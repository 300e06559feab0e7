/**
 * One pass of `log_stage` over a stage, shared by both stage loggers: the
 * prim records the traversal yields, what visiting one prim does to the
 * change-tracking memos and to the viewer log, and the sweep that clears
 * transforms whose prims are gone.
 */
module StageTraversal {
  import opened Viewer
  import opened MeshFlattener
  import opened MeshLogging
  import opened Glob

  /** What PhysX reports for a rigid body: its world position and rotation. */
  datatype PhysxPose = PhysxPose(position: seq<real>, rotation: seq<real>)

  /**
   * A prim as the traversal yields it: its path, the schema tests the
   * loggers make, its local transformation, the PhysX pose (None when PhysX
   * has none for it) and its mesh attributes.
   */
  datatype Prim = Prim(
    path: Path,
    isGuide: bool,
    isXformable: bool,
    isMesh: bool,
    isCube: bool,
    hasRigidBody: bool,
    local: Matrix,
    physx: Option<PhysxPose>,
    mesh: MeshData)

  predicate MeshesIndexable(prims: seq<Prim>) {
    forall i :: 0 <= i < |prims| ==> prims[i].isMesh ==> Indexable(prims[i].mesh)
  }

  /** USD paths name one prim each. */
  predicate DistinctPaths(prims: seq<Prim>) {
    forall i, j :: 0 <= i < j < |prims| ==> prims[i].path != prims[j].path
  }

  /**
   * What a traversal is run with: the path filter, whether rigid bodies take
   * their pose from PhysX, and the paths whose pose the Isaac Lab sweep
   * already tracks (their transforms are not logged again).
   */
  datatype Config = Config(filter: Option<seq<string>>, usePhysx: bool, poseTracked: set<Path>)

  /**
   * The state a traversal threads through: the paths seen so far, the USD
   * and PhysX transform memos, the paths whose geometry was logged, the
   * viewer log, and the trace of geometry logging calls.
   */
  datatype Emitter = Emitter(
    current: set<Path>,
    usdMemo: map<Path, Matrix>,
    physxMemo: map<Path, PhysxPose>,
    meshes: set<Path>,
    events: seq<Event>,
    geometryRuns: seq<Path>)

  /** An empty or absent filter lets every path through. */
  predicate Admitted(filter: Option<seq<string>>, path: Path) {
    filter.None? || filter.value == [] || MatchesAny(path, filter.value)
  }

  predicate Visible(cfg: Config, p: Prim) {
    !p.isGuide && Admitted(cfg.filter, p.path)
  }

  /** `_log_usd_transform`: a changed local transformation of an Xformable prim is sent and remembered. */
  function UsdTransformStep(s: Emitter, p: Prim): Emitter {
    if !p.isXformable then s
    else if p.path in s.usdMemo && s.usdMemo[p.path] == p.local then s
    else s.(usdMemo := s.usdMemo[p.path := p.local],
            events := s.events + [Event(p.path, Transform3D(p.local), false)])
  }

  /** `_log_physx_pose`: a changed PhysX pose of a rigid body is sent and remembered. */
  function PhysxStep(s: Emitter, p: Prim): Emitter {
    if !p.hasRigidBody || p.physx.None? then s
    else if p.path in s.physxMemo && s.physxMemo[p.path] == p.physx.value then s
    else s.(physxMemo := s.physxMemo[p.path := p.physx.value],
            events := s.events + [Event(p.path, RigidTransform(p.physx.value.position, p.physx.value.rotation), false)])
  }

  /** `_log_transform`: PhysX for rigid bodies when enabled, USD otherwise. */
  function TransformStep(usePhysx: bool, s: Emitter, p: Prim): Emitter {
    if usePhysx && p.hasRigidBody then PhysxStep(s, p) else UsdTransformStep(s, p)
  }

  /** Meshes and cubes are logged the first time their path is met. */
  function GeometryStep(s: Emitter, p: Prim): Emitter
    requires p.isMesh ==> Indexable(p.mesh)
  {
    var s1 :=
      if p.isMesh && p.path !in s.meshes then
        s.(events := s.events + MeshEvents(p.path, p.mesh), meshes := s.meshes + {p.path},
           geometryRuns := s.geometryRuns + [p.path])
      else s;
    if p.isCube && p.path !in s1.meshes then
      s1.(events := s1.events + [Event(p.path, Boxes3D, true)], meshes := s1.meshes + {p.path},
          geometryRuns := s1.geometryRuns + [p.path])
    else s1
  }

  /** The body of the traversal loop for one prim. */
  function Visit(cfg: Config, s: Emitter, p: Prim): Emitter
    requires p.isMesh ==> Indexable(p.mesh)
  {
    if !Visible(cfg, p) then s
    else
      var s1 := s.(current := s.current + {p.path});
      var s2 := if p.path in cfg.poseTracked then s1 else TransformStep(cfg.usePhysx, s1, p);
      GeometryStep(s2, p)
  }

  function Traverse(cfg: Config, s: Emitter, prims: seq<Prim>): Emitter
    requires MeshesIndexable(prims)
  {
    if prims == [] then s
    else Visit(cfg, Traverse(cfg, s, prims[..|prims| - 1]), prims[|prims| - 1])
  }

  /** The memo after the sweep: only the paths seen in this traversal. */
  function KeepPresent<V>(memo: map<Path, V>, current: set<Path>): map<Path, V> {
    map k | k in memo && k in current :: memo[k]
  }

  // ----- The sweep -----

  /**
   * The closing loop of `log_stage`: every remembered path the traversal did
   * not see gets one clear and leaves the memo; the others stay. Keys are
   * taken in an unspecified order.
   */
  method Sweep<V>(memo: map<Path, V>, current: set<Path>) returns (kept: map<Path, V>, clears: seq<Event>)
    ensures kept == KeepPresent(memo, current)
    ensures ClearsExactly(clears, memo.Keys - current)
  {
    kept := memo;
    clears := [];
    var pending := memo.Keys;
    ghost var cleared: set<Path> := {};
    SweepStart(memo, current);
    while pending != {}
      invariant SweepInv(memo, current, pending, cleared, kept, clears)
      decreases |pending|
    {
      var p :| p in pending;
      SweepStep(memo, current, pending, cleared, kept, clears, p);
      if p !in current {
        clears := clears + [ClearEvent(p)];
        cleared := cleared + {p};
        kept := kept - {p};
      }
      pending := pending - {p};
    }
    SweepEnd(memo, current, cleared, kept, clears);
  }

  ghost predicate SweepInv<V>(memo: map<Path, V>, current: set<Path>, pending: set<Path>, cleared: set<Path>,
                              kept: map<Path, V>, clears: seq<Event>) {
    && pending <= memo.Keys
    && cleared == (memo.Keys - pending) - current
    && kept == Unswept(memo, pending, current)
    && ClearsExactly(clears, cleared)
  }

  lemma SweepStart<V>(memo: map<Path, V>, current: set<Path>)
    ensures SweepInv(memo, current, memo.Keys, {}, memo, [])
  {
    assert memo == Unswept(memo, memo.Keys, current);
  }

  lemma SweepStep<V>(memo: map<Path, V>, current: set<Path>, pending: set<Path>, cleared: set<Path>,
                     kept: map<Path, V>, clears: seq<Event>, p: Path)
    requires SweepInv(memo, current, pending, cleared, kept, clears) && p in pending
    ensures p !in current ==> SweepInv(memo, current, pending - {p}, cleared + {p}, kept - {p}, clears + [ClearEvent(p)])
    ensures p in current ==> SweepInv(memo, current, pending - {p}, cleared, kept, clears)
  {
    UnsweptStep(memo, pending, current, p);
    if p !in current {
      ClearsExtend(clears, cleared, p);
      assert cleared + {p} == (memo.Keys - (pending - {p})) - current;
    } else {
      assert cleared == (memo.Keys - (pending - {p})) - current;
    }
  }

  lemma SweepEnd<V>(memo: map<Path, V>, current: set<Path>, cleared: set<Path>, kept: map<Path, V>, clears: seq<Event>)
    requires SweepInv(memo, current, {}, cleared, kept, clears)
    ensures kept == KeepPresent(memo, current)
    ensures ClearsExactly(clears, memo.Keys - current)
  {
    assert cleared == memo.Keys - current;
    assert Unswept(memo, {}, current) == KeepPresent(memo, current);
  }

  /** The memo part way through the sweep: still-pending keys are kept as they are. */
  ghost function Unswept<V>(memo: map<Path, V>, pending: set<Path>, current: set<Path>): map<Path, V> {
    map k | k in memo && (k in pending || k in current) :: memo[k]
  }

  lemma UnsweptStep<V>(memo: map<Path, V>, pending: set<Path>, current: set<Path>, p: Path)
    requires p in pending
    ensures Unswept(memo, pending - {p}, current) ==
              if p in current then Unswept(memo, pending, current) else Unswept(memo, pending, current) - {p}
  {
  }

  // ----- Properties of one traversal -----

  /** The paths the traversal reports as present: the non-guide prims the filter admits. */
  lemma {:induction false} TraverseCurrent(cfg: Config, s: Emitter, prims: seq<Prim>)
    requires MeshesIndexable(prims)
    ensures Traverse(cfg, s, prims).current ==
              s.current + set i | 0 <= i < |prims| && Visible(cfg, prims[i]) :: prims[i].path
  {
    if prims != [] {
      var prefix := prims[..|prims| - 1];
      TraverseCurrent(cfg, s, prefix);
      var n := |prims| - 1;
      VisitCurrent(cfg, Traverse(cfg, s, prefix), prims[n]);
      var before := set i | 0 <= i < |prefix| && Visible(cfg, prefix[i]) :: prefix[i].path;
      var after := set i | 0 <= i < |prims| && Visible(cfg, prims[i]) :: prims[i].path;
      assert after == before + (if Visible(cfg, prims[n]) then {prims[n].path} else {}) by {
        forall x | x in after ensures x in before + (if Visible(cfg, prims[n]) then {prims[n].path} else {}) {
          var i :| 0 <= i < |prims| && Visible(cfg, prims[i]) && prims[i].path == x;
          if i < n {
            assert prefix[i] == prims[i];
          }
        }
        forall x | x in before ensures x in after {
          var i :| 0 <= i < |prefix| && Visible(cfg, prefix[i]) && prefix[i].path == x;
          assert prims[i] == prefix[i];
        }
      }
    }
  }

  /** One visit adds the prim's path to the present ones exactly when it is visible. */
  lemma VisitCurrent(cfg: Config, s: Emitter, p: Prim)
    requires p.isMesh ==> Indexable(p.mesh)
    ensures Visit(cfg, s, p).current == s.current + (if Visible(cfg, p) then {p.path} else {})
  {
    if Visible(cfg, p) {
      var s1 := s.(current := s.current + {p.path});
      var s2 := if p.path in cfg.poseTracked then s1 else TransformStep(cfg.usePhysx, s1, p);
      assert s2.current == s1.current;
      assert GeometryStep(s2, p).current == s2.current;
    }
  }

  /** The log only grows: a traversal appends to what was there. */
  lemma {:induction false} TraverseAppends(cfg: Config, s: Emitter, prims: seq<Prim>)
    requires MeshesIndexable(prims)
    ensures |s.events| <= |Traverse(cfg, s, prims).events|
    ensures Traverse(cfg, s, prims).events[..|s.events|] == s.events
  {
    if prims != [] {
      var mid := Traverse(cfg, s, prims[..|prims| - 1]);
      TraverseAppends(cfg, s, prims[..|prims| - 1]);
      VisitAppends(cfg, mid, prims[|prims| - 1]);
      assert Traverse(cfg, s, prims).events[..|mid.events|][..|s.events|] == mid.events[..|s.events|];
    }
  }

  lemma VisitAppends(cfg: Config, s: Emitter, p: Prim)
    requires p.isMesh ==> Indexable(p.mesh)
    ensures |s.events| <= |Visit(cfg, s, p).events|
    ensures Visit(cfg, s, p).events[..|s.events|] == s.events
  {
    if Visible(cfg, p) {
      var s1 := s.(current := s.current + {p.path});
      var s2 := if p.path in cfg.poseTracked then s1 else TransformStep(cfg.usePhysx, s1, p);
      assert |s.events| <= |s2.events| && s2.events[..|s.events|] == s.events;
      GeometryHasNoTransforms(s2, p);
      assert Visit(cfg, s, p).events[..|s2.events|][..|s.events|] == s2.events[..|s.events|];
    }
  }

  /** Geometry logging calls made since the memo was last emptied: each path once, exactly the memo. */
  ghost predicate RunsMatchMeshes(runs: seq<Path>, meshes: set<Path>) {
    && (forall i, j :: 0 <= i < j < |runs| ==> runs[i] != runs[j])
    && (forall p :: p in runs <==> p in meshes)
  }

  /** A traversal logs each mesh or cube path at most once, and remembers it. */
  lemma {:induction false} GeometryAtMostOnce(cfg: Config, s: Emitter, prims: seq<Prim>)
    requires MeshesIndexable(prims)
    requires RunsMatchMeshes(s.geometryRuns, s.meshes)
    ensures RunsMatchMeshes(Traverse(cfg, s, prims).geometryRuns, Traverse(cfg, s, prims).meshes)
  {
    if prims != [] {
      GeometryAtMostOnce(cfg, s, prims[..|prims| - 1]);
      VisitKeepsRuns(cfg, Traverse(cfg, s, prims[..|prims| - 1]), prims[|prims| - 1]);
    }
  }

  lemma VisitKeepsRuns(cfg: Config, s: Emitter, p: Prim)
    requires p.isMesh ==> Indexable(p.mesh)
    requires RunsMatchMeshes(s.geometryRuns, s.meshes)
    ensures RunsMatchMeshes(Visit(cfg, s, p).geometryRuns, Visit(cfg, s, p).meshes)
  {
    if Visible(cfg, p) {
      var s1 := s.(current := s.current + {p.path});
      var s2 := if p.path in cfg.poseTracked then s1 else TransformStep(cfg.usePhysx, s1, p);
      assert s2.geometryRuns == s.geometryRuns && s2.meshes == s.meshes;
      GeometryKeepsRuns(s2, p);
    }
  }

  lemma GeometryKeepsRuns(s: Emitter, p: Prim)
    requires p.isMesh ==> Indexable(p.mesh)
    requires RunsMatchMeshes(s.geometryRuns, s.meshes)
    ensures RunsMatchMeshes(GeometryStep(s, p).geometryRuns, GeometryStep(s, p).meshes)
  {
    var s1 := s;
    if p.isMesh && p.path !in s.meshes {
      RunAdded(s.geometryRuns, s.meshes, p.path);
      s1 := s.(events := s.events + MeshEvents(p.path, p.mesh), meshes := s.meshes + {p.path},
               geometryRuns := s.geometryRuns + [p.path]);
    }
    if p.isCube && p.path !in s1.meshes {
      RunAdded(s1.geometryRuns, s1.meshes, p.path);
    }
  }

  /** Recording a new path as a run and as logged keeps the two in step. */
  lemma RunAdded(runs: seq<Path>, meshes: set<Path>, x: Path)
    requires RunsMatchMeshes(runs, meshes) && x !in meshes
    ensures RunsMatchMeshes(runs + [x], meshes + {x})
  {
    var r := runs + [x];
    forall i, j | 0 <= i < j < |r| ensures r[i] != r[j] {
      if j == |runs| {
        assert r[i] == runs[i] && runs[i] in runs;
      } else {
        assert r[i] == runs[i] && r[j] == runs[j];
      }
    }
  }

  /** Only the transform events of a log. */
  function Transforms(es: seq<Event>): seq<Event> {
    if es == [] then []
    else Transforms(es[..|es| - 1]) + (if IsTransform(es[|es| - 1]) then [es[|es| - 1]] else [])
  }

  lemma {:induction false} TransformsAppend(a: seq<Event>, b: seq<Event>)
    ensures Transforms(a + b) == Transforms(a) + Transforms(b)
    decreases |b|
  {
    if b == [] {
      assert a + b == a;
    } else {
      assert (a + b)[..|a + b| - 1] == a + b[..|b| - 1];
      TransformsAppend(a, b[..|b| - 1]);
    }
  }

  lemma {:induction false} GeometryHasNoTransforms(s: Emitter, p: Prim)
    requires p.isMesh ==> Indexable(p.mesh)
    ensures |s.events| <= |GeometryStep(s, p).events|
    ensures GeometryStep(s, p).events[..|s.events|] == s.events
    ensures Transforms(GeometryStep(s, p).events[|s.events|..]) == []
    ensures GeometryStep(s, p).usdMemo == s.usdMemo && GeometryStep(s, p).physxMemo == s.physxMemo
  {
    var t := GeometryStep(s, p);
    var added := t.events[|s.events|..];
    assert t.events == s.events + added;
    assert forall i :: 0 <= i < |added| ==> !IsTransform(added[i]) by {
      if p.isMesh && p.path !in s.meshes {
        var me := MeshEvents(p.path, p.mesh);
        assert forall i :: 0 <= i < |me| ==> me[i].payload.Mesh3D? || me[i].payload.Points3D?;
      }
    }
    NoTransforms(added);
  }

  lemma {:induction false} NoTransforms(es: seq<Event>)
    requires forall i :: 0 <= i < |es| ==> !IsTransform(es[i])
    ensures Transforms(es) == []
  {
    if es != [] {
      NoTransforms(es[..|es| - 1]);
    }
  }

  /**
   * For a visible Xformable prim on the USD route, one visit sends its
   * transform iff the path is new to the memo or its matrix changed, and
   * the memo then holds the current matrix.
   */
  lemma UsdTransformIffChanged(cfg: Config, s: Emitter, p: Prim)
    requires p.isMesh ==> Indexable(p.mesh)
    requires Visible(cfg, p) && p.isXformable && p.path !in cfg.poseTracked && !(cfg.usePhysx && p.hasRigidBody)
    ensures var t := Visit(cfg, s, p);
            && t.usdMemo == s.usdMemo[p.path := p.local]
            && |s.events| <= |t.events|
            && Transforms(t.events[|s.events|..]) ==
                 if p.path in s.usdMemo && s.usdMemo[p.path] == p.local then []
                 else [Event(p.path, Transform3D(p.local), false)]
  {
    var s2 := UsdTransformStep(s.(current := s.current + {p.path}), p);
    var own: seq<Event> :=
      if p.path in s.usdMemo && s.usdMemo[p.path] == p.local then [] else [Event(p.path, Transform3D(p.local), false)];
    assert s2.events == s.events + own;
    assert s2.usdMemo == s.usdMemo[p.path := p.local];
    assert Transforms(own) == own by {
      if own != [] {
        assert own[..0] == [];
      }
    }
    AfterTransform(cfg, s, p, s2, own);
  }

  /** The geometry logged after a transform adds no transform of its own. */
  lemma AfterTransform(cfg: Config, s: Emitter, p: Prim, s2: Emitter, own: seq<Event>)
    requires p.isMesh ==> Indexable(p.mesh)
    requires Visible(cfg, p) && p.path !in cfg.poseTracked
    requires s2 == TransformStep(cfg.usePhysx, s.(current := s.current + {p.path}), p)
    requires s2.events == s.events + own
    ensures var t := Visit(cfg, s, p);
            && t.usdMemo == s2.usdMemo && t.physxMemo == s2.physxMemo
            && |s.events| <= |t.events|
            && Transforms(t.events[|s.events|..]) == Transforms(own)
  {
    var t := Visit(cfg, s, p);
    VisitUnfolds(cfg, s, p, s2);
    GeometryHasNoTransforms(s2, p);
    var rest := t.events[|s2.events|..];
    assert t.events == s2.events + rest;
    assert t.events[|s.events|..] == own + rest;
    TransformsAppend(own, rest);
  }

  /** A visible, untracked prim: the transform step, then the geometry step. */
  lemma VisitUnfolds(cfg: Config, s: Emitter, p: Prim, s2: Emitter)
    requires p.isMesh ==> Indexable(p.mesh)
    requires Visible(cfg, p) && p.path !in cfg.poseTracked
    requires s2 == TransformStep(cfg.usePhysx, s.(current := s.current + {p.path}), p)
    ensures Visit(cfg, s, p) == GeometryStep(s2, p)
  {
  }

  /**
   * For a visible rigid body on the PhysX route, one visit sends its PhysX
   * pose iff PhysX has one and it is new or changed.
   */
  lemma PhysxPoseIffChanged(cfg: Config, s: Emitter, p: Prim)
    requires p.isMesh ==> Indexable(p.mesh)
    requires Visible(cfg, p) && p.path !in cfg.poseTracked && cfg.usePhysx && p.hasRigidBody
    ensures var t := Visit(cfg, s, p);
            && t.usdMemo == s.usdMemo
            && |s.events| <= |t.events|
            && Transforms(t.events[|s.events|..]) ==
                 if p.physx.None? || (p.path in s.physxMemo && s.physxMemo[p.path] == p.physx.value) then []
                 else [Event(p.path, RigidTransform(p.physx.value.position, p.physx.value.rotation), false)]
  {
    var s2 := PhysxStep(s.(current := s.current + {p.path}), p);
    var own: seq<Event> :=
      if p.physx.None? || (p.path in s.physxMemo && s.physxMemo[p.path] == p.physx.value) then []
      else [Event(p.path, RigidTransform(p.physx.value.position, p.physx.value.rotation), false)];
    assert s2.events == s.events + own;
    assert Transforms(own) == own by {
      if own != [] {
        assert own[..0] == [];
      }
    }
    AfterTransform(cfg, s, p, s2, own);
  }

  /** A prim whose Isaac Lab pose is tracked gets no transform from the traversal. */
  lemma TrackedPrimGetsNoTransform(cfg: Config, s: Emitter, p: Prim)
    requires p.isMesh ==> Indexable(p.mesh)
    requires p.path in cfg.poseTracked
    ensures Visit(cfg, s, p).usdMemo == s.usdMemo && Visit(cfg, s, p).physxMemo == s.physxMemo
    ensures |s.events| <= |Visit(cfg, s, p).events|
    ensures Transforms(Visit(cfg, s, p).events[|s.events|..]) == []
  {
    if Visible(cfg, p) {
      GeometryHasNoTransforms(s.(current := s.current + {p.path}), p);
    } else {
      assert Visit(cfg, s, p).events[|s.events|..] == [];
    }
  }

  // ----- A repeated traversal of an unchanged stage -----

  /** Everything the traversal would send for p is already remembered. */
  predicate Settled(cfg: Config, s: Emitter, p: Prim) {
    Visible(cfg, p) ==>
      && (p.path !in cfg.poseTracked ==>
            if cfg.usePhysx && p.hasRigidBody then
              p.physx.Some? ==> p.path in s.physxMemo && s.physxMemo[p.path] == p.physx.value
            else
              p.isXformable ==> p.path in s.usdMemo && s.usdMemo[p.path] == p.local)
      && (p.isMesh || p.isCube ==> p.path in s.meshes)
  }

  lemma VisitSettles(cfg: Config, s: Emitter, p: Prim)
    requires p.isMesh ==> Indexable(p.mesh)
    ensures Settled(cfg, Visit(cfg, s, p), p)
  {
  }

  lemma VisitKeepsSettled(cfg: Config, s: Emitter, p: Prim, q: Prim)
    requires p.isMesh ==> Indexable(p.mesh)
    requires p.path != q.path && Settled(cfg, s, q)
    ensures Settled(cfg, Visit(cfg, s, p), q)
  {
  }

  /** Visiting a settled prim only records its path as present. */
  lemma SettledVisitIsSilent(cfg: Config, s: Emitter, p: Prim)
    requires p.isMesh ==> Indexable(p.mesh)
    requires Settled(cfg, s, p)
    ensures Visit(cfg, s, p) == s.(current := s.current + (if Visible(cfg, p) then {p.path} else {}))
  {
  }

  lemma {:induction false} TraverseSettles(cfg: Config, s: Emitter, prims: seq<Prim>)
    requires MeshesIndexable(prims) && DistinctPaths(prims)
    ensures forall i :: 0 <= i < |prims| ==> Settled(cfg, Traverse(cfg, s, prims), prims[i])
  {
    if prims != [] {
      var prefix := prims[..|prims| - 1];
      var last := prims[|prims| - 1];
      TraverseSettles(cfg, s, prefix);
      var mid := Traverse(cfg, s, prefix);
      forall i | 0 <= i < |prims| ensures Settled(cfg, Traverse(cfg, s, prims), prims[i]) {
        if i == |prims| - 1 {
          VisitSettles(cfg, mid, last);
        } else {
          assert prefix[i] == prims[i];
          VisitKeepsSettled(cfg, mid, last, prims[i]);
        }
      }
    }
  }

  /** Traversing prims that are all settled sends nothing and changes no memo. */
  lemma {:induction false} SettledTraverseIsSilent(cfg: Config, s: Emitter, prims: seq<Prim>)
    requires MeshesIndexable(prims)
    requires forall i :: 0 <= i < |prims| ==> Settled(cfg, s, prims[i])
    ensures Traverse(cfg, s, prims).(current := s.current) == s
  {
    if prims != [] {
      var prefix := prims[..|prims| - 1];
      var last := prims[|prims| - 1];
      forall i | 0 <= i < |prefix| ensures Settled(cfg, s, prefix[i]) {
        assert prefix[i] == prims[i];
      }
      SettledTraverseIsSilent(cfg, s, prefix);
      var mid := Traverse(cfg, s, prefix);
      assert Settled(cfg, mid, last);
      SettledVisitIsSilent(cfg, mid, last);
    }
  }

  /**
   * `log_stage` run twice over an unchanged stage: the second run sends
   * nothing, changes no memo, and its sweep finds nothing to clear.
   */
  lemma UnchangedStageIsSilent(cfg: Config, s: Emitter, prims: seq<Prim>)
    requires MeshesIndexable(prims) && DistinctPaths(prims)
    ensures var first := Traverse(cfg, s.(current := {}), prims);
            var swept := first.(current := {}, usdMemo := KeepPresent(first.usdMemo, first.current));
            var second := Traverse(cfg, swept, prims);
            && second.(current := {}) == swept
            && second.usdMemo.Keys - second.current == {}
  {
    var first := Traverse(cfg, s.(current := {}), prims);
    var swept := first.(current := {}, usdMemo := KeepPresent(first.usdMemo, first.current));
    TraverseSettles(cfg, s.(current := {}), prims);
    forall i | 0 <= i < |prims| ensures Settled(cfg, swept, prims[i]) {
      assert Settled(cfg, first, prims[i]);
      if Visible(cfg, prims[i]) {
        TraverseCurrent(cfg, s.(current := {}), prims);
        assert prims[i].path in first.current;
      }
    }
    SettledTraverseIsSilent(cfg, swept, prims);
    TraverseCurrent(cfg, s.(current := {}), prims);
    TraverseCurrent(cfg, swept, prims);
  }
}
