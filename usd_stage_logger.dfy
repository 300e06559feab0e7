/**
 * The stage logger of the `usd_rerun_logger` package. Unlike the older
 * logger it filters paths with glob patterns, can read rigid-body poses from
 * PhysX, and first sweeps the body poses of an Isaac Lab scene, whose paths
 * then get no USD transform of their own.
 */
module UsdStageLogger {
  import opened Viewer
  import opened Strings
  import opened Glob
  import opened MeshLogging
  import opened StageTraversal
  import opened BodyPoses

  /** The `path_filter` argument: absent, one pattern, or a list of patterns. */
  datatype PathFilterArg = NoFilter | Pattern(pattern: string) | Patterns(patterns: seq<string>)

  /** A single pattern becomes a one-element list; a list or None is kept. */
  function NormalizeFilter(arg: PathFilterArg): Option<seq<string>> {
    match arg
    case NoFilter => None
    case Pattern(p) => Some([p])
    case Patterns(ps) => Some(ps)
  }

  /**
   * What the normalised filter admits: everything without a filter or with
   * an empty list, otherwise exactly the paths some pattern matches.
   */
  lemma NormalizedFilterAdmits(arg: PathFilterArg, path: Path)
    ensures arg.NoFilter? ==> Admitted(NormalizeFilter(arg), path)
    ensures arg.Pattern? ==> (Admitted(NormalizeFilter(arg), path) <==> Matches(path, arg.pattern))
    ensures arg.Patterns? ==>
              (Admitted(NormalizeFilter(arg), path) <==> arg.patterns == [] || MatchesAny(path, arg.patterns))
  {
    if arg.Pattern? && Matches(path, arg.pattern) {
      assert [arg.pattern][0] == arg.pattern;
    }
  }

  /** The Isaac Lab pose sweep `log_stage` starts with: no environment filter, no structure pass. */
  ghost function PosePass(scene: Option<LabScene>, s: PoseState): PoseState
    requires scene.Some? ==> SceneShaped(scene.value)
  {
    if scene.None? then s
    else
      SceneItemsSized(scene.value.articulations, scene.value.numEnvs, None, false);
      Apply(s, SceneItems(scene.value.articulations, scene.value.numEnvs, None, false))
  }

  /** The traversal that follows it, skipping the transforms of the paths the sweep tracks. */
  ghost function StagePass(filter: Option<seq<string>>, usePhysx: bool, poses: PoseState,
                           usd: map<Path, Matrix>, physx: map<Path, PhysxPose>, meshes: set<Path>,
                           runs: seq<Path>, prims: seq<Prim>): Emitter
    requires MeshesIndexable(prims)
  {
    Traverse(Config(filter, usePhysx, poses.memo.Keys), Emitter({}, usd, physx, meshes, poses.events, runs), prims)
  }

  // ----- The geometry step as the code stands -----

  /**
   * How a traversal of `log_stage` ends as the code stands. The loop calls
   * `self._log_mesh` and `self._log_cube`, which this class does not define,
   * so the first visible mesh or cube whose path is not yet logged raises
   * AttributeError: `at` is that path and `s` the state reached, its
   * transform already sent. The class below models the intended step.
   */
  datatype Outcome = Finished(s: Emitter) | Raised(at: Path, s: Emitter)

  /** A prim at which the loop as written reaches an undefined method. */
  predicate Unlogged(cfg: Config, meshes: set<Path>, p: Prim) {
    Visible(cfg, p) && (p.isMesh || p.isCube) && p.path !in meshes
  }

  function VisitAsWritten(cfg: Config, s: Emitter, p: Prim): Outcome {
    if !Visible(cfg, p) then Finished(s)
    else
      var s1 := s.(current := s.current + {p.path});
      var s2 := if p.path in cfg.poseTracked then s1 else TransformStep(cfg.usePhysx, s1, p);
      if (p.isMesh || p.isCube) && p.path !in s2.meshes then Raised(p.path, s2) else Finished(s2)
  }

  function TraverseAsWritten(cfg: Config, s: Emitter, prims: seq<Prim>): Outcome {
    if prims == [] then Finished(s)
    else
      var before := TraverseAsWritten(cfg, s, prims[..|prims| - 1]);
      if before.Raised? then before else VisitAsWritten(cfg, before.s, prims[|prims| - 1])
  }

  /**
   * The traversal as written raises iff some visible mesh or cube is not
   * yet logged, and then at the first such prim. It never adds to the
   * logged set, and it only adds USD memo keys: on a raise the clear sweep
   * is not reached, so no vanished path leaves the memo.
   */
  lemma {:induction false} TraverseAsWrittenRaises(cfg: Config, s: Emitter, prims: seq<Prim>)
    ensures TraverseAsWritten(cfg, s, prims).s.meshes == s.meshes
    ensures s.usdMemo.Keys <= TraverseAsWritten(cfg, s, prims).s.usdMemo.Keys
    ensures TraverseAsWritten(cfg, s, prims).Raised? <==>
              exists i :: 0 <= i < |prims| && Unlogged(cfg, s.meshes, prims[i])
    ensures TraverseAsWritten(cfg, s, prims).Raised? ==>
              exists i :: 0 <= i < |prims| && Unlogged(cfg, s.meshes, prims[i])
                          && prims[i].path == TraverseAsWritten(cfg, s, prims).at
                          && forall j :: 0 <= j < i ==> !Unlogged(cfg, s.meshes, prims[j])
  {
    if prims != [] {
      var n := |prims| - 1;
      var prefix := prims[..n];
      TraverseAsWrittenRaises(cfg, s, prefix);
      var before := TraverseAsWritten(cfg, s, prefix);
      if before.Raised? {
        var i :| 0 <= i < |prefix| && Unlogged(cfg, s.meshes, prefix[i]) && prefix[i].path == before.at
                 && forall j :: 0 <= j < i ==> !Unlogged(cfg, s.meshes, prefix[j]);
        assert prims[i] == prefix[i];
        assert forall j :: 0 <= j < i ==> prims[j] == prefix[j];
      } else {
        assert forall j :: 0 <= j < n ==> prims[j] == prefix[j];
        if Unlogged(cfg, s.meshes, prims[n]) {
          assert TraverseAsWritten(cfg, s, prims).at == prims[n].path;
        } else {
          assert forall j :: 0 <= j < |prims| ==> !Unlogged(cfg, s.meshes, prims[j]);
        }
      }
    }
  }

  /**
   * A later call on the same stage with the same filter, its logged set
   * still what the raise left, raises again at the same prim.
   */
  lemma RaiseRepeats(cfg: Config, s: Emitter, prims: seq<Prim>, cfg2: Config, s2: Emitter)
    requires TraverseAsWritten(cfg, s, prims).Raised?
    requires cfg2.filter == cfg.filter && s2.meshes == TraverseAsWritten(cfg, s, prims).s.meshes
    ensures TraverseAsWritten(cfg2, s2, prims).Raised?
    ensures TraverseAsWritten(cfg2, s2, prims).at == TraverseAsWritten(cfg, s, prims).at
  {
    TraverseAsWrittenRaises(cfg, s, prims);
    TraverseAsWrittenRaises(cfg2, s2, prims);
    assert forall p :: Unlogged(cfg2, s2.meshes, p) == Unlogged(cfg, s.meshes, p);
    var i :| 0 <= i < |prims| && Unlogged(cfg, s.meshes, prims[i]) && prims[i].path == TraverseAsWritten(cfg, s, prims).at
             && forall j :: 0 <= j < i ==> !Unlogged(cfg, s.meshes, prims[j]);
    var i2 :| 0 <= i2 < |prims| && Unlogged(cfg2, s2.meshes, prims[i2]) && prims[i2].path == TraverseAsWritten(cfg2, s2, prims).at
              && forall j :: 0 <= j < i2 ==> !Unlogged(cfg2, s2.meshes, prims[j]);
    assert i == i2;
  }

  /** Where nothing is unlogged, the loop as written is the modelled traversal. */
  lemma {:induction false} AsWrittenAgreesWhenLogged(cfg: Config, s: Emitter, prims: seq<Prim>)
    requires MeshesIndexable(prims)
    requires forall i :: 0 <= i < |prims| ==> !Unlogged(cfg, s.meshes, prims[i])
    ensures Traverse(cfg, s, prims).meshes == s.meshes
    ensures TraverseAsWritten(cfg, s, prims) == Finished(Traverse(cfg, s, prims))
  {
    if prims != [] {
      var prefix := prims[..|prims| - 1];
      assert forall i :: 0 <= i < |prefix| ==> prefix[i] == prims[i];
      AsWrittenAgreesWhenLogged(cfg, s, prefix);
    }
  }

  /** A stage holding one cube, with no filter and nothing logged: the first call raises at the cube. */
  lemma CubeStageRaises()
    ensures var cube := Prim("/World/Cube", false, true, false, true, false, [], None,
                             MeshData(None, None, None, None, None, []));
            var r := TraverseAsWritten(Config(None, false, {}), Emitter({}, map[], map[], {}, [], []), [cube]);
            r.Raised? && r.at == "/World/Cube"
  {
    var cube := Prim("/World/Cube", false, true, false, true, false, [], None,
                     MeshData(None, None, None, None, None, []));
    assert [cube][..0] == [];
  }

  class UsdRerunLogger {
    var stage: Option<seq<Prim>>
    var loggerId: Option<string>
    var pathFilter: Option<seq<string>>
    var loggedMeshes: set<Path>
    var lastUsdTransforms: map<Path, Matrix>
    const usePhysxTransforms: bool
    var lastPhysxTransforms: map<Path, PhysxPose>
    var isaacLabScene: Option<LabScene>
    var lastIsaacLabTransforms: map<Path, seq<real>>
    /** Everything sent to the viewer, in order. */
    var log: seq<Event>
    /** The paths whose geometry was logged since the mesh memo was last emptied, in order. */
    ghost var geometryRuns: seq<Path>

    ghost predicate Valid()
      reads this
    {
      && RunsMatchMeshes(geometryRuns, loggedMeshes)
      && (stage.Some? ==> MeshesIndexable(stage.value))
      && (isaacLabScene.Some? ==> SceneShaped(isaacLabScene.value))
    }

    constructor(usePhysx: bool)
      ensures usePhysxTransforms == usePhysx
      ensures stage.None? && loggerId.None? && pathFilter.None? && isaacLabScene.None?
      ensures loggedMeshes == {} && lastUsdTransforms == map[] && lastPhysxTransforms == map[]
      ensures lastIsaacLabTransforms == map[] && log == [] && geometryRuns == []
      ensures Valid()
    {
      usePhysxTransforms := usePhysx;
      stage := None;
      loggerId := None;
      pathFilter := None;
      loggedMeshes := {};
      lastUsdTransforms := map[];
      lastPhysxTransforms := map[];
      isaacLabScene := None;
      lastIsaacLabTransforms := map[];
      log := [];
      geometryRuns := [];
    }

    /**
     * While a logger id is set: disconnects, drops the stage and the filter
     * and empties the four memos. The Isaac Lab scene is kept.
     */
    method Stop()
      modifies this`stage, this`loggerId, this`pathFilter, this`loggedMeshes, this`geometryRuns
      modifies this`lastUsdTransforms, this`lastPhysxTransforms, this`lastIsaacLabTransforms
      ensures old(loggerId).Some? ==>
                && stage.None? && loggerId.None? && pathFilter.None?
                && loggedMeshes == {} && lastUsdTransforms == map[] && lastPhysxTransforms == map[]
                && lastIsaacLabTransforms == map[] && geometryRuns == []
      ensures old(loggerId).None? ==>
                && stage == old(stage) && loggerId == old(loggerId) && pathFilter == old(pathFilter)
                && loggedMeshes == old(loggedMeshes) && lastUsdTransforms == old(lastUsdTransforms)
                && lastPhysxTransforms == old(lastPhysxTransforms)
                && lastIsaacLabTransforms == old(lastIsaacLabTransforms) && geometryRuns == old(geometryRuns)
      ensures old(Valid()) ==> Valid()
    {
      if loggerId.Some? {
        loggerId := None;
        stage := None;
        pathFilter := None;
        loggedMeshes := {};
        lastUsdTransforms := map[];
        lastPhysxTransforms := map[];
        lastIsaacLabTransforms := map[];
        geometryRuns := [];
      }
    }

    /**
     * Stops any previous session, then takes the stage, the Isaac Lab scene,
     * the normalised filter and the id "<base>_<suffix>" (the suffix is the
     * random number below 10000 the source draws).
     */
    method Initialize(newStage: seq<Prim>, base: string, suffix: nat, filter: PathFilterArg, scene: Option<LabScene>)
      requires suffix < 10000 && MeshesIndexable(newStage)
      requires scene.Some? ==> SceneShaped(scene.value)
      modifies this`stage, this`loggerId, this`pathFilter, this`loggedMeshes, this`geometryRuns
      modifies this`lastUsdTransforms, this`lastPhysxTransforms, this`lastIsaacLabTransforms, this`isaacLabScene
      ensures stage == Some(newStage) && isaacLabScene == scene && pathFilter == NormalizeFilter(filter)
      ensures loggerId == Some(base + "_" + NatToString(suffix))
      ensures loggedMeshes == {} && lastUsdTransforms == map[] && lastPhysxTransforms == map[]
      ensures lastIsaacLabTransforms == map[] && geometryRuns == []
      ensures Valid()
    {
      Stop();
      stage := Some(newStage);
      isaacLabScene := scene;
      pathFilter := NormalizeFilter(filter);
      loggerId := Some(base + "_" + NatToString(suffix));
      loggedMeshes := {};
      lastUsdTransforms := map[];
      lastPhysxTransforms := map[];
      lastIsaacLabTransforms := map[];
      geometryRuns := [];
    }

    /** Lets every mesh and cube be logged again. */
    method ClearLoggedMeshes()
      modifies this`loggedMeshes, this`geometryRuns
      ensures loggedMeshes == {} && geometryRuns == []
      ensures old(Valid()) ==> Valid()
    {
      loggedMeshes := {};
      geometryRuns := [];
    }

    /** The traversal state held in the fields, with the paths seen so far. */
    ghost function Snapshot(current: set<Path>): Emitter
      reads this
    {
      Emitter(current, lastUsdTransforms, lastPhysxTransforms, loggedMeshes, log, geometryRuns)
    }

    /** `_log_isaac_lab_asset_poses`: the pose sweep over every environment, without structure. */
    method LogIsaacLabAssetPoses()
      requires isaacLabScene.Some? ==> SceneShaped(isaacLabScene.value)
      modifies this`lastIsaacLabTransforms, this`log
      ensures PoseState(lastIsaacLabTransforms, log) ==
                PosePass(isaacLabScene, PoseState(old(lastIsaacLabTransforms), old(log)))
    {
      var t := PoseState(lastIsaacLabTransforms, log);
      if isaacLabScene.Some? {
        var scene := isaacLabScene.value;
        t := LogScenePoses(t, scene.articulations, scene.numEnvs, None, false);
      }
      lastIsaacLabTransforms := t.memo;
      log := t.events;
    }

    /** `_log_usd_transform`: the local transformation, sent when it changed. */
    method LogUsdTransform(prim: Prim)
      modifies this`lastUsdTransforms, this`log
      ensures Snapshot({}) == UsdTransformStep(old(Snapshot({})), prim)
    {
      if !prim.isXformable {
        return;
      }
      if prim.path in lastUsdTransforms && lastUsdTransforms[prim.path] == prim.local {
        return;
      }
      lastUsdTransforms := lastUsdTransforms[prim.path := prim.local];
      log := log + [Event(prim.path, Transform3D(prim.local), false)];
    }

    /** `_log_physx_pose`: the PhysX pose of a rigid body, sent when PhysX has one and it changed. */
    method LogPhysxPose(prim: Prim)
      modifies this`lastPhysxTransforms, this`log
      ensures Snapshot({}) == PhysxStep(old(Snapshot({})), prim)
    {
      if !prim.hasRigidBody {
        return;
      }
      if prim.physx.None? {
        return;
      }
      var pose := prim.physx.value;
      if prim.path in lastPhysxTransforms && lastPhysxTransforms[prim.path] == pose {
        return;
      }
      lastPhysxTransforms := lastPhysxTransforms[prim.path := pose];
      log := log + [Event(prim.path, RigidTransform(pose.position, pose.rotation), false)];
    }

    /** `_log_transform`: PhysX for rigid bodies when enabled, USD otherwise. */
    method LogTransform(prim: Prim)
      modifies this`lastUsdTransforms, this`lastPhysxTransforms, this`log
      ensures Snapshot({}) == TransformStep(usePhysxTransforms, old(Snapshot({})), prim)
    {
      if usePhysxTransforms && prim.hasRigidBody {
        LogPhysxPose(prim);
      } else {
        LogUsdTransform(prim);
      }
    }

    /** The body of the traversal loop for one prim. */
    method VisitPrim(prim: Prim, current: set<Path>) returns (next: set<Path>)
      requires prim.isMesh ==> Indexable(prim.mesh)
      modifies this`lastUsdTransforms, this`lastPhysxTransforms, this`log, this`loggedMeshes, this`geometryRuns
      ensures Snapshot(next) ==
                Visit(Config(pathFilter, usePhysxTransforms, lastIsaacLabTransforms.Keys), old(Snapshot(current)), prim)
    {
      next := current;
      if prim.isGuide {
        return;
      }
      var admitted := Admits(prim.path);
      if !admitted {
        return;
      }
      next := next + {prim.path};
      ghost var s1 := old(Snapshot(current)).(current := next);
      if prim.path !in lastIsaacLabTransforms {
        LogTransform(prim);
        assert Snapshot(next) == TransformStep(usePhysxTransforms, s1, prim);
      }
      ghost var s2 := Snapshot(next);
      LogGeometry(prim);
      assert Snapshot(next) == GeometryStep(s2, prim);
    }

    /** `if self._path_filter` followed by the `fnmatch` test. */
    method Admits(path: Path) returns (admitted: bool)
      ensures admitted <==> Admitted(pathFilter, path)
    {
      if pathFilter.None? || pathFilter.value == [] {
        return true;
      }
      admitted := AnyMatches(path, pathFilter.value);
    }

    /** A mesh or cube is logged the first time its path is met. */
    method LogGeometry(prim: Prim)
      requires prim.isMesh ==> Indexable(prim.mesh)
      modifies this`log, this`loggedMeshes, this`geometryRuns
      ensures Snapshot({}) == GeometryStep(old(Snapshot({})), prim)
    {
      if prim.isMesh && prim.path !in loggedMeshes {
        var events := LogMesh(prim.path, prim.mesh);
        log := log + events;
        loggedMeshes := loggedMeshes + {prim.path};
        geometryRuns := geometryRuns + [prim.path];
      }
      if prim.isCube && prim.path !in loggedMeshes {
        log := log + [Event(prim.path, Boxes3D, true)];
        loggedMeshes := loggedMeshes + {prim.path};
        geometryRuns := geometryRuns + [prim.path];
      }
    }

    /** The `for prim in stage.Traverse()` loop of `log_stage`, from an empty set of visited paths. */
    method TraversePrims(prims: seq<Prim>) returns (current: set<Path>)
      requires MeshesIndexable(prims)
      modifies this`lastUsdTransforms, this`lastPhysxTransforms, this`log, this`loggedMeshes, this`geometryRuns
      ensures Snapshot(current) ==
                Traverse(Config(pathFilter, usePhysxTransforms, lastIsaacLabTransforms.Keys), old(Snapshot({})), prims)
    {
      ghost var s0 := Snapshot({});
      ghost var cfg := Config(pathFilter, usePhysxTransforms, lastIsaacLabTransforms.Keys);
      current := {};
      for i := 0 to |prims|
        invariant Snapshot(current) == Traverse(cfg, s0, prims[..i])
      {
        assert prims[..i + 1][..i] == prims[..i];
        current := VisitPrim(prims[i], current);
      }
      assert prims[..|prims|] == prims;
    }

    /**
     * `log_stage`: nothing without a stage; otherwise the Isaac Lab pose
     * sweep, the traversal, and one clear for each remembered USD transform
     * whose prim was not seen. The PhysX and Isaac Lab memos are not swept.
     */
    method LogStage()
      requires Valid()
      modifies this`lastUsdTransforms, this`lastPhysxTransforms, this`log, this`loggedMeshes, this`geometryRuns
      modifies this`lastIsaacLabTransforms
      ensures Valid()
      ensures old(stage).None? ==>
                && log == old(log) && loggedMeshes == old(loggedMeshes) && lastUsdTransforms == old(lastUsdTransforms)
                && lastPhysxTransforms == old(lastPhysxTransforms) && lastIsaacLabTransforms == old(lastIsaacLabTransforms)
      ensures old(stage).Some? ==>
                var p := PosePass(old(isaacLabScene), PoseState(old(lastIsaacLabTransforms), old(log)));
                var t := StagePass(old(pathFilter), usePhysxTransforms, p, old(lastUsdTransforms),
                                   old(lastPhysxTransforms), old(loggedMeshes), old(geometryRuns), old(stage).value);
                && lastIsaacLabTransforms == p.memo
                && lastPhysxTransforms == t.physxMemo
                && loggedMeshes == t.meshes
                && geometryRuns == t.geometryRuns
                && lastUsdTransforms == KeepPresent(t.usdMemo, t.current)
                && |t.events| <= |log| && log[..|t.events|] == t.events
                && ClearsExactly(log[|t.events|..], t.usdMemo.Keys - t.current)
    {
      if stage.None? {
        return;
      }
      LogIsaacLabAssetPoses();
      ghost var s0 := Snapshot({});
      var current := TraversePrims(stage.value);
      ghost var t := Snapshot(current);
      GeometryAtMostOnce(Config(pathFilter, usePhysxTransforms, lastIsaacLabTransforms.Keys), s0, stage.value);
      var kept, clears := Sweep(lastUsdTransforms, current);
      lastUsdTransforms := kept;
      log := log + clears;
      assert log[..|t.events|] == t.events;
      assert log[|t.events|..] == clears;
    }
  }

  /** `any(fnmatch(path, p) for p in patterns)`, scanning the patterns in order. */
  method AnyMatches(path: Path, patterns: seq<string>) returns (r: bool)
    ensures r <==> MatchesAny(path, patterns)
  {
    for i := 0 to |patterns|
      invariant forall j :: 0 <= j < i ==> !Matches(path, patterns[j])
    {
      if Matches(path, patterns[i]) {
        return true;
      }
    }
    return false;
  }

  /**
   * `log_stage` run twice on an unchanged stage and scene with distinct
   * paths: whatever the first run sent and cleared, the second sends
   * nothing, clears nothing and leaves every memo as the first left it.
   */
  lemma SecondLogStageIsSilent(filter: Option<seq<string>>, usePhysx: bool, scene: Option<LabScene>, prims: seq<Prim>,
                               usd: map<Path, Matrix>, physx: map<Path, PhysxPose>, lab: map<Path, seq<real>>,
                               meshes: set<Path>, log: seq<Event>, runs: seq<Path>, clears: seq<Event>)
    requires MeshesIndexable(prims) && DistinctPaths(prims)
    requires scene.Some? ==> SceneShaped(scene.value)
    requires scene.Some? ==> DistinctBodies(SceneItems(scene.value.articulations, scene.value.numEnvs, None, false))
    ensures var p1 := PosePass(scene, PoseState(lab, log));
            var t1 := StagePass(filter, usePhysx, p1, usd, physx, meshes, runs, prims);
            var log1 := t1.events + clears;
            var p2 := PosePass(scene, PoseState(p1.memo, log1));
            var t2 := StagePass(filter, usePhysx, p2, KeepPresent(t1.usdMemo, t1.current), t1.physxMemo,
                                t1.meshes, t1.geometryRuns, prims);
            && p2 == PoseState(p1.memo, log1)
            && t2.events == log1
            && t2.physxMemo == t1.physxMemo && t2.meshes == t1.meshes
            && KeepPresent(t2.usdMemo, t2.current) == KeepPresent(t1.usdMemo, t1.current)
            && t2.usdMemo.Keys - t2.current == {}
  {
    var p1 := PosePass(scene, PoseState(lab, log));
    var t1 := StagePass(filter, usePhysx, p1, usd, physx, meshes, runs, prims);
    var log1 := t1.events + clears;
    if scene.Some? {
      var items := SceneItems(scene.value.articulations, scene.value.numEnvs, None, false);
      SceneItemsSized(scene.value.articulations, scene.value.numEnvs, None, false);
      NoStructureItems(scene.value.articulations, scene.value.numEnvs, None);
      ApplyRecordsPoses(PoseState(lab, log), items);
      RecordedSweepIsSilent(PoseState(p1.memo, log1), items);
    }
    var p2 := PosePass(scene, PoseState(p1.memo, log1));
    assert p2 == PoseState(p1.memo, log1);
    var cfg := Config(filter, usePhysx, p1.memo.Keys);
    var s := Emitter({}, usd, physx, meshes, p1.events, runs);
    var swept := t1.(current := {}, usdMemo := KeepPresent(t1.usdMemo, t1.current), events := log1);
    TraverseSettles(cfg, s, prims);
    TraverseCurrent(cfg, s, prims);
    forall i | 0 <= i < |prims| ensures Settled(cfg, swept, prims[i]) {
      assert Settled(cfg, t1, prims[i]);
      if Visible(cfg, prims[i]) {
        assert prims[i].path in t1.current;
      }
    }
    SettledTraverseIsSilent(cfg, swept, prims);
    TraverseCurrent(cfg, swept, prims);
    var t2 := Traverse(cfg, swept, prims);
    assert t2.usdMemo == swept.usdMemo;
  }
}
