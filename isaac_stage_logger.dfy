/**
 * The stage logger of the `isaac_rerun_logger` package: a stage, a logger
 * id, the set of paths whose geometry was logged and the memo of last sent
 * local transformations, driven by `initialize`, `stop`, `log_stage` and
 * `clear_logged_meshes`.
 */
module IsaacStageLogger {
  import opened Viewer
  import opened Strings
  import opened MeshLogging
  import opened StageTraversal

  /** This logger has no path filter, never reads PhysX and tracks no Isaac Lab poses. */
  const Plain: Config := Config(None, false, {})

  class UsdRerunLogger {
    var stage: Option<seq<Prim>>
    var loggerId: Option<string>
    var loggedMeshes: set<Path>
    var lastTransforms: map<Path, Matrix>
    /** Everything sent to the viewer, in order. */
    var log: seq<Event>
    /** The paths whose geometry was logged since the mesh memo was last emptied, in order. */
    ghost var geometryRuns: seq<Path>

    /** Geometry is logged once per path between two clears, and the stage's meshes can be read. */
    ghost predicate Valid()
      reads this
    {
      && RunsMatchMeshes(geometryRuns, loggedMeshes)
      && (stage.Some? ==> MeshesIndexable(stage.value))
    }

    /** The constructor ignores its stage argument: the logger starts without one. */
    constructor()
      ensures stage.None? && loggerId.None?
      ensures loggedMeshes == {} && lastTransforms == map[] && log == [] && geometryRuns == []
      ensures Valid()
    {
      stage := None;
      loggerId := None;
      loggedMeshes := {};
      lastTransforms := map[];
      log := [];
      geometryRuns := [];
    }

    /** Disconnects and forgets everything, but only while a logger id is set. */
    method Stop()
      modifies this
      ensures old(loggerId).Some? ==>
                stage.None? && loggerId.None? && loggedMeshes == {} && lastTransforms == map[] && geometryRuns == []
      ensures old(loggerId).None? ==>
                stage == old(stage) && loggerId == old(loggerId) && loggedMeshes == old(loggedMeshes)
                && lastTransforms == old(lastTransforms) && geometryRuns == old(geometryRuns)
      ensures log == old(log)
      ensures old(Valid()) ==> Valid()
    {
      if loggerId.Some? {
        loggerId := None;
        stage := None;
        loggedMeshes := {};
        lastTransforms := map[];
        geometryRuns := [];
      }
    }

    /**
     * Stops any previous session, then takes the stage and the id
     * "<base>_<suffix>", where the suffix is the random number below 10000
     * the source draws, and starts with empty memos.
     */
    method Initialize(newStage: seq<Prim>, base: string, suffix: nat)
      requires suffix < 10000 && MeshesIndexable(newStage)
      modifies this
      ensures stage == Some(newStage) && loggerId == Some(base + "_" + NatToString(suffix))
      ensures loggedMeshes == {} && lastTransforms == map[] && geometryRuns == []
      ensures log == old(log)
      ensures Valid()
    {
      Stop();
      stage := Some(newStage);
      loggerId := Some(base + "_" + NatToString(suffix));
      loggedMeshes := {};
      lastTransforms := map[];
      geometryRuns := [];
    }

    /** Lets every mesh and cube be logged again. */
    method ClearLoggedMeshes()
      modifies this
      ensures loggedMeshes == {} && geometryRuns == []
      ensures stage == old(stage) && loggerId == old(loggerId) && lastTransforms == old(lastTransforms) && log == old(log)
      ensures old(Valid()) ==> Valid()
    {
      loggedMeshes := {};
      geometryRuns := [];
    }

    /** The traversal state held in the fields, with the paths seen so far. */
    ghost function Snapshot(current: set<Path>): Emitter
      reads this
    {
      Emitter(current, lastTransforms, map[], loggedMeshes, log, geometryRuns)
    }

    /** `_log_transform`: the local transformation, sent when it changed. */
    method LogTransform(prim: Prim)
      modifies this
      ensures Snapshot({}) == UsdTransformStep(old(Snapshot({})), prim)
      ensures stage == old(stage) && loggerId == old(loggerId)
    {
      if !prim.isXformable {
        return;
      }
      if prim.path in lastTransforms && lastTransforms[prim.path] == prim.local {
        return;
      }
      lastTransforms := lastTransforms[prim.path := prim.local];
      log := log + [Event(prim.path, Transform3D(prim.local), false)];
    }

    /** The body of the traversal loop for one prim. */
    method VisitPrim(prim: Prim, current: set<Path>) returns (next: set<Path>)
      requires prim.isMesh ==> Indexable(prim.mesh)
      modifies this
      ensures Snapshot(next) == Visit(Plain, old(Snapshot(current)), prim)
      ensures stage == old(stage) && loggerId == old(loggerId)
    {
      next := current;
      if prim.isGuide {
        return;
      }
      next := next + {prim.path};
      LogTransform(prim);
      if prim.isMesh && prim.path !in loggedMeshes {
        var events := LogMesh(prim.path, prim.mesh);
        log := log + events;
        loggedMeshes := loggedMeshes + {prim.path};
        geometryRuns := geometryRuns + [prim.path];
      }
      if prim.isCube && prim.path !in loggedMeshes {
        log := log + [Event(prim.path, Boxes3D, true)];
        loggedMeshes := loggedMeshes + {prim.path};
        geometryRuns := geometryRuns + [prim.path];
      }
    }

    /**
     * `log_stage`: nothing without a stage; otherwise the traversal, then
     * one clear for each remembered transform whose prim is gone.
     */
    method LogStage()
      requires Valid()
      modifies this
      ensures Valid()
      ensures stage == old(stage) && loggerId == old(loggerId)
      ensures old(stage).None? ==>
                log == old(log) && loggedMeshes == old(loggedMeshes) && lastTransforms == old(lastTransforms)
      ensures old(stage).Some? ==>
                var t := Traverse(Plain, old(Snapshot({})), old(stage).value);
                && loggedMeshes == t.meshes
                && geometryRuns == t.geometryRuns
                && lastTransforms == KeepPresent(t.usdMemo, t.current)
                && |t.events| <= |log| && log[..|t.events|] == t.events
                && ClearsExactly(log[|t.events|..], t.usdMemo.Keys - t.current)
    {
      if stage.None? {
        return;
      }
      var prims := stage.value;
      ghost var s0 := Snapshot({});
      var current: set<Path> := {};
      for i := 0 to |prims|
        invariant stage == old(stage) && loggerId == old(loggerId)
        invariant Snapshot(current) == Traverse(Plain, s0, prims[..i])
      {
        assert prims[..i + 1][..i] == prims[..i];
        current := VisitPrim(prims[i], current);
      }
      assert prims[..|prims|] == prims;
      ghost var t := Snapshot(current);
      GeometryAtMostOnce(Plain, s0, prims);
      var kept, clears := Sweep(lastTransforms, current);
      lastTransforms := kept;
      log := log + clears;
      assert log[..|t.events|] == t.events;
      assert log[|t.events|..] == clears;
    }
  }

  /**
   * On an unchanged stage, the second of two `log_stage` calls sends nothing
   * and keeps every memo, whatever the first one did.
   */
  lemma SecondLogStageIsSilent(prims: seq<Prim>, memo: map<Path, Matrix>, meshes: set<Path>, log: seq<Event>, runs: seq<Path>)
    requires MeshesIndexable(prims) && DistinctPaths(prims)
    ensures var first := Traverse(Plain, Emitter({}, memo, map[], meshes, log, runs), prims);
            var swept := first.(current := {}, usdMemo := KeepPresent(first.usdMemo, first.current));
            var second := Traverse(Plain, swept, prims);
            && second.events == swept.events
            && second.meshes == swept.meshes
            && KeepPresent(second.usdMemo, second.current) == swept.usdMemo
            && second.usdMemo.Keys - second.current == {}
  {
    var s := Emitter({}, memo, map[], meshes, log, runs);
    UnchangedStageIsSilent(Plain, s, prims);
    var first := Traverse(Plain, s, prims);
    var swept := first.(current := {}, usdMemo := KeepPresent(first.usdMemo, first.current));
    var second := Traverse(Plain, swept, prims);
    assert second.usdMemo == swept.usdMemo;
    assert KeepPresent(second.usdMemo, second.current) == swept.usdMemo;
  }
}
