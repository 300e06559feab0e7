/**
 * The Isaac Lab scene logger: on every `log_scene` call it sends the body
 * poses of the selected environments that changed since the last call, and
 * on the first call it also logs the structure (transforms and visuals)
 * under every selected environment root.
 */
module IsaacLabLogger {
  import opened Viewer
  import opened BodyPoses

  /** The `logged_envs` argument: one environment index or a list of them. */
  datatype LoggedEnvsArg = One(env: int) | Many(envs: seq<int>)

  /** A single index becomes a one-element list; a list is kept. */
  function NormalizeEnvs(arg: LoggedEnvsArg): (envs: seq<int>)
    ensures arg.One? ==> |envs| == 1
  {
    match arg
    case One(e) => [e]
    case Many(es) => es
  }

  /** The normalised list selects exactly the given index, or exactly the listed ones. */
  lemma NormalizedEnvsSelect(arg: LoggedEnvsArg, env: nat)
    ensures arg.One? ==> (Selected(Some(NormalizeEnvs(arg)), env) <==> env == arg.env)
    ensures arg.Many? ==> (Selected(Some(NormalizeEnvs(arg)), env) <==> env in arg.envs)
  {
  }

  class IsaacLabRerunLogger {
    /**
     * The live interactive scene: the simulation moves its bodies between
     * calls, and every call reads their current poses.
     */
    var scene: Option<LabScene>
    var lastTransforms: map<Path, seq<real>>
    var sceneStructureLogged: bool
    const loggedEnvs: seq<int>
    /** Everything sent to the viewer, in order. */
    var log: seq<Event>

    /** The default selection is environment 0. */
    constructor(scene: Option<LabScene>, loggedEnvs: LoggedEnvsArg)
      ensures this.scene == scene && this.loggedEnvs == NormalizeEnvs(loggedEnvs)
      ensures lastTransforms == map[] && !sceneStructureLogged && log == []
    {
      this.scene := scene;
      this.loggedEnvs := NormalizeEnvs(loggedEnvs);
      lastTransforms := map[];
      sceneStructureLogged := false;
      log := [];
    }

    /**
     * Nothing without a scene or without a stage. Otherwise the sweep over
     * the selected environments, with the structure pass while it has not
     * been done, after which it is marked done.
     */
    method LogScene()
      requires scene.Some? ==> SceneShaped(scene.value)
      modifies this`lastTransforms, this`log, this`sceneStructureLogged
      ensures scene.None? || !scene.value.hasStage ==>
                lastTransforms == old(lastTransforms) && log == old(log) && sceneStructureLogged == old(sceneStructureLogged)
      ensures scene.Some? && scene.value.hasStage ==>
                && sceneStructureLogged
                && Sized(SceneItems(scene.value.articulations, scene.value.numEnvs, Some(loggedEnvs), !old(sceneStructureLogged)))
                && PoseState(lastTransforms, log) ==
                     Apply(PoseState(old(lastTransforms), old(log)),
                           SceneItems(scene.value.articulations, scene.value.numEnvs, Some(loggedEnvs), !old(sceneStructureLogged)))
    {
      if scene.None? || !scene.value.hasStage {
        return;
      }
      var s := scene.value;
      var t := LogScenePoses(PoseState(lastTransforms, log), s.articulations, s.numEnvs, Some(loggedEnvs), !sceneStructureLogged);
      lastTransforms := t.memo;
      log := t.events;
      sceneStructureLogged := true;
    }
  }

  /**
   * Every call after the first runs without the structure pass, so whatever
   * the simulation did to the scene in between, it sends exactly one
   * transform per body whose pose is new or moved, in sweep order.
   */
  lemma LaterLogSceneSendsMovedBodies(scene: LabScene, envs: seq<int>, s: PoseState)
    requires SceneShaped(scene)
    requires DistinctBodies(SceneItems(scene.articulations, scene.numEnvs, Some(envs), false))
    ensures Sized(SceneItems(scene.articulations, scene.numEnvs, Some(envs), false))
    ensures BodiesOnly(SceneItems(scene.articulations, scene.numEnvs, Some(envs), false))
    ensures Apply(s, SceneItems(scene.articulations, scene.numEnvs, Some(envs), false)).events ==
              s.events + ChangedEvents(s.memo, SceneItems(scene.articulations, scene.numEnvs, Some(envs), false))
  {
    var items := SceneItems(scene.articulations, scene.numEnvs, Some(envs), false);
    SceneItemsSized(scene.articulations, scene.numEnvs, Some(envs), false);
    NoStructureItems(scene.articulations, scene.numEnvs, Some(envs));
    SweepSendsChangedPoses(s, items);
  }

  /**
   * Once a call has run, with or without the structure pass, a second call
   * on unchanged poses sends nothing: the structure is not logged again and
   * every body pose is already remembered.
   */
  lemma SecondLogSceneIsSilent(scene: LabScene, envs: seq<int>, firstWithStructure: bool, s: PoseState)
    requires SceneShaped(scene)
    requires DistinctBodies(SceneItems(scene.articulations, scene.numEnvs, Some(envs), firstWithStructure))
    ensures Sized(SceneItems(scene.articulations, scene.numEnvs, Some(envs), firstWithStructure))
    ensures Sized(SceneItems(scene.articulations, scene.numEnvs, Some(envs), false))
    ensures var t := Apply(s, SceneItems(scene.articulations, scene.numEnvs, Some(envs), firstWithStructure));
            Apply(t, SceneItems(scene.articulations, scene.numEnvs, Some(envs), false)) == t
  {
    var first := SceneItems(scene.articulations, scene.numEnvs, Some(envs), firstWithStructure);
    var later := SceneItems(scene.articulations, scene.numEnvs, Some(envs), false);
    SceneItemsSized(scene.articulations, scene.numEnvs, Some(envs), firstWithStructure);
    SceneItemsSized(scene.articulations, scene.numEnvs, Some(envs), false);
    NoStructureItems(scene.articulations, scene.numEnvs, Some(envs));
    StructurePassAddsNoBodies(scene.articulations, scene.numEnvs, Some(envs));
    var t := Apply(s, first);
    ApplyRecordsPoses(s, first);
    forall i | 0 <= i < |later| && later[i].Body?
      ensures later[i].path in t.memo && t.memo[later[i].path] == later[i].pose
    {
      assert later[i] in first;
      var j :| 0 <= j < |first| && first[j] == later[i];
    }
    RecordedSweepIsSilent(t, later);
  }
}
