/**
 * The Isaac Lab body-pose sweep both Isaac Lab aware loggers run: for every
 * articulation, every (selected) environment and every body, the body's
 * world pose is sent as a rigid transform when it differs from the pose
 * last sent for that body path, and remembered.
 */
module BodyPoses {
  import opened Viewer
  import opened Strings

  /**
   * One articulation of an interactive scene: its prim path, in which ".*"
   * stands for the environment index, its body names, and its body world
   * poses indexed [environment][body], each (x, y, z, qw, qx, qy, qz).
   */
  datatype Articulation = Articulation(primPath: string, bodyNames: seq<string>, poses: seq<seq<seq<real>>>)

  /** The scene an Isaac Lab logger reads: whether it has a stage, its environment count and its articulations. */
  datatype LabScene = LabScene(hasStage: bool, numEnvs: nat, articulations: seq<Articulation>)

  /** The pose array has shape (environments, bodies, 7). */
  predicate WellShaped(a: Articulation, numEnvs: nat) {
    && |a.poses| == numEnvs
    && forall e :: 0 <= e < numEnvs ==>
         |a.poses[e]| == |a.bodyNames| && forall b :: 0 <= b < |a.poses[e]| ==> |a.poses[e][b]| == 7
  }

  predicate SceneShaped(scene: LabScene) {
    forall i :: 0 <= i < |scene.articulations| ==> WellShaped(scene.articulations[i], scene.numEnvs)
  }

  const EnvPattern: string := ".*"

  /** The articulation root of one environment: every ".*" replaced by the index. */
  function RootPath(primPath: string, env: nat): Path {
    ReplaceAll(primPath, EnvPattern, NatToString(env))
  }

  function BodyPath(root: Path, name: string): Path {
    root + "/" + name
  }

  /** Translation first three entries; the (w, x, y, z) quaternion reordered to (x, y, z, w). */
  function PoseTransform(pose: seq<real>): Payload
    requires |pose| == 7
  {
    RigidTransform(pose[..3], [pose[4], pose[5], pose[6], pose[3]])
  }

  /**
   * One unit of work of the sweep: the structure of one environment root
   * (its transforms and visuals, emitted without change tracking) or the
   * pose of one body.
   */
  datatype Item = Structure(root: Path) | Body(path: Path, pose: seq<real>)

  predicate Sized(items: seq<Item>) {
    forall i :: 0 <= i < |items| ==> items[i].Body? ==> |items[i].pose| == 7
  }

  /** The pose memo and the viewer log. */
  datatype PoseState = PoseState(memo: map<Path, seq<real>>, events: seq<Event>)

  function Step(s: PoseState, item: Item): PoseState
    requires item.Body? ==> |item.pose| == 7
  {
    match item
    case Structure(root) => s.(events := s.events + [Event(root, SceneStructure, false)])
    case Body(path, pose) =>
      if path in s.memo && s.memo[path] == pose then s
      else PoseState(s.memo[path := pose], s.events + [Event(path, PoseTransform(pose), false)])
  }

  /** The items processed in order; the log only grows and the memo only gains keys. */
  function Apply(s: PoseState, items: seq<Item>): (t: PoseState)
    requires Sized(items)
    ensures |s.events| <= |t.events| && t.events[..|s.events|] == s.events
    ensures s.memo.Keys <= t.memo.Keys
  {
    if items == [] then s
    else Step(Apply(s, items[..|items| - 1]), items[|items| - 1])
  }

  /** One body item per name, in order, each under the environment root. */
  function BodyItems(root: Path, names: seq<string>, poses: seq<seq<real>>): (items: seq<Item>)
    requires |poses| == |names|
    ensures |items| == |names|
  {
    if names == [] then []
    else BodyItems(root, names[..|names| - 1], poses[..|poses| - 1]) + [Body(BodyPath(root, names[|names| - 1]), poses[|poses| - 1])]
  }

  /** The b-th item is the b-th body under the root with the b-th pose. */
  lemma {:induction false} BodyItemsAt(root: Path, names: seq<string>, poses: seq<seq<real>>)
    requires |poses| == |names|
    ensures forall b :: 0 <= b < |names| ==> BodyItems(root, names, poses)[b] == Body(BodyPath(root, names[b]), poses[b])
  {
    if names != [] {
      var n := |names| - 1;
      BodyItemsAt(root, names[..n], poses[..n]);
    }
  }

  /** One environment's items are sized, and its bodies are body items only. */
  lemma EnvItemsShaped(a: Articulation, env: nat, numEnvs: nat, withStructure: bool)
    requires WellShaped(a, numEnvs) && env < numEnvs
    ensures Sized(EnvItems(a, env, withStructure))
    ensures Sized(BodyItems(RootPath(a.primPath, env), a.bodyNames, a.poses[env]))
    ensures BodiesOnly(BodyItems(RootPath(a.primPath, env), a.bodyNames, a.poses[env]))
  {
    var root := RootPath(a.primPath, env);
    var bodies := BodyItems(root, a.bodyNames, a.poses[env]);
    BodyItemsAt(root, a.bodyNames, a.poses[env]);
    var items := EnvItems(a, env, withStructure);
    forall i | 0 <= i < |items| && items[i].Body? ensures |items[i].pose| == 7 {
      var k := if withStructure then i - 1 else i;
      assert items[i] == bodies[k];
    }
  }

  /** An environment passes the filter; None keeps every environment. */
  predicate Selected(filter: Option<seq<int>>, env: nat) {
    filter.None? || env in filter.value
  }

  function EnvItems(a: Articulation, env: nat, withStructure: bool): seq<Item>
    requires env < |a.poses| && |a.poses[env]| == |a.bodyNames|
  {
    var root := RootPath(a.primPath, env);
    (if withStructure then [Structure(root)] else []) + BodyItems(root, a.bodyNames, a.poses[env])
  }

  /** The items of the first n environments of one articulation. */
  function ArticulationItems(a: Articulation, n: nat, numEnvs: nat, filter: Option<seq<int>>, withStructure: bool): seq<Item>
    requires WellShaped(a, numEnvs) && n <= numEnvs
  {
    if n == 0 then []
    else
      ArticulationItems(a, n - 1, numEnvs, filter, withStructure)
        + (if Selected(filter, n - 1) then EnvItems(a, n - 1, withStructure) else [])
  }

  function SceneItems(arts: seq<Articulation>, numEnvs: nat, filter: Option<seq<int>>, withStructure: bool): seq<Item>
    requires forall i :: 0 <= i < |arts| ==> WellShaped(arts[i], numEnvs)
  {
    if arts == [] then []
    else
      SceneItems(arts[..|arts| - 1], numEnvs, filter, withStructure)
        + ArticulationItems(arts[|arts| - 1], numEnvs, numEnvs, filter, withStructure)
  }

  lemma {:induction false} ArticulationItemsSized(a: Articulation, n: nat, numEnvs: nat, filter: Option<seq<int>>, withStructure: bool)
    requires WellShaped(a, numEnvs) && n <= numEnvs
    ensures Sized(ArticulationItems(a, n, numEnvs, filter, withStructure))
  {
    if n > 0 {
      var k := n - 1;
      ArticulationItemsSized(a, k, numEnvs, filter, withStructure);
      ArticulationItemsSizedStep(a, k, numEnvs, filter, withStructure);
    }
  }

  lemma ArticulationItemsSizedStep(a: Articulation, k: nat, numEnvs: nat, filter: Option<seq<int>>, withStructure: bool)
    requires WellShaped(a, numEnvs) && k < numEnvs
    requires Sized(ArticulationItems(a, k, numEnvs, filter, withStructure))
    ensures Sized(ArticulationItems(a, k + 1, numEnvs, filter, withStructure))
  {
    var before := ArticulationItems(a, k, numEnvs, filter, withStructure);
    if Selected(filter, k) {
      EnvItemsShaped(a, k, numEnvs, withStructure);
      SizedAppend(before, EnvItems(a, k, withStructure));
      assert ArticulationItems(a, k + 1, numEnvs, filter, withStructure) == before + EnvItems(a, k, withStructure);
    } else {
      assert ArticulationItems(a, k + 1, numEnvs, filter, withStructure) == before + [];
      assert before + [] == before;
    }
  }

  lemma SizedAppend(x: seq<Item>, y: seq<Item>)
    requires Sized(x) && Sized(y)
    ensures Sized(x + y)
  {
    forall i | 0 <= i < |x + y| && (x + y)[i].Body? ensures |(x + y)[i].pose| == 7 {
      if i >= |x| {
        assert (x + y)[i] == y[i - |x|];
      }
    }
  }

  /**
   * One more environment: a dropped one leaves the outcome as it was, a
   * selected one continues it with that environment's items.
   */
  lemma ArticulationStepApplies(s: PoseState, a: Articulation, env: nat, numEnvs: nat, filter: Option<seq<int>>, withStructure: bool)
    requires WellShaped(a, numEnvs) && env < numEnvs
    ensures Sized(ArticulationItems(a, env, numEnvs, filter, withStructure))
    ensures Sized(ArticulationItems(a, env + 1, numEnvs, filter, withStructure))
    ensures !Selected(filter, env) ==>
              Apply(s, ArticulationItems(a, env + 1, numEnvs, filter, withStructure)) ==
              Apply(s, ArticulationItems(a, env, numEnvs, filter, withStructure))
    ensures Selected(filter, env) ==>
              Sized(EnvItems(a, env, withStructure)) &&
              Apply(s, ArticulationItems(a, env + 1, numEnvs, filter, withStructure)) ==
              Apply(Apply(s, ArticulationItems(a, env, numEnvs, filter, withStructure)), EnvItems(a, env, withStructure))
  {
    var before := ArticulationItems(a, env, numEnvs, filter, withStructure);
    ArticulationItemsSized(a, env, numEnvs, filter, withStructure);
    ArticulationItemsSized(a, env + 1, numEnvs, filter, withStructure);
    if Selected(filter, env) {
      var own := EnvItems(a, env, withStructure);
      EnvItemsShaped(a, env, numEnvs, withStructure);
      assert ArticulationItems(a, env + 1, numEnvs, filter, withStructure) == before + own;
      ApplyAppend(s, before, own);
    } else {
      assert ArticulationItems(a, env + 1, numEnvs, filter, withStructure) == before + [];
      assert before + [] == before;
    }
  }

  /** One more articulation continues the outcome with that articulation's items. */
  lemma SceneStepApplies(s: PoseState, arts: seq<Articulation>, i: nat, numEnvs: nat, filter: Option<seq<int>>, withStructure: bool)
    requires forall k :: 0 <= k < |arts| ==> WellShaped(arts[k], numEnvs)
    requires i < |arts|
    ensures Sized(SceneItems(arts[..i], numEnvs, filter, withStructure))
    ensures Sized(SceneItems(arts[..i + 1], numEnvs, filter, withStructure))
    ensures Sized(ArticulationItems(arts[i], numEnvs, numEnvs, filter, withStructure))
    ensures Apply(s, SceneItems(arts[..i + 1], numEnvs, filter, withStructure)) ==
              Apply(Apply(s, SceneItems(arts[..i], numEnvs, filter, withStructure)),
                    ArticulationItems(arts[i], numEnvs, numEnvs, filter, withStructure))
  {
    var before := SceneItems(arts[..i], numEnvs, filter, withStructure);
    var own := ArticulationItems(arts[i], numEnvs, numEnvs, filter, withStructure);
    assert arts[..i + 1][..i] == arts[..i] && arts[..i + 1][i] == arts[i];
    assert SceneItems(arts[..i + 1], numEnvs, filter, withStructure) == before + own;
    SceneItemsSized(arts[..i], numEnvs, filter, withStructure);
    ArticulationItemsSized(arts[i], numEnvs, numEnvs, filter, withStructure);
    ApplyAppend(s, before, own);
  }

  lemma {:induction false} SceneItemsSized(arts: seq<Articulation>, numEnvs: nat, filter: Option<seq<int>>, withStructure: bool)
    requires forall i :: 0 <= i < |arts| ==> WellShaped(arts[i], numEnvs)
    ensures Sized(SceneItems(arts, numEnvs, filter, withStructure))
  {
    if arts != [] {
      SceneItemsSized(arts[..|arts| - 1], numEnvs, filter, withStructure);
      ArticulationItemsSized(arts[|arts| - 1], numEnvs, numEnvs, filter, withStructure);
    }
  }

  lemma {:induction false} ApplyAppend(s: PoseState, x: seq<Item>, y: seq<Item>)
    requires Sized(x) && Sized(y)
    ensures Sized(x + y)
    ensures Apply(s, x + y) == Apply(Apply(s, x), y)
    decreases |y|
  {
    SizedAppend(x, y);
    if y == [] {
      assert x + y == x;
    } else {
      var init, last := y[..|y| - 1], y[|y| - 1];
      assert Sized(init);
      ApplyAppend(s, x, init);
      assert x + y == (x + init) + [last] && y == init + [last];
      ApplySnoc(s, x + init, last);
      ApplySnoc(Apply(s, x), init, last);
    }
  }

  /** One item more is one step more. */
  lemma ApplySnoc(s: PoseState, items: seq<Item>, last: Item)
    requires Sized(items) && (last.Body? ==> |last.pose| == 7)
    ensures Sized(items + [last])
    ensures Apply(s, items + [last]) == Step(Apply(s, items), last)
  {
    var all := items + [last];
    assert all[..|all| - 1] == items && all[|all| - 1] == last;
    SizedAppend(items, [last]);
  }

  // ----- The loops -----

  /** The innermost loop: every body of one environment. */
  method LogBodies(s: PoseState, root: Path, names: seq<string>, poses: seq<seq<real>>) returns (t: PoseState)
    requires |poses| == |names| && forall b :: 0 <= b < |poses| ==> |poses[b]| == 7
    ensures Sized(BodyItems(root, names, poses))
    ensures t == Apply(s, BodyItems(root, names, poses))
  {
    var items := BodyItems(root, names, poses);
    BodyItemsAt(root, names, poses);
    assert Sized(items);
    t := s;
    for b := 0 to |names|
      invariant t == Apply(s, items[..b])
    {
      assert items[..b + 1][..b] == items[..b];
      var bodyPath := BodyPath(root, names[b]);
      var pose := poses[b];
      if bodyPath in t.memo && t.memo[bodyPath] == pose {
        continue;
      }
      t := PoseState(t.memo[bodyPath := pose], t.events + [Event(bodyPath, PoseTransform(pose), false)]);
    }
    assert items[..|names|] == items;
  }

  /** One selected environment: the structure pass when requested, then its bodies. */
  method LogEnvironment(s: PoseState, a: Articulation, env: nat, numEnvs: nat, withStructure: bool) returns (t: PoseState)
    requires WellShaped(a, numEnvs) && env < numEnvs
    ensures Sized(EnvItems(a, env, withStructure))
    ensures t == Apply(s, EnvItems(a, env, withStructure))
  {
    var root := RootPath(a.primPath, env);
    var head: seq<Item> := if withStructure then [Structure(root)] else [];
    var bodies := BodyItems(root, a.bodyNames, a.poses[env]);
    EnvItemsShaped(a, env, numEnvs, withStructure);
    assert Sized(head) && Sized(bodies);
    t := s;
    if withStructure {
      t := t.(events := t.events + [Event(root, SceneStructure, false)]);
      assert head[..0] == [];
    }
    assert t == Apply(s, head);
    t := LogBodies(t, root, a.bodyNames, a.poses[env]);
    ApplyAppend(s, head, bodies);
  }

  /** The environment loop of one articulation, with the environment filter. */
  method LogArticulation(s: PoseState, a: Articulation, numEnvs: nat, filter: Option<seq<int>>, withStructure: bool)
    returns (t: PoseState)
    requires WellShaped(a, numEnvs)
    ensures Sized(ArticulationItems(a, numEnvs, numEnvs, filter, withStructure))
    ensures t == Apply(s, ArticulationItems(a, numEnvs, numEnvs, filter, withStructure))
  {
    t := s;
    ArticulationItemsSized(a, numEnvs, numEnvs, filter, withStructure);
    for env := 0 to numEnvs
      invariant Sized(ArticulationItems(a, env, numEnvs, filter, withStructure))
      invariant t == Apply(s, ArticulationItems(a, env, numEnvs, filter, withStructure))
    {
      ArticulationStepApplies(s, a, env, numEnvs, filter, withStructure);
      if Selected(filter, env) {
        t := LogEnvironment(t, a, env, numEnvs, withStructure);
      }
    }
  }

  /** The articulation loop, shared by both Isaac Lab aware loggers. */
  method LogScenePoses(s: PoseState, arts: seq<Articulation>, numEnvs: nat, filter: Option<seq<int>>, withStructure: bool)
    returns (t: PoseState)
    requires forall i :: 0 <= i < |arts| ==> WellShaped(arts[i], numEnvs)
    ensures Sized(SceneItems(arts, numEnvs, filter, withStructure))
    ensures t == Apply(s, SceneItems(arts, numEnvs, filter, withStructure))
  {
    t := s;
    SceneItemsSized(arts, numEnvs, filter, withStructure);
    for i := 0 to |arts|
      invariant Sized(SceneItems(arts[..i], numEnvs, filter, withStructure))
      invariant t == Apply(s, SceneItems(arts[..i], numEnvs, filter, withStructure))
    {
      SceneStepApplies(s, arts, i, numEnvs, filter, withStructure);
      t := LogArticulation(t, arts[i], numEnvs, filter, withStructure);
    }
    assert arts[..|arts|] == arts;
  }

  // ----- Properties of the sweep -----

  predicate BodiesOnly(items: seq<Item>) {
    forall i :: 0 <= i < |items| ==> items[i].Body?
  }

  /** No two body items share a path. */
  predicate DistinctBodies(items: seq<Item>) {
    forall i, j :: 0 <= i < j < |items| && items[i].Body? && items[j].Body? ==> items[i].path != items[j].path
  }

  /** Every body item's pose is the one remembered for its path. */
  predicate Recorded(memo: map<Path, seq<real>>, items: seq<Item>) {
    forall i :: 0 <= i < |items| && items[i].Body? ==> items[i].path in memo && memo[items[i].path] == items[i].pose
  }

  /** The events a sweep should send: one per body whose pose is new or differs from the memo. */
  function ChangedEvents(memo: map<Path, seq<real>>, items: seq<Item>): seq<Event>
    requires Sized(items) && BodiesOnly(items)
  {
    if items == [] then []
    else
      var last := items[|items| - 1];
      ChangedEvents(memo, items[..|items| - 1])
        + (if last.path in memo && memo[last.path] == last.pose then [] else [Event(last.path, PoseTransform(last.pose), false)])
  }

  /** After a sweep over distinct bodies, the memo holds every body's pose. */
  lemma {:induction false} ApplyRecordsPoses(s: PoseState, items: seq<Item>)
    requires Sized(items) && DistinctBodies(items)
    ensures Recorded(Apply(s, items).memo, items)
  {
    if items != [] {
      var prefix := items[..|items| - 1];
      ApplyRecordsPoses(s, prefix);
      var last := items[|items| - 1];
      forall i | 0 <= i < |items| && items[i].Body?
        ensures items[i].path in Apply(s, items).memo && Apply(s, items).memo[items[i].path] == items[i].pose
      {
        if i < |items| - 1 {
          assert prefix[i] == items[i];
        }
      }
    }
  }

  /** A sweep over bodies whose poses are all remembered changes nothing. */
  lemma {:induction false} RecordedSweepIsSilent(t: PoseState, items: seq<Item>)
    requires Sized(items) && BodiesOnly(items) && Recorded(t.memo, items)
    ensures Apply(t, items) == t
  {
    if items != [] {
      var prefix := items[..|items| - 1];
      assert Recorded(t.memo, prefix) by {
        forall i | 0 <= i < |prefix| && prefix[i].Body?
          ensures prefix[i].path in t.memo && t.memo[prefix[i].path] == prefix[i].pose
        {
          assert prefix[i] == items[i];
        }
      }
      RecordedSweepIsSilent(t, prefix);
    }
  }

  /** Repeating a sweep over distinct bodies with the same poses sends nothing and leaves the memo as it was. */
  lemma RepeatedSweepIsSilent(s: PoseState, items: seq<Item>)
    requires Sized(items) && BodiesOnly(items) && DistinctBodies(items)
    ensures Apply(Apply(s, items), items) == Apply(s, items)
  {
    ApplyRecordsPoses(s, items);
    RecordedSweepIsSilent(Apply(s, items), items);
  }

  /**
   * Over distinct bodies, a sweep sends exactly the poses that are new or
   * changed with respect to the memo it starts from, in sweep order.
   */
  lemma {:induction false} SweepSendsChangedPoses(s: PoseState, items: seq<Item>)
    requires Sized(items) && BodiesOnly(items) && DistinctBodies(items)
    ensures Apply(s, items).events == s.events + ChangedEvents(s.memo, items)
    ensures forall k :: k in Apply(s, items).memo && k !in s.memo ==> exists i :: 0 <= i < |items| && items[i].path == k
    ensures forall k :: k in s.memo && (forall i :: 0 <= i < |items| ==> items[i].path != k) ==>
              k in Apply(s, items).memo && Apply(s, items).memo[k] == s.memo[k]
  {
    if items != [] {
      var prefix := items[..|items| - 1];
      var last := items[|items| - 1];
      SweepSendsChangedPoses(s, prefix);
      var mid := Apply(s, prefix);
      assert last.path !in mid.memo || mid.memo[last.path] == s.memo[last.path] by {
        forall i | 0 <= i < |prefix| ensures prefix[i].path != last.path {
          assert prefix[i] == items[i];
        }
      }
      assert last.path in mid.memo <==> last.path in s.memo;
      forall k | k in Apply(s, items).memo && k !in s.memo
        ensures exists i :: 0 <= i < |items| && items[i].path == k
      {
        if k != last.path {
          var i :| 0 <= i < |prefix| && prefix[i].path == k;
          assert items[i] == prefix[i];
        }
      }
      forall k | k in s.memo && (forall i :: 0 <= i < |items| ==> items[i].path != k)
        ensures k in Apply(s, items).memo && Apply(s, items).memo[k] == s.memo[k]
      {
        forall i | 0 <= i < |prefix| ensures prefix[i].path != k {
          assert prefix[i] == items[i];
        }
      }
    }
  }

  /** The first sweep from an empty memo sends every body once, in order. */
  lemma FirstSweepSendsEverything(items: seq<Item>)
    requires Sized(items) && BodiesOnly(items) && DistinctBodies(items)
    ensures |Apply(PoseState(map[], []), items).events| == |items|
    ensures forall i :: 0 <= i < |items| ==>
              Apply(PoseState(map[], []), items).events[i] == Event(items[i].path, PoseTransform(items[i].pose), false)
  {
    SweepSendsChangedPoses(PoseState(map[], []), items);
    ChangedEventsFromEmpty(items);
  }

  lemma {:induction false} ChangedEventsFromEmpty(items: seq<Item>)
    requires Sized(items) && BodiesOnly(items)
    ensures |ChangedEvents(map[], items)| == |items|
    ensures forall i :: 0 <= i < |items| ==> ChangedEvents(map[], items)[i] == Event(items[i].path, PoseTransform(items[i].pose), false)
  {
    if items != [] {
      var prefix := items[..|items| - 1];
      ChangedEventsFromEmpty(prefix);
      forall i | 0 <= i < |items|
        ensures ChangedEvents(map[], items)[i] == Event(items[i].path, PoseTransform(items[i].pose), false)
      {
        if i < |prefix| {
          assert prefix[i] == items[i];
        }
      }
    }
  }

  /** Without the structure pass, the sweep is body poses only. */
  lemma NoStructureItems(arts: seq<Articulation>, numEnvs: nat, filter: Option<seq<int>>)
    requires forall i :: 0 <= i < |arts| ==> WellShaped(arts[i], numEnvs)
    ensures BodiesOnly(SceneItems(arts, numEnvs, filter, false))
  {
    StructurePassAddsNoBodies(arts, numEnvs, filter);
    BodiesOfOnlyBodies(SceneItems(arts, numEnvs, filter, true));
  }

  /** The items with the structure entries left out. */
  function BodiesOf(items: seq<Item>): seq<Item> {
    if items == [] then []
    else BodiesOf(items[..|items| - 1]) + (if items[|items| - 1].Body? then [items[|items| - 1]] else [])
  }

  lemma {:induction false} BodiesOfAppend(x: seq<Item>, y: seq<Item>)
    ensures BodiesOf(x + y) == BodiesOf(x) + BodiesOf(y)
    decreases |y|
  {
    if y == [] {
      assert x + y == x;
    } else {
      var xy := x + y;
      assert xy[..|xy| - 1] == x + y[..|y| - 1] && xy[|xy| - 1] == y[|y| - 1];
      BodiesOfAppend(x, y[..|y| - 1]);
    }
  }

  lemma {:induction false} BodiesOfKeepsBodies(items: seq<Item>)
    requires BodiesOnly(items)
    ensures BodiesOf(items) == items
  {
    if items != [] {
      BodiesOfKeepsBodies(items[..|items| - 1]);
      assert items[..|items| - 1] + [items[|items| - 1]] == items;
    }
  }

  lemma {:induction false} BodiesOfOnlyBodies(items: seq<Item>)
    ensures BodiesOnly(BodiesOf(items))
  {
    if items != [] {
      BodiesOfOnlyBodies(items[..|items| - 1]);
    }
  }

  lemma {:induction false} BodiesOfWithin(items: seq<Item>)
    ensures forall it :: it in BodiesOf(items) ==> it in items
  {
    if items != [] {
      var prefix := items[..|items| - 1];
      BodiesOfWithin(prefix);
      forall it | it in BodiesOf(items) ensures it in items {
        if it in BodiesOf(prefix) {
          var k :| 0 <= k < |prefix| && prefix[k] == it;
          assert items[k] == it;
        }
      }
    }
  }

  /**
   * The structure pass adds nothing but structure entries: leaving them out
   * of a sweep with the pass gives the sweep without it, so every body item
   * of a later call was already in the first one.
   */
  lemma {:induction false} StructurePassAddsNoBodies(arts: seq<Articulation>, numEnvs: nat, filter: Option<seq<int>>)
    requires forall i :: 0 <= i < |arts| ==> WellShaped(arts[i], numEnvs)
    ensures BodiesOf(SceneItems(arts, numEnvs, filter, true)) == SceneItems(arts, numEnvs, filter, false)
    ensures forall it :: it in SceneItems(arts, numEnvs, filter, false) ==> it in SceneItems(arts, numEnvs, filter, true)
  {
    if arts != [] {
      var prefix, last := arts[..|arts| - 1], arts[|arts| - 1];
      StructurePassAddsNoBodies(prefix, numEnvs, filter);
      ArticulationStructureAddsNoBodies(last, numEnvs, numEnvs, filter);
      BodiesOfAppend(SceneItems(prefix, numEnvs, filter, true), ArticulationItems(last, numEnvs, numEnvs, filter, true));
    }
    BodiesOfWithin(SceneItems(arts, numEnvs, filter, true));
  }

  lemma {:induction false} ArticulationStructureAddsNoBodies(a: Articulation, n: nat, numEnvs: nat, filter: Option<seq<int>>)
    requires WellShaped(a, numEnvs) && n <= numEnvs
    ensures BodiesOf(ArticulationItems(a, n, numEnvs, filter, true)) == ArticulationItems(a, n, numEnvs, filter, false)
  {
    if n == 0 {
      assert BodiesOf([]) == [];
    } else {
      var k := n - 1;
      ArticulationStructureAddsNoBodies(a, k, numEnvs, filter);
      ArticulationStructureStep(a, k, numEnvs, filter);
    }
  }

  /** One more environment keeps the sweep with the pass, bodies only, equal to the sweep without it. */
  lemma ArticulationStructureStep(a: Articulation, k: nat, numEnvs: nat, filter: Option<seq<int>>)
    requires WellShaped(a, numEnvs) && k < numEnvs
    requires BodiesOf(ArticulationItems(a, k, numEnvs, filter, true)) == ArticulationItems(a, k, numEnvs, filter, false)
    ensures BodiesOf(ArticulationItems(a, k + 1, numEnvs, filter, true)) == ArticulationItems(a, k + 1, numEnvs, filter, false)
  {
    var withPass := ArticulationItems(a, k, numEnvs, filter, true);
    var withoutPass := ArticulationItems(a, k, numEnvs, filter, false);
    if Selected(filter, k) {
      EnvStructureAddsNoBodies(a, k, numEnvs);
      BodiesOfAppend(withPass, EnvItems(a, k, true));
      assert ArticulationItems(a, k + 1, numEnvs, filter, true) == withPass + EnvItems(a, k, true);
      assert ArticulationItems(a, k + 1, numEnvs, filter, false) == withoutPass + EnvItems(a, k, false);
    } else {
      assert ArticulationItems(a, k + 1, numEnvs, filter, true) == withPass + [];
      assert ArticulationItems(a, k + 1, numEnvs, filter, false) == withoutPass + [];
      assert withoutPass + [] == withoutPass && withPass + [] == withPass;
    }
  }

  /** The structure item is the only thing the pass adds to one environment. */
  lemma EnvStructureAddsNoBodies(a: Articulation, env: nat, numEnvs: nat)
    requires WellShaped(a, numEnvs) && env < numEnvs
    ensures BodiesOf(EnvItems(a, env, true)) == EnvItems(a, env, false)
  {
    var root := RootPath(a.primPath, env);
    var bodies := BodyItems(root, a.bodyNames, a.poses[env]);
    assert EnvItems(a, env, false) == [] + bodies;
    assert EnvItems(a, env, true) == [Structure(root)] + bodies;
    BodiesOfAppend([Structure(root)], bodies);
    assert BodiesOf([Structure(root)]) == [] by {
      assert [Structure(root)][..0] == [];
    }
    EnvItemsShaped(a, env, numEnvs, true);
    BodiesOfKeepsBodies(bodies);
  }

  /** Only selected environments contribute: every item of the sweep belongs to one. */
  lemma {:induction false} OnlySelectedEnvironments(a: Articulation, n: nat, numEnvs: nat, filter: Option<seq<int>>, withStructure: bool)
    requires WellShaped(a, numEnvs) && n <= numEnvs
    ensures forall it :: it in ArticulationItems(a, n, numEnvs, filter, withStructure) ==>
              exists env :: 0 <= env < n && Selected(filter, env) && it in EnvItems(a, env, withStructure)
  {
    if n > 0 {
      OnlySelectedEnvironments(a, n - 1, numEnvs, filter, withStructure);
    }
  }

  /** The emitted transform carries the translation and the quaternion rotated from (w, x, y, z) to (x, y, z, w). */
  lemma PoseTransformReorders(pose: seq<real>)
    requires |pose| == 7
    ensures PoseTransform(pose).translation == pose[..3]
    ensures PoseTransform(pose).quaternion == pose[4..7] + pose[3..4]
    ensures multiset(PoseTransform(pose).quaternion) == multiset(pose[3..7])
  {
    assert pose[4..7] + pose[3..4] == [pose[4], pose[5], pose[6], pose[3]];
    RotationKeepsElements(pose[3..7]);
    assert pose[3..7][1..] == pose[4..7] && pose[3..7][..1] == pose[3..4];
  }

  /** Moving the first element to the end keeps the multiset. */
  lemma RotationKeepsElements(q: seq<real>)
    requires |q| > 0
    ensures multiset(q[1..] + q[..1]) == multiset(q)
  {
    assert q == q[..1] + q[1..];
  }

  /** A prim path with one ".*" after a dot-free prefix gets the index in its place. */
  lemma RootPathSubstitutes(a: string, b: string, env: nat)
    requires forall i :: 0 <= i < |a| ==> a[i] != '.'
    requires forall i :: 0 <= i < |b| ==> b[i] != '.'
    ensures RootPath(a + EnvPattern + b, env) == a + NatToString(env) + b
  {
    ReplaceAllSplit(a, EnvPattern, NatToString(env), b);
    assert forall i: nat :: !OccursAt(b, EnvPattern, i);
    ReplaceAllAbsent(b, EnvPattern, NatToString(env));
  }

  /** With a ".*" in the pattern, different environments have different roots. */
  lemma DistinctEnvironmentRoots(a: string, b: string, e1: nat, e2: nat)
    requires forall i :: 0 <= i < |a| ==> a[i] != '.'
    requires forall i :: 0 <= i < |b| ==> b[i] != '.'
    requires e1 != e2
    ensures RootPath(a + EnvPattern + b, e1) != RootPath(a + EnvPattern + b, e2)
  {
    RootPathSubstitutes(a, b, e1);
    RootPathSubstitutes(a, b, e2);
    NatToStringInjective(e1, e2);
    CancelAround(a, NatToString(e1), NatToString(e2), b);
  }

  lemma CancelAround(a: string, x: string, y: string, b: string)
    ensures a + x + b == a + y + b ==> x == y
  {
    if a + x + b == a + y + b {
      assert |x| == |y|;
      assert (a + x + b)[|a|..|a| + |x|] == x;
      assert (a + y + b)[|a|..|a| + |y|] == y;
    }
  }
}
