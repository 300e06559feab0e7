# usd-rerun-logger, modelled in Dafny

usd-rerun-logger sends USD stages and Isaac Lab scenes to the Rerun viewer.
This project models its logging core and proves properties of it:

- **Mesh pipeline** of `UsdRerunLogger._log_mesh`.
  - It decides whether to flatten the mesh into a per-corner triangle soup or keep shared vertices.
  - It fan-triangulates every polygon in either index space.
  - It builds the face → triangle-position map.
  - It slices that map per face-indexed geometry subset.
- **Change-tracked stage loggers** of both packages (`isaac_rerun_logger` and `usd_rerun_logger`).
  - A transform is sent only when it changed.
  - Meshes and cubes are logged once.
  - Vanished prims are cleared.
  - `usd_rerun_logger` adds a glob path filter, PhysX-or-USD transform selection, and an Isaac Lab body-pose memo.
- **Isaac Lab scene logger** `IsaacLabRerunLogger`.
  - It selects environments.
  - It logs the scene structure once.
  - It sends body poses only when they changed.
- **Recording state machine** of the Gymnasium wrapper `LogRerun`.
- **Helpers in `util.py`**: recording-stream selection, `is_url`, and the cache-file extension rule.

The viewer is an append-only log of `Event(path, payload, isStatic)` values, one per `rr.log` call (`viewer.dfy`).

A USD stage is a sequence of prim records (`StageTraversal.Prim`). Each record holds:

- the path;
- the guide flag;
- the Xformable, Mesh, Cube and RigidBodyAPI tests;
- the local matrix;
- the PhysX pose;
- the mesh attributes.

Geometry, matrices and poses are values compared only for equality.

Layout:

| file | content |
|---|---|
| `viewer.dfy` | events, payloads, `ClearsExactly` |
| `mesh.dfy` | flatten decision, both triangulation loops and their specification |
| `subsets.dfy` | subset collection and slicing |
| `mesh_logging.dfy` | `_log_mesh` end to end |
| `stage.dfy` | the traversal specification shared by both stage loggers, and the clear sweep |
| `poses.dfy` | the Isaac Lab body-pose sweep |
| `isaac_stage_logger.dfy` | the logger class of `src/isaac_rerun_logger` |
| `usd_stage_logger.dfy` | the logger class of `src/usd_rerun_logger` |
| `isaac_lab_logger.dfy` | the Isaac Lab scene logger |
| `env_logger.dfy` | the wrapper |
| `util.dfy` | the helpers |
| `strings.dfy` | decimal rendering and `str.replace` |
| `glob.dfy` | `*`/`?` matching |

**Specification pattern.** Every class method states its new state as a function of its old state (for example, `State() == AfterStep(settings, old(State()))`). The properties are lemmas about those functions.

**Where the code is followed over its documentation:**

- `start_recording` is documented to stop a running recording before it starts the new one. The code only replaces the timeline name and resets the time, with no flush, and it leaves the frame count as it was. The wrapper class follows the code (`EnvLogger.LogRerun.StartRecording`). The documented behaviour is modelled beside it; see Findings.
- With `recording_length = n`, `step` stops only once more than n frames were recorded. A capped recording therefore holds n + 1 frames, reset frame included (`EnvLogger.CappedRecordingStops`). The model keeps this behaviour.

## Model

| member | source | states |
|---|---|---|
| `MeshLogging.FlattenedBuffers` | src/isaac_rerun_logger/__init__.py:224-259 | Face-varying st or normals always flatten the mesh. A flattened mesh has one vertex per face corner, namely that corner's original point. A "vertex" normal or texture buffer is read per corner the same way, so it has one entry per vertex; any other buffer passes through unchanged. A shared mesh keeps its points and both buffers. |
| `MeshFlattener.FanCorners` | src/isaac_rerun_logger/__init__.py:264-287 | Every triangle of a face at corner offset idx starts at idx and uses only corners idx … idx+count-1. A face of three or more corners uses every one of them. |
| `MeshFlattener.CornerTrisLength` | src/isaac_rerun_logger/__init__.py:260-289 | The flattened triangle list has exactly the sum over faces of max(count-2, 0) rows. |
| `MeshFlattener.CornerTrisInRange` | src/isaac_rerun_logger/__init__.py:239-289 | Every corner index in the flattened list lies below the total corner count (the sum of the face vertex counts). |
| `MeshFlattener.FaceMapAt` | src/isaac_rerun_logger/__init__.py:242-289 | The face map has one entry per face. Face f's entry is the max(count-2, 0) consecutive positions that follow the triangles of faces 0 … f-1. |
| `MeshFlattener.FaceMapConcat` | src/isaac_rerun_logger/__init__.py:242-339 | Concatenating the face map in face order gives exactly 0, 1, …, T-1. |
| `MeshFlattener.FaceMapLocates` | src/isaac_rerun_logger/__init__.py:260-289 | The k-th position recorded for face f points at the k-th triangle of that face's own fan. |
| `MeshFlattener.SharedIsLookupOfCorners` | src/isaac_rerun_logger/__init__.py:290-339 | Whenever the faces of three or more corners lie inside face_vertex_indices, the shared path has as many triangles as the flattened path. Its j-th triangle is the j-th corner triangle with each corner read through face_vertex_indices. |
| `MeshFlattener.ReadEndWithinCorners` | src/isaac_rerun_logger/__init__.py:290-339 | The shared path reads face_vertex_indices no further than the total corner count, so a well-formed mesh is always readable. |
| `MeshFlattener.ShortFaceIsNotRead` | src/isaac_rerun_logger/__init__.py:290-339 | Counts [3, 2] over the indices [0, 1, 2] are readable although the corners sum to 5, and they triangulate to the single triangle (0, 1, 2), because a two-corner face reads nothing. |
| `MeshFlattener.Reindex` | src/isaac_rerun_logger/__init__.py:245-247 | `data[face_vertex_indices]` has one element per corner, and element k is `data[fvi[k]]`. |
| `MeshFlattener.FlattenAttribute` | src/isaac_rerun_logger/__init__.py:249-259 | A vertex-interpolated attribute is re-indexed per corner. Any other interpolation leaves it unchanged. An absent attribute stays absent. |
| `MeshFlattener.FlattenedMatchesShared` | src/isaac_rerun_logger/__init__.py:245-339 | In every triangle, the duplicated vertex addressed by the flattened path is the original vertex addressed by the shared path. |
| `MeshFlattener.FaceFlattened` | src/isaac_rerun_logger/__init__.py:264-288 | The triangle, quad and fan branches all produce the fan of the face. They hand out the next max(count-2, 0) triangle positions. |
| `MeshFlattener.FaceShared` | src/isaac_rerun_logger/__init__.py:293-339 | The same for the shared path: the fan read through face_vertex_indices, with the quad branch equal to the fan of four. Only a face of three or more corners must lie inside face_vertex_indices; a smaller face reads nothing. |
| `MeshFlattener.TriangulateFlattened` | src/isaac_rerun_logger/__init__.py:239-341 | The flattened loop yields the corner-triangle list and the face map of the specification. |
| `MeshFlattener.TriangulateShared` | src/isaac_rerun_logger/__init__.py:290-339 | The shared loop yields the shared-triangle list and the same face map. It needs only that each face of three or more corners ends within face_vertex_indices (`ReadEnd`), not that the counts sum to at most its length. |
| `SubsetSlicing.CollectSubsetPositions` | src/isaac_rerun_logger/__init__.py:361-367 | A subset's positions are the face-map entries of its faces, in the subset's order. A face index at or beyond the face count adds nothing. |
| `SubsetSlicing.SliceRows` | src/isaac_rerun_logger/__init__.py:372 | `triangles_list[positions]` holds the rows at those positions, in that order. |
| `SubsetSlicing.SubsetPositionsAppend` | src/isaac_rerun_logger/__init__.py:363-367 | Collecting over two face lists in sequence concatenates their positions. |
| `SubsetSlicing.SubsetMembership` | src/isaac_rerun_logger/__init__.py:363-367 | A position is collected iff one of the listed faces is a mesh face whose entry holds it. |
| `SubsetSlicing.SubsetPositionsInRange` | src/isaac_rerun_logger/__init__.py:361-372 | Every collected position is below the triangle count, so the row slice is defined. |
| `SubsetSlicing.FaceOfPosition` | src/isaac_rerun_logger/__init__.py:242-339 | A position below the triangle count belongs to some face, and to exactly one. |
| `SubsetSlicing.DisjointSubsetsPartition` | src/isaac_rerun_logger/__init__.py:346-386 | Two subsets that share no face and cover every face split the triangles between them: each triangle goes to exactly one. |
| `SubsetSlicing.AllFacesSubset` | src/isaac_rerun_logger/__init__.py:346-399 | A subset listing every face in order collects every triangle in order. |
| `SubsetSlicing.AsWrittenAgreesOnNaturals` | src/isaac_rerun_logger/__init__.py:363-367 | For non-negative face indices, the loop as written collects exactly what the model collects. |
| `SubsetSlicing.NegativeFaceIndexWraps` | src/isaac_rerun_logger/__init__.py:364-366 | Face index -1 passes the bound check and takes the last face's triangle. The model collects nothing for it. |
| `MeshLogging.Texcoords` | src/isaac_rerun_logger/__init__.py:197-212 | There are no texcoords without an st primvar or without data. Indexed data is read through its indices; unindexed data is taken as is. |
| `MeshLogging.MeshGeometryConsistent` | src/isaac_rerun_logger/__init__.py:226-341 | On either path, the triangle list has T rows and every face-map position indexes it. |
| `MeshLogging.SubsetPositionsBounded` | src/isaac_rerun_logger/__init__.py:361-372 | Every position collected against a consistent geometry addresses a triangle row. |
| `MeshLogging.SubsetEvents` | src/isaac_rerun_logger/__init__.py:346-386 | There is at most one static Mesh3D per subset. Each sits at the path of a "face" subset and carries the whole vertex buffer. |
| `MeshLogging.MeshEvents` | src/isaac_rerun_logger/__init__.py:168-399 | No points: nothing is logged. No face indices or counts: one static point cloud. No subsets: one static Mesh3D with all T triangles at the mesh path. Otherwise only subset paths are logged. |
| `MeshLogging.LogMesh` | src/isaac_rerun_logger/__init__.py:168-399 | `_log_mesh` logs exactly the events of the specification. It requires only the indices the code reads to be in range (`Indexable`). On the shared path that means the faces of three or more corners, so counts [3, 2] over three indices are accepted. |
| `MeshLogging.FullSubsetIsWholeMesh` | src/isaac_rerun_logger/__init__.py:356-399 | A subset listing every face logs exactly what the no-subset branch would log. |
| `MeshLogging.QuadWithVertexUVs` | src/isaac_rerun_logger/__init__.py:290-339 | A quad with vertex UVs stays shared and becomes (0,1,2), (0,2,3), with face map [[0, 1]]. |
| `MeshLogging.QuadWithFaceVaryingUVs` | src/isaac_rerun_logger/__init__.py:226-288 | The same quad with face-varying UVs is flattened to one vertex per corner. |
| `MeshLogging.CornerLengthUVsFlatten` | src/isaac_rerun_logger/__init__.py:231-259 | UVs tagged "vertex" but one per corner trigger the length rule and are re-indexed per corner. |
| `Strings.NatToString` | src/isaac_rerun_logger/__init__.py:32 | Decimal digits, with a leading zero only for 0. |
| `Strings.ParseNatToString` | src/isaac_rerun_logger/__init__.py:32 | The decimal suffix reads back as the number. |
| `Strings.NatToStringInjective` | src/isaac_rerun_logger/__init__.py:32 | Different suffixes give different logger ids. |
| `Strings.ReplaceAllAbsent` | src/usd_rerun_logger/isaac_lab_logger.py:44 | A prim path without ".*" is left unchanged by the replacement. |
| `Strings.ReplaceAllSplit` | src/usd_rerun_logger/isaac_lab_logger.py:44 | The first occurrence is replaced, and replacement continues after it. |
| `Glob.StarMatchesEverything` | src/usd_rerun_logger/__init__.py:170 | "*" admits every path. |
| `Glob.LiteralMatchesItself` | src/usd_rerun_logger/__init__.py:170 | A pattern without wildcards or `[` admits exactly its own path. |
| `Glob.PrefixStarMatches` | src/usd_rerun_logger/__init__.py:170 | "prefix*", with a prefix free of wildcards and `[`, admits every path that starts with the prefix. |
| `Glob.PrefixStarOnlyBelow` | src/usd_rerun_logger/__init__.py:170 | "prefix*" admits only such paths. |
| `Viewer.ClearsExactlyMeans` | src/isaac_rerun_logger/__init__.py:131-135 | A sweep's output is one non-static flat clear per vanished path, each path once, and nothing else. |
| `Viewer.ClearsExtend` | src/isaac_rerun_logger/__init__.py:132-135 | Clearing one more, new path extends such a sweep. |
| `StageTraversal.Sweep` | src/isaac_rerun_logger/__init__.py:131-135 | The memo keeps exactly the seen paths, and every remembered path that was not seen is cleared exactly once. |
| `StageTraversal.TraverseCurrent` | src/usd_rerun_logger/__init__.py:162-173 | `current_paths` is exactly the paths of prims that are neither guides nor filtered out. |
| `StageTraversal.TraverseAppends` | src/usd_rerun_logger/__init__.py:162-188 | A traversal only appends to the viewer log. |
| `StageTraversal.GeometryAtMostOnce` | src/usd_rerun_logger/__init__.py:179-188 | Each mesh or cube path is logged at most once between clears, and every logged path is remembered. |
| `StageTraversal.UsdTransformIffChanged` | src/usd_rerun_logger/__init__.py:233-262 | A visible Xformable prim's transform is sent iff its path is new or its matrix changed. The memo holds the matrix afterwards. |
| `StageTraversal.PhysxPoseIffChanged` | src/usd_rerun_logger/__init__.py:264-287 | With PhysX enabled, a rigid body's pose is sent iff PhysX has one and it is new or changed. The USD memo is untouched. |
| `StageTraversal.TrackedPrimGetsNoTransform` | src/usd_rerun_logger/__init__.py:176-177 | A path tracked by the Isaac Lab memo gets no transform from the traversal. |
| `StageTraversal.VisitSettles` | src/usd_rerun_logger/__init__.py:162-188 | After a prim is visited, its transform is remembered and its geometry marked logged. |
| `StageTraversal.VisitKeepsSettled` | src/usd_rerun_logger/__init__.py:162-188 | Visiting another path keeps that settled state. |
| `StageTraversal.SettledVisitIsSilent` | src/usd_rerun_logger/__init__.py:176-188 | Visiting a settled prim sends nothing and changes no memo. |
| `StageTraversal.TraverseSettles` | src/usd_rerun_logger/__init__.py:162-188 | After a traversal of distinct paths, every prim is settled. |
| `StageTraversal.SettledTraverseIsSilent` | src/usd_rerun_logger/__init__.py:162-188 | Traversing settled prims sends nothing and changes no memo. |
| `StageTraversal.UnchangedStageIsSilent` | src/usd_rerun_logger/__init__.py:147-194 | After a traversal and its sweep, traversing the unchanged stage again sends nothing and leaves nothing to clear. |
| `BodyPoses.Apply` | src/usd_rerun_logger/isaac_lab_logger.py:55-73 | A pose sweep only appends to the log and only adds memo keys. |
| `BodyPoses.ApplyAppend` | src/usd_rerun_logger/isaac_lab_logger.py:37-73 | Sweeping a concatenation is sweeping the parts in turn. |
| `BodyPoses.LogBodies` | src/usd_rerun_logger/isaac_lab_logger.py:55-73 | The body loop of one environment equals the sweep over its body items. |
| `BodyPoses.LogEnvironment` | src/usd_rerun_logger/isaac_lab_logger.py:44-73 | One environment: the structure item if requested, then its bodies. |
| `BodyPoses.LogArticulation` | src/usd_rerun_logger/isaac_lab_logger.py:39-73 | The environment loop of one articulation, skipping unselected environments. |
| `BodyPoses.LogScenePoses` | src/usd_rerun_logger/isaac_lab_logger.py:37-73 | The articulation loop equals the sweep over the scene's items. |
| `BodyPoses.ApplyRecordsPoses` | src/usd_rerun_logger/isaac_lab_logger.py:60-65 | After a sweep over distinct bodies, the memo holds every body's pose. |
| `BodyPoses.RecordedSweepIsSilent` | src/usd_rerun_logger/isaac_lab_logger.py:59-63 | When every pose is already remembered, a sweep changes nothing. |
| `BodyPoses.RepeatedSweepIsSilent` | src/usd_rerun_logger/isaac_lab_logger.py:59-65 | Repeating a sweep on unchanged poses changes nothing. |
| `BodyPoses.SweepSendsChangedPoses` | src/usd_rerun_logger/isaac_lab_logger.py:59-73 | A sweep sends exactly one transform per new or changed pose, in order. It adds only swept paths to the memo and keeps every other entry. |
| `BodyPoses.FirstSweepSendsEverything` | src/usd_rerun_logger/isaac_lab_logger.py:59-73 | From an empty memo, every body's pose is sent, in order. |
| `BodyPoses.NoStructureItems` | src/usd_rerun_logger/isaac_lab_logger.py:47-53 | Without the structure pass, only body poses are swept. |
| `BodyPoses.StructurePassAddsNoBodies` | src/usd_rerun_logger/isaac_lab_logger.py:47-57 | Leaving the structure entries out of a sweep with the structure pass gives exactly the sweep without it, so every body a later call sweeps was swept by the first call. |
| `BodyPoses.OnlySelectedEnvironments` | src/usd_rerun_logger/isaac_lab_logger.py:39-42 | Every structure item and pose comes from a selected environment. |
| `BodyPoses.PoseTransformReorders` | src/usd_rerun_logger/isaac_lab_logger.py:67-72 | The translation is pose[0..3). The quaternion is (pose[4], pose[5], pose[6], pose[3]), a permutation of the wxyz input. |
| `BodyPoses.RootPathSubstitutes` | src/usd_rerun_logger/isaac_lab_logger.py:44 | ".*" in the prim path is replaced by the environment index. |
| `BodyPoses.DistinctEnvironmentRoots` | src/usd_rerun_logger/isaac_lab_logger.py:44-56 | Different environments get different roots. |
| `IsaacStageLogger.UsdRerunLogger.constructor` | src/isaac_rerun_logger/__init__.py:14-18 | The logger starts with no stage, no id and empty memos; the stage argument is ignored. |
| `IsaacStageLogger.UsdRerunLogger.Stop` | src/isaac_rerun_logger/__init__.py:43-50 | With an id set, `stop` drops the stage and id and empties both memos. Without one it changes nothing. |
| `IsaacStageLogger.UsdRerunLogger.Initialize` | src/isaac_rerun_logger/__init__.py:20-41 | `initialize` takes the stage and the id "<base>_<n>" with n < 10000, and starts from empty memos. |
| `IsaacStageLogger.UsdRerunLogger.ClearLoggedMeshes` | src/isaac_rerun_logger/__init__.py:424-426 | Only the logged-geometry set is emptied. |
| `IsaacStageLogger.UsdRerunLogger.LogTransform` | src/isaac_rerun_logger/__init__.py:137-166 | The transform is sent and remembered iff the prim is Xformable and its matrix is new or changed. |
| `IsaacStageLogger.UsdRerunLogger.VisitPrim` | src/isaac_rerun_logger/__init__.py:106-129 | One loop iteration equals one step of the traversal specification. |
| `IsaacStageLogger.UsdRerunLogger.LogStage` | src/isaac_rerun_logger/__init__.py:94-135 | Without a stage, nothing happens. Otherwise the log is the traversal's output followed by exactly one clear per vanished path, and the memo keeps only seen paths. |
| `IsaacStageLogger.SecondLogStageIsSilent` | src/isaac_rerun_logger/__init__.py:94-135 | A second `log_stage` on an unchanged stage sends nothing and keeps every memo. |
| `UsdStageLogger.NormalizedFilterAdmits` | src/usd_rerun_logger/__init__.py:79-82 | No filter, or an empty list, admits every path. A single string admits exactly what it matches. A list admits what some pattern matches. |
| `UsdStageLogger.UsdRerunLogger.constructor` | src/usd_rerun_logger/__init__.py:25-46 | The logger keeps the PhysX choice and starts empty. |
| `UsdStageLogger.UsdRerunLogger.Stop` | src/usd_rerun_logger/__init__.py:92-102 | With an id set, `stop` drops the stage, id and filter and empties all four memos, keeping the scene. Without one it changes nothing. |
| `UsdStageLogger.UsdRerunLogger.Initialize` | src/usd_rerun_logger/__init__.py:48-90 | `initialize` takes the stage, the scene, the normalised filter and the id "<base>_<n>", with empty memos. |
| `UsdStageLogger.UsdRerunLogger.ClearLoggedMeshes` | src/usd_rerun_logger/__init__.py:293-295 | Only the logged-geometry set is emptied. |
| `UsdStageLogger.UsdRerunLogger.LogIsaacLabAssetPoses` | src/usd_rerun_logger/__init__.py:205-231 | Nothing happens without a scene. Otherwise it performs the pose sweep over every environment, with no structure. |
| `UsdStageLogger.UsdRerunLogger.LogUsdTransform` | src/usd_rerun_logger/__init__.py:233-262 | The USD transform is sent and remembered iff the prim is Xformable and its matrix is new or changed. |
| `UsdStageLogger.UsdRerunLogger.LogPhysxPose` | src/usd_rerun_logger/__init__.py:264-287 | The PhysX pose is sent and remembered iff the prim is a rigid body, PhysX returns a pose, and it is new or changed. |
| `UsdStageLogger.UsdRerunLogger.LogTransform` | src/usd_rerun_logger/__init__.py:197-203 | The pose comes from PhysX iff PhysX is enabled and the prim has RigidBodyAPI; otherwise from USD. |
| `UsdStageLogger.UsdRerunLogger.VisitPrim` | src/usd_rerun_logger/__init__.py:162-188 | One loop iteration equals one traversal step with the filter, the PhysX choice and the tracked poses, using the corrected geometry step (see Findings). |
| `UsdStageLogger.UsdRerunLogger.TraversePrims` | src/usd_rerun_logger/__init__.py:162-188 | The whole traversal loop, from no visited paths, equals the traversal of the stage's prims in order (corrected geometry step, see Findings). |
| `UsdStageLogger.UsdRerunLogger.Admits` | src/usd_rerun_logger/__init__.py:169-171 | A prim passes iff the filter is absent or empty, or some pattern matches its path. |
| `UsdStageLogger.UsdRerunLogger.LogGeometry` | src/usd_rerun_logger/__init__.py:179-188 | The corrected geometry step (see Findings): a mesh or cube is logged, through the mesh pipeline of `src/isaac_rerun_logger`, and remembered the first time its path is met. |
| `UsdStageLogger.UsdRerunLogger.LogStage` | src/usd_rerun_logger/__init__.py:147-194 | With the corrected geometry step (see Findings): the pose sweep runs, then the traversal skipping tracked transforms, then one clear per vanished USD path. The PhysX and Isaac Lab memos are not swept. |
| `UsdStageLogger.TraverseAsWrittenRaises` | src/usd_rerun_logger/__init__.py:162-194 | As written, the loop raises iff some visible mesh or cube is not yet logged, and then at the first such prim. The logged set never grows, and no USD memo key is removed, because the clear sweep is not reached. |
| `UsdStageLogger.RaiseRepeats` | src/usd_rerun_logger/__init__.py:179-188 | As written, a later call on the same stage and filter raises again at the same prim. |
| `UsdStageLogger.AsWrittenAgreesWhenLogged` | src/usd_rerun_logger/__init__.py:162-188 | When every visible mesh and cube is already logged, the loop as written is the modelled traversal. |
| `UsdStageLogger.CubeStageRaises` | src/usd_rerun_logger/__init__.py:186-188 | As written, a stage with one cube at `/World/Cube` and nothing logged raises at the cube. |
| `UsdStageLogger.AnyMatches` | src/usd_rerun_logger/__init__.py:170 | `any(fnmatch(path, p) …)` holds iff some pattern matches. |
| `UsdStageLogger.SecondLogStageIsSilent` | src/usd_rerun_logger/__init__.py:147-194 | A second `log_stage` on an unchanged stage and scene sends nothing and keeps every memo. |
| `IsaacLabLogger.NormalizeEnvs` | src/usd_rerun_logger/isaac_lab_logger.py:29-31 | An int becomes a one-element list. |
| `IsaacLabLogger.NormalizedEnvsSelect` | src/usd_rerun_logger/isaac_lab_logger.py:29-42 | The normalised list selects exactly the given index, or exactly the listed ones. |
| `IsaacLabLogger.IsaacLabRerunLogger.constructor` | src/usd_rerun_logger/isaac_lab_logger.py:21-31 | The logger keeps a reference to the live scene and the normalised environments, with an empty memo and the flag unset. |
| `IsaacLabLogger.IsaacLabRerunLogger.LogScene` | src/usd_rerun_logger/isaac_lab_logger.py:33-76 | Without a scene or stage, nothing happens. Otherwise it sweeps the selected environments of the scene as it is now (the scene is a live field the simulation updates), with the structure pass only while the flag is unset, then sets the flag. |
| `IsaacLabLogger.LaterLogSceneSendsMovedBodies` | src/usd_rerun_logger/isaac_lab_logger.py:37-73 | A call after the first has no structure pass. Whatever the simulation changed in the scene, it sends exactly one transform per body whose pose is new or moved, in sweep order. |
| `IsaacLabLogger.SecondLogSceneIsSilent` | src/usd_rerun_logger/isaac_lab_logger.py:33-76 | After any call, a second call on unchanged poses sends nothing. |
| `EnvLogger.RecordingLength` | src/usd_rerun_logger/env_logger.py:148-150 | 0 means unbounded; any other value is a frame cap. |
| `EnvLogger.LogRerun.constructor` | src/usd_rerun_logger/env_logger.py:141-155 | Without either trigger, the default schedule becomes the episode trigger. Both counters start at -1, with no timeline and no frames. |
| `EnvLogger.LogRerun.CaptureFrame` | src/usd_rerun_logger/env_logger.py:157-166 | Nothing happens without a timeline. Otherwise the frame is stamped with the frames recorded so far, the scene is logged and the count goes up. |
| `EnvLogger.LogRerun.StartRecording` | src/usd_rerun_logger/env_logger.py:207-212 | As the code stands: the timeline is replaced, and the time is reset and set to 0. There is no flush, and the frame count is unchanged (see Findings). |
| `EnvLogger.LogRerun.StopRecording` | src/usd_rerun_logger/env_logger.py:214-218 | There is no timeline, no frames, and one flush. |
| `EnvLogger.LogRerun.Reset` | src/usd_rerun_logger/env_logger.py:168-183 | The episode counter goes up, an unbounded recording stops, "episode_<id>" starts if triggered, and a frame is captured. |
| `EnvLogger.LogRerun.Step` | src/usd_rerun_logger/env_logger.py:185-200 | The step counter goes up, "step_<id>" starts if triggered, a frame is captured, and recording stops once the count exceeds the cap. |
| `EnvLogger.LogRerun.Close` | src/usd_rerun_logger/env_logger.py:202-205 | `close` stops the recording. |
| `EnvLogger.Wrap` | src/usd_rerun_logger/env_logger.py:124-131 | Wrapping an environment without a scene is a ValueError. Otherwise a fresh wrapper starts in its initial state. |
| `EnvLogger.StepsWhileRecording` | src/usd_rerun_logger/env_logger.py:185-200 | With no new trigger, each step of an unbounded recording adds one frame, stamped with the running count. |
| `EnvLogger.StepsWhileIdle` | src/usd_rerun_logger/env_logger.py:185-200 | With no recording and no trigger, steps only count. |
| `EnvLogger.EpisodeRecordingTimes` | tests/test_env_wrapper.py:96-113 | In a triggered episode the timeline is reset, and step j is stamped j + 1 frames. In any other episode no time is set. |
| `EnvLogger.CappedRecordingStops` | src/usd_rerun_logger/env_logger.py:197-198 | A recording with cap n runs while the count is at most n and stops, with a flush, on the step that takes it to n + 1. |
| `EnvLogger.RetriggerCarriesFrames` | src/usd_rerun_logger/env_logger.py:188-212 | As the code stands, a step trigger firing during a recording opens the new timeline with no flush before it. The new timeline's first frame is stamped with the frame count the old one held. |
| `EnvLogger.RetriggeredRecordingStopsEarly` | src/usd_rerun_logger/env_logger.py:188-212 | Take cap 3, triggers at steps 0 and 1, and "step_0" holding 2 frames. "step_1" is stamped from 2, "step_0" is never flushed, and "step_1" stops after 2 frames of its own. |
| `EnvLogger.IdleAtZeroKept` | src/usd_rerun_logger/env_logger.py:155-218 | No frames are counted while no timeline runs. Capture, start, stop, `step` and `reset` all keep this. |
| `EnvLogger.DocumentedRestartStep` | src/usd_rerun_logger/env_logger.py:207-208 | Under the documented `start_recording`, the step whose trigger fires flushes whatever ran. The new timeline then holds one frame, stamped 0. |
| `EnvLogger.RestartAsDocumentedHoldsCap` | src/usd_rerun_logger/env_logger.py:185-208 | Under the documented `start_recording` with cap n and no later trigger, the old recording is flushed first. The new timeline holds n + 1 frames stamped 0 … n, then stops with a flush. |
| `EnvLogger.RunningFromOneFrame` | src/usd_rerun_logger/env_logger.py:185-200 | A timeline holding one frame, with no trigger on the way, stops once it holds cap + 1 frames, stamped 0 … cap. |
| `EnvLogger.CapturesSplit` | src/usd_rerun_logger/env_logger.py:157-166 | Frames captured in two runs on one timeline are the frames of one run, stamped consecutively. |
| `EnvLogger.UnboundedResetEndsRecording` | src/usd_rerun_logger/env_logger.py:172-181 | After a reset in whole-episode mode, a timeline runs iff this episode was triggered, and it is "episode_<id>". |
| `Util.GetRecordingStream` | src/usd_rerun_logger/util.py:44-72 | A save path gives a new saving stream, named by the application id or "usd_rerun_logger". Otherwise the given stream is used, else the global one. With none of these it is a ValueError. |
| `Util.SchemeSplitsOff` | src/usd_rerun_logger/util.py:135 | A letter-led scheme followed by ":" is split off, lower-cased. |
| `Util.WebSchemesAreUrls` | src/usd_rerun_logger/util.py:132-136 | "http:" and "https:" URLs, in any letter case, are URLs when the network location is ASCII and has no lone bracket. |
| `Util.FilePathsAreNotUrls` | src/usd_rerun_logger/util.py:132-136 | Absolute and relative file paths are not URLs. |
| `Util.LoneBracketIsNotUrl` | src/usd_rerun_logger/util.py:134-138 | An http network location with "[" but no "]" makes the parse raise, so the answer is false. |
| `Util.ExtensionAsWritten` | src/usd_rerun_logger/util.py:92-94 | The extension is "" or "." plus the text after the path's last dot. |
| `Util.Extension` | src/usd_rerun_logger/util.py:92-94 | The same rule applied to the last path segment: never contains "/". |
| `Util.ExtensionAsWrittenEmptyIffNoDot` | src/usd_rerun_logger/util.py:92-93 | The split gives no extension exactly when the path has no dot. |
| `Util.ExtensionEmptyIffNoDotInLastSegment` | src/usd_rerun_logger/util.py:92-93 | The corrected rule gives no extension exactly when no dot follows the last "/". |
| `Util.CachedFileStaysInCache` | src/usd_rerun_logger/util.py:95 | Hash plus extension names a file directly inside the cache directory. |
| `Util.ExtensionAgreesInLastSegment` | src/usd_rerun_logger/util.py:92-94 | When the last dot is in the last segment, or there is no dot, both rules agree. |
| `Util.DottedDirectoryLeaksSlash` | src/usd_rerun_logger/util.py:93-94 | For "/v1.2/texture" the rule as written gives ".2/texture". The corrected rule gives "". |

## Left out

- **Rerun transport** (`rr.init`, `rr.save`, `rr.disconnect`, `rr.log`'s encoding, recording-stream `set_time`/`flush`). It is an append-only event log, or a call log in the wrapper.
- **USD API.** The traversal order, instance proxies, schema tests and attribute getters are not modelled. The stage is a sequence of prim records in traversal order.
- **Floating point.**
  - Transforms, PhysX poses and geometry are opaque values compared only for equality; `Gf.Transform` decomposition is not modelled.
  - Cube half-size and colour scaling are not modelled (a cube is a `Boxes3D` event).
  - The frame timestamp `frames * physics_dt` is kept as the frame count.
- **Materials and textures**: `_get_image_texture_path`, `_load_texture` and shader resolution. They are UsdShade calls, PIL and file I/O. Mesh events carry no texture.
- **`download_image`'s I/O**: md5, urlopen, the PIL check and `_get_cache_dir`. Only the extension rule and the cached name are modelled; the URL-hash string is a parameter.
- The dependency checks in util.py are import-time I/O.
- **The `uint32` cast of the triangle list.** Indices are unbounded integers.
- **Negative face vertex counts.** `MeshFlattener` and `MeshLogging` take `faceVertexCounts` as natural numbers. The source accepts a negative count: `range(1, count - 1)` is then empty, so the face gets no triangles, and `idx += count` moves the corner offset backwards, so later faces reuse earlier corners. That case is not modelled.
- **Negative or too-large numpy indices.** Where numpy would raise or wrap, the model requires the index in range. On the flattened path these are `face_vertex_indices` into the points and the vertex buffers. The st indices must also be in range. On the shared path, `MeshFlattener.SharedTris`, `MeshFlattener.TriangulateShared` and `MeshLogging.Indexable` require only that each face of three or more corners ends within `face_vertex_indices` (`MeshFlattener.ReadEnd`); a face of fewer corners is never read.
- **Dict iteration order** of the clear sweep. The sweep takes keys in an unspecified order, so `ClearsExactly` states the clears up to order.
- **The Isaac Lab structure pass** (`log_usd_transform`, `log_visuals` below each root). `transfom.py` and the visual module are not part of this model. The pass is one `SceneStructure` event per selected root.
- **The default episode trigger** `capped_cubic_video_schedule`. It comes from Gymnasium and is a constructor parameter. Triggers are total functions.
- **The random logger-id suffix** is a parameter below 10000.
- **`set_time`** on the stage loggers, and the printed warnings.
- **Glob**: `fnmatch` is modelled for `*` and `?` only. `Glob.Matches` matches `[` as an ordinary character, whereas fnmatch opens a character class `[...]` with it, so a filter pattern holding a closed class gets the wrong answer and is outside the model; `Glob.LiteralMatchesItself`, `Glob.PrefixStarMatches` and `Glob.PrefixStarOnlyBelow` are stated only for patterns without `[`. The platform's case normalisation is not modelled either.
- Util.IsUrl: follows Python's split of scheme, network location and unsafe characters, and the lone-bracket check. Two checks of the split that raise are not modelled, so IsUrl can answer true where `is_url` answers false: the validation of bracketed IPv6 hosts, and the check on a non-ASCII network location whose NFKC normalisation contains "/", "?", "#", "@" or ":" (for example "http://a\uFF03b/").
- Util.WebSchemesAreUrls: requires an ASCII network location, because the NFKC check above is not modelled; for a non-ASCII one it promises nothing.
- Util.Extension: works on the URL path string; extracting `parsed.path` from a full URL is not modelled.
- EnvLogger.LogRerun.constructor: does not model the `IsaacLabRerunLogger` construction. Its keyword arguments do not match that class's constructor; the wrapper's logger calls are recorded as `SceneLogged`.
- MeshLogging.MeshEvents: states, for meshes with subsets, only that events are at subset paths. The exact subset content is stated by `SubsetSlicing` and `MeshLogging.FullSubsetIsWholeMesh`.
- **Scripts and documentation configuration** (examples, `__main__` blocks, docs) are not modelled.

## Findings

| source | as written | input that shows it | evidently intended | confidence | as-written member | corrected member |
|---|---|---|---|---|---|---|
| src/isaac_rerun_logger/__init__.py:364 | Only `face_idx < len(face_to_triangle_indices)` is checked, so a negative face index reaches Python's negative list indexing. | A mesh of two triangles `[3, 3]` with a subset listing face `-1`: the subset gets triangle 1, the last face's. | An index that names no face contributes nothing. | not executed | `SubsetSlicing.NegativeFaceIndexWraps` | `SubsetSlicing.CollectSubsetPositions` |
| src/usd_rerun_logger/__init__.py:182 | `log_stage` calls `self._log_mesh` (line 182) and `self._log_cube` (line 187), but this class defines neither. The call raises AttributeError before the path is added to `_logged_meshes`. | A stage holding one cube at `/World/Cube`, with no filter. The first `log_stage` raises at that prim, and the clear sweep at 190-194 never runs. Every later call raises at the same prim. | Each mesh and cube is logged once, as the `src/isaac_rerun_logger` logger does with its own `_log_mesh` and `_log_cube`. | not executed | `UsdStageLogger.TraverseAsWrittenRaises` | `UsdStageLogger.UsdRerunLogger.LogGeometry` |
| src/usd_rerun_logger/env_logger.py:207 | `start_recording` is documented to stop a running recording first. It only replaces the timeline and resets the time: there is no flush, and `_recorded_frames` keeps its value. | Take cap 3, a step trigger firing at steps 0 and 1, and "step_0" holding 2 frames. Step 1 starts "step_1" with its first frame stamped 2 · physics_dt, and "step_0" is never flushed. "step_1" stops after 2 frames of its own instead of 4. An episode trigger that fires during a capped recording carries the count over in the same way. | The running recording is flushed and its count reset, so the new timeline starts at 0 and holds cap + 1 frames. | not executed | `EnvLogger.RetriggerCarriesFrames` | `EnvLogger.RestartAsDocumentedHoldsCap` |
| src/usd_rerun_logger/util.py:93 | `parsed.path.rsplit(".", 1)` splits the whole URL path, so a dot in a directory name makes the "extension" contain a "/". | URL path `/v1.2/texture` gives extension `.2/texture`. The cached file lands in a non-existent sub-directory of the cache, so the download fails and returns None. | The extension is taken from the last path segment only ("" here). | not executed | `Util.DottedDirectoryLeaksSlash` | `Util.CachedFileStaysInCache` |
