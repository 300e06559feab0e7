/**
 * The Gymnasium wrapper `LogRerun`: it counts episodes and steps, starts a
 * timeline when an episode or step trigger fires, stamps every captured
 * frame with the number of frames recorded so far, and stops the timeline at
 * the next reset (unbounded recordings) or once more frames than the
 * recording length were captured.
 */
module EnvLogger {
  import opened Viewer
  import opened Strings

  /** What the wrapper asks of the recording stream and of the scene logger. */
  datatype StreamCall =
    | ResetTime
      /** `set_time(timeline, timestamp=0)`. */
    | SetTimestamp(timeline: string)
      /** `set_time(timeline, duration=frames * physics_dt)`, kept as the frame count. */
    | SetDuration(timeline: string, frames: nat)
      /** One `log_scene` call of the Isaac Lab logger. */
    | SceneLogged
    | Flush

  /** `recording_length`: 0 means whole episodes (infinity), anything else a frame cap. */
  datatype Length = Unbounded | Frames(cap: int)

  function RecordingLength(n: int): (len: Length)
    ensures len.Unbounded? <==> n == 0
    ensures len.Frames? ==> len.cap == n
  {
    if n == 0 then Unbounded else Frames(n)
  }

  /** A trigger fires only when it is given and returns true. */
  predicate Fires(trigger: Option<int -> bool>, n: int) {
    trigger.Some? && trigger.value(n)
  }

  /** The construction-time choices the wrapper keeps. */
  datatype Settings = Settings(episodeTrigger: Option<int -> bool>, stepTrigger: Option<int -> bool>, length: Length)

  /** The counters, the active timeline, the frames recorded on it and the calls made so far. */
  datatype Recorder = Recorder(stepId: int, episodeId: int, timeline: Option<string>, frames: nat, calls: seq<StreamCall>)

  function IntToString(n: int): string {
    if n < 0 then "-" + NatToString(-n) else NatToString(n)
  }

  function EpisodeTimeline(id: int): string {
    "episode_" + IntToString(id)
  }

  function StepTimeline(id: int): string {
    "step_" + IntToString(id)
  }

  // ----- One call of each operation -----

  /** `_capture_frame`: without a timeline nothing; otherwise stamp, log the scene, count the frame. */
  function Captured(r: Recorder): Recorder {
    if r.timeline.None? then r
    else r.(calls := r.calls + [SetDuration(r.timeline.value, r.frames), SceneLogged], frames := r.frames + 1)
  }

  /** `start_recording`: the new timeline replaces any current one, starting at time 0. */
  function Started(r: Recorder, name: string): Recorder {
    r.(timeline := Some(name), calls := r.calls + [ResetTime, SetTimestamp(name)])
  }

  /** `stop_recording`: no timeline, no frames, and a flush. */
  function Stopped(r: Recorder): Recorder {
    r.(timeline := None, frames := 0, calls := r.calls + [Flush])
  }

  /** `reset`: next episode; end an unbounded recording; maybe start "episode_<id>"; capture. */
  function AfterReset(cfg: Settings, r: Recorder): Recorder {
    var r1 := r.(episodeId := r.episodeId + 1);
    var r2 := if cfg.length.Unbounded? then Stopped(r1) else r1;
    var r3 := if Fires(cfg.episodeTrigger, r1.episodeId) then Started(r2, EpisodeTimeline(r1.episodeId)) else r2;
    Captured(r3)
  }

  /**
   * `step`, with `start` in the place of `start_recording`: next step; maybe
   * start "step_<id>"; capture; stop once the cap is exceeded.
   */
  function StepWith(cfg: Settings, r: Recorder, start: (Recorder, string) -> Recorder): Recorder {
    var r1 := r.(stepId := r.stepId + 1);
    var r2 := if Fires(cfg.stepTrigger, r1.stepId) then start(r1, StepTimeline(r1.stepId)) else r1;
    var r3 := Captured(r2);
    if cfg.length.Frames? && r3.frames > cfg.length.cap then Stopped(r3) else r3
  }

  /** `step` as the code stands. */
  function AfterStep(cfg: Settings, r: Recorder): Recorder {
    StepWith(cfg, r, Started)
  }

  /** k calls of `step` in a row. */
  function Steps(cfg: Settings, r: Recorder, k: nat): Recorder {
    if k == 0 then r else AfterStep(cfg, Steps(cfg, r, k - 1))
  }

  // ----- The wrapper -----

  class LogRerun {
    const settings: Settings
    var stepId: int
    var episodeId: int
    var timelineName: Option<string>
    var recordedFrames: nat
    /** Every call made on the recording stream and the scene logger, in order. */
    var calls: seq<StreamCall>

    function State(): Recorder
      reads this
    {
      Recorder(stepId, episodeId, timelineName, recordedFrames, calls)
    }

    /**
     * Without either trigger the default schedule is the episode trigger;
     * a recording length of 0 becomes unbounded; both counters start at -1.
     */
    constructor(episodeTrigger: Option<int -> bool>, stepTrigger: Option<int -> bool>, recordingLength: int,
                defaultSchedule: int -> bool)
      ensures settings.episodeTrigger ==
                (if episodeTrigger.None? && stepTrigger.None? then Some(defaultSchedule) else episodeTrigger)
      ensures settings.stepTrigger == stepTrigger && settings.length == RecordingLength(recordingLength)
      ensures State() == Recorder(-1, -1, None, 0, [])
    {
      var episodes := if episodeTrigger.None? && stepTrigger.None? then Some(defaultSchedule) else episodeTrigger;
      settings := Settings(episodes, stepTrigger, RecordingLength(recordingLength));
      stepId := -1;
      episodeId := -1;
      timelineName := None;
      recordedFrames := 0;
      calls := [];
    }

    method CaptureFrame()
      modifies this
      ensures State() == Captured(old(State()))
    {
      if timelineName.None? {
        return;
      }
      calls := calls + [SetDuration(timelineName.value, recordedFrames), SceneLogged];
      recordedFrames := recordedFrames + 1;
    }

    method StartRecording(name: string)
      modifies this
      ensures State() == Started(old(State()), name)
    {
      timelineName := Some(name);
      calls := calls + [ResetTime, SetTimestamp(name)];
    }

    method StopRecording()
      modifies this
      ensures State() == Stopped(old(State()))
    {
      timelineName := None;
      recordedFrames := 0;
      calls := calls + [Flush];
    }

    method Reset()
      modifies this
      ensures State() == AfterReset(settings, old(State()))
    {
      episodeId := episodeId + 1;
      if settings.length.Unbounded? {
        StopRecording();
      }
      if settings.episodeTrigger.Some? && settings.episodeTrigger.value(episodeId) {
        StartRecording(EpisodeTimeline(episodeId));
      }
      CaptureFrame();
    }

    method Step()
      modifies this
      ensures State() == AfterStep(settings, old(State()))
    {
      stepId := stepId + 1;
      if settings.stepTrigger.Some? && settings.stepTrigger.value(stepId) {
        StartRecording(StepTimeline(stepId));
      }
      CaptureFrame();
      if settings.length.Frames? && recordedFrames > settings.length.cap {
        StopRecording();
      }
    }

    /** `close` ends the recording and flushes. */
    method Close()
      modifies this
      ensures State() == Stopped(old(State()))
    {
      StopRecording();
    }
  }

  /** A wrapped environment without a scene is refused with a ValueError. */
  method Wrap(hasScene: bool, episodeTrigger: Option<int -> bool>, stepTrigger: Option<int -> bool>,
              recordingLength: int, defaultSchedule: int -> bool)
    returns (r: Result<LogRerun>)
    ensures r.Err? <==> !hasScene
    ensures r.Ok? ==> fresh(r.value) && r.value.State() == Recorder(-1, -1, None, 0, [])
  {
    if !hasScene {
      return Err("Cannot use LogRerun wrapper: the environment does not have a 'scene' attribute.");
    }
    var w := new LogRerun(episodeTrigger, stepTrigger, recordingLength, defaultSchedule);
    return Ok(w);
  }

  // ----- Properties -----

  /** The calls of k captured frames on one timeline, stamped first, first + 1, ... */
  function Captures(name: string, first: nat, k: nat): (cs: seq<StreamCall>)
    ensures |cs| == 2 * k
  {
    if k == 0 then [] else Captures(name, first, k - 1) + [SetDuration(name, first + k - 1), SceneLogged]
  }

  /** No step trigger fires on the steps after `from`, up to `from + k`. */
  predicate QuietSteps(cfg: Settings, from: int, k: nat) {
    forall i :: from < i <= from + k ==> !Fires(cfg.stepTrigger, i)
  }

  /** While an unbounded recording runs and no step trigger fires, every step captures one more frame. */
  lemma {:induction false} StepsWhileRecording(cfg: Settings, r: Recorder, k: nat)
    requires cfg.length.Unbounded? && r.timeline.Some? && QuietSteps(cfg, r.stepId, k)
    ensures Steps(cfg, r, k) ==
              r.(stepId := r.stepId + k, frames := r.frames + k, calls := r.calls + Captures(r.timeline.value, r.frames, k))
  {
    if k > 0 {
      assert QuietSteps(cfg, r.stepId, k - 1);
      StepsWhileRecording(cfg, r, k - 1);
      assert !Fires(cfg.stepTrigger, r.stepId + k);
    }
  }

  /**
   * Without a recording and without step triggers, steps only count. (With
   * a negative recording length the count exceeds the cap even at 0, and
   * every step flushes again.)
   */
  lemma {:induction false} StepsWhileIdle(cfg: Settings, r: Recorder, k: nat)
    requires r.timeline.None? && QuietSteps(cfg, r.stepId, k)
    requires cfg.length.Frames? ==> r.frames <= cfg.length.cap
    ensures Steps(cfg, r, k) == r.(stepId := r.stepId + k)
  {
    if k > 0 {
      assert QuietSteps(cfg, r.stepId, k - 1);
      StepsWhileIdle(cfg, r, k - 1);
      assert !Fires(cfg.stepTrigger, r.stepId + k);
    }
  }

  /**
   * An episode of whole-episode recording with k steps: when the episode
   * trigger selects it, the timeline "episode_<id>" is reset, started at
   * time 0, the reset frame is stamped 0 and step j (from 0) is stamped
   * j + 1 frames; otherwise the only call is the flush that ends the
   * previous recording, so no time is set at all.
   */
  lemma EpisodeRecordingTimes(cfg: Settings, r: Recorder, k: nat)
    requires cfg.length.Unbounded? && QuietSteps(cfg, r.stepId, k)
    ensures var name := EpisodeTimeline(r.episodeId + 1);
            var after := Steps(cfg, AfterReset(cfg, r), k);
            && after.episodeId == r.episodeId + 1 && after.stepId == r.stepId + k
            && (Fires(cfg.episodeTrigger, r.episodeId + 1) ==>
                  && after.timeline == Some(name) && after.frames == k + 1
                  && after.calls == r.calls + [Flush, ResetTime, SetTimestamp(name), SetDuration(name, 0), SceneLogged]
                                            + Captures(name, 1, k))
            && (!Fires(cfg.episodeTrigger, r.episodeId + 1) ==>
                  after.timeline.None? && after.frames == 0 && after.calls == r.calls + [Flush])
  {
    var r1 := AfterReset(cfg, r);
    if Fires(cfg.episodeTrigger, r.episodeId + 1) {
      StepsWhileRecording(cfg, r1, k);
    } else {
      StepsWhileIdle(cfg, r1, k);
    }
  }

  /**
   * A capped recording already holding f frames, with no new trigger on the
   * way, keeps its timeline while the count stays within the cap and ends
   * on the step that takes it past the cap: with a cap of n it holds n + 1
   * frames in all.
   */
  lemma {:induction false} CappedRecordingStops(cfg: Settings, r: Recorder, k: nat)
    requires cfg.length.Frames? && r.timeline.Some? && QuietSteps(cfg, r.stepId, k)
    requires r.frames + k <= cfg.length.cap + 1
    ensures r.frames + k <= cfg.length.cap ==>
              Steps(cfg, r, k) == r.(stepId := r.stepId + k, frames := r.frames + k,
                                     calls := r.calls + Captures(r.timeline.value, r.frames, k))
    ensures r.frames + k == cfg.length.cap + 1 && k > 0 ==>
              Steps(cfg, r, k) == r.(stepId := r.stepId + k, frames := 0, timeline := None,
                                     calls := r.calls + Captures(r.timeline.value, r.frames, k) + [Flush])
  {
    if k > 0 {
      var j := k - 1;
      assert QuietSteps(cfg, r.stepId, j);
      CappedRecordingStops(cfg, r, j);
      var name := r.timeline.value;
      var before := Steps(cfg, r, j);
      assert before == r.(stepId := r.stepId + j, frames := r.frames + j, calls := r.calls + Captures(name, r.frames, j));
      assert !Fires(cfg.stepTrigger, before.stepId + 1);
      QuietStep(cfg, before);
      assert r.calls + Captures(name, r.frames, k) ==
             r.calls + Captures(name, r.frames, j) + [SetDuration(name, r.frames + j), SceneLogged];
    }
  }

  /** A step on a running timeline with no trigger firing captures one frame, and stops once past the cap. */
  lemma QuietStep(cfg: Settings, r: Recorder)
    requires r.timeline.Some? && !Fires(cfg.stepTrigger, r.stepId + 1)
    ensures var captured := r.(stepId := r.stepId + 1, frames := r.frames + 1,
                               calls := r.calls + [SetDuration(r.timeline.value, r.frames), SceneLogged]);
            AfterStep(cfg, r) == if cfg.length.Frames? && r.frames + 1 > cfg.length.cap then Stopped(captured) else captured
  {
  }

  /** A reset never leaves the previous whole-episode timeline running: a timeline after it is this episode's. */
  lemma UnboundedResetEndsRecording(cfg: Settings, r: Recorder)
    requires cfg.length.Unbounded?
    ensures AfterReset(cfg, r).timeline.Some? <==> Fires(cfg.episodeTrigger, r.episodeId + 1)
    ensures AfterReset(cfg, r).timeline.Some? ==> AfterReset(cfg, r).timeline.value == EpisodeTimeline(r.episodeId + 1)
    ensures AfterReset(cfg, r).frames == (if Fires(cfg.episodeTrigger, r.episodeId + 1) then 1 else 0)
  {
  }

  // ----- start_recording as its documentation describes it -----

  /**
   * As the code stands, a step trigger that fires while a recording runs
   * neither flushes it nor resets its frame count: the new timeline opens
   * with no Flush before it, and its first frame is stamped with the number
   * of frames the old timeline held.
   */
  lemma RetriggerCarriesFrames(cfg: Settings, r: Recorder)
    requires r.timeline.Some? && Fires(cfg.stepTrigger, r.stepId + 1)
    ensures var name := StepTimeline(r.stepId + 1);
            var captured := r.(stepId := r.stepId + 1, timeline := Some(name), frames := r.frames + 1,
                               calls := r.calls + [ResetTime, SetTimestamp(name), SetDuration(name, r.frames), SceneLogged]);
            AfterStep(cfg, r) == if cfg.length.Frames? && r.frames + 1 > cfg.length.cap then Stopped(captured) else captured
  {
  }

  /**
   * A cap of 3, a step trigger firing at steps 0 and 1, and "step_0"
   * holding 2 frames: "step_1" is stamped from 2, never flushes "step_0",
   * and stops after 2 frames of its own instead of 4.
   */
  lemma RetriggeredRecordingStopsEarly()
    ensures var cfg := Settings(None, Some(n => n == 0 || n == 1), Frames(3));
            Steps(cfg, Recorder(0, -1, Some("step_0"), 2, []), 2) ==
              Recorder(2, -1, None, 0, [ResetTime, SetTimestamp("step_1"), SetDuration("step_1", 2), SceneLogged,
                                        SetDuration("step_1", 3), SceneLogged, Flush])
  {
    assert NatToString(1) == "1" && NatToString(2) == "2";
    assert StepTimeline(1) == "step_1";
  }

  /**
   * `start_recording` as its documentation describes it: a running
   * recording is stopped (flushed, its frame count back to 0) before the
   * new timeline starts.
   */
  function StartedAsDocumented(r: Recorder, name: string): Recorder {
    Started(if r.timeline.Some? then Stopped(r) else r, name)
  }

  /** Captured frames on one timeline, split after the first a of them. */
  lemma {:induction false} CapturesSplit(name: string, first: nat, a: nat, b: nat)
    ensures Captures(name, first, a) + Captures(name, first + a, b) == Captures(name, first, a + b)
  {
    if b > 0 {
      CapturesSplit(name, first, a, b - 1);
    }
  }

  /**
   * No frames are counted while no timeline runs: the wrapper starts at 0,
   * only a running timeline counts frames, and stopping resets the count.
   */
  predicate IdleAtZero(r: Recorder) {
    r.timeline.None? ==> r.frames == 0
  }

  lemma IdleAtZeroKept(cfg: Settings, r: Recorder, name: string)
    requires IdleAtZero(r)
    ensures IdleAtZero(Captured(r)) && IdleAtZero(Started(r, name)) && IdleAtZero(Stopped(r))
    ensures IdleAtZero(AfterStep(cfg, r)) && IdleAtZero(AfterReset(cfg, r))
  {
  }

  /** The step on which the documented `start_recording` fires: flush what ran, then one frame stamped 0. */
  lemma DocumentedRestartStep(cfg: Settings, r: Recorder)
    requires IdleAtZero(r) && Fires(cfg.stepTrigger, r.stepId + 1)
    ensures var name := StepTimeline(r.stepId + 1);
            var flush := if r.timeline.Some? then [Flush] else [];
            var running := r.(stepId := r.stepId + 1, timeline := Some(name), frames := 1,
                              calls := r.calls + flush + [ResetTime, SetTimestamp(name)] + Captures(name, 0, 1));
            StepWith(cfg, r, StartedAsDocumented) ==
              if cfg.length.Frames? && 1 > cfg.length.cap then Stopped(running) else running
  {
    var name := StepTimeline(r.stepId + 1);
    var flush := if r.timeline.Some? then [Flush] else [];
    var r1 := r.(stepId := r.stepId + 1);
    var started := StartedAsDocumented(r1, name);
    assert started == r1.(timeline := Some(name), frames := 0, calls := r.calls + flush + [ResetTime, SetTimestamp(name)]);
    assert Captures(name, 0, 1) == [SetDuration(name, 0), SceneLogged];
  }

  /**
   * With the documented `start_recording`, a step trigger that fires
   * flushes whatever was running first, and with a cap of n and no further
   * trigger the new timeline holds n + 1 frames of its own, stamped 0 … n,
   * before it stops. (Later steps fire no trigger, so both forms of `step`
   * agree on them.)
   */
  lemma RestartAsDocumentedHoldsCap(cfg: Settings, r: Recorder)
    requires IdleAtZero(r) && cfg.length.Frames? && cfg.length.cap >= 0
    requires Fires(cfg.stepTrigger, r.stepId + 1) && QuietSteps(cfg, r.stepId + 1, cfg.length.cap)
    ensures var name, n := StepTimeline(r.stepId + 1), cfg.length.cap;
            var flush := if r.timeline.Some? then [Flush] else [];
            Steps(cfg, StepWith(cfg, r, StartedAsDocumented), n) ==
              r.(stepId := r.stepId + 1 + n, timeline := None, frames := 0,
                 calls := r.calls + flush + [ResetTime, SetTimestamp(name)] + Captures(name, 0, n + 1) + [Flush])
  {
    var name, n := StepTimeline(r.stepId + 1), cfg.length.cap;
    var flush := if r.timeline.Some? then [Flush] else [];
    var begun := r.calls + flush + [ResetTime, SetTimestamp(name)];
    var running := r.(stepId := r.stepId + 1, timeline := Some(name), frames := 1, calls := begun + Captures(name, 0, 1));
    DocumentedRestartStep(cfg, r);
    RunningFromOneFrame(cfg, running, begun);
  }

  /** A timeline that holds one frame and sees no trigger stops once it holds cap + 1 frames. */
  lemma RunningFromOneFrame(cfg: Settings, running: Recorder, begun: seq<StreamCall>)
    requires cfg.length.Frames? && cfg.length.cap >= 0 && running.timeline.Some? && running.frames == 1
    requires running.calls == begun + Captures(running.timeline.value, 0, 1)
    requires QuietSteps(cfg, running.stepId, cfg.length.cap)
    ensures var name, n := running.timeline.value, cfg.length.cap;
            Steps(cfg, if 1 > n then Stopped(running) else running, n) ==
              running.(stepId := running.stepId + n, timeline := None, frames := 0,
                       calls := begun + Captures(name, 0, n + 1) + [Flush])
  {
    var name, n := running.timeline.value, cfg.length.cap;
    if n > 0 {
      CappedRecordingStops(cfg, running, n);
      CapturesSplit(name, 0, 1, n);
      assert running.calls + Captures(name, 1, n) == begun + Captures(name, 0, n + 1);
    }
  }


}
