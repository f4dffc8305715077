/** What the runs of CameraProtocol say about the watchdog, the frame count and the
    policies, told from the steps of a run rather than from the state. */
module CameraRuns {
  import opened PipelineState
  import opened CameraProtocol

  // ------------------------------------------------ uses, as they were recorded

  /** The steps that record a use of the camera. */
  predicate Marks(step: Step) { step.PrewarmMark? || step.HandlerMark? || step.HandlerStore? }

  /** When the last use in a run was recorded; last, if none was. */
  function LastMark(cfg: Config, s: State, steps: seq<Step>, last: nat): nat
    requires Valid(cfg, s, steps)
    decreases |steps|
  {
    if steps == [] then last
    else LastMark(cfg, Apply(cfg, s, steps[0]), steps[1..], if Marks(steps[0]) then s.now else last)
  }

  /** last_use_ns_ is that time, and 0 if no use was recorded yet. */
  lemma {:induction false} LastUseIsMark(cfg: Config, s: State, steps: seq<Step>)
    requires Valid(cfg, s, steps)
    ensures Final(cfg, s, steps).cam.lastUse == LastMark(cfg, s, steps, s.cam.lastUse)
    decreases |steps|
  {
    if steps == [] {
    } else {
      MarkStep(cfg, s, steps[0]);
      LastUseIsMark(cfg, Apply(cfg, s, steps[0]), steps[1..]);
    }
  }

  lemma MarkStep(cfg: Config, s: State, step: Step)
    requires Enabled(cfg, s, step)
    ensures Apply(cfg, s, step).cam.lastUse == if Marks(step) then s.now else s.cam.lastUse
  {
  }

  /** The last use is recorded and at least a window old. */
  predicate Idle(cfg: Config, now: nat, last: nat) { last != 0 && now >= last + cfg.window }

  /** A wakeup of the watchdog leads it to the mutex exactly if, by the run so far, no
      use was recorded within the window but one was before. */
  lemma WakesToCloseIff(cfg: Config, start: nat, steps: seq<Step>, s: State)
    requires Reachable(cfg, start, steps, s) && Enabled(cfg, s, DogWake)
    ensures Apply(cfg, s, DogWake).dog.WantsMutex? <==> Idle(cfg, s.now, LastMark(cfg, Init(cfg, start), steps, 0))
  {
    ReachableInv(cfg, start, steps, s);
    LastUseIsMark(cfg, Init(cfg, start), steps);
  }

  // -------------------------------------------- a stream in use is left alone

  /** At no wakeup of the run is the last recorded use a window old. */
  predicate InUse(cfg: Config, s: State, steps: seq<Step>, last: nat)
    requires Valid(cfg, s, steps)
    decreases |steps|
  {
    steps == [] ||
    (&& (steps[0].DogWake? ==> !Idle(cfg, s.now, last))
     && InUse(cfg, Apply(cfg, s, steps[0]), steps[1..], if Marks(steps[0]) then s.now else last))
  }

  predicate DogRests(s: State) { !s.dog.WantsMutex? && !s.owner.WatchdogIn? }

  lemma RestsOn(cfg: Config, s: State, step: Step)
    requires Inv(cfg, s) && Enabled(cfg, s, step) && DogRests(s)
    requires step.DogWake? ==> !Idle(cfg, s.now, s.cam.lastUse)
    ensures DogRests(Apply(cfg, s, step)) && !step.DogEnter? && !step.DogStop?
  {
  }

  lemma {:induction false} Spared(cfg: Config, s: State, steps: seq<Step>)
    requires Inv(cfg, s) && DogRests(s) && Valid(cfg, s, steps) && InUse(cfg, s, steps, s.cam.lastUse)
    ensures DogRests(Final(cfg, s, steps))
    ensures forall i :: 0 <= i < |steps| ==> !steps[i].DogEnter? && !steps[i].DogStop?
    decreases |steps|
  {
    if steps == [] {
    } else {
      var t := Apply(cfg, s, steps[0]);
      StepKeepsInv(cfg, s, steps[0]);
      RestsOn(cfg, s, steps[0]);
      MarkStep(cfg, s, steps[0]);
      Spared(cfg, t, steps[1..]);
      forall i | 0 <= i < |steps| ensures !steps[i].DogEnter? && !steps[i].DogStop? {
        assert i > 0 ==> steps[i] == steps[1..][i - 1];
      }
    }
  }

  /** The watchdog spares a stream in use: in a run at whose wakeups the recorded use
      is always less than a window old (or there is none), it never takes the mutex. */
  lemma WatchdogSpares(cfg: Config, start: nat, steps: seq<Step>)
    requires start > 0 && Valid(cfg, Init(cfg, start), steps) && InUse(cfg, Init(cfg, start), steps, 0)
    ensures forall i :: 0 <= i < |steps| ==> !steps[i].DogEnter? && !steps[i].DogStop?
  {
    InitInv(cfg, start);
    Spared(cfg, Init(cfg, start), steps);
  }

  /** Then only release workers can switch the stream off: without one, it stays on
      from whenever it came on. */
  lemma UsedStaysOn(cfg: Config, start: nat, before: seq<Step>, after: seq<Step>)
    requires start > 0 && Valid(cfg, Init(cfg, start), before + after) && InUse(cfg, Init(cfg, start), before + after, 0)
    requires forall i :: 0 <= i < |after| ==> !after[i].ReleaseStop?
    requires Valid(cfg, Init(cfg, start), before) && Final(cfg, Init(cfg, start), before).cam.streaming
    ensures Final(cfg, Init(cfg, start), before + after).cam.streaming
  {
    var init := Init(cfg, start);
    WatchdogSpares(cfg, start, before + after);
    Split(cfg, init, before, after);
    ReachableInv(cfg, start, before, Final(cfg, init, before));
    forall i | 0 <= i < |after| ensures !after[i].DogStop? {
      assert after[i] == (before + after)[|before| + i];
    }
    StaysOn(cfg, Final(cfg, init, before), after);
  }

  // ------------------------------------------------------------ frame count

  /** Frames taken in a run since the stream last came on; n before the run. */
  function Taken(cfg: Config, s: State, steps: seq<Step>, n: nat): nat
    requires Valid(cfg, s, steps)
    decreases |steps|
  {
    if steps == [] then n
    else
      var t := Apply(cfg, s, steps[0]);
      var one := if steps[0].HandlerShoot? && TookFrame(steps[0].shot) then 1 else 0;
      Taken(cfg, t, steps[1..], if s.cam.streaming && t.cam.streaming then n + one else 0)
  }

  lemma TakenStep(cfg: Config, s: State, step: Step)
    requires Inv(cfg, s) && Enabled(cfg, s, step)
    ensures var t := Apply(cfg, s, step);
            var one := if step.HandlerShoot? && TookFrame(step.shot) then 1 else 0;
            t.cam.frames == if s.cam.streaming && t.cam.streaming then s.cam.frames + one else 0
  {
  }

  lemma {:induction false} TakenRun(cfg: Config, s: State, steps: seq<Step>)
    requires Inv(cfg, s) && Valid(cfg, s, steps)
    ensures Final(cfg, s, steps).cam.frames == Taken(cfg, s, steps, s.cam.frames)
    decreases |steps|
  {
    if steps == [] {
    } else {
      StepKeepsInv(cfg, s, steps[0]);
      TakenStep(cfg, s, steps[0]);
      TakenRun(cfg, Apply(cfg, s, steps[0]), steps[1..]);
    }
  }

  /** frames_since_open_ is, in every run, the number of frames taken since the stream
      was last started: what the warm-up check compares. */
  lemma FramesCounted(cfg: Config, start: nat, steps: seq<Step>, s: State)
    requires Reachable(cfg, start, steps, s)
    ensures s.cam.frames == Taken(cfg, Init(cfg, start), steps, 0)
  {
    InitInv(cfg, start);
    TakenRun(cfg, Init(cfg, start), steps);
  }

  // --------------------------------------------------------------- policies

  predicate NoReleases(s: State) { !s.owner.ReleaseIn? && forall c :: 0 <= c < |s.conns| ==> s.conns[c].release.Absent? }

  lemma {:induction false} ReleasesAreLazy(cfg: Config, s: State, steps: seq<Step>)
    requires !cfg.policy.Lazy? && NoReleases(s) && Valid(cfg, s, steps)
    ensures forall i :: 0 <= i < |steps| ==> !steps[i].ReleaseEnter? && !steps[i].ReleaseStop?
    decreases |steps|
  {
    if steps == [] {
    } else {
      ReleasesAreLazy(cfg, Apply(cfg, s, steps[0]), steps[1..]);
      forall i | 0 <= i < |steps| ensures !steps[i].ReleaseEnter? && !steps[i].ReleaseStop? {
        assert i > 0 ==> steps[i] == steps[1..][i - 1];
      }
    }
  }

  lemma {:induction false} NoDogNoStop(cfg: Config, s: State, steps: seq<Step>)
    requires cfg.window == 0 && Inv(cfg, s) && !s.owner.WatchdogIn? && Valid(cfg, s, steps)
    ensures forall i :: 0 <= i < |steps| ==> !steps[i].DogStop?
    decreases |steps|
  {
    if steps == [] {
    } else {
      StepKeepsInv(cfg, s, steps[0]);
      NoDogNoStop(cfg, Apply(cfg, s, steps[0]), steps[1..]);
      forall i | 0 <= i < |steps| ensures !steps[i].DogStop? {
        assert i > 0 ==> steps[i] == steps[1..][i - 1];
      }
    }
  }

  /** Other policies than lazy have no release workers, in any run; and without a
      watchdog (the warm policy) a stream that is on is never switched off. */
  lemma OnlyLazyReleases(cfg: Config, start: nat, before: seq<Step>, after: seq<Step>)
    requires start > 0 && !cfg.policy.Lazy? && Valid(cfg, Init(cfg, start), before + after)
    ensures forall i :: 0 <= i < |before + after| ==> !(before + after)[i].ReleaseStop?
    ensures Valid(cfg, Init(cfg, start), before)
    ensures cfg.window == 0 && Final(cfg, Init(cfg, start), before).cam.streaming ==>
              Final(cfg, Init(cfg, start), before + after).cam.streaming
  {
    var init, run := Init(cfg, start), before + after;
    ReleasesAreLazy(cfg, init, run);
    Split(cfg, init, before, after);
    InitInv(cfg, start);
    ReachableInv(cfg, start, before, Final(cfg, init, before));
    if cfg.window == 0 && Final(cfg, init, before).cam.streaming {
      NoDogNoStop(cfg, init, run);
      forall i | 0 <= i < |after| ensures !after[i].ReleaseStop? && !after[i].DogStop? {
        assert after[i] == run[|before| + i];
      }
      StaysOn(cfg, Final(cfg, init, before), after);
    }
  }

  predicate NoPrewarms(s: State) { !s.owner.PrewarmIn? && forall c :: 0 <= c < |s.conns| ==> s.conns[c].prewarm.Absent? }

  /** Connections on the management socket start no prewarm, and under other policies
      than lazy none does. */
  lemma {:induction false} OnlyAuthPrewarms(cfg: Config, s: State, steps: seq<Step>)
    requires NoPrewarms(s) && Valid(cfg, s, steps)
    requires cfg.policy.Lazy? ==> forall i :: 0 <= i < |steps| && steps[i].Accept? ==> !steps[i].authSocket
    ensures forall i :: 0 <= i < |steps| ==> !steps[i].PrewarmEnter?
    decreases |steps|
  {
    if steps == [] {
    } else {
      assert forall i :: 0 <= i < |steps[1..]| ==> steps[1..][i] == steps[i + 1];
      OnlyAuthPrewarms(cfg, Apply(cfg, s, steps[0]), steps[1..]);
      forall i | 0 <= i < |steps| ensures !steps[i].PrewarmEnter? {
        assert i > 0 ==> steps[i] == steps[1..][i - 1];
      }
    }
  }
}
