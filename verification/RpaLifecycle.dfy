/** What the handlers leave behind and for how long, what a visit tells about its step, and
    what the counters of a device row count. */
module RpaLifecycle {
  import opened Prelude
  import opened Values
  import opened RpaModel
  import opened RpaHistory
  import opened RpaSteps
  import opened RpaVerdict

  // ---- Devices that do not run ----

  /** A device that does not run is not moved by the events of other devices, by visits and by
      pauses; a stopped one not by further stops either. */
  predicate LetsSleep(e: Event, dev: int, stopped: bool) {
    Concerns(e, dev) ==> e.Visit? || e.Pause? || (stopped && e.Stop?)
  }

  /** As a stop leaves a device. */
  predicate Stopped(w: World, dev: int) {
    && dev in w.devices && dev !in w.trail.current
    && w.devices[dev].status in {StatusIdle, StatusPaused}
    && w.devices[dev].currentStep == 0 && w.devices[dev].subStep == 0 && w.devices[dev].stepContext == map[]
  }

  predicate Asleep(w: World, dev: int, stopped: bool) {
    dev in w.devices && w.devices[dev].status != StatusRunning && (stopped ==> Stopped(w, dev))
  }

  lemma UntouchedBySelf(t: Trail, dev: int)
    ensures Untouched(t, t, dev)
  {
  }

  lemma SleepsOn(w: World, known: set<string>, dev: int, e: Event, stopped: bool)
    requires Tracked(w.trail) && Asleep(w, dev, stopped) && LetsSleep(e, dev, stopped)
    ensures Asleep(Apply(w, known, e), dev, stopped)
    ensures var status := Apply(w, known, e).devices[dev].status;
            Apply(w, known, e).devices[dev] == w.devices[dev].(status := status)
    ensures Untouched(w.trail, Apply(w, known, e).trail, dev)
  {
    if Concerns(e, dev) {
      UntouchedBySelf(w.trail, dev);
      assert e.Stop? ==> CloseHistory(w.trail, dev, ExecCancelled, "stopped by the user") == w.trail;
    } else {
      DevicesAreIndependent(w, known, e, dev);
      assert dev in Apply(w, known, e).trail.current <==> dev in w.trail.current;
    }
  }

  lemma {:induction false} SleepingRun(w: World, known: set<string>, dev: int, es: seq<Event>, stopped: bool)
    requires Tracked(w.trail) && Asleep(w, dev, stopped)
    requires forall k :: 0 <= k < |es| ==> LetsSleep(es[k], dev, stopped)
    ensures Tracked(Run(w, known, es).trail) && Asleep(Run(w, known, es), dev, stopped)
    ensures var status := Run(w, known, es).devices[dev].status;
            Run(w, known, es).devices[dev] == w.devices[dev].(status := status)
    ensures Untouched(w.trail, Run(w, known, es).trail, dev)
  {
    if es == [] {
      UntouchedBySelf(w.trail, dev);
    } else {
      var before, last := es[..|es| - 1], es[|es| - 1];
      SleepingRun(w, known, dev, before, stopped);
      var v := Run(w, known, before);
      SleepsOn(v, known, dev, last, stopped);
      ApplyTracked(v, known, last);
      UntouchedTransitive(w.trail, v.trail, Run(w, known, es).trail, dev);
    }
  }

  /** A stop makes a device idle at the beginning of its flow, with nothing kept of its step and
      no running history. It stays so, but for a pause, and its part of the trail stays as it
      is, until it is started, resumed or bound again or an overtaken visit comes in. */
  lemma {:induction false} StoppedDevicesRest(known: set<string>, past: seq<Event>, dev: int, es: seq<Event>)
    requires dev in Run(EMPTY_WORLD, known, past).devices
    requires forall k :: 0 <= k < |es| ==> LetsSleep(es[k], dev, true)
    ensures var row := Run(EMPTY_WORLD, known, past).devices[dev];
            var s := Apply(Run(EMPTY_WORLD, known, past), known, Stop(dev));
            var v := Run(s, known, es);
            && dev in s.devices && s.devices[dev] == row.(status := StatusIdle, currentStep := 0, subStep := 0,
                                                          stepContext := map[])
            && dev !in s.trail.current && NoneRunning(s.trail, dev)
            && dev in v.devices && v.devices[dev].status in {StatusIdle, StatusPaused}
            && v.devices[dev] == s.devices[dev].(status := v.devices[dev].status)
            && Untouched(s.trail, v.trail, dev)
  {
    var w := Run(EMPTY_WORLD, known, past);
    RunningHistoriesAreTracked(known, past);
    CloseTracked(w.trail, dev, ExecCancelled, "stopped by the user");
    var s := Apply(w, known, Stop(dev));
    assert Stopped(s, dev);
    SleepingRun(s, known, dev, es, true);
  }

  /** A pause holds a device where it is, whatever is visited meanwhile, and a resume lets it go
      on from exactly there with the same history. */
  lemma {:induction false} PausedDevicesWait(known: set<string>, past: seq<Event>, dev: int, es: seq<Event>)
    requires dev in Run(EMPTY_WORLD, known, past).devices
    requires Run(EMPTY_WORLD, known, past).devices[dev].status == StatusRunning
    requires forall k :: 0 <= k < |es| ==> LetsSleep(es[k], dev, false)
    ensures var w := Run(EMPTY_WORLD, known, past);
            var v := Run(Apply(w, known, Pause(dev)), known, es);
            && dev in v.devices && v.devices[dev] == w.devices[dev].(status := v.devices[dev].status)
            && v.devices[dev].status != StatusRunning
            && Apply(v, known, Resume(dev)).devices[dev] == w.devices[dev]
            && Untouched(w.trail, Apply(v, known, Resume(dev)).trail, dev)
  {
    var w := Run(EMPTY_WORLD, known, past);
    RunningHistoriesAreTracked(known, past);
    SleepingRun(Apply(w, known, Pause(dev)), known, dev, es, false);
  }

  /** Binding a device to a flow leaves it idle at the flow's beginning, in the given mode, with
      its loops, time and error forgotten, and does not touch the trail. It does not start it:
      the row waits as it is for a start or resume. */
  lemma {:induction false} BoundDevicesWait(known: set<string>, past: seq<Event>, dev: int, rpaId: nat, mode: RunMode,
                                            es: seq<Event>)
    requires forall k :: 0 <= k < |es| ==> LetsSleep(es[k], dev, false)
    ensures var w := Run(EMPTY_WORLD, known, past);
            var b := Apply(w, known, Bind(dev, rpaId, mode));
            var v := Run(b, known, es);
            && b.trail == w.trail && b.flows == w.flows && dev in b.devices
            && var row := b.devices[dev];
            && row.rpaId == rpaId && row.mode == mode && row.status == StatusIdle
            && row.currentStep == 0 && row.subStep == 0 && row.stepContext == map[]
            && row.loopCount == 0 && row.totalTime == 0 && row.loopStartAt == None && row.lastError == ""
            && (dev in w.devices ==> && row.successCount == w.devices[dev].successCount
                                     && row.failCount == w.devices[dev].failCount
                                     && row.flowVariables == w.devices[dev].flowVariables)
            && dev in v.devices && v.devices[dev] == row.(status := v.devices[dev].status)
            && v.devices[dev].status != StatusRunning && Untouched(w.trail, v.trail, dev)
  {
    RunningHistoriesAreTracked(known, past);
    SleepingRun(Apply(Run(EMPTY_WORLD, known, past), known, Bind(dev, rpaId, mode)), known, dev, es, false);
  }

  // ---- Starts ----

  /** The history at position h has just been opened for a flow with n steps and is tracked. */
  predicate FreshHistory(t: Trail, dev: int, h: nat, rpaId: nat, n: nat) {
    && |t.histories| == h + 1 && dev in t.current && t.current[dev] == h
    && t.histories[h] == History(dev, rpaId, ExecRunning, n, 0, 0, 0, "")
  }

  /** A start puts a device at the beginning of its flow with no variable but its own id, keeps
      its counters, cancels whatever ran, and opens a history that names the flow and its
      length when there is such a flow. */
  lemma {:induction false} StartsAreFresh(known: set<string>, past: seq<Event>, dev: int, now: int)
    requires dev in Run(EMPTY_WORLD, known, past).devices
    ensures var w := Run(EMPTY_WORLD, known, past);
            var s := Apply(w, known, Start(dev, now));
            && dev in s.devices
            && var row, was := s.devices[dev], w.devices[dev];
            && row.status == StatusRunning && row.currentStep == 0 && row.subStep == 0 && row.stepContext == map[]
            && row.flowVariables == map["deviceId" := Int(dev)] && row.loopStartAt == Some(now) && row.lastError == ""
            && row.rpaId == was.rpaId && row.mode == was.mode && row.loopCount == was.loopCount
            && row.successCount == was.successCount && row.failCount == was.failCount
            && row.totalTime == was.totalTime
            && (forall i :: 0 <= i < |w.trail.histories| && w.trail.histories[i].deviceId == dev ==>
                  s.trail.histories[i] == if w.trail.histories[i].status == ExecRunning
                                          then w.trail.histories[i].(status := ExecCancelled)
                                          else w.trail.histories[i])
            && (if OpensHistory(w, dev)
                then FreshHistory(s.trail, dev, |w.trail.histories|, was.rpaId, |w.flows[was.rpaId].steps|)
                else |s.trail.histories| == |w.trail.histories| && NoneRunning(s.trail, dev))
  {
    var w := Run(EMPTY_WORLD, known, past);
    RunningHistoriesAreTracked(known, past);
    CancelTracked(w.trail, dev);
  }

  // ---- What a visit reports ----

  /** A step that fails is reported with one and the same message in the device row, in the
      history and in the step row that was open or is opened for it. */
  lemma {:induction false} FailureIsReported(known: set<string>, past: seq<Event>, dev: int, r: StepResult, now: int)
    requires var w := Run(EMPTY_WORLD, known, past);
             && dev in w.devices && w.devices[dev].status == StatusRunning && dev in w.trail.current
             && Executes(w.devices[dev], FlowOf(w, w.devices[dev].rpaId), known)
             && (w.devices[dev].subStep != 0 ==> HasOpenRecord(w.trail, dev, w.devices[dev].currentStep))
    requires r.completed && !r.success
    ensures var w := Run(EMPTY_WORLD, known, past);
            var v := Apply(w, known, Visit(dev, r, now));
            var row, h := w.devices[dev], w.trail.current[dev];
            && dev in v.devices && v.devices[dev].status == StatusError && v.devices[dev].lastError == r.error
            && v.devices[dev].currentStep == row.currentStep
            && v.devices[dev].failCount == row.failCount + 1
            && v.devices[dev].successCount == row.successCount
            && h < |v.trail.histories| && v.trail.histories[h].status == ExecFailed
            && v.trail.histories[h].errorMessage == r.error && v.trail.histories[h].currentStep == row.currentStep
            && dev !in v.trail.current
            && var s := if row.subStep == 0 then |w.trail.records| else w.trail.pending[(dev, row.currentStep)];
               s < |v.trail.records| && v.trail.records[s] == StepRecord(h, dev, row.currentStep, ExecFailed, r.error)
  {
    RunWired(known, past);
    var w := Run(EMPTY_WORLD, known, past);
    StepIsReported(w.trail, dev, w.devices[dev], r);
  }

  /** A step that succeeds, without stopping the flow, closes its row as a success, moves the
      history's progress, and leads to a step of the flow or to its end with the step's output
      among the variables. */
  lemma {:induction false} SuccessIsReported(known: set<string>, past: seq<Event>, dev: int, r: StepResult, now: int)
    requires var w := Run(EMPTY_WORLD, known, past);
             && dev in w.devices && w.devices[dev].status == StatusRunning && dev in w.trail.current
             && Executes(w.devices[dev], FlowOf(w, w.devices[dev].rpaId), known)
             && (w.devices[dev].subStep != 0 ==> HasOpenRecord(w.trail, dev, w.devices[dev].currentStep))
    requires r.completed && r.success && !StopsSuccessfully(r.output)
    ensures var w := Run(EMPTY_WORLD, known, past);
            var v := Apply(w, known, Visit(dev, r, now));
            var row, h := w.devices[dev], w.trail.current[dev];
            && dev in v.devices && v.devices[dev].status == StatusRunning
            && v.devices[dev].subStep == 0 && v.devices[dev].stepContext == map[]
            && (forall key :: key in r.output && key !in CONTROL_KEYS ==>
                  key in v.devices[dev].flowVariables && v.devices[dev].flowVariables[key] == r.output[key])
            && (forall key :: key in row.flowVariables && (key !in r.output || key in CONTROL_KEYS) ==>
                  key in v.devices[dev].flowVariables && v.devices[dev].flowVariables[key] == row.flowVariables[key])
            && v.devices[dev].flowVariables.Keys <= row.flowVariables.Keys + r.output.Keys
            && h < |v.trail.histories| && v.trail.histories[h].status == w.trail.histories[h].status
            && v.trail.histories[h].currentStep == row.currentStep
            && dev in v.trail.current && v.trail.current[dev] == h
            && var s := if row.subStep == 0 then |w.trail.records| else w.trail.pending[(dev, row.currentStep)];
               s < |v.trail.records| && v.trail.records[s] == StepRecord(h, dev, row.currentStep, ExecSuccess, "")
  {
    RunWired(known, past);
    var w := Run(EMPTY_WORLD, known, past);
    StepIsReported(w.trail, dev, w.devices[dev], r);
  }

  /** The open or opened row of the step and the tracked history after a finished step. */
  lemma StepIsReported(t: Trail, dev: int, row: DeviceRow, r: StepResult)
    requires Wired(t) && dev in t.current && r.completed
    requires row.subStep != 0 ==> HasOpenRecord(t, dev, row.currentStep)
    ensures var t', h := StepTrail(t, dev, row, r), t.current[dev];
            var s := if row.subStep == 0 then |t.records| else t.pending[(dev, row.currentStep)];
            && s < |t'.records| && h < |t'.histories| && h < |t.histories|
            && t'.records[s].historyId == h && t'.records[s].deviceId == dev
            && t'.records[s].stepIndex == row.currentStep
            && t'.records[s].status == (if r.success then ExecSuccess else ExecFailed)
            && t'.records[s].errorMessage == (if r.success then "" else r.error)
            && t'.histories[h].currentStep == row.currentStep
            && (if r.success then t'.histories[h].status == t.histories[h].status && t'.current == t.current
                else && t'.histories[h].status == ExecFailed && t'.histories[h].errorMessage == r.error
                     && dev !in t'.current)
  {
    RecordIsReported(Begun(t, dev, row), dev, row.currentStep, if r.success then ExecSuccess else ExecFailed,
                     if r.success then "" else r.error);
  }

  lemma RecordIsReported(t: Trail, dev: int, step: nat, status: ExecStatus, message: string)
    requires (dev, step) in t.pending && t.pending[(dev, step)] < |t.records|
    requires dev in t.current && t.current[dev] < |t.histories|
    ensures var t', s, h := CloseRecord(t, dev, step, status, message), t.pending[(dev, step)], t.current[dev];
            && |t'.records| == |t.records| && |t'.histories| == |t.histories| && t'.current == t.current
            && t'.records[s] == t.records[s].(status := status, errorMessage := message)
            && t'.histories[h] == t.histories[h].(currentStep := step)
  {
  }
}
