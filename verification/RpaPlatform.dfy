/** Flows made of the steps that wait for the platform: the executors' own time limits bound
    the visits of each step, so that every such flow ends. */
module RpaPlatform {
  import opened Prelude
  import opened Values
  import opened RpaModel
  import opened RpaHistory
  import opened RpaProgress
  import opened StepMachines

  /** Visits within which each of the two waiting executors is done. */
  const PATIENCE: nat := 602

  /** A step of the flow with its resolved parameters. */
  datatype Job = ChangeJob | InstallJob(url: string, install: bool)

  function ExecOf(dev: int, job: Job): Execute {
    match job
    case ChangeJob => ChangeOsOf(dev)
    case InstallJob(url, install) => InstallAppOf(dev, url, install)
  }

  /** An unfinished visit moves the device row exactly as it moves the step machine, whenever
      the row is written. */
  lemma VisitMovesTheMachine(row: DeviceRow, flow: Flow, known: set<string>, exec: Execute, t: Tick, now: int)
    requires Executes(row, Some(flow), known)
    ensures var r := exec(row.subStep, row.stepContext, t);
            var row' := VisitRow(row, Some(flow), known, r, now);
            if r.completed then Move(exec, At(row.subStep, row.stepContext), t) == Done(r)
            else
              && Move(exec, At(row.subStep, row.stepContext), t) == At(row'.subStep, row'.stepContext)
              && row' == row.(subStep := row'.subStep, stepContext := row'.stepContext)
  {
  }

  lemma JobsFinish(dev: int, job: Job, ticks: seq<Tick>)
    requires Advancing(ticks) && Drive(ExecOf(dev, job), ticks).At?
    ensures |ticks| < PATIENCE
  {
    if ticks != [] {
      match job
      case ChangeJob =>
        var i := ChangeOsFinishes(dev, ticks);
      case InstallJob(url, install) =>
        var i := InstallFinishes(dev, url, install, ticks);
    }
  }

  lemma JobsAdvance(dev: int, job: Job, sub: int, ctx: Vars, t: Tick, current: nat, n: nat)
    ensures var r := ExecOf(dev, job)(sub, ctx, t);
            NextStep(current, r.output, n) == current + 1 && !StopsSuccessfully(r.output)
  {
    match job
    case ChangeJob => ChangeOsKeepsToItsStep(dev, sub, ctx, t);
    case InstallJob(url, install) => InstallKeepsToItsStep(dev, url, install, sub, ctx, t);
  }

  // ---- Runs in which the platform answers as it likes ----

  /** The executor read its clocks in later seconds than the visit before ended, and not later
      than the row was written. Row times are nanoseconds, the executors' clocks seconds. */
  predicate InTime(t: Tick, last: Option<int>, now: int) {
    && (last.Some? ==> last.value < t.checked)
    && t.checked <= t.stamped <= now / SECOND
  }

  ghost predicate Answered(row: DeviceRow, dev: int, jobs: seq<Job>, last: Option<int>, e: Event)
    requires e.Visit?
  {
    && row.currentStep < |jobs|
    && exists t :: e.r == ExecOf(dev, jobs[row.currentStep])(row.subStep, row.stepContext, t) && InTime(t, last, e.now)
  }

  /** The second in which the last visit ended. */
  function LastVisit(dev: int, es: seq<Event>): Option<int>
    decreases |es|
  {
    if es == [] then None
    else if es[|es| - 1].Visit? && es[|es| - 1].dev == dev then Some(es[|es| - 1].now / SECOND)
    else LastVisit(dev, es[..|es| - 1])
  }

  /** The device is only visited, in later and later seconds; each executor reached answers as
      its job does for some reply of the platform. */
  ghost predicate Plays(w: World, known: set<string>, dev: int, jobs: seq<Job>, last: Option<int>, e: Event) {
    && FlowFixed(w, dev, e)
    && (Concerns(e, dev) ==> e.Visit?)
    && (Reaches(w, known, dev, e) ==> Answered(w.devices[dev], dev, jobs, last, e))
  }

  ghost predicate PlaysAll(w: World, known: set<string>, dev: int, jobs: seq<Job>, es: seq<Event>) {
    forall k :: 0 <= k < |es| ==> Plays(Run(w, known, es[..k]), known, dev, jobs, LastVisit(dev, es[..k]), es[k])
  }

  /** The visits spent on the current step, as a run of its machine that led to the device row. */
  ghost predicate Driven(row: DeviceRow, dev: int, jobs: seq<Job>, last: Option<int>, waited: nat, ticks: seq<Tick>) {
    && |ticks| == waited && Advancing(ticks)
    && (ticks != [] ==> last.Some? && ticks[|ticks| - 1].stamped <= last.value)
    && (row.status == StatusRunning && row.currentStep < |jobs| ==>
          Drive(ExecOf(dev, jobs[row.currentStep]), ticks) == At(row.subStep, row.stepContext))
  }

  lemma StillAdvancing(ticks: seq<Tick>, t: Tick, last: Option<int>)
    requires Advancing(ticks) && (ticks != [] ==> last.Some? && ticks[|ticks| - 1].stamped <= last.value)
    requires (last.Some? ==> last.value < t.checked) && t.checked <= t.stamped
    ensures Advancing(ticks + [t])
  {
  }

  lemma OneMoreTick(exec: Execute, ticks: seq<Tick>, t: Tick)
    ensures Drive(exec, ticks + [t]) == Move(exec, Drive(exec, ticks), t)
  {
    assert (ticks + [t])[..|ticks|] == ticks;
  }

  lemma ReachedStep(w: World, known: set<string>, dev: int, jobs: seq<Job>, last: Option<int>, waited: nat,
                    ticks: seq<Tick>, e: Event) returns (more: seq<Tick>)
    requires Reaches(w, known, dev, e) && Plays(w, known, dev, jobs, last, e)
    requires Driven(w.devices[dev], dev, jobs, last, waited, ticks)
    ensures Steady(w, known, dev, e, waited, PATIENCE)
    ensures var row' := Apply(w, known, e).devices[dev];
            Driven(row', dev, jobs, Some(e.now / SECOND), WaitedAfter(waited, w, known, dev, e), more)
  {
    var row, flow := w.devices[dev], w.flows[w.devices[dev].rpaId];
    var job := jobs[row.currentStep];
    var exec := ExecOf(dev, job);
    var t :| e.r == exec(row.subStep, row.stepContext, t) && InTime(t, last, e.now);
    assert Apply(w, known, e).devices[dev] == VisitRow(row, Some(flow), known, e.r, e.now);
    if e.r.completed {
      JobsAdvance(dev, job, row.subStep, row.stepContext, t, row.currentStep, |flow.steps|);
      more := [];
      FinishedRow(row, flow, known, e.r, e.now);
    } else {
      VisitMovesTheMachine(row, flow, known, exec, t, e.now);
      StillAdvancing(ticks, t, last);
      OneMoreTick(exec, ticks, t);
      more := ticks + [t];
      JobsFinish(dev, job, more);
    }
  }

  lemma FinishedRow(row: DeviceRow, flow: Flow, known: set<string>, r: StepResult, now: int)
    requires Executes(row, Some(flow), known) && r.completed
    ensures var row' := VisitRow(row, Some(flow), known, r, now);
            row'.status == row.status == StatusRunning ==> row'.subStep == 0 && row'.stepContext == map[]
  {
  }

  lemma PlayedStep(w: World, known: set<string>, dev: int, jobs: seq<Job>, last: Option<int>, waited: nat,
                   ticks: seq<Tick>, e: Event, n: nat) returns (more: seq<Tick>)
    requires OnCourse(w, dev, n) && Plays(w, known, dev, jobs, last, e)
    requires Driven(w.devices[dev], dev, jobs, last, waited, ticks)
    ensures Steady(w, known, dev, e, waited, PATIENCE) && dev in Apply(w, known, e).devices
    ensures var last' := if e.Visit? && e.dev == dev then Some(e.now / SECOND) else last;
            Driven(Apply(w, known, e).devices[dev], dev, jobs, last', WaitedAfter(waited, w, known, dev, e), more)
  {
    if Reaches(w, known, dev, e) {
      more := ReachedStep(w, known, dev, jobs, last, waited, ticks, e);
    } else if Concerns(e, dev) {
      more := [];
    } else {
      more := ticks;
      assert Apply(w, known, e).devices[dev] == w.devices[dev];
    }
  }

  lemma {:induction false} PlayedRunIsSteady(w: World, known: set<string>, dev: int, jobs: seq<Job>, es: seq<Event>,
                                             n: nat) returns (ticks: seq<Tick>)
    requires OnCourse(w, dev, n) && PlaysAll(w, known, dev, jobs, es)
    requires w.devices[dev].subStep == 0 && w.devices[dev].stepContext == map[]
    ensures SteadyRun(w, known, dev, es, PATIENCE) && OnCourse(Run(w, known, es), dev, n)
    ensures Driven(Run(w, known, es).devices[dev], dev, jobs, LastVisit(dev, es), Waited(w, known, dev, es), ticks)
  {
    if es == [] {
      ticks := [];
    } else {
      var before, last := es[..|es| - 1], es[|es| - 1];
      assert forall k :: 0 <= k < |before| ==> before[..k] == es[..k] && before[k] == es[k];
      ticks := PlayedRunIsSteady(w, known, dev, jobs, before, n);
      var v := Run(w, known, before);
      assert Plays(v, known, dev, jobs, LastVisit(dev, before), es[|es| - 1]);
      ticks := PlayedStep(v, known, dev, jobs, LastVisit(dev, before), Waited(w, known, dev, before), ticks, last, n);
      forall k | 0 <= k < |es|
        ensures Steady(Run(w, known, es[..k]), known, dev, es[k], Waited(w, known, dev, es[..k]), PATIENCE)
      {
        if k < |before| {
          assert Steady(Run(w, known, before[..k]), known, dev, before[k], Waited(w, known, dev, before[..k]),
                 PATIENCE);
        }
      }
      SteadyDescent(w, known, dev, es, n, PATIENCE);
    }
  }

  /** Start a single-mode flow of n system changes and installations. Whatever the platform
      answers and however long that takes, n * 602 + 1 visits in later and later seconds are
      enough to complete it or fail it. */
  lemma {:induction false} PlatformFlowsTerminate(w: World, known: set<string>, dev: int, now: int, jobs: seq<Job>,
                                                  es: seq<Event>)
    requires OpensHistory(w, dev) && w.devices[dev].mode == ModeSingle
    requires PlaysAll(DoStart(w, dev, now), known, dev, jobs, es)
    requires Visits(dev, es) >= |w.flows[w.devices[dev].rpaId].steps| * PATIENCE + 1
    ensures dev in Run(DoStart(w, dev, now), known, es).devices
    ensures Run(DoStart(w, dev, now), known, es).devices[dev].status in {StatusCompleted, StatusError}
  {
    var n := |w.flows[w.devices[dev].rpaId].steps|;
    var ticks := PlayedRunIsSteady(DoStart(w, dev, now), known, dev, jobs, es, n);
    SingleModeTerminates(w, known, dev, now, es, PATIENCE);
  }
}
