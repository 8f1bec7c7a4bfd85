/** What the counters of a device row count, over every run: completions, failures and rounds. */
module RpaCounters {
  import opened Prelude
  import opened Values
  import opened RpaModel
  import opened RpaHistory
  import opened RpaProgress

  // ---- How a visit can end a device's run ----

  /** The reasons for which a visit puts a device in error. */
  predicate GoesWrong(row: DeviceRow, flow: Option<Flow>, known: set<string>, r: StepResult) {
    || flow.None?
    || (row.currentStep < |flow.value.steps| &&
        (flow.value.steps[row.currentStep].kind !in known || (r.completed && !r.success)))
  }

  /** The reasons for which it completes a device. */
  predicate GoesThrough(row: DeviceRow, flow: Option<Flow>, known: set<string>, r: StepResult) {
    && flow.Some?
    && if |flow.value.steps| <= row.currentStep then |flow.value.steps| == 0 || row.mode == ModeSingle
       else flow.value.steps[row.currentStep].kind in known && r.completed && r.success && StopsSuccessfully(r.output)
  }

  /** A running device is in error after a visit exactly when something went wrong, with the message
      that says what, and completed exactly when it came through; the counters follow. */
  lemma VisitsEndForAReason(row: DeviceRow, flow: Option<Flow>, known: set<string>, r: StepResult, now: int)
    requires row.status == StatusRunning
    ensures var row' := VisitRow(row, flow, known, r, now);
            && (row'.status == StatusError <==> GoesWrong(row, flow, known, r))
            && (row'.status == StatusCompleted <==> GoesThrough(row, flow, known, r))
            && row'.status in {StatusRunning, StatusError, StatusCompleted}
            && row'.failCount == row.failCount + (if GoesWrong(row, flow, known, r) then 1 else 0)
            && row'.successCount == row.successCount + (if GoesThrough(row, flow, known, r) then 1 else 0)
            && row'.lastError == (if !GoesWrong(row, flow, known, r) then row.lastError
                                  else if flow.None? then NO_FLOW
                                  else if Executes(row, flow, known) then r.error
                                  else UnknownKind(flow.value.steps[row.currentStep].kind))
  {
  }

  /** The event is a visit at which something goes wrong for the device. */
  predicate WentWrong(w: World, known: set<string>, dev: int, e: Event) {
    && e.Visit? && e.dev == dev && dev in w.devices && w.devices[dev].status == StatusRunning
    && GoesWrong(w.devices[dev], FlowOf(w, w.devices[dev].rpaId), known, e.r)
  }

  lemma ErrorStays(w: World, known: set<string>, dev: int, e: Event)
    requires dev in w.devices && (Concerns(e, dev) ==> e.Visit?)
    ensures dev in Apply(w, known, e).devices
    ensures Apply(w, known, e).devices[dev].status == StatusError <==>
            w.devices[dev].status == StatusError || WentWrong(w, known, dev, e)
  {
    var row := w.devices[dev];
    if Concerns(e, dev) && row.status == StatusRunning {
      VisitsEndForAReason(row, FlowOf(w, row.rpaId), known, e.r, e.now);
    }
  }

  /** Something went wrong for the device at some visit of the run. */
  predicate EverWrong(w: World, known: set<string>, dev: int, es: seq<Event>)
    decreases |es|
  {
    es != [] &&
    var before := es[..|es| - 1];
    EverWrong(w, known, dev, before) || WentWrong(Run(w, known, before), known, dev, es[|es| - 1])
  }

  lemma {:induction false} ErrorsAreFailures(w: World, known: set<string>, dev: int, es: seq<Event>)
    requires dev in w.devices && w.devices[dev].status == StatusRunning
    requires forall k :: 0 <= k < |es| ==> Concerns(es[k], dev) ==> es[k].Visit?
    ensures dev in Run(w, known, es).devices
    ensures Run(w, known, es).devices[dev].status == StatusError <==> EverWrong(w, known, dev, es)
  {
    if es != [] {
      var before := es[..|es| - 1];
      ErrorsAreFailures(w, known, dev, before);
      ErrorStays(Run(w, known, before), known, dev, es[|es| - 1]);
    }
  }

  /** A single-mode run that has taken its n * K + 1 visits is in error if something went wrong at
      one of them, and completed otherwise. */
  lemma {:induction false} SingleModeVerdict(w: World, known: set<string>, dev: int, now: int, es: seq<Event>, K: nat)
    requires OpensHistory(w, dev) && w.devices[dev].mode == ModeSingle && K > 0
    requires SteadyRun(DoStart(w, dev, now), known, dev, es, K)
    requires Visits(dev, es) >= |w.flows[w.devices[dev].rpaId].steps| * K + 1
    ensures dev in Run(DoStart(w, dev, now), known, es).devices
    ensures Run(DoStart(w, dev, now), known, es).devices[dev].status ==
            if EverWrong(DoStart(w, dev, now), known, dev, es) then StatusError else StatusCompleted
  {
    SingleModeTerminates(w, known, dev, now, es, K);
    ErrorsAreFailures(DoStart(w, dev, now), known, dev, es);
  }

  /** The row of a device as the handlers see it: new if there is none yet. */
  function RowOf(w: World, dev: int): DeviceRow {
    if dev in w.devices then w.devices[dev] else NEW_ROW
  }

  /** The event is a visit after which the device has the status and before which it had not. */
  predicate Brings(w: World, known: set<string>, e: Event, dev: int, status: DeviceStatus) {
    && (e.Visit? || e.LateVisit?) && e.dev == dev
    && RowOf(w, dev).status != status && RowOf(Apply(w, known, e), dev).status == status
  }

  function Brought(known: set<string>, es: seq<Event>, dev: int, status: DeviceStatus): nat
    decreases |es|
  {
    if es == [] then 0
    else
      var before := es[..|es| - 1];
      Brought(known, before, dev, status)
      + if Brings(Run(EMPTY_WORLD, known, before), known, es[|es| - 1], dev, status) then 1 else 0
  }

  ghost predicate UpToDateRun(known: set<string>, es: seq<Event>, dev: int) {
    forall k :: 0 <= k < |es| && es[k].LateVisit? && es[k].dev == dev ==>
      UpToDate(Run(EMPTY_WORLD, known, es[..k]), dev, es[k].copy)
  }

  lemma VisitCounts(row: DeviceRow, copy: DeviceRow, flow: Option<Flow>, known: set<string>, r: StepResult, now: int)
    requires row.status in {StatusRunning, StatusPaused}
    ensures var row' := VisitRowFrom(row, copy, flow, known, r, now);
            && row'.successCount == row.successCount + (if row'.status == StatusCompleted then 1 else 0)
            && row'.failCount == row.failCount + (if row'.status == StatusError then 1 else 0)
  {
  }

  lemma EventCounts(w: World, known: set<string>, e: Event, dev: int)
    requires e.LateVisit? && e.dev == dev ==> UpToDate(w, dev, e.copy)
    ensures var row, row' := RowOf(w, dev), RowOf(Apply(w, known, e), dev);
            && row'.successCount == row.successCount + (if Brings(w, known, e, dev, StatusCompleted) then 1 else 0)
            && row'.failCount == row.failCount + (if Brings(w, known, e, dev, StatusError) then 1 else 0)
  {
    match e
    case Visit(who, r, now) =>
      if who == dev && dev in w.devices && w.devices[dev].status == StatusRunning {
        var row := w.devices[dev];
        VisitCounts(row, row, FlowOf(w, row.rpaId), known, r, now);
      }
    case LateVisit(who, copy, r, now) =>
      if who == dev {
        VisitCounts(w.devices[dev], copy, FlowOf(w, copy.rpaId), known, r, now);
      }
    case _ =>
  }

  /** In every run from an empty database, whatever is bound, started, stopped, paused or edited
      in between, a device has counted exactly the visits that completed it and the visits that
      put it in error. */
  lemma {:induction false} CountersCountOutcomes(known: set<string>, es: seq<Event>, dev: int)
    requires UpToDateRun(known, es, dev)
    ensures var row := RowOf(Run(EMPTY_WORLD, known, es), dev);
            && row.successCount == Brought(known, es, dev, StatusCompleted)
            && row.failCount == Brought(known, es, dev, StatusError)
  {
    if es != [] {
      var before, last := es[..|es| - 1], es[|es| - 1];
      assert forall k :: 0 <= k < |before| ==> before[..k] == es[..k] && before[k] == es[k];
      CountersCountOutcomes(known, before, dev);
      assert last.LateVisit? && last.dev == dev ==> UpToDate(Run(EMPTY_WORLD, known, es[..|es| - 1]), dev, last.copy);
      EventCounts(Run(EMPTY_WORLD, known, before), known, last, dev);
    }
  }

  // ---- Rounds ----

  function HistoriesOf(hs: seq<History>, dev: int): nat {
    if hs == [] then 0
    else HistoriesOf(hs[..|hs| - 1], dev) + if hs[|hs| - 1].deviceId == dev then 1 else 0
  }

  /** How many starts of the device open a history. */
  function Openings(w: World, known: set<string>, es: seq<Event>, dev: int): nat
    decreases |es|
  {
    if es == [] then 0
    else
      var before, last := es[..|es| - 1], es[|es| - 1];
      Openings(w, known, before, dev)
      + if last.Start? && last.dev == dev && OpensHistory(Run(w, known, before), dev) then 1 else 0
  }

  lemma {:induction false} SameOwners(hs: seq<History>, hs': seq<History>, dev: int)
    requires |hs| == |hs'| && forall i :: 0 <= i < |hs| ==> hs'[i].deviceId == hs[i].deviceId
    ensures HistoriesOf(hs', dev) == HistoriesOf(hs, dev)
  {
    if hs != [] {
      SameOwners(hs[..|hs| - 1], hs'[..|hs| - 1], dev);
    }
  }

  lemma OneMoreHistory(hs: seq<History>, h: History, dev: int)
    ensures HistoriesOf(hs + [h], dev) == HistoriesOf(hs, dev) + if h.deviceId == dev then 1 else 0
  {
    assert (hs + [h])[..|hs|] == hs;
  }

  lemma VisitOpens(t: Trail, who: int, row: DeviceRow, copy: DeviceRow, flow: Option<Flow>, known: set<string>,
                   r: StepResult, now: int, dev: int)
    ensures HistoriesOf(VisitTrail(t, who, copy, flow, known, r).histories, dev) == HistoriesOf(t.histories, dev)
            + if who == dev then VisitRowFrom(row, copy, flow, known, r, now).loopCount - row.loopCount else 0
  {
    if flow.Some? && |flow.value.steps| > 0 {
      if copy.currentStep >= |flow.value.steps| {
        EndOpens(t, who, copy, |flow.value.steps|, dev);
      } else {
        StepKeepsOwners(t, who, copy, r);
        SameOwners(t.histories, StepTrail(t, who, copy, r).histories, dev);
      }
    }
  }

  lemma EndOpens(t: Trail, who: int, copy: DeviceRow, total: nat, dev: int)
    ensures HistoriesOf(EndTrail(t, who, copy, total).histories, dev)
         == HistoriesOf(t.histories, dev) + if who == dev && copy.mode == ModeLoop then 1 else 0
  {
    var closed := CloseHistory(t, who, ExecSuccess, "");
    SameOwners(t.histories, closed.histories, dev);
    OneMoreHistory(closed.histories, History(who, copy.rpaId, ExecRunning, total, 0, 0, 0, ""), dev);
  }

  lemma EventOpens(w: World, known: set<string>, e: Event, dev: int)
    requires dev in w.devices && !(e.Bind? && e.dev == dev)
    ensures var v := Apply(w, known, e);
            && dev in v.devices
            && HistoriesOf(v.trail.histories, dev) == HistoriesOf(w.trail.histories, dev)
               + (v.devices[dev].loopCount - w.devices[dev].loopCount)
               + if e.Start? && e.dev == dev && OpensHistory(w, dev) then 1 else 0
  {
    match e
    case Bind(_, _, _) =>
    case Start(who, now) =>
      var t := CancelRunning(w.trail, who);
      SameOwners(w.trail.histories, t.histories, dev);
      if OpensHistory(w, who) {
        var rpaId := w.devices[who].rpaId;
        OneMoreHistory(t.histories, History(who, rpaId, ExecRunning, |w.flows[rpaId].steps|, 0, 0, 0, ""), dev);
      }
    case Pause(_) =>
    case Resume(_) =>
    case Stop(who) => SameOwners(w.trail.histories, Apply(w, known, e).trail.histories, dev);
    case Visit(who, r, now) =>
      if who in w.devices {
        var row := w.devices[who];
        VisitOpens(w.trail, who, row, row, FlowOf(w, row.rpaId), known, r, now, dev);
      }
    case LateVisit(who, copy, r, now) =>
      VisitOpens(w.trail, who, RowOf(w, who), copy, FlowOf(w, copy.rpaId), known, r, now, dev);
    case EditFlow(_, _) =>
  }

  /** In every run in which a device is not bound anew, overtaken visits included, it gets one
      history for each start that finds its flow and one for each round it counts. */
  lemma {:induction false} RoundsAreHistories(w: World, known: set<string>, es: seq<Event>, dev: int)
    requires dev in w.devices && forall k :: 0 <= k < |es| ==> !(es[k].Bind? && es[k].dev == dev)
    ensures var v := Run(w, known, es);
            && dev in v.devices
            && HistoriesOf(v.trail.histories, dev) - HistoriesOf(w.trail.histories, dev)
               == (v.devices[dev].loopCount - w.devices[dev].loopCount) + Openings(w, known, es, dev)
  {
    if es != [] {
      var before := es[..|es| - 1];
      RoundsAreHistories(w, known, before, dev);
      EventOpens(Run(w, known, before), known, es[|es| - 1], dev);
    }
  }

  /** A device in loop mode that has passed its last step begins again: at step 0, with its
      variables, a round more, the old history a success and a new one of the same flow tracked. */
  lemma {:induction false} RoundsBeginAnew(known: set<string>, past: seq<Event>, dev: int, r: StepResult, now: int)
    requires var w := Run(EMPTY_WORLD, known, past);
             && dev in w.devices && w.devices[dev].status == StatusRunning && w.devices[dev].mode == ModeLoop
             && w.devices[dev].rpaId in w.flows
             && 0 < |w.flows[w.devices[dev].rpaId].steps| <= w.devices[dev].currentStep
    ensures var w := Run(EMPTY_WORLD, known, past);
            var v, row := Apply(w, known, Visit(dev, r, now)), w.devices[dev];
            && dev in v.devices && v.devices[dev].status == StatusRunning && v.devices[dev].mode == ModeLoop
            && v.devices[dev].currentStep == 0 && v.devices[dev].subStep == 0 && v.devices[dev].stepContext == map[]
            && v.devices[dev].flowVariables == row.flowVariables && v.devices[dev].rpaId == row.rpaId
            && v.devices[dev].loopCount == row.loopCount + 1 && v.devices[dev].loopStartAt == Some(now)
            && (dev in w.trail.current ==> w.trail.current[dev] < |v.trail.histories|
                                           && v.trail.histories[w.trail.current[dev]].status == ExecSuccess)
            && |v.trail.histories| == |w.trail.histories| + 1
            && v.trail.histories[|w.trail.histories|] ==
               History(dev, row.rpaId, ExecRunning, |w.flows[row.rpaId].steps|, 0, 0, 0, "")
            && dev in v.trail.current && v.trail.current[dev] == |w.trail.histories|
  {
    RunningHistoriesAreTracked(known, past);
  }
}
