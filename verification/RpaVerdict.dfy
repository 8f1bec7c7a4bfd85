/** When exactly one failed step is counted in a failed history: always, unless a
    finished device was paused or resumed in the middle of a step. Also: what one
    device does never touches another device's part of the trail. */
module RpaVerdict {
  import opened Prelude
  import opened Values
  import opened RpaModel
  import opened RpaHistory
  import opened RpaSteps

  // ---- Independence of devices ----

  /** Nothing of device dev changed: its tracked history, its pending keys, the
      owners of existing records and every field of its history rows. */
  ghost predicate Untouched(t: Trail, t': Trail, dev: int) {
    && (dev in t.current <==> dev in t'.current)
    && (dev in t.current ==> t'.current[dev] == t.current[dev])
    && (forall step: nat :: (dev, step) in t.pending <==> (dev, step) in t'.pending)
    && (forall step: nat :: (dev, step) in t.pending ==> t'.pending[(dev, step)] == t.pending[(dev, step)])
    && |t.records| <= |t'.records|
    && (forall s :: 0 <= s < |t.records| ==> t'.records[s].historyId == t.records[s].historyId)
    && |t.histories| <= |t'.histories|
    && (forall i :: 0 <= i < |t.histories| ==> t'.histories[i].deviceId == t.histories[i].deviceId)
    && (forall i :: 0 <= i < |t.histories| && t.histories[i].deviceId == dev ==> t'.histories[i] == t.histories[i])
    && (forall i :: |t.histories| <= i < |t'.histories| ==> t'.histories[i].deviceId != dev)
  }

  lemma UntouchedTransitive(a: Trail, b: Trail, c: Trail, dev: int)
    requires Untouched(a, b, dev) && Untouched(b, c, dev)
    ensures Untouched(a, c, dev)
  {
  }

  lemma PartsLeaveAlone(t: Trail, who: int, dev: int, step: nat, status: ExecStatus, message: string)
    requires Tracked(t) && who != dev
    ensures Untouched(t, CloseHistory(t, who, status, message), dev)
    ensures Untouched(t, OpenRecord(t, who, step), dev)
    ensures Untouched(t, CloseRecord(t, who, step, status, message), dev)
  {
    ClosingLeavesAlone(t, who, dev, status, message);
    RecordsLeaveAlone(t, who, dev, step, status, message);
  }

  lemma ClosingLeavesAlone(t: Trail, who: int, dev: int, status: ExecStatus, message: string)
    requires Tracked(t) && who != dev
    ensures Untouched(t, CloseHistory(t, who, status, message), dev)
  {
  }

  lemma RecordsLeaveAlone(t: Trail, who: int, dev: int, step: nat, status: ExecStatus, message: string)
    requires Tracked(t) && who != dev
    ensures Untouched(t, OpenRecord(t, who, step), dev)
    ensures Untouched(t, CloseRecord(t, who, step, status, message), dev)
  {
  }

  lemma CancellingLeavesAlone(t: Trail, who: int, dev: int)
    requires who != dev
    ensures Untouched(t, CancelRunning(t, who), dev)
  {
    var c := CancelRunning(t, who);
    assert forall i :: 0 <= i < |t.histories| ==> c.histories[i] == Cancel(t.histories[i], who);
  }

  lemma OpeningLeavesAlone(t: Trail, who: int, dev: int, rpaId: nat, total: nat)
    requires who != dev
    ensures Untouched(t, OpenHistory(t, who, rpaId, total), dev)
  {
  }

  lemma StepLeavesAlone(t: Trail, who: int, dev: int, row: DeviceRow, r: StepResult)
    requires Tracked(t) && who != dev
    ensures Untouched(t, StepTrail(t, who, row, r), dev)
  {
    var begun := if row.subStep == 0 then OpenRecord(t, who, row.currentStep) else t;
    PartsLeaveAlone(t, who, dev, row.currentStep, ExecSuccess, "");
    RecordsTracked(t, who, row.currentStep, ExecSuccess, "");
    if r.completed && r.success {
      PartsLeaveAlone(begun, who, dev, row.currentStep, ExecSuccess, "");
      UntouchedTransitive(t, begun, CloseRecord(begun, who, row.currentStep, ExecSuccess, ""), dev);
    } else if r.completed {
      var shut := CloseRecord(begun, who, row.currentStep, ExecFailed, r.error);
      RecordsTracked(begun, who, row.currentStep, ExecFailed, r.error);
      PartsLeaveAlone(begun, who, dev, row.currentStep, ExecFailed, r.error);
      PartsLeaveAlone(shut, who, dev, row.currentStep, ExecFailed, r.error);
      UntouchedTransitive(t, begun, shut, dev);
      UntouchedTransitive(t, shut, CloseHistory(shut, who, ExecFailed, r.error), dev);
    }
  }

  lemma VisitLeavesAlone(t: Trail, who: int, dev: int, row: DeviceRow, flow: Option<Flow>, known: set<string>,
                         r: StepResult)
    requires Tracked(t) && who != dev
    ensures Untouched(t, VisitTrail(t, who, row, flow, known, r), dev)
  {
    if flow.Some? {
      var closed := CloseHistory(t, who, ExecSuccess, "");
      PartsLeaveAlone(t, who, dev, 0, ExecSuccess, "");
      OpeningLeavesAlone(closed, who, dev, row.rpaId, |flow.value.steps|);
      UntouchedTransitive(t, closed, OpenHistory(closed, who, row.rpaId, |flow.value.steps|), dev);
      StepLeavesAlone(t, who, dev, row, r);
    }
  }

  lemma StartLeavesAlone(w: World, who: int, dev: int, now: int)
    requires who != dev
    ensures Untouched(w.trail, DoStart(w, who, now).trail, dev)
  {
    CancellingLeavesAlone(w.trail, who, dev);
    if OpensHistory(w, who) {
      var t := CancelRunning(w.trail, who);
      var total := |w.flows[w.devices[who].rpaId].steps|;
      OpeningLeavesAlone(t, who, dev, w.devices[who].rpaId, total);
      UntouchedTransitive(w.trail, t, OpenHistory(t, who, w.devices[who].rpaId, total), dev);
    }
  }

  lemma RowsAreIndependent(w: World, known: set<string>, e: Event, dev: int)
    requires !Concerns(e, dev)
    ensures dev in w.devices <==> dev in Apply(w, known, e).devices
    ensures dev in w.devices ==> Apply(w, known, e).devices[dev] == w.devices[dev]
  {
  }

  lemma TrailsAreIndependent(w: World, known: set<string>, e: Event, dev: int)
    requires Tracked(w.trail) && !Concerns(e, dev)
    ensures Untouched(w.trail, Apply(w, known, e).trail, dev)
  {
    match e
    case Bind(_, _, _) =>
    case Start(who, now) => StartLeavesAlone(w, who, dev, now);
    case Pause(_) =>
    case Resume(_) =>
    case Stop(who) => PartsLeaveAlone(w.trail, who, dev, 0, ExecCancelled, "stopped by the user");
    case Visit(who, r, _) =>
      if who in w.devices {
        VisitLeavesAlone(w.trail, who, dev, w.devices[who], FlowOf(w, w.devices[who].rpaId), known, r);
      }
    case LateVisit(who, copy, r, _) => VisitLeavesAlone(w.trail, who, dev, copy, FlowOf(w, copy.rpaId), known, r);
    case EditFlow(_, _) =>
  }

  /** An event about one device leaves every other device's row and trail alone. */
  lemma DevicesAreIndependent(w: World, known: set<string>, e: Event, dev: int)
    requires Tracked(w.trail) && !Concerns(e, dev)
    ensures Untouched(w.trail, Apply(w, known, e).trail, dev)
    ensures dev in w.devices <==> dev in Apply(w, known, e).devices
    ensures dev in w.devices ==> Apply(w, known, e).devices[dev] == w.devices[dev]
  {
    TrailsAreIndependent(w, known, e, dev);
    RowsAreIndependent(w, known, e, dev);
  }

  // ---- One failed step per failed history ----

  /** Every failed history of dev from base on counts exactly one failed step. */
  ghost predicate OneFailure(t: Trail, dev: int, base: nat) {
    forall i :: base <= i < |t.histories| && t.histories[i].deviceId == dev && t.histories[i].status == ExecFailed ==>
      t.histories[i].failedSteps == 1
  }

  /** A row in the middle of a step of a tracked history. */
  predicate MidStep(t: Trail, dev: int, row: DeviceRow) {
    dev in t.current && row.subStep != 0
  }

  /** In the middle of a step its record is open, unless a successful stop completed the
      device right there: then it is closed. */
  ghost predicate Inside(t: Trail, dev: int, row: DeviceRow) {
    MidStep(t, dev, row) ==> (HasOpenRecord(t, dev, row.currentStep) <==> row.status != StatusCompleted)
  }

  lemma RecordsKeepVerdict(t: Trail, dev: int, base: nat, step: nat, status: ExecStatus, message: string)
    requires OneFailure(t, dev, base)
    ensures OneFailure(OpenRecord(t, dev, step), dev, base)
    ensures OneFailure(CloseRecord(t, dev, step, status, message), dev, base)
  {
  }

  lemma FailVerdict(t: Trail, dev: int, base: nat, step: nat, sub: int, message: string)
    requires Books(t, dev, base, step, sub) && OneFailure(t, dev, base)
    requires dev in t.current ==> HasOpenRecord(t, dev, step)
    ensures OneFailure(CloseHistory(CloseRecord(t, dev, step, ExecFailed, message), dev, ExecFailed, message), dev,
            base)
  {
    FailBooks(t, dev, base, step, sub, message);
    RecordsKeepVerdict(t, dev, base, step, ExecFailed, message);
  }

  lemma CloseKeepsVerdict(t: Trail, dev: int, base: nat, rpaId: nat, total: nat)
    requires OneFailure(t, dev, base)
    ensures OneFailure(CloseHistory(t, dev, ExecSuccess, ""), dev, base)
    ensures OneFailure(OpenHistory(CloseHistory(t, dev, ExecSuccess, ""), dev, rpaId, total), dev, base)
  {
  }

  /** The trail once the record of the current step is open. */
  function Begun(t: Trail, dev: int, row: DeviceRow): Trail {
    if row.subStep == 0 then OpenRecord(t, dev, row.currentStep) else t
  }

  lemma BegunVerdict(t: Trail, dev: int, base: nat, row: DeviceRow)
    requires Books(t, dev, base, row.currentStep, row.subStep) && row.status != StatusCompleted
    requires OneFailure(t, dev, base) && Inside(t, dev, row)
    ensures Books(Begun(t, dev, row), dev, base, row.currentStep, if row.subStep == 0 then 1 else row.subStep)
    ensures OneFailure(Begun(t, dev, row), dev, base)
    ensures dev in t.current ==> HasOpenRecord(Begun(t, dev, row), dev, row.currentStep)
  {
    RecordsKeepVerdict(t, dev, base, row.currentStep, ExecSuccess, "");
    if row.subStep == 0 {
      OpenRecordBooks(t, dev, base, row.currentStep);
    }
  }

  lemma OwnVisitOneFailure(t: Trail, dev: int, base: nat, row: DeviceRow, flow: Option<Flow>, known: set<string>,
                           r: StepResult)
    requires Books(t, dev, base, row.currentStep, row.subStep) && row.status != StatusCompleted
    requires OneFailure(t, dev, base) && Inside(t, dev, row)
    ensures OneFailure(VisitTrail(t, dev, row, flow, known, r), dev, base)
  {
    if flow.Some? && |flow.value.steps| > 0 && row.currentStep >= |flow.value.steps| {
      CloseKeepsVerdict(t, dev, base, row.rpaId, |flow.value.steps|);
    } else if Executes(row, flow, known) {
      BegunVerdict(t, dev, base, row);
      var begun := Begun(t, dev, row);
      RecordsKeepVerdict(begun, dev, base, row.currentStep, ExecSuccess, "");
      FailVerdict(begun, dev, base, row.currentStep, if row.subStep == 0 then 1 else row.subStep, r.error);
    }
  }

  lemma OwnVisitInside(t: Trail, dev: int, base: nat, row: DeviceRow, flow: Option<Flow>, known: set<string>,
                       r: StepResult, now: int)
    requires Books(t, dev, base, row.currentStep, row.subStep) && row.status != StatusCompleted
    requires OneFailure(t, dev, base) && Inside(t, dev, row)
    requires flow.Some? && row.subStep != 0 ==> row.currentStep < |flow.value.steps|
    ensures Inside(VisitTrail(t, dev, row, flow, known, r), dev, VisitRow(row, flow, known, r, now))
  {
    if Executes(row, flow, known) {
      BegunVerdict(t, dev, base, row);
    }
  }

  ghost predicate Ruled(w: World, dev: int, base: nat) {
    InOrder(w, dev, base) && OneFailure(w.trail, dev, base) && Inside(w.trail, dev, w.devices[dev])
  }

  /** Pausing or resuming a device that a successful stop completed in the middle of a step. */
  predicate TouchesStopped(w: World, dev: int, e: Event) {
    && (e.Pause? || e.Resume?) && e.dev == dev
    && dev in w.devices && w.devices[dev].status == StatusCompleted && MidStep(w.trail, dev, w.devices[dev])
  }

  lemma OwnVisitRuled(w: World, known: set<string>, dev: int, base: nat, r: StepResult, now: int)
    requires Ruled(w, dev, base) && w.devices[dev].status in {StatusRunning, StatusPaused}
    ensures var row, flow := w.devices[dev], FlowOf(w, w.devices[dev].rpaId);
            var t := VisitTrail(w.trail, dev, row, flow, known, r);
            OneFailure(t, dev, base) && Inside(t, dev, VisitRow(row, flow, known, r, now))
  {
    var row, flow := w.devices[dev], FlowOf(w, w.devices[dev].rpaId);
    OwnVisitOneFailure(w.trail, dev, base, row, flow, known, r);
    OwnVisitInside(w.trail, dev, base, row, flow, known, r, now);
  }

  lemma OwnEventRuled(w: World, known: set<string>, dev: int, base: nat, e: Event)
    requires Ruled(w, dev, base) && Disciplined(w, dev, e) && Concerns(e, dev) && !TouchesStopped(w, dev, e)
    ensures Ruled(Apply(w, known, e), dev, base)
  {
    OwnEvent(w, known, dev, base, e);
    match e
    case Bind(_, _, _) =>
    case Start(_, _) =>
      var t := CancelRunning(w.trail, dev);
      assert forall i :: 0 <= i < |t.histories| ==> t.histories[i] == Cancel(w.trail.histories[i], dev);
    case Pause(_) =>
    case Resume(_) =>
    case Stop(_) =>
    case Visit(_, r, now) =>
      if w.devices[dev].status == StatusRunning {
        OwnVisitRuled(w, known, dev, base, r, now);
      }
    case LateVisit(_, copy, r, now) =>
      LateIsVisit(w.trail, dev, w.devices[dev], copy, FlowOf(w, copy.rpaId), known, r, now);
      OwnVisitRuled(w, known, dev, base, r, now);
  }

  ghost predicate RuledRun(w: World, known: set<string>, dev: int, es: seq<Event>) {
    && DisciplinedRun(w, known, dev, es)
    && forall k :: 0 <= k < |es| ==> !TouchesStopped(Run(w, known, es[..k]), dev, es[k])
  }

  lemma {:induction false} RunRuled(w: World, known: set<string>, dev: int, base: nat, es: seq<Event>)
    requires Ruled(w, dev, base) && RuledRun(w, known, dev, es)
    ensures Ruled(Run(w, known, es), dev, base)
  {
    if es != [] {
      var before, last := es[..|es| - 1], es[|es| - 1];
      assert forall k :: 0 <= k < |before| ==> before[..k] == es[..k] && before[k] == es[k];
      RunRuled(w, known, dev, base, before);
      var v := Run(w, known, before);
      assert Disciplined(v, dev, last) && !TouchesStopped(v, dev, last);
      if Concerns(last, dev) {
        OwnEventRuled(v, known, dev, base, last);
      } else {
        OtherEvent(v, known, dev, base, last);
        DevicesAreIndependent(v, known, last, dev);
      }
    }
  }

  lemma {:induction false} StartedRunRuled(known: set<string>, past: seq<Event>, dev: int, now: int, es: seq<Event>)
    requires var w := Run(EMPTY_WORLD, known, past);
             OpensHistory(w, dev) && RuledRun(DoStart(w, dev, now), known, dev, es)
    ensures var w := Run(EMPTY_WORLD, known, past);
            Ruled(Run(DoStart(w, dev, now), known, es), dev, |w.trail.histories|)
  {
    var w := Run(EMPTY_WORLD, known, past);
    RunWired(known, past);
    StartInOrder(w, dev, |w.trail.histories|, now);
    RunRuled(DoStart(w, dev, now), known, dev, |w.trail.histories|, es);
  }

  /** In disciplined runs that never pause or resume a device stopped successfully in the
      middle of a step, the number of failed steps is 1 exactly when the history failed and
      0 exactly when it succeeded. */
  lemma {:induction false} FailedStepsTellTheVerdict(known: set<string>, past: seq<Event>, dev: int, now: int,
                                                     es: seq<Event>, i: nat)
    requires var w := Run(EMPTY_WORLD, known, past);
             && OpensHistory(w, dev)
             && RuledRun(DoStart(w, dev, now), known, dev, es)
    requires var w := Run(EMPTY_WORLD, known, past);
             var hs := Run(DoStart(w, dev, now), known, es).trail.histories;
             |w.trail.histories| <= i < |hs| && hs[i].deviceId == dev && Closed(hs[i])
    ensures var h := Run(DoStart(Run(EMPTY_WORLD, known, past), dev, now), known, es).trail.histories[i];
            && (h.failedSteps == 1 <==> h.status == ExecFailed)
            && (h.failedSteps == 0 <==> h.status == ExecSuccess)
  {
    StartedRunRuled(known, past, dev, now, es);
  }

  lemma ResumedStopFails(w: World, known: set<string>, dev: int, base: nat, r: StepResult, now: int)
    requires Ruled(w, dev, base) && TouchesStopped(w, dev, Resume(dev))
    requires Executes(w.devices[dev], FlowOf(w, w.devices[dev].rpaId), known) && r.completed && !r.success
    ensures var w' := Apply(Apply(w, known, Resume(dev)), known, Visit(dev, r, now));
            var h := w.trail.current[dev];
            h < |w'.trail.histories| && w'.trail.histories[h].status == ExecFailed
            && w'.trail.histories[h].failedSteps == 0
  {
    FailRecord(w.trail, dev, w.devices[dev].currentStep, w.devices[dev].subStep, r.error);
  }

  /** That guard is exact: from every state a run reaches under it in which it forbids the next
      resume, resuming all the same and failing the step gives a failed history without a
      failed step. */
  lemma {:induction false} ResumingTheStoppedLosesTheFailure(known: set<string>, past: seq<Event>, dev: int, now: int,
                                                             es: seq<Event>, r: StepResult, later: int)
    requires var w := Run(EMPTY_WORLD, known, past);
             OpensHistory(w, dev) && RuledRun(DoStart(w, dev, now), known, dev, es)
    requires var v := Run(DoStart(Run(EMPTY_WORLD, known, past), dev, now), known, es);
             && TouchesStopped(v, dev, Resume(dev))
             && Executes(v.devices[dev], FlowOf(v, v.devices[dev].rpaId), known)
    requires r.completed && !r.success
    ensures var v := Run(DoStart(Run(EMPTY_WORLD, known, past), dev, now), known, es);
            var w' := Apply(Apply(v, known, Resume(dev)), known, Visit(dev, r, later));
            var h := v.trail.current[dev];
            h < |w'.trail.histories| && w'.trail.histories[h].status == ExecFailed
            && w'.trail.histories[h].failedSteps == 0
  {
    StartedRunRuled(known, past, dev, now, es);
    var v := Run(DoStart(Run(EMPTY_WORLD, known, past), dev, now), known, es);
    ResumedStopFails(v, known, dev, |Run(EMPTY_WORLD, known, past).trail.histories|, r, later);
  }

  /** Pausing is forbidden in the same states, and rightly: a pause, a resume and a failure of the
      step there give such a history as well. */
  lemma {:induction false} PausingTheStoppedLosesTheFailure(known: set<string>, past: seq<Event>, dev: int, now: int,
                                                            es: seq<Event>, r: StepResult, later: int)
    requires var w := Run(EMPTY_WORLD, known, past);
             OpensHistory(w, dev) && RuledRun(DoStart(w, dev, now), known, dev, es)
    requires var v := Run(DoStart(Run(EMPTY_WORLD, known, past), dev, now), known, es);
             && TouchesStopped(v, dev, Pause(dev))
             && Executes(v.devices[dev], FlowOf(v, v.devices[dev].rpaId), known)
    requires r.completed && !r.success
    ensures var v := Run(DoStart(Run(EMPTY_WORLD, known, past), dev, now), known, es);
            var w' := Apply(Apply(Apply(v, known, Pause(dev)), known, Resume(dev)), known, Visit(dev, r, later));
            var h := v.trail.current[dev];
            h < |w'.trail.histories| && w'.trail.histories[h].status == ExecFailed
            && w'.trail.histories[h].failedSteps == 0
  {
    ResumingTheStoppedLosesTheFailure(known, past, dev, now, es, r, later);
    var v := Run(DoStart(Run(EMPTY_WORLD, known, past), dev, now), known, es);
    PauseAndResume(v, known, dev);
  }

  lemma PauseAndResume(v: World, known: set<string>, dev: int)
    ensures Apply(Apply(v, known, Pause(dev)), known, Resume(dev)) == Apply(v, known, Resume(dev))
  {
    if dev in v.devices {
      assert Apply(Apply(v, known, Pause(dev)), known, Resume(dev)).devices == Apply(v, known, Resume(dev)).devices;
    }
  }

  // ---- Executors that stop a flow on their first visit ----

  /** A successful stop comes only from a step that has just begun. */
  predicate StopsEarly(w: World, dev: int, e: Event) {
    && (e.Visit? || e.LateVisit?) && e.dev == dev && dev in w.devices
    && e.r.completed && e.r.success && StopsSuccessfully(e.r.output)
    ==> w.devices[dev].subStep == 0
  }

  ghost predicate EarlyRun(w: World, known: set<string>, dev: int, es: seq<Event>) {
    && DisciplinedRun(w, known, dev, es)
    && forall k :: 0 <= k < |es| ==> StopsEarly(Run(w, known, es[..k]), dev, es[k])
  }

  /** A completed device is between steps. */
  predicate RestsBetweenSteps(w: World, dev: int) {
    dev in w.devices && w.devices[dev].status == StatusCompleted ==> !MidStep(w.trail, dev, w.devices[dev])
  }

  lemma EarlyEvent(w: World, known: set<string>, dev: int, base: nat, e: Event)
    requires Ruled(w, dev, base) && Disciplined(w, dev, e) && StopsEarly(w, dev, e) && RestsBetweenSteps(w, dev)
    ensures RestsBetweenSteps(Apply(w, known, e), dev)
  {
    if !Concerns(e, dev) {
      DevicesAreIndependent(w, known, e, dev);
    } else if e.LateVisit? {
      LateIsVisit(w.trail, dev, w.devices[dev], e.copy, FlowOf(w, e.copy.rpaId), known, e.r, e.now);
    }
  }

  lemma RuledNext(w: World, known: set<string>, dev: int, es: seq<Event>)
    requires es != [] && RuledRun(w, known, dev, es[..|es| - 1])
    requires var v, last := Run(w, known, es[..|es| - 1]), es[|es| - 1];
             Disciplined(v, dev, last) && !TouchesStopped(v, dev, last)
    ensures RuledRun(w, known, dev, es)
  {
    var before, n := es[..|es| - 1], |es| - 1;
    forall k | 0 <= k < |es|
      ensures Disciplined(Run(w, known, es[..k]), dev, es[k]) && !TouchesStopped(Run(w, known, es[..k]), dev, es[k])
    {
      if k < n {
        assert before[..k] == es[..k] && before[k] == es[k];
      }
    }
  }

  lemma {:induction false} EarlyRunIsRuled(w: World, known: set<string>, dev: int, base: nat, es: seq<Event>)
    requires Ruled(w, dev, base) && RestsBetweenSteps(w, dev) && EarlyRun(w, known, dev, es)
    ensures RuledRun(w, known, dev, es)
    ensures Ruled(Run(w, known, es), dev, base) && RestsBetweenSteps(Run(w, known, es), dev)
  {
    if es != [] {
      var before, last := es[..|es| - 1], es[|es| - 1];
      assert forall k :: 0 <= k < |before| ==> before[..k] == es[..k] && before[k] == es[k];
      EarlyRunIsRuled(w, known, dev, base, before);
      var v := Run(w, known, before);
      assert Disciplined(v, dev, last) && StopsEarly(v, dev, last);
      EarlyEvent(v, known, dev, base, last);
      RuledNext(w, known, dev, es);
      RunRuled(w, known, dev, base, es);
    }
  }

  /** With executors that stop a flow only on the first visit of their step, the equality
      holds whatever is paused and resumed. */
  lemma {:induction false} EarlyStopsTellTheVerdict(known: set<string>, past: seq<Event>, dev: int, now: int,
                                                    es: seq<Event>, i: nat)
    requires var w := Run(EMPTY_WORLD, known, past);
             && OpensHistory(w, dev)
             && EarlyRun(DoStart(w, dev, now), known, dev, es)
    requires var w := Run(EMPTY_WORLD, known, past);
             var hs := Run(DoStart(w, dev, now), known, es).trail.histories;
             |w.trail.histories| <= i < |hs| && hs[i].deviceId == dev && Closed(hs[i])
    ensures var h := Run(DoStart(Run(EMPTY_WORLD, known, past), dev, now), known, es).trail.histories[i];
            && (h.failedSteps == 1 <==> h.status == ExecFailed)
            && (h.failedSteps == 0 <==> h.status == ExecSuccess)
  {
    var w := Run(EMPTY_WORLD, known, past);
    RunWired(known, past);
    StartInOrder(w, dev, |w.trail.histories|, now);
    EarlyRunIsRuled(DoStart(w, dev, now), known, dev, |w.trail.histories|, es);
    FailedStepsTellTheVerdict(known, past, dev, now, es, i);
  }

  // ---- Visits that a new start overtook ----

  /** Failing under a tracked history that has no record yet. */
  lemma FailWithoutRecords(t: Trail, dev: int, row: DeviceRow, r: StepResult)
    requires Wired(t) && Orderly(t, dev, 0, 0) && dev in t.current
    requires forall s :: 0 <= s < |t.records| ==> t.records[s].historyId != t.current[dev]
    requires r.completed && !r.success
    ensures var t' := StepTrail(t, dev, row, r);
            var h := t.current[dev];
            && h < |t'.histories| && t'.histories[h].status == ExecFailed
            && t'.histories[h].failedSteps == if row.subStep == 0 then 1 else 0
  {
    OpenRecordWired(t, dev, row.currentStep);
    FailRecord(Begun(t, dev, row), dev, row.currentStep, 1, r.error);
  }

  /** After any run, let a device start while a visit with some copy of its row is under way.
      If that visit's step fails, the history just opened is failed, and it counts a failed step
      exactly when the copy was between steps, as the started row is. */
  lemma {:induction false} OvertakenVisitsFailTheNextHistory(known: set<string>, past: seq<Event>, dev: int, now: int,
                                                             copy: DeviceRow, r: StepResult, later: int)
    requires OpensHistory(Run(EMPTY_WORLD, known, past), dev)
    requires Executes(copy, FlowOf(Run(EMPTY_WORLD, known, past), copy.rpaId), known) && r.completed && !r.success
    ensures var w := Run(EMPTY_WORLD, known, past);
            var w' := Apply(Apply(w, known, Start(dev, now)), known, LateVisit(dev, copy, r, later));
            var h := |w.trail.histories|;
            && |w'.trail.histories| == h + 1 && w'.trail.histories[h].deviceId == dev
            && w'.trail.histories[h].status == ExecFailed && w'.devices[dev].status == StatusError
            && (w'.trail.histories[h].failedSteps == 1 <==> copy.subStep == 0)
            && (w'.trail.histories[h].failedSteps == 0 <==> copy.subStep != 0)
  {
    var w := Run(EMPTY_WORLD, known, past);
    RunWired(known, past);
    StartInOrder(w, dev, |w.trail.histories|, now);
    FailWithoutRecords(DoStart(w, dev, now).trail, dev, copy, r);
    StepKeepsOwners(DoStart(w, dev, now).trail, dev, copy, r);
  }

  // ---- The rules are needed ----

  const TWO_PHASE := Flow([StepDef("k", None)])

  function Unfinished(sub: int): StepResult {
    StepResult(false, false, "", sub, None, map[])
  }

  const FAILING := StepResult(true, false, "boom", 0, None, map[])
  const PASSING := StepResult(true, true, "", 0, None, map[])
  const STOP_HERE := StepResult(true, true, "", 0, None, map["stopFlow" := Bool(true), "stopSuccess" := Bool(true)])

  /** A device in the middle of step 0, with a history that has one running record. */
  ghost predicate UnderWay(w: World, sub: int) {
    && w.flows == map[1 := TWO_PHASE]
    && 1 in w.devices && w.devices[1].rpaId == 1 && w.devices[1].status == StatusRunning
    && w.devices[1].mode == ModeSingle && w.devices[1].currentStep == 0 && w.devices[1].subStep == sub
    && w.trail == Trail([History(1, 1, ExecRunning, 1, 0, 0, 0, "")], [StepRecord(0, 1, 0, ExecRunning, "")],
                        map[1 := 0], map[(1, 0) := 0])
  }

  lemma ReachUnderWay(sub: int) returns (w: World)
    ensures w == Apply(Apply(Apply(Apply(EMPTY_WORLD, {"k"}, Bind(1, 1, ModeSingle)), {"k"}, EditFlow(1,
            Some(TWO_PHASE))),
                             {"k"}, Start(1, 0)), {"k"}, Visit(1, Unfinished(sub), 0))
    ensures UnderWay(w, sub)
  {
    var w2 := Apply(Apply(EMPTY_WORLD, {"k"}, Bind(1, 1, ModeSingle)), {"k"}, EditFlow(1, Some(TWO_PHASE)));
    assert w2.trail == EMPTY_TRAIL && w2.flows == map[1 := TWO_PHASE];
    var w3 := Apply(w2, {"k"}, Start(1, 0));
    assert w3.trail == Trail([History(1, 1, ExecRunning, 1, 0, 0, 0, "")], [], map[1 := 0], map[]);
    w := Apply(w3, {"k"}, Visit(1, Unfinished(sub), 0));
  }

  lemma StopUnderWay(w: World) returns (a: World)
    requires UnderWay(w, 1)
    ensures a == Apply(w, {"k"}, Visit(1, STOP_HERE, 0)) && a.flows == w.flows && 1 in a.devices
    ensures a.devices[1] == CompletedRow(MergeRow(w.devices[1], map[]), 0)
    ensures a.trail == Trail([History(1, 1, ExecRunning, 1, 0, 0, 0, "")], [StepRecord(0, 1, 0, ExecSuccess, "")],
                             map[1 := 0], map[])
  {
    a := Apply(w, {"k"}, Visit(1, STOP_HERE, 0));
    assert STOP_HERE.output - CONTROL_KEYS == map[];
    assert a.trail.pending == map[];
  }

  lemma FailAfterStop(b: World)
    requires b.flows == map[1 := TWO_PHASE] && 1 in b.devices && b.devices[1].rpaId == 1
    requires b.devices[1].status == StatusRunning && b.devices[1].currentStep == 0 && b.devices[1].subStep == 1
    requires b.trail == Trail([History(1, 1, ExecRunning, 1, 0, 0, 0, "")], [StepRecord(0, 1, 0, ExecSuccess, "")],
                              map[1 := 0], map[])
    ensures var hs := Apply(b, {"k"}, Visit(1, FAILING, 0)).trail.histories;
            |hs| == 1 && hs[0].status == ExecFailed && hs[0].failedSteps == 0
  {
    assert CloseRecord(b.trail, 1, 0, ExecFailed, "boom") == b.trail;
    assert b.trail.records[..0] == [];
    assert CountRecords(b.trail.records, 0, ExecFailed) == 0;
  }

  /** Stop successfully in the middle of a step, resume, then fail: the history is
      failed although it counts no failed step. */
  lemma ResumingCompletedLosesTheFailure()
    ensures exists w ::
      && UnderWay(w, 1)
      && var w' := Apply(Apply(Apply(w, {"k"}, Visit(1, STOP_HERE, 0)), {"k"}, Resume(1)), {"k"}, Visit(1, FAILING, 0));
         |w'.trail.histories| == 1 && w'.trail.histories[0].status == ExecFailed &&
             w'.trail.histories[0].failedSteps == 0
  {
    var w := ReachUnderWay(1);
    var a := StopUnderWay(w);
    FailAfterStop(Apply(a, {"k"}, Resume(1)));
  }

  /** A visit whose row copy was overtaken by a new start fails the history of that start,
      which has no step at all. */
  lemma LateVisitFailsTheNextHistory()
    ensures exists w ::
      && UnderWay(w, 1)
      && var w' := Apply(Apply(w, {"k"}, Start(1, 0)), {"k"}, LateVisit(1, w.devices[1], FAILING, 0));
         && |w'.trail.histories| == 2 && w'.trail.histories[0].status == ExecCancelled
         && w'.trail.histories[1].status == ExecFailed && w'.trail.histories[1].failedSteps == 0
         && w'.devices[1].status == StatusError
  {
    var w := ReachUnderWay(1);
    var a := Apply(w, {"k"}, Start(1, 0));
    assert a.trail == Trail([History(1, 1, ExecCancelled, 1, 0, 0, 0, ""), History(1, 1, ExecRunning, 1, 0, 0, 0, "")],
                            [StepRecord(0, 1, 0, ExecRunning, "")], map[1 := 1], map[(1, 0) := 0]);
    FailOvertaken(a, w.devices[1]);
  }

  lemma FailOvertaken(a: World, copy: DeviceRow)
    requires a.flows == map[1 := TWO_PHASE] && 1 in a.devices
    requires copy.rpaId == 1 && copy.currentStep == 0 && copy.subStep == 1
    requires a.trail == Trail([History(1, 1, ExecCancelled, 1, 0, 0, 0, ""), History(1, 1, ExecRunning, 1, 0, 0, 0,
             "")],
                              [StepRecord(0, 1, 0, ExecRunning, "")], map[1 := 1], map[(1, 0) := 0])
    ensures var w' := Apply(a, {"k"}, LateVisit(1, copy, FAILING, 0));
            && |w'.trail.histories| == 2 && w'.trail.histories[0].status == ExecCancelled
            && w'.trail.histories[1].status == ExecFailed && w'.trail.histories[1].failedSteps == 0
            && 1 in w'.devices && w'.devices[1].status == StatusError
  {
    var shut := CloseRecord(a.trail, 1, 0, ExecFailed, "boom");
    assert shut.records == [StepRecord(0, 1, 0, ExecFailed, "boom")] && shut.records[..0] == [];
    assert CountRecords(shut.records, 1, ExecFailed) == 0;
  }

  /** An executor that is unfinished at sub-step 0 gets a second record on the next
      visit, and the first one is still running when the history succeeds. */
  lemma SubStepZeroLeavesARunningRecord()
    ensures exists w ::
      && UnderWay(w, 0)
      && var w' := Apply(Apply(w, {"k"}, Visit(1, PASSING, 0)), {"k"}, Visit(1, PASSING, 0));
         |w'.trail.histories| == 1 && w'.trail.histories[0].status == ExecSuccess
         && |w'.trail.records| == 2 && w'.trail.records[0].status == ExecRunning
  {
    var w := ReachUnderWay(0);
    var a := PassUnderWay(w);
    PassTheEnd(a);
  }

  lemma PassTheEnd(a: World)
    requires a.flows == map[1 := TWO_PHASE] && 1 in a.devices
    requires a.devices[1].rpaId == 1 && a.devices[1].mode == ModeSingle
    requires a.devices[1].currentStep == 1 && a.devices[1].status == StatusRunning
    requires |a.trail.histories| == 1 && a.trail.current == map[1 := 0]
    ensures var b := Apply(a, {"k"}, Visit(1, PASSING, 0));
            |b.trail.histories| == 1 && b.trail.histories[0].status == ExecSuccess && b.trail.records == a.trail.records
  {
  }

  lemma PassUnderWay(w: World) returns (a: World)
    requires UnderWay(w, 0)
    ensures a == Apply(w, {"k"}, Visit(1, PASSING, 0)) && a.flows == w.flows && 1 in a.devices
    ensures a.devices[1].rpaId == 1 && a.devices[1].mode == ModeSingle
    ensures a.devices[1].currentStep == 1 && a.devices[1].status == StatusRunning
    ensures a.trail.records == [StepRecord(0, 1, 0, ExecRunning, ""), StepRecord(0, 1, 0, ExecSuccess, "")]
    ensures |a.trail.histories| == 1 && a.trail.current == map[1 := 0]
  {
    a := Apply(w, {"k"}, Visit(1, PASSING, 0));
  }
}
