/** Safety of the execution histories over every run: a running history is the
    one the engine tracks for its device, and no row comes back to life. */
module RpaHistory {
  import opened Prelude
  import opened RpaModel

  /** Tracked ids point at rows of their own device, and every running row is tracked. */
  ghost predicate Tracked(t: Trail) {
    && (forall d :: d in t.current ==> t.current[d] < |t.histories| && t.histories[t.current[d]].deviceId == d)
    && (forall i :: 0 <= i < |t.histories| && t.histories[i].status == ExecRunning ==>
          t.histories[i].deviceId in t.current && t.current[t.histories[i].deviceId] == i)
  }

  /** Moreover every tracked row is still running, so no tracked id is stale. */
  ghost predicate Exact(t: Trail) {
    && Tracked(t)
    && forall d :: d in t.current ==> t.histories[t.current[d]].status == ExecRunning
  }

  ghost predicate NoneRunning(t: Trail, dev: int) {
    forall i :: 0 <= i < |t.histories| && t.histories[i].deviceId == dev ==> t.histories[i].status != ExecRunning
  }

  // ---- What each trail operation keeps ----

  lemma CancelTracked(t: Trail, dev: int)
    requires Tracked(t)
    ensures Tracked(CancelRunning(t, dev)) && NoneRunning(CancelRunning(t, dev), dev)
  {
    var t' := CancelRunning(t, dev);
    forall d | d in t'.current
      ensures t'.current[d] < |t'.histories| && t'.histories[t'.current[d]].deviceId == d
    {
      assert t'.histories[t.current[d]] == Cancel(t.histories[t.current[d]], dev);
    }
  }

  lemma OpenTracked(t: Trail, dev: int, rpaId: nat, total: nat)
    requires Tracked(t) && NoneRunning(t, dev)
    ensures Tracked(OpenHistory(t, dev, rpaId, total))
    ensures (forall d :: d in t.current && d != dev ==> t.histories[t.current[d]].status == ExecRunning)
            ==> Exact(OpenHistory(t, dev, rpaId, total))
  {
  }

  lemma CloseTracked(t: Trail, dev: int, status: ExecStatus, message: string)
    requires Tracked(t) && status != ExecRunning
    ensures Tracked(CloseHistory(t, dev, status, message))
    ensures NoneRunning(CloseHistory(t, dev, status, message), dev)
    ensures Exact(t) ==> Exact(CloseHistory(t, dev, status, message))
  {
  }

  lemma RecordsTracked(t: Trail, dev: int, step: nat, status: ExecStatus, message: string)
    requires Tracked(t)
    ensures Tracked(OpenRecord(t, dev, step)) && Tracked(CloseRecord(t, dev, step, status, message))
    ensures Exact(t) ==> Exact(OpenRecord(t, dev, step)) && Exact(CloseRecord(t, dev, step, status, message))
  {
  }

  lemma StepTracked(t: Trail, dev: int, row: DeviceRow, r: StepResult)
    requires Tracked(t)
    ensures Tracked(StepTrail(t, dev, row, r))
    ensures Exact(t) ==> Exact(StepTrail(t, dev, row, r))
  {
    RecordsTracked(t, dev, row.currentStep, ExecSuccess, "");
    var begun := if row.subStep == 0 then OpenRecord(t, dev, row.currentStep) else t;
    if r.completed && r.success {
      RecordsTracked(begun, dev, row.currentStep, ExecSuccess, "");
    } else if r.completed {
      RecordsTracked(begun, dev, row.currentStep, ExecFailed, r.error);
      CloseTracked(CloseRecord(begun, dev, row.currentStep, ExecFailed, r.error), dev, ExecFailed, r.error);
    }
  }

  lemma VisitTracked(t: Trail, dev: int, row: DeviceRow, flow: Option<Flow>, known: set<string>, r: StepResult)
    requires Tracked(t)
    ensures Tracked(VisitTrail(t, dev, row, flow, known, r))
    ensures Exact(t) ==> Exact(VisitTrail(t, dev, row, flow, known, r))
  {
    if flow.Some? {
      CloseTracked(t, dev, ExecSuccess, "");
      OpenTracked(CloseHistory(t, dev, ExecSuccess, ""), dev, row.rpaId, |flow.value.steps|);
      StepTracked(t, dev, row, r);
    }
  }

  // ---- Every run ----

  lemma ApplyTracked(w: World, known: set<string>, e: Event)
    requires Tracked(w.trail)
    ensures Tracked(Apply(w, known, e).trail)
  {
    match e
    case Bind(dev, rpaId, mode) =>
    case Start(dev, now) =>
      CancelTracked(w.trail, dev);
      var row := if dev in w.devices then w.devices[dev] else NEW_ROW;
      var total := if row.rpaId in w.flows then |w.flows[row.rpaId].steps| else 0;
      OpenTracked(CancelRunning(w.trail, dev), dev, row.rpaId, total);
    case Pause(dev) =>
    case Resume(dev) =>
    case Stop(dev) =>
      CloseTracked(w.trail, dev, ExecCancelled, "stopped by the user");
    case Visit(dev, r, now) =>
      if dev in w.devices {
        VisitTracked(w.trail, dev, w.devices[dev], FlowOf(w, w.devices[dev].rpaId), known, r);
      }
    case LateVisit(dev, copy, r, now) => VisitTracked(w.trail, dev, copy, FlowOf(w, copy.rpaId), known, r);
    case EditFlow(id, flow) =>
  }

  /** In every run from an empty database, each running history is the one the
      engine tracks for its device. */
  lemma {:induction false} RunningHistoriesAreTracked(known: set<string>, es: seq<Event>)
    ensures Tracked(Run(EMPTY_WORLD, known, es).trail)
  {
    if es != [] {
      RunningHistoriesAreTracked(known, es[..|es| - 1]);
      ApplyTracked(Run(EMPTY_WORLD, known, es[..|es| - 1]), known, es[|es| - 1]);
    }
  }

  /** So a device never has two running histories. */
  lemma {:induction false} AtMostOneRunning(known: set<string>, es: seq<Event>, i: nat, j: nat)
    requires var hs := Run(EMPTY_WORLD, known, es).trail.histories;
             && i < |hs| && j < |hs|
             && hs[i].status == ExecRunning && hs[j].status == ExecRunning
             && hs[i].deviceId == hs[j].deviceId
    ensures i == j
  {
    RunningHistoriesAreTracked(known, es);
  }

  /** The later row set extends the earlier one: same owners, and no row revived. */
  ghost predicate Extends(hs: seq<History>, hs': seq<History>) {
    && |hs| <= |hs'|
    && forall i :: 0 <= i < |hs| ==>
         && hs'[i].deviceId == hs[i].deviceId && hs'[i].rpaId == hs[i].rpaId && hs'[i].totalSteps == hs[i].totalSteps
         && (hs[i].status != ExecRunning ==> hs'[i].status != ExecRunning)
  }

  lemma PartsExtend(t: Trail, dev: int, step: nat, status: ExecStatus, message: string)
    requires status != ExecRunning
    ensures Extends(t.histories, CloseHistory(t, dev, status, message).histories)
    ensures Extends(t.histories, CloseRecord(t, dev, step, status, message).histories)
  {
  }

  lemma OpenExtends(t: Trail, dev: int, rpaId: nat, total: nat)
    ensures Extends(t.histories, OpenHistory(t, dev, rpaId, total).histories)
  {
  }

  lemma ExtendsTransitive(a: seq<History>, b: seq<History>, c: seq<History>)
    requires Extends(a, b) && Extends(b, c)
    ensures Extends(a, c)
  {
  }

  lemma VisitExtends(t: Trail, dev: int, row: DeviceRow, flow: Option<Flow>, known: set<string>, r: StepResult)
    ensures Extends(t.histories, VisitTrail(t, dev, row, flow, known, r).histories)
  {
    if flow.Some? && |flow.value.steps| > 0 {
      if row.currentStep >= |flow.value.steps| {
        var closed := CloseHistory(t, dev, ExecSuccess, "");
        PartsExtend(t, dev, 0, ExecSuccess, "");
        OpenExtends(closed, dev, row.rpaId, |flow.value.steps|);
        ExtendsTransitive(t.histories, closed.histories,
                          OpenHistory(closed, dev, row.rpaId, |flow.value.steps|).histories);
      } else {
        var begun := if row.subStep == 0 then OpenRecord(t, dev, row.currentStep) else t;
        var shut := CloseRecord(begun, dev, row.currentStep, ExecFailed, r.error);
        PartsExtend(begun, dev, row.currentStep, ExecSuccess, "");
        PartsExtend(begun, dev, row.currentStep, ExecFailed, r.error);
        PartsExtend(shut, dev, row.currentStep, ExecFailed, r.error);
        ExtendsTransitive(t.histories, shut.histories, CloseHistory(shut, dev, ExecFailed, r.error).histories);
      }
    }
  }

  lemma StepKeepsOwners(t: Trail, dev: int, row: DeviceRow, r: StepResult)
    ensures var hs := StepTrail(t, dev, row, r).histories;
            |hs| == |t.histories| && forall i :: 0 <= i < |hs| ==> hs[i].deviceId == t.histories[i].deviceId
  {
    if row.subStep == 0 {
      assert OpenRecord(t, dev, row.currentStep).histories == t.histories;
    }
  }

  lemma ApplyExtends(w: World, known: set<string>, e: Event)
    ensures Extends(w.trail.histories, Apply(w, known, e).trail.histories)
  {
    match e
    case Bind(dev, rpaId, mode) =>
    case Start(dev, now) =>
      var t := CancelRunning(w.trail, dev);
      var row := if dev in w.devices then w.devices[dev] else NEW_ROW;
      var total := if row.rpaId in w.flows then |w.flows[row.rpaId].steps| else 0;
      OpenExtends(t, dev, row.rpaId, total);
      ExtendsTransitive(w.trail.histories, t.histories, OpenHistory(t, dev, row.rpaId, total).histories);
    case Pause(dev) =>
    case Resume(dev) =>
    case Stop(dev) => PartsExtend(w.trail, dev, 0, ExecCancelled, "stopped by the user");
    case Visit(dev, r, now) =>
      if dev in w.devices {
        VisitExtends(w.trail, dev, w.devices[dev], FlowOf(w, w.devices[dev].rpaId), known, r);
      }
    case LateVisit(dev, copy, r, now) => VisitExtends(w.trail, dev, copy, FlowOf(w, copy.rpaId), known, r);
    case EditFlow(id, flow) =>
  }

  /** No history that left the running status ever returns to it, in any run from any state. */
  lemma {:induction false} NoHistoryRevives(w: World, known: set<string>, es: seq<Event>)
    ensures Extends(w.trail.histories, Run(w, known, es).trail.histories)
  {
    if es != [] {
      NoHistoryRevives(w, known, es[..|es| - 1]);
      ApplyExtends(Run(w, known, es[..|es| - 1]), known, es[|es| - 1]);
    }
  }

  // ---- When closed rows are final ----

  /** The guard under which starting a device opens a history. */
  predicate OpensHistory(w: World, dev: int) {
    dev in w.devices && w.devices[dev].rpaId > 0 && w.devices[dev].rpaId in w.flows
  }

  /** Starting leaves no stale id exactly when it opens a history or there was none tracked. */
  lemma StartStaysExact(w: World, known: set<string>, dev: int, now: int)
    requires Exact(w.trail)
    ensures Exact(Apply(w, known, Start(dev, now)).trail) <==> OpensHistory(w, dev) || dev !in w.trail.current
  {
    var t := CancelRunning(w.trail, dev);
    CancelTracked(w.trail, dev);
    forall d | d in t.current && d != dev
      ensures t.histories[t.current[d]].status == ExecRunning
    {
      assert t.histories[t.current[d]] == Cancel(w.trail.histories[t.current[d]], dev);
    }
    if OpensHistory(w, dev) {
      OpenTracked(t, dev, w.devices[dev].rpaId, |w.flows[w.devices[dev].rpaId].steps|);
    } else if dev in w.trail.current {
      assert t.histories[t.current[dev]] == Cancel(w.trail.histories[t.current[dev]], dev);
    }
  }

  ghost predicate CleanStart(w: World, e: Event) {
    e.Start? ==> OpensHistory(w, e.dev) || e.dev !in w.trail.current
  }

  ghost predicate CleanRun(w: World, known: set<string>, es: seq<Event>) {
    forall k :: 0 <= k < |es| ==> CleanStart(Run(w, known, es[..k]), es[k])
  }

  /** A closed row keeps every field. */
  ghost predicate Final(hs: seq<History>, hs': seq<History>) {
    |hs| <= |hs'| && forall i :: 0 <= i < |hs| && hs[i].status != ExecRunning ==> hs'[i] == hs[i]
  }

  lemma PartsFinal(t: Trail, dev: int, step: nat, status: ExecStatus, message: string)
    requires Exact(t)
    ensures Final(t.histories, CloseHistory(t, dev, status, message).histories)
    ensures Final(t.histories, CloseRecord(t, dev, step, status, message).histories)
  {
  }

  lemma FinalTransitive(a: seq<History>, b: seq<History>, c: seq<History>)
    requires Final(a, b) && Final(b, c)
    ensures Final(a, c)
  {
  }

  lemma StepFinal(t: Trail, dev: int, row: DeviceRow, r: StepResult)
    requires Exact(t)
    ensures Final(t.histories, StepTrail(t, dev, row, r).histories)
  {
    RecordsTracked(t, dev, row.currentStep, ExecSuccess, "");
    var begun := if row.subStep == 0 then OpenRecord(t, dev, row.currentStep) else t;
    if r.completed && r.success {
      PartsFinal(begun, dev, row.currentStep, ExecSuccess, "");
    } else if r.completed {
      var shut := CloseRecord(begun, dev, row.currentStep, ExecFailed, r.error);
      PartsFinal(begun, dev, row.currentStep, ExecFailed, r.error);
      RecordsTracked(begun, dev, row.currentStep, ExecFailed, r.error);
      PartsFinal(shut, dev, row.currentStep, ExecFailed, r.error);
      FinalTransitive(t.histories, shut.histories, CloseHistory(shut, dev, ExecFailed, r.error).histories);
    }
  }

  lemma VisitFinal(t: Trail, dev: int, row: DeviceRow, flow: Option<Flow>, known: set<string>, r: StepResult)
    requires Exact(t)
    ensures Final(t.histories, VisitTrail(t, dev, row, flow, known, r).histories)
  {
    PartsFinal(t, dev, 0, ExecSuccess, "");
    StepFinal(t, dev, row, r);
  }

  lemma ApplyFinal(w: World, known: set<string>, e: Event)
    requires Exact(w.trail) && CleanStart(w, e)
    ensures Exact(Apply(w, known, e).trail)
    ensures Final(w.trail.histories, Apply(w, known, e).trail.histories)
  {
    match e
    case Bind(dev, rpaId, mode) =>
    case Start(dev, now) => StartStaysExact(w, known, dev, now);
    case Pause(dev) =>
    case Resume(dev) =>
    case Stop(dev) =>
      CloseTracked(w.trail, dev, ExecCancelled, "stopped by the user");
      PartsFinal(w.trail, dev, 0, ExecCancelled, "stopped by the user");
    case Visit(dev, r, now) =>
      if dev in w.devices {
        VisitTracked(w.trail, dev, w.devices[dev], FlowOf(w, w.devices[dev].rpaId), known, r);
        VisitFinal(w.trail, dev, w.devices[dev], FlowOf(w, w.devices[dev].rpaId), known, r);
      }
    case LateVisit(dev, copy, r, now) =>
      VisitTracked(w.trail, dev, copy, FlowOf(w, copy.rpaId), known, r);
      VisitFinal(w.trail, dev, copy, FlowOf(w, copy.rpaId), known, r);
    case EditFlow(id, flow) =>
  }

  lemma {:induction false} RunExact(known: set<string>, es: seq<Event>)
    requires CleanRun(EMPTY_WORLD, known, es)
    ensures Exact(Run(EMPTY_WORLD, known, es).trail)
  {
    if es != [] {
      var before := es[..|es| - 1];
      assert forall k :: 0 <= k < |before| ==> before[..k] == es[..k] && before[k] == es[k];
      RunExact(known, before);
      ApplyFinal(Run(EMPTY_WORLD, known, before), known, es[|es| - 1]);
    }
  }

  /** In runs whose starts all find a flow (or track nothing), a closed history is
      never touched again: status, counts and message are final. */
  lemma {:induction false} ClosedHistoriesAreFinal(known: set<string>, es: seq<Event>, e: Event)
    requires CleanRun(EMPTY_WORLD, known, es + [e])
    ensures Final(Run(EMPTY_WORLD, known, es).trail.histories, Run(EMPTY_WORLD, known, es + [e]).trail.histories)
  {
    var all := es + [e];
    assert all[..|all| - 1] == es;
    assert forall k :: 0 <= k < |es| ==> es[..k] == all[..k] && es[k] == all[k];
    assert CleanStart(Run(EMPTY_WORLD, known, all[..|es|]), all[|es|]);
    RunExact(known, es);
    ApplyFinal(Run(EMPTY_WORLD, known, es), known, e);
  }

  /** No running history carries a message yet. */
  ghost predicate Unmarked(t: Trail) {
    forall i :: 0 <= i < |t.histories| && t.histories[i].status == ExecRunning ==> t.histories[i].errorMessage == ""
  }

  lemma PartsUnmarked(t: Trail, dev: int, step: nat, status: ExecStatus, message: string)
    requires Unmarked(t) && status != ExecRunning
    ensures Unmarked(CancelRunning(t, dev))
    ensures Unmarked(CloseHistory(t, dev, status, message))
    ensures Unmarked(OpenRecord(t, dev, step)) && Unmarked(CloseRecord(t, dev, step, status, message))
  {
    var c := CancelRunning(t, dev);
    assert forall i :: 0 <= i < |t.histories| ==> c.histories[i] == Cancel(t.histories[i], dev);
  }

  lemma OpenUnmarked(t: Trail, dev: int, rpaId: nat, total: nat)
    requires Unmarked(t)
    ensures Unmarked(OpenHistory(t, dev, rpaId, total))
  {
  }

  lemma StepUnmarked(t: Trail, dev: int, row: DeviceRow, r: StepResult)
    requires Unmarked(t)
    ensures Unmarked(StepTrail(t, dev, row, r))
  {
    PartsUnmarked(t, dev, row.currentStep, ExecSuccess, "");
    var begun := if row.subStep == 0 then OpenRecord(t, dev, row.currentStep) else t;
    if r.completed && r.success {
      PartsUnmarked(begun, dev, row.currentStep, ExecSuccess, "");
    } else if r.completed {
      PartsUnmarked(begun, dev, row.currentStep, ExecFailed, r.error);
      PartsUnmarked(CloseRecord(begun, dev, row.currentStep, ExecFailed, r.error), dev, 0, ExecFailed, r.error);
    }
  }

  lemma VisitUnmarked(t: Trail, dev: int, row: DeviceRow, flow: Option<Flow>, known: set<string>, r: StepResult)
    requires Unmarked(t)
    ensures Unmarked(VisitTrail(t, dev, row, flow, known, r))
  {
    if flow.Some? {
      PartsUnmarked(t, dev, 0, ExecSuccess, "");
      OpenUnmarked(CloseHistory(t, dev, ExecSuccess, ""), dev, row.rpaId, |flow.value.steps|);
      StepUnmarked(t, dev, row, r);
    }
  }

  lemma ApplyUnmarked(w: World, known: set<string>, e: Event)
    requires Unmarked(w.trail)
    ensures Unmarked(Apply(w, known, e).trail)
  {
    match e
    case Bind(dev, rpaId, mode) =>
    case Start(dev, now) =>
      PartsUnmarked(w.trail, dev, 0, ExecSuccess, "");
      if OpensHistory(w, dev) {
        OpenUnmarked(CancelRunning(w.trail, dev), dev, w.devices[dev].rpaId, |w.flows[w.devices[dev].rpaId].steps|);
      }
    case Pause(dev) =>
    case Resume(dev) =>
    case Stop(dev) => PartsUnmarked(w.trail, dev, 0, ExecCancelled, "stopped by the user");
    case Visit(dev, r, now) =>
      if dev in w.devices {
        VisitUnmarked(w.trail, dev, w.devices[dev], FlowOf(w, w.devices[dev].rpaId), known, r);
      }
    case LateVisit(dev, copy, r, now) => VisitUnmarked(w.trail, dev, copy, FlowOf(w, copy.rpaId), known, r);
    case EditFlow(id, flow) =>
  }

  lemma {:induction false} RunUnmarked(known: set<string>, es: seq<Event>)
    ensures Unmarked(Run(EMPTY_WORLD, known, es).trail)
  {
    if es != [] {
      RunUnmarked(known, es[..|es| - 1]);
      ApplyUnmarked(Run(EMPTY_WORLD, known, es[..|es| - 1]), known, es[|es| - 1]);
    }
  }

  /** A start that finds a tracked history and no flow cancels it without a message, and a stop
      after it writes one into the cancelled row. */
  lemma StopMarksTheCancelled(w: World, known: set<string>, dev: int, now: int)
    requires Exact(w.trail) && Unmarked(w.trail) && !CleanStart(w, Start(dev, now))
    ensures var a := Apply(w, known, Start(dev, now));
            !Final(a.trail.histories, Apply(a, known, Stop(dev)).trail.histories)
  {
    var a := Apply(w, known, Start(dev, now));
    var h := w.trail.current[dev];
    assert a.trail.histories[h] == Cancel(w.trail.histories[h], dev);
    assert a.trail.histories[h].status == ExecCancelled && a.trail.histories[h].errorMessage == "";
    assert Apply(a, known, Stop(dev)).trail.histories[h].errorMessage == "stopped by the user";
  }

  /** That guard is exact: after every clean run, a start satisfies it exactly when a stop right
      after the start leaves every closed history as it is. */
  lemma {:induction false} CleanStartsAreNeeded(known: set<string>, es: seq<Event>, dev: int, now: int)
    requires CleanRun(EMPTY_WORLD, known, es)
    ensures var w := Run(EMPTY_WORLD, known, es);
            var a := Apply(w, known, Start(dev, now));
            CleanStart(w, Start(dev, now))
            <==> Final(a.trail.histories, Apply(a, known, Stop(dev)).trail.histories)
  {
    var w := Run(EMPTY_WORLD, known, es);
    RunExact(known, es);
    RunUnmarked(known, es);
    if CleanStart(w, Start(dev, now)) {
      ApplyFinal(w, known, Start(dev, now));
      ApplyFinal(Apply(w, known, Start(dev, now)), known, Stop(dev));
    } else {
      StopMarksTheCancelled(w, known, dev, now);
    }
  }

  /** A visit ends the device's run but leaves its history running exactly when the flow is
      missing or empty, the step is of an unknown kind, or the step stops the flow as a success. */
  lemma EndedWithHistoryRunning(t: Trail, dev: int, row: DeviceRow, flow: Option<Flow>, known: set<string>,
                                r: StepResult, now: int)
    requires Exact(t) && dev in t.current && row.status == StatusRunning
    ensures
      VisitRow(row, flow, known, r, now).status != StatusRunning
      && VisitTrail(t, dev, row, flow, known, r).histories[t.current[dev]].status == ExecRunning
      <==>
      || flow.None? || |flow.value.steps| == 0
      || (row.currentStep < |flow.value.steps| &&
          if Executes(row, flow, known) then r.completed && r.success && StopsSuccessfully(r.output) else true)
  {
    VisitExtends(t, dev, row, flow, known, r);
    if Executes(row, flow, known) {
      var begun := if row.subStep == 0 then OpenRecord(t, dev, row.currentStep) else t;
      assert begun.histories == t.histories && begun.current == t.current;
    }
  }

  /** Without that guard a cancelled history can still turn into a success: start,
      delete the flow, start again, restore the flow, resume past its last step. */
  lemma CancelledHistoryCanBecomeSuccess()
    ensures
      var flow := Flow([StepDef("k", None)]);
      var jump := StepResult(true, true, "", 0, None, map[]);
      var es := [Bind(1, 1, ModeSingle), EditFlow(1, Some(flow)), Start(1, 0), EditFlow(1, None), Start(1, 0)];
      var w := Run(EMPTY_WORLD, {"k"}, es);
      var w' := Apply(Apply(Apply(w, {"k"}, EditFlow(1, Some(flow))), {"k"}, Visit(1, jump, 0)), {"k"}, Visit(1,
          jump, 0));
      && |w.trail.histories| == 1 && w.trail.histories[0].status == ExecCancelled
      && |w'.trail.histories| == 1 && w'.trail.histories[0].status == ExecSuccess
  {
    var flow := Flow([StepDef("k", None)]);
    var es := [Bind(1, 1, ModeSingle), EditFlow(1, Some(flow)), Start(1, 0), EditFlow(1, None), Start(1, 0)];
    var w := CancelledByLosingTheFlow(flow, es);
    var w6 := Apply(w, {"k"}, EditFlow(1, Some(flow)));
    var w7 := Apply(w6, {"k"}, Visit(1, StepResult(true, true, "", 0, None, map[]), 0));
    assert w7.devices[1].currentStep == 1;
    assert w7.trail.current == map[1 := 0];
  }

  lemma CancelledByLosingTheFlow(flow: Flow, es: seq<Event>) returns (w: World)
    requires es == [Bind(1, 1, ModeSingle), EditFlow(1, Some(flow)), Start(1, 0), EditFlow(1, None), Start(1, 0)]
    requires |flow.steps| == 1
    ensures w == Run(EMPTY_WORLD, {"k"}, es) && 1 in w.devices
    ensures w.devices[1].rpaId == 1 && w.devices[1].status == StatusRunning && w.devices[1].mode == ModeSingle
    ensures w.devices[1].currentStep == 0 && w.devices[1].subStep == 0
    ensures w.trail == Trail([History(1, 1, ExecCancelled, 1, 0, 0, 0, "")], [], map[1 := 0], map[])
  {
    var known := {"k"};
    var w2 := Apply(Apply(EMPTY_WORLD, known, es[0]), known, es[1]);
    var w3 := Apply(w2, known, es[2]);
    var w4 := Apply(w3, known, es[3]);
    w := Apply(w4, known, es[4]);
    assert w3.trail.histories == [History(1, 1, ExecRunning, 1, 0, 0, 0, "")];
    assert w4.trail == w3.trail;
    RunFive(EMPTY_WORLD, known, es);
  }

  lemma RunFive(w: World, known: set<string>, es: seq<Event>)
    requires |es| == 5
    ensures Run(w, known, es) ==
            Apply(Apply(Apply(Apply(Apply(w, known, es[0]), known, es[1]), known, es[2]), known, es[3]), known, es[4])
  {
    assert es[..4][..3] == es[..3];
    assert es[..3][..2] == es[..2];
    assert es[..2][..1] == es[..1];
    assert es[..1][..0] == [];
    assert Run(w, known, []) == w;
    assert Run(w, known, es[..1]) == Apply(w, known, es[0]);
    assert Run(w, known, es[..2]) == Apply(Run(w, known, es[..1]), known, es[1]);
    assert Run(w, known, es[..3]) == Apply(Run(w, known, es[..2]), known, es[2]);
    assert Run(w, known, es[..4]) == Apply(Run(w, known, es[..3]), known, es[3]);
  }
}
