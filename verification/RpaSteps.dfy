/** Step accounting: the step records of a history that was closed by the engine
    are all finished, and the counters written into the history add up. */
module RpaSteps {
  import opened Prelude
  import opened RpaModel
  import opened RpaHistory

  // ---- Counting records ----

  function Tally(r: StepRecord, h: nat, status: ExecStatus): nat {
    if r.historyId == h && r.status == status then 1 else 0
  }

  /** Number of records of history h, whatever their status. */
  function TotalRecords(records: seq<StepRecord>, h: nat): nat {
    if records == [] then 0
    else
      TotalRecords(records[..|records| - 1], h)
      + if records[|records| - 1].historyId == h then 1 else 0
  }

  lemma CountAppend(records: seq<StepRecord>, r: StepRecord, h: nat, status: ExecStatus)
    ensures CountRecords(records + [r], h, status) == CountRecords(records, h, status) + Tally(r, h, status)
    ensures TotalRecords(records + [r], h) == TotalRecords(records, h) + if r.historyId == h then 1 else 0
  {
    assert (records + [r])[..|records|] == records;
  }

  lemma {:induction false} CountUpdate(records: seq<StepRecord>, s: nat, r: StepRecord, h: nat, status: ExecStatus)
    requires s < |records| && r.historyId == records[s].historyId
    ensures CountRecords(records[s := r], h, status)
            == CountRecords(records, h, status) - Tally(records[s], h, status) + Tally(r, h, status)
    ensures TotalRecords(records[s := r], h) == TotalRecords(records, h)
  {
    var n := |records| - 1;
    if s == n {
      assert records[s := r][..n] == records[..n];
    } else {
      assert records[s := r][..n] == records[..n][s := r];
      CountUpdate(records[..n], s, r, h, status);
    }
  }

  lemma {:induction false} CountsCover(records: seq<StepRecord>, h: nat)
    requires forall s :: 0 <= s < |records| && records[s].historyId == h ==>
               records[s].status == ExecSuccess || records[s].status == ExecFailed
    ensures CountRecords(records, h, ExecSuccess) + CountRecords(records, h, ExecFailed) == TotalRecords(records, h)
  {
    if records != [] {
      CountsCover(records[..|records| - 1], h);
    }
  }

  lemma {:induction false} CountNone(records: seq<StepRecord>, h: nat, status: ExecStatus)
    requires forall s :: 0 <= s < |records| && records[s].historyId == h ==> records[s].status != status
    ensures CountRecords(records, h, status) == 0
  {
    if records != [] {
      CountNone(records[..|records| - 1], h, status);
    }
  }

  // ---- Invariants ----

  /** Every pending key points at a running record that carries the key, and
      every record belongs to a history of its own device. */
  ghost predicate Wired(t: Trail) {
    && Tracked(t)
    && (forall k :: k in t.pending ==>
          && t.pending[k] < |t.records|
          && t.records[t.pending[k]].status == ExecRunning
          && t.records[t.pending[k]].deviceId == k.0 && t.records[t.pending[k]].stepIndex == k.1)
    && (forall s :: 0 <= s < |t.records| ==>
          && t.records[s].historyId < |t.histories|
          && t.histories[t.records[s].historyId].deviceId == t.records[s].deviceId)
  }

  /** The tracked history of dev has only successful records, except that while
      the row is inside a step (sub-step not 0) that step's record may be running. */
  ghost predicate Orderly(t: Trail, dev: int, step: nat, sub: int) {
    dev in t.current && t.current[dev] < |t.histories| ==>
      && t.histories[t.current[dev]].status == ExecRunning
      && forall s :: 0 <= s < |t.records| && t.records[s].historyId == t.current[dev] ==>
           || t.records[s].status == ExecSuccess
           || (sub != 0 && (dev, step) in t.pending && t.pending[(dev, step)] == s)
  }

  predicate Closed(h: History) {
    h.status == ExecSuccess || h.status == ExecFailed
  }

  /** All records of history i are finished, its counters are exact and add up,
      at most one record failed, and none did if the history succeeded. */
  ghost predicate Accounted(t: Trail, i: nat)
    requires i < |t.histories|
  {
    var h := t.histories[i];
    && (forall s :: 0 <= s < |t.records| && t.records[s].historyId == i ==> t.records[s].status != ExecRunning)
    && h.successSteps == CountRecords(t.records, i, ExecSuccess)
    && h.failedSteps == CountRecords(t.records, i, ExecFailed)
    && h.successSteps + h.failedSteps == TotalRecords(t.records, i)
    && h.failedSteps <= 1
    && (h.status == ExecSuccess ==> h.failedSteps == 0)
  }

  /** Histories of dev from position base on that the engine closed are accounted for. */
  ghost predicate ClosedAccounted(t: Trail, dev: int, base: nat) {
    forall i :: base <= i < |t.histories| && t.histories[i].deviceId == dev && Closed(t.histories[i]) ==>
      Accounted(t, i)
  }

  ghost predicate Books(t: Trail, dev: int, base: nat, step: nat, sub: int) {
    Wired(t) && Orderly(t, dev, step, sub) && ClosedAccounted(t, dev, base)
  }

  /** The books of a device without a tracked history. */
  ghost predicate Settled(t: Trail, dev: int, base: nat) {
    Wired(t) && ClosedAccounted(t, dev, base) && dev !in t.current
  }

  // ---- Operations of any device on the wiring ----

  lemma CancelWired(t: Trail, dev: int)
    requires Wired(t)
    ensures Wired(CancelRunning(t, dev))
  {
    CancelTracked(t, dev);
  }

  lemma OpenRecordWired(t: Trail, dev: int, step: nat)
    requires Wired(t)
    ensures Wired(OpenRecord(t, dev, step))
  {
    RecordsTracked(t, dev, step, ExecSuccess, "");
  }

  lemma CloseRecordWired(t: Trail, dev: int, step: nat, status: ExecStatus, message: string)
    requires Wired(t)
    ensures Wired(CloseRecord(t, dev, step, status, message))
  {
    RecordsTracked(t, dev, step, status, message);
    var t' := CloseRecord(t, dev, step, status, message);
    forall k | k in t'.pending
      ensures t'.pending[k] < |t'.records| && t'.records[t'.pending[k]] == t.records[t.pending[k]]
    {
      assert k in t.pending;
    }
    forall s | 0 <= s < |t'.records|
      ensures t'.records[s].historyId == t.records[s].historyId && t'.records[s].deviceId == t.records[s].deviceId
    {
    }
  }

  lemma CloseWired(t: Trail, dev: int, status: ExecStatus, message: string)
    requires Wired(t) && status != ExecRunning
    ensures Wired(CloseHistory(t, dev, status, message))
  {
    CloseTracked(t, dev, status, message);
  }

  lemma OpenWired(t: Trail, dev: int, rpaId: nat, total: nat)
    requires Wired(t) && NoneRunning(t, dev)
    ensures Wired(OpenHistory(t, dev, rpaId, total))
  {
    OpenTracked(t, dev, rpaId, total);
  }

  // ---- Record operations on the books ----

  /** Opening or closing a record touches no history that is accounted for. */
  lemma OpeningKeepsAccounts(t: Trail, dev: int, step: nat, i: nat)
    requires i < |t.histories| && Accounted(t, i)
    requires dev in t.current ==> t.current[dev] != i
    ensures Accounted(OpenRecord(t, dev, step), i)
  {
    if dev in t.current {
      var r := StepRecord(t.current[dev], dev, step, ExecRunning, "");
      CountAppend(t.records, r, i, ExecSuccess);
      CountAppend(t.records, r, i, ExecFailed);
    }
  }

  lemma ClosingKeepsAccounts(t: Trail, dev: int, step: nat, status: ExecStatus, message: string, i: nat)
    requires Wired(t) && i < |t.histories| && Accounted(t, i) && Closed(t.histories[i])
    requires dev in t.current ==> t.current[dev] != i
    ensures Accounted(CloseRecord(t, dev, step, status, message), i)
  {
    if (dev, step) in t.pending {
      var s := t.pending[(dev, step)];
      var r := t.records[s].(status := status, errorMessage := message);
      CountUpdate(t.records, s, r, i, ExecSuccess);
      CountUpdate(t.records, s, r, i, ExecFailed);
    }
  }

  lemma ClosedAccountedStays(t: Trail, dev: int, base: nat, who: int, step: nat, status: ExecStatus, message: string)
    requires Wired(t) && ClosedAccounted(t, dev, base)
    requires dev in t.current ==> t.histories[t.current[dev]].status == ExecRunning
    ensures ClosedAccounted(OpenRecord(t, who, step), dev, base)
    ensures ClosedAccounted(CloseRecord(t, who, step, status, message), dev, base)
  {
    forall i | base <= i < |t.histories| && t.histories[i].deviceId == dev && Closed(t.histories[i])
      ensures Accounted(OpenRecord(t, who, step), i)
      ensures Accounted(CloseRecord(t, who, step, status, message), i)
    {
      OpeningKeepsAccounts(t, who, step, i);
      ClosingKeepsAccounts(t, who, step, status, message, i);
    }
  }

  /** Entering a step: its record becomes the one running record. */
  lemma OpenRecordBooks(t: Trail, dev: int, base: nat, step: nat)
    requires Books(t, dev, base, step, 0)
    ensures Books(OpenRecord(t, dev, step), dev, base, step, 1)
  {
    OpenRecordWired(t, dev, step);
    ClosedAccountedStays(t, dev, base, dev, step, ExecSuccess, "");
  }

  /** Finishing a step successfully: every record is then successful. */
  lemma CloseRecordBooks(t: Trail, dev: int, base: nat, step: nat, sub: int, message: string)
    requires Books(t, dev, base, step, sub)
    ensures Books(CloseRecord(t, dev, step, ExecSuccess, message), dev, base, step, 0)
  {
    CloseRecordWired(t, dev, step, ExecSuccess, message);
    ClosedAccountedStays(t, dev, base, dev, step, ExecSuccess, message);
  }

  lemma CloseHistoryKeeps(t: Trail, who: int, status: ExecStatus, message: string, i: nat)
    requires Wired(t) && i < |t.histories| && Accounted(t, i)
    requires who in t.current ==> t.current[who] != i
    ensures Accounted(CloseHistory(t, who, status, message), i)
  {
  }

  /** Completing a flow between steps accounts for its history. */
  lemma CloseSuccessBooks(t: Trail, dev: int, base: nat, step: nat)
    requires Books(t, dev, base, step, 0)
    ensures Settled(CloseHistory(t, dev, ExecSuccess, ""), dev, base)
    ensures NoneRunning(CloseHistory(t, dev, ExecSuccess, ""), dev)
  {
    CloseWired(t, dev, ExecSuccess, "");
    CloseTracked(t, dev, ExecSuccess, "");
    if dev in t.current {
      CountsCover(t.records, t.current[dev]);
      CountNone(t.records, t.current[dev], ExecFailed);
    }
    var t' := CloseHistory(t, dev, ExecSuccess, "");
    forall i | base <= i < |t'.histories| && t'.histories[i].deviceId == dev && Closed(t'.histories[i])
      ensures Accounted(t', i)
    {
      if !(dev in t.current && t.current[dev] == i) {
        CloseHistoryKeeps(t, dev, ExecSuccess, "", i);
      }
    }
  }

  /** Does a failing visit find a record of the tracked history to mark as failed? */
  ghost predicate HasOpenRecord(t: Trail, dev: int, step: nat) {
    && dev in t.current && (dev, step) in t.pending
    && t.pending[(dev, step)] < |t.records|
    && t.records[t.pending[(dev, step)]].historyId == t.current[dev]
  }

  /** Failing the step's record leaves every record of the tracked history finished. */
  lemma FailRecord(t: Trail, dev: int, step: nat, sub: int, message: string)
    requires Wired(t) && Orderly(t, dev, step, sub) && dev in t.current
    ensures
      var shut := CloseRecord(t, dev, step, ExecFailed, message);
      var h := t.current[dev];
      && h < |shut.histories| && shut.current == t.current
      && (forall s :: 0 <= s < |shut.records| && shut.records[s].historyId == h ==>
            shut.records[s].status == ExecSuccess || shut.records[s].status == ExecFailed)
      && CountRecords(shut.records, h, ExecSuccess) + CountRecords(shut.records, h, ExecFailed) ==
         TotalRecords(shut.records, h)
      && CountRecords(shut.records, h, ExecFailed) == if HasOpenRecord(t, dev, step) then 1 else 0
  {
    var shut := CloseRecord(t, dev, step, ExecFailed, message);
    var h := t.current[dev];
    CountNone(t.records, h, ExecFailed);
    if (dev, step) in t.pending {
      var s := t.pending[(dev, step)];
      CountUpdate(t.records, s, t.records[s].(status := ExecFailed, errorMessage := message), h, ExecFailed);
    }
    CountsCover(shut.records, h);
  }

  /** Closing as failed: accounted for, and one failure is counted exactly when
      there was an open record to fail. */
  lemma FailBooks(t: Trail, dev: int, base: nat, step: nat, sub: int, message: string)
    requires Books(t, dev, base, step, sub)
    ensures var t' := CloseHistory(CloseRecord(t, dev, step, ExecFailed, message), dev, ExecFailed, message);
            && Settled(t', dev, base)
            && (dev in t.current ==>
                  && t'.histories[t.current[dev]].status == ExecFailed
                  && (t'.histories[t.current[dev]].failedSteps == 1 <==> HasOpenRecord(t, dev, step)))
  {
    var shut := CloseRecord(t, dev, step, ExecFailed, message);
    CloseRecordWired(t, dev, step, ExecFailed, message);
    ClosedAccountedStays(t, dev, base, dev, step, ExecFailed, message);
    CloseWired(shut, dev, ExecFailed, message);
    if dev in t.current {
      FailRecord(t, dev, step, sub, message);
    }
    CloseFailedBooks(shut, dev, base, message);
  }

  lemma CloseFailedBooks(t: Trail, dev: int, base: nat, message: string)
    requires Wired(t) && ClosedAccounted(t, dev, base)
    requires dev in t.current ==>
               var h := t.current[dev];
               && (forall s :: 0 <= s < |t.records| && t.records[s].historyId == h ==>
                     t.records[s].status != ExecRunning)
               && CountRecords(t.records, h, ExecSuccess) + CountRecords(t.records, h, ExecFailed) ==
                  TotalRecords(t.records, h)
               && CountRecords(t.records, h, ExecFailed) <= 1
    ensures ClosedAccounted(CloseHistory(t, dev, ExecFailed, message), dev, base)
  {
    var t' := CloseHistory(t, dev, ExecFailed, message);
    forall i | base <= i < |t'.histories| && t'.histories[i].deviceId == dev && Closed(t'.histories[i])
      ensures Accounted(t', i)
    {
      if !(dev in t.current && t.current[dev] == i) {
        CloseHistoryKeeps(t, dev, ExecFailed, message, i);
      }
    }
  }

  lemma OpenHistoryBooks(t: Trail, dev: int, base: nat, rpaId: nat, total: nat, step: nat)
    requires Wired(t) && NoneRunning(t, dev) && ClosedAccounted(t, dev, base)
    ensures Books(OpenHistory(t, dev, rpaId, total), dev, base, step, 0)
  {
    OpenWired(t, dev, rpaId, total);
    var t' := OpenHistory(t, dev, rpaId, total);
    forall i | base <= i < |t'.histories| && t'.histories[i].deviceId == dev && Closed(t'.histories[i])
      ensures Accounted(t', i)
    {
      assert i < |t.histories|;
    }
  }

  // ---- Operations of other devices ----

  lemma OtherOpensRecord(t: Trail, dev: int, base: nat, step: nat, sub: int, who: int, at: nat)
    requires Books(t, dev, base, step, sub) && who != dev
    ensures Books(OpenRecord(t, who, at), dev, base, step, sub)
  {
    OpenRecordWired(t, who, at);
    ClosedAccountedStays(t, dev, base, who, at, ExecSuccess, "");
  }

  lemma OtherClosesRecord(t: Trail, dev: int, base: nat, step: nat, sub: int, who: int, at: nat,
                          status: ExecStatus, message: string)
    requires Books(t, dev, base, step, sub) && who != dev
    ensures Books(CloseRecord(t, who, at, status, message), dev, base, step, sub)
  {
    CloseRecordWired(t, who, at, status, message);
    ClosedAccountedStays(t, dev, base, who, at, status, message);
  }

  lemma OtherHistory(t: Trail, dev: int, base: nat, step: nat, sub: int, who: int, status: ExecStatus, message: string)
    requires Books(t, dev, base, step, sub) && who != dev && status != ExecRunning
    ensures Books(CloseHistory(t, who, status, message), dev, base, step, sub)
  {
    CloseWired(t, who, status, message);
    var t' := CloseHistory(t, who, status, message);
    forall i | base <= i < |t'.histories| && t'.histories[i].deviceId == dev && Closed(t'.histories[i])
      ensures Accounted(t', i)
    {
      CloseHistoryKeeps(t, who, status, message, i);
    }
  }

  lemma OtherOpens(t: Trail, dev: int, base: nat, step: nat, sub: int, who: int, rpaId: nat, total: nat)
    requires Books(t, dev, base, step, sub) && who != dev && NoneRunning(t, who)
    ensures Books(OpenHistory(t, who, rpaId, total), dev, base, step, sub)
  {
    OpenWired(t, who, rpaId, total);
    var t' := OpenHistory(t, who, rpaId, total);
    forall i | base <= i < |t'.histories| && t'.histories[i].deviceId == dev && Closed(t'.histories[i])
      ensures Accounted(t', i)
    {
      assert i < |t.histories|;
    }
  }

  lemma OtherCancels(t: Trail, dev: int, base: nat, step: nat, sub: int, who: int)
    requires Books(t, dev, base, step, sub)
    ensures who != dev ==> Books(CancelRunning(t, who), dev, base, step, sub)
    ensures Wired(CancelRunning(t, who)) && ClosedAccounted(CancelRunning(t, who), dev, base)
  {
    CancelWired(t, who);
    var t' := CancelRunning(t, who);
    forall i | base <= i < |t'.histories| && t'.histories[i].deviceId == dev && Closed(t'.histories[i])
      ensures Accounted(t', i)
    {
      assert t'.histories[i] == Cancel(t.histories[i], who);
    }
    if dev in t.current && who != dev {
      assert t'.histories[t.current[dev]] == Cancel(t.histories[t.current[dev]], who);
    }
  }

  lemma OtherVisits(t: Trail, dev: int, base: nat, step: nat, sub: int,
                    who: int, row: DeviceRow, flow: Option<Flow>, known: set<string>, r: StepResult)
    requires Books(t, dev, base, step, sub) && who != dev
    ensures Books(VisitTrail(t, who, row, flow, known, r), dev, base, step, sub)
  {
    if flow.Some? && |flow.value.steps| > 0 {
      if row.currentStep >= |flow.value.steps| {
        OtherHistory(t, dev, base, step, sub, who, ExecSuccess, "");
        CloseTracked(t, who, ExecSuccess, "");
        OtherOpens(CloseHistory(t, who, ExecSuccess, ""), dev, base, step, sub, who, row.rpaId, |flow.value.steps|);
      } else {
        var begun := if row.subStep == 0 then OpenRecord(t, who, row.currentStep) else t;
        OtherOpensRecord(t, dev, base, step, sub, who, row.currentStep);
        OtherClosesRecord(begun, dev, base, step, sub, who, row.currentStep, ExecSuccess, "");
        OtherClosesRecord(begun, dev, base, step, sub, who, row.currentStep, ExecFailed, r.error);
        OtherHistory(CloseRecord(begun, who, row.currentStep, ExecFailed, r.error), dev, base, step, sub,
                     who, ExecFailed, r.error);
      }
    }
  }

  // ---- A visit of the device itself ----

  lemma OwnVisits(t: Trail, dev: int, base: nat, row: DeviceRow, flow: Option<Flow>, known: set<string>,
                  r: StepResult, now: int)
    requires Books(t, dev, base, row.currentStep, row.subStep)
    requires flow.Some? && row.subStep != 0 ==> row.currentStep < |flow.value.steps|
    requires !r.completed ==> r.nextSub != 0
    ensures var row' := VisitRow(row, flow, known, r, now);
            && Books(VisitTrail(t, dev, row, flow, known, r), dev, base, row'.currentStep, row'.subStep)
            && (flow.Some? && row'.subStep != 0 ==> row'.currentStep < |flow.value.steps|)
  {
    if flow.Some? && |flow.value.steps| > 0 {
      if row.currentStep >= |flow.value.steps| {
        CloseSuccessBooks(t, dev, base, row.currentStep);
        OpenHistoryBooks(CloseHistory(t, dev, ExecSuccess, ""), dev, base, row.rpaId, |flow.value.steps|, 0);
      } else if Executes(row, flow, known) {
        var begun := if row.subStep == 0 then OpenRecord(t, dev, row.currentStep) else t;
        var inside := if row.subStep == 0 then 1 else row.subStep;
        if row.subStep == 0 {
          OpenRecordBooks(t, dev, base, row.currentStep);
        }
        CloseRecordBooks(begun, dev, base, row.currentStep, inside, "");
        FailBooks(begun, dev, base, row.currentStep, inside, r.error);
      }
    }
  }

  // ---- Runs ----

  /** The rules of the accounting theorem for the events of device dev: its flow is
      not edited, it is not rebound, starts are clean, a row copy is up to date, and an
      unfinished executor names a sub-step other than 0. Other devices may do anything. */
  ghost predicate Disciplined(w: World, dev: int, e: Event) {
    match e
    case Bind(who, _, _) => who != dev
    case Start(who, _) => who == dev ==> CleanStart(w, e)
    case Visit(who, r, _) => who == dev && !r.completed ==> r.nextSub != 0
    case LateVisit(who, copy, r, _) =>
      who == dev ==> UpToDate(w, dev, copy) && (!r.completed ==> r.nextSub != 0)
    case EditFlow(id, _) => dev in w.devices ==> id != w.devices[dev].rpaId
    case _ => true
  }

  ghost predicate DisciplinedRun(w: World, known: set<string>, dev: int, es: seq<Event>) {
    forall k :: 0 <= k < |es| ==> Disciplined(Run(w, known, es[..k]), dev, es[k])
  }

  ghost predicate InOrder(w: World, dev: int, base: nat) {
    && dev in w.devices
    && Books(w.trail, dev, base, w.devices[dev].currentStep, w.devices[dev].subStep)
    && (FlowOf(w, w.devices[dev].rpaId).Some? && w.devices[dev].subStep != 0 ==>
          w.devices[dev].currentStep < |FlowOf(w, w.devices[dev].rpaId).value.steps|)
  }

  lemma StartInOrder(w: World, dev: int, base: nat, now: int)
    requires dev in w.devices && Wired(w.trail) && ClosedAccounted(w.trail, dev, base)
    requires OpensHistory(w, dev)
    ensures InOrder(DoStart(w, dev, now), dev, base)
  {
    var t := CancelRunning(w.trail, dev);
    CancelWired(w.trail, dev);
    CancelTracked(w.trail, dev);
    forall i | base <= i < |t.histories| && t.histories[i].deviceId == dev && Closed(t.histories[i])
      ensures Accounted(t, i)
    {
      assert t.histories[i] == Cancel(w.trail.histories[i], dev);
    }
    OpenHistoryBooks(t, dev, base, w.devices[dev].rpaId, |w.flows[w.devices[dev].rpaId].steps|, 0);
  }

  lemma StopInOrder(w: World, dev: int, base: nat)
    requires InOrder(w, dev, base)
    ensures InOrder(DoStop(w, dev), dev, base)
  {
    CloseWired(w.trail, dev, ExecCancelled, "stopped by the user");
    var t := CloseHistory(w.trail, dev, ExecCancelled, "stopped by the user");
    forall i | base <= i < |t.histories| && t.histories[i].deviceId == dev && Closed(t.histories[i])
      ensures Accounted(t, i)
    {
      CloseHistoryKeeps(w.trail, dev, ExecCancelled, "stopped by the user", i);
    }
  }

  lemma OwnEvent(w: World, known: set<string>, dev: int, base: nat, e: Event)
    requires InOrder(w, dev, base) && Disciplined(w, dev, e) && Concerns(e, dev)
    ensures InOrder(Apply(w, known, e), dev, base)
  {
    var row := w.devices[dev];
    match e
    case Bind(_, _, _) =>
    case Start(_, now) =>
      if OpensHistory(w, dev) {
        StartInOrder(w, dev, base, now);
      } else {
        OtherCancels(w.trail, dev, base, row.currentStep, row.subStep, dev);
      }
    case Pause(_) =>
    case Resume(_) =>
    case Stop(_) => StopInOrder(w, dev, base);
    case Visit(_, r, now) =>
      if row.status == StatusRunning {
        OwnVisits(w.trail, dev, base, row, FlowOf(w, row.rpaId), known, r, now);
      }
    case LateVisit(_, copy, r, now) =>
      LateIsVisit(w.trail, dev, row, copy, FlowOf(w, row.rpaId), known, r, now);
      OwnVisits(w.trail, dev, base, row, FlowOf(w, row.rpaId), known, r, now);
  }

  /** A visit does not look at the status of its row copy. */
  lemma LateIsVisit(t: Trail, dev: int, row: DeviceRow, copy: DeviceRow, flow: Option<Flow>, known: set<string>,
                    r: StepResult, now: int)
    requires copy == row.(status := copy.status)
    ensures VisitRowFrom(row, copy, flow, known, r, now) == VisitRow(row, flow, known, r, now)
    ensures VisitTrail(t, dev, copy, flow, known, r) == VisitTrail(t, dev, row, flow, known, r)
  {
  }

  lemma OtherStarts(w: World, dev: int, base: nat, who: int, now: int)
    requires InOrder(w, dev, base) && who != dev
    ensures InOrder(DoStart(w, who, now), dev, base)
  {
    var row := w.devices[dev];
    var t := CancelRunning(w.trail, who);
    OtherCancels(w.trail, dev, base, row.currentStep, row.subStep, who);
    CancelTracked(w.trail, who);
    if OpensHistory(w, who) {
      OtherOpens(t, dev, base, row.currentStep, row.subStep, who,
                 w.devices[who].rpaId, |w.flows[w.devices[who].rpaId].steps|);
    }
  }

  lemma OtherEvent(w: World, known: set<string>, dev: int, base: nat, e: Event)
    requires InOrder(w, dev, base) && Disciplined(w, dev, e) && !Concerns(e, dev)
    ensures InOrder(Apply(w, known, e), dev, base)
  {
    var row := w.devices[dev];
    match e
    case Bind(_, _, _) =>
    case Start(who, now) => OtherStarts(w, dev, base, who, now);
    case Pause(_) =>
    case Resume(_) =>
    case Stop(who) => OtherStops(w, dev, base, who);
    case Visit(who, r, now) => OtherVisit(w, known, dev, base, who, r, now);
    case LateVisit(who, copy, r, now) =>
      OtherVisits(w.trail, dev, base, row.currentStep, row.subStep, who, copy, FlowOf(w, copy.rpaId), known, r);
    case EditFlow(_, _) =>
  }

  lemma OtherStops(w: World, dev: int, base: nat, who: int)
    requires InOrder(w, dev, base) && who != dev
    ensures InOrder(DoStop(w, who), dev, base)
  {
    var row := w.devices[dev];
    OtherHistory(w.trail, dev, base, row.currentStep, row.subStep, who, ExecCancelled, "stopped by the user");
  }

  lemma OtherVisit(w: World, known: set<string>, dev: int, base: nat, who: int, r: StepResult, now: int)
    requires InOrder(w, dev, base) && who != dev
    ensures InOrder(Apply(w, known, Visit(who, r, now)), dev, base)
  {
    var row := w.devices[dev];
    if who in w.devices && w.devices[who].status == StatusRunning {
      OtherVisits(w.trail, dev, base, row.currentStep, row.subStep, who, w.devices[who],
                  FlowOf(w, w.devices[who].rpaId), known, r);
    }
  }

  lemma {:induction false} RunInOrder(w: World, known: set<string>, dev: int, base: nat, es: seq<Event>)
    requires InOrder(w, dev, base) && DisciplinedRun(w, known, dev, es)
    ensures InOrder(Run(w, known, es), dev, base)
  {
    if es != [] {
      var before, last := es[..|es| - 1], es[|es| - 1];
      assert forall k :: 0 <= k < |before| ==> before[..k] == es[..k] && before[k] == es[k];
      RunInOrder(w, known, dev, base, before);
      assert Disciplined(Run(w, known, es[..|es| - 1]), dev, es[|es| - 1]);
      if Concerns(last, dev) {
        OwnEvent(Run(w, known, before), known, dev, base, last);
      } else {
        OtherEvent(Run(w, known, before), known, dev, base, last);
      }
    }
  }

  lemma ApplyWired(w: World, known: set<string>, e: Event)
    requires Wired(w.trail)
    ensures Wired(Apply(w, known, e).trail)
  {
    match e
    case Bind(_, _, _) =>
    case Start(who, _) =>
      CancelWired(w.trail, who);
      CancelTracked(w.trail, who);
      if OpensHistory(w, who) {
        OpenWired(CancelRunning(w.trail, who), who, w.devices[who].rpaId, |w.flows[w.devices[who].rpaId].steps|);
      }
    case Pause(_) =>
    case Resume(_) =>
    case Stop(who) => CloseWired(w.trail, who, ExecCancelled, "stopped by the user");
    case Visit(who, r, _) =>
      if who in w.devices && w.devices[who].status == StatusRunning {
        VisitWired(w.trail, who, w.devices[who], FlowOf(w, w.devices[who].rpaId), known, r);
      }
    case LateVisit(who, copy, r, _) => VisitWired(w.trail, who, copy, FlowOf(w, copy.rpaId), known, r);
    case EditFlow(_, _) =>
  }

  lemma VisitWired(t: Trail, who: int, row: DeviceRow, flow: Option<Flow>, known: set<string>, r: StepResult)
    requires Wired(t)
    ensures Wired(VisitTrail(t, who, row, flow, known, r))
  {
    if flow.Some? && |flow.value.steps| > 0 {
      if row.currentStep >= |flow.value.steps| {
        CloseWired(t, who, ExecSuccess, "");
        CloseTracked(t, who, ExecSuccess, "");
        OpenWired(CloseHistory(t, who, ExecSuccess, ""), who, row.rpaId, |flow.value.steps|);
      } else {
        OpenRecordWired(t, who, row.currentStep);
        var begun := if row.subStep == 0 then OpenRecord(t, who, row.currentStep) else t;
        CloseRecordWired(begun, who, row.currentStep, ExecSuccess, "");
        CloseRecordWired(begun, who, row.currentStep, ExecFailed, r.error);
        CloseWired(CloseRecord(begun, who, row.currentStep, ExecFailed, r.error), who, ExecFailed, r.error);
      }
    }
  }

  lemma {:induction false} RunWired(known: set<string>, es: seq<Event>)
    ensures Wired(Run(EMPTY_WORLD, known, es).trail)
  {
    if es != [] {
      RunWired(known, es[..|es| - 1]);
      ApplyWired(Run(EMPTY_WORLD, known, es[..|es| - 1]), known, es[|es| - 1]);
    }
  }

  /** Step accounting. After any run, start a device; then, in every disciplined run,
      every history the engine closes for it (backward jumps, loops and restarts
      included) has only finished records, counters that add up to their number,
      at most one failure, and none if the history succeeded. */
  lemma {:induction false} ClosedHistoriesAddUp(known: set<string>, past: seq<Event>, dev: int, now: int,
                                                es: seq<Event>, i: nat)
    requires var w := Run(EMPTY_WORLD, known, past);
             && OpensHistory(w, dev)
             && DisciplinedRun(DoStart(w, dev, now), known, dev, es)
    requires var w := Run(EMPTY_WORLD, known, past);
             var hs := Run(DoStart(w, dev, now), known, es).trail.histories;
             |w.trail.histories| <= i < |hs| && hs[i].deviceId == dev && Closed(hs[i])
    ensures Accounted(Run(DoStart(Run(EMPTY_WORLD, known, past), dev, now), known, es).trail, i)
  {
    var w := Run(EMPTY_WORLD, known, past);
    RunWired(known, past);
    StartInOrder(w, dev, |w.trail.histories|, now);
    RunInOrder(DoStart(w, dev, now), known, dev, |w.trail.histories|, es);
  }
}
