/** The rows the RPA engine works on, and what each operation does to them.
    Device rows and the execution trail (histories, step records and the two
    in-memory maps that point into them) are described separately: an operation
    is a pair of a row transition and a trail transition. */
module RpaModel {
  import opened Prelude
  import opened Values

  // ---- Rows ----

  datatype DeviceStatus = StatusIdle | StatusRunning | StatusPaused | StatusError | StatusCompleted

  datatype RunMode = ModeSingle | ModeLoop

  datatype DeviceRow = DeviceRow(
    rpaId: nat,
    status: DeviceStatus,
    mode: RunMode,
    currentStep: nat,
    subStep: int,
    stepContext: Vars,
    flowVariables: Vars,
    loopCount: int,
    successCount: int,
    failCount: int,
    totalTime: int,
    loopStartAt: Option<int>,
    lastError: string)

  datatype StepDef = StepDef(kind: string, params: Option<Vars>)

  datatype Flow = Flow(steps: seq<StepDef>)

  datatype ExecStatus = ExecRunning | ExecSuccess | ExecFailed | ExecCancelled

  datatype History = History(
    deviceId: int,
    rpaId: nat,
    status: ExecStatus,
    totalSteps: nat,
    currentStep: nat,
    successSteps: nat,
    failedSteps: nat,
    errorMessage: string)

  datatype StepRecord = StepRecord(
    historyId: nat,
    deviceId: int,
    stepIndex: nat,
    status: ExecStatus,
    errorMessage: string)

  /** What a step executor hands back to the engine. */
  datatype StepResult = StepResult(
    completed: bool,
    success: bool,
    error: string,
    nextSub: int,
    context: Option<Vars>,
    output: Vars)

  // ---- Device row transitions (repository.go) ----

  /** Times are in nanoseconds; TotalTime is kept in seconds. */
  const SECOND: int := 1_000_000_000

  /** Whole seconds between two instants, truncated toward zero. */
  function Elapsed(since: int, now: int): int {
    if now >= since then (now - since) / SECOND else -((since - now) / SECOND)
  }

  const NEW_ROW := DeviceRow(0, StatusIdle, ModeSingle, 0, 0, map[], map[], 0, 0, 0, 0, None, "")

  function BindRow(row: DeviceRow, rpaId: nat, mode: RunMode): DeviceRow {
    row.(rpaId := rpaId, mode := mode, status := StatusIdle, currentStep := 0, subStep := 0,
    stepContext := map[], loopCount := 0, totalTime := 0, loopStartAt := None, lastError := "")
  }

  function StartRow(row: DeviceRow, dev: int, now: int): DeviceRow {
    row.(status := StatusRunning, loopStartAt := Some(now), currentStep := 0, subStep := 0,
    stepContext := map[], flowVariables := map["deviceId" := Int(dev)], lastError := "")
  }

  function StopRow(row: DeviceRow): DeviceRow {
    row.(status := StatusIdle, currentStep := 0, subStep := 0, stepContext := map[])
  }

  function ProgressRow(row: DeviceRow, step: nat, sub: int, context: Vars): DeviceRow {
    row.(currentStep := step, subStep := sub, stepContext := context)
  }

  function AddElapsed(row: DeviceRow, now: int): int {
    match row.loopStartAt
    case None => row.totalTime
    case Some(since) => row.totalTime + Elapsed(since, now)
  }

  function ErrorRow(row: DeviceRow, message: string, now: int): DeviceRow {
    row.(status := StatusError, lastError := message, failCount := row.failCount + 1,
    totalTime := AddElapsed(row, now))
  }

  function CompletedRow(row: DeviceRow, now: int): DeviceRow {
    row.(status := StatusCompleted, successCount := row.successCount + 1, totalTime := AddElapsed(row, now))
  }

  function LoopRow(row: DeviceRow, now: int): DeviceRow {
    row.(loopCount := row.loopCount + 1, totalTime := AddElapsed(row, now), loopStartAt := Some(now))
  }

  function MergeRow(row: DeviceRow, vars: Vars): DeviceRow {
    row.(flowVariables := row.flowVariables + vars)
  }

  // ---- Control instructions in a step's output (engine.go) ----

  const CONTROL_KEYS: set<string> := {"skipNext", "jumpToStep", "stopFlow", "stopSuccess"}

  function StopsSuccessfully(output: Vars): bool {
    Lookup(output, "stopFlow") == Bool(true) && Lookup(output, "stopSuccess") == Bool(true)
  }

  /** A jump target counts only when it names a step of the flow. */
  function JumpTarget(output: Vars, n: nat): Option<nat> {
    match Lookup(output, "jumpToStep")
    case Int(j) => if 0 <= j < n then Some(j) else None
    case Float(r) => if 0 <= Truncate(r) < n then Some(Truncate(r)) else None
    case _ => None
  }

  /** Skipping takes precedence over jumping, which takes precedence over advancing. */
  function NextStep(current: nat, output: Vars, n: nat): nat {
    if Lookup(output, "skipNext") == Bool(true) then current + 2
    else match JumpTarget(output, n)
      case Some(j) => j
      case None => current + 1
  }

  // ---- One visit of the engine to a running device ----

  const NO_FLOW := "RPA flow does not exist"

  function UnknownKind(kind: string): string {
    "unknown step type: " + kind
  }

  /** Does a visit with this row reach a step executor? */
  predicate Executes(row: DeviceRow, flow: Option<Flow>, known: set<string>) {
    flow.Some? && row.currentStep < |flow.value.steps| && flow.value.steps[row.currentStep].kind in known
  }

  /** What a visit does to the stored row when it acts on a copy of it: the copy decides
      which step is meant, the stored row is what gets updated. */
  function VisitRowFrom(row: DeviceRow, copy: DeviceRow, flow: Option<Flow>, known: set<string>,
                        r: StepResult, now: int): DeviceRow
  {
    if flow.None? then ErrorRow(row, NO_FLOW, now)
    else
      var n := |flow.value.steps|;
      if n == 0 then CompletedRow(row, now)
      else if copy.currentStep >= n then
        if copy.mode == ModeLoop then ProgressRow(LoopRow(row, now), 0, 0, map[])
        else CompletedRow(row, now)
      else if flow.value.steps[copy.currentStep].kind !in known then
        ErrorRow(row, UnknownKind(flow.value.steps[copy.currentStep].kind), now)
      else if r.completed && r.success then
        var saved := MergeRow(row, r.output - CONTROL_KEYS);
        if StopsSuccessfully(r.output) then CompletedRow(saved, now)
        else ProgressRow(saved, NextStep(copy.currentStep, r.output, n), 0, map[])
      else if r.completed then ErrorRow(row, r.error, now)
      else ProgressRow(row, copy.currentStep, r.nextSub,
                       if r.context.Some? then r.context.value else copy.stepContext)
  }

  /** A visit whose copy is the stored row. */
  function VisitRow(row: DeviceRow, flow: Option<Flow>, known: set<string>, r: StepResult, now: int): DeviceRow {
    VisitRowFrom(row, row, flow, known, r, now)
  }

  // ---- The execution trail ----

  /** Row ids are positions in the two sequences; `current` maps a device to its
      history and `pending` maps a device and step index to a step record. */
  datatype Trail = Trail(
    histories: seq<History>,
    records: seq<StepRecord>,
    current: map<int, nat>,
    pending: map<(int, nat), nat>)

  const EMPTY_TRAIL := Trail([], [], map[], map[])

  function Cancel(h: History, dev: int): History {
    if h.deviceId == dev && h.status == ExecRunning then h.(status := ExecCancelled) else h
  }

  function CancelAll(hs: seq<History>, dev: int): (r: seq<History>)
    ensures |r| == |hs|
    ensures forall i :: 0 <= i < |hs| ==> r[i] == Cancel(hs[i], dev)
  {
    seq(|hs|, i requires 0 <= i < |hs| => Cancel(hs[i], dev))
  }

  function CancelRunning(t: Trail, dev: int): Trail {
    t.(histories := CancelAll(t.histories, dev))
  }

  function OpenHistory(t: Trail, dev: int, rpaId: nat, total: nat): Trail {
    t.(histories := t.histories + [History(dev, rpaId, ExecRunning, total, 0, 0, 0, "")],
    current := t.current[dev := |t.histories|])
  }

  /** Number of records of history h in the given status. */
  function CountRecords(records: seq<StepRecord>, h: nat, status: ExecStatus): nat {
    if records == [] then 0
    else
      var last := records[|records| - 1];
      CountRecords(records[..|records| - 1], h, status)
      + if last.historyId == h && last.status == status then 1 else 0
  }

  function CloseHistory(t: Trail, dev: int, status: ExecStatus, message: string): Trail {
    if dev !in t.current then t
    else
      var h := t.current[dev];
      var hs := if h < |t.histories| then
                  t.histories[h := t.histories[h].(status := status,
                    successSteps := CountRecords(t.records, h, ExecSuccess),
                    failedSteps := CountRecords(t.records, h, ExecFailed),
                    errorMessage := message)]
                else t.histories;
      t.(histories := hs, current := t.current - {dev})
  }

  function OpenRecord(t: Trail, dev: int, step: nat): Trail {
    if dev !in t.current then t
    else
      t.(records := t.records + [StepRecord(t.current[dev], dev, step, ExecRunning, "")],
      pending := t.pending[(dev, step) := |t.records|])
  }

  function CloseRecord(t: Trail, dev: int, step: nat, status: ExecStatus, message: string): Trail {
    if (dev, step) !in t.pending then t
    else
      var s := t.pending[(dev, step)];
      var rs := if s < |t.records| then
                  t.records[s := t.records[s].(status := status, errorMessage := message)]
                else t.records;
      var hs := if dev in t.current && t.current[dev] < |t.histories| then
                  t.histories[t.current[dev] := t.histories[t.current[dev]].(currentStep := step)]
                else t.histories;
      t.(records := rs, pending := t.pending - {(dev, step)}, histories := hs)
  }

  /** Running past the last step ends the history; loop mode opens the next one. */
  function EndTrail(t: Trail, dev: int, row: DeviceRow, total: nat): Trail {
    var closed := CloseHistory(t, dev, ExecSuccess, "");
    if row.mode == ModeLoop then OpenHistory(closed, dev, row.rpaId, total) else closed
  }

  /** An executed step opens its record on its first sub-step and closes it when it is done. */
  function StepTrail(t: Trail, dev: int, row: DeviceRow, r: StepResult): Trail {
    var begun := if row.subStep == 0 then OpenRecord(t, dev, row.currentStep) else t;
    if r.completed && r.success then CloseRecord(begun, dev, row.currentStep, ExecSuccess, "")
    else if r.completed then
      CloseHistory(CloseRecord(begun, dev, row.currentStep, ExecFailed, r.error), dev, ExecFailed, r.error)
    else begun
  }

  function VisitTrail(t: Trail, dev: int, row: DeviceRow, flow: Option<Flow>, known: set<string>,
                      r: StepResult): Trail {
    if flow.None? || |flow.value.steps| == 0 then t
    else if row.currentStep >= |flow.value.steps| then EndTrail(t, dev, row, |flow.value.steps|)
    else if Executes(row, flow, known) then StepTrail(t, dev, row, r)
    else t
  }

  // ---- The whole system and its runs ----

  datatype World = World(devices: map<int, DeviceRow>, flows: map<nat, Flow>, trail: Trail)

  const EMPTY_WORLD := World(map[], map[], EMPTY_TRAIL)

  datatype Event =
    | Bind(dev: int, rpaId: nat, mode: RunMode)
    | Start(dev: int, now: int)
    | Pause(dev: int)
    | Resume(dev: int)
    | Stop(dev: int)
    | Visit(dev: int, r: StepResult, now: int)
    | LateVisit(dev: int, copy: DeviceRow, r: StepResult, now: int)
    | EditFlow(id: nat, flow: Option<Flow>)

  function FlowOf(w: World, id: nat): Option<Flow> {
    if id in w.flows then Some(w.flows[id]) else None
  }

  /** The device an event is about, if any. */
  predicate Concerns(e: Event, dev: int) {
    !e.EditFlow? && e.dev == dev
  }

  /** The copy a tick took is the device's row, except that the device may have been paused
      or resumed since. */
  predicate UpToDate(w: World, dev: int, copy: DeviceRow) {
    && dev in w.devices
    && w.devices[dev].status in {StatusRunning, StatusPaused}
    && copy == w.devices[dev].(status := copy.status)
  }

  function DoBind(w: World, dev: int, rpaId: nat, mode: RunMode): World {
    var row := if dev in w.devices then w.devices[dev] else NEW_ROW;
    w.(devices := w.devices[dev := BindRow(row, rpaId, mode)])
  }

  function DoStart(w: World, dev: int, now: int): World {
    var t := CancelRunning(w.trail, dev);
    if dev !in w.devices then w.(trail := t)
    else
      var row := w.devices[dev];
      var started := w.(devices := w.devices[dev := StartRow(row, dev, now)], trail := t);
      if row.rpaId > 0 && row.rpaId in w.flows then
        started.(trail := OpenHistory(t, dev, row.rpaId, |w.flows[row.rpaId].steps|))
      else started
  }

  function SetStatus(w: World, dev: int, status: DeviceStatus): World {
    if dev !in w.devices then w else w.(devices := w.devices[dev := w.devices[dev].(status := status)])
  }

  function DoStop(w: World, dev: int): World {
    var closed := w.(trail := CloseHistory(w.trail, dev, ExecCancelled, "stopped by the user"));
    if dev !in w.devices then closed
    else closed.(devices := w.devices[dev := StopRow(w.devices[dev])])
  }

  function VisitDevices(devices: map<int, DeviceRow>, dev: int, copy: DeviceRow, flow: Option<Flow>,
                        known: set<string>, r: StepResult, now: int): map<int, DeviceRow>
  {
    if dev in devices then devices[dev := VisitRowFrom(devices[dev], copy, flow, known, r, now)] else devices
  }

  /** A visit that acts on a row copy, which handlers may have overtaken. */
  function DoLateVisit(w: World, known: set<string>, dev: int, copy: DeviceRow, r: StepResult, now: int): World {
    var flow := FlowOf(w, copy.rpaId);
    w.(devices := VisitDevices(w.devices, dev, copy, flow, known, r, now),
    trail := VisitTrail(w.trail, dev, copy, flow, known, r))
  }

  /** A visit with the row as it is happens only to devices whose row is running. */
  function DoVisit(w: World, known: set<string>, dev: int, r: StepResult, now: int): World {
    if dev !in w.devices || w.devices[dev].status != StatusRunning then w
    else DoLateVisit(w, known, dev, w.devices[dev], r, now)
  }

  function DoEdit(w: World, id: nat, flow: Option<Flow>): World {
    w.(flows := if flow.Some? then w.flows[id := flow.value] else w.flows - {id})
  }

  function Apply(w: World, known: set<string>, e: Event): World {
    match e
    case Bind(dev, rpaId, mode) => DoBind(w, dev, rpaId, mode)
    case Start(dev, now) => DoStart(w, dev, now)
    case Pause(dev) => SetStatus(w, dev, StatusPaused)
    case Resume(dev) => SetStatus(w, dev, StatusRunning)
    case Stop(dev) => DoStop(w, dev)
    case Visit(dev, r, now) => DoVisit(w, known, dev, r, now)
    case LateVisit(dev, copy, r, now) => DoLateVisit(w, known, dev, copy, r, now)
    case EditFlow(id, flow) => DoEdit(w, id, flow)
  }

  function Run(w: World, known: set<string>, es: seq<Event>): World
    decreases |es|
  {
    if es == [] then w else Apply(Run(w, known, es[..|es| - 1]), known, es[|es| - 1])
  }
}
