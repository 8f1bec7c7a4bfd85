/** The engine and the device handlers as the program runs them, each proved to
    perform the transition of RpaModel it stands for. */
module RpaEngine {
  import opened Prelude
  import opened Values
  import opened Template
  import opened RpaModel
  import opened RpaRepository

  /** The executors of a tick: kind, device, resolved parameters, sub-step and context. */
  type Executor = (string, int, Option<Vars>, int, Vars) -> StepResult

  const NO_RESULT := StepResult(false, false, "", 0, None, map[])

  /** What the executor of the row's current step answers, if a visit reaches one. */
  function Answer(row: DeviceRow, dev: int, flow: Option<Flow>, known: set<string>, exec: Executor,
                  render: Render): StepResult {
    if Executes(row, flow, known) then
      var step := flow.value.steps[row.currentStep];
      exec(step.kind, dev, ResolveParams(step.params, row.flowVariables, dev, render), row.subStep, row.stepContext)
    else NO_RESULT
  }

  /** The visit a tick pays to a running device whose row it has read. */
  function Planned(w: World, known: set<string>, config: (int, DeviceRow), exec: Executor, render: Render,
                   now: int): Event {
    Visit(config.0, Answer(config.1, config.0, FlowOf(w, config.1.rpaId), known, exec, render), now)
  }

  /** The events that device and flow handlers stand for. */
  predicate Handled(e: Event) {
    !e.Visit? && !e.LateVisit?
  }

  predicate AllHandled(es: seq<Event>) {
    forall k :: 0 <= k < |es| ==> Handled(es[k])
  }

  /** Visits, each after the handlers that ran since the one before. */
  function Among(visits: seq<Event>, handlers: nat -> seq<Event>): seq<Event> {
    if visits == [] then []
    else
      var n := |visits| - 1;
      Among(visits[..n], handlers) + handlers(n) + [visits[n]]
  }

  lemma {:induction false} RunAppend(w: World, known: set<string>, a: seq<Event>, b: seq<Event>)
    ensures Run(w, known, a + b) == Run(Run(w, known, a), known, b)
    decreases |b|
  {
    if b == [] {
      assert a + b == a;
    } else {
      assert (a + b)[..|a + b| - 1] == a + b[..|b| - 1];
      RunAppend(w, known, a, b[..|b| - 1]);
    }
  }

  lemma RunAmong(w: World, known: set<string>, visits: seq<Event>, visit: Event, handlers: nat -> seq<Event>)
    ensures Run(w, known, Among(visits + [visit], handlers))
         == Apply(Run(Run(w, known, Among(visits, handlers)), known, handlers(|visits|)), known, visit)
  {
    var all := visits + [visit];
    assert all[..|visits|] == visits;
    var earlier := Among(visits, handlers) + handlers(|visits|);
    assert (earlier + [visit])[..|earlier|] == earlier;
    RunAppend(w, known, Among(visits, handlers), handlers(|visits|));
  }

  /** The visit a tick pays later, with the row it has read. */
  predicate IsLateVisit(e: Event, config: (int, DeviceRow), now: int) {
    e.LateVisit? && e.dev == config.0 && e.copy == config.1 && e.now == now
  }

  class Engine {
    const db: Database
    const known: set<string>
    var historyMap: map<int, nat>
    var stepMap: map<(int, nat), nat>

    constructor (known: set<string>)
      ensures this.known == known && fresh(db) && World() == EMPTY_WORLD
    {
      this.known := known;
      db := new Database();
      historyMap, stepMap := map[], map[];
    }

    ghost function CurrentTrail(): Trail
      reads this, db
    {
      Trail(db.histories, db.records, historyMap, stepMap)
    }

    ghost function World(): World
      reads this, db
    {
      RpaModel.World(db.devices, db.flows, CurrentTrail())
    }

    // ---- Trail bookkeeping ----

    method StartHistory(dev: int, rpaId: nat, total: nat)
      modifies this`historyMap, db`histories
      ensures CurrentTrail() == OpenHistory(old(CurrentTrail()), dev, rpaId, total)
    {
      var id := db.CreateExecutionHistory(dev, rpaId, total);
      historyMap := historyMap[dev := id];
    }

    method CompleteHistory(dev: int, status: ExecStatus, message: string)
      modifies this`historyMap, db`histories
      ensures CurrentTrail() == CloseHistory(old(CurrentTrail()), dev, status, message)
    {
      if dev !in historyMap {
        return;
      }
      var h := historyMap[dev];
      var steps := db.GetExecutionSteps(h);
      var success, failed := 0, 0;
      for i := 0 to |steps|
        invariant success == CountRecords(steps[..i], h, ExecSuccess)
        invariant failed == CountRecords(steps[..i], h, ExecFailed)
      {
        assert steps[..i + 1][..i] == steps[..i];
        if steps[i].status == ExecSuccess {
          success := success + 1;
        } else if steps[i].status == ExecFailed {
          failed := failed + 1;
        }
      }
      assert steps[..|steps|] == steps;
      CountsOfRecordsOf(db.records, h, ExecSuccess);
      CountsOfRecordsOf(db.records, h, ExecFailed);
      db.CompleteExecution(h, status, success, failed, message);
      historyMap := historyMap - {dev};
    }

    method StartStepRecord(dev: int, step: nat)
      modifies this`stepMap, db`records
      ensures CurrentTrail() == OpenRecord(old(CurrentTrail()), dev, step)
    {
      if dev !in historyMap {
        return;
      }
      var id := db.CreateExecutionStep(historyMap[dev], dev, step);
      stepMap := stepMap[(dev, step) := id];
    }

    method CompleteStepRecord(dev: int, step: nat, status: ExecStatus, message: string)
      modifies this`stepMap, db`records, db`histories
      ensures CurrentTrail() == CloseRecord(old(CurrentTrail()), dev, step, status, message)
    {
      if (dev, step) !in stepMap {
        return;
      }
      db.CompleteExecutionStep(stepMap[(dev, step)], status, message);
      stepMap := stepMap - {(dev, step)};
      if dev in historyMap {
        db.UpdateExecutionProgress(historyMap[dev], step);
      }
    }

    // ---- The engine loop ----

    /** One visit to a device, acting on the row copy `config`, which need not be the row any more. */
    method ProcessDevice(dev: int, config: DeviceRow, exec: Executor, render: Render,
                         now: int) returns (ghost r: StepResult)
      modifies this`historyMap, this`stepMap, db`devices, db`histories, db`records
      ensures r == Answer(config, dev, old(FlowOf(World(), config.rpaId)), known, exec, render)
      ensures World() == DoLateVisit(old(World()), known, dev, config, r, now)
    {
      r := Answer(config, dev, FlowOf(World(), config.rpaId), known, exec, render);
      if config.rpaId !in db.flows {
        db.SetDeviceError(dev, NO_FLOW, now);
        return;
      }
      var flow := db.flows[config.rpaId];
      if |flow.steps| == 0 {
        db.SetDeviceCompleted(dev, now);
        return;
      }
      if config.currentStep >= |flow.steps| {
        HandleFlowComplete(dev, config, flow, now);
        return;
      }
      var step := flow.steps[config.currentStep];
      if step.kind !in known {
        db.SetDeviceError(dev, UnknownKind(step.kind), now);
        return;
      }
      var resolved := ResolveParams(step.params, config.flowVariables, dev, render);
      if config.subStep == 0 {
        StartStepRecord(dev, config.currentStep);
      }
      var result := exec(step.kind, dev, resolved, config.subStep, config.stepContext);
      HandleStepResult(dev, config, flow, result, now);
    }

    method HandleSuccess(dev: int, config: DeviceRow, flow: Flow, result: StepResult, now: int)
      requires result.completed && result.success
      requires config.currentStep < |flow.steps| && flow.steps[config.currentStep].kind in known
      modifies this`stepMap, db`devices, db`histories, db`records
      ensures db.devices == VisitDevices(old(db.devices), dev, config, Some(flow), known, result, now)
      ensures CurrentTrail() == CloseRecord(old(CurrentTrail()), dev, config.currentStep, ExecSuccess, "")
    {
      CompleteStepRecord(dev, config.currentStep, ExecSuccess, "");
      var toSave := result.output - CONTROL_KEYS;
      assert dev in db.devices ==> db.devices[dev].flowVariables + map[] == db.devices[dev].flowVariables;
      if toSave != map[] {
        db.MergeFlowVariables(dev, toSave);
      }
      if Lookup(result.output, "stopFlow") == Bool(true) {
        if Lookup(result.output, "stopSuccess") == Bool(true) {
          db.SetDeviceCompleted(dev, now);
          return;
        }
      }
      var nextStep := ChooseNextStep(config.currentStep, result.output, |flow.steps|);
      db.UpdateDeviceProgress(dev, nextStep, 0, map[]);
    }

    method ChooseNextStep(current: nat, output: Vars, n: nat) returns (nextStep: nat)
      ensures nextStep == NextStep(current, output, n)
    {
      nextStep := current + 1;
      match Lookup(output, "jumpToStep") {
        case Int(j) =>
          if 0 <= j < n {
            nextStep := j;
          }
        case Float(f) =>
          var j := Truncate(f);
          if 0 <= j < n {
            nextStep := j;
          }
        case _ =>
      }
      if Lookup(output, "skipNext") == Bool(true) {
        nextStep := current + 2;
      }
    }

    method HandleStepResult(dev: int, config: DeviceRow, flow: Flow, result: StepResult, now: int)
      requires config.currentStep < |flow.steps| && flow.steps[config.currentStep].kind in known
      modifies this`historyMap, this`stepMap, db`devices, db`histories, db`records
      ensures db.devices == VisitDevices(old(db.devices), dev, config, Some(flow), known, result, now)
      ensures CurrentTrail() ==
              if result.completed && result.success then
                CloseRecord(old(CurrentTrail()), dev, config.currentStep, ExecSuccess, "")
              else if result.completed then
                CloseHistory(CloseRecord(old(CurrentTrail()), dev, config.currentStep, ExecFailed, result.error),
                             dev, ExecFailed, result.error)
              else old(CurrentTrail())
    {
      if result.completed {
        if result.success {
          HandleSuccess(dev, config, flow, result, now);
        } else {
          db.SetDeviceError(dev, result.error, now);
          CompleteStepRecord(dev, config.currentStep, ExecFailed, result.error);
          CompleteHistory(dev, ExecFailed, result.error);
        }
      } else {
        var context := if result.context.Some? then result.context.value else config.stepContext;
        db.UpdateDeviceProgress(dev, config.currentStep, result.nextSub, context);
      }
    }

    method HandleFlowComplete(dev: int, config: DeviceRow, flow: Flow, now: int)
      requires |flow.steps| > 0 && config.currentStep >= |flow.steps|
      modifies this`historyMap, db`devices, db`histories
      ensures db.devices == VisitDevices(old(db.devices), dev, config, Some(flow), known, NO_RESULT, now)
      ensures CurrentTrail() == VisitTrail(old(CurrentTrail()), dev, config, Some(flow), known, NO_RESULT)
    {
      CompleteHistory(dev, ExecSuccess, "");
      if config.mode == ModeLoop {
        db.IncrementLoopCount(dev, now);
        db.UpdateDeviceProgress(dev, 0, 0, map[]);
        StartHistory(dev, config.rpaId, |flow.steps|);
      } else {
        db.SetDeviceCompleted(dev, now);
      }
    }

    /** A tick with no handler in between visits every device that was running when it began,
        each exactly once, and the row copies taken at the beginning are still current. */
    method Tick(exec: Executor, render: Render, now: int) returns (ghost visits: seq<Event>)
      modifies this`historyMap, this`stepMap, db`devices, db`histories, db`records
      ensures World() == Run(old(World()), known, visits)
      ensures forall i :: 0 <= i < |visits| ==>
                && visits[i].Visit? && visits[i].dev in old(db.devices)
                && old(db.devices)[visits[i].dev].status == StatusRunning
                && visits[i] == Planned(old(World()), known, (visits[i].dev, old(db.devices)[visits[i].dev]),
                                        exec, render, now)
      ensures forall i, j :: 0 <= i < j < |visits| ==> visits[i].dev != visits[j].dev
      ensures forall d :: d in old(db.devices) && old(db.devices)[d].status == StatusRunning ==>
                exists i :: 0 <= i < |visits| && visits[i].dev == d
    {
      var configs := db.GetRunningDevices();
      visits := VisitAll(configs, exec, render, now);
      forall d | d in old(db.devices) && old(db.devices)[d].status == StatusRunning
        ensures exists i :: 0 <= i < |visits| && visits[i].dev == d
      {
        var i :| 0 <= i < |configs| && configs[i].0 == d;
        assert visits[i].dev == d;
      }
    }

    /** A tick among handlers: before each visit the handlers that came in meanwhile run. Every
        device running at the beginning is still visited exactly once, with the row copy taken
        at the beginning, and the whole is a run of handler events and late visits. */
    method TickAmongHandlers(exec: Executor, render: Render, now: int, handlers: nat -> seq<Event>)
      returns (ghost visits: seq<Event>)
      requires forall k :: AllHandled(handlers(k))
      modifies this`historyMap, this`stepMap, db`devices, db`flows, db`histories, db`records
      ensures World() == Run(old(World()), known, Among(visits, handlers))
      ensures forall i :: 0 <= i < |visits| ==>
                && visits[i].LateVisit? && visits[i].now == now && visits[i].dev in old(db.devices)
                && visits[i].copy == old(db.devices)[visits[i].dev] && visits[i].copy.status == StatusRunning
      ensures forall i, j :: 0 <= i < j < |visits| ==> visits[i].dev != visits[j].dev
      ensures forall d :: d in old(db.devices) && old(db.devices)[d].status == StatusRunning ==>
                exists i :: 0 <= i < |visits| && visits[i].dev == d
    {
      var configs := db.GetRunningDevices();
      ghost var devices := db.devices;
      visits := VisitAmong(configs, exec, render, now, handlers);
      forall d | d in devices && devices[d].status == StatusRunning
        ensures exists i :: 0 <= i < |visits| && visits[i].dev == d
      {
        var i :| 0 <= i < |configs| && configs[i].0 == d;
        assert visits[i].dev == d;
      }
    }

    method VisitAmong(configs: seq<(int, DeviceRow)>, exec: Executor, render: Render, now: int,
                      handlers: nat -> seq<Event>)
      returns (ghost visits: seq<Event>)
      requires forall k :: AllHandled(handlers(k))
      modifies this`historyMap, this`stepMap, db`devices, db`flows, db`histories, db`records
      ensures |visits| == |configs| && World() == Run(old(World()), known, Among(visits, handlers))
      ensures forall k :: 0 <= k < |configs| ==> IsLateVisit(visits[k], configs[k], now)
    {
      ghost var before := World();
      visits := [];
      for i := 0 to |configs|
        invariant |visits| == i
        invariant forall k :: 0 <= k < i ==> IsLateVisit(visits[k], configs[k], now)
        invariant World() == Run(before, known, Among(visits, handlers))
      {
        PerformAll(handlers(i));
        ghost var r := ProcessDevice(configs[i].0, configs[i].1, exec, render, now);
        ghost var visit := LateVisit(configs[i].0, configs[i].1, r, now);
        RunAmong(before, known, visits, visit, handlers);
        visits := visits + [visit];
      }
    }

    /** Visits devices one after the other; no visit spoils the row copy of a later one. */
    method VisitAll(configs: seq<(int, DeviceRow)>, exec: Executor, render: Render,
                    now: int) returns (ghost visits: seq<Event>)
      requires forall i :: 0 <= i < |configs| ==>
                 && configs[i].0 in db.devices && configs[i].1 == db.devices[configs[i].0]
                 && configs[i].1.status == StatusRunning
      requires forall i, j :: 0 <= i < j < |configs| ==> configs[i].0 != configs[j].0
      modifies this`historyMap, this`stepMap, db`devices, db`histories, db`records
      ensures World() == Run(old(World()), known, visits) && |visits| == |configs|
      ensures forall k :: 0 <= k < |configs| ==>
              visits[k] == Planned(old(World()), known, configs[k], exec, render, now)
    {
      visits := [];
      ghost var before := World();
      for i := 0 to |configs|
        invariant db.flows == old(db.flows)
        invariant |visits| == i
        invariant World() == Run(before, known, visits)
        invariant forall k :: 0 <= k < i ==> visits[k] == Planned(before, known, configs[k], exec, render, now)
        invariant forall k :: i <= k < |configs| ==>
                    configs[k].0 in db.devices && db.devices[configs[k].0] == configs[k].1
      {
        ghost var r := ProcessDevice(configs[i].0, configs[i].1, exec, render, now);
        ghost var visit := Visit(configs[i].0, r, now);
        assert visit == Planned(before, known, configs[i], exec, render, now);
        assert (visits + [visit])[..i] == visits;
        visits := visits + [visit];
      }
    }

    // ---- Handlers ----

    method Perform(e: Event)
      requires Handled(e)
      modifies this`historyMap, db`devices, db`flows, db`histories
      ensures World() == Apply(old(World()), known, e)
    {
      match e
      case Bind(dev, rpaId, mode) => BindDeviceRpa(dev, rpaId, mode);
      case Start(dev, now) => StartDevice(dev, now);
      case Pause(dev) => PauseDevice(dev);
      case Resume(dev) => ResumeDevice(dev);
      case Stop(dev) => StopDevice(dev);
      case EditFlow(id, flow) => SaveFlow(id, flow);
    }

    method PerformAll(es: seq<Event>)
      requires AllHandled(es)
      modifies this`historyMap, db`devices, db`flows, db`histories
      ensures World() == Run(old(World()), known, es)
    {
      for i := 0 to |es|
        invariant World() == Run(old(World()), known, es[..i])
      {
        assert es[..i + 1][..i] == es[..i];
        Perform(es[i]);
      }
      assert es[..|es|] == es;
    }

    method BindDeviceRpa(dev: int, rpaId: nat, mode: RunMode)
      modifies db`devices
      ensures World() == Apply(old(World()), known, Bind(dev, rpaId, mode))
    {
      db.SetDeviceRpa(dev, rpaId, mode);
    }

    method StartDevice(dev: int, now: int)
      modifies this`historyMap, db`devices, db`histories
      ensures World() == Apply(old(World()), known, Start(dev, now))
    {
      db.CancelRunningExecutions(dev);
      db.StartDevice(dev, now);
      if dev in db.devices && db.devices[dev].rpaId > 0 {
        if db.devices[dev].rpaId in db.flows {
          StartHistory(dev, db.devices[dev].rpaId, |db.flows[db.devices[dev].rpaId].steps|);
        }
      }
    }

    method PauseDevice(dev: int)
      modifies db`devices
      ensures World() == Apply(old(World()), known, Pause(dev))
    {
      db.SetDeviceStatus(dev, StatusPaused);
    }

    method ResumeDevice(dev: int)
      modifies db`devices
      ensures World() == Apply(old(World()), known, Resume(dev))
    {
      db.SetDeviceStatus(dev, StatusRunning);
    }

    method StopDevice(dev: int)
      modifies this`historyMap, db`devices, db`histories
      ensures World() == Apply(old(World()), known, Stop(dev))
    {
      CompleteHistory(dev, ExecCancelled, "stopped by the user");
      db.StopDevice(dev);
    }

    method SaveFlow(id: nat, flow: Option<Flow>)
      modifies db`flows
      ensures World() == Apply(old(World()), known, Event.EditFlow(id, flow))
    {
      if flow.Some? {
        db.flows := db.flows[id := flow.value];
      } else {
        db.flows := db.flows - {id};
      }
    }
  }
}
