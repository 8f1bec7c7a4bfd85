/** What the engine hands to an executor and what becomes of its answers, visit by visit,
    through the engine as the program runs it. */
module RpaDataflow {
  import opened Prelude
  import opened Values
  import opened Template
  import opened RpaModel
  import opened RpaEngine
  import opened StepMachines
  import opened RpaPlatform

  /** The row is at a step of its flow whose kind has an executor. */
  predicate AtStep(row: DeviceRow, flows: map<nat, Flow>, known: set<string>) {
    && row.rpaId in flows && row.currentStep < |flows[row.rpaId].steps|
    && flows[row.rpaId].steps[row.currentStep].kind in known
  }

  function StepOf(row: DeviceRow, flows: map<nat, Flow>): StepDef
    requires row.rpaId in flows && row.currentStep < |flows[row.rpaId].steps|
  {
    flows[row.rpaId].steps[row.currentStep]
  }

  /** A visit of the engine to a device at a step, acting on its row as it is. */
  method VisitStep(engine: Engine, dev: int, exec: Executor, render: Render, now: int)
    requires dev in engine.db.devices && AtStep(engine.db.devices[dev], engine.db.flows, engine.known)
    modifies engine`historyMap, engine`stepMap, engine.db`devices, engine.db`histories, engine.db`records
    ensures dev in engine.db.devices
    ensures var row := old(engine.db.devices[dev]);
            var step := StepOf(row, engine.db.flows);
            engine.db.devices[dev] ==
              VisitRow(row, Some(engine.db.flows[row.rpaId]), engine.known,
                       exec(step.kind, dev, ResolveParams(step.params, row.flowVariables, dev, render), row.subStep,
                            row.stepContext), now)
  {
    ghost var r := engine.ProcessDevice(dev, engine.db.devices[dev], exec, render, now);
  }

  // ---- Successive visits ----

  /** A kind of step as a step machine: which one depends on kind, device and parameters. */
  type Machinery = (string, int, Option<Vars>) -> Execute

  /** The executor of one visit: it does what the machine does with the sub-step and context it
      is handed. */
  function Following(job: Machinery, t: Tick): Executor {
    (kind, dev, params, sub, ctx) => job(kind, dev, params)(sub, ctx, t)
  }

  /** What a finished step has made of the device row. */
  predicate Finished(row: DeviceRow, row': DeviceRow, r: StepResult, n: nat) {
    && (!r.success ==> row'.status == StatusError && row'.lastError == r.error
                       && row'.currentStep == row.currentStep)
    && (r.success && !StopsSuccessfully(r.output) ==>
          && row'.status == row.status && row'.currentStep == NextStep(row.currentStep, r.output, n)
          && row'.subStep == 0 && row'.stepContext == map[]
          && row'.flowVariables == row.flowVariables + (r.output - CONTROL_KEYS))
  }

  /** A visit moves the row, where it differs from the row at the beginning of the step only in
      sub-step and context, as the machine moves. */
  lemma FollowingStep(row: DeviceRow, row': DeviceRow, flow: Flow, known: set<string>, machine: Execute, t: Tick,
                      now: int)
    requires Executes(row, Some(flow), known) && row' == row.(subStep := row'.subStep, stepContext := row'.stepContext)
    ensures var r := machine(row'.subStep, row'.stepContext, t);
            match Move(machine, Machine.At(row'.subStep, row'.stepContext), t)
            case At(sub, ctx) =>
              VisitRow(row', Some(flow), known, r, now) == row.(subStep := sub, stepContext := ctx)
            case Done(result) =>
              result == r && Finished(row, VisitRow(row', Some(flow), known, r, now), r, |flow.steps|)
  {
    VisitMovesTheMachine(row', flow, known, machine, t, now);
  }

  /** Visits of one device at the beginning of a step, until the step is done or the ticks are
      used up. The row follows the machine: each visit hands it the sub-step and context that
      the last one left, and only those change until the step is done. */
  method VisitUntilDone(engine: Engine, dev: int, job: Machinery, render: Render, ticks: seq<Tick>, nows: seq<int>)
    returns (n: nat)
    requires |nows| == |ticks| && dev in engine.db.devices
    requires AtStep(engine.db.devices[dev], engine.db.flows, engine.known)
    requires engine.db.devices[dev].subStep == 0 && engine.db.devices[dev].stepContext == map[]
    modifies engine`historyMap, engine`stepMap, engine.db`devices, engine.db`histories, engine.db`records
    ensures n <= |ticks| && dev in engine.db.devices
    ensures var row, step := old(engine.db.devices[dev]), StepOf(old(engine.db.devices[dev]), engine.db.flows);
            var machine := job(step.kind, dev, ResolveParams(step.params, row.flowVariables, dev, render));
            && (forall k :: 0 <= k < n ==> Drive(machine, ticks[..k]).At?)
            && match Drive(machine, ticks[..n])
               case At(sub, ctx) =>
                 n == |ticks| && engine.db.devices[dev] == row.(subStep := sub, stepContext := ctx)
               case Done(r) => Finished(row, engine.db.devices[dev], r, |engine.db.flows[row.rpaId].steps|)
  {
    var row := engine.db.devices[dev];
    var step := StepOf(row, engine.db.flows);
    var machine := job(step.kind, dev, ResolveParams(step.params, row.flowVariables, dev, render));
    var m := Machine.At(0, map[]);
    n := 0;
    while n < |ticks|
      invariant n <= |ticks| && dev in engine.db.devices
      invariant m.At? && m == Drive(machine, ticks[..n])
      invariant forall k :: 0 <= k < n ==> Drive(machine, ticks[..k]).At?
      invariant engine.db.devices[dev] == row.(subStep := m.sub, stepContext := m.ctx)
    {
      ghost var now := engine.db.devices[dev];
      VisitStep(engine, dev, Following(job, ticks[n]), render, nows[n]);
      FollowingStep(row, now, engine.db.flows[row.rpaId], engine.known, machine, ticks[n], nows[n]);
      assert ticks[..n + 1][..n] == ticks[..n];
      m := Move(machine, m, ticks[n]);
      n := n + 1;
      if m.Done? {
        return;
      }
    }
  }

  /** Each of the two waiting executors, visited by the engine in later and later seconds, is done
      within 602 visits, whatever the platform answers: the device is then in error, or one step
      on with the step's output among its variables. */
  method JobRuns(engine: Engine, dev: int, job: Job, render: Render, ticks: seq<Tick>, nows: seq<int>)
    returns (n: nat)
    requires |nows| == |ticks| >= PATIENCE && Advancing(ticks) && dev in engine.db.devices
    requires AtStep(engine.db.devices[dev], engine.db.flows, engine.known)
    requires engine.db.devices[dev].subStep == 0 && engine.db.devices[dev].stepContext == map[]
    requires engine.db.devices[dev].status == StatusRunning
    modifies engine`historyMap, engine`stepMap, engine.db`devices, engine.db`histories, engine.db`records
    ensures n <= PATIENCE && dev in engine.db.devices
    ensures var row, row' := old(engine.db.devices[dev]), engine.db.devices[dev];
            || (row'.status == StatusError && row'.currentStep == row.currentStep)
            || (row'.status == StatusRunning && row'.currentStep == row.currentStep + 1
                && row'.subStep == 0 && row'.stepContext == map[]
                && Lookup(row'.flowVariables, "deviceId") == Int(dev)
                && Lookup(row'.flowVariables, if job.ChangeJob? then "online" else "downloaded") == Bool(true))
  {
    var row := engine.db.devices[dev];
    var some := ticks[..PATIENCE];
    n := VisitUntilDone(engine, dev, (_, d, _) => ExecOf(d, job), render, some, nows[..PATIENCE]);
    if Drive(ExecOf(dev, job), some[..n]).At? {
      assert some[..n] == some;
      JobsFinish(dev, job, some);
    } else {
      JobsDeliver(dev, job, some[..n], row.currentStep, |engine.db.flows[row.rpaId].steps|);
    }
  }

  /** What a successful job leaves among the variables. */
  lemma {:induction false} JobsDeliver(dev: int, job: Job, ticks: seq<Tick>, current: nat, n: nat)
    requires Drive(ExecOf(dev, job), ticks).Done?
    ensures var r := Drive(ExecOf(dev, job), ticks).result;
            && !StopsSuccessfully(r.output) && NextStep(current, r.output, n) == current + 1
            && (r.success ==>
                  && Lookup(r.output - CONTROL_KEYS, "deviceId") == Int(dev)
                  && Lookup(r.output - CONTROL_KEYS, if job.ChangeJob? then "online" else "downloaded") == Bool(true))
    decreases |ticks|
  {
    if ticks != [] {
      var before := ticks[..|ticks| - 1];
      if Drive(ExecOf(dev, job), before).Done? {
        JobsDeliver(dev, job, before, current, n);
      } else {
        var m := Drive(ExecOf(dev, job), before);
        JobsAdvance(dev, job, m.sub, m.ctx, ticks[|ticks| - 1], current, n);
        JobDelivers(dev, job, m.sub, m.ctx, ticks[|ticks| - 1]);
      }
    }
  }

  lemma JobDelivers(dev: int, job: Job, sub: int, ctx: Vars, t: Tick)
    ensures var r := ExecOf(dev, job)(sub, ctx, t);
            r.completed && r.success ==>
              && Lookup(r.output - CONTROL_KEYS, "deviceId") == Int(dev)
              && Lookup(r.output - CONTROL_KEYS, if job.ChangeJob? then "online" else "downloaded") == Bool(true)
  {
  }

  // ---- Parameters and variables ----

  /** An executor that keeps in its context all that it was handed, with one of the parameters. */
  function Observing(key: string): Executor {
    (kind, dev, params: Option<Vars>, sub, ctx) =>
      Wait(1, map["kind" := Str(kind), "device" := Int(dev), "sub" := Int(sub), "context" := Obj(ctx),
          "param" := if params.Some? then Lookup(params.value, key) else Nil])
  }

  /** The step has a string parameter under the key. */
  predicate HasParam(step: StepDef, key: string, s: string) {
    step.params.Some? && key in step.params.value && step.params.value[key] == Str(s)
  }

  /** The variable a name stands for in the parameters of a device's step. */
  function Variable(name: string, row: DeviceRow, dev: int): Value {
    if name == "deviceId" then Int(dev) else Lookup(row.flowVariables, name)
  }

  /** What the executor of the row's step has seen, in the row the visit leaves behind. */
  predicate Saw(row: DeviceRow, row': DeviceRow, step: StepDef, dev: int, param: Value) {
    row' == row.(subStep := 1, stepContext := map["kind" := Str(step.kind), "device" := Int(dev),
      "sub" := Int(row.subStep), "context" := Obj(row.stepContext), "param" := param])
  }

  /** An executor is handed the kind of the step, the device, the sub-step and context of the row,
      and for a parameter that is one reference the variable itself: the device's own id under
      deviceId, the row's variable under any other plain name. */
  method VariableArrives(engine: Engine, dev: int, key: string, name: string, render: Render, now: int)
    requires dev in engine.db.devices && AtStep(engine.db.devices[dev], engine.db.flows, engine.known)
    requires HasParam(StepOf(engine.db.devices[dev], engine.db.flows), key, "{{" + name + "}}")
    requires name != "" && '}' !in name && '.' !in name && Trim(name, Space) == name
    modifies engine`historyMap, engine`stepMap, engine.db`devices, engine.db`histories, engine.db`records
    ensures dev in engine.db.devices
    ensures var row := old(engine.db.devices[dev]);
            Saw(row, engine.db.devices[dev], StepOf(row, engine.db.flows), dev, Variable(name, row, dev))
  {
    var row := engine.db.devices[dev];
    VisitStep(engine, dev, Observing(key), render, now);
    ghost var all := row.flowVariables["deviceId" := Int(dev)];
    WholeReferenceKeepsItsType(name, all, render);
    PlainNameIsLookedUp(name, all);
    assert Lookup(all, name) == Variable(name, row, dev);
  }

  /** Inside a longer text the variable arrives printed, between the text around it. */
  method TextArrives(engine: Engine, dev: int, key: string, before: string, name: string, after: string,
                     render: Render, now: int)
    requires dev in engine.db.devices && AtStep(engine.db.devices[dev], engine.db.flows, engine.known)
    requires HasParam(StepOf(engine.db.devices[dev], engine.db.flows), key, before + ("{{" + name + "}}" + after))
    requires Clean(name) && '.' !in name && Trim(name, Space) == name && before + after != ""
    requires NoReference(Str(before)) && Shut(before) && NoReference(Str(after))
    requires Variable(name, engine.db.devices[dev], dev) != Nil
    modifies engine`historyMap, engine`stepMap, engine.db`devices, engine.db`histories, engine.db`records
    ensures dev in engine.db.devices
    ensures var row := old(engine.db.devices[dev]);
            Saw(row, engine.db.devices[dev], StepOf(row, engine.db.flows), dev,
                Str(before + render(Variable(name, row, dev)) + after))
  {
    var row := engine.db.devices[dev];
    VisitStep(engine, dev, Observing(key), render, now);
    ghost var all := row.flowVariables["deviceId" := Int(dev)];
    PlainNameIsLookedUp(name, all);
    assert Lookup(all, name) == Variable(name, row, dev);
    OneReference(before, name, after, all, render);
  }

  lemma OneReference(before: string, name: string, after: string, vars: Vars, render: Render)
    requires Clean(name) && GetVar(name, vars) != Nil && before + after != ""
    requires NoReference(Str(before)) && Shut(before) && NoReference(Str(after))
    ensures ResolveString(before + ("{{" + name + "}}" + after), vars, render)
         == Str(before + render(GetVar(name, vars)) + after)
  {
    var ps := [Piece(before, name)];
    assert ps[1..] == [];
    EveryReferenceIsReplaced(ps, after, vars, render);
    assert Joined(ps, after) == before + ("{{" + name + "}}" + after);
    assert Filled(ps, after, vars, render) == before + render(GetVar(name, vars)) + after;
  }

  /** What one step puts out arrives as a parameter of the step that follows it. */
  method OutputArrives(engine: Engine, dev: int, produced: StepResult, key: string, name: string, render: Render,
                       now: int, later: int)
    requires dev in engine.db.devices && AtStep(engine.db.devices[dev], engine.db.flows, engine.known)
    requires produced.completed && produced.success && !StopsSuccessfully(produced.output)
    requires name in produced.output && name !in CONTROL_KEYS && name != "deviceId"
    requires name != "" && '}' !in name && '.' !in name && Trim(name, Space) == name
    requires var row, steps := engine.db.devices[dev], engine.db.flows[engine.db.devices[dev].rpaId].steps;
             var next := NextStep(row.currentStep, produced.output, |steps|);
             next < |steps| && steps[next].kind in engine.known && HasParam(steps[next], key, "{{" + name + "}}")
    modifies engine`historyMap, engine`stepMap, engine.db`devices, engine.db`histories, engine.db`records
    ensures dev in engine.db.devices
    ensures Lookup(engine.db.devices[dev].stepContext, "param") == produced.output[name]
  {
    VisitStep(engine, dev, (_, _, _, _, _) => produced, render, now);
    VariableArrives(engine, dev, key, name, render, later);
  }
}
