/** Progress of a device through its flow: where the step pointer can be, and a
    bound on the visits after which a single-mode run is over. */
module RpaProgress {
  import opened Prelude
  import opened Values
  import opened RpaModel
  import opened RpaHistory

  /** No event changes the flow the device is bound to while it is bound to it, and no visit
      acts on a row copy from another binding. */
  predicate FlowFixed(w: World, dev: int, e: Event) {
    && (e.EditFlow? && dev in w.devices ==> e.id != w.devices[dev].rpaId)
    && (e.LateVisit? && e.dev == dev && dev in w.devices ==> e.copy.rpaId == w.devices[dev].rpaId)
  }

  ghost predicate FixedRun(w: World, known: set<string>, dev: int, es: seq<Event>) {
    forall k :: 0 <= k < |es| ==> FlowFixed(Run(w, known, es[..k]), dev, es[k])
  }

  ghost predicate InRange(w: World, dev: int) {
    dev in w.devices && w.devices[dev].rpaId in w.flows ==>
      w.devices[dev].currentStep <= |w.flows[w.devices[dev].rpaId].steps| + 1
  }

  /** In every run that leaves the device's flow alone, its step pointer is at most
      one past the flow's end (the end itself, or one further after a skip). */
  lemma {:induction false} StepPointerInRange(known: set<string>, dev: int, es: seq<Event>)
    requires FixedRun(EMPTY_WORLD, known, dev, es)
    ensures InRange(Run(EMPTY_WORLD, known, es), dev)
  {
    if es != [] {
      var before := es[..|es| - 1];
      assert forall k :: 0 <= k < |before| ==> before[..k] == es[..k] && before[k] == es[k];
      StepPointerInRange(known, dev, before);
      assert FlowFixed(Run(EMPTY_WORLD, known, es[..|es| - 1]), dev, es[|es| - 1]);
      StepInRange(Run(EMPTY_WORLD, known, before), known, dev, es[|es| - 1]);
    }
  }

  lemma StepInRange(w: World, known: set<string>, dev: int, e: Event)
    requires InRange(w, dev) && FlowFixed(w, dev, e)
    ensures InRange(Apply(w, known, e), dev)
  {
    if e.Visit? && e.dev == dev && dev in w.devices && w.devices[dev].rpaId in w.flows {
      NextStepInRange(w.devices[dev].currentStep, e.r.output, |w.flows[w.devices[dev].rpaId].steps|);
    } else if e.LateVisit? && e.dev == dev && e.copy.rpaId in w.flows {
      NextStepInRange(e.copy.currentStep, e.r.output, |w.flows[e.copy.rpaId].steps|);
    }
  }

  /** From inside the flow the pointer moves to a step of the flow or at most one past its end. */
  lemma NextStepInRange(current: nat, output: Vars, n: nat)
    ensures current < n ==> NextStep(current, output, n) <= n + 1
  {
  }

  // ---- Termination ----

  /** A visit of the device as it is that gets as far as a step executor. */
  predicate Reaches(w: World, known: set<string>, dev: int, e: Event) {
    && e.Visit? && e.dev == dev && dev in w.devices && w.devices[dev].status == StatusRunning
    && Executes(w.devices[dev], FlowOf(w, w.devices[dev].rpaId), known)
  }

  function WaitedAfter(waited: nat, w: World, known: set<string>, dev: int, e: Event): nat {
    if !Concerns(e, dev) then waited
    else if Reaches(w, known, dev, e) && !e.r.completed then waited + 1
    else 0
  }

  /** How many times in a row an executor was visited without finishing its step. */
  function Waited(w: World, known: set<string>, dev: int, es: seq<Event>): nat
    decreases |es|
  {
    if es == [] then 0
    else
      var before := es[..|es| - 1];
      WaitedAfter(Waited(w, known, dev, before), Run(w, known, before), known, dev, es[|es| - 1])
  }

  function Visits(dev: int, es: seq<Event>): nat
    decreases |es|
  {
    if es == [] then 0
    else Visits(dev, es[..|es| - 1]) + if Concerns(es[|es| - 1], dev) then 1 else 0
  }

  /** The device is only visited; a step finishes within K visits; jumps go forward. */
  ghost predicate Steady(w: World, known: set<string>, dev: int, e: Event, waited: nat, K: nat) {
    && FlowFixed(w, dev, e)
    && (Concerns(e, dev) ==> e.Visit?)
    && (Reaches(w, known, dev, e) ==>
          && (!e.r.completed ==> waited + 1 < K)
          && (e.r.completed && e.r.success ==>
                NextStep(w.devices[dev].currentStep, e.r.output, |w.flows[w.devices[dev].rpaId].steps|)
                > w.devices[dev].currentStep))
  }

  ghost predicate SteadyRun(w: World, known: set<string>, dev: int, es: seq<Event>, K: nat) {
    forall k :: 0 <= k < |es| ==>
      Steady(Run(w, known, es[..k]), known, dev, es[k], Waited(w, known, dev, es[..k]), K)
  }

  /** Visits the device can still take, counted by the remaining steps and the
      patience already spent on the current one. */
  function Left(row: DeviceRow, n: nat, waited: nat, K: nat): int {
    if row.status != StatusRunning then 0
    else if row.currentStep < n then (n - row.currentStep) * K - waited + 1
    else 1
  }

  /** A single-mode device that is running, completed or in error on an n-step flow. */
  ghost predicate OnCourse(w: World, dev: int, n: nat) {
    && dev in w.devices && w.devices[dev].mode == ModeSingle
    && w.devices[dev].rpaId in w.flows && |w.flows[w.devices[dev].rpaId].steps| == n
    && w.devices[dev].status in {StatusRunning, StatusCompleted, StatusError}
  }

  lemma FewerStepsLeft(n: nat, a: nat, b: nat, K: nat)
    requires a < b
    ensures b < n ==> (n - b) * K <= (n - a) * K - K
    ensures a < n ==> K <= (n - a) * K
  {
    if b < n {
      assert (n - a) * K == (n - b) * K + (b - a) * K;
      assert (b - a) * K >= K;
    }
    if a < n {
      assert (n - a) * K == K + (n - a - 1) * K;
      assert (n - a - 1) * K >= 0;
    }
  }

  /** Every visit to a running device uses up at least one unit of what is left. */
  lemma VisitDescends(row: DeviceRow, flow: Flow, known: set<string>, r: StepResult, now: int, waited: nat, K: nat)
    requires row.mode == ModeSingle && row.status == StatusRunning && waited < K
    requires Executes(row, Some(flow), known) && !r.completed ==> waited + 1 < K
    requires Executes(row, Some(flow), known) && r.completed && r.success ==>
               NextStep(row.currentStep, r.output, |flow.steps|) > row.currentStep
    ensures var row' := VisitRow(row, Some(flow), known, r, now);
            var waited' := if Executes(row, Some(flow), known) && !r.completed then waited + 1 else 0;
            && row'.mode == ModeSingle && row'.rpaId == row.rpaId
            && row'.status in {StatusRunning, StatusCompleted, StatusError}
            && Left(row', |flow.steps|, waited', K) < Left(row, |flow.steps|, waited, K)
  {
    var n := |flow.steps|;
    if Executes(row, Some(flow), known) && r.completed && r.success {
      FewerStepsLeft(n, row.currentStep, NextStep(row.currentStep, r.output, n), K);
    } else {
      FewerStepsLeft(n, row.currentStep, row.currentStep + 1, K);
    }
  }

  lemma StepDescends(w: World, known: set<string>, dev: int, e: Event, n: nat, waited: nat, K: nat)
    requires OnCourse(w, dev, n) && Steady(w, known, dev, e, waited, K) && waited < K
    ensures OnCourse(Apply(w, known, e), dev, n) && WaitedAfter(waited, w, known, dev, e) < K
    ensures var left := Left(w.devices[dev], n, waited, K);
            var left' := Left(Apply(w, known, e).devices[dev], n, WaitedAfter(waited, w, known, dev, e), K);
            left' <= 0 || left' <= left - if Concerns(e, dev) then 1 else 0
  {
    if Concerns(e, dev) {
      if w.devices[dev].status == StatusRunning {
        VisitDescends(w.devices[dev], w.flows[w.devices[dev].rpaId], known, e.r, e.now, waited, K);
      }
    } else {
      assert Apply(w, known, e).devices[dev] == w.devices[dev];
    }
  }

  lemma SteadyPrefix(w: World, known: set<string>, dev: int, es: seq<Event>, K: nat)
    requires es != [] && SteadyRun(w, known, dev, es, K)
    ensures SteadyRun(w, known, dev, es[..|es| - 1], K)
    ensures var before := es[..|es| - 1];
            Steady(Run(w, known, before), known, dev, es[|es| - 1], Waited(w, known, dev, before), K)
  {
    var before := es[..|es| - 1];
    assert forall k :: 0 <= k < |before| ==> before[..k] == es[..k] && before[k] == es[k];
  }

  lemma {:induction false} SteadyDescent(w: World, known: set<string>, dev: int, es: seq<Event>, n: nat, K: nat)
    requires OnCourse(w, dev, n) && SteadyRun(w, known, dev, es, K) && K > 0
    ensures OnCourse(Run(w, known, es), dev, n) && Waited(w, known, dev, es) < K
    ensures var left := Left(Run(w, known, es).devices[dev], n, Waited(w, known, dev, es), K);
            left <= 0 || left <= Left(w.devices[dev], n, 0, K) - Visits(dev, es)
  {
    if es != [] {
      var before, last := es[..|es| - 1], es[|es| - 1];
      SteadyPrefix(w, known, dev, es, K);
      SteadyDescent(w, known, dev, before, n, K);
      StepDescends(Run(w, known, before), known, dev, last, n, Waited(w, known, dev, before), K);
    }
  }

  lemma LeftWhileRunning(row: DeviceRow, n: nat, waited: nat, K: nat)
    requires row.status == StatusRunning && waited < K
    ensures Left(row, n, waited, K) >= 1
    ensures row.currentStep == 0 ==> Left(row, n, 0, K) <= n * K + 1
  {
    FewerStepsLeft(n, row.currentStep, row.currentStep + 1, K);
    assert n * K >= 0;
  }

  /** Start a device in single mode on an n-step flow. If jumps go forward and every
      step finishes within K visits, n * K + 1 visits are enough: the device is
      then completed or in error, whatever other devices do in between. */
  lemma {:induction false} SingleModeTerminates(w: World, known: set<string>, dev: int, now: int, es: seq<Event>,
                                                K: nat)
    requires OpensHistory(w, dev) && w.devices[dev].mode == ModeSingle && K > 0
    requires SteadyRun(DoStart(w, dev, now), known, dev, es, K)
    requires Visits(dev, es) >= |w.flows[w.devices[dev].rpaId].steps| * K + 1
    ensures dev in Run(DoStart(w, dev, now), known, es).devices
    ensures Run(DoStart(w, dev, now), known, es).devices[dev].status in {StatusCompleted, StatusError}
  {
    var n := |w.flows[w.devices[dev].rpaId].steps|;
    var v := DoStart(w, dev, now);
    SteadyDescent(v, known, dev, es, n, K);
    LeftWhileRunning(v.devices[dev], n, 0, K);
    var row := Run(v, known, es).devices[dev];
    if row.status == StatusRunning {
      LeftWhileRunning(row, n, Waited(v, known, dev, es), K);
    }
  }

  // ---- Loop mode ----

  /** A loop-mode device that is running, completed or in error on a flow of n steps. */
  ghost predicate OnLoop(w: World, dev: int, n: nat) {
    && n > 0 && dev in w.devices && w.devices[dev].mode == ModeLoop
    && w.devices[dev].rpaId in w.flows && |w.flows[w.devices[dev].rpaId].steps| == n
    && w.devices[dev].status in {StatusRunning, StatusCompleted, StatusError}
  }

  /** Visits a running device can take before it has counted `target` rounds. */
  function LeftUntil(row: DeviceRow, n: nat, waited: nat, K: nat, target: int): int {
    if row.status != StatusRunning || row.loopCount >= target then 0
    else (target - row.loopCount - 1) * (n * K + 1) + Left(row, n, waited, K)
  }

  lemma RoundDescends(row: DeviceRow, flow: Flow, known: set<string>, r: StepResult, now: int, waited: nat, K: nat,
                      target: int)
    requires row.mode == ModeLoop && row.status == StatusRunning && 0 < |flow.steps| <= row.currentStep
    ensures var row' := VisitRow(row, Some(flow), known, r, now);
            && row'.status == StatusRunning && row'.loopCount == row.loopCount + 1
            && (row.loopCount < target ==>
                  LeftUntil(row', |flow.steps|, 0, K, target) <= LeftUntil(row, |flow.steps|, waited, K, target) - 1)
  {
    var n := |flow.steps|;
    var left := target - row.loopCount - 1;
    assert left * (n * K + 1) == (left - 1) * (n * K + 1) + (n * K + 1);
  }

  lemma StepOfRoundDescends(row: DeviceRow, flow: Flow, known: set<string>, r: StepResult, now: int, waited: nat,
                            K: nat)
    requires row.mode == ModeLoop && row.status == StatusRunning && waited < K && row.currentStep < |flow.steps|
    requires Executes(row, Some(flow), known) && !r.completed ==> waited + 1 < K
    requires Executes(row, Some(flow), known) && r.completed && r.success ==>
               NextStep(row.currentStep, r.output, |flow.steps|) > row.currentStep
    ensures var row' := VisitRow(row, Some(flow), known, r, now);
            var waited' := if Executes(row, Some(flow), known) && !r.completed then waited + 1 else 0;
            && row'.loopCount == row.loopCount && row'.status in {StatusRunning, StatusCompleted, StatusError}
            && (row'.status == StatusRunning ==>
                  Left(row', |flow.steps|, waited', K) < Left(row, |flow.steps|, waited, K))
  {
    var n := |flow.steps|;
    if Executes(row, Some(flow), known) && r.completed && r.success {
      FewerStepsLeft(n, row.currentStep, NextStep(row.currentStep, r.output, n), K);
    } else {
      FewerStepsLeft(n, row.currentStep, row.currentStep + 1, K);
    }
  }

  lemma LoopVisitDescends(row: DeviceRow, flow: Flow, known: set<string>, r: StepResult, now: int, waited: nat, K: nat,
                          target: int)
    requires row.mode == ModeLoop && row.status == StatusRunning && waited < K && |flow.steps| > 0
    requires Executes(row, Some(flow), known) && !r.completed ==> waited + 1 < K
    requires Executes(row, Some(flow), known) && r.completed && r.success ==>
               NextStep(row.currentStep, r.output, |flow.steps|) > row.currentStep
    ensures var row' := VisitRow(row, Some(flow), known, r, now);
            var waited' := if Executes(row, Some(flow), known) && !r.completed then waited + 1 else 0;
            var left, left' := LeftUntil(row, |flow.steps|, waited, K, target),
                               LeftUntil(row', |flow.steps|, waited', K, target);
            && row'.mode == ModeLoop && row'.rpaId == row.rpaId && row'.loopCount >= row.loopCount
            && row'.status in {StatusRunning, StatusCompleted, StatusError}
            && (left' <= 0 || left' <= left - 1)
  {
    if row.currentStep >= |flow.steps| {
      RoundDescends(row, flow, known, r, now, waited, K, target);
    } else {
      StepOfRoundDescends(row, flow, known, r, now, waited, K);
    }
  }

  lemma LoopStepDescends(w: World, known: set<string>, dev: int, e: Event, n: nat, waited: nat, K: nat, target: int)
    requires OnLoop(w, dev, n) && Steady(w, known, dev, e, waited, K) && waited < K
    ensures OnLoop(Apply(w, known, e), dev, n) && WaitedAfter(waited, w, known, dev, e) < K
    ensures var left := LeftUntil(w.devices[dev], n, waited, K, target);
            var row', waited' := Apply(w, known, e).devices[dev], WaitedAfter(waited, w, known, dev, e);
            var left' := LeftUntil(row', n, waited', K, target);
            left' <= 0 || left' <= left - if Concerns(e, dev) then 1 else 0
  {
    if Concerns(e, dev) {
      if w.devices[dev].status == StatusRunning {
        LoopVisitDescends(w.devices[dev], w.flows[w.devices[dev].rpaId], known, e.r, e.now, waited, K, target);
      }
    } else {
      assert Apply(w, known, e).devices[dev] == w.devices[dev];
    }
  }

  lemma {:induction false} LoopDescent(w: World, known: set<string>, dev: int, es: seq<Event>, n: nat, K: nat,
                                       target: int)
    requires OnLoop(w, dev, n) && SteadyRun(w, known, dev, es, K) && K > 0
    ensures OnLoop(Run(w, known, es), dev, n) && Waited(w, known, dev, es) < K
    ensures var left := LeftUntil(Run(w, known, es).devices[dev], n, Waited(w, known, dev, es), K, target);
            left <= 0 || left <= LeftUntil(w.devices[dev], n, 0, K, target) - Visits(dev, es)
  {
    if es != [] {
      var before, last := es[..|es| - 1], es[|es| - 1];
      SteadyPrefix(w, known, dev, es, K);
      LoopDescent(w, known, dev, before, n, K, target);
      LoopStepDescends(Run(w, known, before), known, dev, last, n, Waited(w, known, dev, before), K, target);
    }
  }

  lemma LeftUntilWhileRunning(row: DeviceRow, n: nat, waited: nat, K: nat, target: int)
    requires row.status == StatusRunning && waited < K && row.loopCount < target
    ensures LeftUntil(row, n, waited, K, target) >= 1
    ensures row.currentStep == 0 ==> LeftUntil(row, n, 0, K, target) <= (target - row.loopCount) * (n * K + 1)
  {
    LeftWhileRunning(row, n, waited, K);
    var left, size := target - row.loopCount - 1, n * K + 1;
    assert size > 0 && left * size >= 0;
    assert (left + 1) * size == left * size + size;
  }

  /** Start a device in loop mode on a flow of n steps. If jumps go forward and every step finishes
      within K visits, every n * K + 1 visits complete another round, until the device is
      completed or in error. */
  lemma {:induction false} LoopModeGoesOn(w: World, known: set<string>, dev: int, now: int, es: seq<Event>, K: nat,
                                          rounds: nat)
    requires OpensHistory(w, dev) && w.devices[dev].mode == ModeLoop && K > 0
    requires |w.flows[w.devices[dev].rpaId].steps| > 0
    requires SteadyRun(DoStart(w, dev, now), known, dev, es, K)
    requires Visits(dev, es) >= rounds * (|w.flows[w.devices[dev].rpaId].steps| * K + 1)
    ensures dev in Run(DoStart(w, dev, now), known, es).devices
    ensures var row := Run(DoStart(w, dev, now), known, es).devices[dev];
            row.status in {StatusCompleted, StatusError} || row.loopCount >= w.devices[dev].loopCount + rounds
  {
    var n, v := |w.flows[w.devices[dev].rpaId].steps|, DoStart(w, dev, now);
    var target := w.devices[dev].loopCount + rounds;
    LoopDescent(v, known, dev, es, n, K, target);
    var row := Run(v, known, es).devices[dev];
    if row.status == StatusRunning && row.loopCount < target {
      LeftUntilWhileRunning(row, n, Waited(v, known, dev, es), K, target);
      if v.devices[dev].loopCount < target {
        LeftUntilWhileRunning(v.devices[dev], n, 0, K, target);
      }
    }
  }
}
