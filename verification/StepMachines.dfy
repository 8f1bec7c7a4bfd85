/** Step executors that wait for the platform: changing a device's system, installing
    an application, and the condition check that steers the flow. */
module StepMachines {
  import opened Prelude
  import opened Values
  import opened RpaModel

  /** What the platform answers to the query of one visit. */
  datatype Reply =
    | Failed                 // the query itself failed
    | Refused                // a code other than 200
    | Unreadable             // no usable item in the answer
    | Task(id: real)         // a submitted task
    | Status(n: int)         // a task's status
    | Online(yes: bool)      // whether the device is online

  /** One visit: the clock when limits are checked, before the query, the clock when moments are
      recorded, after it, both in whole seconds, and the answer. */
  datatype Tick = Tick(checked: int, stamped: int, reply: Reply)

  function Wait(sub: int, ctx: Vars): StepResult {
    StepResult(false, false, "", sub, Some(ctx), map[])
  }

  function Fail(message: string): StepResult {
    StepResult(true, false, message, 0, None, map[])
  }

  function Succeed(output: Vars): StepResult {
    StepResult(true, true, "", 0, None, output)
  }

  /** A float in the context, or the given default. */
  function FloatOr(ctx: Vars, key: string, default: real): real {
    match Lookup(ctx, key)
    case Float(r) => r
    case _ => default
  }

  // ---- change_os_and_wait ----

  function SendChangeOs(t: Tick): StepResult {
    match t.reply
    case Task(id) =>
      if id > 0.0 then Wait(1, map["taskId" := Float(id), "startTime" := Float(t.stamped as real)])
      else Fail("no task id")
    case _ => Fail("request failed")
  }

  function WaitChangeOs(ctx: Vars, t: Tick): StepResult {
    if FloatOr(ctx, "taskId", 0.0) == 0.0 then Fail("missing task id")
    else if t.checked as real - FloatOr(ctx, "startTime", 0.0) > FloatOr(ctx, "timeout", 300.0) then
      Fail("change timed out")
    else if t.reply == Status(200) then Wait(2, ctx["changeOsCompleteTime" := Float(t.stamped as real)])
    else Wait(1, ctx)
  }

  function WaitOnline(dev: int, ctx: Vars, t: Tick): StepResult {
    if t.checked as real - FloatOr(ctx, "changeOsCompleteTime", 0.0) > FloatOr(ctx, "onlineTimeout", 300.0) then
      Fail("coming online timed out")
    else if Lookup(ctx, "bootWaitStart").Float? then
      if t.stamped as real - Lookup(ctx, "bootWaitStart").r < FloatOr(ctx, "bootWaitDuration", 180.0) then Wait(2, ctx)
      else Succeed(map["deviceId" := Int(dev), "online" := Bool(true)])
    else if t.reply == Online(true) then Wait(2, ctx["bootWaitStart" := Float(t.stamped as real)])
    else Wait(2, ctx)
  }

  function ChangeOs(dev: int, sub: int, ctx: Vars, t: Tick): StepResult {
    if sub == 0 then SendChangeOs(t)
    else if sub == 1 then WaitChangeOs(ctx, t)
    else if sub == 2 then WaitOnline(dev, ctx, t)
    else Fail("unknown sub-step")
  }

  // ---- install_app_and_wait ----

  function SendInstall(url: string, install: bool, t: Tick): StepResult {
    if url == "" then Fail("missing url")
    else match t.reply
      case Task(id) =>
        if id > 0.0 then
          Wait(1, map["url" := Str(url), "install" := Bool(install), "taskId" := Float(id),
              "startTime" := Float(t.stamped as real)])
        else Fail("no task id")
      case _ => Fail("request failed")
  }

  function Report(dev: int, installed: bool): Vars {
    map["deviceId" := Int(dev), "downloaded" := Bool(true), "installed" := Bool(installed)]
  }

  function HasTask(ctx: Vars): bool {
    Lookup(ctx, "taskId").Float? || Lookup(ctx, "taskId").Str?
  }

  function WaitDownload(dev: int, ctx: Vars, t: Tick): StepResult {
    if t.checked as real - FloatOr(ctx, "startTime", 0.0) > FloatOr(ctx, "downloadTimeout", 300.0) then
      Fail("download timed out")
    else if !HasTask(ctx) then Fail("missing task id")
    else if t.reply == Status(-1) || t.reply == Status(-2) then Fail("download failed")
    else if t.reply == Status(3) then
      if Lookup(ctx, "install") == Bool(true) then Wait(2, ctx["downloadCompleteTime" := Float(t.stamped as real)])
      else Succeed(Report(dev, false))
    else if t.reply == Status(4) then Succeed(Report(dev, true))
    else Wait(1, ctx)
  }

  function WaitInstall(dev: int, ctx: Vars, t: Tick): StepResult {
    if t.checked as real - FloatOr(ctx, "downloadCompleteTime", 0.0) > FloatOr(ctx, "installTimeout", 120.0) then
      Fail("install timed out")
    else if !HasTask(ctx) then Fail("missing task id")
    else if t.reply == Status(-1) || t.reply == Status(-2) then Fail("install failed")
    else if t.reply == Status(4) then Succeed(Report(dev, true))
    else Wait(2, ctx)
  }

  function InstallApp(dev: int, url: string, install: bool, sub: int, ctx: Vars, t: Tick): StepResult {
    if sub == 0 then SendInstall(url, install, t)
    else if sub == 1 then WaitDownload(dev, ctx, t)
    else if sub == 2 then WaitInstall(dev, ctx, t)
    else Fail("unknown sub-step")
  }

  // ---- Repeated visits, driven as the engine drives them ----

  datatype Machine = At(sub: int, ctx: Vars) | Done(result: StepResult)

  type Execute = (int, Vars, Tick) -> StepResult

  function Move(exec: Execute, m: Machine, t: Tick): Machine {
    match m
    case Done(_) => m
    case At(sub, ctx) =>
      var r := exec(sub, ctx, t);
      if r.completed then Done(r)
      else At(r.nextSub, if r.context.Some? then r.context.value else ctx)
  }

  function Drive(exec: Execute, ticks: seq<Tick>): Machine
    decreases |ticks|
  {
    if ticks == [] then At(0, map[]) else Move(exec, Drive(exec, ticks[..|ticks| - 1]), ticks[|ticks| - 1])
  }

  /** Each visit begins in a later second than the one before ended. */
  predicate Advancing(ticks: seq<Tick>) {
    && (forall k :: 0 <= k < |ticks| ==> ticks[k].checked <= ticks[k].stamped)
    && (forall k :: 0 < k < |ticks| ==> ticks[k - 1].stamped < ticks[k].checked)
  }

  lemma {:induction false} ClockAdvances(ticks: seq<Tick>, i: nat, k: nat)
    requires Advancing(ticks) && i < k < |ticks|
    ensures ticks[k].checked >= ticks[i].stamped + (k - i)
  {
    if i + 1 < k {
      ClockAdvances(ticks, i, k - 1);
    }
  }

  function ChangeOsOf(dev: int): Execute {
    (sub, ctx, t) => ChangeOs(dev, sub, ctx, t)
  }

  function InstallAppOf(dev: int, url: string, install: bool): Execute {
    (sub, ctx, t) => InstallApp(dev, url, install, sub, ctx, t)
  }

  // ---- change_os_and_wait: the contexts refine a timed automaton ----

  datatype Phase =
    | Changing(sent: int)
    | Booting(sent: int, changed: int, seen: Option<int>)
    | Won
    | Lost

  /** Waits of 300 s for the change, 300 s for coming up, and 180 s of boot time once seen online. */
  function Advance(p: Phase, t: Tick): Phase {
    match p
    case Changing(sent) =>
      if t.checked > sent + 300 then Lost
      else if t.reply == Status(200) then Booting(sent, t.stamped, None)
      else p
    case Booting(sent, changed, seen) =>
      if t.checked > changed + 300 then Lost
      else if seen.Some? then (if t.stamped < seen.value + 180 then p else Won)
      else if t.reply == Online(true) then Booting(sent, changed, Some(t.stamped))
      else p
    case _ => p
  }

  ghost predicate Shows(m: Machine, p: Phase) {
    match p
    case Won => m.Done? && m.result.success
    case Lost => m.Done? && !m.result.success
    case Changing(sent) =>
      && m.At? && m.sub == 1 && m.ctx.Keys == {"taskId", "startTime"}
      && FloatOr(m.ctx, "taskId", 0.0) != 0.0 && m.ctx["startTime"] == Float(sent as real)
    case Booting(sent, changed, seen) =>
      && m.At? && m.sub == 2
      && m.ctx.Keys == {"taskId", "startTime", "changeOsCompleteTime"} + (if seen.Some? then {"bootWaitStart"} else {})
      && m.ctx["changeOsCompleteTime"] == Float(changed as real)
      && (seen.Some? ==> m.ctx["bootWaitStart"] == Float(seen.value as real))
  }

  /** One visit moves the context exactly as the automaton moves. */
  lemma ChangeOsRefines(dev: int, m: Machine, p: Phase, t: Tick)
    requires Shows(m, p)
    ensures Shows(Move(ChangeOsOf(dev), m, t), Advance(p, t))
  {
    match p
    case Changing(sent) =>
    case Booting(sent, changed, seen) =>
      if seen.Some? {
        assert Lookup(m.ctx, "bootWaitStart") == Float(seen.value as real);
      }
    case _ =>
  }

  function PhaseAfter(ticks: seq<Tick>): Phase
    requires ticks != []
    decreases |ticks|
  {
    if |ticks| == 1 then
      if Accepted(ticks[0]) then Changing(ticks[0].stamped) else Lost
    else Advance(PhaseAfter(ticks[..|ticks| - 1]), ticks[|ticks| - 1])
  }

  lemma {:induction false} DriveShowsPhase(dev: int, ticks: seq<Tick>)
    requires ticks != []
    ensures Shows(Drive(ChangeOsOf(dev), ticks), PhaseAfter(ticks))
  {
    if |ticks| == 1 {
      assert Drive(ChangeOsOf(dev), ticks[..0]) == At(0, map[]);
    } else {
      DriveShowsPhase(dev, ticks[..|ticks| - 1]);
      ChangeOsRefines(dev, Drive(ChangeOsOf(dev), ticks[..|ticks| - 1]), PhaseAfter(ticks[..|ticks| - 1]),
          ticks[|ticks| - 1]);
    }
  }

  /** The platform took the request on. */
  predicate Accepted(t: Tick) {
    t.reply.Task? && t.reply.id > 0.0
  }

  /** Visit i is the first told, within 300 s of the request, that the change is done. */
  ghost predicate Changed(ticks: seq<Tick>, i: nat) {
    && 0 < i < |ticks| && ticks[i].reply == Status(200) && ticks[i].checked <= ticks[0].stamped + 300
    && forall k :: 0 < k < i ==> ticks[k].reply != Status(200)
  }

  /** Visit j is the first after that which finds the device online. */
  ghost predicate SeenOnline(ticks: seq<Tick>, i: nat, j: nat) {
    i < j < |ticks| && ticks[j].reply == Online(true) && forall k :: i < k < j ==> ticks[k].reply != Online(true)
  }

  /** Visit `end` is the first with 180 s of boot time behind it, within 300 s of the change. */
  ghost predicate Earned(ticks: seq<Tick>, i: nat, j: nat, end: nat) {
    && Changed(ticks, i) && SeenOnline(ticks, i, j) && j < end < |ticks|
    && ticks[j].stamped + 180 <= ticks[end].stamped && ticks[end].checked <= ticks[i].stamped + 300
    && forall k :: j < k < end ==> ticks[k].stamped < ticks[j].stamped + 180
  }

  /** The moments behind a phase: i where the change was reported done, j where the
      device was seen online, end where the run was won. */
  ghost predicate Backed(ticks: seq<Tick>, p: Phase, i: nat, j: nat, end: nat)
    requires ticks != []
  {
    var last := |ticks| - 1;
    (p != Lost ==> Accepted(ticks[0])) &&
    match p
    case Lost => true
    case Changing(sent) =>
      && sent == ticks[0].stamped && (last > 0 ==> ticks[last].checked <= sent + 300)
      && forall k :: 0 < k <= last ==> ticks[k].reply != Status(200)
    case Booting(sent, changed, seen) =>
      && sent == ticks[0].stamped && Changed(ticks, i) && ticks[i].stamped == changed
      && (i < last ==> ticks[last].checked <= changed + 300)
      && (if seen.None? then forall k :: i < k <= last ==> ticks[k].reply != Online(true)
          else && SeenOnline(ticks, i, j) && ticks[j].stamped == seen.value
               && forall k :: j < k <= last ==> ticks[k].stamped < seen.value + 180)
    case Won => Earned(ticks, i, j, end)
  }

  lemma {:induction false} PhaseIsBacked(ticks: seq<Tick>) returns (i: nat, j: nat, end: nat)
    requires ticks != []
    ensures Backed(ticks, PhaseAfter(ticks), i, j, end)
  {
    i, j, end := 0, 0, 0;
    if |ticks| > 1 {
      var before, t := ticks[..|ticks| - 1], ticks[|ticks| - 1];
      i, j, end := PhaseIsBacked(before);
      var p := PhaseAfter(before);
      match p
      case Changing(_) => i := |before|;
      case Booting(_, _, seen) =>
        if seen.None? {
          j := |before|;
        } else {
          end := |before|;
        }
      case _ =>
    }
  }

  /** change_os succeeds only after a polled status 200, then a polled online, then at
      least 180 s; and because the 300 s limit keeps running meanwhile, only when the
      device was seen online within 120 s of the change (and whatever passes between the two
      clock readings of the last visit). */
  lemma ChangeOsSuccessIsEarned(dev: int, ticks: seq<Tick>) returns (i: nat, j: nat, end: nat)
    requires ticks != []
    requires var m := Drive(ChangeOsOf(dev), ticks); m.Done? && m.result.success
    ensures Earned(ticks, i, j, end)
    ensures ticks[j].stamped <= ticks[i].stamped + 120 + (ticks[end].stamped - ticks[end].checked)
  {
    DriveShowsPhase(dev, ticks);
    i, j, end := PhaseIsBacked(ticks);
  }

  /** The phases on the way to a success. */
  lemma {:induction false} PhasesOnTheWay(ticks: seq<Tick>, i: nat, j: nat, end: nat, n: nat)
    requires Advancing(ticks) && Earned(ticks, i, j, end) && Accepted(ticks[0]) && 0 < n <= |ticks|
    ensures PhaseAfter(ticks[..n]) ==
            if n <= i then Changing(ticks[0].stamped)
            else if n <= j then Booting(ticks[0].stamped, ticks[i].stamped, None)
            else if n <= end then Booting(ticks[0].stamped, ticks[i].stamped, Some(ticks[j].stamped))
            else Won
  {
    if n > 1 {
      PhasesOnTheWay(ticks, i, j, end, n - 1);
      assert ticks[..n][..n - 1] == ticks[..n - 1];
      if n - 1 < i {
        ClockAdvances(ticks, n - 1, i);
      } else if n - 1 < end {
        ClockAdvances(ticks, n - 1, end);
      }
    }
  }

  /** Visited in later and later seconds, change_os succeeds exactly when the request is taken on,
      the first status 200 comes within 300 s of it, and the first visit with 180 s since the device
      was first seen online begins within 300 s of that. */
  lemma {:induction false} ChangeOsSucceedsExactly(dev: int, ticks: seq<Tick>)
    requires ticks != [] && Advancing(ticks)
    ensures var m := Drive(ChangeOsOf(dev), ticks);
            m.Done? && m.result.success
            <==> Accepted(ticks[0]) && exists i, j, end :: Earned(ticks, i, j, end)
  {
    DriveShowsPhase(dev, ticks);
    var i, j, end := PhaseIsBacked(ticks);
    if Accepted(ticks[0]) && exists i, j, end :: Earned(ticks, i, j, end) {
      i, j, end :| Earned(ticks, i, j, end);
      PhasesOnTheWay(ticks, i, j, end, |ticks|);
      assert ticks[..|ticks|] == ticks;
    }
  }

  /** Visits with an advancing clock begin by 300 s after the request or, once told that the
      change is done, by 300 s after that. So change_os is finished after at most 602 visits,
      whatever the platform answers and however long its answers take. */
  lemma {:induction false} ChangeOsFinishes(dev: int, ticks: seq<Tick>) returns (i: nat)
    requires ticks != [] && Advancing(ticks)
    ensures Drive(ChangeOsOf(dev), ticks).At? ==>
              var last := ticks[|ticks| - 1].checked;
              last <= ticks[0].stamped + 300 || (Changed(ticks, i) && last <= ticks[i].stamped + 300)
    ensures |ticks| >= 602 ==> Drive(ChangeOsOf(dev), ticks).Done?
  {
    DriveShowsPhase(dev, ticks);
    var j, end;
    i, j, end := PhaseIsBacked(ticks);
    if |ticks| > 1 {
      ClockAdvances(ticks, 0, |ticks| - 1);
      if PhaseAfter(ticks).Booting? {
        ClockAdvances(ticks, 0, i);
        if i < |ticks| - 1 {
          ClockAdvances(ticks, i, |ticks| - 1);
        }
      }
    }
  }

  /** Conversely, once the device was seen online in time, the first visit in the
      window between 180 s after that and 300 s after the change succeeds. */
  lemma ChangeOsWindowSucceeds(dev: int, m: Machine, sent: int, changed: int, seen: int, t: Tick)
    requires Shows(m, Booting(sent, changed, Some(seen)))
    ensures var m' := Move(ChangeOsOf(dev), m, t);
            m'.Done? && m'.result.success <==> seen + 180 <= t.stamped && t.checked <= changed + 300
  {
    ChangeOsRefines(dev, m, Booting(sent, changed, Some(seen)), t);
  }

  // ---- install_app_and_wait ----

  datatype InstallPhase =
    | Downloading(sent: int)
    | Installing(sent: int, downloaded: int)
    | Reported(installed: bool)
    | GaveUp

  function AdvanceInstall(p: InstallPhase, install: bool, t: Tick): InstallPhase {
    match p
    case Downloading(sent) =>
      if t.checked > sent + 300 || t.reply in {Status(-1), Status(-2)} then GaveUp
      else if t.reply == Status(4) then Reported(true)
      else if t.reply == Status(3) then (if install then Installing(sent, t.stamped) else Reported(false))
      else p
    case Installing(sent, downloaded) =>
      if t.checked > downloaded + 120 || t.reply in {Status(-1), Status(-2)} then GaveUp
      else if t.reply == Status(4) then Reported(true)
      else p
    case _ => p
  }

  ghost predicate ShowsInstall(dev: int, m: Machine, install: bool, p: InstallPhase) {
    match p
    case GaveUp => m.Done? && !m.result.success
    case Reported(installed) => m.Done? && m.result.success && m.result.output == Report(dev, installed)
    case Downloading(sent) =>
      && m.At? && m.sub == 1 && m.ctx.Keys == {"url", "install", "taskId", "startTime"}
      && m.ctx["taskId"].Float? && m.ctx["install"] == Bool(install) && m.ctx["startTime"] == Float(sent as real)
    case Installing(sent, downloaded) =>
      && m.At? && m.sub == 2 && m.ctx.Keys == {"url", "install", "taskId", "startTime", "downloadCompleteTime"}
      && m.ctx["taskId"].Float? && m.ctx["downloadCompleteTime"] == Float(downloaded as real)
  }

  lemma InstallRefines(dev: int, url: string, install: bool, m: Machine, p: InstallPhase, t: Tick)
    requires ShowsInstall(dev, m, install, p)
    ensures ShowsInstall(dev, Move(InstallAppOf(dev, url, install), m, t), install, AdvanceInstall(p, install, t))
  {
  }

  function InstallAfter(url: string, install: bool, ticks: seq<Tick>): InstallPhase
    requires ticks != []
    decreases |ticks|
  {
    if |ticks| == 1 then
      if url != "" && Accepted(ticks[0]) then Downloading(ticks[0].stamped) else GaveUp
    else AdvanceInstall(InstallAfter(url, install, ticks[..|ticks| - 1]), install, ticks[|ticks| - 1])
  }

  lemma {:induction false} DriveShowsInstall(dev: int, url: string, install: bool, ticks: seq<Tick>)
    requires ticks != []
    ensures ShowsInstall(dev, Drive(InstallAppOf(dev, url, install), ticks), install, InstallAfter(url, install, ticks))
  {
    var exec := InstallAppOf(dev, url, install);
    if |ticks| == 1 {
      assert Drive(exec, ticks[..0]) == At(0, map[]);
    } else {
      var before := ticks[..|ticks| - 1];
      DriveShowsInstall(dev, url, install, before);
      InstallRefines(dev, url, install, Drive(exec, before), InstallAfter(url, install, before), ticks[|ticks| - 1]);
    }
  }

  /** The statuses that end a download, well or badly. */
  predicate Telling(r: Reply) {
    r in {Status(-2), Status(-1), Status(3), Status(4)}
  }

  /** Until visit i, no status told how the download went. */
  ghost predicate Silent(ticks: seq<Tick>, i: nat)
    requires i <= |ticks|
  {
    forall k :: 0 < k < i ==> !Telling(ticks[k].reply)
  }

  /** Visit i is the first told anything, within 300 s of the request: the download is done. */
  ghost predicate Downloaded(ticks: seq<Tick>, i: nat) {
    && 0 < i < |ticks| && ticks[i].reply == Status(3) && ticks[i].checked <= ticks[0].stamped + 300
    && Silent(ticks, i)
  }

  /** After the download at visit i no status between there and `end` told how the installation went. */
  ghost predicate Pending(ticks: seq<Tick>, i: nat, end: nat)
    requires end <= |ticks|
  {
    forall k :: i < k < end ==> ticks[k].reply == Status(3) || !Telling(ticks[k].reply)
  }

  /** The report at visit `end` is due: an installation, told at once within 300 s of the request or
      within 120 s of the download at visit i, or a bare download, if that was all that was asked for. */
  ghost predicate Due(ticks: seq<Tick>, install: bool, installed: bool, i: nat, end: nat) {
    && 0 < end < |ticks|
    && if !installed then !install && Downloaded(ticks, end)
       else
         && ticks[end].reply == Status(4)
         && if Silent(ticks, end) then ticks[end].checked <= ticks[0].stamped + 300
            else install && Downloaded(ticks, i) && i < end && Pending(ticks, i, end)
                 && ticks[end].checked <= ticks[i].stamped + 120
  }

  /** The moments behind a phase: i where the download was done, end where the run was reported. */
  ghost predicate InstallBacked(url: string, ticks: seq<Tick>, install: bool, p: InstallPhase, i: nat, end: nat)
    requires ticks != []
  {
    var last := |ticks| - 1;
    (p != GaveUp ==> url != "" && Accepted(ticks[0])) &&
    match p
    case GaveUp => true
    case Downloading(sent) =>
      sent == ticks[0].stamped && (last > 0 ==> ticks[last].checked <= sent + 300) && Silent(ticks, |ticks|)
    case Installing(sent, downloaded) =>
      && install && sent == ticks[0].stamped && Downloaded(ticks, i) && ticks[i].stamped == downloaded
      && (i < last ==> ticks[last].checked <= downloaded + 120) && Pending(ticks, i, |ticks|)
    case Reported(installed) => Due(ticks, install, installed, i, end)
  }

  lemma {:induction false} InstallIsBacked(url: string, install: bool, ticks: seq<Tick>) returns (i: nat, end: nat)
    requires ticks != []
    ensures InstallBacked(url, ticks, install, InstallAfter(url, install, ticks), i, end)
  {
    i, end := 0, 0;
    if |ticks| > 1 {
      var before := ticks[..|ticks| - 1];
      i, end := InstallIsBacked(url, install, before);
      var p, p' := InstallAfter(url, install, before), InstallAfter(url, install, ticks);
      if p != p' {
        if p'.Installing? {
          i := |before|;
        } else {
          end := |before|;
        }
      }
    }
  }

  /** install_app reports installed only after a polled status 4, and reports a
      download without installation only after a polled status 3 when asked not to install. */
  lemma InstallReportIsEarned(dev: int, url: string, install: bool, ticks: seq<Tick>) returns (end: nat)
    requires ticks != []
    requires var m := Drive(InstallAppOf(dev, url, install), ticks); m.Done? && m.result.success
    ensures 0 < end < |ticks|
    ensures var output := Drive(InstallAppOf(dev, url, install), ticks).result.output;
            || (Lookup(output, "installed") == Bool(true) && ticks[end].reply == Status(4))
            || (Lookup(output, "installed") == Bool(false) && !install && ticks[end].reply == Status(3))
  {
    DriveShowsInstall(dev, url, install, ticks);
    var i;
    i, end := InstallIsBacked(url, install, ticks);
  }

  /** The phases on the way to a report. */
  lemma {:induction false} InstallOnTheWay(url: string, install: bool, installed: bool, ticks: seq<Tick>, i: nat,
                                           end: nat, n: nat)
    requires 0 < n <= |ticks| && Advancing(ticks) && url != "" && Accepted(ticks[0])
    requires Due(ticks, install, installed, i, end)
    ensures var p := InstallAfter(url, install, ticks[..n]);
            if n > end then p == Reported(installed)
            else if Silent(ticks, n) then p == Downloading(ticks[0].stamped)
            else i < n && p == Installing(ticks[0].stamped, ticks[i].stamped)
  {
    if n > 1 {
      InstallOnTheWay(url, install, installed, ticks, i, end, n - 1);
      assert ticks[..n][..n - 1] == ticks[..n - 1];
      if n - 1 < end {
        ClockAdvances(ticks, n - 1, end);
      }
      if installed && !Silent(ticks, end) && n - 1 < i {
        ClockAdvances(ticks, n - 1, i);
      }
    }
  }

  /** Visited in later and later seconds, install_app succeeds with a report exactly when the request
      is taken on and that report is due. */
  lemma {:induction false} InstallSucceedsExactly(dev: int, url: string, install: bool, ticks: seq<Tick>,
                                                  installed: bool)
    requires ticks != [] && Advancing(ticks)
    ensures var m := Drive(InstallAppOf(dev, url, install), ticks);
            m.Done? && m.result.success && m.result.output == Report(dev, installed)
            <==> url != "" && Accepted(ticks[0]) && exists i, end :: Due(ticks, install, installed, i, end)
  {
    DriveShowsInstall(dev, url, install, ticks);
    var i, end := InstallIsBacked(url, install, ticks);
    if url != "" && Accepted(ticks[0]) && exists i, end :: Due(ticks, install, installed, i, end) {
      i, end :| Due(ticks, install, installed, i, end);
      InstallOnTheWay(url, install, installed, ticks, i, end, |ticks|);
      assert ticks[..|ticks|] == ticks;
    } else if InstallAfter(url, install, ticks).Reported? {
      ReportsDiffer(dev, InstallAfter(url, install, ticks).installed, installed);
    }
  }

  lemma ReportsDiffer(dev: int, a: bool, b: bool)
    ensures Report(dev, a) == Report(dev, b) <==> a == b
  {
    assert Report(dev, a)["installed"] == Bool(a) && Report(dev, b)["installed"] == Bool(b);
  }

  /** Visits with an advancing clock begin by 300 s after the request or, once told that the
      download is done, by 120 s after that. So install_app is finished after at most 422 visits. */
  lemma {:induction false} InstallFinishes(dev: int, url: string, install: bool, ticks: seq<Tick>) returns (i: nat)
    requires ticks != [] && Advancing(ticks)
    ensures Drive(InstallAppOf(dev, url, install), ticks).At? ==>
              var last := ticks[|ticks| - 1].checked;
              last <= ticks[0].stamped + 300 || (Downloaded(ticks, i) && last <= ticks[i].stamped + 120)
    ensures |ticks| >= 422 ==> Drive(InstallAppOf(dev, url, install), ticks).Done?
  {
    DriveShowsInstall(dev, url, install, ticks);
    var end;
    i, end := InstallIsBacked(url, install, ticks);
    if |ticks| > 1 {
      ClockAdvances(ticks, 0, |ticks| - 1);
      if InstallAfter(url, install, ticks).Installing? {
        ClockAdvances(ticks, 0, i);
        if i < |ticks| - 1 {
          ClockAdvances(ticks, i, |ticks| - 1);
        }
      }
    }
  }

  // ---- start_bot: waiting for the script to connect ----

  function MaxRetries(params: Vars): int {
    match Lookup(params, "maxRetries")
    case Float(r) => if r > 0.0 then Truncate(r) else 60
    case _ => 60
  }

  function WaitConnection(params: Vars, ctx: Vars, now: int, connected: bool): StepResult {
    var tries := FloatOr(ctx, "retryCount", 0.0);
    if Truncate(tries) >= MaxRetries(params) then Fail("waiting for the script timed out")
    else if connected then
      Succeed(map["connected" := Bool(true), "retryCount" := Int(Truncate(tries)),
                  "elapsed" := Int(now - Truncate(FloatOr(ctx, "startTime", 0.0)))])
    else Wait(3, ctx["retryCount" := Float(tries + 1.0)])
  }

  /** The wait over successive visits, from the context the earlier sub-steps left. */
  function Connecting(params: Vars, ctx: Vars, ticks: seq<Tick>): Machine
    decreases |ticks|
  {
    if ticks == [] then At(3, ctx)
    else
      Move((sub, c: Vars, t: Tick) => WaitConnection(params, c, t.stamped, t.reply == Online(true)),
           Connecting(params, ctx, ticks[..|ticks| - 1]), ticks[|ticks| - 1])
  }

  ghost predicate ConnectedBefore(ticks: seq<Tick>, limit: int) {
    exists k :: 0 <= k < |ticks| && k < limit && ticks[k].reply == Online(true)
  }

  lemma ConnectedLater(ticks: seq<Tick>, limit: int)
    requires ticks != []
    ensures var n := |ticks| - 1;
            ConnectedBefore(ticks, limit)
            <==> ConnectedBefore(ticks[..n], limit) || (n < limit && ticks[n].reply == Online(true))
  {
    var n := |ticks| - 1;
    if ConnectedBefore(ticks[..n], limit) {
      var k :| 0 <= k < n && k < limit && ticks[..n][k].reply == Online(true);
      assert ticks[k].reply == Online(true);
    }
    if ConnectedBefore(ticks, limit) {
      var k :| 0 <= k < |ticks| && k < limit && ticks[k].reply == Online(true);
      assert k < n ==> ticks[..n][k] == ticks[k];
    }
  }

  /** The wait succeeds exactly when one of the first maxRetries visits finds the script
      connected, and otherwise fails on the visit after them. */
  lemma {:induction false} ConnectionWaitIsBounded(params: Vars, ctx: Vars, ticks: seq<Tick>)
    requires FloatOr(ctx, "retryCount", 0.0) == 0.0
    ensures var m, max := Connecting(params, ctx, ticks), MaxRetries(params);
            && (m.Done? && m.result.success <==> ConnectedBefore(ticks, max))
            && (m.At? <==> |ticks| <= max && !ConnectedBefore(ticks, max))
            && (m.At? ==> m.sub == 3 && FloatOr(m.ctx, "retryCount", 0.0) == |ticks| as real)
  {
    assert MaxRetries(params) >= 0;
    if ticks != [] {
      var n := |ticks| - 1;
      ConnectionWaitIsBounded(params, ctx, ticks[..n]);
      ConnectedLater(ticks, MaxRetries(params));
      assert Truncate(n as real) == n;
    }
  }

  /** Neither executor ever asks to be visited again at sub-step 0, which is what the
      engine's step accounting needs of its executors, and neither steers or stops the flow. */
  lemma ChangeOsKeepsToItsStep(dev: int, sub: int, ctx: Vars, t: Tick)
    ensures var r := ChangeOs(dev, sub, ctx, t);
            (!r.completed ==> r.nextSub != 0) && r.output.Keys !! CONTROL_KEYS
  {
  }

  lemma InstallKeepsToItsStep(dev: int, url: string, install: bool, sub: int, ctx: Vars, t: Tick)
    ensures var r := InstallApp(dev, url, install, sub, ctx, t);
            (!r.completed ==> r.nextSub != 0) && r.output.Keys !! CONTROL_KEYS
  {
  }

  // ---- condition_check: the source of jumps, skips and stops ----

  function ExecuteAction(action: string, jumpStep: int, met: bool, variable: string, actual: Value): StepResult {
    var output: Vars := map["conditionMet" := Bool(met), "variable" := Str(variable), "actualValue" := actual,
        "action" := Str(action)];
    if action == "skip_next" then Succeed(output["skipNext" := Bool(true)])
    else if action == "jump_to_step" then Succeed(output["jumpToStep" := Int(jumpStep)])
    else if action == "stop_success" then Succeed(output["stopFlow" := Bool(true)]["stopSuccess" := Bool(true)])
    else if action == "stop_error" then Fail("stopped by condition").(output := output)
    else Succeed(output)
  }

  /** What a condition's action does to the device, through the engine's reading of its output. */
  lemma ConditionSteersTheFlow(row: DeviceRow, flow: Flow, known: set<string>, now: int,
                               action: string, jumpStep: int, met: bool, variable: string, actual: Value)
    requires Executes(row, Some(flow), known) && row.status == StatusRunning
    ensures var row' := VisitRow(row, Some(flow), known, ExecuteAction(action, jumpStep, met, variable, actual), now);
            match action
            case "stop_success" => row'.status == StatusCompleted && row'.currentStep == row.currentStep
            case "stop_error" => row'.status == StatusError && row'.currentStep == row.currentStep
            case _ =>
              && row'.status == StatusRunning && row'.subStep == 0
              && row'.currentStep == (if action == "skip_next" then row.currentStep + 2
                                      else if action == "jump_to_step" && 0 <= jumpStep < |flow.steps| then jumpStep
                                      else row.currentStep + 1)
              && row'.flowVariables.Keys ==
                 row.flowVariables.Keys + {"conditionMet", "variable", "actualValue", "action"}
              && row'.flowVariables["conditionMet"] == Bool(met)
  {
    var r := ExecuteAction(action, jumpStep, met, variable, actual);
    assert (r.output - CONTROL_KEYS).Keys == {"conditionMet", "variable", "actualValue", "action"};
  }
}
