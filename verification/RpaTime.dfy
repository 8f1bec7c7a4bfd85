/** Conservation of time: the seconds credited to TotalTime by one run follow the
    wall clock, losing less than one second per interval that was closed. */
module RpaTime {
  import opened Prelude
  import opened RpaModel

  /** Events of the device allowed between its start and its end, with a clock that
      does not run backwards; every other device may do anything. */
  predicate Allowed(w: World, e: Event, dev: int, clock: int) {
    Concerns(e, dev) ==>
      || e.Pause? || e.Resume?
      || (e.Visit? && clock <= e.now)
      || (e.LateVisit? && UpToDate(w, dev, e.copy) && clock <= e.now)
  }

  predicate Visits(e: Event, dev: int) {
    (e.Visit? || e.LateVisit?) && e.dev == dev
  }

  function Clock(dev: int, start: int, es: seq<Event>): int
    decreases |es|
  {
    if es == [] then start
    else
      var last := es[|es| - 1];
      if Visits(last, dev) then last.now else Clock(dev, start, es[..|es| - 1])
  }

  predicate Ended(w: World, dev: int) {
    dev in w.devices && w.devices[dev].status in {StatusCompleted, StatusError}
  }

  ghost predicate Ongoing(w: World, known: set<string>, dev: int, start: int, es: seq<Event>) {
    && (forall k :: 0 <= k < |es| ==> Allowed(Run(w, known, es[..k]), es[k], dev, Clock(dev, start, es[..k])))
    && (forall k :: 0 <= k <= |es| ==> !Ended(Run(w, known, es[..k]), dev))
  }

  /** What has been credited since the start, against the time up to the last
      loop boundary: k closed intervals have lost less than k seconds. */
  ghost predicate Credited(row: DeviceRow, row0: DeviceRow, start: int, clock: int) {
    && row.loopStartAt.Some?
    && start <= row.loopStartAt.value <= clock
    && row.loopCount >= row0.loopCount
    && 0 <= (row.loopStartAt.value - start) - (row.totalTime - row0.totalTime) * SECOND
    && (row.loopStartAt.value - start) - (row.totalTime - row0.totalTime) * SECOND
       <= (row.loopCount - row0.loopCount) * (SECOND - 1)
  }

  lemma ElapsedLoses(since: int, now: int)
    requires since <= now
    ensures 0 <= (now - since) - Elapsed(since, now) * SECOND <= SECOND - 1
  {
  }

  lemma LoopCredits(row: DeviceRow, row0: DeviceRow, start: int, clock: int, now: int)
    requires Credited(row, row0, start, clock) && clock <= now
    ensures Credited(LoopRow(row, now), row0, start, now)
  {
    ElapsedLoses(row.loopStartAt.value, now);
  }

  lemma VisitCredits(row: DeviceRow, copy: DeviceRow, flow: Option<Flow>, known: set<string>, r: StepResult,
                     row0: DeviceRow, start: int, clock: int, now: int)
    requires Credited(row, row0, start, clock) && clock <= now
    ensures var row' := VisitRowFrom(row, copy, flow, known, r, now);
            row'.status !in {StatusCompleted, StatusError} ==> Credited(row', row0, start, now)
  {
    LoopCredits(row, row0, start, clock, now);
  }

  lemma StepCredits(w: World, known: set<string>, dev: int, start: int, row0: DeviceRow, e: Event, clock: int)
    requires dev in w.devices && Credited(w.devices[dev], row0, start, clock) && Allowed(w, e, dev, clock)
    requires !Ended(Apply(w, known, e), dev)
    ensures dev in Apply(w, known, e).devices
    ensures Credited(Apply(w, known, e).devices[dev], row0, start, if Visits(e, dev) then e.now else clock)
  {
    if Visits(e, dev) {
      var row := w.devices[dev];
      var copy := if e.LateVisit? then e.copy else row;
      VisitCredits(row, copy, FlowOf(w, copy.rpaId), known, e.r, row0, start, clock, e.now);
    }
  }

  lemma {:induction false} RunCredits(w: World, known: set<string>, dev: int, start: int, row0: DeviceRow,
                                      es: seq<Event>)
    requires dev in w.devices && Credited(w.devices[dev], row0, start, start)
    requires Ongoing(w, known, dev, start, es)
    ensures dev in Run(w, known, es).devices
    ensures start <= Clock(dev, start, es)
    ensures Credited(Run(w, known, es).devices[dev], row0, start, Clock(dev, start, es))
  {
    if es != [] {
      var before, last := es[..|es| - 1], es[|es| - 1];
      assert forall k :: 0 <= k <= |before| ==> before[..k] == es[..k];
      assert forall k :: 0 <= k < |before| ==> before[k] == es[k];
      RunCredits(w, known, dev, start, row0, before);
      assert Allowed(Run(w, known, es[..|es| - 1]), es[|es| - 1], dev, Clock(dev, start, es[..|es| - 1]));
      assert es[..|es|] == es;
      StepCredits(Run(w, known, before), known, dev, start, row0, last, Clock(dev, start, before));
    }
  }

  /** Time conservation. From a start, through k loop increments (and pauses, which
      do not stop the clock), to the first completion or error after D nanoseconds,
      the seconds added to TotalTime lie in (D - (k + 1) seconds, D]. */
  lemma TotalTimeFollowsTheClock(w: World, known: set<string>, dev: int, start: int, es: seq<Event>, e: Event)
    requires dev in w.devices
    requires Ongoing(DoStart(w, dev, start), known, dev, start, es)
    requires var v := Run(DoStart(w, dev, start), known, es);
             Visits(e, dev) && Allowed(v, e, dev, Clock(dev, start, es)) && Ended(Apply(v, known, e), dev)
    ensures var end := Apply(Run(DoStart(w, dev, start), known, es), known, e).devices[dev];
            var added := end.totalTime - w.devices[dev].totalTime;
            var k := end.loopCount - w.devices[dev].loopCount;
            k >= 0 && (e.now - start) - (k + 1) * SECOND < added * SECOND <= e.now - start
  {
    var v := DoStart(w, dev, start);
    RunCredits(v, known, dev, start, w.devices[dev], es);
    assert es[..|es|] == es;
    EndCredits(Run(v, known, es), known, dev, start, w.devices[dev], e, Clock(dev, start, es));
  }

  lemma EndCredits(w: World, known: set<string>, dev: int, start: int, row0: DeviceRow, e: Event, clock: int)
    requires dev in w.devices && Credited(w.devices[dev], row0, start, clock)
    requires Visits(e, dev) && Allowed(w, e, dev, clock)
    requires !Ended(w, dev) && Ended(Apply(w, known, e), dev)
    ensures var end := Apply(w, known, e).devices[dev];
            var added := end.totalTime - row0.totalTime;
            var k := end.loopCount - row0.loopCount;
            k >= 0 && (e.now - start) - (k + 1) * SECOND < added * SECOND <= e.now - start
  {
    var row := w.devices[dev];
    var copy := if e.LateVisit? then e.copy else row;
    ElapsedLoses(row.loopStartAt.value, e.now);
    var end := VisitRowFrom(row, copy, FlowOf(w, copy.rpaId), known, e.r, e.now);
    assert end.totalTime == AddElapsed(row, e.now) && end.loopCount == row.loopCount;
  }

  /** Resuming after an error counts the time before the error twice: the interval's
      start is not reset. */
  lemma ResumeAfterErrorCountsTwice()
    ensures
      var w := World(map[1 := StartRow(NEW_ROW, 1, 0)], map[], EMPTY_TRAIL);
      var r := StepResult(true, true, "", 0, None, map[]);
      var once := Apply(w, {}, Visit(1, r, 10 * SECOND));
      var twice := Apply(Apply(once, {}, Resume(1)), {}, Visit(1, r, 10 * SECOND));
      && Ended(once, 1) && once.devices[1].totalTime == 10
      && Ended(twice, 1) && twice.devices[1].totalTime == 20
  {
    assert Elapsed(0, 10 * SECOND) == 10;
  }
}
