/** The database operations as the program runs them, each proved to perform the row
    or trail transition of RpaModel it stands for. */
module RpaRepository {
  import opened Prelude
  import opened Values
  import opened RpaModel

  function RecordsOf(records: seq<StepRecord>, h: nat): (r: seq<StepRecord>)
    ensures forall s :: 0 <= s < |r| ==> r[s].historyId == h
  {
    if records == [] then []
    else
      var last := records[|records| - 1];
      RecordsOf(records[..|records| - 1], h) + if last.historyId == h then [last] else []
  }

  lemma CountOneMore(records: seq<StepRecord>, last: StepRecord, h: nat, status: ExecStatus)
    ensures CountRecords(records + [last], h, status)
         == CountRecords(records, h, status) + if last.historyId == h && last.status == status then 1 else 0
  {
    assert (records + [last])[..|records|] == records;
  }

  lemma {:induction false} CountsOfRecordsOf(records: seq<StepRecord>, h: nat, status: ExecStatus)
    ensures CountRecords(RecordsOf(records, h), h, status) == CountRecords(records, h, status)
  {
    if records != [] {
      var before, last := records[..|records| - 1], records[|records| - 1];
      CountsOfRecordsOf(before, h, status);
      var kept := RecordsOf(before, h);
      if last.historyId == h {
        CountOneMore(kept, last, h, status);
        assert RecordsOf(records, h) == kept + [last];
      } else {
        assert RecordsOf(records, h) == kept + [] == kept;
      }
    }
  }

  class Database {
    var devices: map<int, DeviceRow>
    var flows: map<nat, Flow>
    var histories: seq<History>
    var records: seq<StepRecord>

    constructor ()
      ensures devices == map[] && flows == map[] && histories == [] && records == []
    {
      devices, flows, histories, records := map[], map[], [], [];
    }

    // ---- Device rows ----

    method SetDeviceRpa(dev: int, rpaId: nat, mode: RunMode)
      modifies this`devices
      ensures var row := if dev in old(devices) then old(devices)[dev] else NEW_ROW;
              devices == old(devices)[dev := BindRow(row, rpaId, mode)]
    {
      var config := if dev in devices then devices[dev] else NEW_ROW;
      config := config.(rpaId := rpaId, mode := mode, status := StatusIdle);
      config := config.(currentStep := 0, subStep := 0, stepContext := map[]);
      config := config.(loopCount := 0, totalTime := 0, loopStartAt := None, lastError := "");
      devices := devices[dev := config];
    }

    method StartDevice(dev: int, now: int)
      modifies this`devices
      ensures devices ==
              if dev in old(devices) then old(devices)[dev := StartRow(old(devices)[dev], dev, now)]
              else old(devices)
    {
      if dev !in devices {
        return;
      }
      var config := devices[dev];
      config := config.(status := StatusRunning, loopStartAt := Some(now));
      config := config.(currentStep := 0, subStep := 0, stepContext := map[], flowVariables := map[]);
      config := config.(flowVariables := config.flowVariables["deviceId" := Int(dev)], lastError := "");
      devices := devices[dev := config];
    }

    method SetDeviceStatus(dev: int, status: DeviceStatus)
      modifies this`devices
      ensures devices ==
              if dev in old(devices) then old(devices)[dev := old(devices)[dev].(status := status)]
              else old(devices)
    {
      if dev in devices {
        devices := devices[dev := devices[dev].(status := status)];
      }
    }

    method StopDevice(dev: int)
      modifies this`devices
      ensures devices == if dev in old(devices) then old(devices)[dev := StopRow(old(devices)[dev])] else old(devices)
    {
      if dev in devices {
        var config := devices[dev].(status := StatusIdle, currentStep := 0, subStep := 0, stepContext := map[]);
        devices := devices[dev := config];
      }
    }

    method UpdateDeviceProgress(dev: int, step: nat, sub: int, context: Vars)
      modifies this`devices
      ensures devices ==
              if dev in old(devices) then old(devices)[dev := ProgressRow(old(devices)[dev], step, sub, context)]
              else old(devices)
    {
      if dev in devices {
        devices := devices[dev := devices[dev].(currentStep := step, subStep := sub, stepContext := context)];
      }
    }

    method MergeFlowVariables(dev: int, vars: Vars)
      modifies this`devices
      ensures devices ==
              if dev in old(devices) then old(devices)[dev := MergeRow(old(devices)[dev], vars)]
              else old(devices)
    {
      if dev in devices {
        var config := devices[dev];
        var todo := vars.Keys;
        var merged := config.flowVariables;
        while todo != {}
          invariant todo <= vars.Keys
          invariant merged.Keys == config.flowVariables.Keys + (vars.Keys - todo)
          invariant forall k :: k in merged ==>
                      merged[k] == if k in vars && k !in todo then vars[k] else config.flowVariables[k]
          decreases todo
        {
          var k :| k in todo;
          merged := merged[k := vars[k]];
          todo := todo - {k};
        }
        assert merged == config.flowVariables + vars;
        devices := devices[dev := config.(flowVariables := merged)];
      }
    }

    method SetDeviceError(dev: int, message: string, now: int)
      modifies this`devices
      ensures devices ==
              if dev in old(devices) then old(devices)[dev := ErrorRow(old(devices)[dev], message, now)]
              else old(devices)
    {
      if dev in devices {
        var config := devices[dev];
        var updates := config.(status := StatusError, lastError := message, failCount := config.failCount + 1);
        if config.loopStartAt.Some? {
          updates := updates.(totalTime := config.totalTime + Elapsed(config.loopStartAt.value, now));
        }
        devices := devices[dev := updates];
      }
    }

    method SetDeviceCompleted(dev: int, now: int)
      modifies this`devices
      ensures devices ==
              if dev in old(devices) then old(devices)[dev := CompletedRow(old(devices)[dev], now)]
              else old(devices)
    {
      if dev in devices {
        var config := devices[dev];
        if config.loopStartAt.Some? {
          config := config.(totalTime := config.totalTime + Elapsed(config.loopStartAt.value, now));
        }
        config := config.(status := StatusCompleted, successCount := config.successCount + 1);
        devices := devices[dev := config];
      }
    }

    method IncrementLoopCount(dev: int, now: int)
      modifies this`devices
      ensures devices ==
              if dev in old(devices) then old(devices)[dev := LoopRow(old(devices)[dev], now)]
              else old(devices)
    {
      if dev in devices {
        var config := devices[dev].(loopCount := devices[dev].loopCount + 1);
        if config.loopStartAt.Some? {
          config := config.(totalTime := config.totalTime + Elapsed(config.loopStartAt.value, now));
        }
        config := config.(loopStartAt := Some(now));
        devices := devices[dev := config];
      }
    }

    /** Every running device once, each with a copy of its row. */
    method GetRunningDevices() returns (configs: seq<(int, DeviceRow)>)
      ensures forall i :: 0 <= i < |configs| ==>
                configs[i].0 in devices && configs[i].1 == devices[configs[i].0] && configs[i].1.status == StatusRunning
      ensures forall i, j :: 0 <= i < j < |configs| ==> configs[i].0 != configs[j].0
      ensures forall d :: d in devices && devices[d].status == StatusRunning ==>
                exists i :: 0 <= i < |configs| && configs[i].0 == d
    {
      configs := [];
      var todo := devices.Keys;
      while exists d :: d in todo
        invariant todo <= devices.Keys
        invariant forall i :: 0 <= i < |configs| ==>
                    && configs[i].0 in devices && configs[i].0 !in todo
                    && configs[i].1 == devices[configs[i].0] && configs[i].1.status == StatusRunning
        invariant forall i, j :: 0 <= i < j < |configs| ==> configs[i].0 != configs[j].0
        invariant forall d :: d in devices && d !in todo && devices[d].status == StatusRunning ==>
                    exists i :: 0 <= i < |configs| && configs[i].0 == d
        decreases todo
      {
        var d :| d in todo;
        todo := todo - {d};
        if devices[d].status == StatusRunning {
          ghost var before := configs;
          configs := configs + [(d, devices[d])];
          assert configs[|before|].0 == d;
          forall e | e in devices && e !in todo && devices[e].status == StatusRunning
            ensures exists i :: 0 <= i < |configs| && configs[i].0 == e
          {
            if e != d {
              var i :| 0 <= i < |before| && before[i].0 == e;
              assert configs[i].0 == e;
            }
          }
        }
      }
    }

    // ---- Histories and step records ----

    method CancelRunningExecutions(dev: int)
      modifies this`histories
      ensures histories == CancelAll(old(histories), dev)
    {
      var i := 0;
      while i < |histories|
        invariant 0 <= i <= |histories| == |old(histories)|
        invariant forall j :: 0 <= j < i ==> histories[j] == Cancel(old(histories)[j], dev)
        invariant forall j :: i <= j < |histories| ==> histories[j] == old(histories)[j]
      {
        if histories[i].deviceId == dev && histories[i].status == ExecRunning {
          histories := histories[i := histories[i].(status := ExecCancelled)];
        }
        i := i + 1;
      }
    }

    method CreateExecutionHistory(dev: int, rpaId: nat, total: nat) returns (id: nat)
      modifies this`histories
      ensures id == |old(histories)|
      ensures histories == old(histories) + [History(dev, rpaId, ExecRunning, total, 0, 0, 0, "")]
    {
      id := |histories|;
      histories := histories + [History(dev, rpaId, ExecRunning, total, 0, 0, 0, "")];
    }

    method GetExecutionSteps(h: nat) returns (rows: seq<StepRecord>)
      ensures rows == RecordsOf(records, h)
    {
      rows := [];
      var i := 0;
      while i < |records|
        invariant 0 <= i <= |records|
        invariant rows == RecordsOf(records[..i], h)
      {
        assert records[..i + 1][..i] == records[..i];
        if records[i].historyId == h {
          rows := rows + [records[i]];
        }
        i := i + 1;
      }
      assert records[..i] == records;
    }

    method CompleteExecution(h: nat, status: ExecStatus, success: nat, failed: nat, message: string)
      modifies this`histories
      ensures histories == if h < |old(histories)| then
                             old(histories)[h := old(histories)[h].(status := status, successSteps := success,
                               failedSteps := failed, errorMessage := message)]
                           else old(histories)
    {
      if h < |histories| {
        histories := histories[h := histories[h].(status := status, successSteps := success,
          failedSteps := failed, errorMessage := message)];
      }
    }

    method UpdateExecutionProgress(h: nat, step: nat)
      modifies this`histories
      ensures histories ==
              if h < |old(histories)| then old(histories)[h := old(histories)[h].(currentStep := step)]
              else old(histories)
    {
      if h < |histories| {
        histories := histories[h := histories[h].(currentStep := step)];
      }
    }

    method CreateExecutionStep(h: nat, dev: int, step: nat) returns (id: nat)
      modifies this`records
      ensures id == |old(records)|
      ensures records == old(records) + [StepRecord(h, dev, step, ExecRunning, "")]
    {
      id := |records|;
      records := records + [StepRecord(h, dev, step, ExecRunning, "")];
    }

    method CompleteExecutionStep(s: nat, status: ExecStatus, message: string)
      modifies this`records
      ensures records == if s < |old(records)| then
                           old(records)[s := old(records)[s].(status := status, errorMessage := message)]
                         else old(records)
    {
      if s < |records| {
        records := records[s := records[s].(status := status, errorMessage := message)];
      }
    }
  }
}
