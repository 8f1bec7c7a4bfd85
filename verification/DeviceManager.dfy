/** The connection registry as the program runs it, over 256 shards, proved against
    one flat map from device id to connection. */
module DeviceManager {
  import opened Prelude
  import opened DeviceProtocol

  /** 90 seconds, in nanoseconds. */
  const HEARTBEAT_TIMEOUT: int := 90_000_000_000

  class DeviceConn {
    const deviceId: int
    var serialno: string
    var lastSeen: int
    var closed: bool
    var channelCloses: nat

    constructor (deviceId: int, serialno: string, now: int)
      ensures this.deviceId == deviceId && this.serialno == serialno && lastSeen == now
      ensures !closed && channelCloses == 0
    {
      this.deviceId, this.serialno, lastSeen := deviceId, serialno, now;
      closed, channelCloses := false, 0;
    }

    /** Only the call that flips the flag closes the channel. */
    method Close()
      modifies this`closed, this`channelCloses
      ensures closed && channelCloses == old(channelCloses) + if old(closed) then 0 else 1
    {
      if !closed {
        closed := true;
        channelCloses := channelCloses + 1;
      }
    }
  }

  class Manager {
    const shards: array<map<int, DeviceConn>>
    var totalConnections: int
    ghost var flat: map<int, DeviceConn>

    constructor ()
      ensures Valid() && fresh(shards) && flat == map[]
    {
      shards := new map<int, DeviceConn>[SHARDS](_ => map[]);
      totalConnections := 0;
      flat := map[];
    }

    ghost predicate Sharded()
      reads this, shards
    {
      && shards.Length == SHARDS
      && (forall id :: id in flat <==> id in shards[id % SHARDS])
      && (forall id :: id in flat ==> shards[id % SHARDS][id] == flat[id] && flat[id].deviceId == id)
      && (forall k, id :: 0 <= k < SHARDS && id in shards[k] ==> id % SHARDS == k)
    }

    ghost predicate Valid()
      reads this, shards
    {
      Sharded() && totalConnections == |flat|
    }

    /** Registered under its own id. */
    ghost predicate Registered(c: DeviceConn)
      reads this
    {
      c.deviceId in flat && flat[c.deviceId] == c
    }

    /** Adds a connection; a previous one under the same id is closed. */
    method Add(dc: DeviceConn)
      requires Valid()
      modifies this, shards, if dc.deviceId in flat then {flat[dc.deviceId]} else {}
      ensures Valid() && flat == old(flat)[dc.deviceId := dc]
      ensures dc.deviceId in old(flat) ==> old(flat)[dc.deviceId].closed
    {
      var k := dc.deviceId % SHARDS;
      ghost var before := flat;
      var shard := shards[k];
      if dc.deviceId in shard {
        shard[dc.deviceId].Close();
        totalConnections := totalConnections - 1;
      }
      shards[k] := shard[dc.deviceId := dc];
      flat := flat[dc.deviceId := dc];
      totalConnections := totalConnections + 1;
      SizeOfUpdate(before, dc.deviceId, dc);
    }

    /** Removes whatever is registered under the id, and closes it. */
    method Remove(id: int) returns (removed: Option<DeviceConn>)
      requires Valid()
      modifies this, shards, if id in flat then {flat[id]} else {}
      ensures Valid() && flat == old(flat) - {id}
      ensures removed == if id in old(flat) then Some(old(flat)[id]) else None
      ensures removed.Some? ==> removed.value.closed && removed.value.lastSeen == old(flat[id].lastSeen)
    {
      var k := id % SHARDS;
      var shard := shards[k];
      SizeOfRemoval(flat, id);
      if id !in shard {
        return None;
      }
      removed := Some(shard[id]);
      shards[k] := shard - {id};
      flat := flat - {id};
      shard[id].Close();
      totalConnections := totalConnections - 1;
    }

    method Get(id: int) returns (dc: Option<DeviceConn>)
      requires Valid()
      ensures dc == if id in flat then Some(flat[id]) else None
    {
      var shard := shards[id % SHARDS];
      dc := if id in shard then Some(shard[id]) else None;
    }

    method Count() returns (n: int)
      requires Valid()
      ensures n == |flat|
    {
      n := totalConnections;
    }

    /** The connections of one shard, each once, in no particular order. */
    method ShardConns(k: nat) returns (cs: seq<DeviceConn>)
      requires Sharded() && k < SHARDS
      ensures forall c :: c in cs ==> Registered(c) && c.deviceId % SHARDS == k
      ensures forall id :: id in flat && id % SHARDS == k ==> flat[id] in cs
      ensures forall i, j :: 0 <= i < j < |cs| ==> cs[i] != cs[j]
    {
      cs := [];
      var shard := shards[k];
      var todo := shard.Keys;
      while exists id :: id in todo
        invariant todo <= shard.Keys
        invariant forall id :: id in shard && id !in todo ==> shard[id] in cs
        invariant forall c :: c in cs ==> c.deviceId in shard && shard[c.deviceId] == c && c.deviceId !in todo
        invariant forall i, j :: 0 <= i < j < |cs| ==> cs[i] != cs[j]
        decreases todo
      {
        var id :| id in todo;
        assert flat[id] == shard[id];
        cs := cs + [shard[id]];
        todo := todo - {id};
      }
    }

    /** All registered connections, each exactly once. */
    method GetAll() returns (result: seq<DeviceConn>)
      requires Valid()
      ensures forall c :: c in result ==> Registered(c)
      ensures forall id :: id in flat ==> flat[id] in result
      ensures forall i, j :: 0 <= i < j < |result| ==> result[i] != result[j]
    {
      result := [];
      for k := 0 to SHARDS
        invariant forall c :: c in result ==> Registered(c) && c.deviceId % SHARDS < k
        invariant forall id :: id in flat && id % SHARDS < k ==> flat[id] in result
        invariant forall i, j :: 0 <= i < j < |result| ==> result[i] != result[j]
      {
        var cs := ShardConns(k);
        forall i, j | 0 <= i < |result| && 0 <= j < |cs|
          ensures result[i] != cs[j]
        {
          assert result[i] in result && cs[j] in cs;
        }
        result := result + cs;
      }
    }

    method GetBySerialNo(serialno: string) returns (dc: Option<DeviceConn>)
      requires Valid()
      ensures dc.Some? ==> Registered(dc.value) && dc.value.serialno == serialno
      ensures dc.None? ==> forall id :: id in flat ==> flat[id].serialno != serialno
    {
      var all := GetAll();
      for i := 0 to |all|
        invariant forall j :: 0 <= j < i ==> all[j].serialno != serialno
      {
        if all[i].serialno == serialno {
          return Some(all[i]);
        }
      }
      dc := None;
    }

    /** The registered connections that have been silent for too long. */
    method StaleConns(now: int) returns (stale: seq<DeviceConn>)
      requires Valid()
      ensures forall c :: c in stale ==> Registered(c)
      ensures forall id :: id in flat ==> (flat[id] in stale <==> now - flat[id].lastSeen > HEARTBEAT_TIMEOUT)
    {
      var all := GetAll();
      stale := [];
      for i := 0 to |all|
        invariant forall c :: c in stale <==> c in all[..i] && now - c.lastSeen > HEARTBEAT_TIMEOUT
      {
        if now - all[i].lastSeen > HEARTBEAT_TIMEOUT {
          stale := stale + [all[i]];
        }
      }
      assert all[..|all|] == all;
    }

    /** The registry is what it was, without the given connections, which are closed. */
    ghost predicate Without(before: map<int, DeviceConn>, gone: seq<DeviceConn>)
      reads this, before.Values
    {
      && (forall id :: id in flat <==> id in before && before[id] !in gone)
      && (forall id :: id in flat ==> flat[id] == before[id])
      && (forall id :: id in before && id !in flat ==> before[id].closed)
    }

    method RemoveOne(c: DeviceConn, ghost before: map<int, DeviceConn>, ghost gone: seq<DeviceConn>)
      requires Valid() && Without(before, gone)
      requires c.deviceId in before && before[c.deviceId] == c
      modifies this, shards, before.Values
      ensures Valid() && Without(before, gone + [c])
      ensures forall id :: id in flat ==> id in old(flat) && flat[id].closed == old(flat[id].closed)
    {
      assert c.deviceId in flat ==> flat[c.deviceId] in before.Values;
      var removed := Remove(c.deviceId);
    }

    method RemoveEach(stale: seq<DeviceConn>)
      requires Valid() && forall c :: c in stale ==> Registered(c)
      modifies this, shards, flat.Values
      ensures Valid()
      ensures forall id :: id in flat <==> id in old(flat) && old(flat)[id] !in stale
      ensures forall id :: id in flat ==> flat[id] == old(flat)[id] && flat[id].closed == old(flat[id].closed)
      ensures forall id :: id in old(flat) && id !in flat ==> old(flat)[id].closed
    {
      ghost var before := flat;
      for i := 0 to |stale|
        invariant Valid() && Without(before, stale[..i])
        invariant forall id :: id in flat ==> flat[id].closed == old(flat[id].closed)
      {
        assert stale[i] in stale;
        assert stale[..i + 1] == stale[..i] + [stale[i]];
        RemoveOne(stale[i], before, stale[..i]);
      }
      assert stale[..|stale|] == stale;
    }

    /** Removes and closes exactly the connections that have been silent for too long; those kept
        are not closed. */
    method CleanupTimeoutConnections(now: int)
      requires Valid()
      modifies this, shards, flat.Values
      ensures Valid()
      ensures forall id :: id in flat <==> id in old(flat) && now - old(flat[id].lastSeen) <= HEARTBEAT_TIMEOUT
      ensures forall id :: id in flat ==> flat[id] == old(flat)[id] && flat[id].closed == old(flat[id].closed)
      ensures forall id :: id in old(flat) && id !in flat ==> old(flat)[id].closed
    {
      var stale := StaleConns(now);
      RemoveEach(stale);
    }

    /** Closes and removes everything, shard by shard, then resets the counter. */
    method CloseAll()
      requires Valid()
      modifies this, shards, flat.Values
      ensures Valid() && flat == map[] && totalConnections == 0
      ensures forall id :: id in old(flat) ==> old(flat)[id].closed
    {
      ghost var before := flat;
      for k := 0 to SHARDS
        invariant Sharded()
        invariant forall id :: id in flat <==> id in before && id % SHARDS >= k
        invariant forall id :: id in flat ==> flat[id] == before[id]
        invariant forall id :: id in before && id !in flat ==> before[id].closed
      {
        CloseShard(k, before);
      }
      assert forall id :: id !in flat;
      assert flat == map[];
      totalConnections := 0;
    }

    method CloseShard(k: nat, ghost before: map<int, DeviceConn>)
      requires Sharded() && k < SHARDS
      requires forall id :: id in flat ==> id in before && flat[id] == before[id]
      modifies this`flat, shards, before.Values
      ensures Sharded()
      ensures forall id :: id in flat <==> id in old(flat) && id % SHARDS != k
      ensures forall id :: id in flat ==> flat[id] == old(flat)[id]
      ensures forall id :: id in before && old(before[id].closed) && id !in old(flat) ==> before[id].closed
      ensures forall id :: id in old(flat) && id !in flat ==> old(flat)[id].closed
    {
      var cs := ShardConns(k);
      assert forall c :: c in cs ==> before[c.deviceId] == c && c in before.Values;
      CloseEach(cs);
      assert forall id :: id in flat && id % SHARDS == k ==> flat[id].closed;
      DropShard(k);
    }

    method DropShard(k: nat)
      requires Sharded() && k < SHARDS
      modifies this`flat, shards
      ensures Sharded()
      ensures forall id :: id in flat <==> id in old(flat) && id % SHARDS != k
      ensures forall id :: id in flat ==> flat[id] == old(flat)[id]
    {
      shards[k] := map[];
      flat := map id | id in flat && id % SHARDS != k :: flat[id];
    }
  }

  method CloseEach(cs: seq<DeviceConn>)
    modifies set c | c in cs
    ensures forall c :: c in cs ==> c.closed
  {
    for i := 0 to |cs|
      invariant forall j :: 0 <= j < i ==> cs[j].closed
    {
      cs[i].Close();
    }
  }

  lemma SizeOfUpdate(m: map<int, DeviceConn>, id: int, c: DeviceConn)
    ensures |m[id := c]| == if id in m then |m| else |m| + 1
  {
    assert m[id := c].Keys == m.Keys + {id};
    assert |m[id := c].Keys| == |m[id := c]| && |m.Keys| == |m|;
  }

  lemma SizeOfRemoval(m: map<int, DeviceConn>, id: int)
    ensures |m - {id}| == if id in m then |m| - 1 else |m|
    ensures id !in m ==> m - {id} == m
  {
    assert (m - {id}).Keys == m.Keys - {id};
    assert |(m - {id}).Keys| == |m - {id}| && |m.Keys| == |m|;
  }
}
