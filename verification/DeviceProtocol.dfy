/** The sharded connection registry as a state machine: locked sections, the separate
    counter update of an add, and the two halves of closing a connection are all
    separate steps that interleave freely. */
module DeviceProtocol {
  import opened Prelude

  const SHARDS: nat := 256

  function Empties(n: nat): (shards: seq<map<int, int>>)
    ensures |shards| == n && forall k :: 0 <= k < n ==> shards[k] == map[]
  {
    if n == 0 then [] else Empties(n - 1) + [map[]]
  }

  type Shards = s: seq<map<int, int>> | |s| == SHARDS witness Empties(SHARDS)

  // ---- Shards as one flat map ----

  /** The shards hold exactly the flat map, each key in the shard of its residue. */
  ghost predicate Represents(shards: seq<map<int, int>>, flat: map<int, int>)
    requires |shards| == SHARDS
  {
    && (forall id: int :: id in flat <==> id in shards[id % SHARDS])
    && (forall id: int :: id in flat ==> shards[id % SHARDS][id] == flat[id])
    && (forall k, id :: 0 <= k < SHARDS && id in shards[k] ==> id % SHARDS == k)
  }

  /** Number of entries in all shards. */
  function Size(shards: seq<map<int, int>>): nat {
    if shards == [] then 0 else Size(shards[..|shards| - 1]) + |shards[|shards| - 1]|
  }

  lemma {:induction false} SizeUpdate(shards: seq<map<int, int>>, k: nat, m: map<int, int>)
    requires k < |shards|
    ensures Size(shards[k := m]) == Size(shards) - |shards[k]| + |m|
  {
    var n := |shards| - 1;
    if k == n {
      assert shards[k := m][..n] == shards[..n];
    } else {
      assert shards[k := m][..n] == shards[..n][k := m];
      SizeUpdate(shards[..n], k, m);
    }
  }

  lemma {:induction false} SizeEmpty(shards: seq<map<int, int>>)
    requires forall k :: 0 <= k < |shards| ==> shards[k] == map[]
    ensures Size(shards) == 0
  {
    if shards != [] {
      SizeEmpty(shards[..|shards| - 1]);
    }
  }

  /** The ids whose shard comes before shard k. */
  function Below(flat: map<int, int>, k: nat): set<int> {
    set id | id in flat && id % SHARDS < k
  }

  lemma BelowNext(shards: seq<map<int, int>>, flat: map<int, int>, k: nat)
    requires |shards| == SHARDS && Represents(shards, flat) && k < SHARDS
    ensures Below(flat, k + 1) == Below(flat, k) + shards[k].Keys
    ensures Below(flat, k) !! shards[k].Keys
  {
    forall id | id in shards[k].Keys ensures id in Below(flat, k + 1) && id !in Below(flat, k) {
      assert id % SHARDS == k;
    }
    forall id | id in Below(flat, k + 1) && id !in Below(flat, k) ensures id in shards[k].Keys {
      assert id % SHARDS == k;
    }
  }

  lemma {:induction false} SizeOfPrefix(shards: seq<map<int, int>>, flat: map<int, int>, k: nat)
    requires |shards| == SHARDS && Represents(shards, flat) && k <= SHARDS
    ensures Size(shards[..k]) == |Below(flat, k)|
  {
    if k == 0 {
      assert Below(flat, k) == {};
    } else {
      SizeOfPrefix(shards, flat, k - 1);
      BelowNext(shards, flat, k - 1);
      assert shards[..k][..k - 1] == shards[..k - 1];
      CardinalityOfUnion(Below(flat, k - 1), shards[k - 1]);
    }
  }

  lemma CardinalityOfUnion(a: set<int>, m: map<int, int>)
    requires a !! m.Keys
    ensures |a + m.Keys| == |a| + |m|
  {
    assert |m.Keys| == |m|;
  }

  /** The sizes of the shards add up to the size of the flat map. */
  lemma SizeIsFlatSize(shards: seq<map<int, int>>, flat: map<int, int>)
    requires |shards| == SHARDS && Represents(shards, flat)
    ensures Size(shards) == |flat|
  {
    SizeOfPrefix(shards, flat, SHARDS);
    assert shards[..SHARDS] == shards;
    assert Below(flat, SHARDS) == flat.Keys;
  }

  // ---- States and steps ----

  datatype State = State(
    shards: Shards,
    total: int,                 // totalConnections
    pending: nat,               // adds between their locked section and their increment
    added: map<int, int>,       // every connection ever added, with the id it was added under
    closed: set<int>,           // connections whose compare-and-swap was won
    closing: set<int>,          // winners that have not closed the channel yet
    chanCloses: multiset<int>,  // how often each connection's channel was closed
    sweep: Option<nat>,         // CloseAll: shards already emptied
    swept: nat)                 // connections it has removed so far

  const INIT := State(Empties(SHARDS), 0, 0, map[], {}, {}, multiset{}, None, 0)

  datatype Step =
    | AddLocked(conn: int, id: int)
    | AddCount
    | Remove(id: int)
    | CloseConn(conn: int)
    | CloseChannel(conn: int)
    | SweepStart
    | SweepShard
    | SweepStore

  /** Each connection is added once; the sweep goes through the shards in order. */
  predicate Enabled(s: State, a: Step) {
    match a
    case AddLocked(conn, id) => conn !in s.added
    case AddCount => s.pending > 0
    case Remove(id) => true
    case CloseConn(conn) => true
    case CloseChannel(conn) => conn in s.closing
    case SweepStart => s.sweep == None
    case SweepShard => s.sweep.Some? && s.sweep.value < SHARDS
    case SweepStore => s.sweep == Some(SHARDS)
  }

  /** Only the first of all callers wins the compare-and-swap. */
  function CloseAllOf(s: State, conns: set<int>): State {
    s.(closed := s.closed + conns, closing := s.closing + (conns - s.closed))
  }

  function Apply(s: State, a: Step): State {
    if !Enabled(s, a) then s
    else match a
      case AddLocked(conn, id) =>
        var shard := s.shards[id % SHARDS];
        var t := if id in shard then CloseAllOf(s, {shard[id]}).(total := s.total - 1) else s;
        t.(shards := s.shards[id % SHARDS := shard[id := conn]], added := s.added[conn := id], pending := s.pending + 1)
      case AddCount => s.(pending := s.pending - 1, total := s.total + 1)
      case Remove(id) =>
        var shard := s.shards[id % SHARDS];
        if id in shard then
          CloseAllOf(s, {shard[id]}).(shards := s.shards[id % SHARDS := shard - {id}], total := s.total - 1)
        else s
      case CloseConn(conn) => CloseAllOf(s, {conn})
      case CloseChannel(conn) => s.(closing := s.closing - {conn}, chanCloses := s.chanCloses + multiset{conn})
      case SweepStart => s.(sweep := Some(0), swept := 0)
      case SweepShard =>
        var k := s.sweep.value;
        CloseAllOf(s, s.shards[k].Values).(shards := s.shards[k := map[]], sweep := Some(k + 1),
            swept := s.swept + |s.shards[k]|)
      case SweepStore => s.(total := 0, sweep := None, swept := 0)
  }

  function Run(s: State, steps: seq<Step>): State
    decreases |steps|
  {
    if steps == [] then s else Apply(Run(s, steps[..|steps| - 1]), steps[|steps| - 1])
  }

  // ---- The counter ----

  /** The counter and the adds still to be counted make up all registered connections,
      plus those a running CloseAll has removed without counting. */
  predicate Balanced(s: State) {
    s.total + s.pending == Size(s.shards) + s.swept
  }

  lemma AddBalances(s: State, conn: int, id: int)
    requires Balanced(s) && Enabled(s, AddLocked(conn, id))
    ensures Balanced(Apply(s, AddLocked(conn, id)))
  {
    var shard := s.shards[id % SHARDS];
    SizeUpdate(s.shards, id % SHARDS, shard[id := conn]);
    if id in shard {
      assert shard[id := conn].Keys == shard.Keys;
    } else {
      assert shard[id := conn].Keys == shard.Keys + {id};
    }
    assert |shard.Keys| == |shard| && |shard[id := conn].Keys| == |shard[id := conn]|;
  }

  lemma RemoveBalances(s: State, id: int)
    requires Balanced(s) && Enabled(s, Remove(id))
    ensures Balanced(Apply(s, Remove(id)))
  {
    var shard := s.shards[id % SHARDS];
    if id in shard {
      SizeUpdate(s.shards, id % SHARDS, shard - {id});
      assert (shard - {id}).Keys == shard.Keys - {id};
      assert |shard.Keys| == |shard| && |(shard - {id}).Keys| == |shard - {id}|;
    }
  }

  lemma StepBalances(s: State, a: Step)
    requires Balanced(s) && (a.SweepStart? && Enabled(s, a) ==> s.swept == 0) && !(a.SweepStore? && Enabled(s, a))
    ensures Balanced(Apply(s, a))
  {
    if Enabled(s, a) {
      match a
      case AddLocked(conn, id) => AddBalances(s, conn, id);
      case Remove(id) => RemoveBalances(s, id);
      case SweepShard =>
        SizeUpdate(s.shards, s.sweep.value, map[]);
      case _ =>
    }
  }

  /** The final store of CloseAll is right exactly when the adds still to be counted
      are all there is in the shards. */
  lemma StoreBalances(s: State)
    requires Balanced(s) && Enabled(s, SweepStore)
    ensures Balanced(Apply(s, SweepStore)) <==> s.pending == Size(s.shards)
  {
  }

  // ---- A reachable state in which CloseAll miscounts ----

  function Sweeps(n: nat): seq<Step> {
    if n == 0 then [] else Sweeps(n - 1) + [SweepShard]
  }

  /** One add whose increment is still to come, then CloseAll up to shard n. */
  function AddThenSweep(n: nat): seq<Step> {
    [AddLocked(7, 0), SweepStart] + Sweeps(n)
  }

  /** The first n shards are swept, and only shard 0 had anything in it. */
  ghost predicate SweptUpTo(s: State, n: nat) {
    && s.sweep == Some(n) && s.total == 0 && s.pending == 1
    && forall k :: 0 <= k < SHARDS && (k < n || k > 0) ==> s.shards[k] == map[]
  }

  lemma SweepStarts()
    ensures SweptUpTo(Run(INIT, AddThenSweep(0)), 0)
  {
    var steps := AddThenSweep(0);
    assert steps[..1] == [AddLocked(7, 0)] && steps[..1][..0] == [];
    assert Run(INIT, steps[..1]) == Apply(INIT, AddLocked(7, 0));
  }

  lemma SweepGoesOn(s: State, n: nat)
    requires SweptUpTo(s, n) && n < SHARDS
    ensures SweptUpTo(Apply(s, SweepShard), n + 1)
  {
    assert Apply(s, SweepShard).shards == s.shards[n := map[]];
  }

  lemma {:induction false} SweptSoFar(n: nat)
    requires n <= SHARDS
    ensures SweptUpTo(Run(INIT, AddThenSweep(n)), n)
  {
    if n == 0 {
      SweepStarts();
    } else {
      SweptSoFar(n - 1);
      SweepGoesOn(Run(INIT, AddThenSweep(n - 1)), n - 1);
      SweepsOn(n);
      RunSnoc(AddThenSweep(n - 1), SweepShard);
    }
  }

  lemma SweepsOn(n: nat)
    requires n > 0
    ensures AddThenSweep(n) == AddThenSweep(n - 1) + [SweepShard]
  {
  }

  lemma RunSnoc(steps: seq<Step>, a: Step)
    ensures Run(INIT, steps + [a]) == Apply(Run(INIT, steps), a)
  {
    assert (steps + [a])[..|steps|] == steps;
  }

  /** The counter is wrong for good after: add, CloseAll, and only then the add's increment.
      It shows one connection, and none is registered. */
  lemma LateIncrementMiscounts()
    ensures var s := Run(INIT, AddThenSweep(SHARDS) + [SweepStore, AddCount]);
            s.sweep == None && s.pending == 0 && s.total == 1 && Size(s.shards) == 0 && !Balanced(s)
  {
    var swept := AddThenSweep(SHARDS);
    SweptSoFar(SHARDS);
    SizeEmpty(Run(INIT, swept).shards);
    RunSnoc(swept, SweepStore);
    RunSnoc(swept + [SweepStore], AddCount);
    assert swept + [SweepStore] + [AddCount] == swept + [SweepStore, AddCount];
  }

  /** CloseAll does not overlap with adds. */
  predicate Calm(s: State, a: Step) {
    && (a.AddLocked? ==> s.sweep == None)
    && (a.SweepStart? ==> s.pending == 0)
  }

  ghost predicate CalmRun(s: State, steps: seq<Step>) {
    forall k :: 0 <= k < |steps| ==> Calm(Run(s, steps[..k]), steps[k])
  }

  ghost predicate InStep(s: State) {
    && Balanced(s)
    && (s.sweep == None ==> s.swept == 0)
    && (s.sweep.Some? ==> s.pending == 0 && s.sweep.value <= SHARDS
                          && forall k :: 0 <= k < s.sweep.value ==> s.shards[k] == map[])
  }

  lemma CalmStep(s: State, a: Step)
    requires InStep(s) && Calm(s, a)
    ensures InStep(Apply(s, a))
  {
    if a.SweepStore? && Enabled(s, a) {
      SizeEmpty(s.shards);
      StoreBalances(s);
    } else {
      StepBalances(s, a);
    }
  }

  lemma {:induction false} CalmRunInStep(steps: seq<Step>)
    requires CalmRun(INIT, steps)
    ensures InStep(Run(INIT, steps))
  {
    if steps == [] {
      SizeEmpty(INIT.shards);
    } else {
      var before := steps[..|steps| - 1];
      assert forall k :: 0 <= k < |before| ==> before[..k] == steps[..k] && before[k] == steps[k];
      CalmRunInStep(before);
      assert Calm(Run(INIT, steps[..|steps| - 1]), steps[|steps| - 1]);
      CalmStep(Run(INIT, before), steps[|steps| - 1]);
    }
  }

  // ---- The flat map ----

  /** What each step does to the one map the shards stand for. */
  function FlatStep(flat: map<int, int>, s: State, a: Step): map<int, int> {
    if !Enabled(s, a) then flat
    else match a
      case AddLocked(conn, id) => flat[id := conn]
      case Remove(id) => flat - {id}
      case SweepShard => map id | id in flat && id % SHARDS != s.sweep.value :: flat[id]
      case _ => flat
  }

  lemma StepRefinesFlat(s: State, a: Step, flat: map<int, int>)
    requires Represents(s.shards, flat)
    ensures Represents(Apply(s, a).shards, FlatStep(flat, s, a))
  {
    var s' := Apply(s, a);
    if Enabled(s, a) && (a.AddLocked? || a.Remove?) {
      assert forall k :: 0 <= k < SHARDS && k != a.id % SHARDS ==> s'.shards[k] == s.shards[k];
    }
  }

  function FlatRun(steps: seq<Step>): map<int, int>
    decreases |steps|
  {
    if steps == [] then map[]
    else FlatStep(FlatRun(steps[..|steps| - 1]), Run(INIT, steps[..|steps| - 1]), steps[|steps| - 1])
  }

  lemma {:induction false} ShardsRefineOneMap(steps: seq<Step>)
    ensures Represents(Run(INIT, steps).shards, FlatRun(steps))
  {
    if steps != [] {
      var before := steps[..|steps| - 1];
      ShardsRefineOneMap(before);
      StepRefinesFlat(Run(INIT, before), steps[|steps| - 1], FlatRun(before));
    }
  }

  /** In every interleaving in which CloseAll does not overlap with adds, outside
      CloseAll the counter plus the adds still to be counted is the number of
      registered connections. */
  lemma CounterIsExact(steps: seq<Step>)
    requires CalmRun(INIT, steps) && Run(INIT, steps).sweep == None
    ensures var s := Run(INIT, steps); s.total + s.pending == |FlatRun(steps)|
  {
    CalmRunInStep(steps);
    ShardsRefineOneMap(steps);
    SizeIsFlatSize(Run(INIT, steps).shards, FlatRun(steps));
  }

  // ---- Who is registered ----

  /** The step takes whoever is registered under the id away from there. */
  predicate Displaces(s: State, a: Step, id: int) {
    && Enabled(s, a)
    && match a
       case AddLocked(_, i) => i == id
       case Remove(i) => i == id
       case SweepShard => s.sweep.value == id % SHARDS
       case _ => false
  }

  /** Step t adds the connection under the id. */
  predicate AddedAt(steps: seq<Step>, t: nat, conn: int, id: int)
    requires t < |steps|
  {
    steps[t] == AddLocked(conn, id) && Enabled(Run(INIT, steps[..t]), steps[t])
  }

  predicate DisplacedAt(steps: seq<Step>, t: nat, id: int)
    requires t < |steps|
  {
    Displaces(Run(INIT, steps[..t]), steps[t], id)
  }

  /** The connection was added under the id by step t, and nothing has displaced it since. */
  ghost predicate AddedLast(steps: seq<Step>, t: nat, conn: int, id: int) {
    t < |steps| && AddedAt(steps, t, conn, id) && Undisplaced(steps, t, id)
  }

  ghost predicate Undisplaced(steps: seq<Step>, t: nat, id: int) {
    forall u :: t < u < |steps| ==> !DisplacedAt(steps, u, id)
  }

  lemma FlatNext(steps: seq<Step>, conn: int, id: int)
    requires steps != []
    ensures var before, n := steps[..|steps| - 1], |steps| - 1;
            id in FlatRun(steps) && FlatRun(steps)[id] == conn <==>
              AddedAt(steps, n, conn, id)
              || (id in FlatRun(before) && FlatRun(before)[id] == conn && !DisplacedAt(steps, n, id))
  {
  }

  lemma SameBefore(steps: seq<Step>, t: nat, conn: int, id: int)
    requires t + 1 < |steps|
    ensures AddedAt(steps, t, conn, id) <==> AddedAt(steps[..|steps| - 1], t, conn, id)
    ensures DisplacedAt(steps, t, id) <==> DisplacedAt(steps[..|steps| - 1], t, id)
  {
    assert steps[..|steps| - 1][..t] == steps[..t];
  }

  lemma UndisplacedBefore(steps: seq<Step>, t: nat, id: int)
    requires t + 1 < |steps|
    ensures Undisplaced(steps, t, id)
            <==> Undisplaced(steps[..|steps| - 1], t, id) && !DisplacedAt(steps, |steps| - 1, id)
  {
    var n := |steps| - 1;
    if Undisplaced(steps, t, id) {
      forall u | t < u < n ensures !DisplacedAt(steps[..n], u, id) {
        SameBefore(steps, u, 0, id);
      }
    }
    if Undisplaced(steps[..n], t, id) && !DisplacedAt(steps, n, id) {
      forall u | t < u < |steps| ensures !DisplacedAt(steps, u, id) {
        if u < n {
          SameBefore(steps, u, 0, id);
        }
      }
    }
  }

  lemma AddedLastBefore(steps: seq<Step>, t: nat, conn: int, id: int)
    requires t + 1 < |steps|
    ensures AddedLast(steps, t, conn, id)
            <==> AddedLast(steps[..|steps| - 1], t, conn, id) && !DisplacedAt(steps, |steps| - 1, id)
  {
    SameBefore(steps, t, conn, id);
    UndisplacedBefore(steps, t, id);
  }

  ghost predicate EverAddedLast(steps: seq<Step>, conn: int, id: int) {
    exists t: nat :: AddedLast(steps, t, conn, id)
  }

  lemma AddedLastNext(steps: seq<Step>, conn: int, id: int)
    requires steps != []
    ensures EverAddedLast(steps, conn, id) <==>
              AddedAt(steps, |steps| - 1, conn, id)
              || (EverAddedLast(steps[..|steps| - 1], conn, id) && !DisplacedAt(steps, |steps| - 1, id))
  {
    var n := |steps| - 1;
    forall t: nat | t < n
      ensures AddedLast(steps, t, conn, id) <==> AddedLast(steps[..n], t, conn, id) && !DisplacedAt(steps, n, id)
    {
      AddedLastBefore(steps, t, conn, id);
    }
    assert AddedLast(steps, n, conn, id) <==> AddedAt(steps, n, conn, id);
    if EverAddedLast(steps[..n], conn, id) {
      var t: nat :| AddedLast(steps[..n], t, conn, id);
      assert t < n;
    }
    if EverAddedLast(steps, conn, id) {
      var t: nat :| AddedLast(steps, t, conn, id);
      assert t == n || t < n;
    }
  }

  /** In every interleaving, the connection registered under an id is the one that was added last,
      with neither a removal of the id nor the sweep of its shard after it; a connection added
      takes the place of the one before. */
  lemma {:induction false} RegisteredIsTheLastAdded(steps: seq<Step>, conn: int, id: int)
    ensures id in FlatRun(steps) && FlatRun(steps)[id] == conn <==> exists t: nat :: AddedLast(steps, t, conn, id)
  {
    if steps != [] {
      RegisteredIsTheLastAdded(steps[..|steps| - 1], conn, id);
      FlatNext(steps, conn, id);
      AddedLastNext(steps, conn, id);
    }
  }

  /** An add closes the connection whose place it takes, and no other. */
  lemma AddClosesTheReplaced(steps: seq<Step>, conn: int, id: int)
    requires conn !in Run(INIT, steps).added
    ensures Run(INIT, steps + [AddLocked(conn, id)]).closed
         == Run(INIT, steps).closed + if id in FlatRun(steps) then {FlatRun(steps)[id]} else {}
  {
    ShardsRefineOneMap(steps);
    RunSnoc(steps, AddLocked(conn, id));
  }

  // ---- Ownership of connections ----

  predicate RegisteredAt(s: State, conn: int, id: int) {
    id in s.shards[id % SHARDS] && s.shards[id % SHARDS][id] == conn
  }

  /** Each registered connection is registered under the id it was added with, each
      connection ever added is registered or closed, and each closed one has closed
      its channel once or is about to. */
  ghost predicate Owned(s: State) {
    && (forall k, id :: 0 <= k < SHARDS && id in s.shards[k] ==>
          id % SHARDS == k && s.shards[k][id] in s.added && s.added[s.shards[k][id]] == id)
    && (forall c :: c in s.added ==>
          c in s.closed || RegisteredAt(s, c, s.added[c]))
    && s.closing <= s.closed
    && (forall c: int :: s.chanCloses[c] == if c in s.closed && c !in s.closing then 1 else 0)
  }

  lemma AddOwned(s: State, conn: int, id: int)
    requires Owned(s) && conn !in s.added
    ensures Owned(Apply(s, AddLocked(conn, id)))
  {
    var s' := Apply(s, AddLocked(conn, id));
    forall c | c in s'.added
      ensures c in s'.closed || RegisteredAt(s', c, s'.added[c])
    {
      if c != conn && s.added[c] == id {
        assert c in s'.closed;
      }
    }
  }

  lemma RemoveOwned(s: State, id: int)
    requires Owned(s)
    ensures Owned(Apply(s, Remove(id)))
  {
  }

  lemma SweepOwned(s: State)
    requires Owned(s) && Enabled(s, SweepShard)
    ensures Owned(Apply(s, SweepShard))
  {
    var k := s.sweep.value;
    var s' := Apply(s, SweepShard);
    forall c | c in s'.added
      ensures c in s'.closed || RegisteredAt(s', c, s'.added[c])
    {
      if c !in s.closed && s.added[c] % SHARDS == k {
        assert s.shards[k][s.added[c]] in s.shards[k].Values;
      }
    }
  }

  lemma StepOwned(s: State, a: Step)
    requires Owned(s)
    ensures Owned(Apply(s, a))
  {
    if Enabled(s, a) {
      match a
      case AddLocked(conn, id) => AddOwned(s, conn, id);
      case Remove(id) => RemoveOwned(s, id);
      case SweepShard => SweepOwned(s);
      case _ =>
    }
  }

  /** In every interleaving, with each connection added once, every connection ever
      added is registered under exactly its own id or closed, and no channel is closed
      twice however many callers race. */
  lemma {:induction false} ConnectionsAreOwned(steps: seq<Step>)
    ensures Owned(Run(INIT, steps))
    ensures forall c: int :: Run(INIT, steps).chanCloses[c] <= 1
  {
    if steps != [] {
      ConnectionsAreOwned(steps[..|steps| - 1]);
      StepOwned(Run(INIT, steps[..|steps| - 1]), steps[|steps| - 1]);
    }
  }

  // ---- Scans that overlap with everything else ----

  /** A scan locks the shards one after the other: shard k is read after times[k] steps. */
  predicate ScanTimes(steps: seq<Step>, times: seq<nat>) {
    && |times| == SHARDS
    && (forall j, k :: 0 <= j <= k < SHARDS ==> times[j] <= times[k])
    && (forall k :: 0 <= k < SHARDS ==> times[k] <= |steps|)
  }

  /** What a scan has collected from the first n shards, each connection with its id. */
  function Scan(steps: seq<Step>, times: seq<nat>, n: nat): map<int, int>
    requires ScanTimes(steps, times) && n <= SHARDS
  {
    if n == 0 then map[]
    else Scan(steps, times, n - 1) + Run(INIT, steps[..times[n - 1]]).shards[n - 1]
  }

  /** After t steps the connection is the one registered under the id. */
  predicate Registered(steps: seq<Step>, t: nat, conn: int, id: int)
    requires t <= |steps|
  {
    id in FlatRun(steps[..t]) && FlatRun(steps[..t])[id] == conn
  }

  lemma {:induction false} ScanReads(steps: seq<Step>, times: seq<nat>, n: nat, conn: int, id: int)
    requires ScanTimes(steps, times) && n <= SHARDS
    ensures id in Scan(steps, times, n) && Scan(steps, times, n)[id] == conn
            <==> id % SHARDS < n && Registered(steps, times[id % SHARDS], conn, id)
  {
    if n > 0 {
      ScanReads(steps, times, n - 1, conn, id);
      ShardsRefineOneMap(steps[..times[n - 1]]);
    }
  }

  /** A scan returns only connections that were registered at some moment of it, and all that
      were registered throughout. */
  lemma ScanSeesTheRegistered(steps: seq<Step>, times: seq<nat>, conn: int, id: int)
    requires ScanTimes(steps, times)
    ensures var all := Scan(steps, times, SHARDS);
            id in all && all[id] == conn ==>
              exists t :: times[0] <= t <= times[SHARDS - 1] && Registered(steps, t, conn, id)
    ensures var all := Scan(steps, times, SHARDS);
            (forall t :: times[0] <= t <= times[SHARDS - 1] ==> Registered(steps, t, conn, id)) ==>
              id in all && all[id] == conn
  {
    ScanReads(steps, times, SHARDS, conn, id);
    assert times[0] <= times[id % SHARDS] <= times[SHARDS - 1];
  }

  lemma ApplyKeeps(s: State, a: Step)
    ensures s.closed <= Apply(s, a).closed
    ensures forall c :: c in s.added ==> c in Apply(s, a).added && Apply(s, a).added[c] == s.added[c]
  {
  }

  /** A connection stays closed, and stays added under its id. */
  lemma {:induction false} LaterKeeps(steps: seq<Step>, t: nat)
    requires t <= |steps|
    ensures Run(INIT, steps[..t]).closed <= Run(INIT, steps).closed
    ensures forall c :: c in Run(INIT, steps[..t]).added ==>
              c in Run(INIT, steps).added && Run(INIT, steps).added[c] == Run(INIT, steps[..t]).added[c]
  {
    if t == |steps| {
      assert steps[..t] == steps;
    } else {
      var before := steps[..|steps| - 1];
      assert before[..t] == steps[..t];
      LaterKeeps(before, t);
      ApplyKeeps(Run(INIT, before), steps[|steps| - 1]);
    }
  }

  /** Whoever was ever registered under an id is added under it for good. */
  lemma RegisteredWasAdded(steps: seq<Step>, t: nat, conn: int, id: int)
    requires t <= |steps| && Registered(steps, t, conn, id)
    ensures conn in Run(INIT, steps).added && Run(INIT, steps).added[conn] == id
  {
    ShardsRefineOneMap(steps[..t]);
    ConnectionsAreOwned(steps[..t]);
    assert Run(INIT, steps[..t]).shards[id % SHARDS][id] == conn;
    LaterKeeps(steps, t);
  }

  /** No connection is returned twice. */
  lemma ScanHasNoDoubles(steps: seq<Step>, times: seq<nat>, id: int, other: int)
    requires ScanTimes(steps, times)
    requires var all := Scan(steps, times, SHARDS); id in all && other in all && all[id] == all[other]
    ensures id == other
  {
    var conn := Scan(steps, times, SHARDS)[id];
    ScanReads(steps, times, SHARDS, conn, id);
    ScanReads(steps, times, SHARDS, conn, other);
    RegisteredWasAdded(steps, times[id % SHARDS], conn, id);
    RegisteredWasAdded(steps, times[other % SHARDS], conn, other);
  }

  /** A scan is no snapshot: here it returns connections under two ids that were never
      registered at the same moment. */
  lemma ScanIsNoSnapshot() returns (steps: seq<Step>, times: seq<nat>)
    ensures ScanTimes(steps, times)
    ensures 0 in Scan(steps, times, SHARDS) && 1 in Scan(steps, times, SHARDS)
    ensures forall t :: 0 <= t <= |steps| ==> !(0 in FlatRun(steps[..t]) && 1 in FlatRun(steps[..t]))
  {
    steps := ComeAndGo();
    times := Torn();
    ScanReads(steps, times, SHARDS, 7, 0);
    ScanReads(steps, times, SHARDS, 8, 1);
    forall t | 0 <= t <= |steps| ensures !(0 in FlatRun(steps[..t]) && 1 in FlatRun(steps[..t])) {
      assert t == 0 || t == 1 || t == 2 || t == 3;
    }
  }

  /** Shard 0 is read after the first step, all others after the third. */
  function Torn(): (times: seq<nat>)
    ensures |times| == SHARDS && times[0] == 1 && forall k :: 0 < k < SHARDS ==> times[k] == 3
  {
    seq(SHARDS, k => if k == 0 then 1 else 3)
  }

  lemma ComeAndGo() returns (steps: seq<Step>)
    ensures |steps| == 3
    ensures FlatRun(steps[..0]) == map[] && FlatRun(steps[..1]) == map[0 := 7]
    ensures FlatRun(steps[..2]) == map[] && FlatRun(steps[..3]) == map[1 := 8]
  {
    steps := [AddLocked(7, 0), Remove(0), AddLocked(8, 1)];
    assert steps[..1][..0] == [] && steps[..2][..1] == steps[..1] && steps[..3][..2] == steps[..2];
    assert Run(INIT, steps[..1]) == Apply(INIT, AddLocked(7, 0));
    assert Run(INIT, steps[..2]) == Apply(Run(INIT, steps[..1]), Remove(0));
  }

  // ---- Cleaning up after a scan ----

  /** Removing by id, any time after a scan found a connection under it, closes that connection;
      it closes another one, which is still open, exactly when that one has taken its place. */
  lemma RemovalAfterScan(steps: seq<Step>, times: seq<nat>, conn: int, id: int)
    requires ScanTimes(steps, times)
    requires id in Scan(steps, times, SHARDS) && Scan(steps, times, SHARDS)[id] == conn
    ensures var s, s' := Run(INIT, steps), Apply(Run(INIT, steps), Remove(id));
            && conn in s'.closed
            && forall d :: d != conn && d !in s.closed ==>
                 (d in s'.closed <==> Registered(steps, |steps|, d, id))
  {
    ScanReads(steps, times, SHARDS, conn, id);
    RegisteredWasAdded(steps, times[id % SHARDS], conn, id);
    RemovalCloses(steps, conn, id);
    ShardsRefineOneMap(steps);
    assert steps[..|steps|] == steps;
  }

  lemma RemovalCloses(steps: seq<Step>, conn: int, id: int)
    requires conn in Run(INIT, steps).added && Run(INIT, steps).added[conn] == id
    ensures conn in Apply(Run(INIT, steps), Remove(id)).closed
  {
    ConnectionsAreOwned(steps);
  }

  /** The cleanup scans, then removes the id of every stale connection it saw. Whatever happens
      in between, all these connections are closed in the end. */
  lemma CleanupClosesTheStale(steps: seq<Step>, times: seq<nat>, scanned: nat, stale: set<int>, conn: int, id: int)
    requires scanned <= |steps| && ScanTimes(steps[..scanned], times)
    requires forall i :: i in Scan(steps[..scanned], times, SHARDS) && Scan(steps[..scanned], times, SHARDS)[i] in stale
               ==> Remove(i) in steps[scanned..]
    requires id in Scan(steps[..scanned], times, SHARDS) && Scan(steps[..scanned], times, SHARDS)[id] == conn
    requires conn in stale
    ensures conn in Run(INIT, steps).closed
  {
    ScanReads(steps[..scanned], times, SHARDS, conn, id);
    var t := times[id % SHARDS];
    assert steps[..scanned][..t] == steps[..t];
    var p :| scanned <= p < |steps| && steps[p] == Remove(id);
    RemovedLater(steps, t, p, conn, id);
  }

  lemma RemovedLater(steps: seq<Step>, t: nat, p: nat, conn: int, id: int)
    requires t <= p < |steps| && steps[p] == Remove(id) && Registered(steps, t, conn, id)
    ensures conn in Run(INIT, steps).closed
  {
    assert Registered(steps[..p], t, conn, id) by {
      assert steps[..p][..t] == steps[..t];
    }
    RegisteredWasAdded(steps[..p], t, conn, id);
    RemovalLasts(steps, p, conn, id);
  }

  lemma {:induction false} RemovalLasts(steps: seq<Step>, p: nat, conn: int, id: int)
    requires p < |steps| && steps[p] == Remove(id)
    requires conn in Run(INIT, steps[..p]).added && Run(INIT, steps[..p]).added[conn] == id
    ensures conn in Run(INIT, steps).closed
  {
    var before := steps[..|steps| - 1];
    if p == |steps| - 1 {
      RemovalCloses(before, conn, id);
    } else {
      assert before[..p] == steps[..p];
      RemovalLasts(before, p, conn, id);
      ApplyKeeps(Run(INIT, before), steps[|steps| - 1]);
    }
  }

  /** So the cleanup can hit a device that has just come back: after any run, a connection added
      under an id is closed and unregistered by a removal that was decided before. */
  lemma CleanupHitsTheReplacement(steps: seq<Step>, id: int, fresher: int)
    requires fresher !in Run(INIT, steps).added
    ensures var s' := Run(INIT, steps + [AddLocked(fresher, id), Remove(id)]);
            fresher in s'.closed && !RegisteredAt(s', fresher, id)
            && id !in FlatRun(steps + [AddLocked(fresher, id), Remove(id)])
  {
    var added := steps + [AddLocked(fresher, id)];
    RunSnoc(steps, AddLocked(fresher, id));
    RunSnoc(added, Remove(id));
    assert added + [Remove(id)] == steps + [AddLocked(fresher, id), Remove(id)];
    assert (added + [Remove(id)])[..|added|] == added;
  }
}
