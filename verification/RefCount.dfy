/** Reference counting of pooled packets in every interleaving of senders, the send
    queue, the send loop and the pool. */
module RefCount {
  import opened Prelude

  /** Slots of the send queue. */
  const SLOTS: nat := 100

  datatype Buffer = Buffer(refs: int, length: nat, buff: bytes)

  /** All packets ever made, and where each reference to them is held. Packets without
      references are in the pool, on their way out of it (taken), on their way into it
      (emptying), or dropped by the garbage collector. */
  datatype State = State(
    packets: map<nat, Buffer>,
    callers: multiset<nat>,
    queue: seq<nat>,
    sending: Option<nat>,
    pool: set<nat>,
    taken: set<nat>,
    emptying: set<nat>,
    dropped: set<nat>)

  const INIT := State(map[], multiset{}, [], None, {}, {}, {}, {})

  datatype Step =
    | New(p: nat)                             // the pool is empty and makes a packet
    | Take(p: nat)                            // the pool hands out a packet
    | RefTaken(p: nat)                        // Get adds the first reference
    | Ref(p: nat)                             // a holder adds a reference
    | Fill(p: nat, length: nat, buff: bytes)  // a holder writes the packet
    | Push(p: nat)                            // a reference moves into the send queue
    | PutCaller(p: nat)                       // a caller gives a reference back
    | Pop                                     // the send loop takes the next packet
    | PutLoop                                 // the send loop gives its reference back
    | Reset(p: nat)                           // the last Put empties the packet into the pool
    | Drop(p: nat)                            // the garbage collector shrinks the pool

  function Holders(s: State, p: nat): nat {
    s.callers[p] + multiset(s.queue)[p] + if s.sending == Some(p) then 1 else 0
  }

  /** Subtract one reference; whoever reaches 0 goes on to empty the packet. */
  function Release(s: State, p: nat): State
    requires p in s.packets
  {
    var b := s.packets[p].(refs := s.packets[p].refs - 1);
    s.(packets := s.packets[p := b], emptying := if b.refs == 0 then s.emptying + {p} else s.emptying)
  }

  predicate Enabled(s: State, a: Step) {
    match a
    case New(p) => p !in s.packets
    case Take(p) => p in s.pool && p in s.packets
    case RefTaken(p) => p in s.taken && p in s.packets
    case Ref(p) => p in s.callers && p in s.packets
    case Fill(p, _, _) => p in s.callers && p in s.packets
    case Push(p) => p in s.callers && |s.queue| < SLOTS
    case PutCaller(p) => p in s.callers && p in s.packets
    case Pop => s.queue != [] && s.sending == None
    case PutLoop => s.sending.Some? && s.sending.value in s.packets
    case Reset(p) => p in s.emptying && p in s.packets
    case Drop(p) => p in s.pool
  }

  function Apply(s: State, a: Step): State {
    if !Enabled(s, a) then s
    else match a
      case New(p) => s.(packets := s.packets[p := Buffer(0, 0, [])], taken := s.taken + {p})
      case Take(p) => s.(pool := s.pool - {p}, taken := s.taken + {p})
      case RefTaken(p) =>
        s.(packets := s.packets[p := s.packets[p].(refs := s.packets[p].refs + 1)],
        taken := s.taken - {p}, callers := s.callers + multiset{p})
      case Ref(p) =>
        s.(packets := s.packets[p := s.packets[p].(refs := s.packets[p].refs + 1)], callers := s.callers + multiset{p})
      case Fill(p, length, buff) => s.(packets := s.packets[p := s.packets[p].(length := length, buff := buff)])
      case Push(p) => s.(queue := s.queue + [p], callers := s.callers - multiset{p})
      case PutCaller(p) => Release(s.(callers := s.callers - multiset{p}), p)
      case Pop => s.(queue := s.queue[1..], sending := Some(s.queue[0]))
      case PutLoop => Release(s.(sending := None), s.sending.value)
      case Reset(p) =>
        s.(packets := s.packets[p := Buffer(0, 0, [])], emptying := s.emptying - {p}, pool := s.pool + {p})
      case Drop(p) => s.(pool := s.pool - {p}, dropped := s.dropped + {p})
  }

  function Run(s: State, steps: seq<Step>): State
    decreases |steps|
  {
    if steps == [] then s else Apply(Run(s, steps[..|steps| - 1]), steps[|steps| - 1])
  }

  // ---- Invariant ----

  /** The counter of every packet is the number of references actually held. */
  ghost predicate Counted(s: State) {
    && (forall p :: p in s.packets ==> s.packets[p].refs == Holders(s, p))
    && (forall p: nat :: Holders(s, p) > 0 ==> p in s.packets)
  }

  /** A packet has no reference exactly when it is in one of the four idle places,
      which exclude each other; in or out of the pool it is empty. */
  ghost predicate Idle(s: State) {
    && s.pool !! s.taken !! s.emptying !! s.dropped
    && (forall p :: p in s.pool + s.taken + s.emptying + s.dropped <==> p in s.packets && s.packets[p].refs == 0)
    && (forall p :: p in s.pool + s.taken && p in s.packets ==> s.packets[p].length == 0 && s.packets[p].buff == [])
  }

  ghost predicate Good(s: State) {
    Counted(s) && Idle(s)
  }

  lemma QueueEnds<T>(q: seq<T>, p: T)
    ensures multiset(q + [p]) == multiset(q) + multiset{p}
    ensures q != [] ==> multiset(q) == multiset{q[0]} + multiset(q[1..])
  {
    if q != [] {
      assert q == [q[0]] + q[1..];
    }
  }

  lemma PushCounted(s: State, p: nat)
    requires Good(s) && Enabled(s, Push(p))
    ensures Counted(Apply(s, Push(p)))
  {
    QueueEnds(s.queue, p);
    var s' := Apply(s, Push(p));
    assert forall q: nat :: Holders(s', q) == Holders(s, q);
  }

  lemma PopCounted(s: State)
    requires Good(s) && Enabled(s, Pop)
    ensures Counted(Apply(s, Pop))
  {
    QueueEnds(s.queue, 0);
    var s' := Apply(s, Pop);
    assert forall q: nat :: Holders(s', q) == Holders(s, q);
  }

  lemma ReferencesCounted(s: State, a: Step)
    requires Good(s) && Enabled(s, a)
    requires a.RefTaken? || a.Ref?
    ensures Counted(Apply(s, a))
  {
    var s' := Apply(s, a);
    assert forall q: nat :: q != a.p ==> Holders(s', q) == Holders(s, q);
  }

  lemma ReleaseCounted(s: State, a: Step)
    requires Good(s) && Enabled(s, a)
    requires a.PutCaller? || a.PutLoop?
    ensures Counted(Apply(s, a))
  {
    var s' := Apply(s, a);
    var p := if a.PutLoop? then s.sending.value else a.p;
    assert forall q: nat :: q != p ==> Holders(s', q) == Holders(s, q);
  }

  lemma StepCounted(s: State, a: Step)
    requires Good(s)
    ensures Counted(Apply(s, a))
  {
    if Enabled(s, a) {
      match a
      case Push(p) => PushCounted(s, p);
      case Pop => PopCounted(s);
      case RefTaken(_) => ReferencesCounted(s, a);
      case Ref(_) => ReferencesCounted(s, a);
      case PutCaller(_) => ReleaseCounted(s, a);
      case PutLoop => ReleaseCounted(s, a);
      case _ =>
        var s' := Apply(s, a);
        assert forall q: nat :: Holders(s', q) == Holders(s, q);
    }
  }

  lemma CountingIdle(s: State, a: Step)
    requires Good(s) && Enabled(s, a)
    requires a.New? || a.Ref? || a.Fill?
    ensures Idle(Apply(s, a))
  {
    match a
    case New(p) => assert p !in s.pool + s.taken + s.emptying + s.dropped;
    case Ref(p) => assert s.packets[p].refs > 0;
    case Fill(p, _, _) => assert s.packets[p].refs > 0;
  }

  lemma ReleaseIdle(s: State, a: Step)
    requires Good(s) && Enabled(s, a)
    requires a.PutCaller? || a.PutLoop?
    ensures Idle(Apply(s, a))
  {
    var p := if a.PutLoop? then s.sending.value else a.p;
    assert s.packets[p].refs > 0;
  }

  lemma StepIdle(s: State, a: Step)
    requires Good(s)
    ensures Idle(Apply(s, a))
  {
    if Enabled(s, a) {
      if a.New? || a.Ref? || a.Fill? {
        CountingIdle(s, a);
      } else if a.PutCaller? || a.PutLoop? {
        ReleaseIdle(s, a);
      }
    }
  }

  /** In every interleaving a packet's counter equals its holders, and pooled packets
      are empty and held by nobody. */
  lemma {:induction false} CountsAreConserved(steps: seq<Step>)
    ensures Good(Run(INIT, steps))
  {
    if steps != [] {
      var s := Run(INIT, steps[..|steps| - 1]);
      CountsAreConserved(steps[..|steps| - 1]);
      StepCounted(s, steps[|steps| - 1]);
      StepIdle(s, steps[|steps| - 1]);
    }
  }

  /** A packet enters the pool exactly when the Put that brought its counter to 0
      finishes; until then it is on its way, and nothing else can touch it. */
  lemma PoolEntry(steps: seq<Step>, a: Step, p: nat)
    requires var s := Run(INIT, steps); p in s.packets && Enabled(s, a)
    ensures var s, s' := Run(INIT, steps), Apply(Run(INIT, steps), a);
            && (p !in s.pool && p in s'.pool <==> a == Reset(p))
            && (p !in s.emptying && p in s'.emptying <==> s.packets[p].refs == 1 && s'.packets[p].refs == 0)
            && (p in s.emptying ==> s'.packets[p] == s.packets[p] || a == Reset(p))
  {
    CountsAreConserved(steps);
    StepCounted(Run(INIT, steps), a);
    StepIdle(Run(INIT, steps), a);
  }

  /** Whoever gets a packet is its only holder and finds it empty. */
  lemma {:induction false} GetIsExclusive(steps: seq<Step>, p: nat)
    requires Enabled(Run(INIT, steps), RefTaken(p))
    ensures var s := Apply(Run(INIT, steps), RefTaken(p));
            && Holders(s, p) == 1 && s.packets[p] == Buffer(1, 0, [])
            && p !in s.pool + s.taken + s.emptying + s.dropped
  {
    CountsAreConserved(steps);
    StepIdle(Run(INIT, steps), RefTaken(p));
  }

  /** A packet that is queued or being sent is never in the pool, so its bytes are the
      ones its sender wrote. */
  lemma QueuedPacketsAreAlive(steps: seq<Step>, p: nat)
    requires var s := Run(INIT, steps); p in s.queue || s.sending == Some(p)
    ensures var s := Run(INIT, steps); p in s.packets && s.packets[p].refs > 0 && p !in s.pool + s.taken + s.emptying
  {
    CountsAreConserved(steps);
    var s := Run(INIT, steps);
    assert Holders(s, p) > 0;
  }

  /** The whole life of one cached send: get, fill, reference, queue (or give the
      reference back when the queue is full), release; then the send loop's turn. */
  function SendSteps(p: nat, length: nat, buff: bytes, room: bool): seq<Step> {
    [RefTaken(p), Fill(p, length, buff), Ref(p), if room then Push(p) else PutCaller(p), PutCaller(p)]
  }

  function ApplyAll(s: State, steps: seq<Step>): State
    decreases |steps|
  {
    if steps == [] then s else ApplyAll(Apply(s, steps[0]), steps[1..])
  }

  /** Run alone, a send leaves one reference in the queue if there was room, and
      otherwise returns the packet for emptying. */
  lemma SendLeavesOneReference(s: State, p: nat, length: nat, buff: bytes)
    requires Good(s) && p in s.taken
    ensures var s' := ApplyAll(s, SendSteps(p, length, buff, |s.queue| < SLOTS));
            && p in s'.packets && s'.callers == s.callers
            && (if |s.queue| < SLOTS then s'.queue == s.queue + [p] && s'.packets[p] == Buffer(1, length, buff)
                else s'.queue == s.queue && s'.packets[p].refs == 0 && p in s'.emptying)
  {
    var room := |s.queue| < SLOTS;
    UnfoldFive(s, SendSteps(p, length, buff, room));
    var c := GetFillRef(s, p, length, buff);
    if room {
      FinishQueued(c, s.callers, p, length, buff);
    } else {
      FinishRejected(c, s.callers, p, length, buff);
    }
  }

  lemma FinishQueued(c: State, callers: multiset<nat>, p: nat, length: nat, buff: bytes)
    requires p in c.packets && c.packets[p] == Buffer(2, length, buff) && |c.queue| < SLOTS
    requires c.callers == callers + multiset{p} + multiset{p}
    ensures var e := Apply(Apply(c, Push(p)), PutCaller(p));
            && p in e.packets && e.callers == callers
            && e.queue == c.queue + [p] && e.packets[p] == Buffer(1, length, buff)
  {
    var d := Apply(c, Push(p));
    assert d.callers == callers + multiset{p};
    assert d.callers - multiset{p} == callers;
  }

  lemma FinishRejected(c: State, callers: multiset<nat>, p: nat, length: nat, buff: bytes)
    requires p in c.packets && c.packets[p] == Buffer(2, length, buff)
    requires c.callers == callers + multiset{p} + multiset{p}
    ensures var e := Apply(Apply(c, PutCaller(p)), PutCaller(p));
            && p in e.packets && e.callers == callers
            && e.queue == c.queue && e.packets[p].refs == 0 && p in e.emptying
  {
    var d := Apply(c, PutCaller(p));
    assert d.callers == callers + multiset{p};
    assert d.callers - multiset{p} == callers;
  }

  lemma GetFillRef(s: State, p: nat, length: nat, buff: bytes) returns (c: State)
    requires Good(s) && p in s.taken
    ensures c == Apply(Apply(Apply(s, RefTaken(p)), Fill(p, length, buff)), Ref(p))
    ensures p in c.packets && c.packets[p] == Buffer(2, length, buff)
    ensures c.callers == s.callers + multiset{p} + multiset{p} && c.queue == s.queue && c.sending == s.sending
  {
    assert p in s.pool + s.taken + s.emptying + s.dropped;
    c := Apply(Apply(Apply(s, RefTaken(p)), Fill(p, length, buff)), Ref(p));
  }

  lemma UnfoldFive(s: State, steps: seq<Step>)
    requires |steps| == 5
    ensures ApplyAll(s, steps) == Apply(Apply(Apply(Apply(Apply(s, steps[0]), steps[1]), steps[2]), steps[3]), steps[4])
  {
    var a := Apply(s, steps[0]);
    var b := Apply(a, steps[1]);
    var c := Apply(b, steps[2]);
    assert ApplyAll(s, steps) == ApplyAll(a, steps[1..]);
    assert steps[1..][1..] == steps[2..] && steps[2..][1..] == steps[3..] && steps[3..][1..] == steps[4..] &&
           steps[4..][1..] == [];
    assert ApplyAll(a, steps[1..]) == ApplyAll(b, steps[2..]);
    assert ApplyAll(b, steps[2..]) == ApplyAll(c, steps[3..]);
    assert ApplyAll(c, steps[3..]) == ApplyAll(Apply(c, steps[3]), steps[4..]);
    assert ApplyAll(Apply(c, steps[3]), steps[4..]) == ApplyAll(Apply(Apply(c, steps[3]), steps[4]), []);
  }
}
