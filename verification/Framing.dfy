/** Fragmentation of messages over a data channel and their reassembly. */
module Framing {
  import opened Prelude

  /** Largest message, and largest fragment put on the wire. */
  const MAX_MESSAGE: nat := 64 * 1024 * 1024
  const MAX_FRAGMENT: nat := 65535

  // ---- Specification ----

  /** A byte string cut into pieces of MAX_FRAGMENT bytes; the last may be shorter. */
  function Chunks(b: bytes): (cs: seq<bytes>)
    ensures forall k :: 0 <= k < |cs| ==> 0 < |cs[k]| <= MAX_FRAGMENT
    decreases |b|
  {
    if b == [] then []
    else
      var n := Min(|b|, MAX_FRAGMENT);
      [b[..n]] + Chunks(b[n..])
  }

  lemma {:induction false} ChunksRejoin(b: bytes)
    ensures Concat(Chunks(b)) == b
    decreases |b|
  {
    if b != [] {
      var n := Min(|b|, MAX_FRAGMENT);
      ChunksRejoin(b[n..]);
      assert Chunks(b)[1..] == Chunks(b[n..]);
      assert b == b[..n] + b[n..];
    }
  }

  lemma FirstChunk(b: bytes, i: nat, next: nat)
    requires i < |b| && next == i + Min(|b| - i, MAX_FRAGMENT)
    ensures Chunks(b[i..]) == [b[i..next]] + Chunks(b[next..])
  {
    assert b[i..][..next - i] == b[i..next];
    assert b[i..][next - i..] == b[next..];
  }

  /** The fragments of one message: its length in four bytes, then its content. */
  function Fragments(m: bytes): seq<bytes>
    requires |m| <= MAX_MESSAGE
  {
    if |m| + 4 <= MAX_FRAGMENT then [LE(|m|, 4) + m]
    else [LE(|m|, 4) + m[..MAX_FRAGMENT - 4]] + Chunks(m[MAX_FRAGMENT - 4..])
  }

  /** On the wire a message is its length, low byte first, and then its bytes. */
  lemma FragmentsByByte(m: bytes, k: nat)
    requires |m| <= MAX_MESSAGE && k < 4
    ensures var b := Concat(Fragments(m));
            && |b| == 4 + |m| && b[k] == |m| / Pow256(k) % 256 && b[4..] == m
            && forall f :: f in Fragments(m) ==> |f| <= MAX_FRAGMENT
  {
    var fs := Fragments(m);
    LEByByte(|m|, 4, k);
    if |m| + 4 <= MAX_FRAGMENT {
      ConcatSingleton(LE(|m|, 4) + m);
    } else {
      var n := MAX_FRAGMENT - 4;
      ChunksRejoin(m[n..]);
      assert fs[1..] == Chunks(m[n..]);
      assert LE(|m|, 4) + m[..n] + m[n..] == LE(|m|, 4) + m;
    }
  }

  /** Receiver state: announced length, bytes counted, bytes kept. */
  datatype Receiver = Receiver(length: nat, received: nat, data: bytes)

  const IDLE := Receiver(0, 0, [])

  datatype Outcome =
    | Waiting
    | Delivered(message: bytes)
    | TooShort
    | TooLarge
    | Overrun

  /** What one incoming fragment does; the counters are 32 bits wide. */
  function Receive(s: Receiver, b: bytes): (Receiver, Outcome) {
    if s.length == 0 && |b| < 4 then (s, TooShort)
    else if s.length == 0 && FromLE(b[..4]) > MAX_MESSAGE then (IDLE, TooLarge)
    else
      var t := if s.length == 0 then Receiver(FromLE(b[..4]), (|b| - 4) % TWO32, b[4..])
               else Receiver(s.length, (s.received + |b|) % TWO32, s.data + b);
      if t.received > t.length then (IDLE, Overrun)
      else if t.received == t.length then (IDLE, Delivered(t.data))
      else (t, Waiting)
  }

  // ---- The channel as the program runs it ----

  /** The underlying channel: fragments sent so far, and how many more sends succeed. */
  class Wire {
    var sent: seq<bytes>
    var credit: nat

    constructor (credit: nat)
      ensures sent == [] && this.credit == credit
    {
      this.sent, this.credit := [], credit;
    }

    method Send(b: bytes) returns (ok: bool)
      modifies this
      ensures ok <==> old(credit) > 0
      ensures sent == if ok then old(sent) + [b] else old(sent)
      ensures credit == if ok then old(credit) - 1 else 0
    {
      ok := credit > 0;
      if ok {
        sent := sent + [b];
        credit := credit - 1;
      }
    }
  }

  lemma NextPiece(b: bytes, i: nat, next: nat, cs: seq<bytes>, k: nat)
    requires i < |b| && next == i + Min(|b| - i, MAX_FRAGMENT)
    requires k <= |cs| && cs[k..] == Chunks(b[i..])
    ensures k < |cs| && cs[k] == b[i..next] && cs[k + 1..] == Chunks(b[next..])
  {
    FirstChunk(b, i, next);
    assert cs[k..][0] == b[i..next] && cs[k..][1..] == Chunks(b[next..]);
  }

  lemma NoMorePieces(b: bytes, cs: seq<bytes>, k: nat)
    requires k <= |cs| && cs[k..] == Chunks(b[|b|..])
    ensures k == |cs| && cs[..k] == cs
  {
    assert b[|b|..] == [];
    assert |cs[k..]| == 0;
  }

  lemma FirstAndMore(sent: seq<bytes>, first: bytes, more: seq<bytes>, k: nat)
    requires k <= |more|
    ensures sent + ([first] + more)[..k + 1] == sent + [first] + more[..k]
  {
  }

  class DataChannel {
    const channel: Wire
    var length: nat
    var received: nat
    var data: bytes

    constructor (channel: Wire)
      ensures this.channel == channel && State() == IDLE
    {
      this.channel := channel;
      length, received, data := 0, 0, [];
    }

    function State(): Receiver
      reads this
    {
      Receiver(length, received, data)
    }

    /** Sends the bytes from position `from` on in pieces; a failing channel gets a
        prefix of the pieces. */
    method SendPieces(buf: bytes, from: nat) returns (ok: bool)
      requires from <= |buf|
      modifies channel
      ensures var cs := Chunks(buf[from..]);
              && (ok <==> old(channel.credit) >= |cs|)
              && channel.sent == old(channel.sent) + cs[..Min(old(channel.credit), |cs|)]
    {
      ghost var cs := Chunks(buf[from..]);
      var i := from;
      ghost var k := 0;
      while i < |buf|
        invariant from <= i <= |buf|
        invariant k <= |cs| && cs[k..] == Chunks(buf[i..])
        invariant k <= old(channel.credit) && channel.credit == old(channel.credit) - k
        invariant channel.sent == old(channel.sent) + cs[..k]
        decreases |buf| - i
      {
        var next := if MAX_FRAGMENT >= |buf| - i then |buf| else i + MAX_FRAGMENT;
        NextPiece(buf, i, next, cs, k);
        TakesOneMore(old(channel.sent), cs, k);
        ok := channel.Send(buf[i..next]);
        if !ok {
          return;
        }
        i, k := next, k + 1;
      }
      NoMorePieces(buf, cs, k);
      ok := true;
    }

    /** Sends bytes in pieces without a header. */
    method SendRaw(buf: bytes) returns (ok: bool)
      modifies channel
      ensures |buf| > MAX_MESSAGE ==> !ok && channel.sent == old(channel.sent)
      ensures |buf| <= MAX_MESSAGE ==>
                && (ok <==> old(channel.credit) >= |Chunks(buf)|)
                && channel.sent == old(channel.sent) + Chunks(buf)[..Min(old(channel.credit), |Chunks(buf)|)]
    {
      if |buf| > MAX_MESSAGE {
        return false;
      }
      assert buf[0..] == buf;
      ok := SendPieces(buf, 0);
    }

    /** Sends a message as its fragments; a message that is too large is refused, and
        a failing channel gets a prefix of the fragments. */
    method Send(buf: bytes) returns (ok: bool)
      modifies channel
      ensures |buf| > MAX_MESSAGE ==> !ok && channel.sent == old(channel.sent)
      ensures |buf| <= MAX_MESSAGE ==>
                && (ok <==> old(channel.credit) >= |Fragments(buf)|)
                && channel.sent == old(channel.sent) + Fragments(buf)[..Min(old(channel.credit), |Fragments(buf)|)]
    {
      var n := |buf|;
      if n > MAX_MESSAGE {
        return false;
      }
      if n + 4 <= MAX_FRAGMENT {
        ok := channel.Send(LE(n, 4) + buf);
      } else {
        ok := channel.Send(LE(n, 4) + buf[..MAX_FRAGMENT - 4]);
        if ok {
          ghost var cs := Chunks(buf[MAX_FRAGMENT - 4..]);
          FirstAndMore(old(channel.sent), Fragments(buf)[0], cs, Min(channel.credit, |cs|));
          ok := SendPieces(buf, MAX_FRAGMENT - 4);
        }
      }
    }

    /** Handles one incoming fragment. Without a callback a complete message is an
        error and stays where it is. */
    method Do(buf: bytes, hasCallback: bool) returns (outcome: Outcome)
      modifies this
      ensures outcome == Receive(old(State()), buf).1
      ensures hasCallback || !outcome.Delivered? ==> State() == Receive(old(State()), buf).0
      ensures !hasCallback && outcome.Delivered? ==> length == received && data == outcome.message
    {
      if length == 0 {
        if |buf| < 4 {
          return TooShort;
        }
        length := FromLE(buf[..4]);
        if length > MAX_MESSAGE {
          length, received, data := 0, 0, [];
          return TooLarge;
        }
        received := (|buf| - 4) % TWO32;
        data := buf[4..];
      } else {
        data := data + buf;
        received := (received + |buf|) % TWO32;
      }
      if received > length {
        length, received, data := 0, 0, [];
        return Overrun;
      }
      if received == length {
        outcome := Delivered(data);
        if !hasCallback {
          return;
        }
        length, received, data := 0, 0, [];
        return;
      }
      outcome := Waiting;
    }
  }

  // ---- The receiver on any fragment sequence ----

  /** Idle, or in the middle of a message of at most MAX_MESSAGE bytes. */
  predicate Sound(s: Receiver) {
    s == IDLE || (s.received == |s.data| && |s.data| < s.length <= MAX_MESSAGE)
  }

  /** Fragments small enough that a 32-bit counter cannot wrap. */
  predicate Modest(b: bytes) {
    |b| < TWO32 - MAX_MESSAGE
  }

  function ReceiveAll(s: Receiver, fs: seq<bytes>): (Receiver, seq<bytes>)
    decreases |fs|
  {
    if fs == [] then (s, [])
    else
      var step := Receive(s, fs[0]);
      var rest := ReceiveAll(step.0, fs[1..]);
      (rest.0, Message(step.1) + rest.1)
  }

  function Message(outcome: Outcome): seq<bytes> {
    if outcome.Delivered? then [outcome.message] else []
  }

  /** Whatever fragment arrives, the receiver stays sound, and every outcome other
      than waiting leaves it idle. */
  lemma ReceiveIsSound(s: Receiver, b: bytes)
    requires Sound(s) && Modest(b)
    ensures Sound(Receive(s, b).0)
    ensures !Receive(s, b).1.Waiting? ==> Receive(s, b).0 == IDLE
  {
  }

  lemma {:induction false} ReceiveAllIsSound(s: Receiver, fs: seq<bytes>)
    requires Sound(s) && forall b :: b in fs ==> Modest(b)
    ensures Sound(ReceiveAll(s, fs).0)
    decreases |fs|
  {
    if fs != [] {
      ReceiveIsSound(s, fs[0]);
      ReceiveAllIsSound(Receive(s, fs[0]).0, fs[1..]);
    }
  }

  /** What is on the wire for a receiver in this state: header and content so far. */
  function Seen(s: Receiver): bytes {
    if s.length == 0 then [] else LE(s.length, 4) + s.data
  }

  lemma DeliveryStep(s: Receiver, b: bytes)
    requires Sound(s) && Modest(b)
    ensures match Receive(s, b)
            case (_, Delivered(m)) => Seen(s) + b == LE(|m|, 4) + m && |m| <= MAX_MESSAGE
            case (t, Waiting) => Seen(t) == Seen(s) + b
            case _ => true
  {
    if s == IDLE {
      FirstStep(b);
    } else {
      LaterStep(s, b);
    }
  }

  lemma FirstStep(b: bytes)
    requires Modest(b)
    ensures match Receive(IDLE, b)
            case (_, Delivered(m)) => b == LE(|m|, 4) + m && |m| <= MAX_MESSAGE
            case (t, Waiting) => t != IDLE && LE(t.length, 4) + t.data == b
            case _ => true
  {
    if |b| >= 4 {
      HeaderAndRest(b);
      assert (|b| - 4) % TWO32 == |b[4..]|;
    }
  }

  lemma LaterStep(s: Receiver, b: bytes)
    requires Sound(s) && s != IDLE && Modest(b)
    ensures var r := Receive(s, b);
            && (r.1.Delivered? ==> r.1.message == s.data + b && |s.data + b| == s.length)
            && (r.1.Waiting? ==> r.0.length == s.length && r.0.data == s.data + b)
            && LE(s.length, 4) + (s.data + b) == LE(s.length, 4) + s.data + b
  {
    assert (s.received + |b|) % TWO32 == |s.data + b|;
    Associative(LE(s.length, 4), s.data, b);
  }

  lemma HeaderAndRest(b: bytes)
    requires |b| >= 4
    ensures LE(FromLE(b[..4]), 4) + b[4..] == b
  {
    FromLERoundTrip(b[..4]);
    assert b == b[..4] + b[4..];
  }

  /** What the receiver holds are the fragments since it was last idle. */
  lemma {:induction false} SeenSinceIdle(fs: seq<bytes>) returns (i: nat)
    requires forall b :: b in fs ==> Modest(b)
    ensures i <= |fs| && ReceiveAll(IDLE, fs[..i]).0 == IDLE
    ensures Sound(ReceiveAll(IDLE, fs).0) && Seen(ReceiveAll(IDLE, fs).0) == Concat(fs[i..])
  {
    i := |fs|;
    ReceiveAllIsSound(IDLE, fs);
    if fs != [] {
      var before, last := fs[..|fs| - 1], fs[|fs| - 1];
      assert fs == before + [last];
      ReceiveAllAppend(IDLE, before, [last]);
      var s := ReceiveAll(IDLE, before).0;
      ReceiveOne(s, last);
      var k := SeenSinceIdle(before);
      DeliveryStep(s, last);
      ReceiveIsSound(s, last);
      if Receive(s, last).1.Waiting? {
        i := k;
        assert before[..k] == fs[..k];
        assert fs[k..] == before[k..] + [last];
        ConcatAppend(before[k..], [last]);
        ConcatSingleton(last);
      } else {
        assert fs[..|fs|] == fs;
      }
    }
  }

  /** In every run a message is delivered only when the fragments since the receiver was
      idle, put together, are exactly that message behind its length. */
  lemma {:induction false} DeliveredWasSent(fs: seq<bytes>, b: bytes, m: bytes) returns (i: nat)
    requires (forall f :: f in fs ==> Modest(f)) && Modest(b)
    requires Receive(ReceiveAll(IDLE, fs).0, b).1 == Delivered(m)
    ensures i <= |fs| && ReceiveAll(IDLE, fs[..i]).0 == IDLE
    ensures Concat(fs[i..] + [b]) == LE(|m|, 4) + m && |m| <= MAX_MESSAGE
  {
    i := SeenSinceIdle(fs);
    DeliveryStep(ReceiveAll(IDLE, fs).0, b);
    ConcatAppend(fs[i..], [b]);
    ConcatSingleton(b);
  }

  // ---- Round trip ----

  lemma {:induction false} ReceiveAllAppend(s: Receiver, a: seq<bytes>, b: seq<bytes>)
    ensures var (t, first) := ReceiveAll(s, a);
            var (u, second) := ReceiveAll(t, b);
            ReceiveAll(s, a + b) == (u, first + second)
    decreases |a|
  {
    if a == [] {
      assert a + b == b;
      assert [] + ReceiveAll(s, b).1 == ReceiveAll(s, b).1;
    } else {
      var step := Receive(s, a[0]);
      ReceiveAllAppend(step.0, a[1..], b);
      assert (a + b)[1..] == a[1..] + b;
      var tail := ReceiveAll(step.0, a[1..]);
      var second := ReceiveAll(tail.0, b).1;
      assert Message(step.1) + (tail.1 + second) == (Message(step.1) + tail.1) + second;
    }
  }

  lemma ReceiveOne(s: Receiver, b: bytes)
    ensures ReceiveAll(s, [b]) == (Receive(s, b).0, Message(Receive(s, b).1))
  {
    assert [b][1..] == [];
    assert ReceiveAll(Receive(s, b).0, []) == (Receive(s, b).0, []);
    assert Message(Receive(s, b).1) + [] == Message(Receive(s, b).1);
  }

  lemma ReceiveWaiting(s: Receiver, fs: seq<bytes>)
    requires fs != [] && Receive(s, fs[0]).1 == Waiting
    ensures ReceiveAll(s, fs) == ReceiveAll(Receive(s, fs[0]).0, fs[1..])
  {
    var rest := ReceiveAll(Receive(s, fs[0]).0, fs[1..]);
    assert [] + rest.1 == rest.1;
  }

  /** The remaining chunks complete a message that is under way. */
  lemma {:induction false} ChunksComplete(s: Receiver, rest: bytes)
    requires Sound(s) && s != IDLE && |s.data| + |rest| == s.length
    ensures ReceiveAll(s, Chunks(rest)) == (IDLE, [s.data + rest])
    decreases |rest|
  {
    var n := Min(|rest|, MAX_FRAGMENT);
    var head, tail := rest[..n], rest[n..];
    assert rest == head + tail;
    var cs := Chunks(rest);
    assert cs[0] == head && cs[1..] == Chunks(tail);
    NextChunk(s, head);
    if n == |rest| {
      assert Chunks(tail) == [] && cs == [head] && head == rest;
      ReceiveOne(s, head);
    } else {
      ReceiveWaiting(s, cs);
      ChunksComplete(Receiver(s.length, s.received + n, s.data + head), tail);
      Associative(s.data, head, tail);
    }
  }

  lemma NextChunk(s: Receiver, b: bytes)
    requires Sound(s) && s != IDLE && |s.data| + |b| <= s.length
    ensures Receive(s, b) ==
            if |s.data| + |b| == s.length then (IDLE, Delivered(s.data + b))
            else (Receiver(s.length, s.received + |b|, s.data + b), Waiting)
  {
    assert (s.received + |b|) % TWO32 == s.received + |b|;
  }

  /** What the first fragment of a message does to an idle receiver. */
  lemma FirstFragment(n: nat, head: bytes)
    requires |head| <= n <= MAX_MESSAGE
    ensures Receive(IDLE, LE(n, 4) + head) ==
            if |head| == n then (IDLE, Delivered(head)) else (Receiver(n, |head|, head), Waiting)
  {
    WordSizes();
    LERoundTrip(n, 4);
    WithHeader(n, LE(n, 4), head);
  }

  lemma WithHeader(n: nat, header: bytes, head: bytes)
    requires |header| == 4 && FromLE(header) == n && |head| <= n <= MAX_MESSAGE
    ensures Receive(IDLE, header + head) ==
            if |head| == n then (IDLE, Delivered(head)) else (Receiver(n, |head|, head), Waiting)
  {
    Splits(header, head);
    assert |head| % TWO32 == |head|;
  }

  lemma OneMessage(m: bytes)
    requires |m| <= MAX_MESSAGE
    ensures ReceiveAll(IDLE, Fragments(m)) == (IDLE, [m])
    ensures forall k :: 0 <= k < |Fragments(m)| ==> |Fragments(m)[k]| <= MAX_FRAGMENT
  {
    if |m| + 4 <= MAX_FRAGMENT {
      FirstFragment(|m|, m);
      ReceiveOne(IDLE, LE(|m|, 4) + m);
    } else {
      LongMessage(m);
    }
  }

  lemma LongMessage(m: bytes)
    requires MAX_FRAGMENT < |m| + 4 && |m| <= MAX_MESSAGE
    ensures ReceiveAll(IDLE, Fragments(m)) == (IDLE, [m])
  {
    var cut := MAX_FRAGMENT - 4;
    FirstFragment(|m|, m[..cut]);
    assert Fragments(m)[1..] == Chunks(m[cut..]);
    ReceiveWaiting(IDLE, Fragments(m));
    ChunksComplete(Receiver(|m|, cut, m[..cut]), m[cut..]);
    assert m[..cut] + m[cut..] == m;
  }

  function AllFragments(ms: seq<bytes>): seq<bytes>
    requires forall m :: m in ms ==> |m| <= MAX_MESSAGE
  {
    if ms == [] then [] else Fragments(ms[0]) + AllFragments(ms[1..])
  }

  /** Round trip: the fragments of any list of messages (empty ones included) are
      delivered as exactly that list, in order, and leave the receiver idle. */
  lemma {:induction false} MessagesRoundTrip(ms: seq<bytes>)
    requires forall m :: m in ms ==> |m| <= MAX_MESSAGE
    ensures ReceiveAll(IDLE, AllFragments(ms)) == (IDLE, ms)
  {
    if ms != [] {
      OneMessage(ms[0]);
      MessagesRoundTrip(ms[1..]);
      ReceiveAllAppend(IDLE, Fragments(ms[0]), AllFragments(ms[1..]));
      assert ms == [ms[0]] + ms[1..];
    }
  }

  /** Recovery: after any garbage whose last fragment was not merely waited on, the
      next well-framed messages are delivered intact. */
  lemma GarbageThenMessages(garbage: seq<bytes>, last: bytes, ms: seq<bytes>)
    requires (forall b :: b in garbage ==> Modest(b)) && Modest(last)
    requires !Receive(ReceiveAll(IDLE, garbage).0, last).1.Waiting?
    requires forall m :: m in ms ==> |m| <= MAX_MESSAGE
    ensures ReceiveAll(IDLE, garbage + [last] + AllFragments(ms))
            == (IDLE, ReceiveAll(IDLE, garbage + [last]).1 + ms)
  {
    ReceiveAllIsSound(IDLE, garbage);
    ReceiveIsSound(ReceiveAll(IDLE, garbage).0, last);
    ReceiveAllAppend(IDLE, garbage, [last]);
    ReceiveOne(ReceiveAll(IDLE, garbage).0, last);
    ReceiveAllAppend(IDLE, garbage + [last], AllFragments(ms));
    MessagesRoundTrip(ms);
  }
}
