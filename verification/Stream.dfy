/** A byte stream over a data channel, and length-prefixed packets over that stream. */
module Stream {
  import opened Prelude
  import opened Framing

  /** Messages the receiving side buffers before the network has to wait. */
  const QUEUE: nat := 10

  const MAX_PACKET: nat := 10 * 1024 * 1024

  // ---- The stream as bytes in flight ----

  datatype Pipe = Pipe(
    wire: seq<bytes>,       // messages sent and not yet received
    queue: seq<bytes>,      // messages received and not yet read
    readBuf: bytes,         // remainder of the message being read
    closed: bool,
    written: bytes,         // everything written so far
    consumed: bytes)        // everything read so far

  const EMPTY_PIPE := Pipe([], [], [], false, [], [])

  datatype Action = Write(p: bytes) | Deliver | Read(size: nat) | Close

  /** The message a read works on: the remainder of the last one, or the next one. */
  function NextBuf(readBuf: bytes, queue: seq<bytes>): bytes
    requires readBuf != [] || queue != []
  {
    if readBuf != [] then readBuf else queue[0]
  }

  function NextQueue(readBuf: bytes, queue: seq<bytes>): seq<bytes>
    requires readBuf != [] || queue != []
  {
    if readBuf != [] then queue else queue[1..]
  }

  /** One step of the writer, the network or the reader; a step that would have to
      wait changes nothing. */
  function Do(s: Pipe, a: Action): Pipe {
    match a
    case Write(p) => if s.closed then s else s.(wire := s.wire + Chunks(p), written := s.written + p)
    case Deliver =>
      if s.wire == [] then s
      else if s.closed then s.(wire := s.wire[1..])
      else if |s.queue| >= QUEUE then s
      else s.(wire := s.wire[1..], queue := s.queue + [s.wire[0]])
    case Read(size) =>
      if s.closed || (s.readBuf == [] && s.queue == []) then s
      else
        var buf := NextBuf(s.readBuf, s.queue);
        var n := Min(size, |buf|);
        s.(queue := NextQueue(s.readBuf, s.queue), readBuf := buf[n..], consumed := s.consumed + buf[..n])
    case Close => s.(closed := true)
  }

  function DoAll(s: Pipe, actions: seq<Action>): Pipe
    decreases |actions|
  {
    if actions == [] then s else Do(DoAll(s, actions[..|actions| - 1]), actions[|actions| - 1])
  }

  function InFlight(s: Pipe): bytes {
    s.readBuf + Concat(s.queue) + Concat(s.wire)
  }

  ghost predicate Conserved(s: Pipe) {
    !s.closed ==> s.consumed + InFlight(s) == s.written
  }

  lemma WriteConserves(s: Pipe, p: bytes)
    requires Conserved(s)
    ensures Conserved(Do(s, Write(p)))
  {
    ConcatAppend(s.wire, Chunks(p));
    ChunksRejoin(p);
    Associative(s.readBuf + Concat(s.queue), Concat(s.wire), p);
    Associative(s.consumed, InFlight(s), p);
  }

  lemma DeliverConserves(s: Pipe)
    requires Conserved(s)
    ensures Conserved(Do(s, Deliver))
  {
    if s.wire != [] {
      var first, rest := s.wire[0], Concat(s.wire[1..]);
      ConcatAppend(s.queue, [first]);
      ConcatSingleton(first);
      assert Concat(s.wire) == first + rest;
      assert s.readBuf + (Concat(s.queue) + first) + rest == s.readBuf + Concat(s.queue) + (first + rest);
    }
  }

  lemma ReadSplits(readBuf: bytes, queue: seq<bytes>, wire: bytes, n: nat)
    requires readBuf != [] || queue != []
    requires n <= |NextBuf(readBuf, queue)|
    ensures var buf := NextBuf(readBuf, queue);
            readBuf + Concat(queue) + wire == buf[..n] + (buf[n..] + Concat(NextQueue(readBuf, queue)) + wire)
  {
    var buf, rest := NextBuf(readBuf, queue), Concat(NextQueue(readBuf, queue));
    assert readBuf + Concat(queue) == buf + rest;
    assert buf == buf[..n] + buf[n..];
    Associative(buf[..n], buf[n..], rest);
    Associative(buf[..n], buf[n..] + rest, wire);
  }

  lemma ReadConserves(s: Pipe, size: nat)
    requires Conserved(s)
    ensures Conserved(Do(s, Read(size)))
  {
    if !s.closed && (s.readBuf != [] || s.queue != []) {
      var s' := Do(s, Read(size));
      var buf := NextBuf(s.readBuf, s.queue);
      var n := Min(size, |buf|);
      ReadSplits(s.readBuf, s.queue, Concat(s.wire), n);
      assert InFlight(s) == buf[..n] + InFlight(s');
      assert s.consumed + (buf[..n] + InFlight(s')) == (s.consumed + buf[..n]) + InFlight(s');
    }
  }

  lemma DoConserves(s: Pipe, a: Action)
    requires Conserved(s)
    ensures Conserved(Do(s, a))
  {
    match a
    case Write(p) => WriteConserves(s, p);
    case Deliver => DeliverConserves(s);
    case Read(size) => ReadConserves(s, size);
    case Close =>
  }

  /** In every interleaving of writer, network and reader, before the stream is
      closed, the bytes read and the bytes in flight are exactly the bytes written. */
  lemma {:induction false} BytesAreConserved(actions: seq<Action>)
    ensures Conserved(DoAll(EMPTY_PIPE, actions))
  {
    if actions != [] {
      BytesAreConserved(actions[..|actions| - 1]);
      DoConserves(DoAll(EMPTY_PIPE, actions[..|actions| - 1]), actions[|actions| - 1]);
    }
  }

  /** Once a stream is closed nothing is written, queued or read any more, and what was under way
      is dropped as it comes in. */
  lemma {:induction false} ClosedPipesAreSilent(s: Pipe, actions: seq<Action>)
    requires s.closed
    ensures var t := DoAll(s, actions);
            && t.closed && t.written == s.written && t.consumed == s.consumed
            && t.queue == s.queue && t.readBuf == s.readBuf
            && |t.wire| <= |s.wire| && t.wire == s.wire[|s.wire| - |t.wire|..]
  {
    if actions != [] {
      var before := DoAll(s, actions[..|actions| - 1]);
      ClosedPipesAreSilent(s, actions[..|actions| - 1]);
      if before.wire != [] {
        assert before.wire[1..] == s.wire[|s.wire| - |before.wire| + 1..];
      }
    }
  }

  // ---- Packets ----

  /** What a reader finds at the head of a byte string. */
  datatype Head = Incomplete | Oversized(rest: bytes) | Packet(payload: bytes, rest: bytes)

  function ParseHead(b: bytes): Head {
    if |b| < 4 then Incomplete
    else
      var n := FromLE(b[..4]);
      if n > MAX_PACKET then Oversized(b[4..])
      else if |b| < 4 + n then Incomplete
      else Packet(b[4..4 + n], b[4 + n..])
  }

  /** All packets up to the first incomplete or oversized one, and what is left. */
  function ParseAll(b: bytes): (seq<bytes>, bytes)
    decreases |b|
  {
    match ParseHead(b)
    case Packet(p, rest) =>
      var (ps, left) := ParseAll(rest);
      ([p] + ps, left)
    case _ => ([], b)
  }

  function FrameOne(p: bytes): bytes {
    LE(|p|, 4) + p
  }

  function Frame(ps: seq<bytes>): bytes {
    if ps == [] then [] else FrameOne(ps[0]) + Frame(ps[1..])
  }

  predicate Fits(ps: seq<bytes>) {
    forall p :: p in ps ==> |p| <= MAX_PACKET
  }

  lemma HeadOfFrame(p: bytes, rest: bytes)
    requires |p| < TWO32
    ensures ParseHead(FrameOne(p) + rest) == if |p| <= MAX_PACKET then Packet(p, rest) else Oversized(p + rest)
  {
    WordSizes();
    LERoundTrip(|p|, 4);
    var b := FrameOne(p) + rest;
    assert b[..4] == LE(|p|, 4);
    assert b[4..] == p + rest;
    assert b[4..4 + |p|] == p && b[4 + |p|..] == rest;
  }

  /** A frame is the packet's length, low byte first, and then its bytes; the frames of a list
      stand one behind the other. */
  lemma FrameByByte(ps: seq<bytes>, p: bytes, k: nat)
    requires k < 4
    ensures var b, n := Frame(ps + [p]), |Frame(ps)|;
            |b| == n + 4 + |p| && b[..n] == Frame(ps) && b[n + k] == |p| / Pow256(k) % 256 && b[n + 4..] == p
  {
    FrameAppend(ps, [p]);
    assert [p][1..] == [];
    LEByByte(|p|, 4, k);
    var b, n := Frame(ps + [p]), |Frame(ps)|;
    assert b == Frame(ps) + (LE(|p|, 4) + p);
    assert b[n + k] == LE(|p|, 4)[k];
  }

  lemma {:induction false} FrameAppend(ps: seq<bytes>, qs: seq<bytes>)
    ensures Frame(ps + qs) == Frame(ps) + Frame(qs)
  {
    if ps == [] {
      assert ps + qs == qs;
    } else {
      FrameAppend(ps[1..], qs);
      assert (ps + qs)[0] == ps[0] && (ps + qs)[1..] == ps[1..] + qs;
      Associative(FrameOne(ps[0]), Frame(ps[1..]), Frame(qs));
    }
  }

  lemma ParseCons(b: bytes)
    requires ParseHead(b).Packet?
    ensures ParseAll(b) == ([ParseHead(b).payload] + ParseAll(ParseHead(b).rest).0, ParseAll(ParseHead(b).rest).1)
  {
  }

  lemma SameHead(p: bytes, some: seq<bytes>, others: seq<bytes>)
    ensures [p] + some <= [p] + others <==> some <= others
    ensures [p] + some == [p] + others <==> some == others
  {
    assert ([p] + some)[1..] == some && ([p] + others)[1..] == others;
  }

  /** Packets are recovered from their frames exactly when none exceeds the limit;
      the reader stops for good in front of the first one that does. */
  lemma {:induction false} FramesRecovered(ps: seq<bytes>)
    requires forall p :: p in ps ==> |p| < TWO32
    ensures ParseAll(Frame(ps)).0 <= ps
    ensures ParseAll(Frame(ps)).0 == ps <==> Fits(ps)
    ensures Fits(ps) ==> ParseAll(Frame(ps)).1 == []
  {
    if ps != [] {
      HeadOfFrame(ps[0], Frame(ps[1..]));
      if |ps[0]| <= MAX_PACKET {
        FramesRecovered(ps[1..]);
        ParseCons(Frame(ps));
        assert ps == [ps[0]] + ps[1..];
        SameHead(ps[0], ParseAll(Frame(ps[1..])).0, ps[1..]);
        assert Fits(ps) <==> Fits(ps[1..]);
      } else {
        assert ps[0] in ps;
      }
    }
  }

  /** A reader that has seen only part of the frames has the first packets, in order. */
  lemma {:induction false} PrefixOfFrames(ps: seq<bytes>, b: bytes)
    requires Fits(ps) && b <= Frame(ps)
    ensures ParseAll(b).0 <= ps
    decreases |ps|
  {
    if ps != [] && ParseHead(b).Packet? {
      var all := Frame(ps);
      HeadOfFrame(ps[0], Frame(ps[1..]));
      var p, rest := ParseHead(b).payload, ParseHead(b).rest;
      assert b[..4] == all[..4];
      var n := FromLE(b[..4]);
      assert b[4..4 + n] == all[4..4 + n];
      assert p == ps[0];
      assert rest <= all[4 + n..];
      PrefixOfFrames(ps[1..], rest);
      ParseCons(b);
      assert ps == [ps[0]] + ps[1..];
    }
  }

  /** End to end: in every interleaving of writes, deliveries and reads in which the
      frames of ps are being written, however they are cut into chunks and read sizes, the
      bytes read so far hold the first packets of ps exactly and in order, and all of
      them once everything is written and nothing is in flight. */
  lemma {:induction false} PacketsArriveInOrder(actions: seq<Action>, ps: seq<bytes>)
    requires Fits(ps)
    requires var s := DoAll(EMPTY_PIPE, actions); !s.closed && s.written <= Frame(ps)
    ensures var s := DoAll(EMPTY_PIPE, actions);
            && ParseAll(s.consumed).0 <= ps
            && (s.written == Frame(ps) && InFlight(s) == [] ==> ParseAll(s.consumed) == (ps, []))
  {
    var s := DoAll(EMPTY_PIPE, actions);
    BytesAreConserved(actions);
    assert s.consumed <= s.written;
    PrefixOfFrames(ps, s.consumed);
    FramesRecovered(ps);
    if InFlight(s) == [] {
      assert s.consumed == s.consumed + InFlight(s);
    }
  }

  // ---- The stream and the client as the program runs them ----

  datatype ReadResult = Bytes(b: bytes) | EndOfFile | ClosedPipe | NothingYet

  datatype Arrival = Queued | Dropped | NoRoom

  class DataChannelStream {
    const dc: Wire
    var readBuf: bytes
    var queue: seq<bytes>
    var closed: bool

    constructor (dc: Wire)
      ensures this.dc == dc && readBuf == [] && queue == [] && !closed
    {
      this.dc := dc;
      readBuf, queue, closed := [], [], false;
    }

    /** An incoming message is queued or, after Close, dropped. Without room the caller goes
        on waiting and nothing has changed. */
    method OnMessage(b: bytes) returns (a: Arrival)
      modifies this`queue
      ensures a == if closed then Dropped else if |old(queue)| < QUEUE then Queued else NoRoom
      ensures queue == if a.Queued? then old(queue) + [b] else old(queue)
    {
      if closed {
        return Dropped;
      }
      if |queue| >= QUEUE {
        return NoRoom;
      }
      queue := queue + [b];
      a := Queued;
    }

    /** Reads up to `size` bytes. With nothing to read the caller goes on waiting and nothing
        has changed. An empty message taken from the queue reads as the end of the file. */
    method Read(size: nat) returns (r: ReadResult)
      modifies this`readBuf, this`queue
      ensures closed ==> r == ClosedPipe && readBuf == old(readBuf) && queue == old(queue)
      ensures !closed && old(readBuf) == [] && old(queue) == [] ==> r == NothingYet && readBuf == [] && queue == []
      ensures !closed && (old(readBuf) != [] || old(queue) != []) ==>
                var buf := NextBuf(old(readBuf), old(queue));
                var n := Min(size, |buf|);
                && queue == NextQueue(old(readBuf), old(queue))
                && readBuf == buf[n..]
                && r == if buf == [] && size > 0 then EndOfFile else Bytes(buf[..n])
    {
      if closed {
        return ClosedPipe;
      }
      if readBuf == [] {
        if queue == [] {
          return NothingYet;
        }
        readBuf := queue[0];
        queue := queue[1..];
        if readBuf == [] && size > 0 {
          return EndOfFile;
        }
      }
      var n := if size < |readBuf| then size else |readBuf|;
      r := Bytes(readBuf[..n]);
      readBuf := readBuf[n..];
    }

    /** Writes p in chunks, shrinking what is left; stops at the first failed send. */
    method Write(p: bytes) returns (n: nat, ok: bool)
      modifies dc
      ensures closed ==> !ok && n == 0 && dc.sent == old(dc.sent)
      ensures !closed ==>
                && (ok <==> old(dc.credit) >= |Chunks(p)|)
                && dc.sent == old(dc.sent) + Chunks(p)[..Min(old(dc.credit), |Chunks(p)|)]
                && n == |Concat(Chunks(p)[..Min(old(dc.credit), |Chunks(p)|)])|
                && (ok ==> dc.credit == old(dc.credit) - |Chunks(p)|)
    {
      if closed {
        return 0, false;
      }
      n := 0;
      var left := p;
      ghost var cs := Chunks(p);
      ghost var k := 0;
      while |left| > 0
        invariant k <= |cs| && cs[k..] == Chunks(left)
        invariant k <= old(dc.credit) && dc.credit == old(dc.credit) - k
        invariant dc.sent == old(dc.sent) + cs[..k]
        invariant n == |Concat(cs[..k])|
        decreases |left|
      {
        var size := |left|;
        if size > MAX_FRAGMENT {
          size := MAX_FRAGMENT;
        }
        TakesOneMore(old(dc.sent), cs, k);
        assert cs[k] == left[..size];
        ConcatAppend(cs[..k], [cs[k]]);
        ConcatSingleton(cs[k]);
        ok := dc.Send(left[..size]);
        if !ok {
          return;
        }
        n := n + size;
        left := left[size..];
        k := k + 1;
      }
      assert cs[..k] == cs;
      ok := true;
    }

    method CloseStream()
      modifies this`closed
      ensures closed
    {
      closed := true;
    }
  }

  /** One direction of a connection: the messages of a wire on their way to a stream. */
  class Link {
    const from: Wire
    const to: DataChannelStream
    var taken: nat

    constructor (from: Wire, to: DataChannelStream)
      ensures this.from == from && this.to == to && taken == 0
    {
      this.from, this.to, taken := from, to, 0;
    }

    /** Chunks written by a stream are never empty, so no read mistakes one for the end. */
    ghost predicate Flowing()
      reads this, from, to
    {
      && !to.closed && taken <= |from.sent|
      && (forall c :: c in to.queue ==> c != []) && (forall c :: c in from.sent ==> c != [])
    }

    ghost function Coming(): bytes
      reads this, from, to
      requires taken <= |from.sent|
    {
      to.readBuf + Concat(to.queue) + Concat(from.sent[taken..])
    }

    method DeliverOne()
      requires Flowing() && taken < |from.sent| && |to.queue| < QUEUE
      modifies this`taken, to`queue
      ensures Flowing() && taken == old(taken) + 1 && Coming() == old(Coming())
      ensures to.queue == old(to.queue) + [from.sent[old(taken)]]
    {
      DeliverConserves(Pipe(from.sent[taken..], to.queue, to.readBuf, false, Coming(), []));
      assert from.sent[taken..][1..] == from.sent[taken + 1..];
      assert from.sent[taken] in from.sent;
      var arrival := to.OnMessage(from.sent[taken]);
      taken := taken + 1;
    }

    method ReadSome(size: nat) returns (b: bytes)
      requires Flowing() && (to.readBuf != [] || to.queue != []) && size > 0
      modifies to`queue, to`readBuf
      ensures Flowing() && 0 < |b| <= size && old(Coming()) == b + Coming()
    {
      assert to.readBuf == [] ==> to.queue[0] in to.queue;
      ReadSplits(to.readBuf, to.queue, Concat(from.sent[taken..]), Min(size, |NextBuf(to.readBuf, to.queue)|));
      var r := to.Read(size);
      b := r.b;
      assert forall c :: c in to.queue ==> c in old(to.queue);
    }

    /** Fills a buffer of k bytes, however the bytes are spread over chunks and
        whenever the network delivers. */
    method ReadFull(k: nat) returns (b: bytes)
      requires Flowing() && |Coming()| >= k
      modifies this`taken, to`queue, to`readBuf
      ensures Flowing() && b == old(Coming())[..k] && Coming() == old(Coming())[k..]
    {
      b := [];
      ghost var all := Coming();
      while |b| < k
        invariant Flowing() && |b| <= k
        invariant b + Coming() == all
        decreases k - |b|
      {
        while taken < |from.sent| && |to.queue| < QUEUE && (to.readBuf == [] && to.queue == [])
          invariant Flowing() && Coming() == all[|b|..]
          decreases |from.sent| - taken
        {
          DeliverOne();
        }
        var more: bool := *;
        if more && taken < |from.sent| && |to.queue| < QUEUE {
          DeliverOne();
        }
        ghost var coming := Coming();
        var some := ReadSome(k - |b|);
        assert b + coming == (b + some) + Coming();
        b := b + some;
      }
      assert all[..k] == b;
    }

    /** Reads one packet; an oversized length is an error after its four bytes. */
    method ReadPacket() returns (r: Result<bytes, nat>)
      requires Flowing() && !ParseHead(Coming()).Incomplete?
      modifies this`taken, to`queue, to`readBuf
      ensures Flowing()
      ensures match ParseHead(old(Coming()))
              case Packet(p, rest) => r == Ok(p) && Coming() == rest
              case Oversized(rest) => r.Err? && Coming() == rest
              case Incomplete => true
    {
      ghost var all := Coming();
      var head := ReadFull(4);
      var n := FromLE(head);
      if n > MAX_PACKET {
        return Err(n);
      }
      assert all[4..][..n] == all[4..4 + n] && all[4..][n..] == all[4 + n..];
      var payload := ReadFull(n);
      r := Ok(payload);
    }

    /** The receive loop, stopped by its callback after n packets: it hands over the
        first n packets that are on their way, in order. */
    method ReceivePackets(n: nat) returns (ps: seq<bytes>)
      requires Flowing() && n <= |ParseAll(Coming()).0|
      modifies this`taken, to`queue, to`readBuf
      ensures Flowing() && ps == ParseAll(old(Coming())).0[..n]
    {
      ps := [];
      ghost var all := ParseAll(Coming()).0;
      while |ps| < n
        invariant Flowing() && |ps| <= n && ps + ParseAll(Coming()).0 == all
      {
        ParseCons(Coming());
        var r := ReadPacket();
        assert (ps + [r.value]) + ParseAll(Coming()).0 == ps + ([r.value] + ParseAll(Coming()).0);
        ps := ps + [r.value];
      }
    }
  }

  /** The messages a packet puts on the wire. */
  function PacketChunks(p: bytes): seq<bytes> {
    Chunks(LE(|p| % TWO32, 4)) + Chunks(p)
  }

  /** Sends a packet: four bytes of length, then its bytes. */
  method SendPacket(channel: DataChannelStream, p: bytes) returns (ok: bool)
    modifies channel.dc
    ensures channel.closed ==> !ok && channel.dc.sent == old(channel.dc.sent)
    ensures !channel.closed ==>
              var cs := PacketChunks(p);
              && (ok <==> old(channel.dc.credit) >= |cs|)
              && channel.dc.sent == old(channel.dc.sent) + cs[..Min(old(channel.dc.credit), |cs|)]
    ensures ok ==> channel.dc.credit == old(channel.dc.credit) - |PacketChunks(p)|
  {
    var header := LE(|p| % TWO32, 4);
    var n;
    TakenFromTwo(channel.dc.sent, Chunks(header), Chunks(p), channel.dc.credit);
    n, ok := channel.Write(header);
    if ok {
      n, ok := channel.Write(p);
    }
  }

  /** Sending the first k of two lists one after the other. */
  lemma TakenFromTwo(sent: seq<bytes>, a: seq<bytes>, b: seq<bytes>, k: nat)
    ensures k < |a| ==> (a + b)[..Min(k, |a + b|)] == a[..Min(k, |a|)]
    ensures k >= |a| ==>
              sent + (a + b)[..Min(k, |a + b|)] == sent + a[..Min(k, |a|)] + b[..Min(k - |a|, |b|)]
  {
  }

  function SendsNeeded(ps: seq<bytes>): nat {
    if ps == [] then 0 else |PacketChunks(ps[0])| + SendsNeeded(ps[1..])
  }

  /** The messages of one packet hold its frame, and none is empty. */
  lemma ChunksOfPacket(p: bytes)
    requires |p| < TWO32
    ensures Concat(PacketChunks(p)) == FrameOne(p)
    ensures forall c :: c in PacketChunks(p) ==> c != []
  {
    ConcatAppend(Chunks(LE(|p|, 4)), Chunks(p));
    ChunksRejoin(LE(|p|, 4));
    ChunksRejoin(p);
  }

  lemma PacketOnTheWire(held: bytes, wire: seq<bytes>, p: bytes)
    requires |p| < TWO32
    ensures held + Concat(wire + PacketChunks(p)) == (held + Concat(wire)) + FrameOne(p)
    ensures forall c :: c in PacketChunks(p) ==> c != []
  {
    ChunksOfPacket(p);
    ConcatAppend(wire, PacketChunks(p));
    Associative(held, Concat(wire), FrameOne(p));
  }

  /** One packet sent adds exactly its frame to what is coming to the other side. */
  method SendOver(channel: DataChannelStream, link: Link, p: bytes)
    requires link.from == channel.dc && link.to != channel && !channel.closed && link.Flowing()
    requires |p| < TWO32 && channel.dc.credit >= |PacketChunks(p)|
    modifies channel.dc
    ensures link.Flowing() && link.Coming() == old(link.Coming()) + FrameOne(p)
    ensures channel.dc.credit == old(channel.dc.credit) - |PacketChunks(p)|
  {
    ghost var before := channel.dc.sent;
    var ok := SendPacket(channel, p);
    assert PacketChunks(p)[..|PacketChunks(p)|] == PacketChunks(p);
    assert channel.dc.sent[link.taken..] == before[link.taken..] + PacketChunks(p);
    PacketOnTheWire(link.to.readBuf + Concat(link.to.queue), before[link.taken..], p);
  }

  /** Packets j to i are on their way, and the channel can take the rest of ps. */
  ghost predicate Underway(channel: DataChannelStream, link: Link, ps: seq<bytes>, j: nat, i: nat)
    reads channel, channel.dc, link, link.from, link.to
  {
    && link.from == channel.dc && link.to != channel && !channel.closed && link.Flowing()
    && j <= i <= |ps| && link.Coming() == Frame(ps[j..i])
    && channel.dc.credit >= SendsNeeded(ps[i..])
  }

  /** Packets sent on one side and received on the other, in any order of sends and receives
      that never receives what was not sent: all of them, in order. */
  method Exchange(channel: DataChannelStream, link: Link, ps: seq<bytes>) returns (got: seq<bytes>)
    requires link.from == channel.dc && link.to != channel && !channel.closed && link.Flowing()
    requires link.Coming() == [] && Fits(ps)
    requires channel.dc.credit >= SendsNeeded(ps)
    modifies link, link.to, channel.dc
    ensures got == ps && link.Flowing() && link.Coming() == []
  {
    got := [];
    assert ps[0..] == ps && ps[0..0] == [];
    for i := 0 to |ps|
      invariant |got| <= i && got <= ps && Underway(channel, link, ps, |got|, i)
    {
      SendNth(channel, link, ps, |got|, i);
      var n: nat :| n <= i + 1 - |got|;
      got := ReceiveSome(channel, link, ps, got, i + 1, n);
    }
    got := ReceiveSome(channel, link, ps, got, |ps|, |ps| - |got|);
    assert ps[|ps|..|ps|] == [];
  }

  /** Sends packet i while packets j to i are on their way. */
  method SendNth(channel: DataChannelStream, link: Link, ps: seq<bytes>, ghost j: nat, i: nat)
    requires Underway(channel, link, ps, j, i) && Fits(ps) && i < |ps|
    modifies channel.dc
    ensures Underway(channel, link, ps, j, i + 1)
  {
    assert ps[i] in ps && ps[i..][1..] == ps[i + 1..];
    SendOver(channel, link, ps[i]);
    FrameNext(ps, j, i);
  }

  /** Receives the next n of the packets that were sent and not yet received. */
  method ReceiveSome(ghost channel: DataChannelStream, link: Link, ghost ps: seq<bytes>, before: seq<bytes>,
                     ghost sent: nat, n: nat) returns (got: seq<bytes>)
    requires Underway(channel, link, ps, |before|, sent) && Fits(ps) && before <= ps && |before| + n <= sent
    modifies link`taken, link.to`queue, link.to`readBuf
    ensures |got| == |before| + n && got <= ps && Underway(channel, link, ps, |got|, sent)
    decreases n
  {
    got := before;
    if n > 0 {
      var p := ReceiveNext(link, ps, |before|, sent);
      got := ReceiveSome(channel, link, ps, before + [p], sent, n - 1);
    }
  }

  method ReceiveNext(link: Link, ghost ps: seq<bytes>, ghost j: nat, ghost sent: nat) returns (p: bytes)
    requires link.Flowing() && Fits(ps) && j < sent <= |ps| && link.Coming() == Frame(ps[j..sent])
    modifies link`taken, link.to`queue, link.to`readBuf
    ensures link.Flowing() && p == ps[j] && link.Coming() == Frame(ps[j + 1..sent])
  {
    assert ps[j] in ps;
    HeadOfFrames(ps, j, sent);
    var r := link.ReadPacket();
    p := r.value;
  }

  lemma HeadOfFrames(ps: seq<bytes>, j: nat, sent: nat)
    requires Fits(ps) && j < sent <= |ps|
    ensures ParseHead(Frame(ps[j..sent])) == Packet(ps[j], Frame(ps[j + 1..sent]))
  {
    assert ps[j] in ps && ps[j..sent][0] == ps[j] && ps[j..sent][1..] == ps[j + 1..sent];
    HeadOfFrame(ps[j], Frame(ps[j + 1..sent]));
  }

  lemma FrameNext(ps: seq<bytes>, j: nat, i: nat)
    requires j <= i < |ps|
    ensures Frame(ps[j..i + 1]) == Frame(ps[j..i]) + FrameOne(ps[i])
  {
    assert ps[j..i + 1] == ps[j..i] + [ps[i]];
    FrameAppend(ps[j..i], [ps[i]]);
    FrameSingle(ps[i]);
  }

  lemma FrameSingle(p: bytes)
    ensures Frame([p]) == FrameOne(p)
  {
    assert [p][1..] == [];
  }
}
