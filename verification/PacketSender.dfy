/** The packet pool and the cached sender as objects: what one caller or the send loop does
    between two switches. Interleavings of their single steps are those of RefCount. */
module PacketSender {
  import opened Prelude
  import opened PacketCodec
  import RefCount

  /** What a packet puts on the stream: its length in four bytes, then its bytes. */
  function Frame(p: Packet): bytes
    requires p.Valid()
    reads p, p.buf
  {
    LE(p.length % TWO32, 4) + p.Buff()
  }

  /** The frame a value makes: the length of its encoding, then the encoding. */
  function FrameFor(typ: byte, v: Payload, header: nat): Result<bytes, WriteError> {
    match Serialize(typ, v, false)
    case Err(e) => Err(e)
    case Ok(content) => Ok(LE((10 + |content|) % TWO32, 4) + Encode(typ, [header], content))
  }

  class Pool {
    var free: set<Packet>
    ghost var made: set<Packet>   // every packet handed out so far

    constructor ()
      ensures free == {} && made == {} && Valid()
    {
      free, made := {}, {};
    }

    /** A packet is in the pool exactly when nobody holds it, and is empty then. */
    ghost predicate Valid()
      reads this, made
    {
      && free <= made
      && (forall p :: p in made ==> p.Valid() && p.refCounter >= 0 && (p in free <==> p.refCounter == 0))
      && (forall p :: p in free ==> p.length == 0 && p.blen == 0)
      && (forall p, q :: p in made && q in made && p != q ==> p.buf != q.buf)
    }

    ghost function Held(): set<Packet>
      reads this
    {
      made - free
    }

    /** Hands out an empty packet with one reference: any from the pool, or a new one. */
    method Get() returns (p: Packet)
      requires Valid()
      modifies this, free
      ensures Valid() && p.refCounter == 1 && p.length == 0 && p.Valid() && p.Buff() == []
      ensures made == old(made) + {p} && free == old(free) - {p} && Held() == old(Held()) + {p}
      ensures if p in old(made) then p in old(free) && p.buf == old(p.buf) else fresh(p) && fresh(p.buf)
      ensures forall q :: q in old(free) && q != p ==> unchanged(q)
    {
      var reuse: bool := *;
      if reuse && exists q :: q in free {
        p :| p in free;
        free := free - {p};
      } else {
        p := new Packet();
        made := made + {p};
      }
      p.refCounter := p.refCounter + 1;
    }

    /** Gives a reference back; the last one empties the packet into the pool. */
    method Put(p: Packet)
      requires Valid() && p in made && p.refCounter >= 1
      modifies this`free, p`refCounter, p`length, p`blen
      ensures Valid() && p.refCounter == old(p.refCounter) - 1
      ensures free == if p.refCounter == 0 then old(free) + {p} else old(free)
      ensures Held() == if p.refCounter == 0 then old(Held()) - {p} else old(Held())
      ensures p.refCounter > 0 ==> p.length == old(p.length) && p.blen == old(p.blen)
    {
      p.refCounter := p.refCounter - 1;
      if p.refCounter == 0 {
        p.length := 0;
        p.blen := 0;
        free := free + {p};
      }
    }

    /** Writing a held packet keeps the pool in order and touches no other packet's bytes. */
    method WriteHeld(p: Packet, typ: byte, v: Payload, header: nat) returns (w: Result<(), WriteError>)
      requires Valid() && p in made && p.refCounter > 0 && header < TWO64
      modifies p`buf, p`blen, p`length, p.buf
      ensures Valid() && (p.buf == old(p.buf) || fresh(p.buf))
      ensures match FrameFor(typ, v, header)
              case Err(e) => w == Err(e)
              case Ok(frame) => w == Ok(()) && Frame(p) == frame
    {
      w := p.Write(typ, header, v);
      if w.Ok? {
        assert p.blen == |p.Buff()|;
        LengthFits(p.blen);
      }
    }
  }

  lemma LengthFits(n: nat)
    ensures n % TWO32 % TWO32 == n % TWO32
  {
  }

  lemma TakenFromTwo(sent: bytes, a: bytes, b: bytes, credit: nat)
    ensures credit < |a| ==> Taken(a + b, credit) == Taken(a, credit)
    ensures credit >= |a| ==> sent + Taken(a + b, credit) == sent + a + Taken(b, credit - |a|)
  {
  }

  datatype SendError = Rejected(cause: WriteError) | QueueFull | WriteFailed

  /** What gets through of some bytes when the connection takes `credit` more. */
  function Taken(b: bytes, credit: nat): bytes {
    b[..Min(|b|, credit)]
  }

  /** A network connection: bytes sent so far, and how many more it takes before it fails. */
  class Socket {
    var sent: bytes
    var credit: nat

    constructor (credit: nat)
      ensures sent == [] && this.credit == credit
    {
      this.sent, this.credit := [], credit;
    }

    method Write(b: bytes) returns (ok: bool)
      modifies this
      ensures ok <==> old(credit) >= |b|
      ensures sent == old(sent) + Taken(b, old(credit)) && credit == old(credit) - |Taken(b, old(credit))|
    {
      ok := credit >= |b|;
      sent := sent + Taken(b, credit);
      credit := credit - |Taken(b, credit)|;
    }
  }

  class Conn {
    const pool: Pool
    const cached: bool
    const socket: Socket
    var queue: seq<Packet>
    var online: bool

    constructor (pool: Pool, cached: bool, socket: Socket)
      requires pool.Valid()
      ensures this.pool == pool && this.cached == cached && this.socket == socket
      ensures queue == [] && online && Valid()
    {
      this.pool, this.cached, this.socket, queue, online := pool, cached, socket, [], true;
    }

    /** Each place in the queue is one reference of its packet. */
    ghost predicate Valid()
      reads this, pool, pool.made
    {
      && pool.Valid()
      && (forall p :: p in queue ==> p in pool.made)
      && (forall p :: p in pool.made ==> p.refCounter >= multiset(queue)[p])
    }

    /** Moves a reference into the queue if there is room. */
    method TryPush(p: Packet) returns (pushed: bool)
      requires Valid() && p in pool.made && p.refCounter > multiset(queue)[p]
      modifies this`queue
      ensures Valid() && (pushed <==> |old(queue)| < RefCount.SLOTS)
      ensures queue == if pushed then old(queue) + [p] else old(queue)
    {
      pushed := |queue| < RefCount.SLOTS;
      if pushed {
        RefCount.QueueEnds(queue, p);
        queue := queue + [p];
      }
    }

    /** The length, then the bytes, until a write fails. */
    method WriteFrame(p: Packet) returns (ok: bool)
      requires p.Valid()
      modifies socket
      ensures ok <==> old(socket.credit) >= |Frame(p)|
      ensures socket.sent == old(socket.sent) + Taken(Frame(p), old(socket.credit))
    {
      ghost var header := LE(p.length % TWO32, 4);
      TakenFromTwo(socket.sent, header, p.Buff(), socket.credit);
      ok := socket.Write(LE(p.length % TWO32, 4));
      if ok {
        ok := socket.Write(p.Buff());
      }
    }

    /** Sends or queues a packet its caller holds; a full queue leaves all counters alone. */
    method SendPacket(p: Packet) returns (r: Result<(), SendError>)
      requires Valid() && p in pool.made && p.refCounter > multiset(queue)[p]
      modifies this`queue, socket, pool`free, p`refCounter, p`length, p`blen
      ensures Valid() && pool.made == old(pool.made) && pool.free == old(pool.free)
      ensures p.length == old(p.length) && p.blen == old(p.blen)
      ensures !cached ==>
                && r == (if old(socket.credit) >= |old(Frame(p))| then Ok(()) else Err(WriteFailed))
                && socket.sent == old(socket.sent) + Taken(old(Frame(p)), old(socket.credit))
                && queue == old(queue) && p.refCounter == old(p.refCounter)
      ensures cached ==> socket.sent == old(socket.sent) && socket.credit == old(socket.credit)
      ensures cached && |old(queue)| < RefCount.SLOTS ==>
                r == Ok(()) && queue == old(queue) + [p] && p.refCounter == old(p.refCounter) + 1
      ensures cached && |old(queue)| >= RefCount.SLOTS ==>
                r == Err(QueueFull) && queue == old(queue) && p.refCounter == old(p.refCounter)
    {
      if cached {
        r := Enqueue(p);
      } else {
        var ok := WriteFrame(p);
        r := if ok then Ok(()) else Err(WriteFailed);
      }
    }

    /** Takes a reference for the queue, and gives it back if there is no room. */
    method Enqueue(p: Packet) returns (r: Result<(), SendError>)
      requires Valid() && p in pool.made && p.refCounter > multiset(queue)[p]
      modifies this`queue, pool`free, p`refCounter, p`length, p`blen
      ensures Valid() && pool.made == old(pool.made) && pool.free == old(pool.free)
      ensures p.length == old(p.length) && p.blen == old(p.blen)
      ensures if |old(queue)| < RefCount.SLOTS
              then r == Ok(()) && queue == old(queue) + [p] && p.refCounter == old(p.refCounter) + 1
              else r == Err(QueueFull) && queue == old(queue) && p.refCounter == old(p.refCounter)
    {
      p.refCounter := p.refCounter + 1;
      var pushed := TryPush(p);
      if pushed {
        return Ok(());
      }
      pool.Put(p);
      r := Err(QueueFull);
    }

    /** One turn of the send loop: the oldest packet goes out, as far as the connection takes it,
        and its reference is given back; a failed write closes the connection. */
    method SendNext()
      requires Valid() && queue != []
      modifies this`queue, this`online, socket, pool`free, queue[..1]
      ensures Valid() && pool.made == old(pool.made) && queue == old(queue)[1..]
      ensures socket.sent == old(socket.sent) + Taken(old(Frame(queue[0])), old(socket.credit))
      ensures online == (old(online) && old(socket.credit) >= |old(Frame(queue[0]))|)
      ensures var p := old(queue[0]);
              && p.refCounter == old(queue[0].refCounter) - 1
              && pool.free == if p.refCounter == 0 then old(pool.free) + {p} else old(pool.free)
    {
      var p := queue[0];
      RefCount.QueueEnds(queue, p);
      queue := queue[1..];
      var ok := WriteFrame(p);
      if !ok {
        online := false;
      }
      pool.Put(p);
    }

    /** Gets a packet and writes it; everything held by others stays as it is. */
    method Prepare(typ: byte, v: Payload, header: nat) returns (p: Packet, w: Result<(), WriteError>)
      requires Valid() && header < TWO64
      modifies pool, pool.free, set p | p in pool.free :: p.buf
      ensures Valid() && p in pool.made && p.refCounter == 1 && p !in queue
      ensures p in old(pool.free) || fresh(p)
      ensures old(pool.made) <= pool.made
      ensures pool.Held() == old(pool.Held()) + {p}
      ensures match FrameFor(typ, v, header)
              case Err(e) => w == Err(e)
              case Ok(frame) => w == Ok(()) && Frame(p) == frame
      ensures forall q :: q in old(pool.made) && q !in old(pool.free) ==> unchanged(q) && unchanged(q.buf)
    {
      p := pool.Get();
      assert p !in queue by {
        assert multiset(queue)[p] == 0;
      }
      w := pool.WriteHeld(p, typ, v, header);
    }

    /** Sends a packet and gives the caller's only reference to it back. */
    method SendAndPut(p: Packet) returns (r: Result<(), SendError>)
      requires Valid() && p in pool.made && p.refCounter == 1 && p !in queue
      modifies this`queue, socket, pool`free, p`refCounter, p`length, p`blen
      ensures Valid() && pool.made == old(pool.made)
      ensures !cached ==>
                && r == (if old(socket.credit) >= |old(Frame(p))| then Ok(()) else Err(WriteFailed))
                && socket.sent == old(socket.sent) + Taken(old(Frame(p)), old(socket.credit))
                && queue == old(queue) && pool.Held() == old(pool.Held()) - {p}
      ensures cached ==> socket.sent == old(socket.sent) && socket.credit == old(socket.credit)
      ensures cached && |old(queue)| < RefCount.SLOTS ==>
                && r == Ok(()) && queue == old(queue) + [p] && pool.Held() == old(pool.Held())
                && p.refCounter == 1 && p.length == old(p.length) && p.blen == old(p.blen)
      ensures cached && |old(queue)| >= RefCount.SLOTS ==>
                r == Err(QueueFull) && queue == old(queue) && pool.Held() == old(pool.Held()) - {p}
    {
      r := SendPacket(p);
      pool.Put(p);
    }

    /** Get, write, send, put: afterwards the packet is queued with one reference, or back in
        the pool; whatever else the pool has made is as it was. */
    method Send(typ: byte, v: Payload, header: nat) returns (r: Result<(), SendError>, ghost p: Packet)
      requires Valid() && header < TWO64
      modifies this`queue, socket, pool, pool.free, set p | p in pool.free :: p.buf
      ensures Valid() && (p in old(pool.free) || fresh(p))
      ensures match FrameFor(typ, v, header)
              case Err(e) =>
                && r == Err(Rejected(e)) && queue == old(queue) && pool.Held() == old(pool.Held())
                && socket.sent == old(socket.sent)
              case Ok(frame) =>
                if !cached then
                  && r == (if old(socket.credit) >= |frame| then Ok(()) else Err(WriteFailed))
                  && queue == old(queue) && pool.Held() == old(pool.Held())
                  && socket.sent == old(socket.sent) + Taken(frame, old(socket.credit))
                else if |old(queue)| >= RefCount.SLOTS then
                  && r == Err(QueueFull) && queue == old(queue) && pool.Held() == old(pool.Held())
                  && socket.sent == old(socket.sent)
                else
                  && r == Ok(()) && queue == old(queue) + [p] && pool.Held() == old(pool.Held()) + {p}
                  && socket.sent == old(socket.sent) && p.refCounter == 1 && p.Valid() && Frame(p) == frame
      ensures cached ==> socket.credit == old(socket.credit)
      ensures forall q :: q in old(pool.made) && q !in old(pool.free) ==> unchanged(q) && unchanged(q.buf)
    {
      var packet, w := Prepare(typ, v, header);
      p := packet;
      if w.Err? {
        pool.Put(packet);
        return Err(Rejected(w.error)), p;
      }
      r := SendAndPut(packet);
    }

    /** A send followed by the send loop's turn: the frame is on the wire as far as the connection
        took it, and every packet the pool has made is held by exactly those who held it before. */
    method SendThrough(typ: byte, v: Payload, header: nat) returns (r: Result<(), SendError>)
      requires Valid() && header < TWO64 && cached && queue == []
      modifies this`queue, this`online, socket, pool, pool.free, set p | p in pool.free :: p.buf
      ensures Valid() && queue == []
      ensures match FrameFor(typ, v, header)
              case Err(e) => r == Err(Rejected(e)) && socket.sent == old(socket.sent)
              case Ok(frame) =>
                && r == Ok(()) && socket.sent == old(socket.sent) + Taken(frame, old(socket.credit))
                && online == (old(online) && old(socket.credit) >= |frame|)
      ensures pool.Held() == old(pool.Held())
      ensures forall q :: q in old(pool.made) && q !in old(pool.free) ==> unchanged(q) && unchanged(q.buf)
    {
      ghost var p;
      r, p := Send(typ, v, header);
      if r.Ok? {
        SendNext();
      }
    }
  }
}
