/** One SOCKS5 connection, from the greeting to the start of the relay. */
module SocksServer {
  import opened Prelude
  import opened SocksCodec

  const NO_AUTH: byte := 0
  const USER_PASS: byte := 2
  const NONE_ACCEPTABLE: byte := 255

  const CONNECT: byte := 1
  const BIND: byte := 2
  const ASSOCIATE: byte := 3

  const SUCCESS: byte := 0
  const SERVER_FAILURE: byte := 1
  const RULE_FAILURE: byte := 2
  const NETWORK_UNREACHABLE: byte := 3
  const HOST_UNREACHABLE: byte := 4
  const CONNECTION_REFUSED: byte := 5
  const COMMAND_NOT_SUPPORTED: byte := 7
  const ADDR_TYPE_NOT_SUPPORTED: byte := 8

  datatype Authenticator = NoAuth | UserPassAuth

  function Code(a: Authenticator): byte {
    if a.NoAuth? then NO_AUTH else USER_PASS
  }

  /** A local address as the network layer reports it. */
  datatype NetAddr = Tcp(ip: bytes, port: int) | Udp(ip: bytes, port: int) | OtherAddr

  datatype DialResult = Connected(local: NetAddr) | Failed(message: string)

  /** The server's configuration and the answers its surroundings give to one connection. */
  datatype World = World(
    authMethods: seq<Authenticator>,
    valid: (bytes, bytes) -> bool,
    resolve: bytes -> Option<bytes>,
    rewrite: Option<(Message, AddrSpec) -> AddrSpec>,
    allow: (Message, AddrSpec, AddrSpec) -> bool,
    dial: AddrSpec -> DialResult,
    listen: Option<nat>,
    localIP: bytes)

  /** What one connection does, in order. */
  datatype Event =
    | Wrote(b: bytes)
    | WriteFailed(b: bytes)
    | Authenticated(code: byte)
    | Requested(m: Message)
    | Resolved(name: bytes, found: bool)
    | Judged(allowed: bool)
    | Dialled(addr: AddrSpec, ok: bool)
    | Listened(ok: bool)
    | Proxying(unread: bytes)
    | Relaying

  // ---- Reference run ----

  /** A write succeeds while the client still takes writes. */
  function Write(b: bytes, credit: nat): Event {
    if credit > 0 then Wrote(b) else WriteFailed(b)
  }

  /** The authentication phase: its events, whether the client was admitted, what is left. */
  datatype Admission = Admission(events: seq<Event>, admitted: bool, rest: bytes, credit: nat)

  /** The first authenticator, in server order, whose code the client offered. */
  function Chosen(auths: seq<Authenticator>, offered: bytes): Option<Authenticator> {
    if auths == [] then None
    else if Code(auths[0]) in offered then Some(auths[0])
    else Chosen(auths[1..], offered)
  }

  function Admit(w: World, a: Authenticator, s: bytes, credit: nat): Admission {
    if credit == 0 then Admission([WriteFailed([VERSION5, Code(a)])], false, s, 0)
    else if a.NoAuth? then
      Admission([Wrote([VERSION5, NO_AUTH]), Authenticated(NO_AUTH)], true, s, credit - 1)
    else
      match UserPassIn(s)
      case Err(_) => Admission([Wrote([VERSION5, USER_PASS])], false, [], credit - 1)
      case Ok(p) =>
        var greeting := Wrote([VERSION5, USER_PASS]);
        if !w.valid(p.value.user, p.value.pass) then
          Admission([greeting, Write([USER_PASS_VERSION, 1], credit - 1)], false, p.rest, 0)
        else if credit == 1 then
          Admission([greeting, WriteFailed([USER_PASS_VERSION, 0])], false, p.rest, 0)
        else
          Admission([greeting, Wrote([USER_PASS_VERSION, 0]), Authenticated(USER_PASS)],
                    true, p.rest, credit - 2)
  }

  function Negotiate(w: World, offered: bytes, s: bytes, credit: nat): Admission {
    match Chosen(w.authMethods, offered)
    case Some(a) => Admit(w, a, s, credit)
    case None => Admission([Write([VERSION5, NONE_ACCEPTABLE], credit)], false, s, 0)
  }

  const ZERO_IP: bytes := [0, 0, 0, 0, 0, 0, 0, 0, 0, 0, 255, 255, 0, 0, 0, 0]

  /** The reply sent for a response code and, on success, a bound address. */
  function ReplyFor(rep: byte, bind: NetAddr): Message {
    if rep != SUCCESS then Message(VERSION5, rep, 0, AddrSpec([], ZERO_IP, 0, ATYP_IPV4))
    else if bind.OtherAddr? then
      Message(VERSION5, ADDR_TYPE_NOT_SUPPORTED, 0, AddrSpec([], ZERO_IP, 0, ATYP_IPV4))
    else
      var atyp := if To4(bind.ip) == [] && To16(bind.ip) != [] then ATYP_IPV6 else ATYP_IPV4;
      Message(VERSION5, SUCCESS, 0, AddrSpec([], bind.ip, bind.port, atyp))
  }

  function Reply(rep: byte, bind: NetAddr, credit: nat): Event {
    Write(Print(ReplyFor(rep, bind)), credit)
  }

  function Refusal(rep: byte, credit: nat): Event {
    Reply(rep, OtherAddr, credit)
  }

  predicate Contains(s: string, part: string) {
    part <= s || (s != "" && Contains(s[1..], part))
  }

  function DialCode(message: string): byte {
    if Contains(message, "refused") then CONNECTION_REFUSED
    else if Contains(message, "network is unreachable") then NETWORK_UNREACHABLE
    else HOST_UNREACHABLE
  }

  function Connect(w: World, dest: AddrSpec, s: bytes, credit: nat): seq<Event> {
    match w.dial(dest)
    case Failed(message) => [Dialled(dest, false), Refusal(DialCode(message), credit)]
    case Connected(local) =>
      [Dialled(dest, true), Reply(SUCCESS, local, credit)] + if credit > 0 then [Proxying(s)] else []
  }

  function Associate(w: World, credit: nat): seq<Event> {
    match w.listen
    case None => [Listened(false), Refusal(SERVER_FAILURE, credit)]
    case Some(port) =>
      [Listened(true), Reply(SUCCESS, Udp(w.localIP, port), credit)] + if credit > 0 then [Relaying] else []
  }

  function Perform(w: World, m: Message, dest: AddrSpec, s: bytes, credit: nat): seq<Event> {
    if m.code == CONNECT then Connect(w, dest, s, credit)
    else if m.code == ASSOCIATE then Associate(w, credit)
    else [Refusal(COMMAND_NOT_SUPPORTED, credit)]
  }

  /** The destination with its name resolved. */
  function RawAddr(w: World, m: Message): AddrSpec {
    if m.addr.fqdn != [] && w.resolve(m.addr.fqdn).Some?
    then m.addr.(ip := w.resolve(m.addr.fqdn).value) else m.addr
  }

  function DestAddr(w: World, m: Message): AddrSpec {
    if w.rewrite.Some? then w.rewrite.value(m, RawAddr(w, m)) else RawAddr(w, m)
  }

  function Decide(w: World, m: Message, s: bytes, credit: nat): seq<Event> {
    if !w.allow(m, RawAddr(w, m), DestAddr(w, m)) then [Judged(false), Refusal(RULE_FAILURE, credit)]
    else [Judged(true)] + Perform(w, m, DestAddr(w, m), s, credit)
  }

  function Handle(w: World, m: Message, s: bytes, credit: nat): seq<Event> {
    if m.addr.fqdn == [] then Decide(w, m, s, credit)
    else if w.resolve(m.addr.fqdn).None? then
      [Resolved(m.addr.fqdn, false), Refusal(HOST_UNREACHABLE, credit)]
    else [Resolved(m.addr.fqdn, true)] + Decide(w, m, s, credit)
  }

  function Respond(w: World, m: Message, s: bytes, credit: nat): seq<Event> {
    if m.code == CONNECT || m.code == BIND || m.code == ASSOCIATE then Handle(w, m, s, credit)
    else [Refusal(COMMAND_NOT_SUPPORTED, credit)]
  }

  function ServeRequest(w: World, s: bytes, credit: nat): seq<Event> {
    match MessageIn(s)
    case Err(e) => if e == BadAddrType then [Refusal(ADDR_TYPE_NOT_SUPPORTED, credit)] else []
    case Ok(p) =>
      [Requested(p.value)] + Respond(w, p.value, p.rest, credit)
  }

  function Welcome(w: World, m: MethodRequest, s: bytes, credit: nat): seq<Event> {
    if m.ver != VERSION5 then []
    else
      var a := Negotiate(w, m.methods, s, credit);
      a.events + if a.admitted then ServeRequest(w, a.rest, a.credit) else []
  }

  /** Everything a connection does, given all bytes the client will ever send and how many
      writes it will take. */
  function Serve(w: World, s: bytes, credit: nat): seq<Event> {
    match MethodsIn(s)
    case Err(_) => []
    case Ok(p) => Welcome(w, p.value, p.rest, credit)
  }

  // ---- What every connection keeps ----

  predicate Writes(e: Event) {
    e.Wrote? || e.WriteFailed?
  }

  /** On the wire negotiation answers are two bytes long and replies at least six. */
  predicate IsReply(e: Event) {
    Writes(e) && |e.b| >= 6
  }

  lemma {:induction false} ChosenIsFirst(auths: seq<Authenticator>, offered: bytes, k: nat)
    requires k < |auths| && Code(auths[k]) in offered
    requires forall j :: 0 <= j < k ==> Code(auths[j]) !in offered
    ensures Chosen(auths, offered) == Some(auths[k])
  {
    if k > 0 {
      assert Code(auths[0]) !in offered;
      ChosenIsFirst(auths[1..], offered, k - 1);
    }
  }

  lemma {:induction false} ChosenIsOffered(auths: seq<Authenticator>, offered: bytes)
    ensures Chosen(auths, offered).Some? ==>
              Chosen(auths, offered).value in auths && Code(Chosen(auths, offered).value) in offered
  {
    if auths != [] {
      ChosenIsOffered(auths[1..], offered);
    }
  }

  /** The first answer names the first authenticator, in server order, whose code was offered;
      if there is none the connection ends with 0xFF. */
  lemma AuthenticatorChoice(w: World, s: bytes, credit: nat)
    requires MethodsIn(s).Ok? && MethodsIn(s).value.value.ver == VERSION5
    ensures var offered, t := MethodsIn(s).value.value.methods, Serve(w, s, credit);
            && t != []
            && (forall k :: 0 <= k < |w.authMethods| && Code(w.authMethods[k]) in offered
                  && (forall j :: 0 <= j < k ==> Code(w.authMethods[j]) !in offered)
                  ==> t[0] == Write([VERSION5, Code(w.authMethods[k])], credit))
            && ((forall k :: 0 <= k < |w.authMethods| ==> Code(w.authMethods[k]) !in offered)
                  ==> t == [Write([VERSION5, NONE_ACCEPTABLE], credit)])
  {
    var offered := MethodsIn(s).value.value.methods;
    forall k | 0 <= k < |w.authMethods| && Code(w.authMethods[k]) in offered
                 && forall j :: 0 <= j < k ==> Code(w.authMethods[j]) !in offered
      ensures Chosen(w.authMethods, offered) == Some(w.authMethods[k])
    {
      ChosenIsFirst(w.authMethods, offered, k);
    }
    ChosenIsOffered(w.authMethods, offered);
  }

  /** The authentication phase only writes two-byte answers, and admits as its last event. */
  lemma AdmissionShape(w: World, offered: bytes, s: bytes, credit: nat)
    ensures var a := Negotiate(w, offered, s, credit);
            && a.events != []
            && (forall i :: 0 <= i < |a.events| - 1 ==> Writes(a.events[i]) && |a.events[i].b| == 2)
            && (if a.admitted then a.events[|a.events| - 1].Authenticated?
                else Writes(a.events[|a.events| - 1]) && |a.events[|a.events| - 1].b| == 2)
            && (forall i :: 0 <= i < |a.events| && a.events[i].WriteFailed? ==> i == |a.events| - 1)
  {
  }

  /** The response code a reply carries after a given event. */
  predicate Explains(w: World, before: Event, code: byte) {
    match before
    case Judged(allowed) => code == if allowed then COMMAND_NOT_SUPPORTED else RULE_FAILURE
    case Resolved(_, found) => !found && code == HOST_UNREACHABLE
    case Listened(ok) => code == if ok then SUCCESS else SERVER_FAILURE
    case Requested(m) => code == COMMAND_NOT_SUPPORTED && m.code !in [CONNECT, BIND, ASSOCIATE]
    case Authenticated(_) => code == ADDR_TYPE_NOT_SUPPORTED
    case Dialled(addr, ok) =>
      (match w.dial(addr)
       case Connected(local) => ok && code == if local.OtherAddr? then ADDR_TYPE_NOT_SUPPORTED else SUCCESS
       case Failed(message) =>
         && !ok
         && (code == CONNECTION_REFUSED <==> Contains(message, "refused"))
         && (code == NETWORK_UNREACHABLE <==>
             !Contains(message, "refused") && Contains(message, "network is unreachable"))
         && code in [CONNECTION_REFUSED, NETWORK_UNREACHABLE, HOST_UNREACHABLE])
    case _ => false
  }

  /** An IP address and a port as they can stand in a reply. */
  predicate Real(ip: bytes, port: int) {
    (|ip| == 4 || |ip| == 16) && 0 <= port < 0x1_0000
  }

  /** The bytes are one success reply that names the address and the port. */
  predicate Tells(b: bytes, ip: bytes, port: int) {
    && MessageIn(b).Ok? && MessageIn(b).value.rest == []
    && var m := MessageIn(b).value.value;
    && m.ver == VERSION5 && m.code == SUCCESS
    && m.addr.fqdn == [] && To16(m.addr.ip) == To16(ip) && m.addr.port == port
  }

  /** The bytes are one refusal, with the zero address. */
  predicate Blank(b: bytes) {
    && MessageIn(b).Ok? && MessageIn(b).value.rest == []
    && var m := MessageIn(b).value.value;
    && m.ver == VERSION5 && m.code != SUCCESS
    && m.addr.fqdn == [] && To4(m.addr.ip) == [0, 0, 0, 0] && m.addr.port == 0
  }

  /** The local end of the socket that an event opened. */
  function Opened(w: World, e: Event): NetAddr {
    match e
    case Dialled(addr, _) => if w.dial(addr).Connected? then w.dial(addr).local else OtherAddr
    case Listened(_) => if w.listen.Some? then Udp(w.localIP, w.listen.value) else OtherAddr
    case _ => OtherAddr
  }

  /** The bytes are the reply with its code and the socket the event before it opened. */
  predicate Says(w: World, before: Event, b: bytes)
    requires |b| > 1
  {
    b == Print(ReplyFor(b[1], Opened(w, before)))
  }

  /** The name of the request, if it has one, resolves. */
  predicate Resolves(w: World, m: Message) {
    m.addr.fqdn != [] ==> w.resolve(m.addr.fqdn).Some?
  }

  /** What may stand before position i in what a request leads to. */
  predicate Earned(w: World, m: Message, t: seq<Event>, i: nat)
    requires i < |t|
  {
    && (t[i].Judged? ==> t[i].allowed == w.allow(m, RawAddr(w, m), DestAddr(w, m)))
    && (t[i].Dialled? ==> m.code == CONNECT && t[i].addr == DestAddr(w, m) && i > 0 && t[i - 1] == Judged(true))
    && (t[i].Listened? ==> m.code == ASSOCIATE && i > 0 && t[i - 1] == Judged(true))
    && (t[i].Dialled? || t[i].Listened? ==> Resolves(w, m))
    && (IsReply(t[i]) && t[i].b[1] == SUCCESS ==>
          i > 0 && (if m.code == CONNECT then t[i - 1].Dialled? && t[i - 1].ok else t[i - 1] == Listened(true)))
    && (t[i].Proxying? || t[i].Relaying? ==> i > 0 && IsReply(t[i - 1]) && t[i - 1].Wrote?)
    && (IsReply(t[i]) ==> Explains(w, if i > 0 then t[i - 1] else Requested(m), t[i].b[1])
                          && Says(w, if i > 0 then t[i - 1] else Requested(m), t[i].b))
    && !t[i].Requested? && !t[i].Authenticated?
    && (Writes(t[i]) ==> IsReply(t[i]))
    && (forall j :: 0 <= j < i && IsReply(t[j]) ==> t[i].Proxying? || t[i].Relaying?)
  }

  lemma ReplyCode(rep: byte, bind: NetAddr, credit: nat)
    ensures var e := Reply(rep, bind, credit);
            && IsReply(e) && (e.Wrote? <==> credit > 0)
            && e.b[1] == (if rep == SUCCESS && bind.OtherAddr? then ADDR_TYPE_NOT_SUPPORTED else rep)
            && e.b == Print(ReplyFor(e.b[1], bind))
  {
    PrintSplits(ReplyFor(rep, bind), []);
  }

  /** What a client reads from a reply. */
  lemma ReplyTells(rep: byte, bind: NetAddr)
    ensures var b := Print(ReplyFor(rep, bind));
            if rep != SUCCESS || bind.OtherAddr? then Blank(b)
            else Real(bind.ip, bind.port) ==> Tells(b, bind.ip, bind.port)
  {
    var m := ReplyFor(rep, bind);
    ReplyIsReadable(rep, bind, []);
    assert Print(m) + [] == Print(m);
    if rep == SUCCESS && !bind.OtherAddr? && Real(bind.ip, bind.port) {
      SameIP(bind.ip);
    } else {
      assert To4(MAPPED + To4(ZERO_IP)) == [0, 0, 0, 0];
    }
  }

  /** The form a parser gives an address is the address. */
  lemma SameIP(ip: bytes)
    requires |ip| == 4 || |ip| == 16
    ensures To4(ip) != [] ==> MAPPED + To4(ip) == To16(ip)
  {
    if |ip| == 16 && ip[..12] == MAPPED {
      assert ip == ip[..12] + ip[12..];
    }
  }

  predicate AllEarned(w: World, m: Message, t: seq<Event>) {
    forall i :: 0 <= i < |t| ==> Earned(w, m, t, i)
  }

  lemma OutcomeShape(w: World, m: Message, probe: Event, reply: Event, flow: seq<Event>)
    requires w.allow(m, RawAddr(w, m), DestAddr(w, m)) && Resolves(w, m)
    requires if m.code == CONNECT then probe.Dialled? && probe.addr == DestAddr(w, m)
             else m.code == ASSOCIATE && probe.Listened?
    requires IsReply(reply) && (reply.b[1] == SUCCESS ==> probe.ok) && Explains(w, probe, reply.b[1])
    requires Says(w, probe, reply.b)
    requires flow == [] || (reply.Wrote? && (flow == [Relaying] || (|flow| == 1 && flow[0].Proxying?)))
    ensures AllEarned(w, m, [Judged(true)] + ([probe, reply] + flow))
  {
    var t := [Judged(true)] + ([probe, reply] + flow);
    assert t[0] == Judged(true) && t[1] == probe && t[2] == reply;
    assert Earned(w, m, t, 0) && Earned(w, m, t, 1) && Earned(w, m, t, 2);
    if flow != [] {
      assert |t| == 4 && t[3] == flow[0];
      assert Earned(w, m, t, 3);
    }
  }

  lemma ConnectShape(w: World, m: Message, s: bytes, credit: nat)
    requires m.code == CONNECT && w.allow(m, RawAddr(w, m), DestAddr(w, m)) && Resolves(w, m)
    ensures AllEarned(w, m, [Judged(true)] + Connect(w, DestAddr(w, m), s, credit))
  {
    var dest := DestAddr(w, m);
    match w.dial(dest)
    case Failed(message) =>
      var probe, reply := Dialled(dest, false), Refusal(DialCode(message), credit);
      ReplyCode(DialCode(message), OtherAddr, credit);
      OutcomeShape(w, m, probe, reply, []);
      assert [probe, reply] + [] == [probe, reply];
    case Connected(local) =>
      ReplyCode(SUCCESS, local, credit);
      OutcomeShape(w, m, Dialled(dest, true), Reply(SUCCESS, local, credit), if credit > 0 then [Proxying(s)] else []);
  }

  lemma AssociateShape(w: World, m: Message, credit: nat)
    requires m.code == ASSOCIATE && w.allow(m, RawAddr(w, m), DestAddr(w, m)) && Resolves(w, m)
    ensures AllEarned(w, m, [Judged(true)] + Associate(w, credit))
  {
    match w.listen
    case None =>
      var probe, reply := Listened(false), Refusal(SERVER_FAILURE, credit);
      ReplyCode(SERVER_FAILURE, OtherAddr, credit);
      OutcomeShape(w, m, probe, reply, []);
      assert [probe, reply] + [] == [probe, reply];
    case Some(port) =>
      var local := Udp(w.localIP, port);
      ReplyCode(SUCCESS, local, credit);
      OutcomeShape(w, m, Listened(true), Reply(SUCCESS, local, credit), if credit > 0 then [Relaying] else []);
  }

  lemma RefusalShape(w: World, m: Message, e: Event, rep: byte, credit: nat)
    requires e.Resolved? || (e.Judged? && e.allowed == w.allow(m, RawAddr(w, m), DestAddr(w, m)))
    requires rep != SUCCESS && Explains(w, e, rep)
    ensures AllEarned(w, m, [e, Refusal(rep, credit)])
  {
    ReplyCode(rep, OtherAddr, credit);
  }

  lemma DecideShape(w: World, m: Message, s: bytes, credit: nat)
    requires Resolves(w, m)
    ensures AllEarned(w, m, Decide(w, m, s, credit))
  {
    if !w.allow(m, RawAddr(w, m), DestAddr(w, m)) {
      RefusalShape(w, m, Judged(false), RULE_FAILURE, credit);
    } else if m.code == CONNECT {
      ConnectShape(w, m, s, credit);
    } else if m.code == ASSOCIATE {
      AssociateShape(w, m, credit);
    } else {
      RefusalShape(w, m, Judged(true), COMMAND_NOT_SUPPORTED, credit);
      assert [Judged(true)] + [Refusal(COMMAND_NOT_SUPPORTED, credit)]
          == [Judged(true), Refusal(COMMAND_NOT_SUPPORTED, credit)];
    }
  }

  lemma EarnedAfter(w: World, m: Message, e: Event, t: seq<Event>)
    requires AllEarned(w, m, t) && t != [] && t[0].Judged?
    requires e.Resolved?
    ensures AllEarned(w, m, [e] + t)
  {
    var u := [e] + t;
    forall i | 0 <= i < |u| ensures Earned(w, m, u, i) {
      if i > 0 {
        assert Earned(w, m, t, i - 1);
        assert u[i] == t[i - 1] && (i > 1 ==> u[i - 1] == t[i - 2]);
        forall j | 0 <= j < i && IsReply(u[j]) ensures u[i].Proxying? || u[i].Relaying? {
          assert u[j] == t[j - 1];
        }
      }
    }
  }

  lemma HandleShape(w: World, m: Message, s: bytes, credit: nat)
    ensures AllEarned(w, m, Handle(w, m, s, credit))
  {
    if m.addr.fqdn == [] {
      DecideShape(w, m, s, credit);
    } else {
      if w.resolve(m.addr.fqdn).None? {
        RefusalShape(w, m, Resolved(m.addr.fqdn, false), HOST_UNREACHABLE, credit);
      } else {
        DecideShape(w, m, s, credit);
        EarnedAfter(w, m, Resolved(m.addr.fqdn, true), Decide(w, m, s, credit));
      }
    }
  }

  /** The part after admission: nothing, a refused address type, or a request and what it earns. */
  predicate RequestShape(w: World, t: seq<Event>) {
    || t == []
    || (|t| == 1 && IsReply(t[0]) && t[0].b == Print(ReplyFor(ADDR_TYPE_NOT_SUPPORTED, OtherAddr)))
    || (t[0].Requested? && AllEarned(w, t[0].m, t[1..]))
  }

  lemma RequestIsShaped(w: World, s: bytes, credit: nat)
    ensures RequestShape(w, ServeRequest(w, s, credit))
  {
    match MessageIn(s)
    case Err(e) =>
      ReplyCode(ADDR_TYPE_NOT_SUPPORTED, OtherAddr, credit);
    case Ok(p) =>
      HandleShape(w, p.value, p.rest, credit);
      ReplyCode(COMMAND_NOT_SUPPORTED, OtherAddr, credit);
      var t := Respond(w, p.value, p.rest, credit);
      assert ([Requested(p.value)] + t)[1..] == t;
  }

  /** A run splits into negotiation, at most one request, and what the request leads to. */
  lemma RunShape(w: World, s: bytes, credit: nat) returns (p: nat)
    ensures var t := Serve(w, s, credit);
            && p <= |t|
            && (forall i :: 0 <= i < p ==> (Writes(t[i]) && |t[i].b| == 2) || t[i].Authenticated?)
            && (forall i :: 0 <= i < p && t[i].WriteFailed? ==> i == p - 1)
            && (p < |t| ==> p > 0 && t[p - 1].Authenticated?)
            && RequestShape(w, t[p..])
  {
    p := 0;
    if MethodsIn(s).Ok? && MethodsIn(s).value.value.ver == VERSION5 {
      var greeting := MethodsIn(s).value;
      AdmissionShape(w, greeting.value.methods, greeting.rest, credit);
      var a := Negotiate(w, greeting.value.methods, greeting.rest, credit);
      p := |a.events|;
      RequestIsShaped(w, a.rest, a.credit);
      assert Serve(w, s, credit)[p..] == if a.admitted then ServeRequest(w, a.rest, a.credit) else [];
    }
  }

  /** Where in a run a dial, a listen, a reply or a data flow can stand. */
  lemma AfterRequest(w: World, s: bytes, credit: nat, i: nat) returns (p: nat)
    requires i < |Serve(w, s, credit)|
    requires var e := Serve(w, s, credit)[i]; !e.Authenticated? && (Writes(e) ==> |e.b| != 2) && !e.Requested?
    ensures var t := Serve(w, s, credit);
            && 0 < p <= i && t[p - 1].Authenticated?
            && (if p == i
                then |t| == i + 1 && IsReply(t[i]) && t[i].b == Print(ReplyFor(ADDR_TYPE_NOT_SUPPORTED, OtherAddr))
                else t[p].Requested? && AllEarned(w, t[p].m, t[p + 1..]))
  {
    var t := Serve(w, s, credit);
    p := RunShape(w, s, credit);
    assert t[p..][i - p] == t[i] && t[p..][0] == t[p];
    assert t[p..][1..] == t[p + 1..];
  }

  /** Nothing is dialled or listened on before the client is authenticated and has asked for
      that very command, and the rules allow the destination it leads to, which is the one
      dialled. */
  lemma DialNeedsPermission(w: World, s: bytes, credit: nat, i: nat)
    requires i < |Serve(w, s, credit)|
    requires Serve(w, s, credit)[i].Dialled? || Serve(w, s, credit)[i].Listened?
    ensures var t := Serve(w, s, credit);
            exists j, k :: 0 <= j < k < i - 1 && t[j].Authenticated? && t[k].Requested?
              && t[k].m.code == (if t[i].Dialled? then CONNECT else ASSOCIATE)
              && t[i - 1] == Judged(true) && w.allow(t[k].m, RawAddr(w, t[k].m), DestAddr(w, t[k].m))
              && (t[i].Dialled? ==> t[i].addr == DestAddr(w, t[k].m))
  {
    var t := Serve(w, s, credit);
    var p := AfterRequest(w, s, credit, i);
    var u := t[p + 1..];
    assert u[i - p - 1] == t[i] && Earned(w, t[p].m, u, i - p - 1);
    assert u[i - p - 2] == t[i - 1] && Earned(w, t[p].m, u, i - p - 2);
    assert t[p - 1].Authenticated? && t[p].Requested?;
  }

  /** At most one reply is written, never before authentication, and after it only data flows. */
  lemma OneReply(w: World, s: bytes, credit: nat, i: nat)
    requires i < |Serve(w, s, credit)| && IsReply(Serve(w, s, credit)[i])
    ensures var t := Serve(w, s, credit);
            && (exists j :: 0 <= j < i && t[j].Authenticated?)
            && (i + 1 < |t| ==> t[i].Wrote?)
            && (forall k :: i < k < |t| ==> t[k].Proxying? || t[k].Relaying?)
  {
    var t := Serve(w, s, credit);
    var p := AfterRequest(w, s, credit, i);
    assert t[p - 1].Authenticated?;
    if p < i {
      FlowOnlyAfter(w, t[p].m, t, p + 1, i);
    }
  }

  /** A write that fails is the last thing that happens. */
  lemma FailedWriteEndsIt(w: World, s: bytes, credit: nat, i: nat)
    requires i < |Serve(w, s, credit)| && Serve(w, s, credit)[i].WriteFailed?
    ensures i == |Serve(w, s, credit)| - 1
  {
    var t := Serve(w, s, credit);
    var p := RunShape(w, s, credit);
    if p <= i {
      assert t[p..][i - p] == t[i] && t[p..][0] == t[p];
      if t[p].Requested? {
        assert t[p..][1..][i - p - 1] == t[i] && Earned(w, t[p].m, t[p..][1..], i - p - 1);
        OneReply(w, s, credit, i);
      }
    }
  }

  /** A client whose name and password are not accepted is told so by a non-zero status, and that is
      the end. */
  lemma RefusedPasswordIsTold(w: World, s: bytes, credit: nat)
    requires MethodsIn(s).Ok? && MethodsIn(s).value.value.ver == VERSION5 && credit >= 2
    requires Chosen(w.authMethods, MethodsIn(s).value.value.methods) == Some(UserPassAuth)
    requires UserPassIn(MethodsIn(s).value.rest).Ok? && !ProvesPassword(w, MethodsIn(s).value.rest)
    ensures var t := Serve(w, s, credit);
            && |t| == 2 && t[0] == Wrote([VERSION5, USER_PASS])
            && t[1].Wrote? && |t[1].b| == 2 && t[1].b[0] == USER_PASS_VERSION && t[1].b[1] != 0
  {
  }

  lemma FlowOnlyAfter(w: World, m: Message, t: seq<Event>, p: nat, i: nat)
    requires p <= i < |t| && AllEarned(w, m, t[p..]) && IsReply(t[i])
    ensures i + 1 < |t| ==> t[i].Wrote?
    ensures forall k :: i < k < |t| ==> t[k].Proxying? || t[k].Relaying?
  {
    var u := t[p..];
    if i + 1 < |t| {
      assert u[i + 1 - p] == t[i + 1] && u[i - p] == t[i];
      FlowFollowsReply(w, m, u, i - p, i + 1 - p);
    }
    forall k | i < k < |t| ensures t[k].Proxying? || t[k].Relaying? {
      assert u[k - p] == t[k] && u[i - p] == t[i];
      FlowFollowsReply(w, m, u, i - p, k - p);
    }
  }

  lemma FlowFollowsReply(w: World, m: Message, u: seq<Event>, i: nat, k: nat)
    requires AllEarned(w, m, u) && i < k < |u| && IsReply(u[i])
    ensures u[i].Wrote? && (u[k].Proxying? || u[k].Relaying?)
  {
    assert Earned(w, m, u, k) && Earned(w, m, u, i + 1);
  }

  /** A success reply follows at once a successful dial for CONNECT, a successful listen else. */
  lemma SuccessIsEarned(w: World, s: bytes, credit: nat, i: nat)
    requires i < |Serve(w, s, credit)| && IsReply(Serve(w, s, credit)[i])
    requires Serve(w, s, credit)[i].b[1] == SUCCESS
    ensures var t := Serve(w, s, credit);
            exists k :: 0 <= k < i - 1 && t[k].Requested?
              && (if t[k].m.code == CONNECT then t[i - 1].Dialled? && t[i - 1].ok
                  else t[k].m.code == ASSOCIATE && t[i - 1] == Listened(true))
  {
    var t := Serve(w, s, credit);
    var p := AfterRequest(w, s, credit, i);
    var u := t[p + 1..];
    assert u[i - p - 1] == t[i] && Earned(w, t[p].m, u, i - p - 1);
    assert u[i - p - 2] == t[i - 1] && Earned(w, t[p].m, u, i - p - 2);
    assert t[p].Requested?;
  }

  /** Every reply carries the code that the event just before it calls for. */
  lemma ReplyIsExplained(w: World, s: bytes, credit: nat, i: nat)
    requires i < |Serve(w, s, credit)| && IsReply(Serve(w, s, credit)[i])
    ensures i > 0 && Explains(w, Serve(w, s, credit)[i - 1], Serve(w, s, credit)[i].b[1])
  {
    var t := Serve(w, s, credit);
    var p := AfterRequest(w, s, credit, i);
    if p < i {
      var u := t[p + 1..];
      assert u[i - p - 1] == t[i] && Earned(w, t[p].m, u, i - p - 1);
      assert i > p + 1 ==> u[i - p - 2] == t[i - 1];
      assert t[p] == Requested(t[p].m);
    }
  }

  /** A client that parses a success reply reads the address and port of the socket that was just
      opened for it: the local end of the dialled connection for CONNECT, the port the relay
      listens on for ASSOCIATE. A refusal tells it no address. */
  lemma ReplyNamesTheSocket(w: World, s: bytes, credit: nat, i: nat)
    requires i < |Serve(w, s, credit)| && IsReply(Serve(w, s, credit)[i])
    ensures var t := Serve(w, s, credit);
            && i > 0
            && (t[i].b[1] != SUCCESS ==> Blank(t[i].b))
            && (t[i].b[1] == SUCCESS && t[i - 1].Dialled? ==>
                  && w.dial(t[i - 1].addr).Connected? && !w.dial(t[i - 1].addr).local.OtherAddr?
                  && var local := w.dial(t[i - 1].addr).local;
                     Real(local.ip, local.port) ==> Tells(t[i].b, local.ip, local.port))
            && (t[i].b[1] == SUCCESS && !t[i - 1].Dialled? ==>
                  && t[i - 1] == Listened(true) && w.listen.Some?
                  && (Real(w.localIP, w.listen.value) ==> Tells(t[i].b, w.localIP, w.listen.value)))
  {
    var t := Serve(w, s, credit);
    ReplySays(w, s, credit, i);
    ReplyIsExplained(w, s, credit, i);
    ReplyTells(t[i].b[1], Opened(w, t[i - 1]));
    ReplyCode(t[i].b[1], Opened(w, t[i - 1]), 1);
    if t[i].b[1] == SUCCESS {
      SuccessIsEarned(w, s, credit, i);
    }
  }

  lemma ReplySays(w: World, s: bytes, credit: nat, i: nat)
    requires i < |Serve(w, s, credit)| && IsReply(Serve(w, s, credit)[i])
    ensures i > 0 && Says(w, Serve(w, s, credit)[i - 1], Serve(w, s, credit)[i].b)
  {
    var t := Serve(w, s, credit);
    var p := AfterRequest(w, s, credit, i);
    ReplyCode(ADDR_TYPE_NOT_SUPPORTED, OtherAddr, 1);
    if p < i {
      var u := t[p + 1..];
      assert u[i - p - 1] == t[i] && Earned(w, t[p].m, u, i - p - 1);
      assert i > p + 1 ==> u[i - p - 2] == t[i - 1];
      assert t[p] == Requested(t[p].m);
    }
  }

  /** What is dialled is what was asked for: the port and name of the request, with the address of
      the request or, for a name, the one it resolves to, unless a rewriter says otherwise; and
      the rules have seen both. */
  lemma DialGoesWhereAsked(w: World, s: bytes, credit: nat, i: nat) returns (k: nat, raw: AddrSpec)
    requires i < |Serve(w, s, credit)| && Serve(w, s, credit)[i].Dialled?
    ensures var t := Serve(w, s, credit);
            && k < i && t[k].Requested?
            && raw.fqdn == t[k].m.addr.fqdn && raw.port == t[k].m.addr.port && raw.atyp == t[k].m.addr.atyp
            && (if raw.fqdn == [] then raw.ip == t[k].m.addr.ip else w.resolve(raw.fqdn) == Some(raw.ip))
            && t[i].addr == (if w.rewrite.Some? then w.rewrite.value(t[k].m, raw) else raw)
            && w.allow(t[k].m, raw, t[i].addr)
  {
    var t := Serve(w, s, credit);
    var p := AfterRequest(w, s, credit, i);
    var u := t[p + 1..];
    assert u[i - p - 1] == t[i] && Earned(w, t[p].m, u, i - p - 1);
    assert u[i - p - 2] == t[i - 1] && Earned(w, t[p].m, u, i - p - 2);
    k, raw := p, RawAddr(w, t[p].m);
  }

  /** Admission is earned: the bytes the client sent hold an offer of a configured method and,
      for passwords, a pair the credentials accept. */
  lemma AdmissionIsEarned(w: World, s: bytes, credit: nat, i: nat)
    requires i < |Serve(w, s, credit)| && Serve(w, s, credit)[i].Authenticated?
    ensures var c := Serve(w, s, credit)[i].code;
            && MethodsIn(s).Ok?
            && var greeting := MethodsIn(s).value;
            && greeting.value.ver == VERSION5 && c in greeting.value.methods && Configured(w, c)
            && (c == NO_AUTH || ProvesPassword(w, greeting.rest))
  {
    var p := MethodsIn(s).value;
    ChosenIsOffered(w.authMethods, p.value.methods);
    var a := Negotiate(w, p.value.methods, p.rest, credit);
    if i >= |a.events| {
      NotAdmittedTwice(w, a.rest, a.credit, i - |a.events|);
    }
    var chosen := Chosen(w.authMethods, p.value.methods).value;
    AdmitProof(w, chosen, p.rest, credit, i);
    assert chosen in w.authMethods && Configured(w, Code(chosen));
  }

  predicate Configured(w: World, code: byte) {
    exists a :: a in w.authMethods && Code(a) == code
  }

  /** The bytes begin with a user name and password the credentials accept. */
  predicate ProvesPassword(w: World, s: bytes) {
    UserPassIn(s).Ok? && w.valid(UserPassIn(s).value.value.user, UserPassIn(s).value.value.pass)
  }

  lemma AdmitProof(w: World, a: Authenticator, s: bytes, credit: nat, i: nat)
    requires i < |Admit(w, a, s, credit).events| && Admit(w, a, s, credit).events[i].Authenticated?
    ensures Admit(w, a, s, credit).events[i].code == Code(a)
    ensures a.NoAuth? || ProvesPassword(w, s)
  {
  }

  lemma NotAdmittedTwice(w: World, s: bytes, credit: nat, i: nat)
    requires i < |ServeRequest(w, s, credit)|
    ensures !ServeRequest(w, s, credit)[i].Authenticated?
  {
    if MessageIn(s).Ok? {
      var p := MessageIn(s).value;
      RequestIsShaped(w, s, credit);
      var t := ServeRequest(w, s, credit);
      if i > 0 {
        assert t[1..][i - 1] == t[i] && Earned(w, t[0].m, t[1..], i - 1);
      }
    }
  }

  /** A client can read the reply sent to it exactly when the bound address is unknown, or is
      a real IP address with a 16-bit port. */
  lemma ReplyIsReadable(rep: byte, bind: NetAddr, rest: bytes)
    ensures var m := ReplyFor(rep, bind);
            MessageIn(Print(m) + rest) == Ok(Parsed(m.(addr := Canonical(m.addr)), rest))
            <==> rep != SUCCESS || bind.OtherAddr?
                 || ((|bind.ip| == 4 || |bind.ip| == 16) && 0 <= bind.port < 0x1_0000)
  {
    MessageRoundTrip(ReplyFor(rep, bind), rest);
    assert ZERO_IP[..12] == MAPPED;
  }

  /** What a client sends to be admitted by an authenticator, and what happens then. */
  function Proof(a: Authenticator, up: UserPass): bytes {
    if a.NoAuth? then [] else PrintUserPass(up)
  }

  function Welcomed(a: Authenticator): seq<Event> {
    if a.NoAuth? then [Wrote([VERSION5, NO_AUTH]), Authenticated(NO_AUTH)]
    else [Wrote([VERSION5, USER_PASS]), Wrote([USER_PASS_VERSION, 0]), Authenticated(USER_PASS)]
  }

  /** End to end: a client that offers a configured method, proves a password the credentials
      accept where one is asked for, and asks to connect where its name resolves, the rules
      allow it and the dial succeeds, is served. The reply is the one for the local address of
      the dialled connection and no byte after the request is lost. */
  lemma ClientIsServed(w: World, mr: MethodRequest, up: UserPass, m: Message, payload: bytes, credit: nat)
    requires mr.ver == VERSION5 && mr.count == |mr.methods|
    requires Chosen(w.authMethods, mr.methods).Some?
    requires up.ver == USER_PASS_VERSION && up.ulen == |up.user| && up.plen == |up.pass|
    requires w.valid(up.user, up.pass)
    requires WellFormed(m) && m.code == CONNECT
    requires Granted(w, m.(addr := Canonical(m.addr))) && credit >= 3
    ensures var a, req := Chosen(w.authMethods, mr.methods).value, m.(addr := Canonical(m.addr));
            Serve(w, PrintMethods(mr) + (Proof(a, up) + (Print(m) + payload)), credit) ==
              Welcomed(a) + ([Requested(req)] + Outcome(w, req, payload))
  {
    var a := Chosen(w.authMethods, mr.methods).value;
    var afterAuth := Print(m) + payload;
    var afterGreeting := Proof(a, up) + afterAuth;
    MethodsRoundTrip(mr, afterGreeting);
    ProofIsAdmitted(w, a, up, afterAuth, credit);
    RequestIsServed(w, m, payload, if a.NoAuth? then credit - 1 else credit - 2);
  }

  /** The name resolves, the rules allow the destination and dialling it succeeds. */
  predicate Granted(w: World, m: Message) {
    && (m.addr.fqdn != [] ==> w.resolve(m.addr.fqdn).Some?)
    && w.allow(m, RawAddr(w, m), DestAddr(w, m))
    && w.dial(DestAddr(w, m)).Connected?
  }

  /** What a granted request leads to. */
  function Outcome(w: World, m: Message, payload: bytes): seq<Event>
    requires Granted(w, m)
  {
    (if m.addr.fqdn != [] then [Resolved(m.addr.fqdn, true)] else []) +
    [Judged(true), Dialled(DestAddr(w, m), true),
     Wrote(Print(ReplyFor(SUCCESS, w.dial(DestAddr(w, m)).local))), Proxying(payload)]
  }

  lemma ProofIsAdmitted(w: World, a: Authenticator, up: UserPass, rest: bytes, credit: nat)
    requires up.ver == USER_PASS_VERSION && up.ulen == |up.user| && up.plen == |up.pass|
    requires w.valid(up.user, up.pass) && credit >= 2
    ensures Admit(w, a, Proof(a, up) + rest, credit)
         == Admission(Welcomed(a), true, rest, if a.NoAuth? then credit - 1 else credit - 2)
  {
    if a.NoAuth? {
      assert Proof(a, up) + rest == rest;
    } else {
      UserPassRoundTrip(up, rest);
    }
  }

  lemma RequestIsServed(w: World, m: Message, payload: bytes, credit: nat)
    requires WellFormed(m) && m.code == CONNECT && Granted(w, m.(addr := Canonical(m.addr))) && credit > 0
    ensures var req := m.(addr := Canonical(m.addr));
            ServeRequest(w, Print(m) + payload, credit) == [Requested(req)] + Outcome(w, req, payload)
  {
    var req := m.(addr := Canonical(m.addr));
    MessageRoundTrip(m, payload);
    ConnectIsServed(w, req, payload, credit);
    assert ServeRequest(w, Print(m) + payload, credit) == [Requested(req)] + Handle(w, req, payload, credit);
  }

  lemma ConnectIsServed(w: World, m: Message, payload: bytes, credit: nat)
    requires m.code == CONNECT && Granted(w, m) && credit > 0
    ensures Handle(w, m, payload, credit) == Outcome(w, m, payload)
  {
  }

  /** The same for ASSOCIATE: an admitted client whose request the rules allow, where the server
      can listen, gets one reply, which names the port listened on, and the relay starts. */
  lemma AssociateIsServed(w: World, mr: MethodRequest, up: UserPass, m: Message, payload: bytes, credit: nat)
    returns (b: bytes)
    requires mr.ver == VERSION5 && mr.count == |mr.methods|
    requires Chosen(w.authMethods, mr.methods).Some?
    requires up.ver == USER_PASS_VERSION && up.ulen == |up.user| && up.plen == |up.pass|
    requires w.valid(up.user, up.pass)
    requires WellFormed(m) && m.code == ASSOCIATE
    requires Listenable(w, m.(addr := Canonical(m.addr))) && credit >= 3
    ensures var a, req := Chosen(w.authMethods, mr.methods).value, m.(addr := Canonical(m.addr));
            Serve(w, PrintMethods(mr) + (Proof(a, up) + (Print(m) + payload)), credit) ==
              Welcomed(a) + ([Requested(req)] + Relayed(req, b))
    ensures Real(w.localIP, w.listen.value) ==> Tells(b, w.localIP, w.listen.value)
  {
    var a := Chosen(w.authMethods, mr.methods).value;
    var afterAuth := Print(m) + payload;
    MethodsRoundTrip(mr, Proof(a, up) + afterAuth);
    ProofIsAdmitted(w, a, up, afterAuth, credit);
    b := AssociateRequestIsServed(w, m, payload, if a.NoAuth? then credit - 1 else credit - 2);
  }

  /** The name resolves, the rules allow the destination and the server can listen. */
  predicate Listenable(w: World, m: Message) {
    Resolves(w, m) && w.allow(m, RawAddr(w, m), DestAddr(w, m)) && w.listen.Some?
  }

  /** What such a request leads to, with the bytes of its reply. */
  function Relayed(m: Message, b: bytes): seq<Event> {
    (if m.addr.fqdn != [] then [Resolved(m.addr.fqdn, true)] else []) +
    [Judged(true), Listened(true), Wrote(b), Relaying]
  }

  lemma AssociateRequestIsServed(w: World, m: Message, payload: bytes, credit: nat) returns (b: bytes)
    requires WellFormed(m) && m.code == ASSOCIATE && Listenable(w, m.(addr := Canonical(m.addr))) && credit > 0
    ensures var req := m.(addr := Canonical(m.addr));
            ServeRequest(w, Print(m) + payload, credit) == [Requested(req)] + Relayed(req, b)
    ensures Real(w.localIP, w.listen.value) ==> Tells(b, w.localIP, w.listen.value)
  {
    var req := m.(addr := Canonical(m.addr));
    MessageRoundTrip(m, payload);
    b := AssociateEvents(w, req, payload, credit);
    assert ServeRequest(w, Print(m) + payload, credit) == [Requested(req)] + Handle(w, req, payload, credit);
  }

  lemma AssociateEvents(w: World, m: Message, payload: bytes, credit: nat) returns (b: bytes)
    requires m.code == ASSOCIATE && Listenable(w, m) && credit > 0
    ensures Handle(w, m, payload, credit) == Relayed(m, b)
    ensures Real(w.localIP, w.listen.value) ==> Tells(b, w.localIP, w.listen.value)
  {
    b := Print(ReplyFor(SUCCESS, Udp(w.localIP, w.listen.value)));
    ReplyTells(SUCCESS, Udp(w.localIP, w.listen.value));
  }

  // ---- The server as the program runs it ----

  /** A client connection: the buffered reader over it, what happened, and how many writes it
      still takes. */
  class Connection {
    const reader: Reader
    var events: seq<Event>
    var credit: nat

    constructor (reader: Reader, credit: nat)
      ensures this.reader == reader && events == [] && this.credit == credit
    {
      this.reader, this.events, this.credit := reader, [], credit;
    }

    method Log(e: Event)
      modifies this`events
      ensures events == old(events) + [e]
    {
      events := events + [e];
    }

    method Send(b: bytes) returns (ok: bool)
      modifies this
      ensures ok <==> old(credit) > 0
      ensures events == old(events) + [Write(b, old(credit))]
      ensures credit == if ok then old(credit) - 1 else 0
    {
      ok := credit > 0;
      Log(Write(b, credit));
      if ok {
        credit := credit - 1;
      }
    }

    method SendReply(rep: byte, bind: NetAddr) returns (ok: bool)
      modifies this
      ensures ok <==> old(credit) > 0
      ensures events == old(events) + [Reply(rep, bind, old(credit))]
      ensures credit == if ok then old(credit) - 1 else 0
    {
      var code, ip, port, atyp := rep, ZERO_IP, 0, ATYP_IPV4;
      if code == SUCCESS {
        if bind.Tcp? || bind.Udp? {
          ip, port := bind.ip, bind.port;
        } else {
          code := ADDR_TYPE_NOT_SUPPORTED;
        }
        if To4(ip) != [] {
          atyp := ATYP_IPV4;
        } else if To16(ip) != [] {
          atyp := ATYP_IPV6;
        }
        assert ZERO_IP[..12] == MAPPED;
      }
      var b := MessageBytes(Message(VERSION5, code, 0, AddrSpec([], ip, port, atyp)));
      ok := Send(b);
    }
  }

  class Server {
    const w: World

    constructor (w: World)
      ensures this.w == w
    {
      this.w := w;
    }

    method Authenticate(conn: Connection, offered: bytes) returns (admitted: bool)
      modifies conn, conn.reader
      ensures var a := Negotiate(w, offered, old(conn.reader.rest), old(conn.credit));
              && admitted == a.admitted
              && conn.events == old(conn.events) + a.events
              && (admitted ==> conn.reader.rest == a.rest && conn.credit == a.credit)
    {
      for i := 0 to |w.authMethods|
        invariant Chosen(w.authMethods, offered) == Chosen(w.authMethods[i..], offered)
        invariant conn.events == old(conn.events) && conn.credit == old(conn.credit)
        invariant conn.reader.rest == old(conn.reader.rest)
      {
        var auth := w.authMethods[i];
        for j := 0 to |offered|
          invariant Code(auth) !in offered[..j]
        {
          if Code(auth) == offered[j] {
            admitted := RunAuthenticator(conn, auth);
            return;
          }
        }
        assert offered[..|offered|] == offered;
      }
      var _ := conn.Send([VERSION5, NONE_ACCEPTABLE]);
      admitted := false;
    }

    method RunAuthenticator(conn: Connection, auth: Authenticator) returns (admitted: bool)
      modifies conn, conn.reader
      ensures var a := Admit(w, auth, old(conn.reader.rest), old(conn.credit));
              && admitted == a.admitted
              && conn.events == old(conn.events) + a.events
              && (admitted ==> conn.reader.rest == a.rest && conn.credit == a.credit)
    {
      var ok := conn.Send([VERSION5, Code(auth)]);
      if !ok { return false; }
      if auth.UserPassAuth? {
        var nup := ParseUserPass(conn.reader);
        if nup.Err? { return false; }
        if !w.valid(nup.value.user, nup.value.pass) {
          ok := conn.Send([USER_PASS_VERSION, 1]);
          return false;
        }
        ok := conn.Send([USER_PASS_VERSION, 0]);
        if !ok { return false; }
      }
      conn.Log(Authenticated(Code(auth)));
      admitted := true;
    }

    method ServeConn(conn: Connection)
      modifies conn, conn.reader
      ensures conn.events == old(conn.events) + Serve(w, old(conn.reader.rest), old(conn.credit))
    {
      var mr := ParseMethods(conn.reader);
      if mr.Err? { return; }
      Greet(conn, mr.value);
    }

    method Greet(conn: Connection, mr: MethodRequest)
      modifies conn, conn.reader
      ensures conn.events == old(conn.events) + Welcome(w, mr, old(conn.reader.rest), old(conn.credit))
    {
      if mr.ver != VERSION5 { return; }
      ghost var a := Negotiate(w, mr.methods, conn.reader.rest, conn.credit);
      var admitted := Authenticate(conn, mr.methods);
      if !admitted { return; }
      Continue(conn);
      Associative(old(conn.events), a.events, ServeRequest(w, a.rest, a.credit));
    }

    method Continue(conn: Connection)
      modifies conn, conn.reader
      ensures conn.events == old(conn.events) + ServeRequest(w, old(conn.reader.rest), old(conn.credit))
    {
      var req := ParseMessage(conn.reader);
      if req.Err? {
        if req.error == BadAddrType {
          var ok := conn.SendReply(ADDR_TYPE_NOT_SUPPORTED, OtherAddr);
        }
        return;
      }
      conn.Log(Requested(req.value));
      Answer(conn, req.value);
      Associative(old(conn.events), [Requested(req.value)],
                  Respond(w, req.value, conn.reader.rest, old(conn.credit)));
    }

    method Answer(conn: Connection, m: Message)
      modifies conn
      ensures conn.events == old(conn.events) + Respond(w, m, conn.reader.rest, old(conn.credit))
    {
      if m.code != CONNECT && m.code != BIND && m.code != ASSOCIATE {
        var ok := conn.SendReply(COMMAND_NOT_SUPPORTED, OtherAddr);
        return;
      }
      HandleRequest(conn, m);
    }

    method HandleRequest(conn: Connection, m: Message)
      modifies conn
      ensures conn.events == old(conn.events) + Handle(w, m, conn.reader.rest, old(conn.credit))
    {
      var dest := m.addr;
      if dest.fqdn != [] {
        var ip := w.resolve(dest.fqdn);
        conn.Log(Resolved(dest.fqdn, ip.Some?));
        if ip.None? {
          var ok := conn.SendReply(HOST_UNREACHABLE, OtherAddr);
          return;
        }
        dest := dest.(ip := ip.value);
      }
      DecideAndPerform(conn, m, dest);
    }

    method DecideAndPerform(conn: Connection, m: Message, raw: AddrSpec)
      requires raw == RawAddr(w, m)
      modifies conn
      ensures conn.events == old(conn.events) + Decide(w, m, conn.reader.rest, old(conn.credit))
    {
      var dest := raw;
      if w.rewrite.Some? {
        dest := w.rewrite.value(m, raw);
      }
      var allowed := w.allow(m, raw, dest);
      conn.Log(Judged(allowed));
      if !allowed {
        var ok := conn.SendReply(RULE_FAILURE, OtherAddr);
        return;
      }
      if m.code == CONNECT {
        HandleConnect(conn, dest);
      } else if m.code == ASSOCIATE {
        HandleAssociate(conn);
      } else {
        var ok := conn.SendReply(COMMAND_NOT_SUPPORTED, OtherAddr);
      }
    }

    method HandleConnect(conn: Connection, dest: AddrSpec)
      modifies conn
      ensures conn.events == old(conn.events) + Connect(w, dest, conn.reader.rest, old(conn.credit))
    {
      var target := w.dial(dest);
      conn.Log(Dialled(dest, target.Connected?));
      var ok;
      if target.Failed? {
        var resp := HOST_UNREACHABLE;
        if Contains(target.message, "refused") {
          resp := CONNECTION_REFUSED;
        } else if Contains(target.message, "network is unreachable") {
          resp := NETWORK_UNREACHABLE;
        }
        ok := conn.SendReply(resp, OtherAddr);
        return;
      }
      ok := conn.SendReply(SUCCESS, target.local);
      if !ok { return; }
      conn.Log(Proxying(conn.reader.rest));
    }

    method HandleAssociate(conn: Connection)
      modifies conn
      ensures conn.events == old(conn.events) + Associate(w, old(conn.credit))
    {
      conn.Log(Listened(w.listen.Some?));
      var ok;
      if w.listen.None? {
        ok := conn.SendReply(SERVER_FAILURE, OtherAddr);
        return;
      }
      ok := conn.SendReply(SUCCESS, Udp(w.localIP, w.listen.value));
      if !ok { return; }
      conn.Log(Relaying);
    }
  }
}
