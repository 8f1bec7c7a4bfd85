/** The messages of the SOCKS5 protocol: printers, parsers and the relayed datagram. */
module SocksCodec {
  import opened Prelude

  const VERSION5: byte := 5
  const USER_PASS_VERSION: byte := 1

  const ATYP_IPV4: byte := 1
  const ATYP_DOMAIN: byte := 3
  const ATYP_IPV6: byte := 4

  datatype ParseError = Short | BadVersion | BadAddrType

  /** A parsed value and the bytes left unread. */
  datatype Parsed<+T> = Parsed(value: T, rest: bytes)

  // ---- Addresses ----

  /** A destination; the IP is absent (empty), 4 bytes or 16 bytes long. */
  datatype AddrSpec = AddrSpec(fqdn: bytes, ip: bytes, port: int, atyp: byte)

  /** What an IPv4 address starts with in its 16-byte form. */
  const MAPPED: bytes := [0, 0, 0, 0, 0, 0, 0, 0, 0, 0, 255, 255]

  function To4(ip: bytes): bytes {
    if |ip| == 4 then ip
    else if |ip| == 16 && ip[..12] == MAPPED then ip[12..]
    else []
  }

  function To16(ip: bytes): bytes {
    if |ip| == 4 then MAPPED + ip
    else if |ip| == 16 then ip
    else []
  }

  predicate KnownType(atyp: byte) {
    atyp == ATYP_IPV4 || atyp == ATYP_DOMAIN || atyp == ATYP_IPV6
  }

  function PortBytes(port: int): bytes {
    [port / 256 % 256, port % 256]
  }

  function PortOf(high: byte, low: byte): (port: nat)
    ensures port < 0x1_0000 && PortBytes(port) == [high, low]
  {
    high * 256 + low
  }

  /** The address part of a message. An unknown type prints the name without its length. */
  function PrintAddr(a: AddrSpec): bytes {
    (if a.atyp == ATYP_IPV4 then To4(a.ip)
     else if a.atyp == ATYP_IPV6 then To16(a.ip)
     else if a.atyp == ATYP_DOMAIN then [|a.fqdn| % 256] + a.fqdn
     else a.fqdn)
    + PortBytes(a.port)
  }

  function AddrIn(atyp: byte, s: bytes): Result<Parsed<AddrSpec>, ParseError> {
    if atyp == ATYP_IPV4 then
      if |s| < 6 then Err(Short)
      else Ok(Parsed(AddrSpec([], MAPPED + s[..4], PortOf(s[4], s[5]), atyp), s[6..]))
    else if atyp == ATYP_IPV6 then
      if |s| < 18 then Err(Short)
      else Ok(Parsed(AddrSpec([], s[..16], PortOf(s[16], s[17]), atyp), s[18..]))
    else if atyp == ATYP_DOMAIN then
      if |s| == 0 || |s| - 3 < s[0] then Err(Short)
      else Ok(Parsed(AddrSpec(s[1..s[0] + 1], [], PortOf(s[s[0] + 1], s[s[0] + 2]), atyp), s[s[0] + 3..]))
    else Err(BadAddrType)
  }

  /** The addresses that survive a trip over the wire. */
  predicate WellFormedAddr(a: AddrSpec) {
    && KnownType(a.atyp)
    && 0 <= a.port < 0x1_0000
    && (a.atyp == ATYP_IPV4 ==> To4(a.ip) != [])
    && (a.atyp == ATYP_IPV6 ==> To16(a.ip) != [])
    && (a.atyp == ATYP_DOMAIN ==> |a.fqdn| < 256)
  }

  /** The same destination in the form a parser gives it. */
  function Canonical(a: AddrSpec): AddrSpec {
    if a.atyp == ATYP_IPV4 then a.(fqdn := [], ip := MAPPED + To4(a.ip))
    else if a.atyp == ATYP_IPV6 then a.(fqdn := [], ip := To16(a.ip))
    else a.(ip := [])
  }

  lemma PortRoundTrip(port: int)
    ensures PortOf(port / 256 % 256, port % 256) == port <==> 0 <= port < 0x1_0000
  {
  }

  lemma AddrRoundTrip(a: AddrSpec, rest: bytes)
    requires WellFormedAddr(a)
    ensures AddrIn(a.atyp, PrintAddr(a) + rest) == Ok(Parsed(Canonical(a), rest))
  {
    var s := PrintAddr(a) + rest;
    PortRoundTrip(a.port);
    Splits(PrintAddr(a), rest);
    if a.atyp == ATYP_IPV4 {
      assert s[..4] == To4(a.ip);
    } else if a.atyp == ATYP_IPV6 {
      assert s[..16] == To16(a.ip);
    } else {
      assert s[1..|a.fqdn| + 1] == a.fqdn;
    }
  }

  /** What a reading owes: a printable address of the type asked for, in parsed form, that
      prints to the bytes it came from. */
  predicate Reads(p: Parsed<AddrSpec>, atyp: byte, s: bytes) {
    && WellFormedAddr(p.value) && p.value.atyp == atyp && Canonical(p.value) == p.value
    && PrintAddr(p.value) + p.rest == s
  }

  lemma ParsedIPv4Prints(s: bytes)
    requires |s| >= 6
    ensures Reads(AddrIn(ATYP_IPV4, s).value, ATYP_IPV4, s)
  {
    MappedForm(s[..4]);
    Pieces(s, s[..4], s[4], s[5]);
  }

  lemma ParsedIPv6Prints(s: bytes)
    requires |s| >= 18
    ensures Reads(AddrIn(ATYP_IPV6, s).value, ATYP_IPV6, s)
  {
    Pieces(s, s[..16], s[16], s[17]);
  }

  lemma ParsedNamePrints(s: bytes)
    requires AddrIn(ATYP_DOMAIN, s).Ok?
    ensures Reads(AddrIn(ATYP_DOMAIN, s).value, ATYP_DOMAIN, s)
  {
    var n: nat := s[0];
    assert [s[0]] + s[1..n + 1] == s[..n + 1];
    Pieces(s, s[..n + 1], s[n + 1], s[n + 2]);
  }

  lemma ParsedAddrPrints(atyp: byte, s: bytes)
    requires AddrIn(atyp, s).Ok?
    ensures Reads(AddrIn(atyp, s).value, atyp, s)
  {
    if atyp == ATYP_IPV4 {
      ParsedIPv4Prints(s);
    } else if atyp == ATYP_IPV6 {
      ParsedIPv6Prints(s);
    } else {
      ParsedNamePrints(s);
    }
  }

  lemma Pieces(s: bytes, host: bytes, high: byte, low: byte)
    requires host + [high, low] <= s
    ensures host + PortBytes(PortOf(high, low)) + s[|host| + 2..] == s
  {
    assert s == (host + [high, low]) + s[|host + [high, low]|..];
  }

  lemma MappedForm(ip: bytes)
    requires |ip| == 4
    ensures To4(MAPPED + ip) == ip
  {
    assert (MAPPED + ip)[..12] == MAPPED && (MAPPED + ip)[12..] == ip;
  }

  // ---- Requests and replies, which share one layout ----

  /** A request (code is the command) or a reply (code is the response). */
  datatype Message = Message(ver: byte, code: byte, rsv: byte, addr: AddrSpec)

  function Print(m: Message): bytes {
    [m.ver, m.code, m.rsv, m.addr.atyp] + PrintAddr(m.addr)
  }

  function MessageIn(s: bytes): Result<Parsed<Message>, ParseError> {
    if |s| < 2 then Err(Short)
    else if s[0] != VERSION5 then Err(BadVersion)
    else if |s| < 4 then Err(Short)
    else
      match AddrIn(s[3], s[4..])
      case Ok(p) => Ok(Parsed(Message(s[0], s[1], s[2], p.value), p.rest))
      case Err(e) => Err(e)
  }

  predicate WellFormed(m: Message) {
    m.ver == VERSION5 && WellFormedAddr(m.addr)
  }

  lemma PrintSplits(m: Message, rest: bytes)
    ensures var s := Print(m) + rest;
            && |s| >= 6 && s[..4] == [m.ver, m.code, m.rsv, m.addr.atyp]
            && s[4..] == PrintAddr(m.addr) + rest
  {
  }

  /** A well-formed message byte by byte: version, code, reserved byte, address type, the address
      (a name behind its length), and the port with its high byte first. */
  lemma MessageByByte(m: Message)
    requires WellFormed(m)
    ensures var b := Print(m); var n := |b|;
            && n >= 6 && b[0] == m.ver && b[1] == m.code && b[2] == m.rsv && b[3] == m.addr.atyp
            && b[n - 2] == m.addr.port / 256 && b[n - 1] == m.addr.port % 256
            && (if m.addr.atyp == ATYP_DOMAIN then b[4] == |m.addr.fqdn| && b[5..n - 2] == m.addr.fqdn
                else if m.addr.atyp == ATYP_IPV4 then b[4..n - 2] == To4(m.addr.ip) else b[4..n - 2] == To16(m.addr.ip))
  {
  }

  lemma ParsePrint(m: Message, rest: bytes)
    requires WellFormed(m)
    ensures MessageIn(Print(m) + rest) == Ok(Parsed(m.(addr := Canonical(m.addr)), rest))
  {
    var s := Print(m) + rest;
    PrintSplits(m, rest);
    assert [s[0], s[1], s[2], s[3]] == s[..4];
    AddrRoundTrip(m.addr, rest);
  }

  /** Printing an accepted message gives back exactly the bytes consumed. */
  lemma PrintParse(s: bytes)
    requires MessageIn(s).Ok?
    ensures var p := MessageIn(s).value;
            && WellFormed(p.value) && Canonical(p.value.addr) == p.value.addr
            && Print(p.value) + p.rest == s
  {
    var p := MessageIn(s).value;
    ParsedAddrPrints(s[3], s[4..]);
    assert s == [s[0], s[1], s[2], s[3]] + s[4..];
    assert Print(p.value) + p.rest == [s[0], s[1], s[2], s[3]] + (PrintAddr(p.value.addr) + p.rest);
  }

  lemma CanonicalIsWellFormed(a: AddrSpec)
    requires WellFormedAddr(Canonical(a))
    ensures WellFormedAddr(a)
  {
    if a.atyp == ATYP_IPV4 {
      assert |MAPPED + To4(a.ip)| == 12 + |To4(a.ip)|;
    }
  }

  /** A message survives the wire exactly when it is well formed. */
  lemma MessageRoundTrip(m: Message, rest: bytes)
    ensures MessageIn(Print(m) + rest) == Ok(Parsed(m.(addr := Canonical(m.addr)), rest)) <==> WellFormed(m)
  {
    if WellFormed(m) {
      ParsePrint(m, rest);
    }
    if MessageIn(Print(m) + rest) == Ok(Parsed(m.(addr := Canonical(m.addr)), rest)) {
      PrintParse(Print(m) + rest);
      CanonicalIsWellFormed(m.addr);
    }
  }

  /** Two different well-formed messages never start the same byte stream. */
  lemma NoTwoReadings(m: Message, rest: bytes, n: Message, other: bytes)
    requires WellFormed(m) && WellFormed(n)
    requires Print(m) + rest == Print(n) + other
    ensures Canonical(m.addr) == Canonical(n.addr) && m.code == n.code && m.rsv == n.rsv && rest == other
  {
    ParsePrint(m, rest);
    ParsePrint(n, other);
  }

  // ---- User name and password ----

  datatype UserPass = UserPass(ver: byte, ulen: byte, plen: byte, user: bytes, pass: bytes)

  function NewUserPass(ver: byte, user: bytes, pass: bytes): UserPass {
    UserPass(ver, |user| % 256, |pass| % 256, user, pass)
  }

  function PrintUserPass(u: UserPass): bytes {
    [u.ver, u.ulen] + u.user + [u.plen] + u.pass
  }

  /** A name and password byte by byte: the name behind its length, then the password behind its own. */
  lemma UserPassByByte(u: UserPass)
    requires u.ulen == |u.user| && u.plen == |u.pass|
    ensures var b, n := PrintUserPass(u), |u.user|;
            && |b| == 3 + n + |u.pass| && b[0] == u.ver && b[1] == n && b[2..2 + n] == u.user
            && b[2 + n] == |u.pass| && b[3 + n..] == u.pass
  {
  }

  function UserPassIn(s: bytes): Result<Parsed<UserPass>, ParseError> {
    if |s| < 2 then Err(Short)
    else if s[0] != USER_PASS_VERSION then Err(BadVersion)
    else if |s| - 3 < s[1] then Err(Short)
    else
      var t := s[s[1] + 2..];
      if |t| - 1 < t[0] then Err(Short)
      else Ok(Parsed(UserPass(s[0], s[1], t[0], s[2..s[1] + 2], t[1..t[0] + 1]), t[t[0] + 1..]))
  }

  lemma UserPassPrintParse(s: bytes)
    requires UserPassIn(s).Ok?
    ensures var p := UserPassIn(s).value;
            && p.value.ver == USER_PASS_VERSION && p.value.ulen == |p.value.user| && p.value.plen == |p.value.pass|
            && PrintUserPass(p.value) + p.rest == s
  {
    var p := UserPassIn(s).value;
    var t := s[s[1] + 2..];
    assert t == [t[0]] + t[1..t[0] + 1] + t[t[0] + 1..];
    assert s == [s[0], s[1]] + s[2..s[1] + 2] + t;
    assert PrintUserPass(p.value) + p.rest
        == [s[0], s[1]] + s[2..s[1] + 2] + ([t[0]] + t[1..t[0] + 1] + t[t[0] + 1..]);
  }

  lemma UserPassRoundTrip(u: UserPass, rest: bytes)
    ensures UserPassIn(PrintUserPass(u) + rest) == Ok(Parsed(u, rest))
            <==> u.ver == USER_PASS_VERSION && u.ulen == |u.user| && u.plen == |u.pass|
  {
    var s := PrintUserPass(u) + rest;
    if UserPassIn(s) == Ok(Parsed(u, rest)) {
      UserPassPrintParse(s);
    }
    if u.ver == USER_PASS_VERSION && u.ulen == |u.user| && u.plen == |u.pass| {
      var t := [u.plen] + u.pass + rest;
      assert s == [u.ver, u.ulen] + u.user + t;
      assert s[u.ulen + 2..] == t;
      assert s[2..u.ulen + 2] == u.user;
      assert t[1..u.plen + 1] == u.pass && t[u.plen + 1..] == rest;
    }
  }

  /** The constructor makes a pair that survives the wire exactly for version 1 and strings of
      at most 255 bytes, whose length bytes are not cut off. */
  lemma NewUserPassRoundTrip(ver: byte, user: bytes, pass: bytes, rest: bytes)
    ensures var u := NewUserPass(ver, user, pass);
            UserPassIn(PrintUserPass(u) + rest) == Ok(Parsed(u, rest))
            <==> ver == USER_PASS_VERSION && |user| < 256 && |pass| < 256
  {
    UserPassRoundTrip(NewUserPass(ver, user, pass), rest);
  }

  // ---- Method negotiation ----

  datatype MethodRequest = MethodRequest(ver: byte, count: byte, methods: bytes)

  function PrintMethods(m: MethodRequest): bytes {
    [m.ver, m.count] + m.methods
  }

  /** The version is left for the caller to judge. */
  function MethodsIn(s: bytes): Result<Parsed<MethodRequest>, ParseError> {
    if |s| < 2 || |s| - 2 < s[1] then Err(Short)
    else Ok(Parsed(MethodRequest(s[0], s[1], s[2..s[1] + 2]), s[s[1] + 2..]))
  }

  lemma MethodsRoundTrip(m: MethodRequest, rest: bytes)
    ensures MethodsIn(PrintMethods(m) + rest) == Ok(Parsed(m, rest)) <==> m.count == |m.methods|
  {
    var s := PrintMethods(m) + rest;
    if m.count == |m.methods| {
      assert s[2..m.count + 2] == m.methods && s[m.count + 2..] == rest;
    }
  }

  lemma MethodsPrintParse(s: bytes)
    requires MethodsIn(s).Ok?
    ensures PrintMethods(MethodsIn(s).value.value) + MethodsIn(s).value.rest == s
  {
    assert s == [s[0], s[1]] + s[2..s[1] + 2] + s[s[1] + 2..];
  }

  // ---- Datagrams ----

  datatype Datagram = Datagram(rsv: nat, frag: byte, addr: AddrSpec, data: bytes)

  /** The header in front of relayed data; the source panics on an unknown address type. */
  function Header(d: Datagram): bytes
    requires KnownType(d.addr.atyp)
  {
    [0, d.rsv % 256, d.frag, d.addr.atyp] + PrintAddr(d.addr)
  }

  function DatagramIn(b: bytes): Result<Datagram, ParseError> {
    if |b| < 10 then Err(Short)
    else
      match AddrIn(b[3], b[4..])
      case Err(e) => Err(e)
      case Ok(p) =>
        if b[3] != ATYP_IPV4 && p.rest == [] then Err(Short)
        else Ok(Datagram(0, b[2], p.value, p.rest))
  }

  lemma HeaderSplits(d: Datagram, data: bytes)
    requires KnownType(d.addr.atyp)
    ensures var b := Header(d) + data;
            b[2] == d.frag && b[3] == d.addr.atyp && b[4..] == PrintAddr(d.addr) + data
  {
  }

  /** A relayed datagram parses back to its address and data exactly when the address is well
      formed, ten bytes are there, and data follows an IPv6 address or a name. */
  lemma DatagramRoundTrip(d: Datagram, data: bytes)
    requires KnownType(d.addr.atyp)
    ensures DatagramIn(Header(d) + data) == Ok(Datagram(0, d.frag, Canonical(d.addr), data))
            <==> && WellFormedAddr(d.addr)
                 && |Header(d)| + |data| >= 10
                 && (d.addr.atyp == ATYP_IPV4 || data != [])
  {
    var b := Header(d) + data;
    HeaderSplits(d, data);
    if WellFormedAddr(d.addr) {
      AddrRoundTrip(d.addr, data);
    }
    if DatagramIn(b) == Ok(Datagram(0, d.frag, Canonical(d.addr), data)) {
      ParsedAddrPrints(b[3], b[4..]);
      CanonicalIsWellFormed(d.addr);
    }
  }

  /** A parsed datagram has a printable address in parsed form, and reprints to its bytes. */
  lemma DatagramPrintParse(b: bytes)
    requires DatagramIn(b).Ok?
    ensures var d := DatagramIn(b).value;
            && WellFormedAddr(d.addr) && Canonical(d.addr) == d.addr && d.rsv == 0
            && Header(d) + d.data == [0, 0] + b[2..]
  {
    var d := DatagramIn(b).value;
    ParsedAddrPrints(b[3], b[4..]);
    Associative([0, 0, b[2], b[3]], PrintAddr(d.addr), d.data);
    assert [0, 0] + b[2..] == [0, 0, b[2], b[3]] + b[4..];
  }

  /** What a client gets back: the relay puts the header of the client's own datagram in front
      of an answer. The client reads its destination again, unless the answer is empty. */
  lemma RelayKeepsTheAddress(b: bytes, answer: bytes)
    requires DatagramIn(b).Ok?
    ensures var d := DatagramIn(b).value;
            && KnownType(d.addr.atyp)
            && (DatagramIn(Header(d) + answer) == Ok(d.(data := answer))
                <==> d.addr.atyp == ATYP_IPV4 || (answer != [] && |Header(d)| + |answer| >= 10))
  {
    var d := DatagramIn(b).value;
    DatagramPrintParse(b);
    DatagramRoundTrip(d, answer);
    assert d.addr.atyp == ATYP_IPV4 ==> |Header(d)| == 10;
  }

  /** The relay parses out of a reused read buffer and an IPv6 address stays a view of it:
      this is the address the header printer finds once the buffer holds other bytes. */
  function AddrAfterReuse(d: Datagram, buffer: bytes): AddrSpec
    requires |buffer| >= 20
  {
    if d.addr.atyp == ATYP_IPV6 then d.addr.(ip := buffer[4..20]) else d.addr
  }

  /** A header printed after the buffer was reused is the client's own exactly when the
      address is not IPv6 or the same address was read again. */
  lemma HeaderAfterReuse(b: bytes, buffer: bytes)
    requires DatagramIn(b).Ok? && |buffer| >= 20
    ensures var d := DatagramIn(b).value;
            && KnownType(d.addr.atyp)
            && (Header(d.(addr := AddrAfterReuse(d, buffer))) == Header(d)
                <==> d.addr.atyp != ATYP_IPV6 || buffer[4..20] == d.addr.ip)
  {
    var d := DatagramIn(b).value;
    DatagramPrintParse(b);
    if d.addr.atyp == ATYP_IPV6 {
      var h, g := Header(d), Header(d.(addr := AddrAfterReuse(d, buffer)));
      assert h[4..20] == d.addr.ip;
      assert g[4..20] == buffer[4..20];
    }
  }

  /** The client's datagram for [::1]:53 and what the buffer holds once a datagram for [::2]:53
      was read into it. */
  const FIRST_READ: bytes := [0, 0, 0, 4, 0, 0, 0, 0, 0, 0, 0, 0, 0, 0, 0, 0, 0, 0, 0, 1, 0, 53, 7]
  const SECOND_READ: bytes := [0, 0, 0, 4, 0, 0, 0, 0, 0, 0, 0, 0, 0, 0, 0, 0, 0, 0, 0, 2, 0, 53, 7]

  /** Two datagrams are enough for the answer to the first to name the destination of the second. */
  lemma SecondReadRedirectsTheAnswer()
    ensures DatagramIn(FIRST_READ).Ok? && DatagramIn(SECOND_READ).Ok?
    ensures var d := DatagramIn(FIRST_READ).value;
            && KnownType(d.addr.atyp)
            && Header(d.(addr := AddrAfterReuse(d, SECOND_READ))) != Header(d)
            && AddrAfterReuse(d, SECOND_READ) == DatagramIn(SECOND_READ).value.addr
  {
    var first, second := FIRST_READ[4..20], SECOND_READ[4..20];
    assert first[15] != second[15];
    assert FIRST_READ[4..][..16] == first && SECOND_READ[4..][..16] == second;
    assert FIRST_READ[4..][18..] == [7] && SECOND_READ[4..][18..] == [7];
    HeaderAfterReuse(FIRST_READ, SECOND_READ);
  }

  // ---- The parsers and printers as the program runs them ----

  /** A stream being read. */
  class Reader {
    var rest: bytes

    constructor (input: bytes)
      ensures rest == input
    {
      rest := input;
    }

    /** Reads exactly n bytes, or reports failure with the stream used up. */
    method ReadFull(n: nat) returns (b: Option<bytes>)
      modifies this
      ensures |old(rest)| >= n ==> b == Some(old(rest)[..n]) && rest == old(rest)[n..]
      ensures |old(rest)| < n ==> b == None && rest == []
    {
      if |rest| < n {
        rest := [];
        return None;
      }
      b := Some(rest[..n]);
      rest := rest[n..];
    }
  }

  /** A parser run agrees with the reference reading of the stream. */
  predicate Agrees<T(==)>(res: Result<T, ParseError>, rest: bytes, reading: Result<Parsed<T>, ParseError>) {
    match reading
    case Ok(p) => res == Ok(p.value) && rest == p.rest
    case Err(e) => res == Err(e)
  }

  method ParseMessage(r: Reader) returns (res: Result<Message, ParseError>)
    modifies r
    ensures Agrees(res, r.rest, MessageIn(old(r.rest)))
  {
    ghost var s := r.rest;
    var tmp := r.ReadFull(2);
    if tmp.None? { return Err(Short); }
    var ver, code := tmp.value[0], tmp.value[1];
    if ver != VERSION5 { return Err(BadVersion); }
    tmp := r.ReadFull(2);
    if tmp.None? { return Err(Short); }
    assert r.rest == s[4..];
    var rsv, atyp := tmp.value[0], tmp.value[1];
    var a := ParseAddr(r, atyp);
    res := if a.Ok? then Ok(Message(ver, code, rsv, a.value)) else Err(a.error);
  }

  method ParseAddr(r: Reader, atyp: byte) returns (res: Result<AddrSpec, ParseError>)
    modifies r
    ensures Agrees(res, r.rest, AddrIn(atyp, old(r.rest)))
  {
    ghost var s := r.rest;
    if atyp == ATYP_IPV4 {
      var addr := r.ReadFull(4 + 2);
      if addr.None? { return Err(Short); }
      var b := addr.value;
      assert b[..4] == s[..4];
      res := Ok(AddrSpec([], MAPPED + b[..4], PortOf(b[4], b[5]), atyp));
    } else if atyp == ATYP_IPV6 {
      var addr := r.ReadFull(16 + 2);
      if addr.None? { return Err(Short); }
      var b := addr.value;
      assert b[..16] == s[..16];
      res := Ok(AddrSpec([], b[..16], PortOf(b[16], b[17]), atyp));
    } else if atyp == ATYP_DOMAIN {
      var tmp := r.ReadFull(1);
      if tmp.None? { return Err(Short); }
      var domainLen: nat := tmp.value[0];
      var addr := r.ReadFull(domainLen + 2);
      if addr.None? { return Err(Short); }
      var b := addr.value;
      assert b[..domainLen] == s[1..domainLen + 1] && r.rest == s[domainLen + 3..];
      res := Ok(AddrSpec(b[..domainLen], [], PortOf(b[domainLen], b[domainLen + 1]), atyp));
    } else {
      res := Err(BadAddrType);
    }
  }

  method MessageBytes(m: Message) returns (b: bytes)
    ensures b == Print(m)
  {
    var addr := if m.addr.atyp == ATYP_IPV4 then To4(m.addr.ip)
                else if m.addr.atyp == ATYP_IPV6 then To16(m.addr.ip)
                else m.addr.fqdn;
    b := [m.ver, m.code, m.rsv, m.addr.atyp];
    if m.addr.atyp == ATYP_DOMAIN {
      b := b + [|m.addr.fqdn| % 256];
    }
    b := b + addr;
    b := b + PortBytes(m.addr.port);
  }

  method ParseUserPass(r: Reader) returns (res: Result<UserPass, ParseError>)
    modifies r
    ensures Agrees(res, r.rest, UserPassIn(old(r.rest)))
  {
    ghost var s := r.rest;
    var tmp := r.ReadFull(2);
    if tmp.None? { return Err(Short); }
    var ver, ulen := tmp.value[0], tmp.value[1];
    if ver != USER_PASS_VERSION { return Err(BadVersion); }
    var user := r.ReadFull(ulen);
    if user.None? { return Err(Short); }
    assert user.value == s[2..ulen + 2] && r.rest == s[ulen + 2..];
    tmp := r.ReadFull(1);
    if tmp.None? { return Err(Short); }
    var plen := tmp.value[0];
    var pass := r.ReadFull(plen);
    if pass.None? { return Err(Short); }
    assert pass.value == s[ulen + 2..][1..plen + 1] && r.rest == s[ulen + 2..][plen + 1..];
    res := Ok(UserPass(ver, ulen, plen, user.value, pass.value));
  }

  method ParseMethods(r: Reader) returns (res: Result<MethodRequest, ParseError>)
    modifies r
    ensures Agrees(res, r.rest, MethodsIn(old(r.rest)))
  {
    ghost var s := r.rest;
    var tmp := r.ReadFull(1);
    if tmp.None? { return Err(Short); }
    var ver := tmp.value[0];
    tmp := r.ReadFull(1);
    if tmp.None? { return Err(Short); }
    var count := tmp.value[0];
    assert r.rest == s[2..];
    var methods := r.ReadFull(count);
    if methods.None? { return Err(Short); }
    assert methods.value == s[2..count + 2] && r.rest == s[count + 2..];
    res := Ok(MethodRequest(ver, count, methods.value));
  }

  method ParseDatagram(b: bytes) returns (res: Result<Datagram, ParseError>)
    ensures res == DatagramIn(b)
  {
    if |b| < 4 + 4 + 2 { return Err(Short); }
    var frag, atyp := b[2], b[3];
    var headLen: nat := 4;
    var addr: AddrSpec;
    if atyp == ATYP_IPV4 {
      headLen := headLen + 4 + 2;
      assert b[4..][..4] == b[4..8];
      addr := AddrSpec([], MAPPED + b[4..8], PortOf(b[headLen - 2], b[headLen - 1]), atyp);
    } else if atyp == ATYP_IPV6 {
      headLen := headLen + 16 + 2;
      if |b| <= headLen { return Err(Short); }
      assert b[4..][..16] == b[4..20];
      addr := AddrSpec([], b[4..20], PortOf(b[headLen - 2], b[headLen - 1]), atyp);
    } else if atyp == ATYP_DOMAIN {
      var addrLen: nat := b[4];
      headLen := headLen + 1 + addrLen + 2;
      if |b| <= headLen { return Err(Short); }
      assert b[4..][1..addrLen + 1] == b[5..5 + addrLen];
      addr := AddrSpec(b[5..5 + addrLen], [], PortOf(b[5 + addrLen], b[6 + addrLen]), atyp);
    } else {
      return Err(BadAddrType);
    }
    assert b[4..][headLen - 4..] == b[headLen..];
    res := Ok(Datagram(0, frag, addr, b[headLen..]));
  }
}
