/** Pooled packets: |type|header length|header|content| in a buffer that is reused. */
module PacketCodec {
  import opened Prelude

  const TYPE_TEST_DELAY_REQUEST: byte := 3
  const TYPE_BINARY: byte := 5
  const TYPE_MSGPACK: byte := 6
  const TYPE_JSON: byte := 7
  const TYPE_SECRET_MSGPACK: byte := 12
  const TYPE_TERMINAL: byte := 13

  const DEFAULT_CAPACITY: nat := 64 * 1024

  // ---- The wire form as a function of what was written ----

  predicate Words64(hs: seq<nat>) {
    forall k :: 0 <= k < |hs| ==> hs[k] < TWO64
  }

  /** Eight bytes per header word. */
  function Words(hs: seq<nat>): (b: bytes)
    ensures |b| == 8 * |hs|
  {
    if hs == [] then [] else LE(hs[0], 8) + Words(hs[1..])
  }

  function Encode(typ: byte, hs: seq<nat>, content: bytes): bytes
    requires |hs| <= 31
  {
    [typ, 8 * |hs|] + Words(hs) + content
  }

  function TypeOf(b: bytes): byte {
    if |b| > 0 then b[0] else 0
  }

  function HeaderLen(b: bytes): nat {
    if |b| > 1 then b[1] else 0
  }

  /** The buffer is long enough for the header it announces. */
  predicate HasHeader(b: bytes) {
    2 + HeaderLen(b) <= |b|
  }

  function HeaderRaw(b: bytes): bytes
    requires HasHeader(b)
  {
    if HeaderLen(b) == 0 then [] else b[2..2 + HeaderLen(b)]
  }

  function ContentOf(b: bytes): bytes
    requires HasHeader(b)
  {
    b[2 + HeaderLen(b)..]
  }

  function UnWords(b: bytes): seq<nat> {
    if |b| < 8 then [] else [FromLE(b[..8])] + UnWords(b[8..])
  }

  /** A buffer with the bytes behind its first two replaced. */
  function Spliced(b: bytes, words: bytes): bytes
    requires 2 + |words| <= |b|
  {
    b[..2] + words + b[2 + |words|..]
  }

  /** How many words the header reader takes from a header of a given length. */
  function WordCount(hl: nat): nat {
    if hl <= 2 then 0 else (hl + 5) / 8
  }

  lemma WordRoundTrip(h: nat)
    requires h < TWO64
    ensures FromLE(LE(h, 8)) == h
  {
    WordSizes();
    LERoundTrip(h, 8);
  }

  lemma {:induction false} WordsRoundTrip(hs: seq<nat>)
    requires Words64(hs)
    ensures UnWords(Words(hs)) == hs
  {
    if hs != [] {
      WordRoundTrip(hs[0]);
      WordsRoundTrip(hs[1..]);
      Splits(LE(hs[0], 8), Words(hs[1..]));
      assert hs == [hs[0]] + hs[1..];
    }
  }

  /** On the wire: the type, the header length in bytes, each word with its low byte first, and
      then the content, nothing else. */
  lemma {:induction false} EncodingByByte(typ: byte, hs: seq<nat>, content: bytes, k: nat)
    requires |hs| <= 31 && k < 8 * |hs|
    ensures var b := Encode(typ, hs, content);
            && |b| == 2 + 8 * |hs| + |content| && b[0] == typ && b[1] == 8 * |hs|
            && b[2 + k] == hs[k / 8] / Pow256(k % 8) % 256
            && b[2 + 8 * |hs|..] == content
  {
    WordByByte(hs, k);
    var b := Encode(typ, hs, content);
    assert b[2 + k] == Words(hs)[k];
  }

  lemma {:induction false} WordByByte(hs: seq<nat>, k: nat)
    requires k < 8 * |hs|
    ensures Words(hs)[k] == hs[k / 8] / Pow256(k % 8) % 256
  {
    if k < 8 {
      LEByByte(hs[0], 8, k);
    } else {
      WordByByte(hs[1..], k - 8);
      assert (k - 8) / 8 == k / 8 - 1 && (k - 8) % 8 == k % 8;
    }
  }

  /** Type, header words and content can all be read back from the wire form. */
  lemma EncodeRoundTrip(typ: byte, hs: seq<nat>, content: bytes)
    requires |hs| <= 31 && Words64(hs)
    ensures var b := Encode(typ, hs, content);
            && HasHeader(b) && TypeOf(b) == typ && HeaderLen(b) == 8 * |hs|
            && UnWords(HeaderRaw(b)) == hs && ContentOf(b) == content
  {
    WordsRoundTrip(hs);
    var b := Encode(typ, hs, content);
    assert b[2..2 + 8 * |hs|] == Words(hs);
    assert b[2 + 8 * |hs|..] == content;
  }

  /** Two writes that differ anywhere differ on the wire. */
  lemma EncodeInjective(t1: byte, h1: seq<nat>, c1: bytes, t2: byte, h2: seq<nat>, c2: bytes)
    requires |h1| <= 31 && |h2| <= 31 && Words64(h1) && Words64(h2)
    requires Encode(t1, h1, c1) == Encode(t2, h2, c2)
    ensures t1 == t2 && h1 == h2 && c1 == c2
  {
    EncodeRoundTrip(t1, h1, c1);
    EncodeRoundTrip(t2, h2, c2);
  }

  // ---- What a value serialises to ----

  /** The value handed to a write: its bytes if it is a byte slice, and what the two
      marshallers make of it (nothing if they fail). */
  datatype Payload = Payload(raw: Option<bytes>, json: Option<bytes>, msgpack: Option<bytes>)

  datatype WriteError = BadHeaders | NotBytes | MarshalFailed | Unsupported

  function Serialize(typ: byte, v: Payload, terminal: bool): Result<bytes, WriteError> {
    if typ == TYPE_JSON then (if v.json.Some? then Ok(v.json.value) else Err(MarshalFailed))
    else if typ in {TYPE_TEST_DELAY_REQUEST, TYPE_MSGPACK, TYPE_SECRET_MSGPACK} then
      (if v.msgpack.Some? then Ok(v.msgpack.value) else Err(MarshalFailed))
    else if typ == TYPE_BINARY || (terminal && typ == TYPE_TERMINAL) then
      (if v.raw.Some? then Ok(v.raw.value) else Err(NotBytes))
    else Err(Unsupported)
  }

  // ---- Packets over a reused buffer ----

  class Packet {
    var refCounter: int
    var length: nat          // 32 bits wide
    var buf: array<byte>     // the slice is buf[..blen]; its capacity is buf.Length
    var blen: nat

    constructor ()
      ensures Valid() && fresh(buf) && refCounter == 0 && length == 0 && Buff() == []
    {
      refCounter, length, blen := 0, 0, 0;
      buf := new byte[DEFAULT_CAPACITY](_ => 0);
    }

    ghost predicate Valid()
      reads this
    {
      blen <= buf.Length
    }

    function Buff(): bytes
      reads this, buf
      requires Valid()
    {
      buf[..blen]
    }

    /** Makes the slice `size` bytes long. What lies beyond its old end is whatever the
        buffer held before, or zeros in a grown buffer. */
    method Resize(size: nat)
      requires Valid()
      modifies this`buf, this`blen
      ensures Valid() && blen == size
      ensures buf == old(buf) || fresh(buf)
      ensures var k := Min(old(blen), size); Buff()[..k] == old(Buff())[..k]
    {
      if buf.Length < size {
        var extra: nat :| extra >= 0;
        var grown := new byte[size + extra](i reads this, buf requires Valid() => if 0 <= i < blen then buf[i] else 0);
        buf := grown;
      }
      blen := size;
    }

    /** Copies bytes into the slice at an offset. */
    method CopyAt(at: nat, v: bytes)
      requires Valid() && at + |v| <= blen
      modifies buf
      ensures Valid() && Buff() == old(Buff())[..at] + v + old(Buff())[at + |v|..]
    {
      forall k | 0 <= k < |v| {
        buf[at + k] := v[k];
      }
    }

    method Write(typ: byte, header: nat, v: Payload) returns (r: Result<(), WriteError>)
      requires Valid() && header < TWO64
      modifies this`buf, this`blen, this`length, buf
      ensures Valid() && (buf == old(buf) || fresh(buf))
      ensures match Serialize(typ, v, false)
              case Ok(content) => r == Ok(()) && Buff() == Encode(typ, [header], content) && length == blen % TWO32
              case Err(e) => r == Err(e) && Buff() == old(Buff()) && length == old(length)
    {
      var s := Serialize(typ, v, false);
      if s.Err? {
        return Err(s.error);
      }
      var content := s.value;
      var n := 10 + |content|;
      if buf.Length < n {
        buf := new byte[n](_ => 0);
      }
      blen := n;
      CopyAt(0, [typ, 8]);
      CopyAt(2, LE(header, 8));
      CopyAt(10, content);
      length := n % TWO32;
      r := Ok(());
      assert Words([header]) == LE(header, 8) by {
        assert [header][1..] == [];
      }
      assert Buff() == Encode(typ, [header], content);
    }

    method Write3(typ: byte, headers: seq<nat>, v: Payload) returns (r: Result<(), WriteError>)
      requires Valid() && Words64(headers)
      modifies this`buf, this`blen, this`length, buf
      ensures Valid() && (buf == old(buf) || fresh(buf))
      ensures |headers| == 0 || |headers| > 30 ==> r == Err(BadHeaders)
      ensures 1 <= |headers| <= 30 ==>
                match Serialize(typ, v, true)
                case Ok(content) => r == Ok(()) && Buff() == Encode(typ, headers, content) && length == blen % TWO32
                case Err(e) => r == Err(e)
      ensures r.Err? ==> Buff() == old(Buff()) && length == old(length)
    {
      if |headers| == 0 || |headers| > 30 {
        return Err(BadHeaders);
      }
      var s := Serialize(typ, v, true);
      if s.Err? {
        return Err(s.error);
      }
      var content := s.value;
      var hl := |headers| * 8;
      var n := 2 + hl + |content|;
      Resize(n);
      CopyAt(0, [typ, hl]);
      WriteWords(headers);
      assert Buff()[..2 + hl] == [typ, hl] + Words(headers);
      CopyAt(2 + hl, content);
      length := n % TWO32;
      r := Ok(());
      assert Buff() == Encode(typ, headers, content);
    }

    method WriteWords(headers: seq<nat>)
      requires Valid() && 2 + 8 * |headers| <= blen
      modifies buf
      ensures Valid() && Buff() == Spliced(old(Buff()), Words(headers))
    {
      ghost var before := Buff();
      assert Spliced(before, []) == before;
      for i := 0 to |headers|
        invariant Valid() && blen == |before| && Buff() == Spliced(before, Words(headers[..i]))
      {
        ghost var now := Buff();
        CopyAt(2 + i * 8, LE(headers[i], 8));
        WordsSnoc(headers, i);
        CopyNext(before, now, Words(headers[..i]), LE(headers[i], 8), Buff());
      }
      assert headers[..|headers|] == headers;
    }

    /** Replaces the content behind the header, growing the buffer if needed. A header that
        reaches beyond the slice is completed from the buffer behind it. */
    method WriteContent(v: bytes)
      requires Valid() && 2 + HeaderLen(Buff()) <= buf.Length
      modifies this`buf, this`blen, this`length, buf
      ensures Valid() && (buf == old(buf) || fresh(buf))
      ensures Buff() == old(buf[..2 + HeaderLen(Buff())]) + v && length == blen % TWO32
    {
      var hl := 2 + HeaderLen(Buff());
      var total := hl + |v|;
      ghost var before := buf[..hl];
      if buf.Length < total {
        var tmp := buf[..hl];
        buf := new byte[total](_ => 0);
        blen := total;
        CopyAt(0, tmp);
      } else {
        blen := total;
      }
      assert Buff()[..hl] == before;
      CopyAt(hl, v);
      length := total % TWO32;
      assert Buff() == before + v;
    }

    // ---- Accessors ----

    method ReadType() returns (t: byte)
      requires Valid()
      ensures t == TypeOf(Buff())
    {
      t := if blen > 0 then buf[0] else 0;
    }

    /** The first word of the header, which may reach beyond the slice. */
    method HeaderToUint64() returns (h: nat)
      requires Valid() && 2 + HeaderLen(Buff()) <= buf.Length
      requires HeaderLen(Buff()) == 0 || HeaderLen(Buff()) >= 8
      ensures h == if HeaderLen(Buff()) == 0 then 0 else FromLE(buf[2..10])
    {
      var hl := HeaderLen(Buff());
      if hl == 0 {
        return 0;
      }
      var raw := buf[2..2 + hl];
      assert raw[..8] == buf[2..10];
      h := FromLE(raw[..8]);
    }

    /** Reads whole words while the position is before the header length. The slicing allows
        it to read up to the capacity of the buffer. */
    method UnmarshalHeaderSlice64() returns (hs: seq<nat>)
      requires Valid() && 2 + 8 * WordCount(HeaderLen(Buff())) <= buf.Length
      ensures hs == UnWords(buf[2..2 + 8 * WordCount(HeaderLen(Buff()))])
    {
      hs := [];
      var hl := HeaderLen(Buff());
      ghost var m := WordCount(hl);
      ghost var b := buf[..];
      if hl == 0 {
        return;
      }
      var i := 2;
      ghost var k := 0;
      while i < hl
        invariant i == 2 + 8 * k && k <= m
        invariant hs + UnWords(b[i..2 + 8 * m]) == UnWords(b[2..2 + 8 * m])
        decreases m - k
      {
        UnWordsNext(b, i, 2 + 8 * m);
        assert buf[i..i + 8] == b[i..i + 8];
        Associative(hs, [FromLE(b[i..i + 8])], UnWords(b[i + 8..2 + 8 * m]));
        hs := hs + [FromLE(buf[i..i + 8])];
        i, k := i + 8, k + 1;
      }
      assert b[i..2 + 8 * m] == [] && hs + [] == hs;
      assert b[2..2 + 8 * m] == buf[2..2 + 8 * m];
    }

    /** The bytes from behind the header to the recorded length, wherever the slice ends. */
    method ContentRaw() returns (c: bytes)
      requires Valid() && 2 + HeaderLen(Buff()) <= length <= buf.Length
      ensures c == buf[2 + HeaderLen(Buff())..length]
      ensures length == blen ==> HasHeader(Buff()) && c == ContentOf(Buff())
    {
      c := buf[2 + HeaderLen(Buff())..length];
    }
  }

  lemma UnWordsNext(b: bytes, i: nat, end: nat)
    requires i + 8 <= end <= |b|
    ensures UnWords(b[i..end]) == [FromLE(b[i..i + 8])] + UnWords(b[i + 8..end])
  {
    assert b[i..end][..8] == b[i..i + 8] && b[i..end][8..] == b[i + 8..end];
  }

  lemma {:induction false} WordsAppend(a: seq<nat>, b: seq<nat>)
    ensures Words(a + b) == Words(a) + Words(b)
  {
    if a == [] {
      assert a + b == b;
    } else {
      WordsAppend(a[1..], b);
      assert (a + b)[1..] == a[1..] + b;
      var first := LE(a[0], 8);
      assert first + (Words(a[1..]) + Words(b)) == (first + Words(a[1..])) + Words(b);
    }
  }

  lemma WordsSnoc(hs: seq<nat>, i: nat)
    requires i < |hs|
    ensures Words(hs[..i + 1]) == Words(hs[..i]) + LE(hs[i], 8)
  {
    assert hs[..i + 1] == hs[..i] + [hs[i]];
    WordsAppend(hs[..i], [hs[i]]);
    assert [hs[i]][1..] == [];
  }

  lemma CopyNext(before: bytes, now: bytes, done: bytes, word: bytes, next: bytes)
    requires 2 + |done| + |word| <= |before|
    requires now == Spliced(before, done)
    requires next == now[..2 + |done|] + word + now[2 + |done| + |word|..]
    ensures next == Spliced(before, done + word)
  {
    assert now[..2 + |done|] == before[..2] + done;
    assert now[2 + |done| + |word|..] == before[2 + |done| + |word|..];
  }

  lemma ReplaceContent(typ: byte, hs: seq<nat>, content: bytes, later: bytes)
    requires |hs| <= 31 && Words64(hs)
    ensures var b := Encode(typ, hs, content);
            HasHeader(b) && b[..2 + HeaderLen(b)] + later == Encode(typ, hs, later)
  {
    var b := Encode(typ, hs, content);
    assert b[..2 + 8 * |hs|] == [typ, 8 * |hs|] + Words(hs);
  }

  /** Reads everything back from a packet that holds a complete encoding. */
  method ReadBack(p: Packet, ghost typ: byte, ghost headers: seq<nat>, ghost content: bytes)
    returns (t: byte, hs: seq<nat>, c: bytes)
    requires p.Valid() && Words64(headers) && |headers| <= 31
    requires p.Buff() == Encode(typ, headers, content) && p.length == p.blen
    ensures t == typ && hs == headers && c == content
  {
    EncodeRoundTrip(typ, headers, content);
    assert WordCount(8 * |headers|) == |headers|;
    assert p.buf[2..2 + 8 * |headers|] == p.Buff()[2..2 + 8 * |headers|];
    t := p.ReadType();
    hs := p.UnmarshalHeaderSlice64();
    c := p.ContentRaw();
  }

  method Replace(p: Packet, ghost typ: byte, ghost headers: seq<nat>, ghost content: bytes, later: bytes)
    requires p.Valid() && Words64(headers) && |headers| <= 31
    requires p.Buff() == Encode(typ, headers, content) && |later| + 250 < TWO32
    modifies p, p.buf
    ensures p.Valid() && p.Buff() == Encode(typ, headers, later) && p.length == p.blen
  {
    ReplaceContent(typ, headers, content, later);
    assert p.buf[..2 + 8 * |headers|] == p.Buff()[..2 + 8 * |headers|];
    p.WriteContent(later);
  }

  /** Whatever capacity and stale bytes a packet had, what was written is what is read,
      and a later WriteContent replaces only the content. */
  method WriteThenReplace(p: Packet, typ: byte, headers: seq<nat>, v: Payload, later: bytes)
    returns (r: Result<(), WriteError>, first: (byte, seq<nat>, bytes), second: (byte, seq<nat>, bytes))
    requires p.Valid() && Words64(headers)
    requires forall c :: c in {v.raw, v.json, v.msgpack} && c.Some? ==> |c.value| + 250 < TWO32
    requires |later| + 250 < TWO32
    modifies p, p.buf
    ensures r.Ok? ==> first.0 == typ && first.1 == headers && second == (typ, headers, later)
    ensures r.Ok? && typ == TYPE_JSON ==> v.json == Some(first.2)
    ensures r.Ok? && typ in {TYPE_TEST_DELAY_REQUEST, TYPE_MSGPACK, TYPE_SECRET_MSGPACK} ==> v.msgpack == Some(first.2)
    ensures r.Ok? && typ in {TYPE_BINARY, TYPE_TERMINAL} ==> v.raw == Some(first.2)
    ensures r == Err(BadHeaders) <==> |headers| == 0 || |headers| > 30
    ensures 1 <= |headers| <= 30 ==>
              && (typ == TYPE_JSON ==> r == if v.json.None? then Err(MarshalFailed) else Ok(()))
              && (typ in {TYPE_TEST_DELAY_REQUEST, TYPE_MSGPACK, TYPE_SECRET_MSGPACK} ==>
                    r == if v.msgpack.None? then Err(MarshalFailed) else Ok(()))
              && (typ in {TYPE_BINARY, TYPE_TERMINAL} ==> r == if v.raw.None? then Err(NotBytes) else Ok(()))
              && (r == Err(Unsupported) <==>
                  typ !in {TYPE_JSON, TYPE_TEST_DELAY_REQUEST, TYPE_MSGPACK, TYPE_SECRET_MSGPACK, TYPE_BINARY,
                           TYPE_TERMINAL})
  {
    first, second := (0, [], []), (0, [], []);
    r := p.Write3(typ, headers, v);
    if r.Ok? {
      ghost var content := Serialize(typ, v, true).value;
      var t, hs, c := ReadBack(p, typ, headers, content);
      first := (t, hs, c);
      Replace(p, typ, headers, content, later);
      t, hs, c := ReadBack(p, typ, headers, later);
      second := (t, hs, c);
    }
  }

  /** Reads the one header word and the content back from a packet that holds an encoding. */
  method ReadOneBack(p: Packet, ghost typ: byte, ghost header: nat, ghost content: bytes)
    returns (t: byte, h: nat, c: bytes)
    requires p.Valid() && header < TWO64
    requires p.Buff() == Encode(typ, [header], content) && p.length == p.blen
    ensures t == typ && h == header && c == content
  {
    EncodeRoundTrip(typ, [header], content);
    var raw := HeaderRaw(p.Buff());
    assert raw[..8] == raw == p.buf[2..10] && UnWords(raw)[0] == header;
    t := p.ReadType();
    h := p.HeaderToUint64();
    c := p.ContentRaw();
  }

  /** The same for the write with one header word: whatever was marshalled is read back behind
      its header, and a later WriteContent replaces only the content. */
  method WriteOneThenReplace(p: Packet, typ: byte, header: nat, v: Payload, later: bytes)
    returns (r: Result<(), WriteError>, first: (byte, nat, bytes), second: (byte, nat, bytes))
    requires p.Valid() && header < TWO64
    requires forall c :: c in {v.raw, v.json, v.msgpack} && c.Some? ==> |c.value| + 250 < TWO32
    requires |later| + 250 < TWO32
    modifies p, p.buf
    ensures r.Ok? ==> first.0 == typ && first.1 == header && second == (typ, header, later)
    ensures r.Ok? && typ == TYPE_JSON ==> v.json == Some(first.2)
    ensures r.Ok? && typ in {TYPE_TEST_DELAY_REQUEST, TYPE_MSGPACK, TYPE_SECRET_MSGPACK} ==> v.msgpack == Some(first.2)
    ensures r.Ok? && typ == TYPE_BINARY ==> v.raw == Some(first.2)
    ensures typ == TYPE_JSON ==> r == if v.json.None? then Err(MarshalFailed) else Ok(())
    ensures typ in {TYPE_TEST_DELAY_REQUEST, TYPE_MSGPACK, TYPE_SECRET_MSGPACK} ==>
              r == if v.msgpack.None? then Err(MarshalFailed) else Ok(())
    ensures typ == TYPE_BINARY ==> r == if v.raw.None? then Err(NotBytes) else Ok(())
    ensures r == Err(Unsupported) <==>
            typ !in {TYPE_JSON, TYPE_TEST_DELAY_REQUEST, TYPE_MSGPACK, TYPE_SECRET_MSGPACK, TYPE_BINARY}
  {
    first, second := (0, 0, []), (0, 0, []);
    r := p.Write(typ, header, v);
    if r.Ok? {
      ghost var content := Serialize(typ, v, false).value;
      var t, h, c := ReadOneBack(p, typ, header, content);
      first := (t, h, c);
      Replace(p, typ, [header], content, later);
      t, h, c := ReadOneBack(p, typ, header, later);
      second := (t, h, c);
    }
  }
}
