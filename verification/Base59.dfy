/** The positional codec over a 59-character alphabet (named base62 in the program). */
module Base59 {
  import opened Prelude

  const BASE: nat := 59
  const TWO63: int := 0x8000_0000_0000_0000

  // ---- The alphabet: digits, capitals without I, small letters without l and o ----

  const ALPHABET: string := 
    "0123456789" + "ABCDEFGH" + "JKLMNOPQRSTUVWXYZ" + "abcdefghijk" + "mn" + "pqrstuvwxyz"

  function CharAt(i: nat): char
    requires i < BASE
  {
    if i < 10 then '0' + i as char
    else if i < 18 then 'A' + (i - 10) as char
    else if i < 35 then 'J' + (i - 18) as char
    else if i < 46 then 'a' + (i - 35) as char
    else if i < 48 then 'm' + (i - 46) as char
    else 'p' + (i - 48) as char
  }

  predicate Digit(c: char) {
    '0' <= c <= '9' || 'A' <= c <= 'H' || 'J' <= c <= 'Z' || 'a' <= c <= 'k' || 'm' <= c <= 'n' || 'p' <= c <= 'z'
  }

  function IndexOf(c: char): (i: nat)
    requires Digit(c)
    ensures i < BASE && CharAt(i) == c
  {
    if c <= '9' then (c - '0') as int
    else if c <= 'H' then 10 + (c - 'A') as int
    else if c <= 'Z' then 18 + (c - 'J') as int
    else if c <= 'k' then 35 + (c - 'a') as int
    else if c <= 'n' then 46 + (c - 'm') as int
    else 48 + (c - 'p') as int
  }

  lemma AlphabetIsCharAt()
    ensures |ALPHABET| == BASE
    ensures forall i :: 0 <= i < BASE ==> ALPHABET[i] == CharAt(i)
  {
    var digits, early, capitals := "0123456789", "ABCDEFGH", "JKLMNOPQRSTUVWXYZ";
    var small, mn, late := "abcdefghijk", "mn", "pqrstuvwxyz";
    assert forall i :: 0 <= i < 10 ==> digits[i] == '0' + i as char;
    assert forall i :: 0 <= i < 8 ==> early[i] == 'A' + i as char;
    assert forall i :: 0 <= i < 17 ==> capitals[i] == 'J' + i as char;
    assert forall i :: 0 <= i < 11 ==> small[i] == 'a' + i as char;
    assert forall i :: 0 <= i < 2 ==> mn[i] == 'm' + i as char;
    assert forall i :: 0 <= i < 11 ==> late[i] == 'p' + i as char;
  }

  lemma IndexOfChar(i: nat)
    requires i < BASE
    ensures Digit(CharAt(i)) && IndexOf(CharAt(i)) == i
  {
  }

  predicate Digits(s: string) {
    forall k :: 0 <= k < |s| ==> Digit(s[k])
  }

  // ---- Numbers as strings ----

  /** The number a string of digits stands for. */
  function ValueOf(s: string): nat
    requires Digits(s)
  {
    if s == "" then 0 else ValueOf(s[..|s| - 1]) * BASE + IndexOf(s[|s| - 1])
  }

  /** The digits of a number, without leading zero; none at all for 0. */
  function Encoding(v: nat): string {
    if v == 0 then "" else Encoding(v / BASE) + [CharAt(v % BASE)]
  }

  lemma {:induction false} EncodingIsDigits(v: nat)
    ensures Digits(Encoding(v))
    ensures v > 0 ==> Encoding(v) != "" && Encoding(v)[0] != '0'
  {
    if v > 0 {
      IndexOfChar(v % BASE);
      EncodingIsDigits(v / BASE);
      if v / BASE == 0 {
        assert Encoding(v)[0] == CharAt(v);
      } else {
        assert Encoding(v)[0] == Encoding(v / BASE)[0];
      }
    }
  }

  lemma {:induction false} ValueOfEncoding(v: nat)
    ensures Digits(Encoding(v)) && ValueOf(Encoding(v)) == v
  {
    EncodingIsDigits(v);
    if v > 0 {
      var s := Encoding(v);
      ValueOfEncoding(v / BASE);
      IndexOfChar(v % BASE);
      assert s[..|s| - 1] == Encoding(v / BASE);
    }
  }

  function StripZeros(s: string): string {
    if s != "" && s[0] == '0' then StripZeros(s[1..]) else s
  }

  lemma {:induction false} LeadingZeroAddsNothing(s: string)
    requires Digits(s)
    ensures Digits("0" + s) && ValueOf("0" + s) == ValueOf(s)
  {
    var t := "0" + s;
    if s == "" {
      assert t[..0] == "";
    } else {
      LeadingZeroAddsNothing(s[..|s| - 1]);
      assert t[..|t| - 1] == "0" + s[..|s| - 1];
    }
  }

  lemma {:induction false} EncodingOfValueNoZero(s: string)
    requires Digits(s) && (s != "" ==> s[0] != '0')
    ensures Encoding(ValueOf(s)) == s
  {
    if s != "" {
      var before, last := s[..|s| - 1], s[|s| - 1];
      EncodingOfValueNoZero(before);
      if before == "" {
        assert ValueOf(s) == IndexOf(last) > 0;
      } else {
        assert ValueOf(before) > 0;
      }
      assert ValueOf(s) / BASE == ValueOf(before) && ValueOf(s) % BASE == IndexOf(last);
      assert s == before + [last];
    }
  }

  /** Encoding what a string stands for gives the string without its leading zeros. */
  lemma {:induction false} EncodingOfValue(s: string)
    requires Digits(s)
    ensures Encoding(ValueOf(s)) == StripZeros(s)
  {
    if s != "" && s[0] == '0' {
      EncodingOfValue(s[1..]);
      LeadingZeroAddsNothing(s[1..]);
      assert s == "0" + s[1..];
    } else {
      EncodingOfValueNoZero(s);
    }
  }

  // ---- 64-bit arithmetic ----

  /** The signed 64-bit value congruent to n. */
  function Wrap64(n: int): int {
    var m := n % TWO64;
    if m < TWO63 then m else m - TWO64
  }

  /** What the decoding loop computes in 64 bits. */
  function Decoded(s: string): int
    requires Digits(s)
  {
    if s == "" then 0 else Wrap64(Wrap64(Decoded(s[..|s| - 1]) * BASE) + IndexOf(s[|s| - 1]))
  }

  lemma WrapCongruent(a: int, b: int)
    requires exists k: int :: a == b + k * TWO64
    ensures Wrap64(a) == Wrap64(b)
  {
    var k: int :| a == b + k * TWO64;
    ModShift(b, k);
  }

  lemma ModShift(b: int, k: int)
    ensures (b + k * TWO64) % TWO64 == b % TWO64
  {
  }

  lemma WrapOf(n: int) returns (k: int)
    ensures Wrap64(n) == n + k * TWO64 && -TWO63 <= Wrap64(n) < TWO63
  {
    k := -(n / TWO64);
    if n % TWO64 >= TWO63 {
      k := k - 1;
    }
  }

  /** The 64-bit result is the true value reduced to 64 bits. */
  lemma {:induction false} DecodedIsWrapped(s: string)
    requires Digits(s)
    ensures Decoded(s) == Wrap64(ValueOf(s))
  {
    if s != "" {
      var before, d := s[..|s| - 1], IndexOf(s[|s| - 1]);
      DecodedIsWrapped(before);
      var v := ValueOf(before);
      var k := WrapOf(v);
      var j := WrapOf(Wrap64(v) * BASE);
      assert Wrap64(Wrap64(v) * BASE) + d == (v * BASE + d) + (k * BASE + j) * TWO64;
      WrapCongruent(Wrap64(Wrap64(v) * BASE) + d, v * BASE + d);
    }
  }

  lemma {:induction false} PrefixIsSmaller(s: string, k: nat)
    requires Digits(s) && k <= |s|
    ensures ValueOf(s[..k]) <= ValueOf(s)
  {
    if k < |s| {
      PrefixIsSmaller(s[..|s| - 1], k);
      assert s[..|s| - 1][..k] == s[..k];
    } else {
      assert s[..k] == s;
    }
  }

  // ---- The codec as the program runs it ----

  /** The first character outside the alphabet. */
  ghost predicate FirstBad(s: string, c: char) {
    exists i :: 0 <= i < |s| && s[i] == c && Digits(s[..i]) && !Digit(s[i])
  }

  method Base62Encode(value: int) returns (s: string)
    requires -TWO63 <= value < TWO63
    ensures s == if value > 0 then Encoding(value) else ""
  {
    s := "";
    var v := value;
    while v > 0
      invariant value > 0 ==> v >= 0 && Encoding(v) + s == Encoding(value)
      invariant value <= 0 ==> v == value && s == ""
      decreases v
    {
      assert Encoding(v) + s == Encoding(v / BASE) + ([CharAt(v % BASE)] + s);
      s := [CharAt(v % BASE)] + s;
      v := v / BASE;
    }
  }

  method Base62Decode(str: string) returns (r: Result<int, char>)
    ensures r.Ok? <==> Digits(str)
    ensures Digits(str) ==> r == Ok(Decoded(str))
    ensures r.Err? ==> FirstBad(str, r.error)
  {
    var result := 0;
    for i := 0 to |str|
      invariant Digits(str[..i]) && result == Decoded(str[..i])
    {
      if !Digit(str[i]) {
        return Err(str[i]);
      }
      assert str[..i + 1][..i] == str[..i];
      result := Wrap64(Wrap64(result * BASE) + IndexOf(str[i]));
    }
    assert str[..|str|] == str;
    r := Ok(result);
  }

  lemma WrapSmall(n: nat)
    ensures n < TWO63 <==> Wrap64(n) == n
  {
    if n < TWO63 {
      assert n % TWO64 == n;
    } else {
      var k := WrapOf(n);
    }
  }

  lemma DecodedExactly(s: string)
    requires Digits(s)
    ensures Decoded(s) == ValueOf(s) <==> ValueOf(s) < TWO63
  {
    DecodedIsWrapped(s);
    WrapSmall(ValueOf(s));
  }

  /** Decoding an encoded number gives the number back, and no intermediate result overflows. */
  lemma {:induction false} DecodeEncode(v: nat)
    requires v < TWO63
    ensures Digits(Encoding(v)) && Decoded(Encoding(v)) == v
    ensures forall k :: 0 <= k <= |Encoding(v)| ==>
              Decoded(Encoding(v)[..k]) == ValueOf(Encoding(v)[..k]) < TWO63
  {
    var s := Encoding(v);
    ValueOfEncoding(v);
    DecodedExactly(s);
    forall k | 0 <= k <= |s|
      ensures Decoded(s[..k]) == ValueOf(s[..k]) < TWO63
    {
      PrefixIsSmaller(s, k);
      DecodedExactly(s[..k]);
    }
  }

  /** What encoding a decoded string gives. */
  function Reencoded(s: string): string
    requires Digits(s)
  {
    if Decoded(s) > 0 then Encoding(Decoded(s)) else ""
  }

  lemma {:induction false} ReencodedIsSmall(s: string)
    requires Digits(s) && Reencoded(s) == s
    ensures (s != "" ==> s[0] != '0') && ValueOf(s) < TWO63
  {
    DecodedIsWrapped(s);
    var k := WrapOf(ValueOf(s));
    if Decoded(s) > 0 {
      ValueOfEncoding(Decoded(s));
      EncodingIsDigits(Decoded(s));
    }
  }

  /** Encoding a decoded string gives the string back exactly when the string has no
      leading zero and its value fits a positive 64-bit number. */
  lemma {:induction false} EncodeDecode(s: string)
    requires Digits(s)
    ensures Reencoded(s) == s <==> (s != "" ==> s[0] != '0') && ValueOf(s) < TWO63
  {
    if Reencoded(s) == s {
      ReencodedIsSmall(s);
    }
    if (s != "" ==> s[0] != '0') && ValueOf(s) < TWO63 {
      EncodingOfValueNoZero(s);
      DecodedExactly(s);
    }
  }

  // ---- Byte strings through big numbers ----

  function BigEndian(b: bytes): nat {
    if b == [] then 0 else BigEndian(b[..|b| - 1]) * 256 + b[|b| - 1]
  }

  /** The bytes of a number, without leading zero byte. */
  function BytesOf(n: nat): bytes {
    if n == 0 then [] else BytesOf(n / 256) + [n % 256]
  }

  function StripZeroBytes(b: bytes): bytes {
    if b != [] && b[0] == 0 then StripZeroBytes(b[1..]) else b
  }

  lemma {:induction false} LeadingZeroByte(b: bytes)
    ensures BigEndian([0] + b) == BigEndian(b)
  {
    var c := [0] + b;
    if b == [] {
      assert c[..0] == [];
    } else {
      LeadingZeroByte(b[..|b| - 1]);
      assert c[..|c| - 1] == [0] + b[..|b| - 1];
    }
  }

  lemma {:induction false} BytesOfBigEndianNoZero(b: bytes)
    requires b != [] ==> b[0] != 0
    ensures BytesOf(BigEndian(b)) == b
  {
    if b != [] {
      var before, last := b[..|b| - 1], b[|b| - 1];
      BytesOfBigEndianNoZero(before);
      if before == [] {
        assert BigEndian(b) == last > 0;
      } else {
        assert BigEndian(before) > 0;
      }
      assert BigEndian(b) / 256 == BigEndian(before) && BigEndian(b) % 256 == last;
      assert b == before + [last];
    }
  }

  lemma {:induction false} BytesOfBigEndian(b: bytes)
    ensures BytesOf(BigEndian(b)) == StripZeroBytes(b)
  {
    if b != [] && b[0] == 0 {
      BytesOfBigEndian(b[1..]);
      LeadingZeroByte(b[1..]);
      assert b == [0] + b[1..];
    } else {
      BytesOfBigEndianNoZero(b);
    }
  }

  method Base62EncodeBytes(input: bytes) returns (s: string)
    ensures s == Encoding(BigEndian(input))
  {
    var value: nat := BigEndian(input);
    s := "";
    while value > 0
      invariant Encoding(value) + s == Encoding(BigEndian(input))
      decreases value
    {
      assert Encoding(value) + s == Encoding(value / BASE) + ([CharAt(value % BASE)] + s);
      s := [CharAt(value % BASE)] + s;
      value := value / BASE;
    }
  }

  method Base62DecodeBytes(str: string) returns (r: Result<bytes, char>)
    ensures r.Ok? <==> Digits(str)
    ensures Digits(str) ==> r == Ok(BytesOf(ValueOf(str)))
    ensures r.Err? ==> FirstBad(str, r.error)
  {
    var result := 0;
    for i := 0 to |str|
      invariant Digits(str[..i]) && result == ValueOf(str[..i])
    {
      if !Digit(str[i]) {
        return Err(str[i]);
      }
      assert str[..i + 1][..i] == str[..i];
      result := result * BASE + IndexOf(str[i]);
    }
    assert str[..|str|] == str;
    r := Ok(BytesOf(result));
  }

  /** Bytes survive the round trip except for leading zero bytes, at any length. */
  lemma {:induction false} BytesRoundTrip(b: bytes)
    ensures Digits(Encoding(BigEndian(b)))
    ensures BytesOf(ValueOf(Encoding(BigEndian(b)))) == StripZeroBytes(b)
  {
    ValueOfEncoding(BigEndian(b));
    BytesOfBigEndian(b);
  }
}
