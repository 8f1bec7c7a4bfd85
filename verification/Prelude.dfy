/** Shared vocabulary: optional values, results, bytes and the dynamic values
    that flow through the RPA engine. */
module Prelude {

  datatype Option<+T> = None | Some(value: T)

  datatype Result<+T, +E> = Ok(value: T) | Err(error: E)

  type byte = x: int | 0 <= x < 256

  type bytes = seq<byte>

  function Min(a: int, b: int): int {
    if a < b then a else b
  }

  lemma Associative<T>(a: seq<T>, b: seq<T>, c: seq<T>)
    ensures a + b + c == a + (b + c)
  {
  }

  lemma Splits<T>(a: seq<T>, b: seq<T>)
    ensures (a + b)[..|a|] == a && (a + b)[|a|..] == b
  {
  }

  /** One more element of s appended to a sequence that ends in s[..k]. */
  lemma TakesOneMore<T>(a: seq<T>, s: seq<T>, k: nat)
    requires k < |s|
    ensures s[..k + 1] == s[..k] + [s[k]]
    ensures a + s[..k + 1] == a + s[..k] + [s[k]]
    ensures s[k] == s[k..][0] && s[k + 1..] == s[k..][1..]
  {
  }

  function Concat<T>(parts: seq<seq<T>>): seq<T> {
    if parts == [] then [] else parts[0] + Concat(parts[1..])
  }

  lemma {:induction false} ConcatAppend<T>(a: seq<seq<T>>, b: seq<seq<T>>)
    ensures Concat(a + b) == Concat(a) + Concat(b)
  {
    if a == [] {
      assert a + b == b;
    } else {
      ConcatAppend(a[1..], b);
      assert (a + b)[0] == a[0] && (a + b)[1..] == a[1..] + b;
      Associative(a[0], Concat(a[1..]), Concat(b));
    }
  }

  lemma ConcatSingleton<T>(part: seq<T>)
    ensures Concat([part]) == part
  {
    assert [part][1..] == [];
  }

  // ---- Little-endian integers ----

  function Pow256(k: nat): (p: nat)
    ensures p > 0
  {
    if k == 0 then 1 else 256 * Pow256(k - 1)
  }

  /** The k low-order bytes of n, least significant first. */
  function LE(n: nat, k: nat): (b: bytes)
    ensures |b| == k
  {
    if k == 0 then [] else [n % 256] + LE(n / 256, k - 1)
  }

  function FromLE(b: bytes): nat {
    if b == [] then 0 else b[0] + 256 * FromLE(b[1..])
  }

  lemma {:induction false} LERoundTrip(n: nat, k: nat)
    requires n < Pow256(k)
    ensures FromLE(LE(n, k)) == n
  {
    if k > 0 {
      LERoundTrip(n / 256, k - 1);
      assert LE(n, k)[1..] == LE(n / 256, k - 1);
    }
  }

  lemma LowByte(low: byte, n: nat)
    ensures (low + 256 * n) % 256 == low && (low + 256 * n) / 256 == n
  {
  }

  lemma {:induction false} FromLERoundTrip(b: bytes)
    ensures FromLE(b) < Pow256(|b|)
    ensures LE(FromLE(b), |b|) == b
  {
    if b != [] {
      FromLERoundTrip(b[1..]);
      LowByte(b[0], FromLE(b[1..]));
      assert b == [b[0]] + b[1..];
    }
  }

  /** Byte k is the k-th digit of n to the base 256. */
  lemma {:induction false} LEByByte(n: nat, size: nat, k: nat)
    requires k < size
    ensures LE(n, size)[k] == n / Pow256(k) % 256
  {
    if k > 0 {
      LEByByte(n / 256, size - 1, k - 1);
      DivideTwice(n, Pow256(k - 1));
    }
  }

  lemma DivideTwice(n: nat, d: nat)
    requires d > 0
    ensures n / 256 / d == n / (256 * d)
  {
    var q, r := n / 256 / d, n / 256 % d;
    var m := n / 256;
    assert m == q * d + r;
    assert n == 256 * m + n % 256;
    QuotientIs(n, 256 * d, q, 256 * r + n % 256) by {
      assert 256 * m == 256 * (q * d) + 256 * r;
      assert 256 * (q * d) == q * (256 * d);
    }
  }

  lemma QuotientIs(n: nat, m: nat, q: nat, r: nat)
    requires n == q * m + r && r < m
    ensures n / m == q
  {
    NotSmaller(m, q, r, n / m, n % m);
    NotSmaller(m, n / m, n % m, q, r);
  }

  lemma NotSmaller(m: nat, q: nat, r: nat, k: nat, s: nat)
    requires q * m + r == k * m + s && r < m
    ensures k <= q
  {
    if q < k {
      assert k * m == q * m + (k - q) * m;
      LargeFactor(k - q, m);
    }
  }

  lemma LargeFactor(a: nat, m: nat)
    requires a >= 1
    ensures a * m >= m
  {
  }

  const TWO32: nat := 0x1_0000_0000
  const TWO64: nat := 0x1_0000_0000_0000_0000

  lemma WordSizes()
    ensures Pow256(4) == TWO32
    ensures Pow256(8) == TWO64
  {
    assert Pow256(2) == 0x1_0000;
    assert Pow256(4) == 256 * (256 * Pow256(2));
    assert Pow256(6) == 256 * (256 * Pow256(4));
    assert Pow256(8) == 256 * (256 * Pow256(6));
  }
}

/** The JSON-like values carried by step parameters, outputs and flow variables. */
module Values {

  datatype Value =
    | Nil
    | Bool(b: bool)
    | Int(n: int)
    | Float(r: real)
    | Str(s: string)
    | Obj(fields: map<string, Value>)
    | Arr(items: seq<Value>)

  type Vars = map<string, Value>

  /** A lookup that yields nil for an absent key, as indexing a Go map does. */
  function Lookup(vars: Vars, key: string): Value {
    if key in vars then vars[key] else Nil
  }

  /** Conversion of a float to an integer, which truncates toward zero. */
  function Truncate(r: real): int {
    if r >= 0.0 then r.Floor else -((-r).Floor)
  }
}
