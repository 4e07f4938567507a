/** Bytes, text as UTF-8 bytes, and big-endian numbers in base 256. */
module Octets {
  type byte = b: int | 0 <= b < 256

  /** A Rust `str`: its UTF-8 bytes. Every length and order below is that of the bytes. */
  type Text = seq<byte>

  /** XDR contents that a model does not look into. */
  type Opaque = seq<byte>

  type u32 = n: int | 0 <= n < 0x1_0000_0000
  type i32 = n: int | -0x8000_0000 <= n < 0x8000_0000
  type u64 = n: int | 0 <= n < 0x1_0000_0000_0000_0000
  type i64 = n: int | -0x8000_0000_0000_0000 <= n < 0x8000_0000_0000_0000

  const U32_MAX: nat := 0xFFFF_FFFF
  const BASE64: int := 0x1_0000_0000_0000_0000

  /** Byte order of texts, as Rust compares `str`, `String` and `Vec<u8>`. */
  predicate LexLess(a: seq<int>, b: seq<int>) {
    if b == [] then false
    else if a == [] then true
    else a[0] < b[0] || (a[0] == b[0] && LexLess(a[1..], b[1..]))
  }

  lemma {:induction false} LexTotal(a: seq<int>, b: seq<int>)
    ensures !LexLess(a, a)
    ensures LexLess(a, b) || a == b || LexLess(b, a)
    ensures !(LexLess(a, b) && LexLess(b, a))
  {
    if a != [] {
      LexTotal(a[1..], if b == [] then [] else b[1..]);
      assert a == [a[0]] + a[1..];
      if b != [] { assert b == [b[0]] + b[1..]; }
    }
  }

  lemma {:induction false} LexTransitive(a: seq<int>, b: seq<int>, c: seq<int>)
    requires LexLess(a, b) && LexLess(b, c)
    ensures LexLess(a, c)
  {
    if a != [] && a[0] == b[0] == c[0] {
      LexTransitive(a[1..], b[1..], c[1..]);
    }
  }

  predicate TextLess(a: Text, b: Text) { LexLess(a, b) }

  function Pow256(n: nat): (p: int)
    ensures p > 0
  {
    if n == 0 then 1 else 256 * Pow256(n - 1)
  }

  /** The number whose big-endian digits are the bytes: `uN::from_be_bytes`. */
  function BeValue(s: seq<byte>): nat {
    if s == [] then 0 else 256 * BeValue(s[..|s| - 1]) + s[|s| - 1]
  }

  /** The lowest `len` base-256 digits, most significant first. */
  function BeBytes(n: nat, len: nat): (s: seq<byte>)
    ensures |s| == len
  {
    if len == 0 then [] else BeBytes(n / 256, len - 1) + [n % 256]
  }

  lemma {:induction false} BeBound(s: seq<byte>)
    ensures BeValue(s) < Pow256(|s|)
  {
    if s != [] { BeBound(s[..|s| - 1]); }
  }

  lemma {:induction false} BeSnoc(s: seq<byte>, x: byte)
    ensures BeValue(s + [x]) == 256 * BeValue(s) + x
  {
    assert (s + [x])[..|s|] == s;
  }

  lemma {:induction false} BeConcat(a: seq<byte>, b: seq<byte>)
    ensures BeValue(a + b) == BeValue(a) * Pow256(|b|) + BeValue(b)
  {
    if b == [] {
      assert a + b == a;
    } else {
      var front, last := b[..|b| - 1], b[|b| - 1];
      assert Pow256(|b|) == 256 * Pow256(|front|);
      hide BeValue, Pow256;
      BeConcat(a, front);
      BeSnoc(a + front, last);
      BeSnoc(front, last);
      assert a + b == (a + front) + [last] && b == front + [last];
      Distribute(BeValue(a), Pow256(|front|), BeValue(front));
    }
  }

  lemma {:induction false} Distribute(x: int, p: int, y: int)
    ensures 256 * (x * p + y) == x * (256 * p) + 256 * y
  {
  }

  lemma {:induction false} BeBytesValue(n: nat, len: nat)
    requires n < Pow256(len)
    ensures BeValue(BeBytes(n, len)) == n
  {
    if len > 0 {
      BeBytesValue(n / 256, len - 1);
      var s := BeBytes(n, len);
      assert s[..|s| - 1] == BeBytes(n / 256, len - 1);
    }
  }

  lemma {:induction false} BeValueBytes(s: seq<byte>)
    ensures BeBytes(BeValue(s), |s|) == s
  {
    if s != [] {
      BeValueBytes(s[..|s| - 1]);
      assert s == s[..|s| - 1] + [s[|s| - 1]];
    }
  }

  /** `iN::to_be_bytes` and `uN::to_be_bytes`: two's complement for a negative number. */
  function ToBe(n: int, len: nat): (s: seq<byte>)
    requires -Pow256(len) <= n
    ensures |s| == len
  {
    BeBytes(if n < 0 then n + Pow256(len) else n, len)
  }

  /** `iN::from_be_bytes`. */
  function FromBeSigned(s: seq<byte>): int {
    AsSigned(BeValue(s), Pow256(|s|))
  }

  lemma {:induction false} ToBeSigned(n: int, len: nat)
    requires -Pow256(len) <= 2 * n < Pow256(len)
    ensures FromBeSigned(ToBe(n, len)) == n
  {
    BeBytesValue(if n < 0 then n + Pow256(len) else n, len);
  }

  lemma {:induction false} FromSignedToBe(s: seq<byte>)
    ensures -Pow256(|s|) <= 2 * FromBeSigned(s) < Pow256(|s|)
    ensures ToBe(FromBeSigned(s), |s|) == s
  {
    BeBound(s);
    BeValueBytes(s);
    hide Pow256, BeBytes, BeValue;
  }

  /** In a concatenation only the leading part carries the sign. */
  lemma {:induction false} SignedConcat(a: seq<byte>, b: seq<byte>)
    requires a != []
    ensures FromBeSigned(a + b) == FromBeSigned(a) * Pow256(|b|) + BeValue(b)
  {
    BeConcat(a, b);
    BeBound(b);
    PowConcat(|a|, |b|);
    assert Pow256(|a|) == 256 * Pow256(|a| - 1);
    SignedJoin(BeValue(a), BeValue(b), Pow256(|a| - 1), Pow256(|b|), BeValue(a + b), Pow256(|a + b|));
    hide Pow256, BeValue;
  }

  function AsSigned(n: int, modulus: int): int { if 2 * n < modulus then n else n - modulus }

  lemma {:induction false} SignedJoin(u: nat, v: nat, p: int, q: int, n: nat, modulus: int)
    requires v < q && n == u * q + v && modulus == (256 * p) * q
    ensures AsSigned(n, modulus) == AsSigned(u, 256 * p) * q + v
  {
    SignPreserved(u, v, p, q);
  }

  lemma {:induction false} SignPreserved(u: nat, v: nat, p: int, q: int)
    requires v < q
    ensures 2 * u < 256 * p <==> 2 * (u * q + v) < (256 * p) * q
    ensures (u - 256 * p) * q == u * q - (256 * p) * q
  {
    if u < 128 * p {
      MulLe(u + 1, 128 * p, q);
      assert (u + 1) * q == u * q + q;
    } else {
      MulLe(128 * p, u, q);
    }
    assert (256 * p) * q == 2 * ((128 * p) * q);
  }

  lemma {:induction false} PowConcat(a: nat, b: nat)
    ensures Pow256(a + b) == Pow256(a) * Pow256(b)
  {
    if b > 0 {
      PowConcat(a, b - 1);
      assert 256 * (Pow256(a) * Pow256(b - 1)) == Pow256(a) * (256 * Pow256(b - 1));
    }
  }

  lemma {:induction false} MulLe(a: int, b: int, q: nat)
    requires a <= b
    ensures a * q <= b * q
  {
  }

  /** RFC 3629, section 4: whether the bytes are well-formed UTF-8. */
  predicate Utf8(s: Text) {
    if s == [] then true
    else if s[0] < 0x80 then Utf8(s[1..])
    else if 0xC2 <= s[0] < 0xE0 then |s| >= 2 && Tail(s[1]) && Utf8(s[2..])
    else if 0xE0 <= s[0] < 0xF0 then
      && |s| >= 3 && Tail(s[1]) && Tail(s[2])
      && (s[0] == 0xE0 ==> 0xA0 <= s[1])
      && (s[0] == 0xED ==> s[1] < 0xA0)
      && Utf8(s[3..])
    else if 0xF0 <= s[0] < 0xF5 then
      && |s| >= 4 && Tail(s[1]) && Tail(s[2]) && Tail(s[3])
      && (s[0] == 0xF0 ==> 0x90 <= s[1])
      && (s[0] == 0xF4 ==> s[1] < 0x90)
      && Utf8(s[4..])
    else false
  }

  predicate Tail(b: byte) { 0x80 <= b < 0xC0 }

  /** The bytes of an ASCII string. */
  function Spell(s: string): (t: Text)
    requires forall i :: 0 <= i < |s| ==> s[i] < 128 as char
    ensures |t| == |s| && forall i :: 0 <= i < |s| ==> t[i] == s[i] as int
  {
    seq(|s|, i requires 0 <= i < |s| => s[i] as int)
  }

  predicate Ascii(s: Text) { forall i :: 0 <= i < |s| ==> s[i] < 0x80 }

  lemma {:induction false} AsciiIsUtf8(s: Text)
    requires Ascii(s)
    ensures Utf8(s)
  {
    if s != [] { AsciiIsUtf8(s[1..]); }
  }
}
