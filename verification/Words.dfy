/** 128- and 256-bit integers as big-endian 64-bit words, split and joined through their bytes. */
module Words {
  import opened Octets

  const U128_MAX: int := 0xFFFF_FFFF_FFFF_FFFF_FFFF_FFFF_FFFF_FFFF
  const I128_MAX: int := 0x7FFF_FFFF_FFFF_FFFF_FFFF_FFFF_FFFF_FFFF
  const I128_MIN: int := -0x8000_0000_0000_0000_0000_0000_0000_0000
  const U256_MAX: int := 0xFFFF_FFFF_FFFF_FFFF_FFFF_FFFF_FFFF_FFFF_FFFF_FFFF_FFFF_FFFF_FFFF_FFFF_FFFF_FFFF
  const I256_MAX: int := 0x7FFF_FFFF_FFFF_FFFF_FFFF_FFFF_FFFF_FFFF_FFFF_FFFF_FFFF_FFFF_FFFF_FFFF_FFFF_FFFF
  const I256_MIN: int := -0x8000_0000_0000_0000_0000_0000_0000_0000_0000_0000_0000_0000_0000_0000_0000_0000

  lemma {:induction false} Powers()
    ensures Pow256(8) == BASE64
    ensures Pow256(16) == U128_MAX + 1 == BASE64 * BASE64
    ensures Pow256(32) == U256_MAX + 1
    ensures -Pow256(16) == 2 * I128_MIN && Pow256(16) == 2 * (I128_MAX + 1)
    ensures -Pow256(32) == 2 * I256_MIN && Pow256(32) == 2 * (I256_MAX + 1)
  {
    assert Pow256(4) == 0x1_0000_0000;
    PowConcat(4, 4);
    PowConcat(8, 8);
    PowConcat(16, 16);
  }

  function Word(s: seq<byte>): (w: u64)
    requires |s| == 8
  {
    BeBound(s); Powers();
    BeValue(s)
  }

  function SignedWord(s: seq<byte>): (w: i64)
    requires |s| == 8
  {
    FromSignedToBe(s); Powers();
    FromBeSigned(s)
  }

  function Word8(n: int): (s: seq<byte>)
    requires -BASE64 <= 2 * n && n < BASE64
    ensures |s| == 8
  {
    Powers();
    ToBe(n, 8)
  }

  /** `val.to_be_bytes()` cut in two words, the upper one read as unsigned or signed. */
  function SplitU128(n: int): (u64, u64)
    requires 0 <= n <= U128_MAX
  {
    Powers();
    var b := ToBe(n, 16);
    (Word(b[..8]), Word(b[8..]))
  }

  function SplitI128(n: int): (i64, u64)
    requires I128_MIN <= n <= I128_MAX
  {
    Powers();
    var b := ToBe(n, 16);
    (SignedWord(b[..8]), Word(b[8..]))
  }

  function SplitU256(n: int): (u64, u64, u64, u64)
    requires 0 <= n <= U256_MAX
  {
    Powers();
    var b := ToBe(n, 32);
    (Word(b[..8]), Word(b[8..16]), Word(b[16..24]), Word(b[24..]))
  }

  function SplitI256(n: int): (i64, u64, u64, u64)
    requires I256_MIN <= n <= I256_MAX
  {
    Powers();
    var b := ToBe(n, 32);
    (SignedWord(b[..8]), Word(b[8..16]), Word(b[16..24]), Word(b[24..]))
  }

  /** The words' bytes laid end to end and read as one number. */
  function JoinU128(hi: u64, lo: u64): int { BeValue(Word8(hi) + Word8(lo)) }

  function JoinI128(hi: i64, lo: u64): int { FromBeSigned(Word8(hi) + Word8(lo)) }

  function JoinU256(a: u64, b: u64, c: u64, d: u64): int {
    BeValue(Word8(a) + Word8(b) + Word8(c) + Word8(d))
  }

  function JoinI256(a: i64, b: u64, c: u64, d: u64): int {
    FromBeSigned(Word8(a) + Word8(b) + Word8(c) + Word8(d))
  }

  lemma {:induction false} WordRoundTrip(s: seq<byte>)
    requires |s| == 8
    ensures Word8(Word(s)) == s && Word8(SignedWord(s)) == s
  {
    BeValueBytes(s);
    FromSignedToBe(s);
  }

  lemma {:induction false} WordValue(n: u64)
    ensures BeValue(Word8(n)) == n
  {
    Powers();
    BeBytesValue(n, 8);
  }

  lemma {:induction false} SignedWordValue(n: i64)
    ensures FromBeSigned(Word8(n)) == n
  {
    Powers();
    ToBeSigned(n, 8);
  }

  /** The joined number is the words' positional value in base 2^64; only the top word has a sign. */
  lemma {:induction false} JoinPositional(u: u64, i: i64, b: u64, c: u64, d: u64)
    ensures JoinU128(u, d) == u * BASE64 + d
    ensures JoinI128(i, d) == i * BASE64 + d
    ensures JoinU256(u, b, c, d) == ((u * BASE64 + b) * BASE64 + c) * BASE64 + d
    ensures JoinI256(i, b, c, d) == ((i * BASE64 + b) * BASE64 + c) * BASE64 + d
  {
    Powers();
    WordValue(u); WordValue(b); WordValue(c); WordValue(d); SignedWordValue(i);
    var wu, wi, wb, wc, wd := Word8(u), Word8(i), Word8(b), Word8(c), Word8(d);
    BeConcat(wu, wd); SignedConcat(wi, wd);
    BeConcat(wu, wb); BeConcat(wu + wb, wc); BeConcat(wu + wb + wc, wd);
    SignedConcat(wi, wb); SignedConcat(wi + wb, wc); SignedConcat(wi + wb + wc, wd);
  }

  lemma {:induction false} JoinSplitU128(n: int)
    requires 0 <= n <= U128_MAX
    ensures JoinU128(SplitU128(n).0, SplitU128(n).1) == n
  {
    Powers();
    var b := ToBe(n, 16);
    WordRoundTrip(b[..8]); WordRoundTrip(b[8..]);
    assert b[..8] + b[8..] == b;
    BeBytesValue(n, 16);
  }

  lemma {:induction false} JoinSplitI128(n: int)
    requires I128_MIN <= n <= I128_MAX
    ensures JoinI128(SplitI128(n).0, SplitI128(n).1) == n
  {
    Powers();
    var b := ToBe(n, 16);
    WordRoundTrip(b[..8]); WordRoundTrip(b[8..]);
    assert b[..8] + b[8..] == b;
    ToBeSigned(n, 16);
  }

  lemma {:induction false} FourWords(b: seq<byte>)
    requires |b| == 32
    ensures Word8(Word(b[..8])) + Word8(Word(b[8..16])) + Word8(Word(b[16..24])) + Word8(Word(b[24..])) == b
    ensures Word8(SignedWord(b[..8])) + Word8(Word(b[8..16])) + Word8(Word(b[16..24])) + Word8(Word(b[24..])) == b
  {
    WordRoundTrip(b[..8]); WordRoundTrip(b[8..16]); WordRoundTrip(b[16..24]); WordRoundTrip(b[24..]);
    assert b[..8] + b[8..16] + b[16..24] + b[24..] == b;
  }

  lemma {:induction false} JoinSplitU256(n: int)
    requires 0 <= n <= U256_MAX
    ensures var (a, b, c, d) := SplitU256(n); JoinU256(a, b, c, d) == n
  {
    Powers();
    FourWords(ToBe(n, 32));
    BeBytesValue(n, 32);
  }

  lemma {:induction false} JoinSplitI256(n: int)
    requires I256_MIN <= n <= I256_MAX
    ensures var (a, b, c, d) := SplitI256(n); JoinI256(a, b, c, d) == n
  {
    Powers();
    FourWords(ToBe(n, 32));
    ToBeSigned(n, 32);
  }

  /** Joining words gives a number in range, and splitting it gives the same words back. */
  lemma {:induction false} SplitJoin128(u: u64, i: i64, lo: u64)
    ensures 0 <= JoinU128(u, lo) <= U128_MAX && SplitU128(JoinU128(u, lo)) == (u, lo)
    ensures I128_MIN <= JoinI128(i, lo) <= I128_MAX && SplitI128(JoinI128(i, lo)) == (i, lo)
  {
    Powers();
    var x, y := Word8(u) + Word8(lo), Word8(i) + Word8(lo);
    BeBound(x); BeValueBytes(x); FromSignedToBe(y);
    WordValue(u); WordValue(lo); SignedWordValue(i);
    assert x[..8] == Word8(u) && x[8..] == Word8(lo) == y[8..] && y[..8] == Word8(i);
  }

  lemma {:induction false} SplitJoin256(u: u64, i: i64, b: u64, c: u64, d: u64)
    ensures 0 <= JoinU256(u, b, c, d) <= U256_MAX && SplitU256(JoinU256(u, b, c, d)) == (u, b, c, d)
    ensures I256_MIN <= JoinI256(i, b, c, d) <= I256_MAX && SplitI256(JoinI256(i, b, c, d)) == (i, b, c, d)
  {
    hide BeValue, BeBytes, FromBeSigned, ToBe, Word8, Pow256;
    SplitJoinU256(u, b, c, d);
    SplitJoinI256(i, b, c, d);
  }

  lemma {:induction false} CutInFour(w: seq<byte>, x: seq<byte>, y: seq<byte>, z: seq<byte>)
    requires |w| == |x| == |y| == |z| == 8
    ensures var s := w + x + y + z; s[..8] == w && s[8..16] == x && s[16..24] == y && s[24..] == z
  {
  }

  lemma {:induction false} SplitJoinU256(u: u64, b: u64, c: u64, d: u64)
    ensures 0 <= JoinU256(u, b, c, d) <= U256_MAX && SplitU256(JoinU256(u, b, c, d)) == (u, b, c, d)
  {
    Powers();
    var x := Word8(u) + Word8(b) + Word8(c) + Word8(d);
    CutInFour(Word8(u), Word8(b), Word8(c), Word8(d));
    BeBound(x); BeValueBytes(x);
    WordValue(u); WordValue(b); WordValue(c); WordValue(d);
    hide BeValue, BeBytes, Word8, Pow256;
  }

  lemma {:induction false} SplitJoinI256(i: i64, b: u64, c: u64, d: u64)
    ensures I256_MIN <= JoinI256(i, b, c, d) <= I256_MAX && SplitI256(JoinI256(i, b, c, d)) == (i, b, c, d)
  {
    Powers();
    var y := Word8(i) + Word8(b) + Word8(c) + Word8(d);
    CutInFour(Word8(i), Word8(b), Word8(c), Word8(d));
    FromSignedToBe(y);
    SignedWordValue(i); WordValue(b); WordValue(c); WordValue(d);
    hide BeValue, BeBytes, FromBeSigned, ToBe, Word8, Pow256;
  }
}
