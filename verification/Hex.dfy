/** Hexadecimal text of byte strings. */
module Hex {
  import opened Wrappers
  import opened Octets

  predicate IsHex(c: byte) { 48 <= c < 58 || 97 <= c < 103 || 65 <= c < 71 }

  predicate IsLowerHex(c: byte) { 48 <= c < 58 || 97 <= c < 103 }

  predicate AllHex(s: Text) { forall i :: 0 <= i < |s| ==> IsHex(s[i]) }

  predicate AllLowerHex(s: Text) { forall i :: 0 <= i < |s| ==> IsLowerHex(s[i]) }

  function Nibble(c: byte): (n: nat)
    requires IsHex(c)
    ensures n < 16
  {
    if c < 58 then c - 48 else if c < 71 then c - 65 + 10 else c - 97 + 10
  }

  function NibbleText(n: nat): (c: byte)
    requires n < 16
    ensures IsLowerHex(c) && Nibble(c) == n
  {
    if n < 10 then 48 + n else 97 + n - 10
  }

  /** The base-16 value of a run of hex digits; an empty run is 0. */
  function HexValue(s: Text): nat
    requires AllHex(s)
  {
    if s == [] then 0 else 16 * HexValue(s[..|s| - 1]) + Nibble(s[|s| - 1])
  }

  /** Two lowercase digits a byte. */
  function LowerHex(b: seq<byte>): (s: Text)
    ensures |s| == 2 * |b| && AllLowerHex(s)
  {
    if b == [] then [] else LowerHex(b[..|b| - 1]) + [NibbleText(b[|b| - 1] / 16), NibbleText(b[|b| - 1] % 16)]
  }

  /** `hex::decode`: the bytes of an even-length run of hex digits of either case. */
  function Decode(s: Text): Option<seq<byte>> {
    if |s| % 2 == 0 && AllHex(s) then Some(BeBytes(HexValue(s), |s| / 2)) else None
  }

  /** The `n` bytes whose big-endian value is that of the digits. */
  function PaddedHex(s: Text, n: nat): Option<seq<byte>> {
    if |s| <= 2 * n && AllHex(s) then Some(BeBytes(HexValue(s), n)) else None
  }

  lemma {:induction false} LowerHexValue(b: seq<byte>)
    ensures HexValue(LowerHex(b)) == BeValue(b)
  {
    if b != [] {
      var front, last := b[..|b| - 1], b[|b| - 1];
      LowerHexValue(front);
      var s := LowerHex(b);
      var t := s[..|s| - 1];
      assert t[..|t| - 1] == LowerHex(front);
      assert s[|s| - 1] == NibbleText(last % 16) && t[|t| - 1] == NibbleText(last / 16);
    }
  }

  /** Decoding inverts `LowerHex`, with or without a stated length. */
  lemma {:induction false} LowerHexDecodes(b: seq<byte>)
    ensures Decode(LowerHex(b)) == Some(b)
    ensures PaddedHex(LowerHex(b), |b|) == Some(b)
    ensures Ascii(LowerHex(b))
  {
    var s := LowerHex(b);
    assert AllHex(s) && |s| / 2 == |b| && |s| % 2 == 0;
    assert HexValue(s) == BeValue(b) by { LowerHexValue(b); }
    assert BeBytes(BeValue(b), |b|) == b by { BeValueBytes(b); }
  }

  lemma {:induction false} HexBound(s: Text)
    requires AllHex(s)
    ensures |s| % 2 == 0 ==> HexValue(s) < Pow256(|s| / 2)
    ensures |s| % 2 == 1 ==> HexValue(s) < 16 * Pow256(|s| / 2)
  {
    if s != [] {
      HexBound(s[..|s| - 1]);
    }
  }

  lemma {:induction false} ZeroPadValue(k: nat, s: Text)
    requires AllHex(s)
    ensures AllHex(Zeros(k) + s) && HexValue(Zeros(k) + s) == HexValue(s)
    decreases k + |s|
  {
    var z := Zeros(k) + s;
    if s == [] {
      assert z == Zeros(k);
      if k > 0 {
        ZeroPadValue(k - 1, []);
        assert z[..|z| - 1] == Zeros(k - 1) + [];
      }
    } else {
      ZeroPadValue(k, s[..|s| - 1]);
      assert z[..|z| - 1] == Zeros(k) + s[..|s| - 1];
    }
  }

  lemma {:induction false} PaddedIsHex(k: nat, s: Text)
    ensures AllHex(Zeros(k) + s) <==> AllHex(s)
  {
    assert forall j :: 0 <= j < |s| ==> s[j] == (Zeros(k) + s)[k + j];
  }

  lemma {:induction false} TwoDigits(s: Text, hi: byte, lo: byte)
    requires AllHex(s) && IsHex(hi) && IsHex(lo)
    ensures AllHex(s + [hi, lo]) && HexValue(s + [hi, lo]) == 256 * HexValue(s) + 16 * Nibble(hi) + Nibble(lo)
  {
    var t := s + [hi, lo];
    assert t[..|t| - 1] == s + [hi];
    assert (s + [hi])[..|s|] == s;
  }

  lemma {:induction false} EmptyValues()
    ensures AllHex([]) && HexValue([]) == 0 && BeValue([]) == 0
  {
  }

  function Zeros(k: nat): Text { seq(k, _ => 48) }

  /** The value survives padding: the bytes have the digits' value, for odd lengths too. */
  lemma {:induction false} PaddedHexValue(s: Text, n: nat)
    requires |s| <= 2 * n && AllHex(s)
    ensures PaddedHex(s, n).Some? && |PaddedHex(s, n).value| == n
    ensures BeValue(PaddedHex(s, n).value) == HexValue(s)
  {
    var z := Zeros(2 * n - |s|) + s;
    ZeroPadValue(2 * n - |s|, s);
    HexBound(z);
    BeBytesValue(HexValue(s), n);
  }

  /** `to_lower_hex`. */
  method ToLowerHex(bytes: seq<byte>) returns (res: Text)
    ensures res == LowerHex(bytes)
  {
    res := [];
    for i := 0 to |bytes|
      invariant res == LowerHex(bytes[..i])
    {
      var b := bytes[i];
      res := res + [NibbleText(b / 16), NibbleText(b % 16)];
      assert bytes[..i + 1][..i] == bytes[..i];
    }
    assert bytes[..|bytes|] == bytes;
  }

  /**
   `padded_hex_from_str`: pads with zeros on the left and decodes into a buffer of `n` bytes.
   The padding is counted in bytes; a text with a non-ASCII character fails either way.
   */
  method PaddedHexFromStr(s: Text, n: nat) returns (r: Option<seq<byte>>)
    ensures r.Some? <==> |s| <= 2 * n && AllHex(s)
    ensures r.Some? ==> |r.value| == n && BeValue(r.value) == HexValue(s)
    ensures r == PaddedHex(s, n)
  {
    if |s| > n * 2 {
      return None;
    }
    var pad := 2 * n - |s|;
    var padded := Zeros(pad) + s;
    r := DecodeToSlice(padded, n);
    hide AllHex, HexValue, BeValue, BeBytes;
    PaddedIsHex(pad, s);
    if r.Some? {
      ZeroPadValue(pad, s);
      BeValueBytes(r.value);
    }
  }

  /** The byte that two hex digits stand for. */
  function ByteOf(hi: byte, lo: byte): byte
    requires IsHex(hi) && IsHex(lo)
  {
    16 * Nibble(hi) + Nibble(lo)
  }

  /** Bytes read off pairs of digits have the digits' value. */
  lemma {:induction false} PairsValue(digits: Text, bytes: seq<byte>)
    requires |digits| == 2 * |bytes| && AllHex(digits)
    requires forall j :: 0 <= j < |bytes| ==> bytes[j] == ByteOf(digits[2 * j], digits[2 * j + 1])
    ensures BeValue(bytes) == HexValue(digits)
  {
    if bytes == [] {
      EmptyValues();
    } else {
      hide HexValue, BeValue;
      var n := |bytes| - 1;
      var front, hi, lo := digits[..2 * n], digits[2 * n], digits[2 * n + 1];
      PairsValue(front, bytes[..n]);
      TwoDigits(front, hi, lo);
      BeSnoc(bytes[..n], bytes[n]);
      assert digits == front + [hi, lo] && bytes == bytes[..n] + [bytes[n]];
    }
  }

  /** `hex::decode_to_slice` into a buffer of `n` bytes. */
  method DecodeToSlice(digits: Text, n: nat) returns (r: Option<seq<byte>>)
    requires |digits| == 2 * n
    ensures r.Some? <==> AllHex(digits)
    ensures r.Some? ==> |r.value| == n && BeValue(r.value) == HexValue(digits)
  {
    hide IsHex, Nibble, HexValue, BeValue, ByteOf;
    var decoded := new byte[n](_ => 0);
    for i := 0 to n
      invariant forall k :: 0 <= k < 2 * i ==> IsHex(digits[k])
      invariant forall j :: 0 <= j < i ==> decoded[j] == ByteOf(digits[2 * j], digits[2 * j + 1])
    {
      var hi, lo := digits[2 * i], digits[2 * i + 1];
      if !IsHex(hi) || !IsHex(lo) {
        return None;
      }
      decoded[i] := ByteOf(hi, lo);
    }
    PairsValue(digits, decoded[..]);
    r := Some(decoded[..]);
  }

  // ----- Digits of either case -----

  /** The sixteen digits, in both cases. */
  lemma {:induction false} DigitsAre(n: nat)
    requires n < 16
    ensures var lower, upper := Spell("0123456789abcdef")[n], Spell("0123456789ABCDEF")[n];
            IsHex(lower) && IsHex(upper) && Nibble(lower) == Nibble(upper) == n
  {
    hide Spell;
    DigitTexts();
  }

  lemma {:induction false} DigitTexts()
    ensures Spell("0123456789abcdef") == [48, 49, 50, 51, 52, 53, 54, 55, 56, 57, 97, 98, 99, 100, 101, 102]
    ensures Spell("0123456789ABCDEF") == [48, 49, 50, 51, 52, 53, 54, 55, 56, 57, 65, 66, 67, 68, 69, 70]
  {
    hide Spell;
    LowerDigits();
    UpperDigits();
  }

  lemma {:induction false} LowerDigits()
    ensures Spell("0123456789abcdef") == [48, 49, 50, 51, 52, 53, 54, 55, 56, 57, 97, 98, 99, 100, 101, 102]
  {
    hide Spell;
  }

  lemma {:induction false} UpperDigits()
    ensures Spell("0123456789ABCDEF") == [48, 49, 50, 51, 52, 53, 54, 55, 56, 57, 65, 66, 67, 68, 69, 70]
  {
    hide Spell;
  }

  /** `A` to `F` in lower case. */
  function Lowered(s: Text): (r: Text)
    ensures |r| == |s| && forall i :: 0 <= i < |s| ==> r[i] == if 65 <= s[i] < 71 then s[i] + 32 else s[i]
  {
    seq(|s|, i requires 0 <= i < |s| => if 65 <= s[i] < 71 then s[i] + 32 else s[i])
  }

  /** Digits of either case decode alike. */
  lemma {:induction false} CaseIgnored(s: Text, n: nat)
    ensures AllHex(Lowered(s)) <==> AllHex(s)
    ensures Decode(Lowered(s)) == Decode(s) && PaddedHex(Lowered(s), n) == PaddedHex(s, n)
  {
    var t := Lowered(s);
    assert forall i :: 0 <= i < |s| ==> (IsHex(t[i]) <==> IsHex(s[i]));
    if AllHex(s) { LoweredValue(s); }
    hide HexValue, BeBytes;
  }

  lemma {:induction false} LoweredValue(s: Text)
    requires AllHex(s)
    ensures AllHex(Lowered(s)) && HexValue(Lowered(s)) == HexValue(s)
  {
    if s != [] {
      var front := s[..|s| - 1];
      LoweredValue(front);
      assert Lowered(s)[..|s| - 1] == Lowered(front);
    }
  }
}
