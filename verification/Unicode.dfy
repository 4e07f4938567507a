/** RFC 3629: well-formed UTF-8 is exactly the encodings of sequences of Unicode scalar values. */
module Unicode {
  import opened Octets

  /** Any code point that is no surrogate. */
  predicate Scalar(cp: nat) { cp < 0xD800 || 0xE000 <= cp < 0x11_0000 }

  /** Section 3: one to four bytes, six bits in each but the first. */
  function EncodeChar(cp: nat): (s: Text)
    requires Scalar(cp)
    ensures 1 <= |s| <= 4
  {
    if cp < 0x80 then [cp]
    else if cp < 0x800 then [0xC0 + cp / 64, 0x80 + cp % 64]
    else if cp < 0x1_0000 then [0xE0 + cp / 4096, 0x80 + cp / 64 % 64, 0x80 + cp % 64]
    else [0xF0 + cp / 262144, 0x80 + cp / 4096 % 64, 0x80 + cp / 64 % 64, 0x80 + cp % 64]
  }

  function EncodeChars(cps: seq<nat>): Text
    requires forall i :: 0 <= i < |cps| ==> Scalar(cps[i])
  {
    if cps == [] then [] else EncodeChar(cps[0]) + EncodeChars(cps[1..])
  }

  // ----- Encodings are well-formed -----

  lemma {:induction false} TwoBytesFit(cp: nat)
    requires 0x80 <= cp < 0x800
    ensures 0xC2 <= 0xC0 + cp / 64 < 0xE0 && Tail(0x80 + cp % 64)
  {
  }

  lemma {:induction false} ThreeBytesFit(cp: nat)
    requires 0x800 <= cp < 0x1_0000 && Scalar(cp)
    ensures 0xE0 <= 0xE0 + cp / 4096 < 0xF0 && Tail(0x80 + cp / 64 % 64) && Tail(0x80 + cp % 64)
    ensures cp / 4096 == 0 ==> 0xA0 <= 0x80 + cp / 64 % 64
    ensures cp / 4096 == 0xD ==> 0x80 + cp / 64 % 64 < 0xA0
  {
    var hi, mid := cp / 4096, cp / 64;
    assert mid / 64 == hi && mid == hi * 64 + mid % 64;
  }

  lemma {:induction false} FourBytesFit(cp: nat)
    requires 0x1_0000 <= cp < 0x11_0000
    ensures 0xF0 <= 0xF0 + cp / 262144 < 0xF5 && Tail(0x80 + cp / 4096 % 64) && Tail(0x80 + cp / 64 % 64) && Tail(0x80 + cp % 64)
    ensures cp / 262144 == 0 ==> 0x90 <= 0x80 + cp / 4096 % 64
    ensures cp / 262144 == 4 ==> 0x80 + cp / 4096 % 64 < 0x90
  {
    var hi, mid := cp / 262144, cp / 4096;
    assert mid / 64 == hi && mid == hi * 64 + mid % 64;
  }

  lemma {:induction false} CharIsUtf8(cp: nat, rest: Text)
    requires Scalar(cp) && Utf8(rest)
    ensures Utf8(EncodeChar(cp) + rest)
  {
    var c := EncodeChar(cp);
    var s := c + rest;
    assert s[|c|..] == rest;
    if cp < 0x80 {
    } else if cp < 0x800 {
      TwoBytesFit(cp);
      WellFormedTwo(s);
    } else if cp < 0x1_0000 {
      ThreeBytesFit(cp);
      WellFormedThree(s);
    } else {
      FourBytesFit(cp);
      WellFormedFour(s);
    }
  }

  lemma {:induction false} WellFormedTwo(s: Text)
    requires |s| >= 2 && 0xC2 <= s[0] < 0xE0 && Tail(s[1]) && Utf8(s[2..])
    ensures Utf8(s)
  {
  }

  lemma {:induction false} WellFormedThree(s: Text)
    requires |s| >= 3 && 0xE0 <= s[0] < 0xF0 && Tail(s[1]) && Tail(s[2]) && Utf8(s[3..])
    requires (s[0] == 0xE0 ==> 0xA0 <= s[1]) && (s[0] == 0xED ==> s[1] < 0xA0)
    ensures Utf8(s)
  {
  }

  lemma {:induction false} WellFormedFour(s: Text)
    requires |s| >= 4 && 0xF0 <= s[0] < 0xF5 && Tail(s[1]) && Tail(s[2]) && Tail(s[3]) && Utf8(s[4..])
    requires (s[0] == 0xF0 ==> 0x90 <= s[1]) && (s[0] == 0xF4 ==> s[1] < 0x90)
    ensures Utf8(s)
  {
  }

  lemma {:induction false} CharsAreUtf8(cps: seq<nat>)
    requires forall i :: 0 <= i < |cps| ==> Scalar(cps[i])
    ensures Utf8(EncodeChars(cps))
  {
    if cps != [] {
      CharsAreUtf8(cps[1..]);
      CharIsUtf8(cps[0], EncodeChars(cps[1..]));
    }
  }

  // ----- Well-formed text is an encoding -----

  lemma {:induction false} TwoBytesAre(a: byte, b: byte) returns (cp: nat)
    requires 0xC2 <= a < 0xE0 && Tail(b)
    ensures Scalar(cp) && EncodeChar(cp) == [a, b]
  {
    cp := (a - 0xC0) * 64 + (b - 0x80);
    assert cp / 64 == a - 0xC0 && cp % 64 == b - 0x80;
  }

  lemma {:induction false} ThreeBytesAre(a: byte, b: byte, c: byte) returns (cp: nat)
    requires 0xE0 <= a < 0xF0 && Tail(b) && Tail(c) && (a == 0xE0 ==> 0xA0 <= b) && (a == 0xED ==> b < 0xA0)
    ensures Scalar(cp) && EncodeChar(cp) == [a, b, c]
  {
    var high := (a - 0xE0) * 64 + (b - 0x80);
    cp := high * 64 + (c - 0x80);
    assert cp / 64 == high && cp % 64 == c - 0x80;
    assert high / 64 == a - 0xE0 && high % 64 == b - 0x80;
    assert cp / 4096 == high / 64;
  }

  lemma {:induction false} FourBytesAre(a: byte, b: byte, c: byte, d: byte) returns (cp: nat)
    requires 0xF0 <= a < 0xF5 && Tail(b) && Tail(c) && Tail(d) && (a == 0xF0 ==> 0x90 <= b) && (a == 0xF4 ==> b < 0x90)
    ensures Scalar(cp) && EncodeChar(cp) == [a, b, c, d]
  {
    var top := (a - 0xF0) * 64 + (b - 0x80);
    var high := top * 64 + (c - 0x80);
    cp := high * 64 + (d - 0x80);
    assert cp / 64 == high && cp % 64 == d - 0x80;
    assert high / 64 == top && high % 64 == c - 0x80;
    assert top / 64 == a - 0xF0 && top % 64 == b - 0x80;
    assert cp / 4096 == high / 64 && cp / 262144 == top / 64;
  }

  lemma {:induction false} HeadIsChar(s: Text) returns (cp: nat)
    requires s != [] && Utf8(s)
    ensures Scalar(cp) && |EncodeChar(cp)| <= |s| && s[..|EncodeChar(cp)|] == EncodeChar(cp) && Utf8(s[|EncodeChar(cp)|..])
  {
    if s[0] < 0x80 {
      cp := s[0];
      assert s[..1] == [s[0]];
    } else if s[0] < 0xE0 {
      cp := TwoBytesAre(s[0], s[1]);
      assert s[..2] == [s[0], s[1]];
    } else if s[0] < 0xF0 {
      cp := ThreeBytesAre(s[0], s[1], s[2]);
      assert s[..3] == [s[0], s[1], s[2]];
    } else {
      cp := FourBytesAre(s[0], s[1], s[2], s[3]);
      assert s[..4] == [s[0], s[1], s[2], s[3]];
    }
    hide EncodeChar;
  }

  lemma {:induction false} Utf8IsChars(s: Text) returns (cps: seq<nat>)
    requires Utf8(s)
    ensures (forall i :: 0 <= i < |cps| ==> Scalar(cps[i])) && EncodeChars(cps) == s
  {
    hide Utf8, EncodeChar, Scalar;
    cps := [];
    if s != [] {
      var cp := HeadIsChar(s);
      var n := |EncodeChar(cp)|;
      var rest := Utf8IsChars(s[n..]);
      cps := [cp] + rest;
      assert cps[1..] == rest && s == s[..n] + s[n..];
    }
  }

  /** A text is well-formed exactly when it encodes some sequence of scalar values. */
  lemma {:induction false} Utf8Exactly(s: Text)
    ensures Utf8(s) <==> exists cps: seq<nat> :: (forall i :: 0 <= i < |cps| ==> Scalar(cps[i])) && EncodeChars(cps) == s
  {
    hide EncodeChars, Utf8, Scalar;
    if Utf8(s) { var cps := Utf8IsChars(s); }
    if cps: seq<nat> :| (forall i :: 0 <= i < |cps| ==> Scalar(cps[i])) && EncodeChars(cps) == s { CharsAreUtf8(cps); }
  }
}
