/** XDR (RFC 4506): values read one after the other from a byte stream. */
module XdrStream {
  import opened Wrappers
  import opened Octets

  datatype Decoded<+T> = Decoded(value: T, used: nat)

  /** How values of a type are written, and how one is read off the front of a stream. */
  datatype Codec<!T> = Codec(encode: T -> seq<byte>, decode: seq<byte> -> Option<Decoded<T>>)

  /** Encodings are self-delimiting: reading stops where writing did, whatever follows. */
  ghost predicate SelfDelimiting<T(!new)>(c: Codec<T>) {
    && (forall x, rest :: c.decode(c.encode(x) + rest) == Some(Decoded(x, |c.encode(x)|)))
    && (forall b :: c.decode(b).Some? ==> 0 < c.decode(b).value.used <= |b|)
    && (forall b, more :: c.decode(b).Some? ==> c.decode(b + more) == c.decode(b))
  }

  /** `read_xdr_iter(..).collect()`: values until the stream ends. */
  function DecodeAll<T>(c: Codec<T>, b: seq<byte>): Option<seq<T>> {
    if b == [] then Some([])
    else
      match c.decode(b)
      case None => None
      case Some(d) =>
        if d.used == 0 || d.used > |b| then None
        else
          match DecodeAll(c, b[d.used..])
          case None => None
          case Some(rest) => Some([d.value] + rest)
  }

  function EncodeAll<T>(c: Codec<T>, xs: seq<T>): seq<byte> {
    if xs == [] then [] else EncodeAll(c, xs[..|xs| - 1]) + c.encode(xs[|xs| - 1])
  }

  lemma {:induction false} DecodesAlike<T(!new)>(c: Codec<T>, b: seq<byte>, more: seq<byte>)
    requires SelfDelimiting(c) && c.decode(b).Some?
    ensures c.decode(b + more) == c.decode(b) && 0 < c.decode(b).value.used <= |b|
  {
  }

  lemma {:induction false} EncodedDecodes<T(!new)>(c: Codec<T>, x: T)
    requires SelfDelimiting(c)
    ensures c.decode(c.encode(x)) == Some(Decoded(x, |c.encode(x)|)) && c.encode(x) != []
  {
    assert c.encode(x) + [] == c.encode(x);
  }

  /** Decoding a concatenation is concatenating what is decoded. */
  lemma {:induction false} DecodeConcat<T(!new)>(c: Codec<T>, a: seq<byte>, b: seq<byte>)
    requires SelfDelimiting(c) && DecodeAll(c, a).Some?
    ensures DecodeAll(c, a + b) ==
      (match DecodeAll(c, b) case None => None case Some(ys) => Some(DecodeAll(c, a).value + ys))
    decreases |a|
  {
    hide SelfDelimiting, DecodeAll;
    DecodeNothing(c);
    if a == [] {
      assert a + b == b;
      if DecodeAll(c, b).Some? { assert [] + DecodeAll(c, b).value == DecodeAll(c, b).value; }
    } else {
      DecodeFirst(c, a);
      DecodesAlike(c, a, b);
      var d := c.decode(a).value;
      DecodeStep(c, a + b);
      assert (a + b)[d.used..] == a[d.used..] + b;
      DecodeConcat(c, a[d.used..], b);
      if DecodeAll(c, b).Some? {
        var xs, ys := DecodeAll(c, a[d.used..]).value, DecodeAll(c, b).value;
        assert ([d.value] + xs) + ys == [d.value] + (xs + ys);
      }
    }
  }

  lemma {:induction false} DecodeNothing<T(!new)>(c: Codec<T>)
    ensures DecodeAll(c, []) == Some([])
  {
  }

  /** A stream that decodes starts with a value, and the rest decodes. */
  lemma {:induction false} DecodeFirst<T(!new)>(c: Codec<T>, b: seq<byte>)
    requires b != [] && DecodeAll(c, b).Some?
    ensures c.decode(b).Some? && 0 < c.decode(b).value.used <= |b| && DecodeAll(c, b[c.decode(b).value.used..]).Some?
    ensures DecodeAll(c, b).value == [c.decode(b).value.value] + DecodeAll(c, b[c.decode(b).value.used..]).value
  {
  }

  lemma {:induction false} DecodeStep<T(!new)>(c: Codec<T>, b: seq<byte>)
    requires b != [] && c.decode(b).Some? && 0 < c.decode(b).value.used <= |b|
    ensures var rest := DecodeAll(c, b[c.decode(b).value.used..]);
            DecodeAll(c, b) == if rest.Some? then Some([c.decode(b).value.value] + rest.value) else None
  {
  }

  lemma {:induction false} DecodeOne<T(!new)>(c: Codec<T>, x: T)
    requires SelfDelimiting(c)
    ensures DecodeAll(c, c.encode(x)) == Some([x])
  {
    EncodedDecodes(c, x);
    hide SelfDelimiting;
    var b := c.encode(x);
    assert b[|b|..] == [];
    assert DecodeAll(c, b[|b|..]) == Some([]);
    assert [x] + [] == [x];
  }

  /** Values written one after the other are read back as they were. */
  lemma {:induction false} DecodeEncoded<T(!new)>(c: Codec<T>, xs: seq<T>)
    requires SelfDelimiting(c)
    ensures DecodeAll(c, EncodeAll(c, xs)) == Some(xs)
  {
    if xs != [] {
      hide SelfDelimiting;
      var front, x := xs[..|xs| - 1], xs[|xs| - 1];
      DecodeEncoded(c, front);
      DecodeOne(c, x);
      DecodeConcat(c, EncodeAll(c, front), c.encode(x));
      assert xs == front + [x];
    }
  }

  // ----- Contract metadata entries -----

  /** A variable-length string of at most 2^32-1 bytes. */
  type XdrString = s: seq<byte> | |s| <= U32_MAX

  /** `ScMetaEntry::ScMetaV0`. */
  datatype MetaEntry = MetaEntry(key: XdrString, val: XdrString)

  function Padding(n: nat): nat { (4 - n % 4) % 4 }

  predicate AllZero(s: seq<byte>) { forall i :: 0 <= i < |s| ==> s[i] == 0 }

  /** Section 4.11: the length, the bytes, and zeros up to a multiple of four. */
  function EncodeString(s: XdrString): seq<byte> {
    BeBytes(|s|, 4) + s + seq(Padding(|s|), _ => 0)
  }

  function DecodeString(b: seq<byte>): Option<Decoded<XdrString>> {
    if |b| < 4 then None
    else
      var n := BeValue(b[..4]);
      var used := 4 + n + Padding(n);
      if n > U32_MAX || |b| < used || !AllZero(b[4 + n..used]) then None
      else Some(Decoded(b[4..4 + n], used))
  }

  lemma {:induction false} StringReadsBack(s: XdrString, rest: seq<byte>)
    ensures DecodeString(EncodeString(s) + rest) == Some(Decoded(s, |EncodeString(s)|))
  {
    var b := EncodeString(s) + rest;
    assert Pow256(4) == 0x1_0000_0000;
    BeBytesValue(|s|, 4);
    assert b[..4] == BeBytes(|s|, 4);
    assert b[4..4 + |s|] == s;
    hide BeBytes, BeValue, Pow256;
    var pad := Padding(|s|);
    assert |EncodeString(s)| == 4 + |s| + pad;
    assert b[4 + |s|..4 + |s| + pad] == seq(pad, _ => 0);
  }

  lemma {:induction false} StringIgnoresRest(b: seq<byte>, more: seq<byte>)
    requires DecodeString(b).Some?
    ensures DecodeString(b + more) == DecodeString(b)
    ensures 4 <= DecodeString(b).value.used <= |b|
  {
    var n := BeValue(b[..4]);
    var used := 4 + n + Padding(n);
    assert (b + more)[..4] == b[..4];
    hide BeValue;
    assert (b + more)[4..4 + n] == b[4..4 + n] && (b + more)[4 + n..used] == b[4 + n..used];
  }

  const META_V0: seq<byte> := [0, 0, 0, 0]

  /** Section 4.15: the discriminant of the union, then its arm. */
  function EncodeMeta(e: MetaEntry): seq<byte> {
    META_V0 + EncodeString(e.key) + EncodeString(e.val)
  }

  function DecodeMeta(b: seq<byte>): Option<Decoded<MetaEntry>> {
    if |b| < 4 || b[..4] != META_V0 then None
    else
      match DecodeString(b[4..])
      case None => None
      case Some(k) =>
        if 4 + k.used > |b| then None
        else
          match DecodeString(b[4 + k.used..])
          case None => None
          case Some(v) => Some(Decoded(MetaEntry(k.value, v.value), 4 + k.used + v.used))
  }

  const META: Codec<MetaEntry> := Codec(EncodeMeta, DecodeMeta)

  lemma {:induction false} MetaReadsBack(e: MetaEntry, rest: seq<byte>)
    ensures DecodeMeta(EncodeMeta(e) + rest) == Some(Decoded(e, |EncodeMeta(e)|))
  {
    var b := EncodeMeta(e) + rest;
    hide EncodeString, DecodeString;
    var k, v := EncodeString(e.key), EncodeString(e.val);
    assert b[..4] == META_V0;
    assert b[4..] == k + (v + rest);
    StringReadsBack(e.key, v + rest);
    assert b[4 + |k|..] == v + rest;
    StringReadsBack(e.val, rest);
  }

  lemma {:induction false} MetaIgnoresRest(b: seq<byte>, more: seq<byte>)
    requires DecodeMeta(b).Some?
    ensures DecodeMeta(b + more) == DecodeMeta(b)
    ensures 0 < DecodeMeta(b).value.used <= |b|
  {
    hide DecodeString;
    var c := b + more;
    assert c[..4] == b[..4] && c[4..] == b[4..] + more;
    StringIgnoresRest(b[4..], more);
    var k := DecodeString(b[4..]).value;
    assert c[4 + k.used..] == b[4 + k.used..] + more;
    StringIgnoresRest(b[4 + k.used..], more);
  }

  /** The codec of metadata entries is self-delimiting. */
  lemma {:induction false} MetaIsSelfDelimiting()
    ensures SelfDelimiting(META)
  {
    forall x, rest ensures DecodeMeta(EncodeMeta(x) + rest) == Some(Decoded(x, |EncodeMeta(x)|)) { MetaReadsBack(x, rest); }
    forall b | DecodeMeta(b).Some? ensures 0 < DecodeMeta(b).value.used <= |b| { MetaIgnoresRest(b, []); }
    forall b, more | DecodeMeta(b).Some? ensures DecodeMeta(b + more) == DecodeMeta(b) { MetaIgnoresRest(b, more); }
    hide EncodeMeta, DecodeMeta;
  }

  /** The entry "a" = "bc": discriminant 0, then each text with its length and padding. */
  lemma {:induction false} MetaBytes()
    ensures EncodeMeta(MetaEntry([97], [98, 99])) == [0, 0, 0, 0, 0, 0, 0, 1, 97, 0, 0, 0, 0, 0, 0, 2, 98, 99, 0, 0]
  {
    FirstText();
    SecondText();
    hide EncodeString;
  }

  lemma {:induction false} FirstText()
    ensures EncodeString([97]) == [0, 0, 0, 1, 97, 0, 0, 0]
  {
    FourBytes(1);
    hide BeBytes;
    assert Padding(1) == 3;
    assert seq(3, _ => 0) == [0, 0, 0];
  }

  lemma {:induction false} SecondText()
    ensures EncodeString([98, 99]) == [0, 0, 0, 2, 98, 99, 0, 0]
  {
    FourBytes(2);
    hide BeBytes;
    assert Padding(2) == 2;
    assert seq(2, _ => 0) == [0, 0];
  }

  lemma {:induction false} FourBytes(n: nat)
    requires n < 256
    ensures BeBytes(n, 4) == [0, 0, 0, n]
  {
    assert BeBytes(n, 4) == BeBytes(0, 3) + [n];
    assert BeBytes(0, 3) == BeBytes(0, 2) + [0] && BeBytes(0, 2) == BeBytes(0, 1) + [0] && BeBytes(0, 1) == [0];
  }
}
