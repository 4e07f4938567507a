/** Printing a value under its type and parsing the result back is the identity. */
module RoundTrip {
  import opened Wrappers
  import opened Octets
  import opened OrderedMap
  import opened ScValues
  import opened Json
  import opened SpecTypes
  import opened Codec
  import opened Typing
  import Decimal
  import Hex
  import Words

  /** The value prints as `j`, which `serde_json` keeps, and `j` parses back; only `Void` prints as null. */
  ghost predicate PrintsAndParses(c: Context, v: ScVal, t: ScType, j: Json)
    requires c.host.Bounded()
  {
    && XdrToJson(c, v, t) == Ok(j)
    && Sound(j)
    && (j.JNull? ==> v.Void? && t.TOption?)
    && FromJson(c, j, t) == Ok(v)
  }

  ghost predicate Survives(c: Context, v: ScVal, t: ScType)
    requires c.host.Bounded()
  {
    XdrToJson(c, v, t).Ok? && PrintsAndParses(c, v, t, XdrToJson(c, v, t).value)
  }

  // ----- Primitive types -----

  lemma {:induction false} ShowsAsUtf8(n: int, lo: int, hi: int)
    requires lo <= n <= hi
    ensures Decimal.Parse(Decimal.Show(n), lo, hi) == Some(n)
    ensures Decimal.ParsePrefixed(Decimal.Show(n), lo, hi) == Some(n)
    ensures Utf8(Decimal.Show(n))
  {
    Decimal.ShowParses(n, lo, hi);
    hide Decimal.Show, Decimal.Parse, Decimal.ParsePrefixed;
    AsciiIsUtf8(Decimal.Show(n));
  }

  /** A primitive survives when its scalar printer and parser agree. */
  lemma {:induction false} PrimitiveByParts(c: Context, v: ScVal, t: ScType, j: Json)
    requires c.host.Bounded() && IsPrimitive(t) && PrintsAsScalar(v, t) && !j.JNull? && Sound(j)
    requires ScalarToJson(c.host, v) == Ok(j) && FromJsonPrimitives(c.host, j, t) == Ok(v)
    ensures Survives(c, v, t)
  {
    hide FromJsonPrimitives, ScalarToJson, Sound, PrintsAsScalar;
    assert XdrToJson(c, v, t) == Ok(j);
    assert FromJson(c, j, t) == Ok(v);
  }

  lemma {:induction false} Int128Survives(c: Context, u: u64, i: i64, lo: u64)
    requires c.host.Bounded()
    ensures Survives(c, U128(u, lo), TU128) && Survives(c, I128(i, lo), TI128)
  {
    hide Platform.Bounded, XdrToJson, FromJson, Survives, Utf8;
    hide Words.SplitU128, Words.SplitI128, Words.JoinU128, Words.JoinI128, Decimal.Show, Decimal.Parse, Decimal.ParsePrefixed;
    Words.SplitJoin128(u, i, lo);
    var m, n := Words.JoinU128(u, lo), Words.JoinI128(i, lo);
    ShowsAsUtf8(m, 0, Words.U128_MAX);
    ShowsAsUtf8(n, Words.I128_MIN, Words.I128_MAX);
    assert U128FromText(Decimal.Show(m)) == Ok(U128(u, lo));
    assert I128FromText(Decimal.Show(n)) == Ok(I128(i, lo));
    hide U128FromText, I128FromText;
    PrimitiveByParts(c, U128(u, lo), TU128, JString(Decimal.Show(m)));
    PrimitiveByParts(c, I128(i, lo), TI128, JString(Decimal.Show(n)));
  }

  lemma {:induction false} Int256Survives(c: Context, u: u64, i: i64, x: u64, y: u64, z: u64)
    requires c.host.Bounded()
    ensures Survives(c, U256(u, x, y, z), TU256) && Survives(c, I256(i, x, y, z), TI256)
  {
    hide Platform.Bounded, XdrToJson, FromJson, Survives, Utf8;
    hide Words.SplitU256, Words.SplitI256, Words.JoinU256, Words.JoinI256, Decimal.Show, Decimal.Parse, Decimal.ParsePrefixed;
    Words.SplitJoin256(u, i, x, y, z);
    var m, n := Words.JoinU256(u, x, y, z), Words.JoinI256(i, x, y, z);
    ShowsAsUtf8(m, 0, Words.U256_MAX);
    ShowsAsUtf8(n, Words.I256_MIN, Words.I256_MAX);
    assert U256FromText(Decimal.Show(m)) == Ok(U256(u, x, y, z));
    assert I256FromText(Decimal.Show(n)) == Ok(I256(i, x, y, z));
    hide U256FromText, I256FromText;
    PrimitiveByParts(c, U256(u, x, y, z), TU256, JString(Decimal.Show(m)));
    PrimitiveByParts(c, I256(i, x, y, z), TI256, JString(Decimal.Show(n)));
  }

  lemma {:induction false} HexIsNoStrkey(host: Platform, s: Text)
    requires host.Lawful() && |s| == 64 && Hex.AllLowerHex(s)
    ensures AddressFromJson(host, s).Err?
  {
    hide Platform.Bounded, Sound, Utf8;
  }

  lemma {:induction false} HexReadsBack(host: Platform, b: seq<byte>)
    requires host.Lawful() && |b| <= U32_MAX
    ensures var s := Hex.LowerHex(b);
            Utf8(s) && BytesFromText(s) == Ok(Bytes(b)) && BytesNFromText(host, s, |b|) == Ok(Bytes(b))
  {
    hide Platform.Lawful, Utf8, AddressFromJson;
    hide Hex.LowerHex, Hex.Decode, Hex.PaddedHex, Hex.AllLowerHex;
    var s := Hex.LowerHex(b);
    Hex.LowerHexDecodes(b);
    AsciiIsUtf8(s);
    if |b| == 32 { HexIsNoStrkey(host, s); }
  }

  lemma {:induction false} BytesSurvive(c: Context, b: seq<byte>)
    requires c.host.Lawful() && c.host.Bounded() && |b| <= U32_MAX
    ensures Survives(c, Bytes(b), TBytes) && Survives(c, Bytes(b), TBytesN(|b|))
  {
    hide Platform.Lawful, Platform.Bounded, XdrToJson, FromJson, Survives, Utf8, Hex.LowerHex, BytesNFromText, BytesFromText;
    HexReadsBack(c.host, b);
    PrimitiveByParts(c, Bytes(b), TBytes, JString(Hex.LowerHex(b)));
    PrimitiveByParts(c, Bytes(b), TBytesN(|b|), JString(Hex.LowerHex(b)));
  }

  lemma {:induction false} NumbersSurvive(c: Context, v: ScVal, t: ScType)
    requires c.host.Bounded() && IsPrimitive(t) && PrintsAsScalar(v, t)
    requires v.Bool? || v.U32? || v.I32? || v.U64? || v.I64?
    ensures Survives(c, v, t)
  {
    hide XdrToJson, FromJson, Survives, IsPrimitive;
    PrimitiveByParts(c, v, t, ScalarToJson(c.host, v).value);
  }

  lemma {:induction false} TextsSurvive(c: Context, s: Text)
    requires c.host.Bounded() && Utf8(s)
    ensures |s| <= U32_MAX ==> Survives(c, String(s), TString)
    ensures |s| <= MAX_SYMBOL ==> Survives(c, Symbol(s), TSymbol)
  {
    hide Platform.Bounded, XdrToJson, FromJson, Survives, Utf8;
    if |s| <= U32_MAX { PrimitiveByParts(c, String(s), TString, JString(s)); }
    if |s| <= MAX_SYMBOL { PrimitiveByParts(c, Symbol(s), TSymbol, JString(s)); }
  }

  lemma {:induction false} StrkeysReadBack(host: Platform, a: ScAddress)
    requires host.Lawful()
    ensures AddressFromJson(host, host.strkeyText(a)) == Ok(Address(a)) && Utf8(host.strkeyText(a))
  {
    hide Platform.Bounded, Sound, Utf8;
  }

  lemma {:induction false} AddressSurvives(c: Context, a: ScAddress)
    requires c.host.Lawful() && c.host.Bounded()
    ensures Survives(c, Address(a), TAddress)
  {
    hide Platform.Lawful, Platform.Bounded, XdrToJson, FromJson, Survives, Utf8, AddressFromJson;
    StrkeysReadBack(c.host, a);
    PrimitiveByParts(c, Address(a), TAddress, JString(c.host.strkeyText(a)));
  }

  lemma {:induction false} PrimitiveTyping(c: Context, v: ScVal, t: ScType)
    requires WellTyped(c, v, t) && Readable(c, v, t) && IsPrimitive(t)
    ensures PrintsAsScalar(v, t) && !v.Void? && !v.LedgerKeyContractInstance? && !v.LedgerKeyNonce?
    ensures v.Bytes? ==> |v.bytes| <= U32_MAX && (t.TBytesN? ==> t.n == |v.bytes|)
    ensures v.String? ==> |v.str| <= U32_MAX && Utf8(v.str)
    ensures v.Symbol? ==> |v.sym| <= MAX_SYMBOL && Utf8(v.sym)
  {
    hide Utf8;
  }

  lemma {:induction false} PrimitivesSurvive(c: Context, v: ScVal, t: ScType)
    requires c.host.Lawful()
    requires WellTyped(c, v, t) && Readable(c, v, t) && IsPrimitive(t)
    ensures Survives(c, v, t)
  {
    hide WellTyped, Readable, XdrToJson, FromJson, Survives, Utf8, Platform.Lawful, Platform.Bounded;
    LawfulIsBounded(c.host);
    PrimitiveTyping(c, v, t);
    match v
    case U128(hi, lo) => Int128Survives(c, hi, 0, lo);
    case I128(hi, lo) => Int128Survives(c, 0, hi, lo);
    case U256(w, x, y, z) => Int256Survives(c, w, 0, x, y, z);
    case I256(w, x, y, z) => Int256Survives(c, 0, w, x, y, z);
    case Bytes(b) => BytesSurvive(c, b);
    case String(s) => TextsSurvive(c, s);
    case Symbol(s) => TextsSurvive(c, s);
    case Address(a) => AddressSurvives(c, a);
    case _ => NumbersSurvive(c, v, t);
  }

  // ----- Lists -----

  lemma {:induction false} PrintItemsIs(c: Context, vs: seq<ScVal>, t: ScType, js: seq<Json>)
    requires |js| == |vs| && forall i :: 0 <= i < |vs| ==> XdrToJson(c, vs[i], t) == Ok(js[i])
    ensures PrintItems(c, vs, t) == Ok(js)
  {
    hide XdrToJson;
    if vs != [] {
      PrintItemsIs(c, vs[1..], t, js[1..]);
      assert js == [js[0]] + js[1..];
    }
  }

  lemma {:induction false} FromItemsIs(c: Context, js: seq<Json>, t: ScType, vs: seq<ScVal>)
    requires c.host.Bounded()
    requires |js| == |vs| && forall i :: 0 <= i < |js| ==> FromJson(c, js[i], t) == Ok(vs[i])
    ensures FromItems(c, js, t) == Ok(vs)
  {
    hide FromJson;
    if js != [] {
      FromItemsIs(c, js[1..], t, vs[1..]);
      assert vs == [vs[0]] + vs[1..];
    }
  }

  lemma {:induction false} PrintZipIs(c: Context, vs: seq<ScVal>, ts: seq<ScType>, js: seq<Json>)
    requires |js| == |vs| == |ts| && forall i :: 0 <= i < |vs| ==> XdrToJson(c, vs[i], ts[i]) == Ok(js[i])
    ensures PrintZip(c, vs, ts) == Ok(js)
  {
    hide XdrToJson;
    if vs != [] {
      PrintZipIs(c, vs[1..], ts[1..], js[1..]);
      assert js == [js[0]] + js[1..];
    }
  }

  lemma {:induction false} FromZipIs(c: Context, js: seq<Json>, ts: seq<ScType>, vs: seq<ScVal>)
    requires c.host.Bounded()
    requires |js| == |vs| == |ts| && forall i :: 0 <= i < |js| ==> FromJson(c, js[i], ts[i]) == Ok(vs[i])
    ensures FromZip(c, js, ts) == Ok(vs)
  {
    hide FromJson;
    if js != [] {
      FromZipIs(c, js[1..], ts[1..], vs[1..]);
      assert vs == [vs[0]] + vs[1..];
    }
  }

  ghost function Printed(c: Context, vs: seq<ScVal>, ts: seq<ScType>): (js: seq<Json>)
    requires |vs| == |ts| && forall i :: 0 <= i < |vs| ==> XdrToJson(c, vs[i], ts[i]).Ok?
    ensures |js| == |vs| && forall i :: 0 <= i < |vs| ==> XdrToJson(c, vs[i], ts[i]) == Ok(js[i])
  {
    seq(|vs|, i requires 0 <= i < |vs| => XdrToJson(c, vs[i], ts[i]).value)
  }

  /** Values that survive one by one survive as a list under a list of types. */
  lemma {:induction false} ZipSurvives(c: Context, vs: seq<ScVal>, ts: seq<ScType>) returns (js: seq<Json>)
    requires c.host.Bounded() && |vs| == |ts|
    requires forall i :: 0 <= i < |vs| ==> Survives(c, vs[i], ts[i])
    ensures PrintZip(c, vs, ts) == Ok(js) && FromZip(c, js, ts) == Ok(vs) && |js| == |vs|
    ensures Sound(JArray(js))
  {
    hide XdrToJson, FromJson;
    assert forall i :: 0 <= i < |vs| ==> XdrToJson(c, vs[i], ts[i]).Ok?;
    js := Printed(c, vs, ts);
    forall i | 0 <= i < |vs| ensures PrintsAndParses(c, vs[i], ts[i], js[i]) {
      assert Survives(c, vs[i], ts[i]);
    }
    PrintZipIs(c, vs, ts, js);
    FromZipIs(c, js, ts, vs);
  }

  lemma {:induction false} VecSurvives(c: Context, items: seq<ScVal>, e: ScType)
    requires c.host.Bounded() && |items| <= U32_MAX
    requires forall i :: 0 <= i < |items| ==> Survives(c, items[i], e)
    ensures Survives(c, Vec(items), TVec(e))
  {
    hide XdrToJson, FromJson;
    assert forall i :: 0 <= i < |items| ==> XdrToJson(c, items[i], e).Ok?;
    var js := Printed(c, items, seq(|items|, _ => e));
    forall i | 0 <= i < |items| ensures PrintsAndParses(c, items[i], e, js[i]) {
      assert Survives(c, items[i], e);
    }
    PrintItemsIs(c, items, e, js);
    FromItemsIs(c, js, e, items);
    PrintsVec(c, items, e, js);
  }

  lemma {:induction false} PrintsVec(c: Context, items: seq<ScVal>, e: ScType, js: seq<Json>)
    requires c.host.Bounded() && |items| <= U32_MAX && Sound(JArray(js))
    requires PrintItems(c, items, e) == Ok(js) && FromItems(c, js, e) == Ok(items)
    ensures Survives(c, Vec(items), TVec(e))
  {
    hide PrintItems, FromItems, Sound;
    assert ScObjectToJson(c, Vec(items), TVec(e)) == Ok(JArray(js));
    assert XdrToJson(c, Vec(items), TVec(e)) == Ok(JArray(js));
    assert FromJson(c, JArray(js), TVec(e)) == Ok(Vec(items));
  }

  lemma {:induction false} TupleSurvives(c: Context, items: seq<ScVal>, ts: seq<ScType>)
    requires c.host.Bounded() && |items| == |ts| <= U32_MAX
    requires forall i :: 0 <= i < |ts| ==> Survives(c, items[i], ts[i])
    ensures Survives(c, Vec(items), TTuple(ts))
    ensures forall name, fields ::
      Find(c.spec, name) == Some(Struct(name, fields)) && FieldTypes(fields) == ts ==> Survives(c, Vec(items), TUdt(name))
  {
    var js := ZipSurvives(c, items, ts);
    PrintsTuple(c, items, ts, js);
    forall name, fields | Find(c.spec, name) == Some(Struct(name, fields)) && FieldTypes(fields) == ts
      ensures Survives(c, Vec(items), TUdt(name))
    {
      PrintsTupleStruct(c, items, name, fields, js);
    }
    hide Survives, FieldTypes;
  }

  lemma {:induction false} PrintsTuple(c: Context, items: seq<ScVal>, ts: seq<ScType>, js: seq<Json>)
    requires c.host.Bounded() && |items| == |js| == |ts| <= U32_MAX && Sound(JArray(js))
    requires PrintZip(c, items, ts) == Ok(js) && FromZip(c, js, ts) == Ok(items)
    ensures Survives(c, Vec(items), TTuple(ts))
  {
    hide PrintZip, FromZip, Sound;
    assert ScObjectToJson(c, Vec(items), TTuple(ts)) == Ok(JArray(js));
    assert XdrToJson(c, Vec(items), TTuple(ts)) == Ok(JArray(js));
    assert ParseTuple(c, ts, js) == Ok(Vec(items));
    assert FromJson(c, JArray(js), TTuple(ts)) == Ok(Vec(items));
  }

  /** What a user-defined type prints and parses is what its entry in the specification does. */
  lemma {:induction false} UdtByParts(c: Context, v: ScVal, name: Text, j: Json)
    requires c.host.Bounded() && (v.Map? || v.Vec? || v.U32?) && Sound(j) && !j.JNull?
    requires UdtToJson(c, name, v) == Ok(j) && ParseUdt(c, name, j) == Ok(v)
    ensures Survives(c, v, TUdt(name))
  {
    hide UdtToJson, ParseUdt, Sound;
    assert ScObjectToJson(c, v, TUdt(name)) == Ok(j);
    assert XdrToJson(c, v, TUdt(name)) == Ok(j);
    assert FromJson(c, j, TUdt(name)) == Ok(v);
  }

  lemma {:induction false} PrintsTupleStruct(c: Context, items: seq<ScVal>, name: Text, fields: seq<Field>, js: seq<Json>)
    requires c.host.Bounded() && |items| == |js| == |fields| <= U32_MAX && Sound(JArray(js))
    requires Find(c.spec, name) == Some(Struct(name, fields))
    requires PrintZip(c, items, FieldTypes(fields)) == Ok(js) && FromZip(c, js, FieldTypes(fields)) == Ok(items)
    ensures Survives(c, Vec(items), TUdt(name))
  {
    hide PrintZip, FromZip, Sound, FieldTypes, Survives, Find;
    assert UdtToJson(c, name, Vec(items)) == Ok(JArray(js));
    assert ParseTupleStruct(c, fields, js) == Ok(Vec(items));
    assert ParseUdt(c, name, JArray(js)) == Ok(Vec(items));
    UdtByParts(c, Vec(items), name, JArray(js));
  }

  // ----- Maps -----

  /** A member of a printed map and the entry it came from. */
  ghost predicate Decodes(c: Context, m: Member, e: ScMapEntry, k: ScType, w: ScType)
    requires c.host.Bounded()
  {
    FromString(c, m.key, k) == Ok(e.key) && FromJson(c, m.val, w) == Ok(e.val)
  }

  /** Reading a value that is not null looks through the options of its type. */
  lemma {:induction false} OptionsVanish(c: Context, j: Json, t: ScType)
    requires c.host.Bounded() && !j.JNull?
    ensures FromJson(c, j, t) == FromJson(c, j, StripOptions(t))
  {
    if t.TOption? { OptionsVanish(c, j, t.inner); }
  }

  lemma {:induction false} TextOfNonNull(c: Context, s: Text, j: Json, t: ScType)
    requires c.host.Bounded() && c.host.parse(s) == Some(j) && s != NULL_TEXT
    requires !IsBigInt(StripOptions(t))
    ensures FromString(c, s, t) == FromJson(c, j, StripOptions(t))
  {
    hide FromJson;
    if t.TOption? { TextOfNonNull(c, s, j, t.inner); }
  }

  lemma {:induction false} VoidPrintsNull(c: Context, t: ScType)
    ensures XdrToJson(c, Void, t).Ok? ==> XdrToJson(c, Void, t).value == JNull
  {
    if t.TResult? { VoidPrintsNull(c, t.ok); }
  }

  /** `from_string` reads back the text of a map key. */
  lemma {:induction false} KeySurvives(c: Context, key: ScVal, k: ScType, j: Json)
    requires c.host.Lawful() && PrintsAndParses(c, key, k, j) && ReadableKey(c, key, k)
    ensures FromString(c, c.host.show(j), k) == Ok(key)
  {
    VoidPrintsNull(c, k);
    if j.JNull? {
      assert k.TOption? && key.Void?;
      hide FromJson, XdrToJson;
    } else {
      hide FromJson, XdrToJson, FromString;
      var s := c.host.show(j);
      assert c.host.parse(s) == Some(j) && c.host.parse(c.host.show(JNull)) == Some(JNull);
      TextOfNonNull(c, s, j, k);
      OptionsVanish(c, j, k);
    }
  }

  lemma {:induction false} EntrySurvives(c: Context, e: ScMapEntry, k: ScType, w: ScType)
    requires c.host.Lawful()
    requires Survives(c, e.key, k) && ReadableKey(c, e.key, k) && Survives(c, e.val, w)
    ensures PrintEntry(c, e, k, w).Ok?
    ensures var m := PrintEntry(c, e, k, w).value; Decodes(c, m, e, k, w) && Utf8(m.key) && Sound(m.val)
  {
    hide XdrToJson, FromJson, FromString, Utf8;
    KeySurvives(c, e.key, k, XdrToJson(c, e.key, k).value);
  }

  lemma {:induction false} PrintEntriesIs(c: Context, es: seq<ScMapEntry>, k: ScType, w: ScType, ms: seq<Member>)
    requires |ms| == |es| && forall i :: 0 <= i < |es| ==> PrintEntry(c, es[i], k, w) == Ok(ms[i])
    ensures PrintEntries(c, es, k, w) == Ok(ms)
  {
    hide PrintEntry;
    if es != [] {
      PrintEntriesIs(c, es[1..], k, w, ms[1..]);
      assert ms == [ms[0]] + ms[1..];
    }
  }

  lemma {:induction false} FromMembersIs(c: Context, ms: seq<Member>, es: seq<ScMapEntry>, k: ScType, w: ScType)
    requires c.host.Bounded() && |ms| == |es|
    requires forall i :: 0 <= i < |ms| ==> Decodes(c, ms[i], es[i], k, w)
    ensures FromMembers(c, ms, k, w) == Ok(es)
  {
    hide FromString, FromJson;
    if ms != [] {
      FromMembersIs(c, ms[1..], es[1..], k, w);
      assert Decodes(c, ms[0], es[0], k, w);
      assert es == [es[0]] + es[1..];
    }
  }

  ghost predicate AllDecode(c: Context, ms: seq<Member>, es: seq<ScMapEntry>, k: ScType, w: ScType)
    requires c.host.Bounded()
  {
    |ms| == |es| && forall i :: 0 <= i < |ms| ==> Decodes(c, ms[i], es[i], k, w)
  }

  lemma {:induction false} DecodesIsFunctional(c: Context, m: Member, e: ScMapEntry, f: ScMapEntry, k: ScType, w: ScType)
    requires c.host.Bounded() && Decodes(c, m, e, k, w) && Decodes(c, m, f, k, w)
    ensures e == f
  {
    hide FromString, FromJson;
  }

  /** A rearrangement of the members parses to a rearrangement of the entries. */
  lemma {:induction false} Rearranged(c: Context, ms: seq<Member>, es: seq<ScMapEntry>, sorted: seq<Member>, k: ScType, w: ScType)
    returns (parsed: seq<ScMapEntry>)
    requires c.host.Bounded() && AllDecode(c, ms, es, k, w)
    requires DistinctKeys(es) && DistinctKeys(sorted) && SameElements(sorted, ms)
    ensures AllDecode(c, sorted, parsed, k, w)
    ensures DistinctKeys(parsed) && SameElements(parsed, es)
  {
    SameElementsSymmetric(sorted, ms);
    hide AllDecode, SameElements, Positions, DistinctKeys;
    var at := PositionsExist(sorted, ms);
    var back := PositionsExist(ms, sorted);
    parsed := Picked(c, ms, es, sorted, at, k, w);
    PickedBack(c, ms, es, sorted, at, back, parsed, k, w);
    PositionsSuffice(parsed, es, at, back);
  }

  lemma {:induction false} Picked(c: Context, ms: seq<Member>, es: seq<ScMapEntry>, sorted: seq<Member>, at: seq<nat>, k: ScType, w: ScType)
    returns (parsed: seq<ScMapEntry>)
    requires c.host.Bounded() && AllDecode(c, ms, es, k, w) && Positions(sorted, ms, at) && DistinctKeys(es) && DistinctKeys(sorted)
    ensures Positions(parsed, es, at) && AllDecode(c, sorted, parsed, k, w) && DistinctKeys(parsed)
  {
    hide Decodes, Platform.Bounded;
    parsed := seq(|sorted|, i requires 0 <= i < |sorted| => es[at[i]]);
    forall i | 0 <= i < |sorted| ensures Decodes(c, sorted[i], parsed[i], k, w) { assert Decodes(c, ms[at[i]], es[at[i]], k, w); }
    forall i, j | 0 <= i < j < |parsed| ensures parsed[i].key != parsed[j].key {
      assert sorted[i].key != sorted[j].key;
      var x, y := at[i], at[j];
      assert x != y;
      if x < y { assert es[x].key != es[y].key; } else { assert es[y].key != es[x].key; }
    }
  }

  lemma {:induction false} PickedBack(c: Context, ms: seq<Member>, es: seq<ScMapEntry>, sorted: seq<Member>, at: seq<nat>, back: seq<nat>,
                                      parsed: seq<ScMapEntry>, k: ScType, w: ScType)
    requires c.host.Bounded() && AllDecode(c, ms, es, k, w) && AllDecode(c, sorted, parsed, k, w)
    requires Positions(sorted, ms, at) && Positions(ms, sorted, back) && Positions(parsed, es, at)
    ensures Positions(es, parsed, back)
  {
    hide Decodes, Platform.Bounded;
    forall a | 0 <= a < |es| ensures back[a] < |parsed| && parsed[back[a]] == es[a] {
      var b := back[a];
      assert Decodes(c, sorted[b], parsed[b], k, w) && Decodes(c, ms[a], es[a], k, w);
      DecodesIsFunctional(c, ms[a], es[a], parsed[b], k, w);
    }
  }

  lemma {:induction false} SameKeyDecodesSame(c: Context, m: Member, n: Member, e: ScMapEntry, f: ScMapEntry, k: ScType, w: ScType)
    requires c.host.Bounded() && Decodes(c, m, e, k, w) && Decodes(c, n, f, k, w) && m.key == n.key
    ensures e.key == f.key
  {
    hide FromString, FromJson;
  }

  /** An object holds exactly the members listed, when no two have the same name. */
  lemma {:induction false} ObjectKeeps(ms: seq<Member>)
    requires DistinctKeys(ms)
    ensures DistinctKeys(Collect(TextLess, ms)) && SameElements(Collect(TextLess, ms), ms)
  {
    TextLessIsStrictOrder();
    CollectSpec(TextLess, ms);
    AscendingDistinct(TextLess, Collect(TextLess, ms));
  }

  /** Entries in any order sort back to the ascending list of them. */
  lemma {:induction false} EntriesSortBack(s: seq<ScMapEntry>, es: seq<ScMapEntry>)
    requires Ascending(Less, es)
    ensures DistinctKeys(es)
    ensures DistinctKeys(s) && SameElements(s, es) ==> SortedFrom(Less, s) == Some(es)
  {
    LessIsStrictOrder();
    AscendingDistinct(Less, es);
    if DistinctKeys(s) && SameElements(s, es) { SortedFromRecovers(Less, s, es); }
  }

  /** Members in text order parse to the entries in some order, which sorts back. */
  lemma {:induction false} MembersSurvive(c: Context, es: seq<ScMapEntry>, ms: seq<Member>, k: ScType, w: ScType)
    requires c.host.Bounded() && |es| <= U32_MAX && Ascending(Less, es) && AllDecode(c, ms, es, k, w)
    ensures DistinctKeys(ms)
    ensures ParseMap(c, Collect(TextLess, ms), k, w) == Ok(Map(es))
  {
    EntriesSortBack(es, es);
    hide Less, TextLess, Decodes, FromMembers, Collect, SameElements, SortedFrom, Ascending;
    forall i, j | 0 <= i < j < |ms| ensures ms[i].key != ms[j].key {
      assert Decodes(c, ms[i], es[i], k, w) && Decodes(c, ms[j], es[j], k, w);
      if ms[i].key == ms[j].key { SameKeyDecodesSame(c, ms[i], ms[j], es[i], es[j], k, w); }
    }
    ObjectKeeps(ms);
    var sorted := Collect(TextLess, ms);
    var parsed := Rearranged(c, ms, es, sorted, k, w);
    FromMembersIs(c, sorted, parsed, k, w);
    EntriesSortBack(parsed, es);
  }

  lemma {:induction false} CollectSound(ms: seq<Member>)
    requires DistinctKeys(ms)
    requires forall i :: 0 <= i < |ms| ==> Utf8(ms[i].key) && Sound(ms[i].val)
    ensures Sound(JObject(Collect(TextLess, ms)))
  {
    TextLessIsStrictOrder();
    hide TextLess, Utf8;
    CollectSpec(TextLess, ms);
    var sorted := Collect(TextLess, ms);
    forall i | 0 <= i < |sorted| ensures Utf8(sorted[i].key) && Sound(sorted[i].val) {
      assert sorted[i] in ms;
    }
  }

  /** Keys and values survive one by one, the keys through their text. */
  ghost predicate EachReads(c: Context, es: seq<ScMapEntry>, k: ScType, w: ScType)
    requires c.host.Bounded()
  {
    forall i :: 0 <= i < |es| ==> Survives(c, es[i].key, k) && ReadableKey(c, es[i].key, k) && Survives(c, es[i].val, w)
  }

  lemma {:induction false} MapSurvives(c: Context, es: seq<ScMapEntry>, k: ScType, w: ScType)
    requires c.host.Lawful() && c.host.Bounded() && |es| <= U32_MAX && Ascending(Less, es) && EachReads(c, es, k, w)
    ensures Survives(c, Map(es), TMap(k, w))
  {
    hide Survives, Less, TextLess, EachReads, AllDecode, PrintEntries, ParseMap, Sound, Platform.Lawful, Platform.Bounded, ReadableKey, Ascending, Collect;
    var ms := EntriesPrint(c, es, k, w);
    MembersSurvive(c, es, ms, k, w);
    CollectSound(ms);
    PrintsMap(c, es, k, w, ms);
  }

  ghost predicate AllNamed(ms: seq<Member>) { forall i :: 0 <= i < |ms| ==> Utf8(ms[i].key) && Sound(ms[i].val) }

  lemma {:induction false} EntriesPrint(c: Context, es: seq<ScMapEntry>, k: ScType, w: ScType) returns (ms: seq<Member>)
    requires c.host.Lawful() && c.host.Bounded() && EachReads(c, es, k, w)
    ensures PrintEntries(c, es, k, w) == Ok(ms) && AllDecode(c, ms, es, k, w) && AllNamed(ms)
  {
    hide PrintEntry, PrintEntries, Platform.Lawful, Platform.Bounded, EachReads, AllDecode, AllNamed, PrintsDecodable;
    ms := EachEntrySurvives(c, es, k, w);
    PrintEntriesIs(c, es, k, w, ms);
    DecodableParts(c, es, ms, k, w);
  }

  lemma {:induction false} DecodableParts(c: Context, es: seq<ScMapEntry>, ms: seq<Member>, k: ScType, w: ScType)
    requires c.host.Bounded() && |ms| == |es| && forall i :: 0 <= i < |es| ==> PrintsDecodable(c, es[i], ms[i], k, w)
    ensures AllDecode(c, ms, es, k, w) && AllNamed(ms)
  {
    hide Decodes, Utf8, Sound, Platform.Bounded;
    forall i | 0 <= i < |es| ensures Decodes(c, ms[i], es[i], k, w) && Utf8(ms[i].key) && Sound(ms[i].val) {
      assert PrintsDecodable(c, es[i], ms[i], k, w);
    }
  }

  /** A printed entry makes a member of an object, and decodes. */
  ghost predicate PrintsDecodable(c: Context, e: ScMapEntry, m: Member, k: ScType, w: ScType)
    requires c.host.Bounded()
  {
    Decodes(c, m, e, k, w) && Utf8(m.key) && Sound(m.val)
  }

  lemma {:induction false} EachEntrySurvives(c: Context, es: seq<ScMapEntry>, k: ScType, w: ScType) returns (ms: seq<Member>)
    requires c.host.Lawful() && c.host.Bounded() && EachReads(c, es, k, w)
    ensures |ms| == |es|
    ensures forall i :: 0 <= i < |es| ==> PrintEntry(c, es[i], k, w) == Ok(ms[i])
    ensures forall i :: 0 <= i < |es| ==> PrintsDecodable(c, es[i], ms[i], k, w)
  {
    hide Survives, Decodes, PrintEntry, Sound, Utf8, Platform.Lawful, Platform.Bounded, ReadableKey, XdrToJson;
    forall i | 0 <= i < |es| ensures PrintEntry(c, es[i], k, w).Ok? && PrintsDecodable(c, es[i], PrintEntry(c, es[i], k, w).value, k, w) {
      assert Survives(c, es[i].key, k) && ReadableKey(c, es[i].key, k) && Survives(c, es[i].val, w);
      EntrySurvives(c, es[i], k, w);
    }
    hide EachReads, PrintsDecodable;
    ms := seq(|es|, i requires 0 <= i < |es| => PrintEntry(c, es[i], k, w).value);
    forall i | 0 <= i < |es| ensures PrintEntry(c, es[i], k, w) == Ok(ms[i]) && PrintsDecodable(c, es[i], ms[i], k, w) {
      assert ms[i] == PrintEntry(c, es[i], k, w).value;
    }
  }

  lemma {:induction false} PrintsMap(c: Context, es: seq<ScMapEntry>, k: ScType, w: ScType, ms: seq<Member>)
    requires c.host.Bounded() && Sound(JObject(Collect(TextLess, ms)))
    requires PrintEntries(c, es, k, w) == Ok(ms) && ParseMap(c, Collect(TextLess, ms), k, w) == Ok(Map(es))
    ensures Survives(c, Map(es), TMap(k, w))
  {
    hide PrintEntries, ParseMap, Sound, Collect;
    var j := JObject(Collect(TextLess, ms));
    assert ScObjectToJson(c, Map(es), TMap(k, w)) == Ok(j);
    assert XdrToJson(c, Map(es), TMap(k, w)) == Ok(j);
    assert FromJson(c, j, TMap(k, w)) == Ok(Map(es));
  }

  // ----- Structs -----

  lemma {:induction false} NamedKey(fields: seq<Field>, a: seq<Pair<ScVal, ()>>, key: ScVal)
    requires |a| == |fields| && forall i :: 0 <= i < |a| ==> a[i].key == Symbol(fields[i].name)
    requires HasName(fields, key)
    ensures HasKey(a, key)
  {
    var i :| 0 <= i < |fields| && key == Symbol(fields[i].name);
    assert a[i].key == key;
  }

  /** In symbol order, the declared fields are the entries' keys position by position. */
  lemma {:induction false} FieldPositions(fields: seq<Field>, es: seq<ScMapEntry>)
    requires FieldsAscend(fields) && Ascending(Less, es) && KeysAreFields(fields, es)
    ensures |fields| == |es|
    ensures forall i :: 0 <= i < |fields| ==> Matches(fields[i], es[i])
  {
    hide Less, TextLess, HasKey, HasName;
    LessIsStrictOrder();
    var a := seq(|fields|, i requires 0 <= i < |fields| => Pair(Symbol(fields[i].name), ()));
    forall i, j | 0 <= i < j < |a| ensures Less(a[i].key, a[j].key) { SymbolOrder(fields[i].name, fields[j].name); }
    forall j | 0 <= j < |es| ensures HasKey(a, es[j].key) { NamedKey(fields, a, es[j].key); }
    KeysAgree(Less, a, es);
  }

  lemma {:induction false} PrintFieldsIs(c: Context, fields: seq<Field>, es: seq<ScMapEntry>, ms: seq<Member>)
    requires |ms| == |es| == |fields| && forall i :: 0 <= i < |es| ==> PrintField(c, fields[i], es[i]) == Ok(ms[i])
    ensures PrintFields(c, fields, es) == Ok(ms)
  {
    hide PrintField;
    if es != [] {
      PrintFieldsIs(c, fields[1..], es[1..], ms[1..]);
      assert ms == [ms[0]] + ms[1..];
    }
  }

  /** The member of that field's name parses to the entry's value. */
  ghost predicate Reads(c: Context, f: Field, members: seq<Member>, e: ScMapEntry)
    requires c.host.Bounded()
  {
    && Matches(f, e) && |f.name| <= MAX_SYMBOL
    && Get(members, f.name).Some?
    && FromJson(c, Get(members, f.name).value, f.type_) == Ok(e.val)
  }

  lemma {:induction false} FromFieldsIs(c: Context, fields: seq<Field>, members: seq<Member>, es: seq<ScMapEntry>)
    requires c.host.Bounded() && |fields| == |es|
    requires forall i :: 0 <= i < |fields| ==> Reads(c, fields[i], members, es[i])
    ensures FromFields(c, fields, members) == Ok(es)
  {
    hide FromJson, Get, Platform.Bounded;
    if fields != [] {
      forall i | 0 <= i < |fields[1..]| ensures Reads(c, fields[1..][i], members, es[1..][i]) {
        assert Reads(c, fields[i + 1], members, es[i + 1]);
      }
      FromFieldsIs(c, fields[1..], members, es[1..]);
      assert Reads(c, fields[0], members, es[0]);
      assert es == [es[0]] + es[1..];
    }
  }

  /** The value at the field's position, printed under the field's type, reads as the value under the field's name. */
  ghost predicate ReadsAsOwn(c: Context, f: Field, e: ScMapEntry, es: seq<ScMapEntry>)
    requires c.host.Bounded()
  {
    var own: Option<ScVal>, printed := Lookup(es, Symbol(f.name)), XdrToJson(c, e.val, f.type_);
    printed.Ok? && Sound(printed.value) && own.Some? && FromJson(c, printed.value, f.type_) == Ok(own.value)
  }

  lemma {:induction false} FieldPrints(c: Context, f: Field, e: ScMapEntry, es: seq<ScMapEntry>)
    requires c.host.Bounded() && ReadsAsOwn(c, f, e, es)
    ensures PrintField(c, f, e).Ok? && Lookup(es, Symbol(f.name)).Some?
    ensures var m := PrintField(c, f, e).value;
            m.key == f.name && Sound(m.val) && FromJson(c, m.val, f.type_) == Ok(Lookup(es, Symbol(f.name)).value)
  {
    hide XdrToJson, FromJson, Lookup, Sound;
  }

  /** The entries under the declared names, in declaration order. */
  ghost predicate OwnEntries(fields: seq<Field>, es: seq<ScMapEntry>, own: seq<ScMapEntry>) {
    |own| == |fields| && forall p :: 0 <= p < |fields| ==>
      Matches(fields[p], own[p]) && Lookup(es, Symbol(fields[p].name)) == Some(own[p].val)
  }

  /** They are the entries in another order. */
  lemma {:induction false} OwnEntriesSort(fields: seq<Field>, es: seq<ScMapEntry>, own: seq<ScMapEntry>)
    requires DistinctNames(fields) && KeysAreFields(fields, es) && Ascending(Less, es) && OwnEntries(fields, es, own)
    ensures SortedFrom(Less, own) == Some(es)
  {
    EntriesSortBack(own, es);
    hide Less, SortedFrom, Ascending, Lookup;
    forall e ensures e in own <==> e in es {
      LookupSpec(es, e.key);
      if p :| 0 <= p < |own| && own[p] == e {
        assert Lookup(es, Symbol(fields[p].name)) == Some(e.val);
        assert Pair(e.key, e.val) in es;
      }
      if j :| 0 <= j < |es| && es[j] == e {
        assert HasName(fields, es[j].key);
        var p :| 0 <= p < |fields| && es[j].key == Symbol(fields[p].name);
        assert own[p] == e;
      }
    }
    forall p, q | 0 <= p < q < |own| ensures own[p].key != own[q].key { assert Matches(fields[p], own[p]) && Matches(fields[q], own[q]); }
  }

  lemma {:induction false} FieldsRead(c: Context, fields: seq<Field>, own: seq<ScMapEntry>, ms: seq<Member>)
    requires c.host.Bounded() && DistinctNames(fields) && |ms| == |fields| == |own|
    requires forall i :: 0 <= i < |fields| ==>
      && Matches(fields[i], own[i]) && |fields[i].name| <= MAX_SYMBOL && ms[i].key == fields[i].name
      && FromJson(c, ms[i].val, fields[i].type_) == Ok(own[i].val)
    ensures DistinctKeys(ms)
    ensures FromFields(c, fields, Collect(TextLess, ms)) == Ok(own)
  {
    hide FromJson, FromFields, TextLess, Collect, Lookup;
    ObjectKeeps(ms);
    var members := Collect(TextLess, ms);
    forall i | 0 <= i < |fields| ensures Reads(c, fields[i], members, own[i]) {
      LookupSpec(members, fields[i].name);
      assert ms[i] in members;
    }
    FromFieldsIs(c, fields, members, own);
  }

  /** A struct survives if the value at every position reads as the field's own. */
  lemma {:induction false} StructReads(c: Context, name: Text, fields: seq<Field>, es: seq<ScMapEntry>)
    requires c.host.Bounded() && Find(c.spec, name) == Some(Struct(name, fields)) && !IsTupleStruct(fields)
    requires DistinctNames(fields) && Ascending(Less, es) && KeysAreFields(fields, es) && |fields| == |es| <= U32_MAX
    requires forall i :: 0 <= i < |fields| ==> |fields[i].name| <= MAX_SYMBOL && Utf8(fields[i].name)
    requires forall i :: 0 <= i < |fields| ==> ReadsAsOwn(c, fields[i], es[i], es)
    ensures Survives(c, Map(es), TUdt(name))
  {
    hide Survives, Less, TextLess, PrintField, PrintFields, FromFields, Sound, Utf8, FromJson, Find, IsTupleStruct, ReadsAsOwn;
    hide KeysAreFields, DistinctNames, Ascending, Lookup, SortedFrom, Collect, Platform.Bounded;
    var own, ms := OwnPrinted(c, fields, es);
    PrintFieldsIs(c, fields, es, ms);
    FieldsRead(c, fields, own, ms);
    OwnEntriesSort(fields, es, own);
    assert ParseStruct(c, fields, Collect(TextLess, ms)) == Ok(Map(es));
    CollectSound(ms);
    PrintsStruct(c, name, fields, es, ms);
  }

  lemma {:induction false} OwnPrinted(c: Context, fields: seq<Field>, es: seq<ScMapEntry>) returns (own: seq<ScMapEntry>, ms: seq<Member>)
    requires c.host.Bounded() && |fields| == |es|
    requires forall i :: 0 <= i < |fields| ==> ReadsAsOwn(c, fields[i], es[i], es)
    ensures |ms| == |es| && OwnEntries(fields, es, own)
    ensures forall i :: 0 <= i < |ms| ==>
      && PrintField(c, fields[i], es[i]) == Ok(ms[i]) && ms[i].key == fields[i].name && Sound(ms[i].val)
      && FromJson(c, ms[i].val, fields[i].type_) == Ok(own[i].val)
  {
    hide PrintField, Sound, FromJson, ReadsAsOwn, Lookup, Platform.Bounded;
    forall i | 0 <= i < |es| ensures PrintField(c, fields[i], es[i]).Ok? && Lookup(es, Symbol(fields[i].name)).Some? {
      FieldPrints(c, fields[i], es[i], es);
    }
    ms := seq(|es|, i requires 0 <= i < |es| => PrintField(c, fields[i], es[i]).value);
    own := seq(|es|, i requires 0 <= i < |es| => Pair(Symbol(fields[i].name), Lookup(es, Symbol(fields[i].name)).value));
    forall i | 0 <= i < |ms|
      ensures ms[i].key == fields[i].name && Sound(ms[i].val) && FromJson(c, ms[i].val, fields[i].type_) == Ok(own[i].val)
    {
      FieldPrints(c, fields[i], es[i], es);
    }
  }

  lemma {:induction false} StructSurvives(c: Context, name: Text, fields: seq<Field>, es: seq<ScMapEntry>)
    requires c.host.Bounded() && Find(c.spec, name) == Some(Struct(name, fields)) && !IsTupleStruct(fields)
    requires FieldsAscend(fields) && Ascending(Less, es) && KeysAreFields(fields, es) && |fields| == |es| <= U32_MAX
    requires forall i :: 0 <= i < |es| ==>
      && Survives(c, es[i].val, fields[i].type_)
      && Matches(fields[i], es[i]) && |fields[i].name| <= MAX_SYMBOL && Utf8(fields[i].name)
    ensures Survives(c, Map(es), TUdt(name))
  {
    hide Less, Utf8, Find, IsTupleStruct, KeysAreFields, XdrToJson, FromJson, Sound, Lookup, Platform.Bounded;
    AscendingNamesDiffer(fields);
    EntriesSortBack(es, es);
    hide FieldsAscend, DistinctNames, Ascending;
    forall i | 0 <= i < |fields| ensures ReadsAsOwn(c, fields[i], es[i], es) {
      LookupSpec(es, Symbol(fields[i].name));
      assert es[i] in es;
    }
    StructReads(c, name, fields, es);
  }

  lemma {:induction false} AscendingNamesDiffer(fields: seq<Field>)
    requires FieldsAscend(fields)
    ensures DistinctNames(fields)
  {
    TextLessIsStrictOrder();
    hide TextLess;
  }

  lemma {:induction false} PrintsStruct(c: Context, name: Text, fields: seq<Field>, es: seq<ScMapEntry>, ms: seq<Member>)
    requires c.host.Bounded() && Sound(JObject(Collect(TextLess, ms)))
    requires Find(c.spec, name) == Some(Struct(name, fields)) && !IsTupleStruct(fields)
    requires PrintFields(c, fields, es) == Ok(ms)
    requires ParseStruct(c, fields, Collect(TextLess, ms)) == Ok(Map(es))
    ensures Survives(c, Map(es), TUdt(name))
  {
    hide PrintFields, ParseStruct, Sound, Collect, Survives, Find, IsTupleStruct;
    var j := JObject(Collect(TextLess, ms));
    assert UdtToJson(c, name, Map(es)) == Ok(j);
    assert ParseUdt(c, name, j) == Ok(Map(es));
    UdtByParts(c, Map(es), name, j);
  }

  // ----- Unions and enums -----

  lemma {:induction false} UnionByParts(c: Context, name: Text, cases: seq<UnionCase>, v: ScVal, j: Json)
    requires c.host.Bounded() && Find(c.spec, name) == Some(Union(name, cases)) && v.Vec?
    requires PrintUnion(c, cases, v) == Ok(j) && ParseUnion(c, cases, j) == Ok(v) && Sound(j) && !j.JNull?
    ensures Survives(c, v, TUdt(name))
  {
    hide PrintUnion, ParseUnion, Sound, Survives, Find;
    assert UdtToJson(c, name, v) == Ok(j);
    assert ParseUdt(c, name, j) == Ok(v);
    UdtByParts(c, v, name, j);
  }

  lemma {:induction false} VoidCaseSurvives(c: Context, name: Text, cases: seq<UnionCase>, tag: Text)
    requires c.host.Bounded() && Find(c.spec, name) == Some(Union(name, cases))
    requires FindCase(cases, tag) == Some(VoidCase(tag)) && |tag| <= MAX_SYMBOL && Utf8(tag)
    ensures Survives(c, Vec([Symbol(tag)]), TUdt(name))
  {
    hide Survives, Find, FindCase, Utf8;
    UnionByParts(c, name, cases, Vec([Symbol(tag)]), JString(tag));
  }

  /** The object a tuple case prints as, given how its payload prints and parses. */
  lemma {:induction false} TupleCaseByParts(c: Context, name: Text, cases: seq<UnionCase>, tag: Text, types: seq<ScType>,
                         payload: seq<ScVal>, j: Json)
    requires c.host.Bounded() && Find(c.spec, name) == Some(Union(name, cases))
    requires FindCase(cases, tag) == Some(TupleCase(tag, types)) && |tag| <= MAX_SYMBOL && Utf8(tag)
    requires Sound(j) && UnionPayload(j) == Some(j)
    requires PrintUnion(c, cases, Vec([Symbol(tag)] + payload)) == Ok(JObject([Pair(tag, j)]))
    requires ParsePayload(c, tag, TupleCase(tag, types), j) == Ok(Vec([Symbol(tag)] + payload))
    ensures Survives(c, Vec([Symbol(tag)] + payload), TUdt(name))
  {
    hide Survives, Find, FindCase, Utf8, PrintUnion, ParsePayload, UnionPayload;
    var o := JObject([Pair(tag, j)]);
    assert ParseUnion(c, cases, o) == Ok(Vec([Symbol(tag)] + payload));
    UnionByParts(c, name, cases, Vec([Symbol(tag)] + payload), o);
  }

  lemma {:induction false} SinglePayloadSurvives(c: Context, name: Text, cases: seq<UnionCase>, tag: Text, t: ScType, x: ScVal, j: Json)
    requires c.host.Bounded() && Find(c.spec, name) == Some(Union(name, cases))
    requires FindCase(cases, tag) == Some(TupleCase(tag, [t])) && |tag| <= MAX_SYMBOL && Utf8(tag)
    requires PrintsAndParses(c, x, t, j) && !LooksNumbered(j)
    ensures Survives(c, Vec([Symbol(tag), x]), TUdt(name))
  {
    hide Survives, Find, FindCase, Utf8, Sound, XdrToJson, FromJson;
    var v := Vec([Symbol(tag), x]);
    assert v.items[1..] == [x] && v.items == [Symbol(tag)] + [x];
    TupleCaseByParts(c, name, cases, tag, [t], [x], j);
  }

  lemma {:induction false} ManyPayloadSurvives(c: Context, name: Text, cases: seq<UnionCase>, tag: Text, types: seq<ScType>, payload: seq<ScVal>)
    requires c.host.Bounded() && Find(c.spec, name) == Some(Union(name, cases))
    requires FindCase(cases, tag) == Some(TupleCase(tag, types)) && |tag| <= MAX_SYMBOL && Utf8(tag)
    requires |types| == |payload| < U32_MAX && |types| > 1
    requires forall i :: 0 <= i < |types| ==> Survives(c, payload[i], types[i])
    ensures Survives(c, Vec([Symbol(tag)] + payload), TUdt(name))
  {
    hide Survives, Find, FindCase, Utf8, Sound, PrintZip, FromZip;
    var js := ZipSurvives(c, payload, types);
    var v := Vec([Symbol(tag)] + payload);
    assert v.items[1..] == payload;
    TupleCaseByParts(c, name, cases, tag, types, payload, JArray(js));
  }

  lemma {:induction false} EnumSurvives(c: Context, name: Text, values: seq<u32>, n: u32)
    requires c.host.Bounded() && Find(c.spec, name) == Some(Enum(name, values)) && n in values
    ensures Survives(c, U32(n), TUdt(name))
  {
    hide Survives, Find;
    assert UdtToJson(c, name, U32(n)) == Ok(JInt(n));
    assert ParseUdt(c, name, JInt(n)) == Ok(U32(n));
    UdtByParts(c, U32(n), name, JInt(n));
  }

  // ----- The induction over values -----

  lemma {:induction false} EachSurvives(c: Context, v: ScVal, from: nat, ts: seq<ScType>)
    requires c.host.Lawful() && v.Vec? && WellTypedZip(c, v, from, ts) && ReadableZip(c, v, from, ts)
    ensures forall i :: 0 <= i < |ts| ==> Survives(c, v.items[from + i], ts[i])
    decreases v, 0
  {
    forall i | 0 <= i < |ts| ensures Survives(c, v.items[from + i], ts[i]) {
      ValueSurvives(c, v.items[from + i], ts[i]);
    }
  }

  lemma {:induction false} ItemsSurvive(c: Context, v: ScVal, e: ScType)
    requires c.host.Lawful() && v.Vec? && |v.items| <= U32_MAX && WellTypedItems(c, v, e) && ReadableItems(c, v, e)
    ensures Survives(c, v, TVec(e))
    decreases v, 0
  {
    hide WellTyped, Readable, Survives;
    forall i | 0 <= i < |v.items| ensures Survives(c, v.items[i], e) { ValueSurvives(c, v.items[i], e); }
    VecSurvives(c, v.items, e);
  }

  lemma {:induction false} TupleItemsSurvive(c: Context, v: ScVal, ts: seq<ScType>)
    requires c.host.Lawful() && v.Vec? && |v.items| <= U32_MAX && WellTypedZip(c, v, 0, ts) && ReadableZip(c, v, 0, ts)
    ensures Survives(c, v, TTuple(ts))
    decreases v, 1
  {
    hide WellTyped, Readable, Survives;
    EachSurvives(c, v, 0, ts);
    assert forall i :: 0 <= i < |ts| ==> v.items[0 + i] == v.items[i];
    TupleSurvives(c, v.items, ts);
  }

  lemma {:induction false} EntriesSurvive(c: Context, v: ScVal, k: ScType, w: ScType)
    requires c.host.Lawful() && v.Map? && |v.entries| <= U32_MAX
    requires WellTypedEntries(c, v, k, w) && ReadableEntries(c, v, k, w)
    ensures Survives(c, v, TMap(k, w))
    decreases v, 0
  {
    forall i | 0 <= i < |v.entries|
      ensures Survives(c, v.entries[i].key, k) && ReadableKey(c, v.entries[i].key, k) && Survives(c, v.entries[i].val, w)
    {
      ValueSurvives(c, v.entries[i].key, k);
      ValueSurvives(c, v.entries[i].val, w);
    }
    hide WellTyped, Readable, Survives, ReadableKey, Less;
    MapSurvives(c, v.entries, k, w);
  }

  lemma {:induction false} FieldsSurvive(c: Context, v: ScVal, name: Text, fields: seq<Field>)
    requires c.host.Lawful() && v.Map? && |v.entries| <= U32_MAX
    requires Find(c.spec, name) == Some(Struct(name, fields)) && !IsTupleStruct(fields)
    requires WellTypedFields(c, v, fields) && ReadableFields(c, v, fields)
    ensures Survives(c, v, TUdt(name))
    decreases v, 0
  {
    hide WellTyped, Readable, Less, Find, IsTupleStruct, XdrToJson, FromJson, Utf8, FieldsAscend, KeysAreFields;
    FieldPositions(fields, v.entries);
    forall i | 0 <= i < |v.entries| ensures Survives(c, v.entries[i].val, fields[i].type_) {
      assert Matches(fields[i], v.entries[i]);
      ValueSurvives(c, v.entries[i].val, fields[i].type_);
    }
    StructSurvives(c, name, fields, v.entries);
  }

  lemma {:induction false} UnionSurvives(c: Context, v: ScVal, name: Text, cases: seq<UnionCase>)
    requires c.host.Lawful() && v.Vec? && |v.items| <= U32_MAX
    requires Find(c.spec, name) == Some(Union(name, cases))
    requires WellTypedUnion(c, v, cases) && ReadableUnion(c, v, cases)
    ensures Survives(c, v, TUdt(name))
    decreases v, 1
  {
    hide WellTyped, Readable, Find, FindCase, Utf8, XdrToJson, FromJson;
    var tag, payload := v.items[0].sym, v.items[1..];
    assert v.items == [Symbol(tag)] + payload;
    match FindCase(cases, tag)
    case Some(VoidCase(_)) =>
      assert v.items == [Symbol(tag)];
      VoidCaseSurvives(c, name, cases, tag);
    case Some(TupleCase(_, types)) =>
      EachSurvives(c, v, 1, types);
      if |types| == 1 {
        assert types == [types[0]] && v.items == [Symbol(tag), v.items[1]];
        assert Survives(c, v.items[1 + 0], types[0]);
        SinglePayloadSurvives(c, name, cases, tag, types[0], v.items[1], XdrToJson(c, v.items[1], types[0]).value);
      } else {
        assert forall i :: 0 <= i < |types| ==> payload[i] == v.items[1 + i];
        ManyPayloadSurvives(c, name, cases, tag, types, payload);
      }
  }

  lemma {:induction false} UdtSurvives(c: Context, v: ScVal, name: Text)
    requires c.host.Lawful() && WellTyped(c, v, TUdt(name)) && Readable(c, v, TUdt(name))
    ensures Survives(c, v, TUdt(name))
    decreases v, 2
  {
    hide Survives, XdrToJson, FromJson, Find, Platform.Lawful, Platform.Bounded;
    hide WellTypedFields, ReadableFields, WellTypedZip, ReadableZip, WellTypedUnion, ReadableUnion, FieldTypes, IsTupleStruct;
    match Find(c.spec, name)
    case Some(Struct(_, fields)) =>
      if IsTupleStruct(fields) {
        TupleStructSurvives(c, v, name, fields);
      } else {
        FieldsSurvive(c, v, name, fields);
      }
    case Some(Union(_, cases)) => UnionSurvives(c, v, name, cases);
    case Some(Enum(_, values)) => LawfulIsBounded(c.host); EnumSurvives(c, name, values, v.u32);
  }

  lemma {:induction false} LawfulIsBounded(host: Platform)
    requires host.Lawful()
    ensures host.Bounded()
  {
  }

  lemma {:induction false} TupleStructSurvives(c: Context, v: ScVal, name: Text, fields: seq<Field>)
    requires c.host.Lawful() && v.Vec? && |v.items| <= U32_MAX
    requires Find(c.spec, name) == Some(Struct(name, fields))
    requires WellTypedZip(c, v, 0, FieldTypes(fields)) && ReadableZip(c, v, 0, FieldTypes(fields))
    ensures Survives(c, v, TUdt(name))
    decreases v, 1
  {
    EachSurvives(c, v, 0, FieldTypes(fields));
    hide WellTyped, Readable, Survives, Find, FieldTypes;
    assert forall i :: 0 <= i < |fields| ==> v.items[0 + i] == v.items[i];
    TupleSurvives(c, v.items, FieldTypes(fields));
  }

  /**
   The round trip: for every specification, every well-typed value whose printed form is readable
   prints, and parses back under the same type to the value itself.
   */
  lemma {:induction false} ValueSurvives(c: Context, v: ScVal, t: ScType)
    requires c.host.Lawful()
    requires WellTyped(c, v, t) && Readable(c, v, t)
    ensures XdrToJson(c, v, t).Ok? && FromJson(c, XdrToJson(c, v, t).value, t) == Ok(v)
    ensures Survives(c, v, t)
    decreases v, 3 + Wraps(t)
  {
    if IsPrimitive(t) {
      PrimitivesSurvive(c, v, t);
      hide WellTyped, Readable, XdrToJson, FromJson;
    } else if t.TOption? {
      if v.Void? {
        VoidSurvives(c, t.inner);
      } else {
        ValueSurvives(c, v, t.inner);
        TypedIsPresent(c, v, t.inner);
        OptionSurvives(c, v, t.inner);
      }
      hide WellTyped, Readable, XdrToJson, FromJson;
    } else if t.TVec? {
      ItemsSurvive(c, v, t.element);
      hide WellTyped, Readable, XdrToJson, FromJson;
    } else if t.TTuple? {
      TupleItemsSurvive(c, v, t.types);
      hide WellTyped, Readable, XdrToJson, FromJson;
    } else if t.TMap? {
      EntriesSurvive(c, v, t.key, t.value);
      hide WellTyped, Readable, XdrToJson, FromJson;
    } else {
      assert t.TUdt?;
      UdtSurvives(c, v, t.name);
      hide WellTyped, Readable, XdrToJson, FromJson;
    }
  }

  lemma {:induction false} VoidSurvives(c: Context, t: ScType)
    requires c.host.Bounded()
    ensures Survives(c, Void, TOption(t))
  {
  }

  lemma {:induction false} TypedIsPresent(c: Context, v: ScVal, t: ScType)
    requires WellTyped(c, v, t)
    ensures !v.VecNone? && !v.MapNone?
    decreases Wraps(t)
  {
    if t.TOption? && !v.Void? { TypedIsPresent(c, v, t.inner); }
  }

  lemma {:induction false} OptionSurvives(c: Context, v: ScVal, t: ScType)
    requires c.host.Bounded() && Survives(c, v, t) && !v.Void? && !v.VecNone? && !v.MapNone?
    ensures Survives(c, v, TOption(t))
  {
    hide ScObjectToJson, ScalarToJson, FromJsonPrimitives, ParseMap, ParseUdt, ParseTuple, FromItems, Sound;
    var j := XdrToJson(c, v, t).value;
    assert XdrToJson(c, v, TOption(t)) == Ok(j);
    assert FromJson(c, j, TOption(t)) == Ok(v);
  }
}
