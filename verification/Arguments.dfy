/** Arguments as typed on the command line, and JSON inputs other than those the printer writes. */
module Arguments {
  import opened Wrappers
  import opened Octets
  import opened OrderedMap
  import opened ScValues
  import opened Json
  import opened SpecTypes
  import opened Codec
  import opened RoundTrip
  import opened Limits
  import opened ValueOrder
  import Decimal
  import Hex
  import Words

  // ----- Options -----

  /** Text other than "null" is read under the type inside the options; "null" is no value. */
  lemma {:induction false} OptionalArgument(c: Context, s: Text, k: ScType)
    requires c.host.Bounded()
    ensures s != NULL_TEXT ==> FromString(c, s, k) == FromString(c, s, StripOptions(k))
    ensures s == NULL_TEXT && k.TOption? ==> FromString(c, s, k) == Ok(Void)
  {
    hide FromJson;
    if k.TOption? { OptionalArgument(c, s, k.inner); }
  }

  // ----- Wide integers -----

  function Lowest(t: ScType): int
    requires IsBigInt(t)
  {
    match t
    case TU128 => 0
    case TI128 => -0x8000_0000_0000_0000_0000_0000_0000_0000
    case TU256 => 0
    case TI256 => -0x8000_0000_0000_0000_0000_0000_0000_0000_0000_0000_0000_0000_0000_0000_0000_0000
  }

  function Highest(t: ScType): int
    requires IsBigInt(t)
  {
    match t
    case TU128 => 0xFFFF_FFFF_FFFF_FFFF_FFFF_FFFF_FFFF_FFFF
    case TI128 => 0x7FFF_FFFF_FFFF_FFFF_FFFF_FFFF_FFFF_FFFF
    case TU256 => 0xFFFF_FFFF_FFFF_FFFF_FFFF_FFFF_FFFF_FFFF_FFFF_FFFF_FFFF_FFFF_FFFF_FFFF_FFFF_FFFF
    case TI256 => 0x7FFF_FFFF_FFFF_FFFF_FFFF_FFFF_FFFF_FFFF_FFFF_FFFF_FFFF_FFFF_FFFF_FFFF_FFFF_FFFF
  }

  predicate IsOfWide(v: ScVal, t: ScType) {
    match t
    case TU128 => v.U128?
    case TI128 => v.I128?
    case TU256 => v.U256?
    case TI256 => v.I256?
    case _ => false
  }

  lemma {:induction false} WideTextReads(c: Context, s: Text, t: ScType)
    requires c.host.Bounded() && IsBigInt(t)
    ensures FromString(c, s, t) == FromJsonPrimitives(c.host, JString(s), t)
    ensures FromJson(c, JString(s), t) == FromJsonPrimitives(c.host, JString(s), t)
  {
    hide FromJsonPrimitives;
    assert FromJson(c, JString(s), t) == FromJsonPrimitives(c.host, JString(s), t);
    hide FromJson;
  }

  lemma {:induction false} WideText(host: Platform, n: int, t: ScType)
    requires IsBigInt(t)
    ensures var r := FromJsonPrimitives(host, JString(Decimal.Show(n)), t);
            (r.Ok? <==> Lowest(t) <= n <= Highest(t)) && (r.Ok? ==> IsOfWide(r.value, t) && AsNumber(r.value) == Some(n))
  {
    hide Decimal.Show, Decimal.Parse, Decimal.ParsePrefixed;
    hide Words.SplitU128, Words.SplitI128, Words.SplitU256, Words.SplitI256;
    Decimal.ShowParsesExactly(n, Lowest(t), Highest(t));
    if Lowest(t) <= n <= Highest(t) {
      match t
      case TU128 => U128Reads(n);
      case TI128 => I128Reads(n);
      case TU256 => U256Reads(n);
      case TI256 => I256Reads(n);
    }
  }

  lemma {:induction false} U128Reads(n: int)
    requires 0 <= n <= Words.U128_MAX
    ensures var (hi, lo) := Words.SplitU128(n); hi * BASE64 + lo == n
  {
    Words.JoinSplitU128(n);
    var (hi, lo) := Words.SplitU128(n);
    Words.JoinPositional(hi, 0, 0, 0, lo);
    hide Words.SplitU128, Words.JoinU128;
  }

  lemma {:induction false} I128Reads(n: int)
    requires Words.I128_MIN <= n <= Words.I128_MAX
    ensures var (hi, lo) := Words.SplitI128(n); hi * BASE64 + lo == n
  {
    Words.JoinSplitI128(n);
    var (hi, lo) := Words.SplitI128(n);
    Words.JoinPositional(0, hi, 0, 0, lo);
    hide Words.SplitI128, Words.JoinI128;
  }

  lemma {:induction false} U256Reads(n: int)
    requires 0 <= n <= Words.U256_MAX
    ensures var (x, y, z, w) := Words.SplitU256(n); ((x * BASE64 + y) * BASE64 + z) * BASE64 + w == n
  {
    Words.JoinSplitU256(n);
    var (x, y, z, w) := Words.SplitU256(n);
    Words.JoinPositional(x, 0, y, z, w);
    hide Words.SplitU256, Words.JoinU256;
  }

  lemma {:induction false} I256Reads(n: int)
    requires Words.I256_MIN <= n <= Words.I256_MAX
    ensures var (x, y, z, w) := Words.SplitI256(n); ((x * BASE64 + y) * BASE64 + z) * BASE64 + w == n
  {
    Words.JoinSplitI256(n);
    var (x, y, z, w) := Words.SplitI256(n);
    Words.JoinPositional(0, x, y, z, w);
    hide Words.SplitI256, Words.JoinI256;
  }

  lemma {:induction false} ShowsNoNull(n: int)
    ensures Decimal.Show(n) != NULL_TEXT
  {
    var s := Decimal.Show(n);
    assert s[0] == 45 || 48 <= s[0] < 58 by { assert 48 <= Decimal.Digits(if n < 0 then -n else n)[0] < 58; hide Decimal.Digits; }
  }

  /**
   A decimal number typed as a 128- or 256-bit argument, optional or not, is read exactly when it is in
   range, and then as that number, whether or not the text is JSON; so is the number in quotes in JSON.
   */
  lemma {:induction false} WideArgument(c: Context, n: int, k: ScType)
    requires c.host.Bounded() && IsBigInt(StripOptions(k))
    ensures var r, t := FromString(c, Decimal.Show(n), k), StripOptions(k);
            (r.Ok? <==> Lowest(t) <= n <= Highest(t)) && (r.Ok? ==> IsOfWide(r.value, t) && AsNumber(r.value) == Some(n))
    ensures FromJson(c, JString(Decimal.Show(n)), k) == FromString(c, Decimal.Show(n), k)
  {
    hide FromString, FromJson, FromJsonPrimitives, Decimal.Show, Platform.Bounded;
    var s, t := Decimal.Show(n), StripOptions(k);
    ShowsNoNull(n);
    OptionalArgument(c, s, k);
    OptionsVanish(c, JString(s), k);
    WideTextReads(c, s, t);
    WideText(c.host, n, t);
  }

  // ----- Text that is no JSON -----

  lemma {:induction false} BareText(c: Context, s: Text, t: ScType)
    requires c.host.Bounded() && c.host.parse(s).None? && TakesBareText(t)
    ensures FromString(c, s, t) == FromJsonPrimitives(c.host, JString(s), t)
  {
    hide FromJsonPrimitives;
    assert FromJson(c, JString(s), t) == FromJsonPrimitives(c.host, JString(s), t);
    hide FromJson;
  }

  /** Text that is no JSON is a symbol if it has at most 32 bytes, and is a string. */
  lemma {:induction false} TextArgument(c: Context, s: Text)
    requires c.host.Bounded() && c.host.parse(s).None?
    ensures FromString(c, s, TSymbol) == if |s| <= 32 then Ok(Symbol(s)) else Err(InvalidValue)
    ensures |s| <= 0xFFFF_FFFF ==> FromString(c, s, TString) == Ok(String(s))
  {
    hide FromString, Platform.Bounded;
    BareText(c, s, TSymbol);
    BareText(c, s, TString);
  }

  /** A strkey is the address it stands for. */
  lemma {:induction false} AddressArgument(c: Context, a: ScAddress)
    requires c.host.Lawful() && c.host.parse(c.host.strkeyText(a)).None?
    ensures c.host.Bounded() && FromString(c, c.host.strkeyText(a), TAddress) == Ok(Address(a))
    ensures FromString(c, c.host.strkeyText(a), TBytesN(32)) == Ok(Address(a))
  {
    hide FromString, FromJson, Platform.Lawful, Platform.Bounded, AddressFromJson, Utf8;
    LawfulIsBounded(c.host);
    StrkeysReadBack(c.host, a);
    BareText(c, c.host.strkeyText(a), TAddress);
    BareText(c, c.host.strkeyText(a), TBytesN(32));
  }

  /** Whether the text reaches the hex parser as it is: it is no JSON, or a number that prints as it was typed. */
  predicate ReadAsTyped(host: Platform, s: Text) {
    match host.parse(s)
    case None => true
    case Some(j) => j.JNumber? && j.num.Display() == s
  }

  /** Hex digits are the bytes they stand for. */
  lemma {:induction false} BytesArgument(c: Context, b: seq<byte>)
    requires c.host.Lawful() && ReadAsTyped(c.host, Hex.LowerHex(b)) && |b| <= U32_MAX
    ensures c.host.Bounded() && FromString(c, Hex.LowerHex(b), TBytes) == Ok(Bytes(b))
    ensures FromString(c, Hex.LowerHex(b), TBytesN(|b|)) == Ok(Bytes(b))
  {
    LawfulIsBounded(c.host);
    HexReadsBack(c.host, b);
    hide Platform.Lawful, Platform.Bounded, Hex.LowerHex, BytesFromText, BytesNFromText, Utf8;
    var s := Hex.LowerHex(b);
    HexTextReads(c, s, TBytes);
    HexTextReads(c, s, TBytesN(|b|));
    hide FromString;
  }

  lemma {:induction false} HexTextReads(c: Context, s: Text, t: ScType)
    requires c.host.Bounded() && ReadAsTyped(c.host, s) && (t.TBytes? || t.TBytesN?)
    ensures FromString(c, s, t) == if t.TBytes? then BytesFromText(s) else BytesNFromText(c.host, s, t.n)
  {
    hide Platform.Bounded, BytesFromText, BytesNFromText;
    var j := match c.host.parse(s) case None => JString(s) case Some(j) => j;
    assert FromString(c, s, t) == FromJson(c, j, t);
    assert FromJson(c, j, t) == FromJsonPrimitives(c.host, j, t);
    hide FromString, FromJson;
  }

  /** The bare name of a union's case is that case without payload; an unknown name is refused. */
  lemma {:induction false} CaseArgument(c: Context, s: Text, name: Text, cases: seq<UnionCase>)
    requires c.host.Bounded() && c.host.parse(s).None? && Find(c.spec, name) == Some(Union(name, cases)) && |s| <= 32
    ensures FromString(c, s, TUdt(name)) ==
      if exists i :: 0 <= i < |cases| && cases[i].name == s then Ok(Vec([Symbol(s)])) else Err(EnumCase)
    ensures FromJson(c, JString(s), TUdt(name)) == FromString(c, s, TUdt(name))
  {
    hide Find, FindCase, Platform.Bounded;
    UdtParses(c, JString(s), name);
    assert FromString(c, s, TUdt(name)) == FromJson(c, JString(s), TUdt(name));
    hide FromString, FromJson;
    assert ParseUdt(c, name, JString(s)) == ParseUnion(c, cases, JString(s));
    var i := CaseIsFirst(cases, s);
  }

  /** Under any other type, text that is no JSON is refused. */
  lemma {:induction false} OtherTextFails(c: Context, s: Text, t: ScType)
    requires c.host.Bounded() && c.host.parse(s).None? && !t.TOption?
    requires !t.TSymbol? && !t.TString? && !t.TBytes? && !t.TBytesN? && !t.TAddress? && !IsBigInt(t)
    requires t.TUdt? ==> Find(c.spec, t.name).None? || Find(c.spec, t.name).value.Enum? || Find(c.spec, t.name).value.ErrorEnum?
    ensures FromString(c, s, t).Err?
  {
    hide FromJson, Find;
  }

  /** Text that is JSON is read as that JSON, except for wide integers. */
  lemma {:induction false} JsonArgument(c: Context, s: Text, j: Json, k: ScType)
    requires c.host.Bounded() && c.host.parse(s) == Some(j) && s != NULL_TEXT && !IsBigInt(StripOptions(k))
    ensures FromString(c, s, k) == FromJson(c, j, StripOptions(k))
  {
    TextOfNonNull(c, s, j, k);
  }

  // ----- Numbers, booleans and bytes in JSON -----

  /** The integers that the types of 32 and 64 bits take. */
  predicate Fits(n: int, t: ScType) {
    match t
    case TU32 => 0 <= n <= 0xFFFF_FFFF
    case TI32 => -0x8000_0000 <= n <= 0x7FFF_FFFF
    case TU64 => 0 <= n <= 0xFFFF_FFFF_FFFF_FFFF
    case TI64 => -0x8000_0000_0000_0000 <= n <= 0x7FFF_FFFF_FFFF_FFFF
    case _ => false
  }

  predicate IsOfNarrow(v: ScVal, t: ScType) {
    match t
    case TU32 => v.U32?
    case TI32 => v.I32?
    case TU64 => v.U64?
    case TI64 => v.I64?
    case _ => false
  }

  /** A JSON number is read exactly when it is an integer in range, and then as that integer. */
  lemma {:induction false} NumberReads(c: Context, num: JsonNumber, t: ScType)
    requires c.host.Bounded() && (t.TU32? || t.TI32? || t.TU64? || t.TI64?)
    ensures var r := FromJson(c, JNumber(num), t);
      && (r.Ok? <==> num.Int? && Fits(num.n, t))
      && (r.Ok? ==> IsOfNarrow(r.value, t) && AsNumber(r.value) == Some(num.n))
  {
    hide Platform.Bounded;
    assert FromJson(c, JNumber(num), t) == FromJsonPrimitives(c.host, JNumber(num), t);
    hide FromJson;
  }

  /** A constant of an enum is read exactly when it is declared. */
  lemma {:induction false} ConstantReads(c: Context, name: Text, values: seq<u32>, num: JsonNumber)
    requires c.host.Bounded() && Find(c.spec, name) == Some(Enum(name, values))
    ensures var r := FromJson(c, JNumber(num), TUdt(name));
      && (r.Ok? <==> num.Int? && num.n in values)
      && (r.Ok? ==> r.value == U32(num.n))
  {
    hide Platform.Bounded, Find;
    UdtParses(c, JNumber(num), name);
    hide FromJson;
  }

  /** An array is read as bytes exactly when all its items are integers below 256, and then as those, whatever the length. */
  lemma {:induction false} ByteArrayReads(c: Context, items: seq<Json>, t: ScType)
    requires c.host.Bounded() && (t.TBytes? || t.TBytesN?) && |items| <= U32_MAX
    ensures var r := FromJson(c, JArray(items), t);
      && (r.Ok? <==> forall i :: 0 <= i < |items| ==> IsByte(items[i]))
      && (r.Ok? ==>
            && r.value.Bytes? && |r.value.bytes| == |items|
            && forall i :: 0 <= i < |items| ==> items[i] == JInt(r.value.bytes[i]))
  {
    hide Platform.Bounded;
    assert FromJson(c, JArray(items), t) == FromJsonPrimitives(c.host, JArray(items), t) == BytesFromItems(items);
    hide FromJson, FromJsonPrimitives, ByteItems;
    ItemsAreBytes(items);
  }

  predicate IsByte(j: Json) { j.JNumber? && j.num.Int? && 0 <= j.num.n < 256 }

  lemma {:induction false} ItemsAreBytes(items: seq<Json>)
    ensures ByteItems(items).Ok? <==> forall i :: 0 <= i < |items| ==> IsByte(items[i])
    ensures ByteItems(items).Ok? ==>
      && |ByteItems(items).value| == |items|
      && forall i :: 0 <= i < |items| ==> items[i] == JInt(ByteItems(items).value[i])
  {
    if items != [] {
      var rest := items[1..];
      ItemsAreBytes(rest);
      assert forall i :: 1 <= i < |items| ==> items[i] == rest[i - 1];
      assert forall i :: 0 <= i < |rest| ==> rest[i] == items[i + 1];
      if ByteItems(items).Ok? {
        assert ByteItems(items).value == [items[0].num.n] + ByteItems(rest).value;
      }
    }
  }

  /** Hex text for a fixed number of bytes may leave out leading digits; the bytes have the digits' value. */
  lemma {:induction false} PaddedBytesRead(c: Context, s: Text, n: u32)
    requires c.host.Bounded() && c.host.parseStrkey(s).None?
    ensures var r := FromJson(c, JString(s), TBytesN(n));
      && (r.Ok? <==> |s| <= 2 * n && Hex.AllHex(s))
      && (r.Ok? ==> r.value.Bytes? && |r.value.bytes| == n && BeValue(r.value.bytes) == Hex.HexValue(s))
  {
    hide Platform.Bounded, Hex.HexValue, BeValue, BeBytes, Hex.AllHex;
    assert FromJson(c, JString(s), TBytesN(n)) == FromJsonPrimitives(c.host, JString(s), TBytesN(n)) == BytesNFromText(c.host, s, n);
    hide FromJson, FromJsonPrimitives;
    if |s| <= 2 * n && Hex.AllHex(s) { Hex.PaddedHexValue(s, n); }
  }

  // ----- Lists -----

  /** Items are read one by one: all of them, or none. */
  lemma {:induction false} ItemsReadExactly(c: Context, items: seq<Json>, t: ScType)
    requires c.host.Bounded()
    ensures FromItems(c, items, t).Ok? <==> forall i :: 0 <= i < |items| ==> FromJson(c, items[i], t).Ok?
    ensures FromItems(c, items, t).Ok? ==>
      && |FromItems(c, items, t).value| == |items|
      && forall i :: 0 <= i < |items| ==> FromJson(c, items[i], t) == Ok(FromItems(c, items, t).value[i])
  {
    hide FromJson, Platform.Bounded;
    if items != [] {
      var rest := items[1..];
      ItemsReadExactly(c, rest, t);
      assert forall i :: 1 <= i < |items| ==> items[i] == rest[i - 1];
      assert forall i :: 0 <= i < |rest| ==> rest[i] == items[i + 1];
    }
  }

  /** A vector is read exactly when all its items are. */
  lemma {:induction false} VecReads(c: Context, items: seq<Json>, e: ScType)
    requires c.host.Bounded() && |items| <= U32_MAX
    ensures var r := FromJson(c, JArray(items), TVec(e));
      && (r.Ok? <==> forall i :: 0 <= i < |items| ==> FromJson(c, items[i], e).Ok?)
      && (r.Ok? ==>
            && r.value.Vec? && |r.value.items| == |items|
            && forall i :: 0 <= i < |items| ==> FromJson(c, items[i], e) == Ok(r.value.items[i]))
  {
    hide Platform.Bounded, FromItems;
    assert FromJson(c, JArray(items), TVec(e)) == match FromItems(c, items, e) case Ok(vs) => AsVec(vs) case Err(x) => Err(x);
    hide FromJson;
    ItemsReadExactly(c, items, e);
  }

  function Shorter(m: nat, n: nat): nat { if m < n then m else n }

  /** Read under a list of types, the longer of the two lists is cut. */
  lemma {:induction false} ZipReadsExactly(c: Context, items: seq<Json>, ts: seq<ScType>)
    requires c.host.Bounded()
    ensures var n, r := Shorter(|items|, |ts|), FromZip(c, items, ts);
      && (r.Ok? <==> forall i :: 0 <= i < n ==> FromJson(c, items[i], ts[i]).Ok?)
      && (r.Ok? ==> |r.value| == n && forall i :: 0 <= i < n ==> FromJson(c, items[i], ts[i]) == Ok(r.value[i]))
  {
    hide FromJson, Platform.Bounded;
    if items != [] && ts != [] {
      var rest, us := items[1..], ts[1..];
      ZipReadsExactly(c, rest, us);
      var n := Shorter(|rest|, |us|);
      assert forall i :: 1 <= i < n + 1 ==> items[i] == rest[i - 1] && ts[i] == us[i - 1];
      assert forall i :: 0 <= i < n ==> rest[i] == items[i + 1] && us[i] == ts[i + 1];
    }
  }

  /** A tuple is read exactly when it has as many items as types and all are read. */
  lemma {:induction false} TupleReads(c: Context, ts: seq<ScType>, items: seq<Json>)
    requires c.host.Bounded() && |items| <= U32_MAX
    ensures var r := FromJson(c, JArray(items), TTuple(ts));
      && (r.Ok? <==> |items| == |ts| && forall i :: 0 <= i < |ts| ==> FromJson(c, items[i], ts[i]).Ok?)
      && (r.Ok? ==>
            && r.value.Vec? && |r.value.items| == |ts|
            && forall i :: 0 <= i < |ts| ==> FromJson(c, items[i], ts[i]) == Ok(r.value.items[i]))
  {
    hide Platform.Bounded, FromZip;
    assert FromJson(c, JArray(items), TTuple(ts)) == ParseTuple(c, ts, items);
    hide FromJson;
    ZipReadsExactly(c, items, ts);
  }

  /** A tuple struct takes a list or an object numbered from "0"; missing items are left out, surplus ones dropped. */
  lemma {:induction false} TupleStructReads(c: Context, name: Text, fields: seq<Field>, items: seq<Json>)
    requires c.host.Bounded() && Find(c.spec, name) == Some(Struct(name, fields)) && |items| <= U32_MAX
    ensures var n, r := Shorter(|items|, |fields|), FromJson(c, JArray(items), TUdt(name));
      && (r.Ok? <==> forall i :: 0 <= i < n ==> FromJson(c, items[i], fields[i].type_).Ok?)
      && (r.Ok? ==>
            && r.value.Vec? && |r.value.items| == n
            && forall i :: 0 <= i < n ==> FromJson(c, items[i], fields[i].type_) == Ok(r.value.items[i]))
    ensures forall members :: IsTupleStruct(fields) && Positional(members, |members|) == Some(items) ==>
      FromJson(c, JObject(members), TUdt(name)) == FromJson(c, JArray(items), TUdt(name))
  {
    hide Platform.Bounded, Find, FromZip, FieldTypes, Positional, IsTupleStruct;
    UdtParses(c, JArray(items), name);
    forall members | IsTupleStruct(fields) && Positional(members, |members|) == Some(items)
      ensures FromJson(c, JObject(members), TUdt(name)) == FromJson(c, JArray(items), TUdt(name))
    {
      UdtParses(c, JObject(members), name);
      hide FromJson;
    }
    hide FromJson;
    ZipReadsExactly(c, items, FieldTypes(fields));
  }

  /** The object form of a union: a void case drops the payload, one type takes it whole, several take a list. */
  lemma {:induction false} UnionObjectReads(c: Context, name: Text, cases: seq<UnionCase>, tag: Text, payload: Json)
    requires c.host.Bounded() && Find(c.spec, name) == Some(Union(name, cases)) && |tag| <= 32
    requires UnionPayload(payload) == Some(payload)
    ensures var r := FromJson(c, JObject([Pair(tag, payload)]), TUdt(name));
      match FindCase(cases, tag)
      case None => r == Err(EnumCase)
      case Some(VoidCase(_)) => r == Ok(Vec([Symbol(tag)]))
      case Some(TupleCase(_, types)) =>
        && (|types| == 1 ==>
              && (r.Ok? <==> FromJson(c, payload, types[0]).Ok?)
              && (r.Ok? ==> r.value == Vec([Symbol(tag), FromJson(c, payload, types[0]).value])))
        && (|types| != 1 && !payload.JArray? ==> r == Ok(Vec([Symbol(tag)])))
        && (|types| != 1 && payload.JArray? && FromZip(c, payload.items, types).Err? ==> r.Err?)
        && (|types| != 1 && payload.JArray? && FromZip(c, payload.items, types).Ok? && |types| < U32_MAX ==>
              r == Ok(Vec([Symbol(tag)] + FromZip(c, payload.items, types).value)))
  {
    hide Platform.Bounded, Find, FindCase, UnionPayload, FromZip;
    var o := JObject([Pair(tag, payload)]);
    UdtParses(c, o, name);
    if FindCase(cases, tag).Some? && FindCase(cases, tag).value.TupleCase? && payload.JArray? {
      ZipReadsExactly(c, payload.items, FindCase(cases, tag).value.types);
    }
    hide FromJson;
    assert ParseUdt(c, name, o) == ParseUnion(c, cases, o);
    match FindCase(cases, tag)
    case None =>
    case Some(case_) => assert ParseUnion(c, cases, o) == ParsePayload(c, tag, case_, payload);
  }

  /** A form that a type has no arm for is left to serde. */
  lemma {:induction false} OtherFormsFallBack(c: Context, j: Json, t: ScType)
    requires c.host.Bounded()
    requires match t
      case TVec(_) => !j.JArray?
      case TTuple(_) => !j.JArray?
      case TMap(_, _) => !j.JObject?
      case TVal | TVoid | TError | TTimepoint | TDuration | TResult(_, _) => true
      case TBool => !j.JBool?
      case TU32 | TI32 | TU64 | TI64 => !j.JNumber?
      case TU128 | TI128 | TU256 | TI256 | TSymbol | TString | TAddress => !j.JString?
      case TBytes | TBytesN(_) => !j.JNumber? && !j.JString? && !j.JArray?
      case _ => false
    ensures FromJson(c, j, t) == match c.host.deserialize(j) case Some(v) => Ok(v) case None => Err(Serde)
  {
    hide Platform.Bounded;
  }

  /** Printing a list fails exactly when an item fails, and keeps the order. */
  lemma {:induction false} ItemsPrintExactly(c: Context, vs: seq<ScVal>, t: ScType)
    ensures PrintItems(c, vs, t).Ok? <==> forall i :: 0 <= i < |vs| ==> XdrToJson(c, vs[i], t).Ok?
    ensures PrintItems(c, vs, t).Ok? ==>
      && |PrintItems(c, vs, t).value| == |vs|
      && forall i :: 0 <= i < |vs| ==> XdrToJson(c, vs[i], t) == Ok(PrintItems(c, vs, t).value[i])
  {
    hide XdrToJson;
    if vs != [] {
      var rest := vs[1..];
      ItemsPrintExactly(c, rest, t);
      assert forall i :: 1 <= i < |vs| ==> vs[i] == rest[i - 1];
      assert forall i :: 0 <= i < |rest| ==> rest[i] == vs[i + 1];
    }
  }

  lemma {:induction false} ValuesPrintExactly(host: Platform, vs: seq<ScVal>)
    ensures ToJsonAll(host, vs).Ok? <==> forall i :: 0 <= i < |vs| ==> ToJson(host, vs[i]).Ok?
    ensures ToJsonAll(host, vs).Ok? ==>
      && |ToJsonAll(host, vs).value| == |vs|
      && forall i :: 0 <= i < |vs| ==> ToJson(host, vs[i]) == Ok(ToJsonAll(host, vs).value[i])
  {
    hide ToJson;
    if vs != [] {
      var rest := vs[1..];
      ValuesPrintExactly(host, rest);
      assert forall i :: 1 <= i < |vs| ==> vs[i] == rest[i - 1];
      assert forall i :: 0 <= i < |rest| ==> rest[i] == vs[i + 1];
    }
  }

  // ----- Shapes -----

  /** A struct without the member of one of its fields is refused. */
  lemma {:induction false} MissingFieldFails(c: Context, name: Text, fields: seq<Field>, members: seq<Member>, p: nat)
    requires c.host.Bounded() && Find(c.spec, name) == Some(Struct(name, fields)) && !IsTupleStruct(fields)
    requires p < |fields| && Get(members, fields[p].name).None?
    ensures FromJson(c, JObject(members), TUdt(name)).Err?
  {
    hide Platform.Bounded, Find, IsTupleStruct, FromFields, Get;
    UdtParses(c, JObject(members), name);
    hide FromJson;
    assert ParseUdt(c, name, JObject(members)) == ParseStruct(c, fields, members);
    NoFieldRead(c, fields, members, p);
  }

  lemma {:induction false} NoFieldRead(c: Context, fields: seq<Field>, members: seq<Member>, p: nat)
    requires c.host.Bounded() && p < |fields| && Get(members, fields[p].name).None?
    ensures FromFields(c, fields, members).Err?
  {
    hide FromJson, Get;
    if p > 0 { NoFieldRead(c, fields[1..], members, p - 1); }
  }

  // ----- Printing what is not read back -----

  /** The variant that a primitive type prints. */
  predicate IsOf(v: ScVal, t: ScType) {
    match t
    case TBool => v.Bool?
    case TU32 => v.U32?
    case TI32 => v.I32?
    case TU64 => v.U64?
    case TI64 => v.I64?
    case TU128 => v.U128?
    case TI128 => v.I128?
    case TU256 => v.U256?
    case TI256 => v.I256?
    case TString => v.String?
    case TSymbol => v.Symbol?
    case TAddress => v.Address?
    case TBytes => v.Bytes?
    case TBytesN(_) => v.Bytes?
    case _ => false
  }

  /** Under a primitive type exactly the values of its variant print, texts if they are UTF-8, and ledger keys. */
  lemma {:induction false} PrimitivePrintsExactly(c: Context, v: ScVal, t: ScType)
    requires IsPrimitive(t)
    ensures XdrToJson(c, v, t).Ok? <==>
      || v.LedgerKeyContractInstance? || v.LedgerKeyNonce?
      || (IsOf(v, t) && (v.String? ==> Utf8(v.str)) && (v.Symbol? ==> Utf8(v.sym)))
  {
    hide ScObjectToJson, Utf8, Decimal.Show;
    if v.Map? || v.Vec? || v.U32? { NoPrimitiveObject(c, v, t); }
  }

  /** A result prints as its value does under the ok type; times and nonces print as their number. */
  lemma {:induction false} ResultPrints(c: Context, v: ScVal, ok: ScType, err: ScType)
    ensures XdrToJson(c, v, TResult(ok, err)) == XdrToJson(c, v, ok)
  {
    hide ScObjectToJson, ScalarToJson;
    if v.LedgerKeyContractInstance? || v.LedgerKeyNonce? { KeyPrintsAnywhere(c, v, ok); }
  }

  /** Nothing prints as null: void under an option, a tuple, Val and Void, and absent payloads under an option. */
  lemma {:induction false} NullPrints(c: Context, t: ScType, ts: seq<ScType>)
    ensures XdrToJson(c, Void, TOption(t)) == XdrToJson(c, Void, TTuple(ts)) == XdrToJson(c, Void, TVal) == XdrToJson(c, Void, TVoid) == Ok(JNull)
    ensures XdrToJson(c, VecNone, TOption(t)) == XdrToJson(c, MapNone, TOption(t)) == Ok(JNull)
  {
  }

  /** The key of a contract's instance prints as its name under every type. */
  lemma {:induction false} InstancePrints(c: Context, t: ScType)
    ensures XdrToJson(c, LedgerKeyContractInstance, t) == Ok(JString(Spell("LedgerKeyContractInstance")))
    ensures ToText(c.host, LedgerKeyContractInstance) == Ok(Spell("LedgerKeyContractInstance"))
  {
    InstanceName();
    hide Spell;
    KeyPrintsAnywhere(c, LedgerKeyContractInstance, t);
    hide XdrToJson;
  }

  lemma {:induction false} InstanceName()
    ensures INSTANCE_TEXT == Spell("LedgerKeyContractInstance")
  {
    hide Spell;
  }

  /** A union value prints only with a known case first, and a tuple case only with a payload. */
  lemma {:induction false} UnionPrintFails(c: Context, name: Text, cases: seq<UnionCase>, items: seq<ScVal>)
    requires Find(c.spec, name) == Some(Union(name, cases))
    requires items == [] || !items[0].Symbol? || FindCase(cases, items[0].sym).None?
      || (FindCase(cases, items[0].sym).value.TupleCase? && |items| == 1)
    ensures XdrToJson(c, Vec(items), TUdt(name)).Err?
  {
    hide Find, FindCase, PrintZip;
    assert UdtToJson(c, name, Vec(items)) == PrintUnion(c, cases, Vec(items));
    assert XdrToJson(c, Vec(items), TUdt(name)) == ScObjectToJson(c, Vec(items), TUdt(name)) == UdtToJson(c, name, Vec(items));
  }

  /** A text that is no strkey of an account or a contract is no address. */
  lemma {:induction false} OtherStrkeyFails(c: Context, s: Text)
    requires c.host.Bounded() && (c.host.parseStrkey(s).None? || c.host.parseStrkey(s).value.KeyOther?)
    ensures FromJson(c, JString(s), TAddress) == Err(InvalidValue)
  {
    hide Platform.Bounded;
    assert FromJson(c, JString(s), TAddress) == FromJsonPrimitives(c.host, JString(s), TAddress);
    hide FromJson;
  }

  lemma {:induction false} KeyPrintsAnywhere(c: Context, v: ScVal, t: ScType)
    requires v.LedgerKeyContractInstance? || v.LedgerKeyNonce?
    ensures XdrToJson(c, v, t) == ScalarToJson(c.host, v)
  {
    hide ScalarToJson;
  }

  lemma {:induction false} TimesPrint(c: Context, n: u64, m: i64, t: ScType)
    ensures XdrToJson(c, Timepoint(n), TTimepoint) == Ok(JNumber(Int(n)))
    ensures XdrToJson(c, Duration(n), TDuration) == Ok(JNumber(Int(n)))
    ensures XdrToJson(c, LedgerKeyNonce(m), t) == Ok(JNumber(Int(m)))
    ensures ToJson(c.host, Timepoint(n)) == ToJson(c.host, Duration(n)) == Ok(JNumber(Int(n)))
    ensures ToJson(c.host, LedgerKeyNonce(m)) == Ok(JNumber(Int(m)))
  {
  }

  /** Schema-free printing of absent payloads and of a map keyed by symbols: members are named by the bare symbols. */
  lemma {:induction false} AbsentPrints(c: Context)
    ensures ToJson(c.host, VecNone) == Ok(JArray([])) && ToJson(c.host, MapNone) == Ok(JObject([])) && ToJson(c.host, Void) == Ok(JNull)
  {
  }

  lemma {:induction false} SymbolMapPrints(host: Platform, es: seq<ScMapEntry>, ms: seq<Member>, p: nat)
    requires Ascending(Less, es) && ToJsonEntries(host, es) == Ok(ms) && p < |es|
    requires forall i :: 0 <= i < |es| ==> es[i].key.Symbol?
    ensures ToJson(host, Map(es)).Ok? && ToJson(host, Map(es)).value.JObject?
    ensures ToJson(host, es[p].val).Ok? && Get(ToJson(host, Map(es)).value.members, es[p].key.sym) == Some(ToJson(host, es[p].val).value)
  {
    assert ToJson(host, Map(es)) == Ok(JObject(Collect(TextLess, ms)));
    hide ToJson, ToJsonEntries, Less, Collect, TextLess, Lookup, ToText;
    forall i | 0 <= i < |es| ensures |ms| == |es| && ms[i].key == es[i].key.sym && ToJson(host, es[i].val) == Ok(ms[i].val) {
      SymbolMember(host, es, ms, i);
    }
    EntriesSortBack(es, es);
    hide Ascending;
    forall i, j | 0 <= i < j < |ms| ensures ms[i].key != ms[j].key { assert es[i].key != es[j].key; }
    ObjectKeeps(ms);
    LookupSpec(Collect(TextLess, ms), ms[p].key);
    assert ms[p] in Collect(TextLess, ms);
  }

  lemma {:induction false} SymbolMember(host: Platform, es: seq<ScMapEntry>, ms: seq<Member>, i: nat)
    requires ToJsonEntries(host, es) == Ok(ms) && i < |es| && es[i].key.Symbol?
    ensures |ms| == |es| && ms[i].key == es[i].key.sym && ToJson(host, es[i].val) == Ok(ms[i].val)
  {
    hide ToJson;
    EntriesLength(host, es, ms);
    assert ToJsonEntry(host, es[0]) == Ok(ms[0]) && ToJsonEntries(host, es[1..]) == Ok(ms[1..]);
    if i > 0 {
      SymbolMember(host, es[1..], ms[1..], i - 1);
    } else {
      assert ToText(host, es[0].key) == Utf8Text(es[0].key.sym);
    }
  }

  lemma {:induction false} EntriesLength(host: Platform, es: seq<ScMapEntry>, ms: seq<Member>)
    requires ToJsonEntries(host, es) == Ok(ms)
    ensures |ms| == |es|
  {
    hide ToJson, ToText;
    if es != [] { EntriesLength(host, es[1..], ms[1..]); }
  }
}
