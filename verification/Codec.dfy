/**
 The schema-directed codec between JSON and contract values: `from_string`, `from_json` and the
 `parse_*` functions in one direction, `xdr_to_json` and its helpers in the other, and the
 schema-free `to_json`.
 */
module Codec {
  import opened Wrappers
  import opened Octets
  import opened OrderedMap
  import opened ScValues
  import opened Json
  import opened SpecTypes
  import Decimal
  import Hex
  import Words

  const MAX_SYMBOL: nat := 32
  /** `serde_json` refuses text that nests arrays and objects more deeply than this. */
  const MAX_JSON_DEPTH: nat := 127

  const QUOTE: byte := 34

  datatype Error =
    | InvalidPair | InvalidValue | EnumCase | EnumMissingSecondValue | IllFormedEnum
    | EnumConst | EnumConstTooLarge | MissingEntry | Xdr | Serde | Ethnum | MissingKey
    | FailedNumConversion | EnumFirstValueNotSymbol | FailedToFindEnumCase
    | Panic  // `todo!`, or `unwrap` of a missing value

  type Res<+T> = Result<T, Error>

  datatype Strkey = KeyAccount(key: Bytes32) | KeyContract(hash: Bytes32) | KeyOther

  /** The foreign functions the codec calls: strkeys, JSON text, and serde's own reading of a value. */
  datatype Platform = Platform(
    strkeyText: ScAddress -> Text,
    parseStrkey: Text -> Option<Strkey>,
    show: Json -> Text,
    parse: Text -> Option<Json>,
    deserialize: Json -> Option<ScVal>)
  {
    /** Parsing text cannot yield a value larger than the text. */
    ghost predicate Bounded() {
      forall s :: parse(s).Some? ==> Height(parse(s).value) <= |s|
    }

    /**
     Strkeys (SEP-23) and JSON text (RFC 8259) read back what they print; JSON text that nests too deeply
     is refused. Text is no shorter than the value is high.
     */
    ghost predicate Lawful() {
      && Bounded()
      && (forall a {:trigger strkeyText(a)} :: parseStrkey(strkeyText(a)) == Some(AsStrkey(a)) && Utf8(strkeyText(a)))
      && (forall s {:trigger parseStrkey(s)} :: |s| == 64 && Hex.AllLowerHex(s) ==> parseStrkey(s).None?)
      && (forall j {:trigger show(j)} :: Sound(j) ==> Utf8(show(j)))
      && (forall j {:trigger show(j)} :: Sound(j) && Depth(j) <= MAX_JSON_DEPTH ==> parse(show(j)) == Some(j))
      && (forall j {:trigger show(j)} :: Sound(j) && Depth(j) > MAX_JSON_DEPTH ==> parse(show(j)).None?)
      && (forall j {:trigger show(j)} :: Sound(j) ==> Height(j) <= |show(j)|)
      && (forall s {:trigger show(JString(s))} :: Utf8(s) ==> show(JString(s)) != [] && show(JString(s))[0] == QUOTE)
      && show(JNull) == NULL_TEXT
    }
  }

  function AsStrkey(a: ScAddress): Strkey {
    match a
    case Account(k) => KeyAccount(k)
    case Contract(h) => KeyContract(h)
  }

  datatype Context = Context(spec: seq<SpecEntry>, host: Platform)

  // ----- JSON to values -----

  function AddressFromJson(host: Platform, s: Text): Res<ScVal> {
    match host.parseStrkey(s)
    case Some(KeyAccount(k)) => Ok(Address(Account(k)))
    case Some(KeyContract(h)) => Ok(Address(Contract(h)))
    case _ => Err(InvalidValue)
  }

  function Fallback(host: Platform, j: Json): Res<ScVal> {
    match host.deserialize(j)
    case Some(v) => Ok(v)
    case None => Err(Serde)
  }

  function ByteItems(items: seq<Json>): Res<seq<byte>> {
    if items == [] then Ok([])
    else if !items[0].JNumber? then Err(InvalidValue)
    else
      match items[0].num.AsU64()
      case None => Err(InvalidValue)
      case Some(n) =>
        if n >= 256 then Err(InvalidValue)
        else var rest :- ByteItems(items[1..]); Ok([n] + rest)
  }

  /** An integer parsed from text, if any, in the words of its type. */
  function U128FromText(s: Text): Res<ScVal> {
    match Decimal.Parse(s, 0, Words.U128_MAX)
    case None => Err(InvalidValue)
    case Some(n) => var (hi, lo) := Words.SplitU128(n); Ok(U128(hi, lo))
  }

  function I128FromText(s: Text): Res<ScVal> {
    match Decimal.Parse(s, Words.I128_MIN, Words.I128_MAX)
    case None => Err(InvalidValue)
    case Some(n) => var (hi, lo) := Words.SplitI128(n); Ok(I128(hi, lo))
  }

  function U256FromText(s: Text): Res<ScVal> {
    match Decimal.ParsePrefixed(s, 0, Words.U256_MAX)
    case None => Err(Ethnum)
    case Some(n) => var (a, b, c, d) := Words.SplitU256(n); Ok(U256(a, b, c, d))
  }

  function I256FromText(s: Text): Res<ScVal> {
    match Decimal.ParsePrefixed(s, Words.I256_MIN, Words.I256_MAX)
    case None => Err(Ethnum)
    case Some(n) => var (a, b, c, d) := Words.SplitI256(n); Ok(I256(a, b, c, d))
  }

  function U32FromJson(num: JsonNumber): Res<ScVal> {
    match num.AsU64()
    case Some(n) => if n < 0x1_0000_0000 then Ok(U32(n)) else Err(InvalidValue)
    case None => Err(InvalidValue)
  }

  function I32FromJson(num: JsonNumber): Res<ScVal> {
    match num.AsI64()
    case Some(n) => if -0x8000_0000 <= n < 0x8000_0000 then Ok(I32(n)) else Err(InvalidValue)
    case None => Err(InvalidValue)
  }

  function I64FromJson(num: JsonNumber): Res<ScVal> {
    match num.AsI64()
    case Some(n) => Ok(I64(n))
    case None => Err(InvalidValue)
  }

  function BytesFromText(s: Text): Res<ScVal> {
    match Hex.Decode(s)
    case Some(b) => if |b| <= U32_MAX then Ok(Bytes(b)) else Err(InvalidValue)
    case None => Err(InvalidValue)
  }

  /** 32 bytes may be written as a strkey, which yields an address. */
  function BytesNFromText(host: Platform, s: Text, n: u32): Res<ScVal> {
    if n == 32 && AddressFromJson(host, s).Ok? then AddressFromJson(host, s)
    else
      match Hex.PaddedHex(s, n)
      case Some(b) => Ok(Bytes(b))
      case None => Err(InvalidValue)
  }

  function BytesFromItems(items: seq<Json>): Res<ScVal> {
    var b :- ByteItems(items);
    if |b| <= U32_MAX then Ok(Bytes(b)) else Err(Xdr)
  }

  /** `from_json_primitives`; a number given for bytes is read as its decimal text. */
  function FromJsonPrimitives(host: Platform, j: Json, t: ScType): Res<ScVal> {
    match t
    case TBool => if j.JBool? then Ok(Bool(j.b)) else Fallback(host, j)
    case TU128 => if j.JString? then U128FromText(j.s) else Fallback(host, j)
    case TI128 => if j.JString? then I128FromText(j.s) else Fallback(host, j)
    case TU256 => if j.JString? then U256FromText(j.s) else Fallback(host, j)
    case TI256 => if j.JString? then I256FromText(j.s) else Fallback(host, j)
    case TI32 => if j.JNumber? then I32FromJson(j.num) else Fallback(host, j)
    case TU32 => if j.JNumber? then U32FromJson(j.num) else Fallback(host, j)
    case TI64 => if j.JNumber? then I64FromJson(j.num) else Fallback(host, j)
    case TU64 => if j.JNumber? then U64FromJson(j.num) else Fallback(host, j)
    case TTimepoint => if j.JNumber? then U64FromJson(j.num) else Fallback(host, j)
    case TDuration => if j.JNumber? then U64FromJson(j.num) else Fallback(host, j)
    case TSymbol =>
      if !j.JString? then Fallback(host, j)
      else if |j.s| <= MAX_SYMBOL then Ok(Symbol(j.s)) else Err(InvalidValue)
    case TString =>
      if !j.JString? then Fallback(host, j)
      else if |j.s| <= U32_MAX then Ok(String(j.s)) else Err(InvalidValue)
    case TAddress => if j.JString? then AddressFromJson(host, j.s) else Fallback(host, j)
    case TBytesN(n) =>
      if j.JNumber? then BytesNFromText(host, j.num.Display(), n)
      else if j.JString? then BytesNFromText(host, j.s, n)
      else if j.JArray? then BytesFromItems(j.items)
      else Fallback(host, j)
    case TBytes =>
      if j.JNumber? then BytesFromText(j.num.Display())
      else if j.JString? then BytesFromText(j.s)
      else if j.JArray? then BytesFromItems(j.items)
      else Fallback(host, j)
    case _ => Fallback(host, j)
  }

  function U64FromJson(num: JsonNumber): Res<ScVal> {
    match num.AsU64()
    case Some(n) => Ok(U64(n))
    case None => Err(InvalidValue)
  }

  predicate IsPrimitive(t: ScType) {
    match t
    case TBool | TU128 | TI128 | TU256 | TI256 | TI32 | TI64 | TU32 | TU64
       | TString | TSymbol | TAddress | TBytes | TBytesN(_) => true
    case _ => false
  }

  /** Whether text that is no JSON is taken as a string under the type. */
  predicate TakesBareText(t: ScType) {
    match t
    case TSymbol | TString | TBytes | TBytesN(_) | TU256 | TI256 | TU128 | TI128 | TAddress => true
    case _ => false
  }

  /** `from_string`. Termination: the text bounds the value parsed from it, an option's type shrinks. */
  function FromString(c: Context, s: Text, t: ScType): Res<ScVal>
    requires c.host.Bounded()
    decreases 4 * (|s| + 1), Wraps(t), 1
  {
    if t.TOption? then
      if s == NULL_TEXT then Ok(Void) else FromString(c, s, t.inner)
    else
      match c.host.parse(s)
      case Some(j) => if IsBigInt(t) then FromJson(c, JString(s), t) else FromJson(c, j, t)
      case None =>
        if TakesBareText(t) then FromJson(c, JString(s), t)
        else if t.TUdt? then
          match Find(c.spec, t.name)
          case None => Err(MissingEntry)
          case Some(e) => if e.Union? || e.Struct? then FromJson(c, JString(s), t) else Err(Serde)
        else Err(Serde)
  }

  /** `from_json`. */
  function FromJson(c: Context, j: Json, t: ScType): Res<ScVal>
    requires c.host.Bounded()
    decreases 4 * Height(j), Wraps(t), 0
  {
    if IsPrimitive(t) then FromJsonPrimitives(c.host, j, t)
    else
      match t
      case TVec(e) =>
        if j.JArray? then var vs :- FromItems(c, j.items, e); AsVec(vs)
        else Fallback(c.host, j)
      case TMap(k, w) => if j.JObject? then ParseMap(c, j.members, k, w) else Fallback(c.host, j)
      case TOption(inner) => if j.JNull? then Ok(Void) else FromJson(c, j, inner)
      case TTuple(ts) => if j.JArray? then ParseTuple(c, ts, j.items) else Fallback(c.host, j)
      case TUdt(name) => ParseUdt(c, name, j)
      case _ => Fallback(c.host, j)
  }

  /** `parse_tuple`. */
  function ParseTuple(c: Context, ts: seq<ScType>, items: seq<Json>): Res<ScVal>
    requires c.host.Bounded()
    decreases 4 * HeightItems(items) + 1, |items|, 1
  {
    if |items| != |ts| then Err(InvalidValue)
    else var vs :- FromZip(c, items, ts); AsVec(vs)
  }

  function AsVec(vs: seq<ScVal>): Res<ScVal> {
    if |vs| <= U32_MAX then Ok(Vec(vs)) else Err(Xdr)
  }

  /** `ScMap::sorted_from`. */
  function AsMap(es: seq<ScMapEntry>): Res<ScVal> {
    match SortedFrom(Less, es)
    case Some(sorted) => if |sorted| <= U32_MAX then Ok(Map(sorted)) else Err(Xdr)
    case None => Err(Xdr)
  }

  function FromItems(c: Context, items: seq<Json>, t: ScType): Res<seq<ScVal>>
    requires c.host.Bounded()
    decreases 4 * HeightItems(items) + 1, |items|, 0
  {
    if items == [] then Ok([])
    else
      var v :- FromJson(c, items[0], t);
      var vs :- FromItems(c, items[1..], t);
      Ok([v] + vs)
  }

  /** Parses position by position; the longer of the two lists is cut. */
  function FromZip(c: Context, items: seq<Json>, ts: seq<ScType>): Res<seq<ScVal>>
    requires c.host.Bounded()
    decreases 4 * HeightItems(items) + 1, |items|, 0
  {
    if items == [] || ts == [] then Ok([])
    else
      var v :- FromJson(c, items[0], ts[0]);
      var vs :- FromZip(c, items[1..], ts[1..]);
      Ok([v] + vs)
  }

  function FromMembers(c: Context, members: seq<Member>, k: ScType, w: ScType): Res<seq<ScMapEntry>>
    requires c.host.Bounded()
    decreases 4 * HeightMembers(members) + 1, |members|, 0
  {
    if members == [] then Ok([])
    else
      HeightOfMember(members, 0);
      var key :- FromString(c, members[0].key, k);
      var val :- FromJson(c, members[0].val, w);
      var rest :- FromMembers(c, members[1..], k, w);
      Ok([Pair(key, val)] + rest)
  }

  /** `parse_map`: member names are read as JSON text under the key type. */
  function ParseMap(c: Context, members: seq<Member>, k: ScType, w: ScType): Res<ScVal>
    requires c.host.Bounded()
    decreases 4 * HeightMembers(members) + 1, |members|, 1
  {
    var es :- FromMembers(c, members, k, w);
    AsMap(es)
  }

  function FromFields(c: Context, fields: seq<Field>, members: seq<Member>): Res<seq<ScMapEntry>>
    requires c.host.Bounded()
    decreases 4 * HeightMembers(members) + 1, |fields|, 0
  {
    if fields == [] then Ok([])
    else
      match Get(members, fields[0].name)
      case None => Err(MissingKey)
      case Some(j) =>
        GetHeight(members, fields[0].name);
        var v :- FromJson(c, j, fields[0].type_);
        if |fields[0].name| > MAX_SYMBOL then Err(Panic) else
        var rest :- FromFields(c, fields[1..], members);
        Ok([Pair(Symbol(fields[0].name), v)] + rest)
  }

  /** `parse_strukt`. */
  function ParseStruct(c: Context, fields: seq<Field>, members: seq<Member>): Res<ScVal>
    requires c.host.Bounded()
    decreases 4 * HeightMembers(members) + 1, |fields|, 1
  {
    var es :- FromFields(c, fields, members);
    AsMap(es)
  }

  /** `parse_tuple_strukt`. */
  function ParseTupleStruct(c: Context, fields: seq<Field>, items: seq<Json>): Res<ScVal>
    requires c.host.Bounded()
    decreases 4 * HeightItems(items) + 1, |items|, 1
  {
    var vs :- FromZip(c, items, FieldTypes(fields));
    AsVec(vs)
  }

  /** `parse_udt`. */
  function ParseUdt(c: Context, name: Text, j: Json): Res<ScVal>
    requires c.host.Bounded()
    decreases 4 * Height(j) - 1, 0, 0
  {
    match Find(c.spec, name)
    case None => Err(MissingEntry)
    case Some(Struct(_, fields)) =>
      if j.JArray? then ParseTupleStruct(c, fields, j.items)
      else if !j.JObject? then Err(Panic)
      else if !IsTupleStruct(fields) then ParseStruct(c, fields, j.members)
      else
        (match Positional(j.members, |j.members|)
         case None => Err(Panic)
         case Some(items) =>
           PositionalHeight(j.members, |j.members|);
           ParseTupleStruct(c, fields, items))
    case Some(Union(_, cases)) => ParseUnion(c, cases, j)
    case Some(Enum(_, values)) => if j.JNumber? then ParseConstEnum(j.num, values) else Err(Panic)
    case _ => Err(Panic)
  }

  /** A payload written as an object with a member "0" is read as the list of its numbered members. */
  function UnionPayload(j: Json): (r: Option<Json>)
    ensures r.Some? ==> Height(r.value) <= Height(j)
  {
    if j.JObject? && Get(j.members, ZERO_NAME).Some? then
      match Positional(j.members, |j.members|)
      case None => None
      case Some(items) => PositionalHeight(j.members, |j.members|); Some(JArray(items))
    else Some(j)
  }

  /**
   The list holds, for every member, the one named by its position; there is none exactly when one of
   those names is missing. Any other payload is left alone.
   */
  lemma {:induction false} PayloadIsNumbered(j: Json)
    ensures j.JObject? && Get(j.members, ZERO_NAME).Some? ==>
      && (UnionPayload(j).Some? <==> forall i :: 0 <= i < |j.members| ==> Get(j.members, Decimal.Show(i)).Some?)
      && (UnionPayload(j).Some? ==>
            && UnionPayload(j).value.JArray? && |UnionPayload(j).value.items| == |j.members|
            && forall i :: 0 <= i < |j.members| ==> Get(j.members, Decimal.Show(i)) == Some(UnionPayload(j).value.items[i]))
    ensures !(j.JObject? && Get(j.members, ZERO_NAME).Some?) ==> UnionPayload(j) == Some(j)
  {
    if j.JObject? { PositionalExactly(j.members, |j.members|); }
  }

  /** `parse_union`: a string names the case; an object of one member names it and carries the payload. */
  function ParseUnion(c: Context, cases: seq<UnionCase>, j: Json): Res<ScVal>
    requires c.host.Bounded()
    decreases 4 * Height(j) - 2, 0, 0
  {
    if j.JString? then
      if FindCase(cases, j.s).None? then Err(EnumCase)
      else if |j.s| > MAX_SYMBOL then Err(Xdr)
      else Ok(Vec([Symbol(j.s)]))
    else if j.JObject? && |j.members| == 1 then
      HeightOfMember(j.members, 0);
      var tag := j.members[0].key;
      match UnionPayload(j.members[0].val)
      case None => Err(Panic)
      case Some(payload) =>
        match FindCase(cases, tag)
        case None => Err(EnumCase)
        case Some(case_) => if |tag| > MAX_SYMBOL then Err(Xdr) else ParsePayload(c, tag, case_, payload)
    else Err(Panic)
  }

  function ParsePayload(c: Context, tag: Text, case_: UnionCase, payload: Json): Res<ScVal>
    requires c.host.Bounded()
    decreases 4 * Height(payload) + 1, 0, 0
  {
    match case_
    case VoidCase(_) => Ok(Vec([Symbol(tag)]))
    case TupleCase(_, types) =>
      if |types| == 1 then
        var v :- FromJson(c, payload, types[0]);
        Ok(Vec([Symbol(tag), v]))
      else if payload.JArray? then
        var vs :- FromZip(c, payload.items, types);
        AsVec([Symbol(tag)] + vs)
      else Ok(Vec([Symbol(tag)]))
  }

  /** `parse_const_enum`. */
  function ParseConstEnum(num: JsonNumber, values: seq<u32>): Res<ScVal> {
    match num.AsU64()
    case None => Err(FailedNumConversion)
    case Some(n) =>
      if n >= 0x1_0000_0000 then Err(EnumConstTooLarge)
      else if n in values then Ok(U32(n))
      else Err(EnumConst)
  }

  // ----- Values to JSON -----

  function Utf8Text(s: Text): Res<Text> { if Utf8(s) then Ok(s) else Err(InvalidValue) }

  function JInt(n: int): Json { JNumber(Int(n)) }

  /** `to_json` of the variants that hold no values. */
  function ScalarToJson(host: Platform, v: ScVal): Res<Json> {
    match v
    case Bool(b) => Ok(JBool(b))
    case Void => Ok(JNull)
    case U32(n) => Ok(JInt(n))
    case I32(n) => Ok(JInt(n))
    case U64(n) => Ok(JInt(n))
    case I64(n) => Ok(JInt(n))
    case Timepoint(n) => Ok(JInt(n))
    case Duration(n) => Ok(JInt(n))
    case U128(hi, lo) => Ok(JString(Decimal.Show(Words.JoinU128(hi, lo))))
    case I128(hi, lo) => Ok(JString(Decimal.Show(Words.JoinI128(hi, lo))))
    case U256(a, b, c, d) => Ok(JString(Decimal.Show(Words.JoinU256(a, b, c, d))))
    case I256(a, b, c, d) => Ok(JString(Decimal.Show(Words.JoinI256(a, b, c, d))))
    case Bytes(b) => Ok(JString(Hex.LowerHex(b)))
    case String(s) => var text :- Utf8Text(s); Ok(JString(text))
    case Symbol(s) => var text :- Utf8Text(s); Ok(JString(text))
    case Address(a) => Ok(JString(host.strkeyText(a)))
    case LedgerKeyContractInstance => Ok(JString(INSTANCE_TEXT))
    case LedgerKeyNonce(n) => Ok(JInt(n))
    case VecNone => Ok(JArray([]))
    case MapNone => Ok(JObject([]))
    case _ => Err(Panic)
  }

  /** "LedgerKeyContractInstance" */
  const INSTANCE_TEXT: Text := [76, 101, 100, 103, 101, 114, 75, 101, 121, 67, 111, 110, 116, 114, 97, 99, 116,
                                73, 110, 115, 116, 97, 110, 99, 101]

  /** `to_json`: prints a value without a schema. */
  function ToJson(host: Platform, v: ScVal): Res<Json>
    decreases v, 1
  {
    match v
    case Vec(items) => var js :- ToJsonAll(host, items); Ok(JArray(js))
    case Map(entries) => var ms :- ToJsonEntries(host, entries); Ok(JObject(Collect(TextLess, ms)))
    case _ => ScalarToJson(host, v)
  }

  function ToJsonAll(host: Platform, vs: seq<ScVal>): Res<seq<Json>>
    decreases vs, 0
  {
    if vs == [] then Ok([])
    else
      var j :- ToJson(host, vs[0]);
      var js :- ToJsonAll(host, vs[1..]);
      Ok([j] + js)
  }

  /** `to_string`: a symbol loses its quotes, anything else is its JSON text. */
  function ToText(host: Platform, v: ScVal): Res<Text>
    decreases v, 2
  {
    match v
    case Symbol(s) => Utf8Text(s)
    case LedgerKeyContractInstance => Ok(INSTANCE_TEXT)
    case _ => var j :- ToJson(host, v); Ok(host.show(j))
  }

  function ToJsonEntry(host: Platform, e: ScMapEntry): Res<Member>
    decreases e, 0
  {
    var k :- ToText(host, e.key);
    var j := ToJson(host, e.val);
    if j.Ok? then Ok(Pair(k, j.value)) else Err(InvalidValue)
  }

  function ToJsonEntries(host: Platform, es: seq<ScMapEntry>): Res<seq<Member>>
    decreases es, 0
  {
    if es == [] then Ok([])
    else
      var m :- ToJsonEntry(host, es[0]);
      var ms :- ToJsonEntries(host, es[1..]);
      Ok([m] + ms)
  }

  /** Whether a variant meets its own type, so that it is printed without looking at the type again. */
  predicate PrintsAsScalar(v: ScVal, t: ScType) {
    match v
    case Bool(_) => t.TBool?
    case Void => t.TVoid?
    case String(_) => t.TString?
    case Symbol(_) => t.TSymbol?
    case U64(_) => t.TU64?
    case I64(_) => t.TI64?
    case U32(_) => t.TU32?
    case I32(_) => t.TI32?
    case U128(_, _) => t.TU128?
    case I128(_, _) => t.TI128?
    case U256(_, _, _, _) => t.TU256?
    case I256(_, _, _, _) => t.TI256?
    case Duration(_) => t.TDuration?
    case Timepoint(_) => t.TTimepoint?
    case LedgerKeyContractInstance => true
    case LedgerKeyNonce(_) => true
    case Address(_) => t.TAddress?
    case Bytes(_) => t.TBytes? || t.TBytesN?
    case _ => false
  }

  predicate PrintsAsNull(v: ScVal, t: ScType) {
    match t
    case TVal => v.Void?
    case TTuple(_) => v.Void?
    case TOption(_) => v.Void? || v.MapNone? || v.VecNone?
    case _ => false
  }

  /** `xdr_to_json`. */
  function XdrToJson(c: Context, v: ScVal, t: ScType): Res<Json>
    decreases v, 2 + Wraps(t)
  {
    if PrintsAsNull(v, t) then Ok(JNull)
    else if PrintsAsScalar(v, t) then ScalarToJson(c.host, v)
    else if t.TResult? then XdrToJson(c, v, t.ok)
    else if t.TOption? then XdrToJson(c, v, t.inner)
    else if v.Map? || v.Vec? || v.U32? then ScObjectToJson(c, v, t)
    else Err(Panic)
  }

  /** `sc_object_to_json`, for the values `xdr_to_json` hands to it. */
  function ScObjectToJson(c: Context, v: ScVal, t: ScType): Res<Json>
    requires v.Map? || v.Vec? || v.U32?
    decreases v, 1
  {
    match t
    case TVec(e) =>
      if v.Vec? then var js :- PrintItems(c, v.items, e); Ok(JArray(js)) else Err(InvalidPair)
    case TTuple(ts) =>
      if v.Vec? then var js :- PrintZip(c, v.items, ts); Ok(JArray(js)) else Err(InvalidPair)
    case TUdt(name) => UdtToJson(c, name, v)
    case TMap(k, w) =>
      if v.Map? then var ms :- PrintEntries(c, v.entries, k, w); Ok(JObject(Collect(TextLess, ms)))
      else Err(InvalidPair)
    case _ => Err(InvalidPair)
  }

  function PrintItems(c: Context, vs: seq<ScVal>, t: ScType): Res<seq<Json>>
    decreases vs, 0
  {
    if vs == [] then Ok([])
    else
      var j :- XdrToJson(c, vs[0], t);
      var js :- PrintItems(c, vs[1..], t);
      Ok([j] + js)
  }

  function PrintZip(c: Context, vs: seq<ScVal>, ts: seq<ScType>): Res<seq<Json>>
    decreases vs, 0
  {
    if vs == [] || ts == [] then Ok([])
    else
      var j :- XdrToJson(c, vs[0], ts[0]);
      var js :- PrintZip(c, vs[1..], ts[1..]);
      Ok([j] + js)
  }

  function PrintEntry(c: Context, e: ScMapEntry, k: ScType, w: ScType): Res<Member>
    decreases e, 0
  {
    var key :- XdrToJson(c, e.key, k);
    var val :- XdrToJson(c, e.val, w);
    Ok(Pair(c.host.show(key), val))
  }

  /** The members of `sc_map_to_json`, in entry order: a key is printed to text. */
  function PrintEntries(c: Context, es: seq<ScMapEntry>, k: ScType, w: ScType): Res<seq<Member>>
    decreases es, 0
  {
    if es == [] then Ok([])
    else
      var m :- PrintEntry(c, es[0], k, w);
      var ms :- PrintEntries(c, es[1..], k, w);
      Ok([m] + ms)
  }

  function PrintField(c: Context, f: Field, e: ScMapEntry): Res<Member>
    decreases e, 0
  {
    var j :- XdrToJson(c, e.val, f.type_);
    Ok(Pair(f.name, j))
  }

  /** Struct fields are paired with map entries by position, whatever the entries' keys are. */
  function PrintFields(c: Context, fields: seq<Field>, es: seq<ScMapEntry>): Res<seq<Member>>
    decreases es, 0
  {
    if es == [] || fields == [] then Ok([])
    else
      var m :- PrintField(c, fields[0], es[0]);
      var ms :- PrintFields(c, fields[1..], es[1..]);
      Ok([m] + ms)
  }

  /** `udt_to_json`. */
  function UdtToJson(c: Context, name: Text, v: ScVal): Res<Json>
    decreases v, 0, 1
  {
    match Find(c.spec, name)
    case None => Err(MissingEntry)
    case Some(Struct(_, fields)) =>
      if v.Map? then var ms :- PrintFields(c, fields, v.entries); Ok(JObject(Collect(TextLess, ms)))
      else if v.Vec? then var js :- PrintZip(c, v.items, FieldTypes(fields)); Ok(JArray(js))
      else Err(Panic)
    case Some(Union(_, cases)) => if v.Vec? then PrintUnion(c, cases, v) else Err(Panic)
    case Some(Enum(_, _)) => if v.U32? then Ok(JInt(v.u32)) else Err(Panic)
    case _ => Err(Panic)
  }

  function PrintUnion(c: Context, cases: seq<UnionCase>, v: ScVal): Res<Json>
    requires v.Vec?
    decreases v, 0, 0
  {
    if v.items == [] then Err(Panic)
    else if !v.items[0].Symbol? then Err(EnumFirstValueNotSymbol)
    else
      match FindCase(cases, v.items[0].sym)
      case None => Err(FailedToFindEnumCase)
      case Some(VoidCase(name)) => Ok(JString(name))
      case Some(TupleCase(name, types)) =>
        if |v.items| == 1 then Err(EnumMissingSecondValue)
        else if |types| == 1 then
          var j :- XdrToJson(c, v.items[1], types[0]);
          Ok(JObject([Pair(name, j)]))
        else
          var js :- PrintZip(c, v.items[1..], types);
          Ok(JObject([Pair(name, JArray(js))]))
  }
}
