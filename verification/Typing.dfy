/** When a value is of a type, and when its printed form can be read back. */
module Typing {
  import opened Wrappers
  import opened Octets
  import opened OrderedMap
  import opened ScValues
  import opened Json
  import opened SpecTypes
  import opened Codec

  ghost predicate Matches(f: Field, e: ScMapEntry) { e.key == Symbol(f.name) }

  ghost predicate HasName(fields: seq<Field>, key: ScVal) {
    exists i :: 0 <= i < |fields| && key == Symbol(fields[i].name)
  }

  /** The entries' keys are exactly the field names. */
  ghost predicate KeysAreFields(fields: seq<Field>, entries: seq<ScMapEntry>) {
    && (forall i :: 0 <= i < |fields| ==> HasKey(entries, Symbol(fields[i].name)))
    && (forall j :: 0 <= j < |entries| ==> HasName(fields, entries[j].key))
  }

  ghost predicate FieldsAscend(fields: seq<Field>) {
    forall i, j :: 0 <= i < j < |fields| ==> TextLess(fields[i].name, fields[j].name)
  }

  ghost predicate DistinctNames(fields: seq<Field>) {
    forall i, j :: 0 <= i < j < |fields| ==> fields[i].name != fields[j].name
  }

  /** Whether the value is one a contract can hold under the type. */
  ghost predicate WellTyped(c: Context, v: ScVal, t: ScType)
    decreases v, 1 + Wraps(t)
  {
    match t
    case TBool => v.Bool?
    case TVoid => v.Void?
    case TU32 => v.U32?
    case TI32 => v.I32?
    case TU64 => v.U64?
    case TI64 => v.I64?
    case TTimepoint => v.Timepoint?
    case TDuration => v.Duration?
    case TU128 => v.U128?
    case TI128 => v.I128?
    case TU256 => v.U256?
    case TI256 => v.I256?
    case TBytes => v.Bytes? && |v.bytes| <= U32_MAX
    case TBytesN(n) => v.Bytes? && |v.bytes| == n
    case TString => v.String? && |v.str| <= U32_MAX
    case TSymbol => v.Symbol? && |v.sym| <= MAX_SYMBOL
    case TAddress => v.Address?
    case TOption(inner) => v.Void? || WellTyped(c, v, inner)
    case TVec(e) => v.Vec? && |v.items| <= U32_MAX && WellTypedItems(c, v, e)
    case TTuple(ts) => v.Vec? && |v.items| <= U32_MAX && WellTypedZip(c, v, 0, ts)
    case TMap(k, w) => v.Map? && |v.entries| <= U32_MAX && WellTypedEntries(c, v, k, w)
    case TUdt(name) =>
      (match Find(c.spec, name)
       case Some(Struct(_, fields)) =>
         if IsTupleStruct(fields) then v.Vec? && |v.items| <= U32_MAX && WellTypedZip(c, v, 0, FieldTypes(fields))
         else v.Map? && |v.entries| <= U32_MAX && WellTypedFields(c, v, fields)
       case Some(Union(_, cases)) => v.Vec? && |v.items| <= U32_MAX && WellTypedUnion(c, v, cases)
       case Some(Enum(_, values)) => v.U32? && v.u32 in values
       case _ => false)
    case _ => false
  }

  ghost predicate WellTypedItems(c: Context, v: ScVal, e: ScType)
    requires v.Vec?
    decreases v, 0
  {
    forall i :: 0 <= i < |v.items| ==> WellTyped(c, v.items[i], e)
  }

  /** The items from position `from` on have the types, one each. */
  ghost predicate WellTypedZip(c: Context, v: ScVal, from: nat, ts: seq<ScType>)
    requires v.Vec?
    decreases v, 0, 0
  {
    && |v.items| == from + |ts|
    && forall i :: 0 <= i < |ts| ==> WellTyped(c, v.items[from + i], ts[i])
  }

  ghost predicate WellTypedEntries(c: Context, v: ScVal, k: ScType, w: ScType)
    requires v.Map?
    decreases v, 0
  {
    && Ascending(Less, v.entries)
    && forall i :: 0 <= i < |v.entries| ==> WellTyped(c, v.entries[i].key, k) && WellTyped(c, v.entries[i].val, w)
  }

  ghost predicate WellTypedFields(c: Context, v: ScVal, fields: seq<Field>)
    requires v.Map?
    decreases v, 0
  {
    && Ascending(Less, v.entries)
    && KeysAreFields(fields, v.entries)
    && (forall i :: 0 <= i < |fields| ==> |fields[i].name| <= MAX_SYMBOL)
    && forall i, j :: 0 <= i < |fields| && 0 <= j < |v.entries| && Matches(fields[i], v.entries[j]) ==>
         WellTyped(c, v.entries[j].val, fields[i].type_)
  }

  ghost predicate WellTypedUnion(c: Context, v: ScVal, cases: seq<UnionCase>)
    requires v.Vec?
    decreases v, 0, 1
  {
    && v.items != [] && v.items[0].Symbol? && |v.items[0].sym| <= MAX_SYMBOL
    && match FindCase(cases, v.items[0].sym)
       case Some(VoidCase(_)) => |v.items| == 1
       case Some(TupleCase(_, types)) => WellTypedZip(c, v, 1, types)
       case None => false
  }

  /** A map key whose text `from_string` reads as JSON. */
  ghost predicate ReadableKey(c: Context, key: ScVal, k: ScType) {
    && (key.Void? || !IsBigInt(StripOptions(k)))
    && (XdrToJson(c, key, k).Ok? ==> Depth(XdrToJson(c, key, k).value) <= MAX_JSON_DEPTH)
  }

  /** A JSON value that `parse_union` takes for a numbered list when it is a union's only payload. */
  predicate LooksNumbered(j: Json) { j.JObject? && Get(j.members, ZERO_NAME).Some? }

  /**
   What the printed form of a well-typed value must avoid to be readable: texts that are not UTF-8,
   types `from_json` has no arm for, 128- and 256-bit map keys, map keys that nest more deeply than JSON
   text may, struct fields out of symbol order, and unions whose payload is empty or looks like a
   numbered list.
   */
  ghost predicate Readable(c: Context, v: ScVal, t: ScType)
    decreases v, 1 + Wraps(t)
  {
    match t
    case TString => v.String? && Utf8(v.str)
    case TSymbol => v.Symbol? && Utf8(v.sym)
    case TVoid => false
    case TTimepoint => false
    case TDuration => false
    case TOption(inner) => v.Void? || Readable(c, v, inner)
    case TVec(e) => v.Vec? && ReadableItems(c, v, e)
    case TTuple(ts) => v.Vec? && ReadableZip(c, v, 0, ts)
    case TMap(k, w) => v.Map? && ReadableEntries(c, v, k, w)
    case TUdt(name) =>
      (match Find(c.spec, name)
       case Some(Struct(_, fields)) =>
         if IsTupleStruct(fields) then v.Vec? && ReadableZip(c, v, 0, FieldTypes(fields))
         else v.Map? && ReadableFields(c, v, fields)
       case Some(Union(_, cases)) => v.Vec? && ReadableUnion(c, v, cases)
       case _ => true)
    case _ => true
  }

  ghost predicate ReadableItems(c: Context, v: ScVal, e: ScType)
    requires v.Vec?
    decreases v, 0
  {
    forall i :: 0 <= i < |v.items| ==> Readable(c, v.items[i], e)
  }

  ghost predicate ReadableZip(c: Context, v: ScVal, from: nat, ts: seq<ScType>)
    requires v.Vec?
    decreases v, 0, 0
  {
    forall i :: 0 <= i < |ts| && from + i < |v.items| ==> Readable(c, v.items[from + i], ts[i])
  }

  ghost predicate ReadableEntries(c: Context, v: ScVal, k: ScType, w: ScType)
    requires v.Map?
    decreases v, 0
  {
    forall i :: 0 <= i < |v.entries| ==>
      && Readable(c, v.entries[i].key, k)
      && Readable(c, v.entries[i].val, w)
      && ReadableKey(c, v.entries[i].key, k)
  }

  ghost predicate ReadableFields(c: Context, v: ScVal, fields: seq<Field>)
    requires v.Map?
    decreases v, 0
  {
    && FieldsAscend(fields)
    && (forall i :: 0 <= i < |fields| ==> Utf8(fields[i].name))
    && forall i, j :: 0 <= i < |fields| && 0 <= j < |v.entries| && Matches(fields[i], v.entries[j]) ==>
         Readable(c, v.entries[j].val, fields[i].type_)
  }

  ghost predicate ReadableUnion(c: Context, v: ScVal, cases: seq<UnionCase>)
    requires v.Vec?
    decreases v, 0, 1
  {
    && v.items != [] && v.items[0].Symbol? && Utf8(v.items[0].sym)
    && match FindCase(cases, v.items[0].sym)
       case Some(TupleCase(_, types)) => |types| >= 1 && ReadableZip(c, v, 1, types) && ReadablePayload(c, v.items, types)
       case _ => true
  }

  /** A single payload must not look like a numbered list. */
  ghost predicate ReadablePayload(c: Context, items: seq<ScVal>, types: seq<ScType>) {
    |types| == 1 && |items| == 2 && XdrToJson(c, items[1], types[0]).Ok? ==>
      !LooksNumbered(XdrToJson(c, items[1], types[0]).value)
  }
}
