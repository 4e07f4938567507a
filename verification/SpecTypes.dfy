/** Contract specifications: the types a value can be printed or parsed under. */
module SpecTypes {
  import opened Wrappers
  import opened Octets

  datatype ScType =
    | TVal | TBool | TVoid | TError
    | TU32 | TI32 | TU64 | TI64 | TTimepoint | TDuration
    | TU128 | TI128 | TU256 | TI256
    | TBytes | TString | TSymbol | TAddress
    | TBytesN(n: u32)
    | TOption(inner: ScType)
    | TResult(ok: ScType, err: ScType)
    | TVec(element: ScType)
    | TMap(key: ScType, value: ScType)
    | TTuple(types: seq<ScType>)
    | TUdt(name: Text)

  datatype Field = Field(name: Text, type_: ScType)

  datatype UnionCase =
    | VoidCase(name: Text)
    | TupleCase(name: Text, types: seq<ScType>)

  datatype SpecEntry =
    | Function(name: Text)
    | Struct(name: Text, fields: seq<Field>)
    | Union(name: Text, cases: seq<UnionCase>)
    | Enum(name: Text, values: seq<u32>)
    | ErrorEnum(name: Text)

  /** Nesting of `Option` and `Result`, the only types under which the same value is looked at again. */
  function Wraps(t: ScType): nat {
    match t
    case TOption(inner) => 1 + Wraps(inner)
    case TResult(ok, _) => 1 + Wraps(ok)
    case _ => 0
  }

  /** The first entry of that name, of whatever kind. */
  function Find(spec: seq<SpecEntry>, name: Text): (r: Option<SpecEntry>)
    ensures r.Some? ==> r.value in spec && r.value.name == name
    ensures r.None? ==> forall i :: 0 <= i < |spec| ==> spec[i].name != name
  {
    if spec == [] then None
    else if spec[0].name == name then Some(spec[0])
    else Find(spec[1..], name)
  }

  /** The first case of that name. */
  function FindCase(cases: seq<UnionCase>, name: Text): (r: Option<UnionCase>)
    ensures r.Some? ==> r.value in cases && r.value.name == name
    ensures r.None? ==> forall i :: 0 <= i < |cases| ==> cases[i].name != name
  {
    if cases == [] then None
    else if cases[0].name == name then Some(cases[0])
    else FindCase(cases[1..], name)
  }

  /** What `find` returns is the first entry of that name. */
  lemma {:induction false} FindIsFirst(spec: seq<SpecEntry>, name: Text) returns (i: nat)
    ensures i <= |spec| && forall j :: 0 <= j < i ==> spec[j].name != name
    ensures Find(spec, name) == if i < |spec| then Some(spec[i]) else None
    ensures i < |spec| ==> spec[i].name == name
  {
    i := 0;
    if spec != [] && spec[0].name != name {
      var k := FindIsFirst(spec[1..], name);
      i := k + 1;
    }
  }

  /** The case looked up is the first of that name. */
  lemma {:induction false} CaseIsFirst(cases: seq<UnionCase>, name: Text) returns (i: nat)
    ensures i <= |cases| && forall j :: 0 <= j < i ==> cases[j].name != name
    ensures FindCase(cases, name) == if i < |cases| then Some(cases[i]) else None
    ensures i < |cases| ==> cases[i].name == name
  {
    i := 0;
    if cases != [] && cases[0].name != name {
      var k := CaseIsFirst(cases[1..], name);
      i := k + 1;
    }
  }

  /** A field named "0" marks the struct as a tuple struct. */
  predicate IsTupleStruct(fields: seq<Field>) {
    exists i :: 0 <= i < |fields| && fields[i].name == [48]
  }

  function FieldTypes(fields: seq<Field>): (ts: seq<ScType>)
    ensures |ts| == |fields|
    ensures forall i :: 0 <= i < |ts| ==> ts[i] == fields[i].type_
  {
    if fields == [] then [] else [fields[0].type_] + FieldTypes(fields[1..])
  }

  function StripOptions(t: ScType): ScType {
    match t
    case TOption(inner) => StripOptions(inner)
    case _ => t
  }

  predicate IsBigInt(t: ScType) { t.TU128? || t.TI128? || t.TU256? || t.TI256? }
}
