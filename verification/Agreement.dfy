/**
 Printing with a schema and printing without one: where `xdr_to_json` and `to_json` yield the same
 JSON, although one pairs struct fields with entries by position and the other renders the keys.
 */
module Agreement {
  import opened Wrappers
  import opened Octets
  import opened OrderedMap
  import opened ScValues
  import opened Json
  import opened SpecTypes
  import opened Codec
  import opened Typing
  import RoundTrip

  /** No union, no symbol as a map key, struct fields in symbol order, and texts in UTF-8. */
  ghost predicate Plain(c: Context, v: ScVal, t: ScType)
    decreases v, 1 + Wraps(t)
  {
    match t
    case TString => v.String? && Utf8(v.str)
    case TSymbol => v.Symbol? && Utf8(v.sym)
    case TOption(inner) => v.Void? || Plain(c, v, inner)
    case TVec(e) => v.Vec? && forall i :: 0 <= i < |v.items| ==> Plain(c, v.items[i], e)
    case TTuple(ts) => v.Vec? && PlainZip(c, v, ts)
    case TMap(k, w) => v.Map? && PlainEntries(c, v, k, w)
    case TUdt(name) =>
      (match Find(c.spec, name)
       case Some(Struct(_, fields)) =>
         if IsTupleStruct(fields) then v.Vec? && PlainZip(c, v, FieldTypes(fields))
         else v.Map? && PlainFields(c, v, fields)
       case Some(Union(_, _)) => false
       case _ => true)
    case _ => true
  }

  ghost predicate PlainZip(c: Context, v: ScVal, ts: seq<ScType>)
    requires v.Vec?
    decreases v, 0
  {
    forall i :: 0 <= i < |ts| && 0 + i < |v.items| ==> Plain(c, v.items[0 + i], ts[i])
  }

  ghost predicate PlainEntries(c: Context, v: ScVal, k: ScType, w: ScType)
    requires v.Map?
    decreases v, 0
  {
    forall i :: 0 <= i < |v.entries| ==>
      Plain(c, v.entries[i].key, k) && !v.entries[i].key.Symbol? && Plain(c, v.entries[i].val, w)
  }

  ghost predicate PlainFields(c: Context, v: ScVal, fields: seq<Field>)
    requires v.Map?
    decreases v, 0
  {
    && FieldsAscend(fields)
    && (forall i :: 0 <= i < |fields| ==> Utf8(fields[i].name))
    && forall i, j :: 0 <= i < |fields| && 0 <= j < |v.entries| && Matches(fields[i], v.entries[j]) ==>
         Plain(c, v.entries[j].val, fields[i].type_)
  }

  /** Both printers succeed and print the same. */
  ghost predicate Agrees(c: Context, v: ScVal, t: ScType) {
    XdrToJson(c, v, t).Ok? && ToJson(c.host, v) == XdrToJson(c, v, t)
  }

  lemma {:induction false} ToJsonAllIs(host: Platform, vs: seq<ScVal>, js: seq<Json>)
    requires |js| == |vs| && forall i :: 0 <= i < |vs| ==> ToJson(host, vs[i]) == Ok(js[i])
    ensures ToJsonAll(host, vs) == Ok(js)
  {
    hide ToJson;
    if vs != [] {
      ToJsonAllIs(host, vs[1..], js[1..]);
      assert js == [js[0]] + js[1..];
    }
  }

  lemma {:induction false} ToJsonEntriesIs(host: Platform, es: seq<ScMapEntry>, ms: seq<Member>)
    requires |ms| == |es| && forall i :: 0 <= i < |es| ==> ToJsonEntry(host, es[i]) == Ok(ms[i])
    ensures ToJsonEntries(host, es) == Ok(ms)
  {
    hide ToJsonEntry;
    if es != [] {
      ToJsonEntriesIs(host, es[1..], ms[1..]);
      assert ms == [ms[0]] + ms[1..];
    }
  }

  lemma {:induction false} ListAgrees(c: Context, items: seq<ScVal>, ts: seq<ScType>) returns (js: seq<Json>)
    requires |items| == |ts| && forall i :: 0 <= i < |items| ==> Agrees(c, items[i], ts[i])
    ensures PrintZip(c, items, ts) == Ok(js) && ToJson(c.host, Vec(items)) == Ok(JArray(js))
    ensures forall e :: (forall i :: 0 <= i < |ts| ==> ts[i] == e) ==> PrintItems(c, items, e) == Ok(js)
  {
    hide XdrToJson;
    assert forall i :: 0 <= i < |items| ==> Agrees(c, items[i], ts[i]);
    js := RoundTrip.Printed(c, items, ts);
    RoundTrip.PrintZipIs(c, items, ts, js);
    forall e | forall i :: 0 <= i < |ts| ==> ts[i] == e ensures PrintItems(c, items, e) == Ok(js) {
      RoundTrip.PrintItemsIs(c, items, e, js);
    }
    ToJsonAllIs(c.host, items, js);
    hide PrintZip, PrintItems, ToJsonAll;
  }

  lemma {:induction false} VecAgrees(c: Context, items: seq<ScVal>, e: ScType)
    requires forall i :: 0 <= i < |items| ==> Agrees(c, items[i], e)
    ensures Agrees(c, Vec(items), TVec(e))
  {
    hide Agrees, PrintItems, PrintZip, ToJson;
    var js := ListAgrees(c, items, seq(|items|, _ => e));
    PrintedVecAgrees(c, items, e, js);
  }

  lemma {:induction false} PrintedVecAgrees(c: Context, items: seq<ScVal>, e: ScType, js: seq<Json>)
    requires PrintItems(c, items, e) == Ok(js) && ToJson(c.host, Vec(items)) == Ok(JArray(js))
    ensures Agrees(c, Vec(items), TVec(e))
  {
    hide PrintItems, ToJson;
    assert ScObjectToJson(c, Vec(items), TVec(e)) == Ok(JArray(js));
  }

  lemma {:induction false} TupleAgrees(c: Context, items: seq<ScVal>, ts: seq<ScType>)
    requires |items| == |ts| && forall i :: 0 <= i < |items| ==> Agrees(c, items[i], ts[i])
    ensures Agrees(c, Vec(items), TTuple(ts))
  {
    var js := ListAgrees(c, items, ts);
    hide PrintItems, PrintZip, ToJson;
    assert ScObjectToJson(c, Vec(items), TTuple(ts)) == Ok(JArray(js));
  }

  lemma {:induction false} UdtPrints(c: Context, v: ScVal, name: Text, j: Json)
    requires (v.Map? || v.Vec? || v.U32?) && UdtToJson(c, name, v) == Ok(j)
    ensures XdrToJson(c, v, TUdt(name)) == Ok(j)
  {
    hide UdtToJson;
    assert ScObjectToJson(c, v, TUdt(name)) == Ok(j);
  }

  lemma {:induction false} TupleStructAgrees(c: Context, items: seq<ScVal>, name: Text, fields: seq<Field>)
    requires Find(c.spec, name) == Some(Struct(name, fields)) && |items| == |fields|
    requires forall i :: 0 <= i < |items| ==> Agrees(c, items[i], FieldTypes(fields)[i])
    ensures Agrees(c, Vec(items), TUdt(name))
  {
    var js := ListAgrees(c, items, FieldTypes(fields));
    hide PrintItems, PrintZip, ToJson, Find, FieldTypes, XdrToJson;
    assert UdtToJson(c, name, Vec(items)) == Ok(JArray(js));
    UdtPrints(c, Vec(items), name, JArray(js));
  }

  /** Members printed alike by both printers make the same object. */
  lemma {:induction false} ObjectPrints(c: Context, es: seq<ScMapEntry>, ms: seq<Member>)
    requires |ms| == |es| && forall i :: 0 <= i < |es| ==> ToJsonEntry(c.host, es[i]) == Ok(ms[i])
    ensures ToJson(c.host, Map(es)) == Ok(JObject(Collect(TextLess, ms)))
  {
    hide ToJsonEntry, Collect;
    ToJsonEntriesIs(c.host, es, ms);
  }

  lemma {:induction false} EntryAgrees(c: Context, e: ScMapEntry, k: ScType, w: ScType)
    requires Agrees(c, e.key, k) && Agrees(c, e.val, w) && !e.key.Symbol? && !e.key.LedgerKeyContractInstance?
    ensures PrintEntry(c, e, k, w).Ok? && ToJsonEntry(c.host, e) == PrintEntry(c, e, k, w)
  {
    hide XdrToJson, ToJson;
  }

  lemma {:induction false} MapAgrees(c: Context, es: seq<ScMapEntry>, k: ScType, w: ScType)
    requires forall i :: 0 <= i < |es| ==>
      Agrees(c, es[i].key, k) && Agrees(c, es[i].val, w) && !es[i].key.Symbol? && !es[i].key.LedgerKeyContractInstance?
    ensures Agrees(c, Map(es), TMap(k, w))
  {
    hide Agrees, Collect, ToJson, XdrToJson, TextLess, PrintEntries, ToJsonEntry, PrintEntry;
    var ms := EachEntryAgrees(c, es, k, w);
    RoundTrip.PrintEntriesIs(c, es, k, w, ms);
    ObjectPrints(c, es, ms);
    PrintedMapAgrees(c, es, k, w, ms);
  }

  lemma {:induction false} EachEntryAgrees(c: Context, es: seq<ScMapEntry>, k: ScType, w: ScType) returns (ms: seq<Member>)
    requires forall i :: 0 <= i < |es| ==>
      Agrees(c, es[i].key, k) && Agrees(c, es[i].val, w) && !es[i].key.Symbol? && !es[i].key.LedgerKeyContractInstance?
    ensures |ms| == |es|
    ensures forall i :: 0 <= i < |es| ==> PrintEntry(c, es[i], k, w) == Ok(ms[i]) && ToJsonEntry(c.host, es[i]) == Ok(ms[i])
  {
    hide Agrees, PrintEntry, ToJsonEntry, ToJson, XdrToJson;
    forall i | 0 <= i < |es| ensures PrintEntry(c, es[i], k, w).Ok? && ToJsonEntry(c.host, es[i]) == PrintEntry(c, es[i], k, w) {
      EntryAgrees(c, es[i], k, w);
    }
    ms := seq(|es|, i requires 0 <= i < |es| => PrintEntry(c, es[i], k, w).value);
    forall i | 0 <= i < |es| ensures PrintEntry(c, es[i], k, w) == Ok(ms[i]) && ToJsonEntry(c.host, es[i]) == Ok(ms[i]) {
      assert ms[i] == PrintEntry(c, es[i], k, w).value;
    }
  }

  lemma {:induction false} PrintedMapAgrees(c: Context, es: seq<ScMapEntry>, k: ScType, w: ScType, ms: seq<Member>)
    requires PrintEntries(c, es, k, w) == Ok(ms)
    requires ToJson(c.host, Map(es)) == Ok(JObject(Collect(TextLess, ms)))
    ensures Agrees(c, Map(es), TMap(k, w))
  {
    hide PrintEntries, Collect, ToJson, TextLess;
    assert ScObjectToJson(c, Map(es), TMap(k, w)) == Ok(JObject(Collect(TextLess, ms)));
  }

  lemma {:induction false} FieldAgrees(c: Context, f: Field, e: ScMapEntry)
    requires Matches(f, e) && Utf8(f.name) && Agrees(c, e.val, f.type_)
    ensures PrintField(c, f, e).Ok? && ToJsonEntry(c.host, e) == PrintField(c, f, e)
  {
    hide XdrToJson, ToJson, Utf8;
  }

  lemma {:induction false} StructAgrees(c: Context, es: seq<ScMapEntry>, name: Text, fields: seq<Field>)
    requires Find(c.spec, name) == Some(Struct(name, fields)) && |es| == |fields|
    requires forall i :: 0 <= i < |es| ==>
      Matches(fields[i], es[i]) && Utf8(fields[i].name) && Agrees(c, es[i].val, fields[i].type_)
    ensures Agrees(c, Map(es), TUdt(name))
  {
    hide Agrees, PrintField, ToJsonEntry, Collect, ToJson, Utf8, Find, XdrToJson;
    forall i | 0 <= i < |es| ensures PrintField(c, fields[i], es[i]).Ok? && ToJsonEntry(c.host, es[i]) == PrintField(c, fields[i], es[i]) {
      FieldAgrees(c, fields[i], es[i]);
    }
    var ms := seq(|es|, i requires 0 <= i < |es| => PrintField(c, fields[i], es[i]).value);
    RoundTrip.PrintFieldsIs(c, fields, es, ms);
    ObjectPrints(c, es, ms);
    PrintedStructAgrees(c, es, name, fields, ms);
  }

  lemma {:induction false} PrintedStructAgrees(c: Context, es: seq<ScMapEntry>, name: Text, fields: seq<Field>, ms: seq<Member>)
    requires Find(c.spec, name) == Some(Struct(name, fields)) && PrintFields(c, fields, es) == Ok(ms)
    requires ToJson(c.host, Map(es)) == Ok(JObject(Collect(TextLess, ms)))
    ensures Agrees(c, Map(es), TUdt(name))
  {
    hide PrintFields, Collect, ToJson, Find, XdrToJson;
    assert UdtToJson(c, name, Map(es)) == Ok(JObject(Collect(TextLess, ms)));
    UdtPrints(c, Map(es), name, JObject(Collect(TextLess, ms)));
  }

  lemma {:induction false} ScalarAgrees(c: Context, v: ScVal, t: ScType)
    requires PrintsAsScalar(v, t) && ScalarToJson(c.host, v).Ok?
    ensures Agrees(c, v, t)
  {
    hide ScalarToJson;
    assert !PrintsAsNull(v, t);
  }

  lemma {:induction false} ScalarTyping(c: Context, v: ScVal, t: ScType)
    requires WellTyped(c, v, t) && Plain(c, v, t)
    requires !t.TOption? && !t.TVec? && !t.TTuple? && !t.TMap? && !t.TUdt?
    ensures PrintsAsScalar(v, t) && ScalarToJson(c.host, v).Ok?
  {
    hide Utf8;
  }

  lemma {:induction false} TypedIsNoLedgerKey(c: Context, v: ScVal, t: ScType)
    requires WellTyped(c, v, t)
    ensures !v.LedgerKeyContractInstance?
    decreases Wraps(t)
  {
    if t.TOption? && !v.Void? { TypedIsNoLedgerKey(c, v, t.inner); }
  }

  lemma {:induction false} OptionAgrees(c: Context, v: ScVal, t: ScType)
    requires !v.Void? && !v.VecNone? && !v.MapNone? && Agrees(c, v, t)
    ensures Agrees(c, v, TOption(t))
  {
    hide ScObjectToJson, ScalarToJson, ToJson;
  }

  lemma {:induction false} EachAgrees(c: Context, v: ScVal, ts: seq<ScType>)
    requires v.Vec? && WellTypedZip(c, v, 0, ts) && PlainZip(c, v, ts)
    ensures |v.items| == |ts| && forall i :: 0 <= i < |ts| ==> Agrees(c, v.items[i], ts[i])
    decreases v, 0
  {
    forall i | 0 <= i < |ts| ensures Agrees(c, v.items[i], ts[i]) {
      assert v.items[0 + i] == v.items[i];
      PrintersAgree(c, v.items[i], ts[i]);
    }
  }

  lemma {:induction false} FieldsAgree(c: Context, v: ScVal, name: Text, fields: seq<Field>)
    requires Find(c.spec, name) == Some(Struct(name, fields))
    requires v.Map? && WellTypedFields(c, v, fields) && PlainFields(c, v, fields)
    ensures Agrees(c, v, TUdt(name))
    decreases v, 0
  {
    hide WellTyped, Plain, Less, Find, XdrToJson, ToJson, Utf8, FieldsAscend, KeysAreFields;
    RoundTrip.FieldPositions(fields, v.entries);
    forall i | 0 <= i < |v.entries| ensures Agrees(c, v.entries[i].val, fields[i].type_) {
      assert Matches(fields[i], v.entries[i]);
      PrintersAgree(c, v.entries[i].val, fields[i].type_);
    }
    StructAgrees(c, v.entries, name, fields);
  }

  lemma {:induction false} UdtAgrees(c: Context, v: ScVal, name: Text)
    requires WellTyped(c, v, TUdt(name)) && Plain(c, v, TUdt(name))
    ensures Agrees(c, v, TUdt(name))
    decreases v, 1
  {
    match Find(c.spec, name)
    case Some(Struct(_, fields)) =>
      if IsTupleStruct(fields) {
        EachAgrees(c, v, FieldTypes(fields));
        TupleStructAgrees(c, v.items, name, fields);
      } else {
        FieldsAgree(c, v, name, fields);
      }
      hide Agrees;
    case Some(Enum(_, values)) =>
      assert UdtToJson(c, name, v) == Ok(JInt(v.u32));
      UdtPrints(c, v, name, JInt(v.u32));
      hide XdrToJson;
  }

  /** On every plain well-typed value the typed and the schema-free printer yield the same JSON. */
  lemma {:induction false} PrintersAgree(c: Context, v: ScVal, t: ScType)
    requires WellTyped(c, v, t) && Plain(c, v, t)
    ensures XdrToJson(c, v, t).Ok? && ToJson(c.host, v) == XdrToJson(c, v, t)
    ensures Agrees(c, v, t)
    decreases v, 2 + Wraps(t)
  {
    if t.TOption? {
      if !v.Void? {
        PrintersAgree(c, v, t.inner);
        RoundTrip.TypedIsPresent(c, v, t.inner);
        OptionAgrees(c, v, t.inner);
        hide WellTyped, Plain, XdrToJson, ToJson;
      }
    } else if t.TVec? {
      forall i | 0 <= i < |v.items| ensures Agrees(c, v.items[i], t.element) { PrintersAgree(c, v.items[i], t.element); }
      VecAgrees(c, v.items, t.element);
      hide WellTyped, Plain, XdrToJson, ToJson;
    } else if t.TTuple? {
      EachAgrees(c, v, t.types);
      TupleAgrees(c, v.items, t.types);
      hide WellTyped, Plain, XdrToJson, ToJson;
    } else if t.TMap? {
      forall i | 0 <= i < |v.entries|
        ensures Agrees(c, v.entries[i].key, t.key) && Agrees(c, v.entries[i].val, t.value)
        ensures !v.entries[i].key.LedgerKeyContractInstance?
      {
        PrintersAgree(c, v.entries[i].key, t.key);
        PrintersAgree(c, v.entries[i].val, t.value);
        TypedIsNoLedgerKey(c, v.entries[i].key, t.key);
      }
      MapAgrees(c, v.entries, t.key, t.value);
      hide WellTyped, Plain, XdrToJson, ToJson;
    } else if t.TUdt? {
      UdtAgrees(c, v, t.name);
      hide WellTyped, Plain, XdrToJson, ToJson;
    } else {
      ScalarTyping(c, v, t);
      ScalarAgrees(c, v, t);
      hide WellTyped, Plain, XdrToJson, ToJson;
    }
  }

  /** A union value never agrees: the schema-free printer writes it as an array. */
  lemma {:induction false} UnionsDisagree(c: Context, v: ScVal, name: Text, cases: seq<UnionCase>)
    requires Find(c.spec, name) == Some(Union(name, cases)) && v.Vec?
    ensures !Agrees(c, v, TUdt(name))
  {
    hide Find, FindCase, ToJsonAll, PrintZip;
    if XdrToJson(c, v, TUdt(name)).Ok? {
      assert ScObjectToJson(c, v, TUdt(name)) == UdtToJson(c, name, v) == PrintUnion(c, cases, v);
      assert !PrintUnion(c, cases, v).value.JArray?;
    }
  }
}
