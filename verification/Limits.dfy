/**
 Where the codec's round trip and the agreement of its two printers stop, as exact conditions:
 each lemma gives both directions for one of the forms that `Readable` and `Plain` leave out.
 */
module Limits {
  import opened Wrappers
  import opened Octets
  import opened OrderedMap
  import opened ScValues
  import opened Json
  import opened SpecTypes
  import opened Codec
  import opened Typing
  import opened RoundTrip
  import opened Agreement
  import Decimal
  import Words

  // ----- Map keys: 128- and 256-bit integers, and keys that nest too deeply -----

  lemma {:induction false} BigTextFails(c: Context, s: Text, k: ScType)
    requires c.host.Bounded() && IsBigInt(StripOptions(k)) && s != [] && s[0] == QUOTE
    ensures FromString(c, s, k).Err?
  {
    if k.TOption? {
      BigTextFails(c, s, k.inner);
    } else {
      Decimal.QuoteIsNoInteger(s, 0, Words.U128_MAX);
      Decimal.QuoteIsNoInteger(s, Words.I128_MIN, Words.I128_MAX);
      Decimal.QuoteIsNoInteger(s, 0, Words.U256_MAX);
      Decimal.QuoteIsNoInteger(s, Words.I256_MIN, Words.I256_MAX);
      assert FromJson(c, JString(s), k) == FromJsonPrimitives(c.host, JString(s), k);
      hide FromJson;
    }
  }

  lemma {:induction false} OptionIsTransparent(c: Context, v: ScVal, t: ScType)
    requires !v.Void? && !v.VecNone? && !v.MapNone?
    ensures XdrToJson(c, v, TOption(t)) == XdrToJson(c, v, t)
  {
    hide ScObjectToJson, ScalarToJson;
  }

  lemma {:induction false} BigPrintsAsString(c: Context, key: ScVal, k: ScType)
    requires WellTyped(c, key, k) && IsBigInt(StripOptions(k)) && !key.Void?
    ensures XdrToJson(c, key, k).Ok? && XdrToJson(c, key, k).value.JString?
    ensures Utf8(XdrToJson(c, key, k).value.s)
    decreases Wraps(k)
  {
    if k.TOption? {
      TypedIsPresent(c, key, k.inner);
      OptionIsTransparent(c, key, k.inner);
      BigPrintsAsString(c, key, k.inner);
      hide XdrToJson, WellTyped;
    } else {
      assert XdrToJson(c, key, k) == ScalarToJson(c.host, key);
      BigTextIsUtf8(c.host, key);
      hide XdrToJson, WellTyped, ScalarToJson, Utf8;
    }
  }

  lemma {:induction false} BigPrintsQuoted(c: Context, key: ScVal, k: ScType)
    requires c.host.Lawful() && WellTyped(c, key, k) && IsBigInt(StripOptions(k)) && !key.Void?
    ensures XdrToJson(c, key, k).Ok?
    ensures var s := c.host.show(XdrToJson(c, key, k).value); s != [] && s[0] == QUOTE
  {
    hide XdrToJson, WellTyped, Utf8;
    BigPrintsAsString(c, key, k);
  }

  lemma {:induction false} BigTextIsUtf8(host: Platform, v: ScVal)
    requires v.U128? || v.I128? || v.U256? || v.I256?
    ensures ScalarToJson(host, v).Ok? && ScalarToJson(host, v).value.JString? && Utf8(ScalarToJson(host, v).value.s)
  {
    hide Decimal.Show, Utf8;
    var s := ScalarToJson(host, v).value.s;
    var n := match v
      case U128(hi, lo) => Words.JoinU128(hi, lo)
      case I128(hi, lo) => Words.JoinI128(hi, lo)
      case U256(x, y, z, w) => Words.JoinU256(x, y, z, w)
      case I256(x, y, z, w) => Words.JoinI256(x, y, z, w);
    ShowsAsUtf8(n, n, n);
  }

  lemma {:induction false} FailingMember(c: Context, ms: seq<Member>, k: ScType, w: ScType, i: nat)
    requires c.host.Bounded() && i < |ms| && FromString(c, ms[i].key, k).Err?
    ensures FromMembers(c, ms, k, w).Err?
  {
    hide FromString, FromJson;
    if i > 0 { FailingMember(c, ms[1..], k, w, i - 1); }
  }

  lemma {:induction false} PrintEntriesKeeps(c: Context, es: seq<ScMapEntry>, k: ScType, w: ScType, i: nat)
    requires PrintEntries(c, es, k, w).Ok? && i < |es|
    ensures |PrintEntries(c, es, k, w).value| == |es|
    ensures PrintEntry(c, es[i], k, w) == Ok(PrintEntries(c, es, k, w).value[i])
  {
    hide PrintEntry;
    if |es| > 1 { PrintEntriesKeeps(c, es[1..], k, w, if i > 0 then i - 1 else 0); }
  }

  lemma {:induction false} VoidKeyIsReadable(c: Context, k: ScType)
    ensures ReadableKey(c, Void, k)
  {
    VoidPrintsNull(c, k);
    hide XdrToJson;
  }

  /** Text that is no JSON and not "null" is looked at under the type inside the options. */
  lemma {:induction false} UnparsedText(c: Context, s: Text, k: ScType)
    requires c.host.Bounded() && c.host.parse(s).None? && s != NULL_TEXT
    ensures FromString(c, s, k) == FromString(c, s, StripOptions(k))
  {
    hide FromJson;
    if k.TOption? { UnparsedText(c, s, k.inner); }
  }

  lemma {:induction false} PrintsThroughOptions(c: Context, v: ScVal, k: ScType, j: Json)
    requires XdrToJson(c, v, k) == Ok(j) && !j.JNull?
    ensures XdrToJson(c, v, StripOptions(k)) == Ok(j)
  {
    if k.TOption? {
      OptionIsTransparent(c, v, k.inner);
      hide XdrToJson;
      PrintsThroughOptions(c, v, k.inner, j);
    }
  }

  /** Such text, if longer than a symbol, is only read under a primitive type. */
  lemma {:induction false} LongTextFails(c: Context, s: Text, t: ScType)
    requires c.host.Bounded() && c.host.parse(s).None? && |s| > MAX_SYMBOL && !IsPrimitive(t) && !t.TOption?
    ensures FromString(c, s, t).Err?
  {
    if t.TUdt? {
      UdtParses(c, JString(s), t.name);
      hide FromJson, Find, ParseStruct, ParseTupleStruct;
    }
  }

  /** The text of a key that nests too deeply is not read. */
  lemma {:induction false} DeepTextFails(c: Context, key: ScVal, k: ScType, j: Json)
    requires c.host.Lawful() && XdrToJson(c, key, k) == Ok(j) && Sound(j) && Depth(j) > MAX_JSON_DEPTH
    ensures c.host.Bounded() && FromString(c, c.host.show(j), k).Err?
  {
    hide FromString, XdrToJson, Utf8, Platform.Bounded;
    var s, t := c.host.show(j), StripOptions(k);
    DepthAtMostHeight(j);
    assert c.host.parse(c.host.show(JNull)) == Some(JNull) by { assert Sound(JNull) && Depth(JNull) == 0; }
    assert c.host.parse(s).None? && |s| > MAX_SYMBOL && s != NULL_TEXT;
    hide Platform.Lawful, Depth, Height, Sound;
    UnparsedText(c, s, k);
    PrintsThroughOptions(c, key, k, j);
    if IsPrimitive(t) {
      PrimitiveIsFlat(c, key, t, j);
      assert false;
    }
    StrippedIsNoOption(k);
    LongTextFails(c, s, t);
  }

  lemma {:induction false} StrippedIsNoOption(k: ScType)
    ensures !StripOptions(k).TOption?
  {
    if k.TOption? { StrippedIsNoOption(k.inner); }
  }

  lemma {:induction false} UnreadableKeyFails(c: Context, key: ScVal, k: ScType)
    requires c.host.Lawful() && c.host.Bounded() && WellTyped(c, key, k) && Survives(c, key, k) && !ReadableKey(c, key, k)
    ensures FromString(c, c.host.show(XdrToJson(c, key, k).value), k).Err?
  {
    hide WellTyped, XdrToJson, FromJson, FromString, Platform.Lawful, Platform.Bounded, Depth, Sound;
    var j := XdrToJson(c, key, k).value;
    if Depth(j) > MAX_JSON_DEPTH {
      DeepTextFails(c, key, k, j);
    } else {
      BigPrintsQuoted(c, key, k);
      BigTextFails(c, c.host.show(j), k);
    }
  }

  /**
   A map whose keys and values survive one by one is read back exactly when every key is readable: no
   integer of 128 or 256 bits, whose quotes would go to the integer parser, and printed within the depth
   that JSON text may have.
   */
  lemma {:induction false} MapKeysExact(c: Context, es: seq<ScMapEntry>, k: ScType, w: ScType)
    requires c.host.Lawful() && |es| <= U32_MAX && Ascending(Less, es)
    requires forall i :: 0 <= i < |es| ==> WellTyped(c, es[i].key, k) && Survives(c, es[i].key, k) && Survives(c, es[i].val, w)
    ensures c.host.Bounded() && (Survives(c, Map(es), TMap(k, w)) <==> forall i :: 0 <= i < |es| ==> ReadableKey(c, es[i].key, k))
  {
    hide Less, WellTyped, Survives, ReadableKey, XdrToJson, FromString, Platform.Lawful, Platform.Bounded, Ascending;
    LawfulIsBounded(c.host);
    if i :| 0 <= i < |es| && !ReadableKey(c, es[i].key, k) {
      UnreadableKeyFails(c, es[i].key, k);
      FailingKey(c, es, k, w, i);
    } else {
      ReadableEach(c, es, k, w);
      hide EachReads;
      MapSurvives(c, es, k, w);
    }
  }

  lemma {:induction false} ReadableEach(c: Context, es: seq<ScMapEntry>, k: ScType, w: ScType)
    requires c.host.Bounded() && forall i :: 0 <= i < |es| ==> Survives(c, es[i].key, k) && Survives(c, es[i].val, w)
    requires forall i :: 0 <= i < |es| ==> ReadableKey(c, es[i].key, k)
    ensures EachReads(c, es, k, w)
  {
    hide Survives, ReadableKey, Platform.Bounded;
    forall i | 0 <= i < |es| ensures Survives(c, es[i].key, k) && ReadableKey(c, es[i].key, k) && Survives(c, es[i].val, w) {
      assert ReadableKey(c, es[i].key, k);
    }
  }

  /** Keyed by big integers (optional or not), exactly when every key is `Void`. */
  lemma {:induction false} BigKeysExact(c: Context, es: seq<ScMapEntry>, k: ScType, w: ScType)
    requires c.host.Lawful() && |es| <= U32_MAX && Ascending(Less, es) && IsBigInt(StripOptions(k))
    requires forall i :: 0 <= i < |es| ==> WellTyped(c, es[i].key, k) && Survives(c, es[i].key, k) && Survives(c, es[i].val, w)
    ensures Survives(c, Map(es), TMap(k, w)) <==> forall i :: 0 <= i < |es| ==> es[i].key.Void?
  {
    hide Less, WellTyped, Survives, ReadableKey, XdrToJson, Platform.Lawful, Platform.Bounded, Ascending;
    MapKeysExact(c, es, k, w);
    forall i | 0 <= i < |es| ensures ReadableKey(c, es[i].key, k) <==> es[i].key.Void? {
      if es[i].key.Void? { VoidKeyIsReadable(c, k); } else { BigKeyIsUnreadable(c, es[i].key, k); }
    }
  }

  lemma {:induction false} BigKeyIsUnreadable(c: Context, key: ScVal, k: ScType)
    requires !key.Void? && IsBigInt(StripOptions(k))
    ensures !ReadableKey(c, key, k)
  {
    hide XdrToJson;
  }

  lemma {:induction false} FailingKey(c: Context, es: seq<ScMapEntry>, k: ScType, w: ScType, i: nat)
    requires c.host.Bounded() && i < |es|
    requires XdrToJson(c, es[i].key, k).Ok? ==> FromString(c, c.host.show(XdrToJson(c, es[i].key, k).value), k).Err?
    ensures !Survives(c, Map(es), TMap(k, w))
  {
    hide Survives, PrintEntries, FromMembers, XdrToJson, FromString, Platform.Bounded;
    if Survives(c, Map(es), TMap(k, w)) {
      PrintedMapParses(c, es, k, w);
      var ms := PrintEntries(c, es, k, w).value;
      PrintEntriesKeeps(c, es, k, w, i);
      var at := CollectKeepsKey(ms, i);
      FailingMember(c, Collect(TextLess, ms), k, w, at);
      assert false;
    }
  }

  lemma {:induction false} PrintedMapParses(c: Context, es: seq<ScMapEntry>, k: ScType, w: ScType)
    requires c.host.Bounded() && Survives(c, Map(es), TMap(k, w))
    ensures PrintEntries(c, es, k, w).Ok? && FromMembers(c, Collect(TextLess, PrintEntries(c, es, k, w).value), k, w).Ok?
  {
    hide PrintEntries, FromMembers, Sound;
    assert XdrToJson(c, Map(es), TMap(k, w)) == ScObjectToJson(c, Map(es), TMap(k, w));
    var o := XdrToJson(c, Map(es), TMap(k, w)).value;
    assert FromJson(c, o, TMap(k, w)) == ParseMap(c, o.members, k, w);
  }

  /** Every key of a list is still there after collecting, at some position. */
  lemma {:induction false} CollectKeepsKey(ms: seq<Member>, i: nat) returns (at: nat)
    requires i < |ms|
    ensures at < |Collect(TextLess, ms)| && Collect(TextLess, ms)[at].key == ms[i].key
  {
    TextLessIsStrictOrder();
    var front, last := ms[..|ms| - 1], ms[|ms| - 1];
    assert Collect(TextLess, ms) == Put(TextLess, Collect(TextLess, front), last.key, last.val);
    hide TextLess, Collect, Put;
    CollectSpec(TextLess, front);
    PutSpec(TextLess, Collect(TextLess, front), last.key, last.val);
    hide StrictOrder, Ascending, SameElements, DistinctKeys;
    var m := Collect(TextLess, ms);
    if i == |ms| - 1 || ms[i].key == last.key {
      assert Pair(last.key, last.val) in m;
      at := IndexOf(m, Pair(last.key, last.val));
    } else {
      var b := CollectKeepsKey(front, i);
      assert Collect(TextLess, front)[b] in m;
      at := IndexOf(m, Collect(TextLess, front)[b]);
    }
  }

  // ----- Struct fields out of order -----

  /** Read back, a struct has at each declared name the value printed at that position. */
  lemma {:induction false} ReadBackByPosition(c: Context, fields: seq<Field>, es: seq<ScMapEntry>, members: seq<Member>, p: nat)
    requires c.host.Bounded() && p < |fields|
    requires FromFields(c, fields, members) == Ok(es)
    ensures |es| == |fields| && es[p].key == Symbol(fields[p].name)
    ensures Get(members, fields[p].name).Some?
    ensures FromJson(c, Get(members, fields[p].name).value, fields[p].type_) == Ok(es[p].val)
  {
    hide FromJson, Get;
    var rest := FromFields(c, fields[1..], members).value;
    assert es[1..] == rest;
    if p > 0 {
      ReadBackByPosition(c, fields[1..], rest, members, p - 1);
    } else if |fields| > 1 {
      ReadBackByPosition(c, fields[1..], rest, members, 0);
    }
  }

  lemma {:induction false} PrintFieldsKeeps(c: Context, fields: seq<Field>, es: seq<ScMapEntry>, p: nat)
    requires PrintFields(c, fields, es).Ok? && |es| == |fields| && p < |es|
    ensures |PrintFields(c, fields, es).value| == |es|
    ensures PrintField(c, fields[p], es[p]) == Ok(PrintFields(c, fields, es).value[p])
  {
    hide PrintField;
    if |es| > 1 { PrintFieldsKeeps(c, fields[1..], es[1..], if p > 0 then p - 1 else 0); }
  }

  lemma {:induction false} PrintedStructParses(c: Context, name: Text, fields: seq<Field>, es: seq<ScMapEntry>)
    requires c.host.Bounded() && Survives(c, Map(es), TUdt(name))
    requires Find(c.spec, name) == Some(Struct(name, fields)) && !IsTupleStruct(fields)
    ensures PrintFields(c, fields, es).Ok? && Sound(JObject(Collect(TextLess, PrintFields(c, fields, es).value)))
    ensures ParseStruct(c, fields, Collect(TextLess, PrintFields(c, fields, es).value)) == Ok(Map(es))
  {
    hide PrintFields, ParseStruct, Sound, Find, IsTupleStruct, Collect;
    assert XdrToJson(c, Map(es), TUdt(name)) == ScObjectToJson(c, Map(es), TUdt(name));
    var o := XdrToJson(c, Map(es), TUdt(name)).value;
    assert FromJson(c, o, TUdt(name)) == ParseUdt(c, name, o);
  }

  lemma {:induction false} FieldMemberKept(c: Context, fields: seq<Field>, es: seq<ScMapEntry>, ms: seq<Member>, p: nat)
    requires PrintFields(c, fields, es) == Ok(ms) && |es| == |fields| && p < |es| && DistinctNames(fields)
    ensures |ms| == |es| && DistinctKeys(ms) && Get(Collect(TextLess, ms), fields[p].name) == Some(ms[p].val)
  {
    hide PrintFields, XdrToJson, TextLess;
    PrintFieldsKeeps(c, fields, es, p);
    forall q | 0 <= q < |es| ensures ms[q].key == fields[q].name { PrintFieldsKeeps(c, fields, es, q); }
    forall i, j | 0 <= i < j < |ms| ensures ms[i].key != ms[j].key { assert fields[i].name != fields[j].name; }
    TextLessIsStrictOrder();
    CollectSpec(TextLess, ms);
    var members := Collect(TextLess, ms);
    AscendingDistinct(TextLess, members);
    LookupSpec(members, fields[p].name);
    assert ms[p] in members;
  }

  lemma {:induction false} SoundMember(ms: seq<Member>, m: Member)
    requires DistinctKeys(ms) && m in ms && Sound(JObject(Collect(TextLess, ms)))
    ensures Sound(m.val)
  {
    ObjectKeeps(ms);
    assert m in Collect(TextLess, ms);
  }

  /** Distinct fields are as many as the entries they name. */
  lemma {:induction false} FieldCount(fields: seq<Field>, es: seq<ScMapEntry>)
    requires DistinctNames(fields) && Ascending(Less, es) && KeysAreFields(fields, es)
    ensures |fields| == |es|
  {
    var keys := SortedNames(fields, Void);
    hide Less, HasKey, HasName;
    LessIsStrictOrder();
    forall i | 0 <= i < |keys| ensures HasKey(es, keys[i].key) { SharesKey(fields, keys, es, i); }
    forall i | 0 <= i < |es| ensures HasKey(keys, es[i].key) { SharesKey(fields, es, keys, i); }
    KeysAgree(Less, keys, es);
  }

  lemma {:induction false} SharesKey(fields: seq<Field>, s: seq<ScMapEntry>, t: seq<ScMapEntry>, i: nat)
    requires KeysAreFields(fields, s) && KeysAreFields(fields, t) && i < |s|
    ensures HasKey(t, s[i].key)
  {
    assert HasName(fields, s[i].key);
  }

  /** The names as keys in ascending order, all holding one value. */
  lemma {:induction false} SortedNames(fields: seq<Field>, v: ScVal) returns (keys: seq<ScMapEntry>)
    requires DistinctNames(fields)
    ensures Ascending(Less, keys) && |keys| == |fields| && KeysAreFields(fields, keys)
    ensures forall i :: 0 <= i < |keys| ==> keys[i].val == v
  {
    hide Less, Collect;
    LessIsStrictOrder();
    var named: seq<ScMapEntry> := seq(|fields|, i requires 0 <= i < |fields| => Pair(Symbol(fields[i].name), v));
    assert DistinctKeys(named);
    CollectSpec(Less, named);
    keys := Collect(Less, named);
    hide StrictOrder, Ascending;
    forall i | 0 <= i < |fields| ensures HasKey(keys, Symbol(fields[i].name)) {
      assert named[i] in keys;
      var j := IndexOf(keys, named[i]);
    }
    forall j | 0 <= j < |keys| ensures HasName(fields, keys[j].key) && keys[j].val == v {
      assert keys[j] in named;
      var i := IndexOf(named, keys[j]);
    }
  }

  lemma {:induction false} OwnIsRead(c: Context, fields: seq<Field>, es: seq<ScMapEntry>, ms: seq<Member>, read: seq<ScMapEntry>, p: nat)
    requires c.host.Bounded() && DistinctNames(fields) && p < |fields| == |es| && Ascending(Less, es)
    requires PrintFields(c, fields, es) == Ok(ms) && Sound(JObject(Collect(TextLess, ms)))
    requires FromFields(c, fields, Collect(TextLess, ms)) == Ok(read) && SortedFrom(Less, read) == Some(es)
    ensures ReadsAsOwn(c, fields[p], es[p], es)
  {
    hide Less, PrintFields, FromFields, XdrToJson, FromJson, Collect, TextLess, SortedFrom, Lookup, Sound, Platform.Bounded;
    ReadBackByPosition(c, fields, read, Collect(TextLess, ms), p);
    PrintFieldsKeeps(c, fields, es, p);
    FieldMemberKept(c, fields, es, ms, p);
    SoundMember(ms, ms[p]);
    ReadIsOwn(es, read, p);
  }

  lemma {:induction false} ReadIsOwn(es: seq<ScMapEntry>, read: seq<ScMapEntry>, p: nat)
    requires Ascending(Less, es) && SortedFrom(Less, read) == Some(es) && p < |read|
    ensures Lookup(es, read[p].key) == Some(read[p].val)
  {
    hide Less, SortedFrom;
    LessIsStrictOrder();
    SortedFromSpec(Less, read);
    AscendingDistinct(Less, es);
    hide Ascending, StrictOrder;
    assert read[p] in es;
    LookupSpec(es, read[p].key);
  }

  /**
   For any field types: a struct value is read back exactly when the value at every field's position,
   printed under the field's type, reads as the value held under the field's name.
   */
  lemma {:induction false} StructSurvivesExactly(c: Context, name: Text, fields: seq<Field>, es: seq<ScMapEntry>)
    requires c.host.Bounded() && Find(c.spec, name) == Some(Struct(name, fields)) && !IsTupleStruct(fields)
    requires DistinctNames(fields) && Ascending(Less, es) && KeysAreFields(fields, es) && |es| <= U32_MAX
    requires forall i :: 0 <= i < |fields| ==> |fields[i].name| <= MAX_SYMBOL && Utf8(fields[i].name)
    ensures |fields| == |es|
    ensures Survives(c, Map(es), TUdt(name)) <==> forall p :: 0 <= p < |fields| ==> ReadsAsOwn(c, fields[p], es[p], es)
  {
    hide Less, TextLess, Collect, Survives, Find, IsTupleStruct, PrintFields, FromFields, ReadsAsOwn, Utf8, Sound, SortedFrom;
    hide KeysAreFields, DistinctNames, Ascending, Platform.Bounded;
    FieldCount(fields, es);
    if Survives(c, Map(es), TUdt(name)) {
      PrintedStructParses(c, name, fields, es);
      var ms := PrintFields(c, fields, es).value;
      var read := FromFields(c, fields, Collect(TextLess, ms)).value;
      assert SortedFrom(Less, read) == Some(es);
      forall p | 0 <= p < |fields| ensures ReadsAsOwn(c, fields[p], es[p], es) {
        OwnIsRead(c, fields, es, ms, read, p);
      }
    }
    if forall p :: 0 <= p < |fields| ==> ReadsAsOwn(c, fields[p], es[p], es) {
      StructReads(c, name, fields, es);
    }
  }

  lemma {:induction false} SurvivorReads(c: Context, f: Field, e: ScMapEntry, es: seq<ScMapEntry>)
    requires c.host.Bounded() && Survives(c, e.val, f.type_)
    ensures ReadsAsOwn(c, f, e, es) <==> Lookup(es, Symbol(f.name)) == Some(e.val)
  {
    hide XdrToJson, FromJson, Sound, Lookup;
  }

  /** With one type for all fields, exactly when every field's position holds the value of its name. */
  lemma {:induction false} OneTypeExactly(c: Context, name: Text, fields: seq<Field>, es: seq<ScMapEntry>, t: ScType)
    requires c.host.Bounded() && Find(c.spec, name) == Some(Struct(name, fields)) && !IsTupleStruct(fields)
    requires DistinctNames(fields) && Ascending(Less, es) && KeysAreFields(fields, es) && |es| <= U32_MAX
    requires forall i :: 0 <= i < |fields| ==> |fields[i].name| <= MAX_SYMBOL && Utf8(fields[i].name) && fields[i].type_ == t
    requires forall i :: 0 <= i < |es| ==> Survives(c, es[i].val, t)
    ensures |fields| == |es|
    ensures Survives(c, Map(es), TUdt(name)) <==>
      forall p :: 0 <= p < |fields| ==> Lookup(es, Symbol(fields[p].name)) == Some(es[p].val)
  {
    hide Less, Survives, Find, IsTupleStruct, ReadsAsOwn, Utf8, Lookup, KeysAreFields, DistinctNames, Ascending, Platform.Bounded;
    StructSurvivesExactly(c, name, fields, es);
    forall p | 0 <= p < |fields|
      ensures ReadsAsOwn(c, fields[p], es[p], es) <==> Lookup(es, Symbol(fields[p].name)) == Some(es[p].val)
    {
      SurvivorReads(c, fields[p], es[p], es);
    }
  }

  /** No two values are of the type. */
  ghost predicate OneValue(c: Context, t: ScType) {
    forall x, y :: WellTyped(c, x, t) && WellTyped(c, y, t) ==> x == y
  }

  ghost predicate AllSurvive(c: Context, t: ScType)
    requires c.host.Bounded()
  {
    forall v :: WellTyped(c, v, t) ==> Survives(c, v, t)
  }

  /**
   For structs whose fields share a type of which every value survives: every struct value is read back
   exactly when the fields are declared in symbol order, or the type has no two values to mix up.
   */
  lemma {:induction false} FieldOrderExact(c: Context, name: Text, fields: seq<Field>, t: ScType)
    requires c.host.Bounded() && Find(c.spec, name) == Some(Struct(name, fields)) && !IsTupleStruct(fields)
    requires DistinctNames(fields) && |fields| <= U32_MAX && AllSurvive(c, t)
    requires forall i :: 0 <= i < |fields| ==> |fields[i].name| <= MAX_SYMBOL && Utf8(fields[i].name) && fields[i].type_ == t
    ensures AllSurvive(c, TUdt(name)) <==> FieldsAscend(fields) || OneValue(c, t)
  {
    hide WellTyped, Survives, Find, IsTupleStruct, FieldsAscend, DistinctNames, Utf8, Platform.Bounded;
    if FieldsAscend(fields) || OneValue(c, t) {
      forall v | WellTyped(c, v, TUdt(name)) ensures Survives(c, v, TUdt(name)) {
        UniformStructSurvives(c, name, fields, t, v);
      }
    } else {
      var x, y :| WellTyped(c, x, t) && WellTyped(c, y, t) && x != y;
      MixedUp(c, name, fields, t, x, y);
    }
  }

  lemma {:induction false} UniformStruct(c: Context, name: Text, fields: seq<Field>, t: ScType, v: ScVal)
    requires Find(c.spec, name) == Some(Struct(name, fields)) && !IsTupleStruct(fields) && WellTyped(c, v, TUdt(name))
    requires forall i :: 0 <= i < |fields| ==> fields[i].type_ == t
    ensures v.Map? && |v.entries| <= U32_MAX && Ascending(Less, v.entries) && KeysAreFields(fields, v.entries)
    ensures forall j :: 0 <= j < |v.entries| ==> WellTyped(c, v.entries[j].val, t)
  {
    hide Find, IsTupleStruct, Less;
    forall j | 0 <= j < |v.entries| ensures WellTyped(c, v.entries[j].val, t) {
      assert HasName(fields, v.entries[j].key);
      var i :| 0 <= i < |fields| && v.entries[j].key == Symbol(fields[i].name);
      assert Matches(fields[i], v.entries[j]);
    }
  }

  lemma {:induction false} UniformStructSurvives(c: Context, name: Text, fields: seq<Field>, t: ScType, v: ScVal)
    requires c.host.Bounded() && Find(c.spec, name) == Some(Struct(name, fields)) && !IsTupleStruct(fields)
    requires DistinctNames(fields) && AllSurvive(c, t) && WellTyped(c, v, TUdt(name))
    requires forall i :: 0 <= i < |fields| ==> |fields[i].name| <= MAX_SYMBOL && Utf8(fields[i].name) && fields[i].type_ == t
    requires FieldsAscend(fields) || OneValue(c, t)
    ensures Survives(c, v, TUdt(name))
  {
    hide WellTyped, Survives, Find, IsTupleStruct, Utf8, Platform.Bounded, Less, Lookup, KeysAreFields, FieldsAscend, DistinctNames;
    UniformStruct(c, name, fields, t, v);
    var es := v.entries;
    OneTypeExactly(c, name, fields, es, t);
    EntriesSortBack(es, es);
    if FieldsAscend(fields) { FieldPositions(fields, es); }
    hide Ascending;
    forall p | 0 <= p < |fields| ensures Lookup(es, Symbol(fields[p].name)) == Some(es[p].val) {
      OwnHeld(fields, es, p);
    }
  }

  /** The value under a field's name is some entry's, the one at its position if that has the name. */
  lemma {:induction false} OwnHeld(fields: seq<Field>, es: seq<ScMapEntry>, p: nat)
    requires KeysAreFields(fields, es) && DistinctKeys(es) && p < |fields| == |es|
    ensures exists j :: 0 <= j < |es| && Matches(fields[p], es[j]) && Lookup(es, Symbol(fields[p].name)) == Some(es[j].val)
    ensures Matches(fields[p], es[p]) ==> Lookup(es, Symbol(fields[p].name)) == Some(es[p].val)
  {
    hide Lookup;
    assert HasKey(es, Symbol(fields[p].name));
    var j :| 0 <= j < |es| && es[j].key == Symbol(fields[p].name);
    LookupSpec(es, Symbol(fields[p].name));
    assert es[j] in es && es[p] in es;
    assert Matches(fields[p], es[j]);
  }

  /** Out of order, some position holds another field's entry: the struct with a second value there is not read back. */
  lemma {:induction false} MixedUp(c: Context, name: Text, fields: seq<Field>, t: ScType, x: ScVal, y: ScVal)
    requires c.host.Bounded() && Find(c.spec, name) == Some(Struct(name, fields)) && !IsTupleStruct(fields)
    requires DistinctNames(fields) && !FieldsAscend(fields) && |fields| <= U32_MAX && AllSurvive(c, t)
    requires forall i :: 0 <= i < |fields| ==> |fields[i].name| <= MAX_SYMBOL && Utf8(fields[i].name) && fields[i].type_ == t
    requires WellTyped(c, x, t) && WellTyped(c, y, t) && x != y
    ensures !AllSurvive(c, TUdt(name))
  {
    hide WellTyped, Survives, Find, IsTupleStruct, Utf8, Platform.Bounded, Less, Lookup, FieldsAscend, DistinctNames, KeysAreFields, Ascending;
    var es, p := Misplaced(fields, x, y);
    StructIsTyped(c, name, fields, t, es);
    OneTypeExactly(c, name, fields, es, t);
    assert !Survives(c, Map(es), TUdt(name));
  }

  lemma {:induction false} Misplaced(fields: seq<Field>, x: ScVal, y: ScVal) returns (es: seq<ScMapEntry>, p: nat)
    requires DistinctNames(fields) && !FieldsAscend(fields)
    ensures Ascending(Less, es) && KeysAreFields(fields, es) && p < |fields| == |es|
    ensures forall j :: 0 <= j < |es| ==> es[j].val == x || es[j].val == y
    ensures es[p].val == x && Lookup(es, Symbol(fields[p].name)) == Some(y)
  {
    hide Less, Lookup, FieldsAscend, DistinctNames, Ascending, KeysAreFields, DistinctKeys;
    var keys := SortedNames(fields, y);
    p := OutOfPlace(fields, keys);
    es := keys[p := Pair(keys[p].key, x)];
    SameKeysSameFields(fields, keys, es);
    OwnHeld(fields, es, p);
    var j :| 0 <= j < |es| && Matches(fields[p], es[j]) && Lookup(es, Symbol(fields[p].name)) == Some(es[j].val);
    assert j != p && es[j] == keys[j];
  }

  lemma {:induction false} SameKeysSameFields(fields: seq<Field>, s: seq<ScMapEntry>, t: seq<ScMapEntry>)
    requires KeysAreFields(fields, s) && Ascending(Less, s) && |s| == |t| && forall j :: 0 <= j < |s| ==> t[j].key == s[j].key
    ensures KeysAreFields(fields, t) && Ascending(Less, t) && DistinctKeys(t)
  {
    hide Less;
    assert Ascending(Less, t);
    EntriesSortBack(t, t);
    hide Ascending, DistinctKeys;
    forall i | 0 <= i < |fields| ensures HasKey(t, Symbol(fields[i].name)) {
      assert HasKey(s, Symbol(fields[i].name));
      var j :| 0 <= j < |s| && s[j].key == Symbol(fields[i].name);
      assert t[j].key == Symbol(fields[i].name);
    }
  }

  lemma {:induction false} OutOfPlace(fields: seq<Field>, keys: seq<ScMapEntry>) returns (p: nat)
    requires !FieldsAscend(fields) && Ascending(Less, keys) && |keys| == |fields|
    ensures p < |fields| && !Matches(fields[p], keys[p])
  {
    hide Less, TextLess;
    var i, j :| 0 <= i < j < |fields| && !TextLess(fields[i].name, fields[j].name);
    SymbolOrder(fields[i].name, fields[j].name);
    assert Less(keys[i].key, keys[j].key);
    p := if Matches(fields[i], keys[i]) then j else i;
  }

  lemma {:induction false} StructIsTyped(c: Context, name: Text, fields: seq<Field>, t: ScType, es: seq<ScMapEntry>)
    requires Find(c.spec, name) == Some(Struct(name, fields)) && !IsTupleStruct(fields) && |es| <= U32_MAX
    requires Ascending(Less, es) && KeysAreFields(fields, es)
    requires forall i :: 0 <= i < |fields| ==> fields[i].type_ == t && |fields[i].name| <= MAX_SYMBOL
    requires forall j :: 0 <= j < |es| ==> WellTyped(c, es[j].val, t)
    ensures WellTyped(c, Map(es), TUdt(name))
  {
    hide Find, IsTupleStruct, Less, KeysAreFields;
    assert WellTypedFields(c, Map(es), fields);
  }

  /** For u32, which has more than one value, exactly the symbol order. */
  lemma {:induction false} U32OrderExact(c: Context, name: Text, fields: seq<Field>)
    requires c.host.Bounded() && Find(c.spec, name) == Some(Struct(name, fields)) && !IsTupleStruct(fields)
    requires DistinctNames(fields) && |fields| <= U32_MAX
    requires forall i :: 0 <= i < |fields| ==> |fields[i].name| <= MAX_SYMBOL && Utf8(fields[i].name) && fields[i].type_ == TU32
    ensures AllSurvive(c, TUdt(name)) <==> FieldsAscend(fields)
  {
    hide Survives, Find, IsTupleStruct, FieldsAscend, DistinctNames, Utf8, Platform.Bounded, XdrToJson, FromJson;
    assert forall v :: WellTyped(c, v, TU32) <==> v.U32?;
    hide WellTyped;
    forall v | WellTyped(c, v, TU32) ensures Survives(c, v, TU32) { NumbersSurvive(c, v, TU32); }
    assert WellTyped(c, U32(0), TU32) && WellTyped(c, U32(1), TU32);
    FieldOrderExact(c, name, fields, TU32);
  }

  // ----- Unions whose payload looks like a numbered list -----

  /** A value printed as an object with a member "0" is not read back from a list. */
  lemma {:induction false} NumberedObjectNeedsObject(c: Context, x: ScVal, t: ScType, j: Json, items: seq<Json>)
    requires c.host.Bounded() && PrintsAndParses(c, x, t, j) && LooksNumbered(j)
    requires forall js :: c.host.deserialize(JArray(js)).None?
    ensures FromJson(c, JArray(items), t) != Ok(x)
    decreases Wraps(t)
  {
    if t.TOption? {
      OptionOfObject(c, x, t.inner, j, items);
      hide XdrToJson, FromJson;
      NumberedObjectNeedsObject(c, x, t.inner, j, items);
    } else if t.TUdt? {
      NumberedUdt(c, x, t.name, j, items);
      hide XdrToJson, FromJson;
    } else if IsPrimitive(t) {
      PrimitiveIsFlat(c, x, t, j);
      hide XdrToJson, FromJson;
    } else {
      NoListParses(c, x, t, j, items);
      hide XdrToJson, FromJson;
    }
  }

  lemma {:induction false} OptionOfObject(c: Context, x: ScVal, t: ScType, j: Json, items: seq<Json>)
    requires c.host.Bounded() && PrintsAndParses(c, x, TOption(t), j) && j.JObject?
    ensures PrintsAndParses(c, x, t, j)
    ensures FromJson(c, JArray(items), TOption(t)) == FromJson(c, JArray(items), t)
  {
    hide ScObjectToJson, ScalarToJson, FromJsonPrimitives, ParseMap, ParseUdt, ParseTuple, FromItems, Sound;
    PrintedObjectIsComposite(c, x, TOption(t), j);
    assert XdrToJson(c, x, TOption(t)) == XdrToJson(c, x, t);
  }

  lemma {:induction false} PrintedObjectIsComposite(c: Context, x: ScVal, t: ScType, j: Json)
    requires XdrToJson(c, x, t) == Ok(j) && j.JObject?
    ensures x.Map? || x.Vec? || x.U32?
    decreases Wraps(t)
  {
    hide ScObjectToJson;
    if !(x.Map? || x.Vec? || x.U32?) && !PrintsAsNull(x, t) && !PrintsAsScalar(x, t) {
      if t.TResult? {
        PrintedObjectIsComposite(c, x, t.ok, j);
      } else if t.TOption? {
        PrintedObjectIsComposite(c, x, t.inner, j);
      }
    }
  }

  lemma {:induction false} PrimitiveIsFlat(c: Context, x: ScVal, t: ScType, j: Json)
    requires IsPrimitive(t) && XdrToJson(c, x, t) == Ok(j)
    ensures !j.JObject? && !j.JArray? && Depth(j) == 0
  {
    hide ScalarToJson, ScObjectToJson;
    if x.Map? || x.Vec? || x.U32? { NoPrimitiveObject(c, x, t); }
    ScalarIsFlat(c.host, x);
  }

  lemma {:induction false} NoPrimitiveObject(c: Context, x: ScVal, t: ScType)
    requires IsPrimitive(t) && (x.Map? || x.Vec? || x.U32?)
    ensures ScObjectToJson(c, x, t).Err?
  {
  }

  lemma {:induction false} ScalarIsFlat(host: Platform, v: ScVal)
    ensures ScalarToJson(host, v).Ok? && !v.VecNone? && !v.MapNone? ==>
      !ScalarToJson(host, v).value.JObject? && !ScalarToJson(host, v).value.JArray?
  {
    hide Decimal.Show, Utf8;
  }

  lemma {:induction false} NoListParses(c: Context, x: ScVal, t: ScType, j: Json, items: seq<Json>)
    requires c.host.Bounded() && XdrToJson(c, x, t) == Ok(j) && j.JObject?
    requires !t.TOption? && !t.TUdt? && !IsPrimitive(t)
    requires forall js :: c.host.deserialize(JArray(js)).None?
    ensures FromJson(c, JArray(items), t) != Ok(x)
  {
    hide PrintItems, PrintZip, PrintEntries, FromItems, FromZip, Collect;
  }

  lemma {:induction false} PrintFieldsNames(c: Context, fields: seq<Field>, es: seq<ScMapEntry>, m: Member)
    requires PrintFields(c, fields, es).Ok? && m in PrintFields(c, fields, es).value
    ensures exists i :: 0 <= i < |fields| && fields[i].name == m.key
  {
    hide XdrToJson;
    if es != [] && fields != [] {
      var head, rest := PrintField(c, fields[0], es[0]).value, PrintFields(c, fields[1..], es[1..]).value;
      assert PrintFields(c, fields, es).value == [head] + rest;
      if m == head {
        assert fields[0].name == m.key;
      } else {
        PrintFieldsNames(c, fields[1..], es[1..], m);
        var i :| 0 <= i < |fields[1..]| && fields[1..][i].name == m.key;
        assert fields[i + 1].name == m.key;
      }
    }
  }

  lemma {:induction false} NumberedUdt(c: Context, x: ScVal, name: Text, j: Json, items: seq<Json>)
    requires c.host.Bounded() && PrintsAndParses(c, x, TUdt(name), j) && LooksNumbered(j)
    ensures FromJson(c, JArray(items), TUdt(name)) != Ok(x)
  {
    UdtPrintsAndParses(c, x, name, j);
    UdtParses(c, JArray(items), name);
    hide XdrToJson, FromJson, Find, Sound, LooksNumbered, UdtToJson, ParseUdt, Platform.Bounded;
    match Find(c.spec, name)
    case Some(Struct(_, fields)) => NumberedStructFails(c, x, name, fields, j);
    case Some(Union(_, cases)) => UnionTakesNoList(c, name, cases, items);
    case _ => OtherTakesNoList(c, name, items);
  }

  /** No struct value that prints as a numbered object is read back. */
  lemma {:induction false} NumberedStructFails(c: Context, x: ScVal, name: Text, fields: seq<Field>, j: Json)
    requires c.host.Bounded() && Find(c.spec, name) == Some(Struct(name, fields)) && LooksNumbered(j)
    requires (x.Map? || x.Vec? || x.U32?) && UdtToJson(c, name, x) == Ok(j)
    ensures ParseUdt(c, name, j) != Ok(x)
  {
    hide Find, PrintFields, PrintZip, ParseTupleStruct, ParseStruct, Get, Collect, Platform.Bounded;
    if x.Map? { MapIsNotNumbered(c, x.entries, name, fields, j); }
  }

  lemma {:induction false} UnionTakesNoList(c: Context, name: Text, cases: seq<UnionCase>, items: seq<Json>)
    requires c.host.Bounded() && Find(c.spec, name) == Some(Union(name, cases))
    ensures ParseUdt(c, name, JArray(items)) == Err(Panic)
  {
    hide Find, Platform.Bounded;
    assert ParseUnion(c, cases, JArray(items)) == Err(Panic);
  }

  lemma {:induction false} OtherTakesNoList(c: Context, name: Text, items: seq<Json>)
    requires c.host.Bounded() && (Find(c.spec, name).Some? ==> !Find(c.spec, name).value.Struct? && !Find(c.spec, name).value.Union?)
    ensures ParseUdt(c, name, JArray(items)).Err?
  {
    hide Find, Platform.Bounded;
  }

  lemma {:induction false} MapIsNotNumbered(c: Context, es: seq<ScMapEntry>, name: Text, fields: seq<Field>, j: Json)
    requires c.host.Bounded() && Find(c.spec, name) == Some(Struct(name, fields))
    requires UdtToJson(c, name, Map(es)) == Ok(j) && LooksNumbered(j)
    ensures ParseUdt(c, name, j) != Ok(Map(es))
  {
    hide Find, PrintFields, ParseTupleStruct, ParseStruct, Get, Collect, Positional, IsTupleStruct;
    NumberedStruct(c, es, fields, j);
    var positional := Positional(j.members, |j.members|);
    if positional.Some? { TupleStructIsVec(c, fields, positional.value); }
  }

  lemma {:induction false} UdtPrintsAndParses(c: Context, x: ScVal, name: Text, j: Json)
    requires c.host.Bounded() && PrintsAndParses(c, x, TUdt(name), j) && j.JObject?
    ensures x.Map? || x.Vec? || x.U32?
    ensures UdtToJson(c, name, x) == Ok(j) && ParseUdt(c, name, j) == Ok(x)
  {
    hide UdtToJson, ParseUdt, Sound, FromJson, Platform.Bounded;
    UdtParses(c, j, name);
    CompositePrints(c, x, name, j);
  }

  lemma {:induction false} CompositePrints(c: Context, x: ScVal, name: Text, j: Json)
    requires XdrToJson(c, x, TUdt(name)) == Ok(j) && j.JObject?
    ensures (x.Map? || x.Vec? || x.U32?) && UdtToJson(c, name, x) == Ok(j)
  {
    PrintedObjectIsComposite(c, x, TUdt(name), j);
    hide UdtToJson, ScalarToJson;
    assert XdrToJson(c, x, TUdt(name)) == ScObjectToJson(c, x, TUdt(name));
  }

  lemma {:induction false} NumberedStruct(c: Context, es: seq<ScMapEntry>, fields: seq<Field>, j: Json)
    requires PrintFields(c, fields, es).Ok? && j == JObject(Collect(TextLess, PrintFields(c, fields, es).value)) && LooksNumbered(j)
    ensures IsTupleStruct(fields)
  {
    hide PrintFields, TextLess;
    var ms := PrintFields(c, fields, es).value;
    TextLessIsStrictOrder();
    CollectSpec(TextLess, ms);
    LookupSpec(j.members, ZERO_NAME);
    var m := Pair(ZERO_NAME, Get(j.members, ZERO_NAME).value);
    assert m in ms;
    PrintFieldsNames(c, fields, es, m);
  }

  lemma {:induction false} TupleStructIsVec(c: Context, fields: seq<Field>, items: seq<Json>)
    requires c.host.Bounded()
    ensures ParseTupleStruct(c, fields, items).Ok? ==> ParseTupleStruct(c, fields, items).value.Vec?
  {
    hide FromZip, FieldTypes;
  }

  /**
   A union value with one payload is read back exactly when the payload does not look numbered,
   given that the payload by itself is, and that serde reads no value from a JSON array.
   */
  lemma {:induction false} SinglePayloadExact(c: Context, name: Text, cases: seq<UnionCase>, tag: Text, t: ScType, x: ScVal, j: Json)
    requires c.host.Bounded() && Find(c.spec, name) == Some(Union(name, cases))
    requires FindCase(cases, tag) == Some(TupleCase(tag, [t])) && |tag| <= MAX_SYMBOL && Utf8(tag)
    requires PrintsAndParses(c, x, t, j)
    requires forall js :: c.host.deserialize(JArray(js)).None?
    ensures Survives(c, Vec([Symbol(tag), x]), TUdt(name)) <==> !LooksNumbered(j)
  {
    hide Survives, Find, FindCase, Utf8, XdrToJson, FromJson, Sound, ParseUdt, UdtToJson, ParseUnion, LooksNumbered;
    if LooksNumbered(j) {
      UnionPrintsPayload(c, name, cases, tag, t, x, j);
      NumberedPayloadFails(c, cases, tag, t, x, j);
    } else {
      SinglePayloadSurvives(c, name, cases, tag, t, x, j);
    }
  }

  lemma {:induction false} NumberedPayloadFails(c: Context, cases: seq<UnionCase>, tag: Text, t: ScType, x: ScVal, j: Json)
    requires c.host.Bounded() && FindCase(cases, tag) == Some(TupleCase(tag, [t])) && |tag| <= MAX_SYMBOL
    requires PrintsAndParses(c, x, t, j) && LooksNumbered(j)
    requires forall js :: c.host.deserialize(JArray(js)).None?
    ensures ParseUnion(c, cases, JObject([Pair(tag, j)])) != Ok(Vec([Symbol(tag), x]))
  {
    hide FindCase, XdrToJson, FromJson, PrintsAndParses, Positional, Get;
    var o := JObject([Pair(tag, j)]);
    match UnionPayload(j)
    case None => assert ParseUnion(c, cases, o).Err?;
    case Some(payload) =>
      NumberedObjectNeedsObject(c, x, t, j, payload.items);
      assert ParseUnion(c, cases, o) == ParsePayload(c, tag, TupleCase(tag, [t]), payload);
      assert ParsePayload(c, tag, TupleCase(tag, [t]), payload) != Ok(Vec([Symbol(tag), x])) by {
        if FromJson(c, payload, t).Ok? {
          var got := Vec([Symbol(tag), FromJson(c, payload, t).value]);
          assert got.items[1] != x;
        }
      }
  }

  lemma {:induction false} UdtParses(c: Context, j: Json, name: Text)
    requires c.host.Bounded()
    ensures FromJson(c, j, TUdt(name)) == ParseUdt(c, name, j)
  {
    hide ParseUdt;
  }

  lemma {:induction false} UnionPrintsPayload(c: Context, name: Text, cases: seq<UnionCase>, tag: Text, t: ScType, x: ScVal, j: Json)
    requires c.host.Bounded() && Find(c.spec, name) == Some(Union(name, cases))
    requires FindCase(cases, tag) == Some(TupleCase(tag, [t])) && XdrToJson(c, x, t) == Ok(j)
    ensures var v, o := Vec([Symbol(tag), x]), JObject([Pair(tag, j)]);
            Survives(c, v, TUdt(name)) ==> ParseUnion(c, cases, o) == Ok(v)
  {
    hide Find, FindCase, Sound, XdrToJson, FromJson, ParseUnion;
    var v, o := Vec([Symbol(tag), x]), JObject([Pair(tag, j)]);
    assert PrintUnion(c, cases, v) == Ok(o);
    hide PrintUnion;
    assert UdtToJson(c, name, v) == Ok(o);
    UdtPrints(c, v, name, o);
    UdtParses(c, o, name);
    assert ParseUdt(c, name, o) == ParseUnion(c, cases, o);
  }

  // ----- Symbol-keyed maps under the two printers -----

  lemma {:induction false} QuotedIsLonger(host: Platform, s: Text)
    requires host.Lawful() && Utf8(s)
    ensures |host.show(JString(s))| > |s| && host.show(JString(s)) != host.show(JNull)
  {
    assert Sound(JString(s)) && Height(JString(s)) == |s| + 1;
    hide Utf8;
  }

  /** A longest symbol among the keys. */
  lemma {:induction false} Longest(es: seq<ScMapEntry>) returns (i: nat)
    requires exists j :: 0 <= j < |es| && es[j].key.Symbol?
    ensures i < |es| && es[i].key.Symbol?
    ensures forall j :: 0 <= j < |es| && es[j].key.Symbol? ==> |es[j].key.sym| <= |es[i].key.sym|
  {
    var rest := es[1..];
    assert forall j :: 1 <= j < |es| ==> es[j] == rest[j - 1];
    if j :| 0 <= j < |rest| && rest[j].key.Symbol? {
      var k := Longest(rest);
      i := if es[0].key.Symbol? && |es[0].key.sym| > |rest[k].key.sym| then 0 else k + 1;
    } else {
      i := 0;
    }
  }

  lemma {:induction false} SymbolOrVoid(c: Context, key: ScVal, k: ScType)
    requires StripOptions(k) == TSymbol && WellTyped(c, key, k)
    ensures key.Symbol? || (key.Void? && k.TOption?)
    decreases Wraps(k)
  {
    if k.TOption? && !key.Void? { SymbolOrVoid(c, key, k.inner); }
  }

  lemma {:induction false} SymbolPrints(c: Context, key: ScVal, k: ScType)
    requires StripOptions(k) == TSymbol && key.Symbol? && Utf8(key.sym)
    ensures XdrToJson(c, key, k) == Ok(JString(key.sym))
  {
    hide Utf8;
    if k.TOption? {
      OptionIsTransparent(c, key, k.inner);
      SymbolPrints(c, key, k.inner);
    }
  }

  /** Both printers name a member by its key; only one of them quotes a symbol. */
  ghost predicate NamedByKey(c: Context, e: ScMapEntry, m: Member, n: Member) {
    if e.key.Symbol? then m.key == c.host.show(JString(e.key.sym)) && n.key == e.key.sym
    else n.key == c.host.show(JNull)
  }

  ghost predicate SymbolKeyed(c: Context, e: ScMapEntry, k: ScType, w: ScType) {
    WellTyped(c, e.key, k) && (e.key.Symbol? ==> Utf8(e.key.sym)) && Agrees(c, e.val, w)
  }

  lemma {:induction false} SymbolEntry(c: Context, e: ScMapEntry, k: ScType, w: ScType)
    requires StripOptions(k) == TSymbol && SymbolKeyed(c, e, k, w)
    ensures PrintEntry(c, e, k, w).Ok? && ToJsonEntry(c.host, e).Ok?
    ensures NamedByKey(c, e, PrintEntry(c, e, k, w).value, ToJsonEntry(c.host, e).value)
  {
    hide XdrToJson, ToJson, Utf8, WellTyped;
    SymbolOrVoid(c, e.key, k);
    if e.key.Symbol? { SymbolPrints(c, e.key, k); } else { VoidAgrees(c, k.inner); }
  }

  lemma {:induction false} VoidAgrees(c: Context, t: ScType)
    ensures XdrToJson(c, Void, TOption(t)) == Ok(JNull) && Agrees(c, Void, TOption(t))
  {
  }

  /** The two printers agree on a map keyed by symbols (optional or not) exactly when every key is `Void`: one quotes a symbol. */
  lemma {:induction false} SymbolKeysExact(c: Context, es: seq<ScMapEntry>, k: ScType, w: ScType)
    requires c.host.Lawful() && StripOptions(k) == TSymbol
    requires forall i :: 0 <= i < |es| ==> SymbolKeyed(c, es[i], k, w)
    ensures Agrees(c, Map(es), TMap(k, w)) <==> forall i :: 0 <= i < |es| ==> es[i].key.Void?
  {
    hide Agrees, ToJson, XdrToJson, Utf8, Platform.Lawful, WellTyped, Collect;
    forall i | 0 <= i < |es| ensures es[i].key.Symbol? || (es[i].key.Void? && k.TOption?) { SymbolOrVoid(c, es[i].key, k); }
    if forall i :: 0 <= i < |es| ==> es[i].key.Void? {
      forall i | 0 <= i < |es| ensures Agrees(c, es[i].key, k) && Agrees(c, es[i].val, w) {
        assert es[i].key.Void? && !es[i].key.Symbol?;
        VoidAgrees(c, k.inner);
      }
      MapAgrees(c, es, k, w);
    } else {
      var ms, ns := SymbolMembers(c, es, k, w);
      var i := Longest(es);
      QuotedIsLonger(c.host, es[i].key.sym);
      forall j | 0 <= j < |ns| ensures ns[j].key != ms[i].key { assert NamedByKey(c, es[j], ms[j], ns[j]); }
      DifferentObjects(ms, ns, i);
    }
  }

  lemma {:induction false} SymbolMembers(c: Context, es: seq<ScMapEntry>, k: ScType, w: ScType) returns (ms: seq<Member>, ns: seq<Member>)
    requires StripOptions(k) == TSymbol && forall i :: 0 <= i < |es| ==> SymbolKeyed(c, es[i], k, w)
    ensures |ms| == |ns| == |es| && forall i :: 0 <= i < |es| ==> NamedByKey(c, es[i], ms[i], ns[i])
    ensures Agrees(c, Map(es), TMap(k, w)) <==> Collect(TextLess, ms) == Collect(TextLess, ns)
  {
    hide Agrees, PrintEntry, ToJsonEntry, ToJson, XdrToJson, Collect, TextLess, SymbolKeyed, NamedByKey;
    forall i | 0 <= i < |es|
      ensures PrintEntry(c, es[i], k, w).Ok? && ToJsonEntry(c.host, es[i]).Ok?
      ensures NamedByKey(c, es[i], PrintEntry(c, es[i], k, w).value, ToJsonEntry(c.host, es[i]).value)
    {
      SymbolEntry(c, es[i], k, w);
    }
    ms := seq(|es|, i requires 0 <= i < |es| => PrintEntry(c, es[i], k, w).value);
    ns := seq(|es|, i requires 0 <= i < |es| => ToJsonEntry(c.host, es[i]).value);
    PrintEntriesIs(c, es, k, w, ms);
    ObjectPrints(c, es, ns);
    MapPrints(c, es, k, w, ms);
    AgreesMeans(c, es, k, w);
  }

  lemma {:induction false} AgreesMeans(c: Context, es: seq<ScMapEntry>, k: ScType, w: ScType)
    ensures Agrees(c, Map(es), TMap(k, w)) <==>
      XdrToJson(c, Map(es), TMap(k, w)).Ok? && ToJson(c.host, Map(es)) == XdrToJson(c, Map(es), TMap(k, w))
  {
    hide XdrToJson, ToJson;
  }

  lemma {:induction false} MapPrints(c: Context, es: seq<ScMapEntry>, k: ScType, w: ScType, ms: seq<Member>)
    requires PrintEntries(c, es, k, w) == Ok(ms)
    ensures XdrToJson(c, Map(es), TMap(k, w)) == Ok(JObject(Collect(TextLess, ms)))
  {
    hide PrintEntries, Collect;
    assert ScObjectToJson(c, Map(es), TMap(k, w)) == Ok(JObject(Collect(TextLess, ms)));
  }

  lemma {:induction false} DifferentObjects(ms: seq<Member>, ns: seq<Member>, i: nat)
    requires i < |ms| && forall j :: 0 <= j < |ns| ==> ns[j].key != ms[i].key
    ensures Collect(TextLess, ms) != Collect(TextLess, ns)
  {
    var at := CollectKeepsKey(ms, i);
    TextLessIsStrictOrder();
    hide TextLess, Collect;
    CollectSpec(TextLess, ns);
    var m := Collect(TextLess, ms)[at];
    assert m !in ns && m !in Collect(TextLess, ns);
  }
}
