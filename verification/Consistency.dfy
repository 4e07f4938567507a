/**
 The laws stated for strkeys and JSON text can hold together: a small notation with the same leading
 characters as JSON satisfies all of them.
 */
module Consistency {
  import opened Wrappers
  import opened Octets
  import opened OrderedMap
  import opened ScValues
  import opened Json
  import opened SpecTypes
  import opened Codec
  import opened Typing
  import opened RoundTrip
  import Decimal
  import Hex

  const COLON: byte := 58

  /** A text after its length in unary. */
  function Framed(s: Text): (r: Text)
    ensures |r| == 2 * |s| + 1
  {
    seq(|s|, _ => 49) + [COLON] + s
  }

  lemma {:induction false} FramedApart(s: Text, t: Text, a: Text, b: Text)
    requires Framed(s) + a == Framed(t) + b
    ensures s == t && a == b
  {
    var x, y := Framed(s) + a, Framed(t) + b;
    assert x[|s|] == COLON && y[|t|] == COLON;
    assert forall i :: 0 <= i < |s| ==> x[i] == 49;
    assert forall i :: 0 <= i < |t| ==> y[i] == 49;
    assert |s| == |t|;
    assert x[|s| + 1..2 * |s| + 1] == s && y[|t| + 1..2 * |t| + 1] == t;
    assert x[2 * |s| + 1..] == a && y[2 * |t| + 1..] == b;
  }

  /** Null is written as in JSON, a string after a quote, a list as its framed items. */
  function Notation(j: Json): Text
    decreases j, 1
  {
    match j
    case JNull => NULL_TEXT
    case JBool(b) => if b then [116] else [102]
    case JNumber(num) => [35] + num.Display()
    case JString(s) => [QUOTE] + s
    case JArray(items) => [91] + NotationItems(items)
    case JObject(members) => [123] + NotationMembers(members)
  }

  function NotationItems(items: seq<Json>): Text
    decreases items, 0
  {
    if items == [] then [] else Framed(Notation(items[0])) + NotationItems(items[1..])
  }

  function NotationMember(m: Member): Text
    decreases m, 0
  {
    Framed(m.key) + Framed(Notation(m.val))
  }

  function NotationMembers(members: seq<Member>): Text
    decreases members, 0
  {
    if members == [] then [] else NotationMember(members[0]) + NotationMembers(members[1..])
  }

  // ----- No two values are written alike -----

  lemma {:induction false} Distinct(a: Json, b: Json)
    requires Sound(a) && Sound(b) && Notation(a) == Notation(b)
    ensures a == b
    decreases a, 1
  {
    hide Utf8, Decimal.Show;
    assert Notation(a)[0] == Notation(b)[0];
    match a
    case JNumber(num) =>
      assert Notation(a)[1..] == num.Display() && Notation(b)[1..] == b.num.Display();
      Decimal.ShowInjective(num.n, b.num.n);
    case JString(s) => assert Notation(a)[1..] == s && Notation(b)[1..] == b.s;
    case JArray(items) =>
      assert Notation(a)[1..] == NotationItems(items) && Notation(b)[1..] == NotationItems(b.items);
      DistinctItems(items, b.items);
    case JObject(members) =>
      assert Notation(a)[1..] == NotationMembers(members) && Notation(b)[1..] == NotationMembers(b.members);
      DistinctMembers(members, b.members);
    case _ =>
  }

  lemma {:induction false} DistinctItems(s: seq<Json>, t: seq<Json>)
    requires NotationItems(s) == NotationItems(t)
    requires forall i :: 0 <= i < |s| ==> Sound(s[i])
    requires forall i :: 0 <= i < |t| ==> Sound(t[i])
    ensures s == t
    decreases s, 0
  {
    hide Sound, Notation, Framed;
    if s != [] && t != [] {
      FramedApart(Notation(s[0]), Notation(t[0]), NotationItems(s[1..]), NotationItems(t[1..]));
      Distinct(s[0], t[0]);
      DistinctItems(s[1..], t[1..]);
      assert s == [s[0]] + s[1..] && t == [t[0]] + t[1..];
    }
  }

  lemma {:induction false} DistinctMember(a: Member, b: Member)
    requires Sound(a.val) && Sound(b.val) && a.key == b.key && Notation(a.val) == Notation(b.val)
    ensures a == b
    decreases a, 0
  {
    Distinct(a.val, b.val);
  }

  lemma {:induction false} DistinctMembers(s: seq<Member>, t: seq<Member>)
    requires NotationMembers(s) == NotationMembers(t)
    requires forall i :: 0 <= i < |s| ==> Sound(s[i].val)
    requires forall i :: 0 <= i < |t| ==> Sound(t[i].val)
    ensures s == t
    decreases s, 0
  {
    hide Sound, Notation, Framed;
    if s != [] && t != [] {
      var a, b := s[0], t[0];
      var restA, restB := Framed(Notation(a.val)) + NotationMembers(s[1..]), Framed(Notation(b.val)) + NotationMembers(t[1..]);
      assert NotationMembers(s) == Framed(a.key) + restA && NotationMembers(t) == Framed(b.key) + restB;
      FramedApart(a.key, b.key, restA, restB);
      FramedApart(Notation(a.val), Notation(b.val), NotationMembers(s[1..]), NotationMembers(t[1..]));
      DistinctMember(a, b);
      DistinctMembers(s[1..], t[1..]);
      assert s == [s[0]] + s[1..] && t == [t[0]] + t[1..];
    }
  }

  // ----- A value is no higher than its text is long, and the text is UTF-8 -----

  /** The length of the first character, and whether it is well-formed. */
  function HeadLength(b: byte): nat { if b < 0x80 then 1 else if b < 0xE0 then 2 else if b < 0xF0 then 3 else 4 }

  predicate HeadFits(s: Text)
    requires s != []
  {
    |s| >= HeadLength(s[0]) && Utf8(s[..HeadLength(s[0])])
  }

  lemma {:induction false} Utf8Unfolds(s: Text)
    requires s != []
    ensures Utf8(s) <==> HeadFits(s) && Utf8(s[HeadLength(s[0])..])
  {
    var n := HeadLength(s[0]);
    if |s| >= n {
      var head := s[..n];
      assert head[n..] == [] && Utf8([]);
      assert forall i :: 0 <= i < n ==> head[i] == s[i];
    }
  }

  lemma {:induction false} Utf8Concat(s: Text, t: Text)
    requires Utf8(s) && Utf8(t)
    ensures Utf8(s + t)
  {
    hide Utf8;
    if s == [] {
      assert s + t == t;
    } else {
      var n := HeadLength(s[0]);
      Utf8Unfolds(s);
      Utf8Unfolds(s + t);
      Utf8Concat(s[n..], t);
      assert (s + t)[n..] == s[n..] + t && (s + t)[..n] == s[..n];
    }
  }

  lemma {:induction false} Utf8Framed(s: Text)
    requires Utf8(s)
    ensures Utf8(Framed(s))
  {
    AsciiIsUtf8(seq(|s|, _ => 49) + [COLON]);
    Utf8Concat(seq(|s|, _ => 49) + [COLON], s);
  }

  lemma {:induction false} Utf8After(b: byte, s: Text)
    requires b < 0x80 && Utf8(s)
    ensures Utf8([b] + s)
  {
    assert ([b] + s)[1..] == s;
  }

  lemma {:induction false} Written(j: Json)
    requires Sound(j)
    ensures Height(j) <= |Notation(j)| && Utf8(Notation(j))
    decreases j, 1
  {
    match j
    case JNull => AsciiIsUtf8(NULL_TEXT);
    case JBool(_) => AsciiIsUtf8(Notation(j));
    case JNumber(num) =>
      Decimal.ShowParses(num.n, num.n, num.n);
      AsciiIsUtf8(Decimal.Show(num.n));
      Utf8After(35, Decimal.Show(num.n));
    case JString(s) => Utf8After(QUOTE, s);
    case JArray(items) =>
      WrittenItems(items);
      Utf8After(91, NotationItems(items));
    case JObject(members) =>
      WrittenMembers(members);
      Utf8After(123, NotationMembers(members));
  }

  lemma {:induction false} WrittenItems(s: seq<Json>)
    requires forall i :: 0 <= i < |s| ==> Sound(s[i])
    ensures HeightItems(s) <= |NotationItems(s)| && Utf8(NotationItems(s))
    decreases s, 0
  {
    hide Sound, Notation, Framed, Height, Utf8;
    if s == [] {
      AsciiIsUtf8([]);
    } else {
      Written(s[0]);
      WrittenItems(s[1..]);
      Utf8Framed(Notation(s[0]));
      Utf8Concat(Framed(Notation(s[0])), NotationItems(s[1..]));
    }
  }

  lemma {:induction false} WrittenMember(m: Member)
    requires Sound(m.val)
    ensures Height(m.val) <= |Notation(m.val)| && Utf8(Notation(m.val))
    decreases m, 0
  {
    Written(m.val);
  }

  lemma {:induction false} WrittenMembers(s: seq<Member>)
    requires forall i :: 0 <= i < |s| ==> Utf8(s[i].key) && Sound(s[i].val)
    ensures HeightMembers(s) <= |NotationMembers(s)| && Utf8(NotationMembers(s))
    decreases s, 0
  {
    hide Sound, Notation, Framed, Height, Utf8;
    if s == [] {
      AsciiIsUtf8([]);
    } else {
      var key, val := Framed(s[0].key), Framed(Notation(s[0].val));
      WrittenMember(s[0]);
      WrittenMembers(s[1..]);
      Utf8Framed(s[0].key);
      Utf8Framed(Notation(s[0].val));
      Utf8Concat(key, val);
      Utf8Concat(key + val, NotationMembers(s[1..]));
    }
  }

  // ----- The functions together -----

  ghost function ReadNotation(s: Text): (r: Option<Json>)
    ensures r.Some? ==> Sound(r.value) && Depth(r.value) <= MAX_JSON_DEPTH && Notation(r.value) == s
    ensures r.None? ==> forall j :: Sound(j) && Depth(j) <= MAX_JSON_DEPTH ==> Notation(j) != s
  {
    if j :| Sound(j) && Depth(j) <= MAX_JSON_DEPTH && Notation(j) == s then Some(j) else None
  }

  function WriteAddress(a: ScAddress): Text {
    match a
    case Account(k) => [71] + Hex.LowerHex(k)
    case Contract(h) => [67] + Hex.LowerHex(h)
  }

  function ReadAddress(s: Text): Option<Strkey> {
    if |s| != 65 || Hex.Decode(s[1..]).None? then None
    else if s[0] == 71 then Some(KeyAccount(Hex.Decode(s[1..]).value))
    else if s[0] == 67 then Some(KeyContract(Hex.Decode(s[1..]).value))
    else None
  }

  lemma {:induction false} AddressReadsBack(a: ScAddress)
    ensures ReadAddress(WriteAddress(a)) == Some(AsStrkey(a)) && Utf8(WriteAddress(a))
  {
    var key := match a case Account(k) => k case Contract(h) => h;
    Hex.LowerHexDecodes(key);
    AsciiIsUtf8(Hex.LowerHex(key));
    Utf8After(WriteAddress(a)[0], Hex.LowerHex(key));
    assert WriteAddress(a)[1..] == Hex.LowerHex(key);
  }

  ghost function Example(): Platform {
    Platform(WriteAddress, ReadAddress, Notation, s => ReadNotation(s), _ => None)
  }

  /** Some platform meets all the laws, and serde's own reading of it takes no array for a value. */
  lemma {:induction false} LawsAreConsistent()
    ensures Example().Lawful()
    ensures forall js :: Example().deserialize(JArray(js)).None?
  {
    var host := Example();
    hide Utf8, Sound, Height, Depth, Hex.AllLowerHex, Hex.LowerHex, Hex.Decode, ReadNotation, WriteAddress, NotationItems, NotationMembers;
    forall s | host.parse(s).Some? ensures Height(host.parse(s).value) <= |s| { Written(ReadNotation(s).value); }
    forall a ensures host.parseStrkey(host.strkeyText(a)) == Some(AsStrkey(a)) && Utf8(host.strkeyText(a)) {
      AddressReadsBack(a);
    }
    forall j | Sound(j)
      ensures Utf8(host.show(j)) && Height(j) <= |host.show(j)|
      ensures host.parse(host.show(j)) == if Depth(j) <= MAX_JSON_DEPTH then Some(j) else None
    {
      Written(j);
      var read := ReadNotation(Notation(j));
      if read.Some? { Distinct(j, read.value); }
    }
  }

  // ----- The round trip is about something -----

  /** "L", a list of numbers: the case "N" ends it, the case "C" holds a number and the rest. */
  const LIST: Text := [76]
  const NIL: Text := [78]
  const CONS: Text := [67]
  const CASES: seq<UnionCase> := [VoidCase(NIL), TupleCase(CONS, [TU32, TUdt(LIST)])]

  function ListValue(numbers: seq<u32>): ScVal {
    if numbers == [] then Vec([Symbol(NIL)]) else Vec([Symbol(CONS), U32(numbers[0]), ListValue(numbers[1..])])
  }

  ghost function ListContext(): Context { Context([Union(LIST, CASES)], Example()) }

  lemma {:induction false} ListsAreTyped(numbers: seq<u32>)
    ensures WellTyped(ListContext(), ListValue(numbers), TUdt(LIST)) && Readable(ListContext(), ListValue(numbers), TUdt(LIST))
  {
    var c, v := ListContext(), ListValue(numbers);
    assert Find(c.spec, LIST) == Some(Union(LIST, CASES));
    AsciiIsUtf8(NIL);
    AsciiIsUtf8(CONS);
    if numbers == [] {
      assert FindCase(CASES, NIL) == Some(VoidCase(NIL));
    } else {
      ListsAreTyped(numbers[1..]);
      assert FindCase(CASES, CONS) == FindCase(CASES[1..], CONS) == Some(TupleCase(CONS, [TU32, TUdt(LIST)]));
      ConsIsTyped(c, numbers[0], ListValue(numbers[1..]));
    }
  }

  lemma {:induction false} ConsIsTyped(c: Context, n: u32, rest: ScVal)
    requires Find(c.spec, LIST) == Some(Union(LIST, CASES)) && FindCase(CASES, CONS) == Some(TupleCase(CONS, [TU32, TUdt(LIST)]))
    requires Utf8(CONS) && WellTyped(c, rest, TUdt(LIST)) && Readable(c, rest, TUdt(LIST))
    ensures WellTyped(c, Vec([Symbol(CONS), U32(n), rest]), TUdt(LIST))
    ensures Readable(c, Vec([Symbol(CONS), U32(n), rest]), TUdt(LIST))
  {
    hide Find, FindCase, Utf8, XdrToJson;
    var v, ts := Vec([Symbol(CONS), U32(n), rest]), [TU32, TUdt(LIST)];
    assert WellTyped(c, U32(n), TU32) && Readable(c, U32(n), TU32);
    assert v.items[1 + 0] == U32(n) && v.items[1 + 1] == rest;
    assert WellTypedZip(c, v, 1, ts) && ReadableZip(c, v, 1, ts);
    assert WellTypedUnion(c, v, CASES) && ReadableUnion(c, v, CASES);
  }

  /** Values of a recursive union of every length meet the conditions of the round trip, and survive. */
  lemma {:induction false} ListsSurvive(numbers: seq<u32>)
    ensures ListContext().host.Bounded() && Survives(ListContext(), ListValue(numbers), TUdt(LIST))
  {
    LawsAreConsistent();
    ListsAreTyped(numbers);
    hide Example, ListValue, WellTyped, Readable, Survives;
    ValueSurvives(ListContext(), ListValue(numbers), TUdt(LIST));
  }
}
