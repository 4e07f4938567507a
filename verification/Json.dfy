/** JSON values as `serde_json::Value` holds them. */
module Json {
  import opened Wrappers
  import opened Octets
  import opened OrderedMap
  import Decimal

  /** An integer in the range of `u64` or `i64`, or the text of a floating-point number. */
  datatype JsonNumber = Int(n: int) | Float(repr: Text) {
    function AsU64(): Option<u64> {
      if Int? && 0 <= n < BASE64 then Some(n) else None
    }

    function AsI64(): Option<i64> {
      if Int? && -0x8000_0000_0000_0000 <= n < 0x8000_0000_0000_0000 then Some(n) else None
    }

    function Display(): Text {
      match this
      case Int(n) => Decimal.Show(n)
      case Float(repr) => repr
    }
  }

  type Member = Pair<Text, Json>

  /** The members of an object are listed in the order the map iterates over them. */
  datatype Json =
    | JNull
    | JBool(b: bool)
    | JNumber(num: JsonNumber)
    | JString(s: Text)
    | JArray(items: seq<Json>)
    | JObject(members: seq<Pair<Text, Json>>)

  const ZERO_NAME: Text := [48]
  const NULL_TEXT: Text := [110, 117, 108, 108]

  function Max(a: nat, b: nat): nat { if a < b then b else a }

  /**
   A bound on how far parsing can go down a value. Member names count with their length, because a
   map's member names are themselves parsed as JSON text.
   */
  function Height(j: Json): (h: nat)
    ensures h >= 1
    decreases j, 1
  {
    match j
    case JString(s) => |s| + 1
    case JArray(items) => 1 + HeightItems(items)
    case JObject(members) => 1 + HeightMembers(members)
    case _ => 1
  }

  function HeightItems(items: seq<Json>): nat
    decreases items, 0
  {
    if items == [] then 0 else Max(Height(items[0]), HeightItems(items[1..]))
  }

  function HeightMember(m: Member): nat
    decreases m, 0
  {
    Max(|m.key| + 1, Height(m.val))
  }

  function HeightMembers(members: seq<Member>): nat
    decreases members, 0
  {
    if members == [] then 0 else Max(HeightMember(members[0]), HeightMembers(members[1..]))
  }

  lemma {:induction false} HeightOfItem(items: seq<Json>, i: nat)
    requires i < |items|
    ensures Height(items[i]) <= HeightItems(items)
  {
    if i > 0 { HeightOfItem(items[1..], i - 1); }
  }

  lemma {:induction false} HeightOfMember(members: seq<Member>, i: nat)
    requires i < |members|
    ensures |members[i].key| + 1 <= HeightMembers(members)
    ensures Height(members[i].val) <= HeightMembers(members)
  {
    if i > 0 { HeightOfMember(members[1..], i - 1); }
  }

  lemma {:induction false} HeightBound(items: seq<Json>, bound: nat)
    requires forall i :: 0 <= i < |items| ==> Height(items[i]) <= bound
    ensures HeightItems(items) <= bound
  {
    if items != [] { HeightBound(items[1..], bound); }
  }

  /** How deeply arrays and objects are nested. */
  function Depth(j: Json): nat
    decreases j, 1
  {
    match j
    case JArray(items) => 1 + DepthItems(items)
    case JObject(members) => 1 + DepthMembers(members)
    case _ => 0
  }

  function DepthItems(items: seq<Json>): nat
    decreases items, 0
  {
    if items == [] then 0 else Max(Depth(items[0]), DepthItems(items[1..]))
  }

  function DepthMember(m: Member): nat
    decreases m, 0
  {
    Depth(m.val)
  }

  function DepthMembers(members: seq<Member>): nat
    decreases members, 0
  {
    if members == [] then 0 else Max(DepthMember(members[0]), DepthMembers(members[1..]))
  }

  /**
   Whether the tree is one that `serde_json` can hold and print without loss: strings are UTF-8,
   integers are in range, objects iterate in key order, and no number is a float.
   */
  ghost predicate Sound(j: Json) {
    match j
    case JNumber(num) => num.Int? && -0x8000_0000_0000_0000 <= num.n < BASE64
    case JString(s) => Utf8(s)
    case JArray(items) => forall i :: 0 <= i < |items| ==> Sound(items[i])
    case JObject(members) =>
      && Ascending(TextLess, members)
      && forall i :: 0 <= i < |members| ==> Utf8(members[i].key) && Sound(members[i].val)
    case _ => true
  }

  /** `serde_json::Map::get`. */
  function Get(members: seq<Member>, name: Text): Option<Json> { Lookup(members, name) }

  lemma {:induction false} GetHeight(members: seq<Member>, name: Text)
    ensures Get(members, name).Some? ==> Height(Get(members, name).value) <= HeightMembers(members)
  {
    LookupSpec(members, name);
    if Get(members, name).Some? {
      var i :| 0 <= i < |members| && members[i] == Pair(name, Get(members, name).value);
      HeightOfMember(members, i);
    }
  }

  /** The members named "0", "1", ... in that order; none if one of the first `len` names is missing. */
  function Positional(members: seq<Member>, len: nat): (r: Option<seq<Json>>)
    ensures r.Some? ==> |r.value| == len
  {
    if len == 0 then Some([])
    else
      match (Positional(members, len - 1), Get(members, Decimal.Show(len - 1)))
      case (Some(front), Some(last)) => Some(front + [last])
      case _ => None
  }

  lemma {:induction false} PositionalHeight(members: seq<Member>, len: nat)
    requires Positional(members, len).Some?
    ensures HeightItems(Positional(members, len).value) <= HeightMembers(members)
  {
    var items, bound := Positional(members, len).value, HeightMembers(members);
    PositionalExactly(members, len);
    forall i | 0 <= i < |items| ensures Height(items[i]) <= bound {
      assert Get(members, Decimal.Show(i)) == Some(items[i]);
      GetHeight(members, Decimal.Show(i));
    }
    HeightBound(items, bound);
  }

  lemma {:induction false} PositionalExactly(members: seq<Member>, len: nat)
    ensures Positional(members, len).Some? <==> forall i :: 0 <= i < len ==> Get(members, Decimal.Show(i)).Some?
    ensures Positional(members, len).Some? ==>
      forall i :: 0 <= i < len ==> Get(members, Decimal.Show(i)) == Some(Positional(members, len).value[i])
  {
    hide Get, Decimal.Show;
    if len > 0 { PositionalExactly(members, len - 1); }
  }

  lemma {:induction false} DepthAtMostHeight(j: Json)
    ensures Depth(j) <= Height(j)
    decreases j, 1
  {
    match j
    case JArray(items) => DepthItemsAtMostHeight(items);
    case JObject(members) => DepthMembersAtMostHeight(members);
    case _ =>
  }

  lemma {:induction false} DepthItemsAtMostHeight(items: seq<Json>)
    ensures DepthItems(items) <= HeightItems(items)
    decreases items, 0
  {
    if items != [] {
      DepthAtMostHeight(items[0]);
      DepthItemsAtMostHeight(items[1..]);
    }
  }

  lemma {:induction false} DepthMemberAtMostHeight(m: Member)
    ensures DepthMember(m) <= HeightMember(m)
    decreases m, 0
  {
    DepthAtMostHeight(m.val);
  }

  lemma {:induction false} DepthMembersAtMostHeight(members: seq<Member>)
    ensures DepthMembers(members) <= HeightMembers(members)
    decreases members, 0
  {
    if members != [] {
      DepthMemberAtMostHeight(members[0]);
      DepthMembersAtMostHeight(members[1..]);
    }
  }
}
