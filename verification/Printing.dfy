/** `to_json` as the program runs it: a map's members are inserted one by one. */
module Printing {
  import opened Wrappers
  import opened Octets
  import opened OrderedMap
  import opened ScValues
  import opened Json
  import opened Codec

  lemma {:induction false} ToJsonAllSnoc(host: Platform, vs: seq<ScVal>, i: nat)
    requires i < |vs|
    ensures ToJsonAll(host, vs[..i + 1]) ==
      (match ToJsonAll(host, vs[..i])
       case Err(e) => Err(e)
       case Ok(js) => if ToJson(host, vs[i]).Ok? then Ok(js + [ToJson(host, vs[i]).value]) else Err(ToJson(host, vs[i]).error))
  {
    hide ToJson;
    if i == 0 {
      assert vs[..1] == [vs[0]] && vs[..1][1..] == [] && vs[..0] == [];
      if ToJson(host, vs[0]).Ok? { assert [ToJson(host, vs[0]).value] + [] == [] + [ToJson(host, vs[0]).value]; }
    } else {
      ToJsonAllSnoc(host, vs[1..], i - 1);
      assert vs[..i + 1][1..] == vs[1..][..i] && vs[..i][1..] == vs[1..][..i - 1];
      if ToJsonAll(host, vs[..i]).Ok? && ToJson(host, vs[i]).Ok? {
        var h, js, x := ToJson(host, vs[0]).value, ToJsonAll(host, vs[1..][..i - 1]).value, ToJson(host, vs[i]).value;
        assert ([h] + js) + [x] == [h] + (js + [x]);
      }
    }
  }

  lemma {:induction false} ToJsonEntriesSnoc(host: Platform, es: seq<ScMapEntry>, i: nat)
    requires i < |es|
    ensures ToJsonEntries(host, es[..i + 1]) ==
      (match ToJsonEntries(host, es[..i])
       case Err(e) => Err(e)
       case Ok(ms) =>
         if ToJsonEntry(host, es[i]).Ok? then Ok(ms + [ToJsonEntry(host, es[i]).value]) else Err(ToJsonEntry(host, es[i]).error))
  {
    hide ToJsonEntry;
    if i == 0 {
      assert es[..1] == [es[0]] && es[..1][1..] == [] && es[..0] == [];
      if ToJsonEntry(host, es[0]).Ok? { assert [ToJsonEntry(host, es[0]).value] + [] == [] + [ToJsonEntry(host, es[0]).value]; }
    } else {
      ToJsonEntriesSnoc(host, es[1..], i - 1);
      assert es[..i + 1][1..] == es[1..][..i] && es[..i][1..] == es[1..][..i - 1];
      if ToJsonEntries(host, es[..i]).Ok? && ToJsonEntry(host, es[i]).Ok? {
        var h, ms, x := ToJsonEntry(host, es[0]).value, ToJsonEntries(host, es[1..][..i - 1]).value, ToJsonEntry(host, es[i]).value;
        assert ([h] + ms) + [x] == [h] + (ms + [x]);
      }
    }
  }

  lemma {:induction false} PrefixFails(host: Platform, es: seq<ScMapEntry>, i: nat)
    requires i <= |es| && ToJsonEntries(host, es[..i]).Err?
    ensures ToJsonEntries(host, es) == ToJsonEntries(host, es[..i])
  {
    hide ToJsonEntry;
    if i > 0 {
      assert es[..i][1..] == es[1..][..i - 1];
      if ToJsonEntry(host, es[0]).Ok? { PrefixFails(host, es[1..], i - 1); }
    }
  }

  lemma {:induction false} PrefixFailsAll(host: Platform, vs: seq<ScVal>, i: nat)
    requires i <= |vs| && ToJsonAll(host, vs[..i]).Err?
    ensures ToJsonAll(host, vs) == ToJsonAll(host, vs[..i])
  {
    hide ToJson;
    if i > 0 {
      assert vs[..i][1..] == vs[1..][..i - 1];
      if ToJson(host, vs[0]).Ok? { PrefixFailsAll(host, vs[1..], i - 1); }
    }
  }

  lemma {:induction false} CollectSnoc(ms: seq<Member>, m: Member)
    ensures Collect(TextLess, ms + [m]) == Put(TextLess, Collect(TextLess, ms), m.key, m.val)
  {
    assert (ms + [m])[..|ms|] == ms;
  }

  /** `to_string`. */
  method PrintText(host: Platform, v: ScVal) returns (r: Res<Text>)
    ensures r == ToText(host, v)
    decreases v, 3
  {
    hide ToJson;
    if v.Symbol? {
      return Utf8Text(v.sym);
    } else if v.LedgerKeyContractInstance? {
      return Ok(INSTANCE_TEXT);
    }
    var j := PrintJson(host, v);
    match j
    case Ok(json) => r := Ok(host.show(json));
    case Err(error) => r := Err(error);
  }

  /** `to_json`. */
  method PrintJson(host: Platform, v: ScVal) returns (r: Res<Json>)
    ensures r == ToJson(host, v)
    decreases v, 2
  {
    match v
    case Vec(items) => r := PrintVec(host, v);
    case Map(entries) => r := PrintMap(host, v);
    case _ => r := ScalarToJson(host, v);
  }

  method PrintVec(host: Platform, v: ScVal) returns (r: Res<Json>)
    requires v.Vec?
    ensures r == ToJson(host, v)
    decreases v, 1
  {
    hide ToJson;
    var js := [];
    for i := 0 to |v.items|
      invariant ToJsonAll(host, v.items[..i]) == Ok(js)
    {
      var j := PrintJson(host, v.items[i]);
      ToJsonAllSnoc(host, v.items, i);
      if j.Err? {
        PrefixFailsAll(host, v.items, i + 1);
        VecToJson(host, v);
        return Err(j.error);
      }
      js := js + [j.value];
    }
    assert v.items[..|v.items|] == v.items;
    VecToJson(host, v);
    r := Ok(JArray(js));
  }

  lemma {:induction false} VecToJson(host: Platform, v: ScVal)
    requires v.Vec?
    ensures ToJson(host, v) ==
      (match ToJsonAll(host, v.items) case Ok(js) => Ok(JArray(js)) case Err(e) => Err(e))
  {
    hide ToJsonAll;
  }

  lemma {:induction false} MapToJson(host: Platform, v: ScVal)
    requires v.Map?
    ensures ToJson(host, v) ==
      (match ToJsonEntries(host, v.entries) case Ok(ms) => Ok(JObject(Collect(TextLess, ms))) case Err(e) => Err(e))
  {
    hide ToJsonEntries, Collect;
  }

  /** The map arm: the object built so far holds the members printed so far, in key order. */
  method PrintMap(host: Platform, v: ScVal) returns (r: Res<Json>)
    requires v.Map?
    ensures r == ToJson(host, v)
    decreases v, 1
  {
    hide ToJson, ToText, TextLess;
    var m: seq<Member> := [];
    ghost var ms: seq<Member> := [];
    for i := 0 to |v.entries|
      invariant ToJsonEntries(host, v.entries[..i]) == Ok(ms)
      invariant m == Collect(TextLess, ms)
    {
      var e := v.entries[i];
      var k := PrintText(host, e.key);
      ToJsonEntriesSnoc(host, v.entries, i);
      if k.Err? {
        PrefixFails(host, v.entries, i + 1);
        MapToJson(host, v);
        return Err(k.error);
      }
      var j := PrintJson(host, e.val);
      if j.Err? {
        PrefixFails(host, v.entries, i + 1);
        MapToJson(host, v);
        return Err(InvalidValue);
      }
      CollectSnoc(ms, Pair(k.value, j.value));
      m, ms := Put(TextLess, m, k.value, j.value), ms + [Pair(k.value, j.value)];
    }
    assert v.entries[..|v.entries|] == v.entries;
    MapToJson(host, v);
    r := Ok(JObject(m));
  }
}
