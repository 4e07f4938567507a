/** What struct and map parsing yields, whatever the order of the input. */
module Canonical {
  import opened Wrappers
  import opened Octets
  import opened OrderedMap
  import opened ScValues
  import opened Json
  import opened SpecTypes
  import opened Codec
  import opened Typing
  import opened RoundTrip
  import opened Limits

  /**
   A parsed struct is a strictly ascending map whose keys are exactly the declared names, each once,
   with the value its own member parses to.
   */
  lemma {:induction false} StructIsCanonical(c: Context, fields: seq<Field>, members: seq<Member>, v: ScVal)
    requires c.host.Bounded() && ParseStruct(c, fields, members) == Ok(v)
    ensures v.Map? && Ascending(Less, v.entries) && |v.entries| == |fields|
    ensures DistinctNames(fields) && KeysAreFields(fields, v.entries)
    ensures forall p :: 0 <= p < |fields| ==>
      && Get(members, fields[p].name).Some?
      && FromJson(c, Get(members, fields[p].name).value, fields[p].type_).Ok?
      && Pair(Symbol(fields[p].name), FromJson(c, Get(members, fields[p].name).value, fields[p].type_).value) in v.entries
  {
    hide FromJson, FromFields, Less, Get, SortedFrom, Platform.Bounded;
    LessIsStrictOrder();
    var es := FromFields(c, fields, members).value;
    SortedFromSpec(Less, es);
    FromFieldsLength(c, fields, members);
    forall p | 0 <= p < |fields|
      ensures Get(members, fields[p].name).Some?
      ensures FromJson(c, Get(members, fields[p].name).value, fields[p].type_) == Ok(es[p].val)
      ensures es[p].key == Symbol(fields[p].name) && es[p] in v.entries
    {
      ReadBackByPosition(c, fields, es, members, p);
    }
    forall p, q | 0 <= p < q < |fields| ensures fields[p].name != fields[q].name { assert es[p].key != es[q].key; }
    forall p | 0 <= p < |fields| ensures HasKey(v.entries, Symbol(fields[p].name)) {
      var j := IndexOf(v.entries, es[p]);
    }
    forall j | 0 <= j < |v.entries| ensures HasName(fields, v.entries[j].key) {
      assert v.entries[j] in es;
      var p := IndexOf(es, v.entries[j]);
    }
  }

  lemma {:induction false} FromFieldsLength(c: Context, fields: seq<Field>, members: seq<Member>)
    requires c.host.Bounded() && FromFields(c, fields, members).Ok?
    ensures |FromFields(c, fields, members).value| == |fields|
  {
    hide FromJson, Get;
    if fields != [] { FromFieldsLength(c, fields[1..], members); }
  }

  /** A parsed map is strictly ascending and has one entry for every member, decoded from it. */
  lemma {:induction false} MapIsCanonical(c: Context, members: seq<Member>, k: ScType, w: ScType, v: ScVal) returns (es: seq<ScMapEntry>)
    requires c.host.Bounded() && ParseMap(c, members, k, w) == Ok(v)
    ensures v.Map? && Ascending(Less, v.entries)
    ensures AllDecode(c, members, es, k, w) && DistinctKeys(es) && SameElements(v.entries, es)
  {
    hide FromMembers, Less, FromString, FromJson;
    LessIsStrictOrder();
    es := FromMembers(c, members, k, w).value;
    SortedFromSpec(Less, es);
    FromMembersAllDecode(c, members, k, w);
  }

  lemma {:induction false} FromMembersAllDecode(c: Context, ms: seq<Member>, k: ScType, w: ScType)
    requires c.host.Bounded() && FromMembers(c, ms, k, w).Ok?
    ensures AllDecode(c, ms, FromMembers(c, ms, k, w).value, k, w)
  {
    hide FromString, FromJson;
    if ms != [] {
      FromMembersAllDecode(c, ms[1..], k, w);
      var es, rest := FromMembers(c, ms, k, w).value, FromMembers(c, ms[1..], k, w).value;
      assert es == [es[0]] + rest;
      forall i | 0 <= i < |ms| ensures Decodes(c, ms[i], es[i], k, w) {
        if i > 0 { assert ms[i] == ms[1..][i - 1] && es[i] == rest[i - 1]; }
      }
    }
  }

  /** The same members listed in another order parse to the same map. */
  lemma {:induction false} MemberOrderIrrelevant(c: Context, ms: seq<Member>, ns: seq<Member>, k: ScType, w: ScType, v: ScVal)
    requires c.host.Bounded() && multiset(ms) == multiset(ns) && DistinctKeys(ms)
    requires ParseMap(c, ms, k, w) == Ok(v)
    ensures ParseMap(c, ns, k, w) == Ok(v)
  {
    hide FromMembers, Less, FromString, FromJson, AllDecode;
    LessIsStrictOrder();
    SameListing(ms, ns);
    var es := MapIsCanonical(c, ms, k, w, v);
    PermutedKeys(ms, ns);
    var parsed := Rearranged(c, ms, es, ns, k, w);
    AllDecodeParses(c, ns, parsed, k, w);
    assert SameElements(parsed, v.entries) by { assert SameElements(v.entries, es) && SameElements(parsed, es); }
    SortedFromRecovers(Less, parsed, v.entries);
  }

  lemma {:induction false} AllDecodeParses(c: Context, ms: seq<Member>, es: seq<ScMapEntry>, k: ScType, w: ScType)
    requires c.host.Bounded() && AllDecode(c, ms, es, k, w)
    ensures FromMembers(c, ms, k, w) == Ok(es)
  {
    hide FromMembers, Decodes;
    FromMembersIs(c, ms, es, k, w);
  }

  lemma {:induction false} SameListing<T(!new)>(s: seq<T>, t: seq<T>)
    requires multiset(s) == multiset(t)
    ensures SameElements(t, s) && |s| == |t|
  {
    forall x ensures x in t <==> x in s { assert x in multiset(t) <==> x in multiset(s); }
    assert |multiset(s)| == |s| && |multiset(t)| == |t|;
  }

  ghost predicate NoRepeat<T>(s: seq<T>) { forall i, j :: 0 <= i < j < |s| ==> s[i] != s[j] }

  /** A list without repetition has no element more than once in its multiset, and conversely. */
  lemma {:induction false} NoRepeatMultiset<T(!new)>(s: seq<T>)
    ensures NoRepeat(s) <==> forall x :: multiset(s)[x] <= 1
  {
    if s != [] {
      var front, last := s[..|s| - 1], s[|s| - 1];
      NoRepeatMultiset(front);
      assert s == front + [last];
      assert multiset(s) == multiset(front) + multiset{last};
      if NoRepeat(s) {
        assert last !in front;
        assert multiset(front)[last] == 0;
        assert NoRepeat(front);
      } else if NoRepeat(front) {
        assert last in front;
        assert last in multiset(front);
        assert multiset(s)[last] >= 2;
      } else {
        var x :| multiset(front)[x] > 1;
        assert multiset(s)[x] > 1;
      }
    }
  }

  lemma {:induction false} PermutedNoRepeat<T(!new)>(s: seq<T>, t: seq<T>)
    requires multiset(s) == multiset(t) && NoRepeat(s)
    ensures NoRepeat(t)
  {
    NoRepeatMultiset(s);
    NoRepeatMultiset(t);
  }

  lemma {:induction false} PermutedKeys(ms: seq<Member>, ns: seq<Member>)
    requires multiset(ms) == multiset(ns) && DistinctKeys(ms)
    ensures DistinctKeys(ns)
  {
    assert NoRepeat(ms);
    PermutedNoRepeat(ms, ns);
    SameListing(ms, ns);
    forall i, j | 0 <= i < j < |ns| ensures ns[i].key != ns[j].key {
      assert ns[i] in ms && ns[j] in ms;
      var a, b := IndexOf(ms, ns[i]), IndexOf(ms, ns[j]);
      assert a != b;
    }
  }

  lemma {:induction false} PermutedNames(fields: seq<Field>, permuted: seq<Field>)
    requires multiset(fields) == multiset(permuted) && DistinctNames(fields)
    ensures DistinctNames(permuted)
  {
    assert NoRepeat(fields);
    PermutedNoRepeat(fields, permuted);
    SameListing(fields, permuted);
    forall i, j | 0 <= i < j < |permuted| ensures permuted[i].name != permuted[j].name {
      assert permuted[i] in fields && permuted[j] in fields;
      var a, b := IndexOf(fields, permuted[i]), IndexOf(fields, permuted[j]);
      assert a != b;
    }
  }

  lemma {:induction false} SameLookup(ms: seq<Member>, ns: seq<Member>, name: Text)
    requires multiset(ms) == multiset(ns) && DistinctKeys(ms)
    ensures Get(ms, name) == Get(ns, name)
  {
    PermutedKeys(ms, ns);
    SameListing(ms, ns);
    LookupSpec(ms, name);
    LookupSpec(ns, name);
  }

  /** Permuting the declared fields and the members of the object leaves the parsed struct unchanged. */
  lemma {:induction false} FieldOrderIrrelevant(c: Context, fields: seq<Field>, permuted: seq<Field>, ms: seq<Member>, ns: seq<Member>, v: ScVal)
    requires c.host.Bounded() && multiset(fields) == multiset(permuted)
    requires multiset(ms) == multiset(ns) && DistinctKeys(ms)
    requires ParseStruct(c, fields, ms) == Ok(v)
    ensures ParseStruct(c, permuted, ns) == Ok(v)
  {
    hide FromFields, Less, Get, FromJson, KeysAreFields;
    LessIsStrictOrder();
    StructIsCanonical(c, fields, ms, v);
    var es := FromFields(c, fields, ms).value;
    FromFieldsLength(c, fields, ms);
    SameListing(fields, permuted);
    SameElementsSymmetric(permuted, fields);
    hide SameElements;
    var at := PositionsExist(permuted, fields);
    var back := PositionsExist(fields, permuted);
    var fs := seq(|permuted|, p requires 0 <= p < |permuted| => es[at[p]]);
    forall p | 0 <= p < |permuted| ensures Reads(c, permuted[p], ns, fs[p]) {
      ReadBackByPosition(c, fields, es, ms, at[p]);
      ReadNamesFit(c, fields, ms, at[p]);
      SameLookup(ms, ns, permuted[p].name);
    }
    FromFieldsIs(c, permuted, ns, fs);
    PermutedNames(fields, permuted);
    forall a | 0 <= a < |es| ensures fs[back[a]] == es[a] {
      assert fields[at[back[a]]] == fields[a];
      assert at[back[a]] == a;
    }
    PositionsSuffice(fs, es, at, back);
    SortedFromSpec(Less, es);
    assert SameElements(v.entries, es);
    SameElementsSymmetric(v.entries, es);
    SameThrough(fs, es, v.entries);
    forall p, q | 0 <= p < q < |fs| ensures fs[p].key != fs[q].key {
      assert Reads(c, permuted[p], ns, fs[p]) && Reads(c, permuted[q], ns, fs[q]);
    }
    SortedFromRecovers(Less, fs, v.entries);
  }

  lemma {:induction false} SameThrough<T(!new)>(s: seq<T>, t: seq<T>, u: seq<T>)
    requires SameElements(s, t) && SameElements(t, u)
    ensures SameElements(s, u)
  {
  }

  lemma {:induction false} ReadNamesFit(c: Context, fields: seq<Field>, members: seq<Member>, p: nat)
    requires c.host.Bounded() && FromFields(c, fields, members).Ok? && p < |fields|
    ensures |fields[p].name| <= MAX_SYMBOL
  {
    hide FromJson, Get;
    if p > 0 { ReadNamesFit(c, fields[1..], members, p - 1); }
  }
}
