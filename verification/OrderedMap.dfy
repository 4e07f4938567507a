/**
 Association lists kept in strictly ascending key order: the model of Rust's `BTreeMap`
 (behind `serde_json::Map`) and of the sorted entry lists of an `ScMap`.
 */
module OrderedMap {
  import opened Wrappers

  datatype Pair<+K, +V> = Pair(key: K, val: V)

  ghost predicate StrictOrder<K(!new)>(less: (K, K) -> bool) {
    && (forall a :: !less(a, a))
    && (forall a, b, c :: less(a, b) && less(b, c) ==> less(a, c))
    && (forall a, b :: less(a, b) || a == b || less(b, a))
  }

  ghost predicate Ascending<K, V>(less: (K, K) -> bool, s: seq<Pair<K, V>>) {
    forall i, j :: 0 <= i < j < |s| ==> less(s[i].key, s[j].key)
  }

  ghost predicate DistinctKeys<K, V>(s: seq<Pair<K, V>>) {
    forall i, j :: 0 <= i < j < |s| ==> s[i].key != s[j].key
  }

  ghost predicate HasKey<K, V>(s: seq<Pair<K, V>>, k: K) {
    exists i :: 0 <= i < |s| && s[i].key == k
  }

  ghost predicate SameElements<T(!new)>(s: seq<T>, t: seq<T>) {
    forall x :: x in s <==> x in t
  }

  lemma {:induction false} SameElementsSymmetric<T(!new)>(s: seq<T>, t: seq<T>)
    requires SameElements(s, t)
    ensures SameElements(t, s)
  {
  }

  /** Whether `at` lists, for every element of `s`, a position of it in `t`. */
  ghost predicate Positions<T>(s: seq<T>, t: seq<T>, at: seq<nat>) {
    |at| == |s| && forall i :: 0 <= i < |s| ==> at[i] < |t| && t[at[i]] == s[i]
  }

  lemma {:induction false} PositionsExist<T(!new)>(s: seq<T>, t: seq<T>) returns (at: seq<nat>)
    requires SameElements(s, t)
    ensures Positions(s, t, at)
  {
    assert forall i :: 0 <= i < |s| ==> s[i] in t;
    at := seq(|s|, i requires 0 <= i < |s| => IndexOf(t, s[i]));
  }

  ghost function IndexOf<T>(s: seq<T>, x: T): (i: nat)
    requires x in s
    ensures i < |s| && s[i] == x
  {
    var i :| 0 <= i < |s| && s[i] == x;
    i
  }

  lemma {:induction false} PositionsSuffice<T(!new)>(s: seq<T>, t: seq<T>, at: seq<nat>, back: seq<nat>)
    requires Positions(s, t, at) && Positions(t, s, back)
    ensures SameElements(s, t)
  {
  }

  /** Inserts a binding at its place; an existing binding of the key is replaced. */
  function Put<K(==), V>(less: (K, K) -> bool, s: seq<Pair<K, V>>, k: K, v: V): seq<Pair<K, V>> {
    if s == [] then [Pair(k, v)]
    else if s[0].key == k then [Pair(k, v)] + s[1..]
    else if less(s[0].key, k) then [s[0]] + Put(less, s[1..], k, v)
    else [Pair(k, v)] + s
  }

  /** Inserts the bindings one after the other into an empty map; later bindings win. */
  function Collect<K(==), V>(less: (K, K) -> bool, s: seq<Pair<K, V>>): seq<Pair<K, V>> {
    if s == [] then []
    else
      var last := s[|s| - 1];
      Put(less, Collect(less, s[..|s| - 1]), last.key, last.val)
  }

  /** Sorts by key and refuses a list in which two keys are equal. */
  function SortedFrom<K(==), V>(less: (K, K) -> bool, s: seq<Pair<K, V>>): Option<seq<Pair<K, V>>> {
    var m := Collect(less, s);
    if |m| == |s| then Some(m) else None
  }

  function Lookup<K(==), V>(s: seq<Pair<K, V>>, k: K): Option<V> {
    if s == [] then None
    else if s[0].key == k then Some(s[0].val)
    else Lookup(s[1..], k)
  }

  lemma {:induction false} AscendingCons<K(!new), V(!new)>(less: (K, K) -> bool, x: Pair<K, V>, s: seq<Pair<K, V>>)
    requires Ascending(less, s) && forall p :: p in s ==> less(x.key, p.key)
    ensures Ascending(less, [x] + s)
  {
    var t := [x] + s;
    forall i, j | 0 <= i < j < |t| ensures less(t[i].key, t[j].key) {
      assert t[j] == s[j - 1] && t[j] in s;
      if i > 0 { assert t[i] == s[i - 1]; }
    }
  }

  lemma {:induction false} AscendingTail<K, V>(less: (K, K) -> bool, s: seq<Pair<K, V>>)
    requires Ascending(less, s) && s != []
    ensures Ascending(less, s[1..])
  {
  }

  /** Facts of a strict order, one instance at a time. */
  lemma {:induction false} Between<K(!new)>(less: (K, K) -> bool, a: K, b: K, c: K)
    requires StrictOrder(less)
    ensures !less(a, a)
    ensures less(a, b) && less(b, c) ==> less(a, c)
    ensures less(a, b) || a == b || less(b, a)
  {
  }

  lemma {:induction false} PutElements<K(!new), V(!new)>(less: (K, K) -> bool, s: seq<Pair<K, V>>, k: K, v: V, p: Pair<K, V>)
    requires StrictOrder(less) && Ascending(less, s)
    ensures p in Put(less, s, k, v) <==> p == Pair(k, v) || (p in s && p.key != k)
  {
    hide StrictOrder, Ascending;
    if s != [] {
      var x, t := s[0], s[1..];
      assert p in s <==> p == x || p in t;
      if p in t { AboveHead(less, s, p); }
      Between(less, x.key, k, p.key);
      Between(less, k, x.key, p.key);
      Between(less, p.key, k, x.key);
      if x.key != k && less(x.key, k) {
        AscendingTail(less, s);
        PutElements(less, t, k, v, p);
        assert Put(less, s, k, v) == [x] + Put(less, t, k, v);
      }
    }
  }

  lemma {:induction false} PutAscends<K(!new), V(!new)>(less: (K, K) -> bool, s: seq<Pair<K, V>>, k: K, v: V)
    requires StrictOrder(less) && Ascending(less, s)
    ensures Ascending(less, Put(less, s, k, v))
  {
    if s == [] {
    } else {
      var x, t := s[0], s[1..];
      assert s == [x] + t;
      hide StrictOrder, Ascending;
      AscendingTail(less, s);
      if x.key == k {
        forall p | p in t ensures less(k, p.key) { AboveHead(less, s, p); }
        AscendingCons(less, Pair(k, v), t);
      } else if less(x.key, k) {
        PutAscends(less, t, k, v);
        var r := Put(less, t, k, v);
        forall p | p in r ensures less(x.key, p.key) {
          PutElements(less, t, k, v, p);
          if p != Pair(k, v) { AboveHead(less, s, p); }
        }
        AscendingCons(less, x, r);
      } else {
        forall p | p in s ensures less(k, p.key) {
          if p in t { AboveHead(less, s, p); }
          Between(less, k, x.key, p.key);
          Between(less, x.key, k, k);
        }
        AscendingCons(less, Pair(k, v), s);
      }
    }
  }

  lemma {:induction false} AboveHead<K(!new), V(!new)>(less: (K, K) -> bool, s: seq<Pair<K, V>>, p: Pair<K, V>)
    requires Ascending(less, s) && s != [] && p in s[1..]
    ensures less(s[0].key, p.key)
  {
    var i :| 0 <= i < |s[1..]| && s[1..][i] == p;
    assert s[i + 1] == p;
  }

  lemma {:induction false} PutLength<K(!new), V(!new)>(less: (K, K) -> bool, s: seq<Pair<K, V>>, k: K, v: V)
    requires StrictOrder(less) && Ascending(less, s)
    ensures |Put(less, s, k, v)| == |s| + (if HasKey(s, k) then 0 else 1)
  {
    hide StrictOrder, Ascending;
    if s != [] {
      var x, t := s[0], s[1..];
      assert s == [x] + t;
      AscendingTail(less, s);
      KeyInFront(x, t, k);
      if x.key != k && less(x.key, k) {
        PutLength(less, t, k, v);
      } else if x.key != k && HasKey(t, k) {
        var i :| 0 <= i < |t| && t[i].key == k;
        AboveHead(less, s, t[i]);
      }
    }
  }

  lemma {:induction false} KeyInFront<K, V>(x: Pair<K, V>, t: seq<Pair<K, V>>, k: K)
    ensures HasKey([x] + t, k) <==> x.key == k || HasKey(t, k)
  {
    var s := [x] + t;
    if x.key == k { assert s[0].key == k; }
    if i :| 0 <= i < |t| && t[i].key == k { assert s[i + 1].key == k; }
    if i :| 0 <= i < |s| && s[i].key == k { if i > 0 { assert t[i - 1].key == k; } }
  }

  lemma {:induction false} PutSpec<K(!new), V(!new)>(less: (K, K) -> bool, s: seq<Pair<K, V>>, k: K, v: V)
    requires StrictOrder(less) && Ascending(less, s)
    ensures Ascending(less, Put(less, s, k, v))
    ensures forall p :: p in Put(less, s, k, v) <==> p == Pair(k, v) || (p in s && p.key != k)
    ensures |Put(less, s, k, v)| == |s| + (if HasKey(s, k) then 0 else 1)
  {
    hide StrictOrder, Ascending, Put;
    PutAscends(less, s, k, v);
    PutLength(less, s, k, v);
    forall p ensures p in Put(less, s, k, v) <==> p == Pair(k, v) || (p in s && p.key != k) { PutElements(less, s, k, v, p); }
  }

  lemma {:induction false} DistinctSnoc<K(!new), V(!new)>(front: seq<Pair<K, V>>, last: Pair<K, V>)
    ensures DistinctKeys(front + [last]) <==> DistinctKeys(front) && !HasKey(front, last.key)
  {
    var s := front + [last];
    assert s[|front|] == last;
    assert forall i :: 0 <= i < |front| ==> s[i] == front[i];
    if DistinctKeys(s) {
      assert forall i, j :: 0 <= i < j < |front| ==> s[i].key != s[j].key;
    }
  }

  /** Collecting keeps every key once, in ascending order; it drops a binding exactly when a key repeats. */
  lemma {:induction false} CollectSpec<K(!new), V(!new)>(less: (K, K) -> bool, s: seq<Pair<K, V>>)
    requires StrictOrder(less)
    ensures Ascending(less, Collect(less, s))
    ensures forall p :: p in Collect(less, s) ==> p in s
    ensures DistinctKeys(s) ==> SameElements(Collect(less, s), s)
    ensures |Collect(less, s)| <= |s|
    ensures |Collect(less, s)| == |s| <==> DistinctKeys(s)
  {
    if s != [] {
      var front, last := s[..|s| - 1], s[|s| - 1];
      CollectSpec(less, front);
      assert s == front + [last];
      CollectStep(less, front, Collect(less, front), last);
    }
  }

  lemma {:induction false} CollectStep<K(!new), V(!new)>(less: (K, K) -> bool, front: seq<Pair<K, V>>, m: seq<Pair<K, V>>, last: Pair<K, V>)
    requires StrictOrder(less) && Ascending(less, m) && |m| <= |front| && (|m| == |front| <==> DistinctKeys(front))
    requires (forall p :: p in m ==> p in front) && (DistinctKeys(front) ==> SameElements(m, front))
    ensures var s, r := front + [last], Put(less, m, last.key, last.val);
      && Ascending(less, r) && |r| <= |s| && (|r| == |s| <==> DistinctKeys(s))
      && (forall p :: p in r ==> p in s) && (DistinctKeys(s) ==> SameElements(r, s))
  {
    PutSpec(less, m, last.key, last.val);
    DistinctSnoc(front, last);
    hide Put, StrictOrder, Ascending, DistinctKeys;
    if DistinctKeys(front) { SameKeys(m, front, last.key); }
    if DistinctKeys(front) && !HasKey(front, last.key) {
      forall p | p in m ensures p.key != last.key { AbsentKey(front, last.key, p); }
    }
  }

  lemma {:induction false} AbsentKey<K(!new), V(!new)>(s: seq<Pair<K, V>>, k: K, p: Pair<K, V>)
    requires !HasKey(s, k) && p in s
    ensures p.key != k
  {
  }

  lemma {:induction false} SameKeys<K(!new), V(!new)>(s: seq<Pair<K, V>>, t: seq<Pair<K, V>>, k: K)
    requires SameElements(s, t)
    ensures HasKey(s, k) <==> HasKey(t, k)
  {
    if i :| 0 <= i < |s| && s[i].key == k { assert s[i] in t; }
    if i :| 0 <= i < |t| && t[i].key == k { assert t[i] in s; }
  }

  /** A strictly ascending list is determined by the set of its elements. */
  lemma {:induction false} AscendingUnique<K(!new), V(!new)>(less: (K, K) -> bool, s: seq<Pair<K, V>>, t: seq<Pair<K, V>>)
    requires StrictOrder(less) && Ascending(less, s) && Ascending(less, t) && SameElements(s, t)
    ensures s == t
  {
    if s == [] {
      assert forall i :: 0 <= i < |t| ==> t[i] in s;
    } else {
      assert s[0] in s;
      assert t != [];
      assert t[0] in t;
      assert s[0] == t[0] by {
        var i :| 0 <= i < |t| && t[i] == s[0];
        var j :| 0 <= j < |s| && s[j] == t[0];
      }
      forall x
        ensures x in s[1..] <==> x in t[1..]
      {
        assert x in s <==> x == s[0] || x in s[1..];
        assert x in t <==> x == t[0] || x in t[1..];
      }
      AscendingUnique(less, s[1..], t[1..]);
    }
  }

  function Keys<K, V>(s: seq<Pair<K, V>>): (r: seq<Pair<K, ()>>)
    ensures |r| == |s| && forall i :: 0 <= i < |s| ==> r[i] == Pair(s[i].key, ())
  {
    seq(|s|, i requires 0 <= i < |s| => Pair(s[i].key, ()))
  }

  /** Two ascending lists with the same keys have them at the same positions. */
  lemma {:induction false} KeysAgree<K(!new), V(!new), W(!new)>(less: (K, K) -> bool, s: seq<Pair<K, V>>, t: seq<Pair<K, W>>)
    requires StrictOrder(less) && Ascending(less, s) && Ascending(less, t)
    requires forall i :: 0 <= i < |s| ==> HasKey(t, s[i].key)
    requires forall i :: 0 <= i < |t| ==> HasKey(s, t[i].key)
    ensures |s| == |t| && forall i :: 0 <= i < |s| ==> s[i].key == t[i].key
  {
    var a, b := Keys(s), Keys(t);
    assert forall p :: p in a ==> p in b;
    assert forall p :: p in b ==> p in a;
    AscendingUnique(less, a, b);
    forall i | 0 <= i < |s| ensures s[i].key == t[i].key { assert a[i] == b[i]; }
  }

  /** Any listing of the bindings of an ascending list, in any order, sorts back to that list. */
  lemma {:induction false} SortedFromRecovers<K(!new), V(!new)>(less: (K, K) -> bool, s: seq<Pair<K, V>>, sorted: seq<Pair<K, V>>)
    requires StrictOrder(less) && Ascending(less, sorted)
    requires DistinctKeys(s) && SameElements(s, sorted)
    ensures SortedFrom(less, s) == Some(sorted)
  {
    CollectSpec(less, s);
    AscendingUnique(less, Collect(less, s), sorted);
  }

  /** What a successful sort yields; and it fails exactly on a repeated key. */
  lemma {:induction false} SortedFromSpec<K(!new), V(!new)>(less: (K, K) -> bool, s: seq<Pair<K, V>>)
    requires StrictOrder(less)
    ensures SortedFrom(less, s).Some? <==> DistinctKeys(s)
    ensures SortedFrom(less, s).Some? ==>
              && Ascending(less, SortedFrom(less, s).value)
              && SameElements(SortedFrom(less, s).value, s)
              && |SortedFrom(less, s).value| == |s|
  {
    CollectSpec(less, s);
  }

  lemma {:induction false} LookupSpec<K(!new), V(!new)>(s: seq<Pair<K, V>>, k: K)
    ensures Lookup(s, k).Some? ==> Pair(k, Lookup(s, k).value) in s
    ensures Lookup(s, k).None? <==> forall p :: p in s ==> p.key != k
    ensures DistinctKeys(s) ==> forall p :: p in s && p.key == k ==> Lookup(s, k) == Some(p.val)
  {
    if s == [] {
    } else {
      LookupSpec(s[1..], k);
      assert s[0] in s;
      assert forall p :: p in s <==> p == s[0] || p in s[1..];
    }
  }

  lemma {:induction false} AscendingDistinct<K(!new), V(!new)>(less: (K, K) -> bool, s: seq<Pair<K, V>>)
    requires StrictOrder(less) && Ascending(less, s)
    ensures DistinctKeys(s)
  {
  }
}
