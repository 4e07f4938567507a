/** What the derived order of contract values orders by, variant by variant. */
module ValueOrder {
  import opened Wrappers
  import opened Octets
  import opened OrderedMap
  import opened ScValues
  import opened SpecTypes
  import opened Json
  import opened Codec

  /** The number an integer stands for: its words in base 2^64. */
  function AsNumber(v: ScVal): Option<int> {
    match v
    case U32(n) => Some(n)
    case I32(n) => Some(n)
    case U64(n) => Some(n)
    case I64(n) => Some(n)
    case Timepoint(n) => Some(n)
    case Duration(n) => Some(n)
    case U128(hi, lo) => Some(hi * BASE64 + lo)
    case I128(hi, lo) => Some(hi * BASE64 + lo)
    case U256(a, b, c, d) => Some(((a * BASE64 + b) * BASE64 + c) * BASE64 + d)
    case I256(a, b, c, d) => Some(((a * BASE64 + b) * BASE64 + c) * BASE64 + d)
    case _ => None
  }

  // ----- Texts and numbers, compared from left to right -----

  lemma {:induction false} LexOne(x: int, y: int)
    ensures LexLess([x], [y]) <==> x < y
  {
  }

  lemma {:induction false} LexCons(x: int, y: int, s: seq<int>, t: seq<int>)
    ensures LexLess([x] + s, [y] + t) <==> x < y || (x == y && LexLess(s, t))
  {
    assert ([x] + s)[1..] == s && ([y] + t)[1..] == t;
  }

  /** Words compare as the number they make, if the lower ones are in range. */
  lemma {:induction false} WordsCompare(x: int, y: int, p: u64, q: u64)
    ensures x * BASE64 + p < y * BASE64 + q <==> x < y || (x == y && p < q)
  {
  }

  lemma {:induction false} LexTwo(x: int, y: int, p: u64, q: u64)
    ensures LexLess([x, p], [y, q]) <==> x * BASE64 + p < y * BASE64 + q
  {
    assert [x, p] == [x] + [p] && [y, q] == [y] + [q];
    LexCons(x, y, [p], [q]);
    LexOne(p, q);
    WordsCompare(x, y, p, q);
    hide LexLess;
  }

  lemma {:induction false} LexFour(a: int, b: u64, c: u64, d: u64, a': int, b': u64, c': u64, d': u64)
    ensures LexLess([a, b, c, d], [a', b', c', d']) <==>
      ((a * BASE64 + b) * BASE64 + c) * BASE64 + d < ((a' * BASE64 + b') * BASE64 + c') * BASE64 + d'
  {
    assert [a, b, c, d] == [a] + [b, c, d] && [b, c, d] == [b] + [c, d];
    assert [a', b', c', d'] == [a'] + [b', c', d'] && [b', c', d'] == [b'] + [c', d'];
    LexCons(a, a', [b, c, d], [b', c', d']);
    LexCons(b, b', [c, d], [c', d']);
    assert [c, d] == [c] + [d] && [c', d'] == [c'] + [d'];
    LexCons(c, c', [d], [d']);
    LexOne(d, d');
    hide LexLess;
    WordsCompare(a, a', b, b');
    WordsCompare(a * BASE64 + b, a' * BASE64 + b', c, c');
    WordsCompare((a * BASE64 + b) * BASE64 + c, (a' * BASE64 + b') * BASE64 + c', d, d');
  }

  /** The first difference decides; a proper prefix comes first. */
  ghost predicate FirstDiffers<T(!new)>(before: (T, T) -> bool, s: seq<T>, t: seq<T>) {
    || (|s| < |t| && s == t[..|s|])
    || exists i :: 0 <= i < |s| && i < |t| && s[..i] == t[..i] && before(s[i], t[i])
  }

  lemma {:induction false} FirstDiffersCons<T(!new)>(before: (T, T) -> bool, x: T, y: T, s: seq<T>, t: seq<T>)
    ensures FirstDiffers(before, [x] + s, [y] + t) <==> before(x, y) || (x == y && FirstDiffers(before, s, t))
  {
    if before(x, y) || (x == y && FirstDiffers(before, s, t)) { DiffersLonger(before, x, y, s, t); }
    if FirstDiffers(before, [x] + s, [y] + t) { DiffersShorter(before, x, y, s, t); }
    hide FirstDiffers;
  }

  lemma {:induction false} DiffersLonger<T(!new)>(before: (T, T) -> bool, x: T, y: T, s: seq<T>, t: seq<T>)
    requires before(x, y) || (x == y && FirstDiffers(before, s, t))
    ensures FirstDiffers(before, [x] + s, [y] + t)
  {
    var u, w := [x] + s, [y] + t;
    if before(x, y) {
      assert u[..0] == w[..0] && before(u[0], w[0]);
    } else if |s| < |t| && s == t[..|s|] {
      assert w[..|u|] == [y] + t[..|s|];
    } else {
      var i :| 0 <= i < |s| && i < |t| && s[..i] == t[..i] && before(s[i], t[i]);
      assert u[..i + 1] == [x] + s[..i] && w[..i + 1] == [y] + t[..i] && before(u[i + 1], w[i + 1]);
    }
  }

  lemma {:induction false} DiffersShorter<T(!new)>(before: (T, T) -> bool, x: T, y: T, s: seq<T>, t: seq<T>)
    requires FirstDiffers(before, [x] + s, [y] + t)
    ensures before(x, y) || (x == y && FirstDiffers(before, s, t))
  {
    var u, w := [x] + s, [y] + t;
    if |u| < |w| && u == w[..|u|] {
      assert u[0] == w[..|u|][0] && s == u[1..] && t[..|s|] == w[..|u|][1..];
    } else {
      var i :| 0 <= i < |u| && i < |w| && u[..i] == w[..i] && before(u[i], w[i]);
      if i > 0 {
        assert u[..i] == [x] + s[..i - 1] && w[..i] == [y] + t[..i - 1];
        assert ([x] + s[..i - 1])[1..] == s[..i - 1] && ([y] + t[..i - 1])[1..] == t[..i - 1];
        assert u[..i][0] == w[..i][0] && before(s[i - 1], t[i - 1]);
      }
    }
  }

  lemma {:induction false} FirstDiffersEmpty<T(!new)>(before: (T, T) -> bool, s: seq<T>)
    ensures !FirstDiffers(before, s, []) && (FirstDiffers(before, [], s) <==> s != [])
  {
    assert s[..0] == [];
  }

  predicate Below(x: int, y: int) { x < y }

  /** Texts are ordered by their first different byte. */
  lemma {:induction false} TextOrder(s: seq<int>, t: seq<int>)
    ensures LexLess(s, t) <==> FirstDiffers(Below, s, t)
  {
    hide FirstDiffers;
    FirstDiffersEmpty(Below, s);
    FirstDiffersEmpty(Below, t);
    if s != [] && t != [] {
      TextOrder(s[1..], t[1..]);
      FirstDiffersCons(Below, s[0], t[0], s[1..], t[1..]);
      assert s == [s[0]] + s[1..] && t == [t[0]] + t[1..];
    }
  }

  // ----- Within a variant -----

  /** Integers of one type are ordered as numbers. */
  lemma {:induction false} IntegerOrder(v: ScVal, w: ScVal)
    requires SameInteger(v, w)
    ensures Less(v, w) <==> AsNumber(v).value < AsNumber(w).value
  {
    if v.U128? {
      LexTwo(v.hi, w.hi, v.lo, w.lo);
    } else if v.I128? {
      LexTwo(v.shi, w.shi, v.lo, w.lo);
    } else if v.U256? {
      LexFour(v.hihi, v.hilo, v.lohi, v.lolo, w.hihi, w.hilo, w.lohi, w.lolo);
    } else if v.I256? {
      LexFour(v.shihi, v.hilo, v.lohi, v.lolo, w.shihi, w.hilo, w.lohi, w.lolo);
    } else {
      LexOne(AsNumber(v).value, AsNumber(w).value);
    }
    hide LexLess;
  }

  predicate SameInteger(v: ScVal, w: ScVal) {
    match v
    case U32(_) => w.U32?
    case I32(_) => w.I32?
    case U64(_) => w.U64?
    case I64(_) => w.I64?
    case Timepoint(_) => w.Timepoint?
    case Duration(_) => w.Duration?
    case U128(_, _) => w.U128?
    case I128(_, _) => w.I128?
    case U256(_, _, _, _) => w.U256?
    case I256(_, _, _, _) => w.I256?
    case _ => false
  }

  /** False before true; nonces as numbers; bytes, strings and symbols by their bytes; an account before a contract. */
  lemma {:induction false} ScalarOrder(a: bool, b: bool, m: i64, n: i64, s: Text, t: Text, x: Bytes32, y: Bytes32)
    ensures Less(Bool(a), Bool(b)) <==> !a && b
    ensures Less(LedgerKeyNonce(m), LedgerKeyNonce(n)) <==> m < n
    ensures Less(Bytes(s), Bytes(t)) <==> TextLess(s, t)
    ensures Less(String(s), String(t)) <==> TextLess(s, t)
    ensures Less(Symbol(s), Symbol(t)) <==> TextLess(s, t)
    ensures Less(Address(Account(x)), Address(Account(y))) <==> TextLess(x, y)
    ensures Less(Address(Contract(x)), Address(Contract(y))) <==> TextLess(x, y)
    ensures Less(Address(Account(x)), Address(Contract(y))) && !Less(Address(Contract(x)), Address(Account(y)))
  {
    LexOne(if a then 1 else 0, if b then 1 else 0);
    LexOne(m, n);
    LexCons(0, 0, x, y);
    LexCons(1, 1, x, y);
    LexCons(0, 1, x, y);
    LexCons(1, 0, x, y);
    hide LexLess;
  }

  /** Vectors are ordered by their first different item. */
  lemma {:induction false} VecOrder(s: seq<ScVal>, t: seq<ScVal>)
    ensures Less(Vec(s), Vec(t)) <==> FirstDiffers(Less, s, t)
  {
    hide LessAll;
    assert Less(Vec(s), Vec(t)) <==> LessAll(s, t);
    ItemsOrder(s, t);
  }

  lemma {:induction false} ItemsOrder(s: seq<ScVal>, t: seq<ScVal>)
    ensures LessAll(s, t) <==> FirstDiffers(Less, s, t)
  {
    hide Less, FirstDiffers;
    FirstDiffersEmpty(Less, s);
    FirstDiffersEmpty(Less, t);
    if s != [] && t != [] {
      ItemsOrder(s[1..], t[1..]);
      FirstDiffersCons(Less, s[0], t[0], s[1..], t[1..]);
      assert s == [s[0]] + s[1..] && t == [t[0]] + t[1..];
    }
  }

  /** An entry is ordered by its key, then by its value. */
  predicate EntryBefore(e: ScMapEntry, f: ScMapEntry) {
    Less(e.key, f.key) || (e.key == f.key && Less(e.val, f.val))
  }

  /** Maps are ordered by their first different entry. */
  lemma {:induction false} MapOrder(s: seq<ScMapEntry>, t: seq<ScMapEntry>)
    ensures Less(Map(s), Map(t)) <==> FirstDiffers(EntryBefore, s, t)
  {
    hide LessEntries;
    assert Less(Map(s), Map(t)) <==> LessEntries(s, t);
    EntriesOrder(s, t);
  }

  lemma {:induction false} EntriesOrder(s: seq<ScMapEntry>, t: seq<ScMapEntry>)
    ensures LessEntries(s, t) <==> FirstDiffers(EntryBefore, s, t)
  {
    hide Less, FirstDiffers;
    FirstDiffersEmpty(EntryBefore, s);
    FirstDiffersEmpty(EntryBefore, t);
    if s != [] && t != [] {
      EntriesOrder(s[1..], t[1..]);
      FirstDiffersCons(EntryBefore, s[0], t[0], s[1..], t[1..]);
      assert s == [s[0]] + s[1..] && t == [t[0]] + t[1..];
      assert LessEntry(s[0], t[0]) <==> EntryBefore(s[0], t[0]);
    }
  }

  // ----- Across variants -----

  /** The variants in the order of their declaration. */
  datatype Variant =
    | VBool | VVoid | VU32 | VI32 | VU64 | VI64 | VTimepoint | VDuration | VU128 | VI128 | VU256 | VI256
    | VBytes | VString | VSymbol | VVecNone | VVec | VMapNone | VMap | VAddress | VInstance | VNonce

  function Declared(): seq<Variant> {
    [VBool, VVoid, VU32, VI32, VU64, VI64, VTimepoint, VDuration, VU128, VI128, VU256, VI256,
     VBytes, VString, VSymbol, VVecNone, VVec, VMapNone, VMap, VAddress, VInstance, VNonce]
  }

  function VariantOf(v: ScVal): Variant {
    match v
    case Bool(_) => VBool
    case Void => VVoid
    case U32(_) => VU32
    case I32(_) => VI32
    case U64(_) => VU64
    case I64(_) => VI64
    case Timepoint(_) => VTimepoint
    case Duration(_) => VDuration
    case U128(_, _) => VU128
    case I128(_, _) => VI128
    case U256(_, _, _, _) => VU256
    case I256(_, _, _, _) => VI256
    case Bytes(_) => VBytes
    case String(_) => VString
    case Symbol(_) => VSymbol
    case VecNone => VVecNone
    case Vec(_) => VVec
    case MapNone => VMapNone
    case Map(_) => VMap
    case Address(_) => VAddress
    case LedgerKeyContractInstance => VInstance
    case LedgerKeyNonce(_) => VNonce
  }

  function Place(x: Variant): nat {
    match x
    case VBool => 0
    case VVoid => 1
    case VU32 => 2
    case VI32 => 3
    case VU64 => 4
    case VI64 => 5
    case VTimepoint => 6
    case VDuration => 7
    case VU128 => 8
    case VI128 => 9
    case VU256 => 10
    case VI256 => 11
    case VBytes => 12
    case VString => 13
    case VSymbol => 14
    case VVecNone => 15
    case VVec => 16
    case VMapNone => 17
    case VMap => 18
    case VAddress => 19
    case VInstance => 20
    case VNonce => 21
  }

  lemma {:induction false} PlaceIsPosition(i: nat)
    requires i < |Declared()|
    ensures Place(Declared()[i]) == i
  {
  }

  lemma {:induction false} RankIsPosition(v: ScVal, i: nat)
    requires i < |Declared()| && VariantOf(v) == Declared()[i]
    ensures Rank(v) == (if i < 2 then i else if i < 20 then i + 1 else i + 2)
  {
    PlaceIsPosition(i);
    hide Declared;
  }

  /** Values of different variants are in the order in which the variants are declared. */
  lemma {:induction false} VariantOrder(v: ScVal, w: ScVal, i: nat, j: nat)
    requires i < j < |Declared()| && VariantOf(v) == Declared()[i] && VariantOf(w) == Declared()[j]
    ensures Less(v, w) && !Less(w, v)
  {
    hide Rank, Declared, VariantOf, Less;
    RankIsPosition(v, i);
    RankIsPosition(w, j);
    RankDecides(v, w);
  }

  lemma {:induction false} RankDecides(v: ScVal, w: ScVal)
    requires Rank(v) < Rank(w)
    ensures Less(v, w) && !Less(w, v)
  {
    hide Rank;
  }

  // ----- Parsed maps -----

  /** The integer keys of a parsed map ascend as numbers. */
  lemma {:induction false} IntegerKeysAscend(c: Context, members: seq<Member>, k: ScType, w: ScType, v: ScVal)
    requires c.host.Bounded() && ParseMap(c, members, k, w) == Ok(v)
    ensures v.Map?
    ensures forall i, j :: 0 <= i < j < |v.entries| && SameInteger(v.entries[i].key, v.entries[j].key) ==>
      AsNumber(v.entries[i].key).value < AsNumber(v.entries[j].key).value
  {
    hide FromMembers, Less, SortedFrom;
    LessIsStrictOrder();
    SortedFromSpec(Less, FromMembers(c, members, k, w).value);
    hide StrictOrder;
    forall i, j | 0 <= i < j < |v.entries| && SameInteger(v.entries[i].key, v.entries[j].key)
      ensures AsNumber(v.entries[i].key).value < AsNumber(v.entries[j].key).value
    {
      IntegerOrder(v.entries[i].key, v.entries[j].key);
    }
  }
}
