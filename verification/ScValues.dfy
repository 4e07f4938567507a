/** Contract values and the order that Rust derives for them. */
module ScValues {
  import opened Octets
  import opened OrderedMap

  type Bytes32 = s: seq<byte> | |s| == 32 witness seq(32, _ => 0)

  datatype ScAddress = Account(key: Bytes32) | Contract(hash: Bytes32)

  /** A map entry is a pair of values. */
  type ScMapEntry = Pair<ScVal, ScVal>

  /**
   `ScVal` without its `Error` and `ContractInstance` variants. The optional payloads of
   `ScVal::Vec` and `ScVal::Map` are written as two constructors each.
   */
  datatype ScVal =
    | Bool(b: bool)
    | Void
    | U32(u32: u32)
    | I32(i32: i32)
    | U64(u64: u64)
    | I64(i64: i64)
    | Timepoint(time: u64)
    | Duration(span: u64)
    | U128(hi: u64, lo: u64)
    | I128(shi: i64, lo: u64)
    | U256(hihi: u64, hilo: u64, lohi: u64, lolo: u64)
    | I256(shihi: i64, hilo: u64, lohi: u64, lolo: u64)
    | Bytes(bytes: seq<byte>)
    | String(str: Text)
    | Symbol(sym: Text)
    | VecNone
    | Vec(items: seq<ScVal>)
    | MapNone
    | Map(entries: seq<Pair<ScVal, ScVal>>)
    | Address(address: ScAddress)
    | LedgerKeyContractInstance
    | LedgerKeyNonce(nonce: i64)

  /** Position of the variant in the declaration; an absent payload precedes a present one. */
  function Rank(v: ScVal): nat {
    match v
    case Bool(_) => 0
    case Void => 1
    case U32(_) => 3
    case I32(_) => 4
    case U64(_) => 5
    case I64(_) => 6
    case Timepoint(_) => 7
    case Duration(_) => 8
    case U128(_, _) => 9
    case I128(_, _) => 10
    case U256(_, _, _, _) => 11
    case I256(_, _, _, _) => 12
    case Bytes(_) => 13
    case String(_) => 14
    case Symbol(_) => 15
    case VecNone => 16
    case Vec(_) => 17
    case MapNone => 18
    case Map(_) => 19
    case Address(_) => 20
    case LedgerKeyContractInstance => 22
    case LedgerKeyNonce(_) => 23
  }

  /** The payload of a variant that holds no values, as the numbers compared from left to right. */
  function Scalars(v: ScVal): seq<int> {
    match v
    case Bool(b) => [if b then 1 else 0]
    case U32(n) => [n]
    case I32(n) => [n]
    case U64(n) => [n]
    case I64(n) => [n]
    case Timepoint(n) => [n]
    case Duration(n) => [n]
    case U128(hi, lo) => [hi, lo]
    case I128(hi, lo) => [hi, lo]
    case U256(a, b, c, d) => [a, b, c, d]
    case I256(a, b, c, d) => [a, b, c, d]
    case Bytes(s) => s
    case String(s) => s
    case Symbol(s) => s
    case Address(Account(k)) => [0] + k
    case Address(Contract(h)) => [1] + h
    case LedgerKeyNonce(n) => [n]
    case _ => []
  }

  /** The derived order: variant first, then payload, sequences element by element. */
  predicate Less(a: ScVal, b: ScVal)
    decreases a, 1
  {
    || Rank(a) < Rank(b)
    || (Rank(a) == Rank(b) &&
        match (a, b)
        case (Vec(s), Vec(t)) => LessAll(s, t)
        case (Map(s), Map(t)) => LessEntries(s, t)
        case _ => LexLess(Scalars(a), Scalars(b)))
  }

  predicate LessAll(s: seq<ScVal>, t: seq<ScVal>)
    decreases s, 0
  {
    if t == [] then false
    else if s == [] then true
    else Less(s[0], t[0]) || (s[0] == t[0] && LessAll(s[1..], t[1..]))
  }

  predicate LessEntries(s: seq<ScMapEntry>, t: seq<ScMapEntry>)
    decreases s, 0
  {
    if t == [] then false
    else if s == [] then true
    else LessEntry(s[0], t[0]) || (s[0] == t[0] && LessEntries(s[1..], t[1..]))
  }

  predicate LessEntry(e: ScMapEntry, f: ScMapEntry)
    decreases e, 0
  {
    Less(e.key, f.key) || (e.key == f.key && Less(e.val, f.val))
  }

  lemma {:induction false} ScalarsDetermine(a: ScVal, b: ScVal)
    requires Rank(a) == Rank(b) && !a.Vec? && !a.Map? && Scalars(a) == Scalars(b)
    ensures a == b
  {
    if a.Address? {
      assert Scalars(a)[0] == Scalars(b)[0];
      assert Scalars(a)[1..] == Scalars(b)[1..];
    } else if !a.Bytes? && !a.String? && !a.Symbol? && Scalars(a) != [] {
      assert Scalars(a)[0] == Scalars(b)[0];
      if |Scalars(a)| > 1 { assert Scalars(a)[1] == Scalars(b)[1]; }
      if |Scalars(a)| > 2 { assert Scalars(a)[2] == Scalars(b)[2] && Scalars(a)[3] == Scalars(b)[3]; }
    }
  }

  lemma {:induction false} Total(a: ScVal, b: ScVal)
    ensures Less(a, b) || a == b || Less(b, a)
    ensures !Less(a, a)
    decreases a, 1
  {
    match (a, b)
    case (Vec(s), _) =>
      TotalAll(s, s);
      if b.Vec? { TotalAll(s, b.items); }
    case (Map(s), _) =>
      TotalEntries(s, s);
      if b.Map? { TotalEntries(s, b.entries); }
    case _ => TotalScalars(a, b);
  }

  lemma {:induction false} LessScalars(a: ScVal, b: ScVal)
    requires !(a.Vec? && b.Vec?) && !(a.Map? && b.Map?)
    ensures Less(a, b) <==> Rank(a) < Rank(b) || (Rank(a) == Rank(b) && LexLess(Scalars(a), Scalars(b)))
  {
    hide Rank, Scalars, LexLess;
  }

  lemma {:induction false} TotalScalars(a: ScVal, b: ScVal)
    requires !a.Vec? && !a.Map?
    ensures Less(a, b) || a == b || Less(b, a)
    ensures !Less(a, a)
  {
    LessScalars(a, b);
    LessScalars(b, a);
    LessScalars(a, a);
    hide Scalars, Rank, LexLess, Less;
    LexTotal(Scalars(a), Scalars(b));
    LexTotal(Scalars(a), Scalars(a));
    if Rank(a) == Rank(b) && Scalars(a) == Scalars(b) { ScalarsDetermine(a, b); }
  }

  lemma {:induction false} TotalAll(s: seq<ScVal>, t: seq<ScVal>)
    ensures LessAll(s, t) || s == t || LessAll(t, s)
    ensures !LessAll(s, s)
    decreases s, 0
  {
    if s != [] {
      Total(s[0], if t == [] then s[0] else t[0]);
      TotalAll(s[1..], if t == [] then [] else t[1..]);
      assert s == [s[0]] + s[1..];
      if t != [] { assert t == [t[0]] + t[1..]; }
    }
  }

  lemma {:induction false} TotalEntry(e: ScMapEntry, f: ScMapEntry)
    ensures LessEntry(e, f) || e == f || LessEntry(f, e)
    ensures !LessEntry(e, e)
    decreases e, 0
  {
    Total(e.key, f.key);
    Total(e.val, f.val);
  }

  lemma {:induction false} TotalEntries(s: seq<ScMapEntry>, t: seq<ScMapEntry>)
    ensures LessEntries(s, t) || s == t || LessEntries(t, s)
    ensures !LessEntries(s, s)
    decreases s, 0
  {
    if s != [] {
      TotalEntry(s[0], if t == [] then s[0] else t[0]);
      TotalEntries(s[1..], if t == [] then [] else t[1..]);
      assert s == [s[0]] + s[1..];
      if t != [] { assert t == [t[0]] + t[1..]; }
    }
  }

  lemma {:induction false} Transitive(a: ScVal, b: ScVal, c: ScVal)
    requires Less(a, b) && Less(b, c)
    ensures Less(a, c)
    decreases a, 1
  {
    SameRank(a, b);
    SameRank(b, c);
    hide Scalars, Rank, LexLess;
    if Rank(a) == Rank(b) == Rank(c) {
      if a.Vec? {
        TransitiveAll(a.items, b.items, c.items);
      } else if a.Map? {
        TransitiveEntries(a.entries, b.entries, c.entries);
      } else {
        LexTransitive(Scalars(a), Scalars(b), Scalars(c));
      }
    }
  }

  lemma {:induction false} SameRank(a: ScVal, b: ScVal)
    ensures Rank(a) == Rank(b) ==> (a.Vec? <==> b.Vec?) && (a.Map? <==> b.Map?)
  {
  }

  lemma {:induction false} TransitiveAll(s: seq<ScVal>, t: seq<ScVal>, u: seq<ScVal>)
    requires LessAll(s, t) && LessAll(t, u)
    ensures LessAll(s, u)
    decreases s, 0
  {
    if s != [] {
      if Less(s[0], t[0]) && Less(t[0], u[0]) {
        Transitive(s[0], t[0], u[0]);
      } else if s[0] == t[0] == u[0] {
        TransitiveAll(s[1..], t[1..], u[1..]);
      }
    }
  }

  lemma {:induction false} TransitiveEntry(e: ScMapEntry, f: ScMapEntry, g: ScMapEntry)
    requires LessEntry(e, f) && LessEntry(f, g)
    ensures LessEntry(e, g)
    decreases e, 0
  {
    if Less(e.key, f.key) && Less(f.key, g.key) {
      Transitive(e.key, f.key, g.key);
    } else if e.key == f.key == g.key {
      Transitive(e.val, f.val, g.val);
    }
  }

  lemma {:induction false} TransitiveEntries(s: seq<ScMapEntry>, t: seq<ScMapEntry>, u: seq<ScMapEntry>)
    requires LessEntries(s, t) && LessEntries(t, u)
    ensures LessEntries(s, u)
    decreases s, 0
  {
    if s != [] {
      if LessEntry(s[0], t[0]) && LessEntry(t[0], u[0]) {
        TransitiveEntry(s[0], t[0], u[0]);
      } else if s[0] == t[0] == u[0] {
        TransitiveEntries(s[1..], t[1..], u[1..]);
      }
    }
  }

  /** The derived order of values is a strict total order. */
  lemma {:induction false} LessIsStrictOrder()
    ensures StrictOrder(Less)
  {
    forall a, b ensures !Less(a, a) && (Less(a, b) || a == b || Less(b, a)) { Total(a, b); }
    forall a, b, c | Less(a, b) && Less(b, c) ensures Less(a, c) { Transitive(a, b, c); }
  }

  lemma {:induction false} TextLessIsStrictOrder()
    ensures StrictOrder(TextLess)
  {
    forall a: Text, b: Text ensures !TextLess(a, a) && (TextLess(a, b) || a == b || TextLess(b, a)) { LexTotal(a, b); }
    forall a: Text, b: Text, c: Text | TextLess(a, b) && TextLess(b, c) ensures TextLess(a, c) { LexTransitive(a, b, c); }
  }

  /** Symbols are ordered by their bytes. */
  lemma {:induction false} SymbolOrder(a: Text, b: Text)
    ensures Less(Symbol(a), Symbol(b)) <==> TextLess(a, b)
  {
  }
}
