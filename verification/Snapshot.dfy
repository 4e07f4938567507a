/**
 The snapshot search: rounds over a layered bucket list with a set of keys already decided,
 tombstones, and filters that grow from one round to the next.
 */
module Snapshot {
  import opened Wrappers
  import opened Octets
  import opened ScValues
  import opened LedgerEntries

  datatype Error = CorruptBucket | AssetUnresolved

  type Res<+T> = Result<T, Error>

  /** `SearchInputs`: the filters of one round. */
  datatype Inputs = Inputs(accounts: set<AccountId>, contracts: set<ScAddress>, wasms: set<Hash>) {
    predicate IsEmpty() { accounts == {} && contracts == {} && wasms == {} }
  }

  const NONE := Inputs({}, {}, {})

  datatype Saved = Saved(key: LedgerKey, entry: LedgerEntry)

  datatype LedgerSnapshot = LedgerSnapshot(version: u32, entries: seq<Saved>)

  /** What a contract instance entry makes the search look for next. */
  datatype Reference = Nothing | NamesWasm(hash: Hash) | NamesIssuer(account: AccountId)

  /** An asset name resolves to its issuer, to no account for the native asset, or not at all. */
  type Resolver = Text -> Res<Option<AccountId>>

  predicate Keep(f: Inputs, k: LedgerKey) {
    match k
    case AccountKey(account) => account in f.accounts
    case TrustlineKey(account, _) => account in f.accounts
    case ContractDataKey(contract, _, _) => contract in f.contracts
    case ContractCodeKey(hash) => hash in f.wasms
    case _ => false
  }

  function ReferenceOf(resolve: Resolver, e: LedgerEntry): Res<Reference> {
    match e.data
    case ContractData(_, key, _, Instance(executable, storage)) =>
      if key != LedgerKeyContractInstance then Ok(Nothing)
      else if executable.Wasm? then Ok(NamesWasm(executable.hash))
      else if storage.None? || AssetName(storage.value).None? then Ok(Nothing)
      else
        (match resolve(AssetName(storage.value).value)
         case Err(e) => Err(e)
         case Ok(None) => Ok(Nothing)
         case Ok(Some(issuer)) => Ok(NamesIssuer(issuer)))
    case _ => Ok(Nothing)
  }

  // ----- The simple specification: merge all buckets, then filter -----

  predicate Mentions(f: Frame, k: LedgerKey) {
    f.Entry? &&
    match f.entry
    case Live(e) => KeyOf(e) == k
    case Init(e) => KeyOf(e) == k
    case Dead(key) => key == k
    case Meta(_) => false
  }

  function EntryIn(f: Frame): Option<LedgerEntry> {
    match f
    case Entry(Live(e)) => Some(e)
    case Entry(Init(e)) => Some(e)
    case _ => None
  }

  /** The newest record of a key: its first occurrence. `Some(None)` is a tombstone. */
  function Newest(fs: seq<Frame>, k: LedgerKey): Option<Option<LedgerEntry>> {
    if fs == [] then None
    else
      var older := fs[|fs| - 1];
      var first := Newest(fs[..|fs| - 1], k);
      if first.Some? then first
      else if Mentions(older, k) then Some(EntryIn(older))
      else None
  }

  /** The merged ledger holds the entry under the key. */
  predicate InLedger(fs: seq<Frame>, k: LedgerKey, e: LedgerEntry) { Newest(fs, k) == Some(Some(e)) }

  function MaxMeta(fs: seq<Frame>): (v: u32) {
    if fs == [] then 0
    else
      var front := MaxMeta(fs[..|fs| - 1]);
      match fs[|fs| - 1]
      case Entry(Meta(v)) => if v > front then v else front
      case _ => front
  }

  /** Keys of the ledger: those some frame mentions. */
  function Keys(fs: seq<Frame>): set<LedgerKey> {
    if fs == [] then {}
    else
      Keys(fs[..|fs| - 1]) + KeysIn(fs[|fs| - 1])
  }

  function KeysIn(f: Frame): set<LedgerKey> {
    match f
    case Entry(Live(e)) => {KeyOf(e)}
    case Entry(Init(e)) => {KeyOf(e)}
    case Entry(Dead(k)) => {k}
    case _ => {}
  }

  /** References of the kept entries, as sets. */
  ghost function References(resolve: Resolver, fs: seq<Frame>, f: Inputs): set<Reference> {
    set k | k in Keys(fs) && Keep(f, k) && Newest(fs, k).Some? && Newest(fs, k).value.Some?
            && ReferenceOf(resolve, Newest(fs, k).value.value).Ok?
         :: ReferenceOf(resolve, Newest(fs, k).value.value).value
  }

  /** The given filters with every wasm and asset issuer named by an instance of a given contract. */
  ghost function Closure(resolve: Resolver, fs: seq<Frame>, f: Inputs): Inputs {
    var rs := References(resolve, fs, f);
    Inputs(f.accounts + (set r | r in rs && r.NamesIssuer? :: r.account),
           f.contracts,
           f.wasms + (set r | r in rs && r.NamesWasm? :: r.hash))
  }

  ghost predicate AllReadable(fs: seq<Frame>) { forall i :: 0 <= i < |fs| ==> fs[i].Entry? }

  ghost predicate AllResolve(resolve: Resolver, fs: seq<Frame>, f: Inputs) {
    forall k, e :: Keep(f, k) && InLedger(fs, k, e) ==> ReferenceOf(resolve, e).Ok?
  }

  // ----- One round -----

  datatype State = State(seen: set<LedgerKey>, next: Inputs, entries: seq<Saved>, version: u32)

  const START := State({}, NONE, [], 0)

  function Note(current: Inputs, next: Inputs, r: Reference): Inputs {
    match r
    case Nothing => next
    case NamesWasm(hash) => if hash in current.wasms then next else next.(wasms := next.wasms + {hash})
    case NamesIssuer(account) => next.(accounts := next.accounts + {account})
  }

  /** What one frame does to the state of the round. */
  function Step(resolve: Resolver, current: Inputs, st: State, f: Frame): Res<State> {
    match f
    case Corrupt => Err(CorruptBucket)
    case Entry(Meta(v)) => Ok(st.(version := if v > st.version then v else st.version))
    case Entry(Dead(k)) => Ok(if k in st.seen || !Keep(current, k) then st else st.(seen := st.seen + {k}))
    case Entry(Live(e)) => StepLive(resolve, current, st, e)
    case Entry(Init(e)) => StepLive(resolve, current, st, e)
  }

  function StepLive(resolve: Resolver, current: Inputs, st: State, e: LedgerEntry): Res<State> {
    var k := KeyOf(e);
    if k in st.seen || !Keep(current, k) then Ok(st)
    else
      var r :- ReferenceOf(resolve, e);
      Ok(State(st.seen + {k}, Note(current, st.next, r), st.entries + [Saved(k, e)], st.version))
  }

  function Scan(resolve: Resolver, current: Inputs, st: State, fs: seq<Frame>): Res<State> {
    if fs == [] then Ok(st)
    else
      var before :- Scan(resolve, current, st, fs[..|fs| - 1]);
      Step(resolve, current, before, fs[|fs| - 1])
  }

  lemma {:induction false} NewestInKeys(fs: seq<Frame>, k: LedgerKey)
    ensures Newest(fs, k).Some? <==> k in Keys(fs)
    ensures Newest(fs, k).Some? && Newest(fs, k).value.Some? ==> KeyOf(Newest(fs, k).value.value) == k
  {
    if fs != [] { NewestInKeys(fs[..|fs| - 1], k); }
  }

  /** Entries added by a round, over those it started with. */
  ghost predicate Adds(st: State, st': State, s: Saved) {
    exists i :: |st.entries| <= i < |st'.entries| && st'.entries[i] == s
  }

  /** What a scan has done: the keys it decided, the entries it saved, the version it met. */
  ghost predicate Scanned(fs: seq<Frame>, f: Inputs, st: State, st': State) {
    && (forall k :: k in st'.seen <==> k in st.seen || (k in Keys(fs) && Keep(f, k)))
    && |st.entries| <= |st'.entries| && st'.entries[..|st.entries|] == st.entries
    && (forall s :: Adds(st, st', s) <==> s.key !in st.seen && Keep(f, s.key) && InLedger(fs, s.key, s.entry))
    && (forall i, j :: |st.entries| <= i < j < |st'.entries| ==> st'.entries[i].key != st'.entries[j].key)
    && st'.version == (if MaxMeta(fs) > st.version then MaxMeta(fs) else st.version)
  }

  lemma {:induction false} AddsSnoc(st: State, st1: State, st2: State, s: Saved)
    requires |st.entries| <= |st1.entries| && st2.entries == st1.entries + [s]
    ensures forall x :: Adds(st, st2, x) <==> Adds(st, st1, x) || x == s
  {
    assert st2.entries[|st1.entries|] == s;
    forall x ensures Adds(st, st2, x) <==> Adds(st, st1, x) || x == s {
      if Adds(st, st1, x) {
        var i :| |st.entries| <= i < |st1.entries| && st1.entries[i] == x;
        assert st2.entries[i] == x;
      }
    }
  }

  lemma {:induction false} ScanSpec(resolve: Resolver, f: Inputs, st: State, fs: seq<Frame>)
    requires Scan(resolve, f, st, fs).Ok?
    ensures Scanned(fs, f, st, Scan(resolve, f, st, fs).value)
  {
    if fs == [] {
    } else {
      var front, x := fs[..|fs| - 1], fs[|fs| - 1];
      ScanSpec(resolve, f, st, front);
      var st1, st2 := Scan(resolve, f, st, front).value, Scan(resolve, f, st, fs).value;
      if EntryIn(x).Some? && KeyOf(EntryIn(x).value) !in st1.seen && Keep(f, KeyOf(EntryIn(x).value)) {
        StepSaves(resolve, f, st, fs, st1, st2, EntryIn(x).value);
      } else {
        StepSkips(resolve, f, st, fs, st1, st2);
      }
    }
  }

  lemma {:induction false} StepSaves(resolve: Resolver, f: Inputs, st: State, fs: seq<Frame>, st1: State, st2: State, e: LedgerEntry)
    requires fs != [] && Scanned(fs[..|fs| - 1], f, st, st1)
    requires EntryIn(fs[|fs| - 1]) == Some(e) && KeyOf(e) !in st1.seen && Keep(f, KeyOf(e))
    requires Step(resolve, f, st1, fs[|fs| - 1]) == Ok(st2)
    ensures Scanned(fs, f, st, st2)
  {
    hide ReferenceOf, Note, Keep;
    var front, k := fs[..|fs| - 1], KeyOf(e);
    var s := Saved(k, e);
    assert st2.entries == st1.entries + [s] && st2.seen == st1.seen + {k} && st2.version == st1.version;
    assert MaxMeta(fs) == MaxMeta(front) && Keys(fs) == Keys(front) + {k};
    NewestInKeys(front, k);
    NewestOfSaved(fs, k, e);
    hide KeyOf, Step, MaxMeta, Keys, Newest, InLedger;
    AddsSnoc(st, st1, st2, s);
    assert k !in Keys(front) && k !in st.seen;
    SavedKeysDiffer(front, f, st, st1, k);
    hide Adds;
  }

  lemma {:induction false} NewestOfSaved(fs: seq<Frame>, k: LedgerKey, e: LedgerEntry)
    requires fs != [] && EntryIn(fs[|fs| - 1]) == Some(e) && KeyOf(e) == k && Newest(fs[..|fs| - 1], k).None?
    ensures forall y: Saved :: InLedger(fs, y.key, y.entry) <==> InLedger(fs[..|fs| - 1], y.key, y.entry) || y == Saved(k, e)
  {
  }

  lemma {:induction false} SavedKeysDiffer(front: seq<Frame>, f: Inputs, st: State, st1: State, k: LedgerKey)
    requires Scanned(front, f, st, st1) && k !in Keys(front)
    ensures forall i :: |st.entries| <= i < |st1.entries| ==> st1.entries[i].key != k
  {
    hide Keep, KeyOf, MaxMeta, Keys, Newest;
    forall i | |st.entries| <= i < |st1.entries| ensures st1.entries[i].key != k {
      assert Adds(st, st1, st1.entries[i]);
      NewestInKeys(front, st1.entries[i].key);
    }
  }

  lemma {:induction false} StepSkips(resolve: Resolver, f: Inputs, st: State, fs: seq<Frame>, st1: State, st2: State)
    requires fs != [] && Scanned(fs[..|fs| - 1], f, st, st1)
    requires var x := EntryIn(fs[|fs| - 1]); x.Some? ==> KeyOf(x.value) in st1.seen || !Keep(f, KeyOf(x.value))
    requires Step(resolve, f, st1, fs[|fs| - 1]) == Ok(st2)
    ensures Scanned(fs, f, st, st2)
  {
    var front, x := fs[..|fs| - 1], fs[|fs| - 1];
    hide ReferenceOf, Note, Keep, KeyOf;
    assert st2.entries == st1.entries;
    assert forall y :: Adds(st, st2, y) <==> Adds(st, st1, y);
    forall y: Saved | y.key !in st.seen && Keep(f, y.key) ensures InLedger(fs, y.key, y.entry) <==> InLedger(front, y.key, y.entry) {
      NewestInKeys(front, y.key);
    }
    hide Adds, InLedger;
  }

  lemma {:induction false} NewestGrows(fs: seq<Frame>, n: nat, k: LedgerKey)
    requires n <= |fs| && Newest(fs[..n], k).Some?
    ensures Newest(fs, k) == Newest(fs[..n], k)
    decreases |fs|
  {
    if n < |fs| {
      var front := fs[..|fs| - 1];
      assert front[..n] == fs[..n];
      NewestGrows(front, n, k);
    } else {
      assert fs[..n] == fs;
    }
  }

  /** The entries a scan has to resolve: those it keeps and that no earlier round decided. */
  ghost predicate Resolvable(resolve: Resolver, fs: seq<Frame>, f: Inputs, st: State) {
    forall k, e :: k !in st.seen && Keep(f, k) && InLedger(fs, k, e) ==> ReferenceOf(resolve, e).Ok?
  }

  /** A scan succeeds exactly when every frame is readable and every reference it meets resolves. */
  lemma {:induction false} ScanOkExactly(resolve: Resolver, f: Inputs, st: State, fs: seq<Frame>)
    ensures Scan(resolve, f, st, fs).Ok? <==> AllReadable(fs) && Resolvable(resolve, fs, f, st)
  {
    if fs != [] {
      var front, x := fs[..|fs| - 1], fs[|fs| - 1];
      ScanOkExactly(resolve, f, st, front);
      assert fs == front + [x];
      if Scan(resolve, f, st, front).Err? {
        if AllReadable(front) {
          var k, e :| k !in st.seen && Keep(f, k) && InLedger(front, k, e) && ReferenceOf(resolve, e).Err?;
          NewestGrows(fs, |front|, k);
          assert InLedger(fs, k, e);
        }
        assert AllReadable(fs) ==> AllReadable(front);
      } else {
        ScanSpec(resolve, f, st, front);
        StepOkExactly(resolve, f, st, fs, Scan(resolve, f, st, front).value);
        assert AllReadable(fs) <==> x.Entry?;
      }
    }
  }

  lemma {:induction false} StepOkExactly(resolve: Resolver, f: Inputs, st: State, fs: seq<Frame>, st1: State)
    requires fs != [] && Scanned(fs[..|fs| - 1], f, st, st1) && Resolvable(resolve, fs[..|fs| - 1], f, st)
    ensures fs[|fs| - 1].Entry? ==> (Step(resolve, f, st1, fs[|fs| - 1]).Ok? <==> Resolvable(resolve, fs, f, st))
  {
    var front, x := fs[..|fs| - 1], fs[|fs| - 1];
    hide ReferenceOf, Note, Keep, KeyOf, Adds, MaxMeta;
    forall k ensures Newest(front, k).Some? <==> k in Keys(front) { NewestInKeys(front, k); }
    if x.Entry? && EntryIn(x).Some? {
      var e := EntryIn(x).value;
      var k := KeyOf(e);
      if k !in st1.seen && Keep(f, k) {
        assert InLedger(fs, k, e);
        assert forall k', e' :: InLedger(fs, k', e') <==> InLedger(front, k', e') || (k' == k && e' == e);
      } else {
        assert forall k', e' :: k' !in st.seen && Keep(f, k') ==> (InLedger(fs, k', e') <==> InLedger(front, k', e'));
      }
    } else {
      assert forall k', e' :: InLedger(fs, k', e') <==> InLedger(front, k', e');
    }
  }

  /** What the round notes for the next one: exactly the references of the entries it saved. */
  ghost predicate Noted(resolve: Resolver, f: Inputs, st: State, st': State) {
    && st'.next.contracts == st.next.contracts
    && (forall a :: a in st'.next.accounts <==>
          a in st.next.accounts || exists s :: Adds(st, st', s) && ReferenceOf(resolve, s.entry) == Ok(NamesIssuer(a)))
    && (forall h :: h in st'.next.wasms <==>
          h in st.next.wasms ||
          (h !in f.wasms && exists s :: Adds(st, st', s) && ReferenceOf(resolve, s.entry) == Ok(NamesWasm(h))))
  }

  lemma {:induction false} ScanNotes(resolve: Resolver, f: Inputs, st: State, fs: seq<Frame>)
    requires Scan(resolve, f, st, fs).Ok?
    ensures Noted(resolve, f, st, Scan(resolve, f, st, fs).value)
  {
    if fs != [] {
      var front := fs[..|fs| - 1];
      ScanNotes(resolve, f, st, front);
      ScanSpec(resolve, f, st, front);
      StepNotes(resolve, f, st, Scan(resolve, f, st, front).value, fs[|fs| - 1]);
    }
  }

  lemma {:induction false} StepNotes(resolve: Resolver, f: Inputs, st: State, st1: State, x: Frame)
    requires Noted(resolve, f, st, st1) && |st.entries| <= |st1.entries| && Step(resolve, f, st1, x).Ok?
    ensures Noted(resolve, f, st, Step(resolve, f, st1, x).value)
  {
    hide ReferenceOf, Keep, KeyOf;
    var st2 := Step(resolve, f, st1, x).value;
    if EntryIn(x).Some? && KeyOf(EntryIn(x).value) !in st1.seen && Keep(f, KeyOf(EntryIn(x).value)) {
      AddsSnoc(st, st1, st2, Saved(KeyOf(EntryIn(x).value), EntryIn(x).value));
    } else {
      assert forall y :: Adds(st, st2, y) <==> Adds(st, st1, y);
    }
    hide Adds;
  }

  // ----- The whole search -----

  /** The merged ledger restricted to the closure of the filters, each key once. */
  ghost predicate IsSnapshot(resolve: Resolver, fs: seq<Frame>, f: Inputs, entries: seq<Saved>) {
    && (forall s :: s in entries <==> InLedger(fs, s.key, s.entry) && Keep(Closure(resolve, fs, f), s.key))
    && (forall i, j :: 0 <= i < j < |entries| ==> entries[i].key != entries[j].key)
    && (forall i :: 0 <= i < |entries| ==> entries[i].key == KeyOf(entries[i].entry))
  }

  /** After one round the next filters are what the closure adds to the given ones. */
  lemma {:induction false} FirstRound(resolve: Resolver, fs: seq<Frame>, f: Inputs, st: State)
    requires Scan(resolve, f, START, fs) == Ok(st)
    ensures st.next.contracts == {}
    ensures forall k :: Keep(Closure(resolve, fs, f), k) <==> Keep(f, k) || Keep(st.next, k)
  {
    ScanSpec(resolve, f, START, fs);
    ScanNotes(resolve, f, START, fs);
    var c := Closure(resolve, fs, f);
    forall a ensures a in c.accounts <==> a in f.accounts || a in st.next.accounts {
      ReferredIffAdded(resolve, fs, f, st, NamesIssuer(a));
      assert NamesIssuer(a) in References(resolve, fs, f) ==> a in c.accounts;
    }
    forall h ensures h in c.wasms <==> h in f.wasms || h in st.next.wasms {
      ReferredIffAdded(resolve, fs, f, st, NamesWasm(h));
      assert NamesWasm(h) in References(resolve, fs, f) ==> h in c.wasms;
    }
    hide Closure, Noted, Scanned;
  }

  lemma {:induction false} ReferredIffAdded(resolve: Resolver, fs: seq<Frame>, f: Inputs, st: State, r: Reference)
    requires Scanned(fs, f, START, st)
    ensures r in References(resolve, fs, f) <==> exists s :: Adds(START, st, s) && ReferenceOf(resolve, s.entry) == Ok(r)
  {
    hide ReferenceOf, Keep, KeyOf, MaxMeta, Keys, Newest, Adds;
    if r in References(resolve, fs, f) {
      var k :| k in Keys(fs) && Keep(f, k) && Newest(fs, k).Some? && Newest(fs, k).value.Some?
            && ReferenceOf(resolve, Newest(fs, k).value.value) == Ok(r);
      assert Adds(START, st, Saved(k, Newest(fs, k).value.value));
    }
    if s :| Adds(START, st, s) && ReferenceOf(resolve, s.entry) == Ok(r) {
      assert InLedger(fs, s.key, s.entry);
      NewestInKeys(fs, s.key);
    }
  }

  lemma {:induction false} ReferencesOfFirst(resolve: Resolver, e: LedgerEntry)
    ensures !KeyOf(e).ContractDataKey? ==> ReferenceOf(resolve, e) == Ok(Nothing)
  {
  }

  /** A round without contract filters cannot fail on a readable archive and asks for nothing more. */
  lemma {:induction false} SecondRound(resolve: Resolver, fs: seq<Frame>, f: Inputs, st: State)
    requires f.contracts == {} && AllReadable(fs) && st.next == NONE
    ensures Scan(resolve, f, st, fs).Ok? && Scan(resolve, f, st, fs).value.next == NONE
  {
    forall k, e | k !in st.seen && Keep(f, k) && InLedger(fs, k, e) ensures ReferenceOf(resolve, e) == Ok(Nothing) {
      NewestInKeys(fs, k);
      ReferencesOfFirst(resolve, e);
    }
    ScanOkExactly(resolve, f, st, fs);
    ScanNotes(resolve, f, st, fs);
    ScanSpec(resolve, f, st, fs);
    var st' := Scan(resolve, f, st, fs).value;
    hide ReferenceOf, Keep, KeyOf, Scan, MaxMeta, Newest;
    assert forall s :: Adds(st, st', s) ==> ReferenceOf(resolve, s.entry) == Ok(Nothing);
    hide Adds;
    assert st'.next.accounts == {} && st'.next.wasms == {};
  }

  lemma {:induction false} FirstRoundSuffices(resolve: Resolver, fs: seq<Frame>, f: Inputs, st: State)
    requires Scan(resolve, f, START, fs) == Ok(st) && st.next.IsEmpty()
    ensures IsSnapshot(resolve, fs, f, st.entries)
  {
    FirstRound(resolve, fs, f, st);
    ScanSpec(resolve, f, START, fs);
    hide Closure, ReferenceOf, Scan, MaxMeta;
    forall s ensures s in st.entries <==> Adds(START, st, s) { }
    forall k ensures !Keep(st.next, k) { }
    hide Keep;
    forall i | 0 <= i < |st.entries| ensures st.entries[i].key == KeyOf(st.entries[i].entry) {
      assert Adds(START, st, st.entries[i]);
      NewestInKeys(fs, st.entries[i].key);
    }
    hide Adds;
  }

  /** Two rounds find the merged ledger restricted to the closure. */
  lemma {:induction false} TwoRoundsSuffice(resolve: Resolver, fs: seq<Frame>, f: Inputs, st: State, st': State)
    requires Scan(resolve, f, START, fs) == Ok(st)
    requires Scan(resolve, st.next, st.(next := NONE), fs) == Ok(st')
    ensures IsSnapshot(resolve, fs, f, st'.entries)
    ensures st'.version == MaxMeta(fs)
  {
    hide Closure, ReferenceOf, Scan, MaxMeta, Keep, KeyOf, Newest, Keys;
    FirstRound(resolve, fs, f, st);
    ScanSpec(resolve, f, START, fs);
    ScanSpec(resolve, st.next, st.(next := NONE), fs);
    var mid := st.(next := NONE);
    TwoParts(st, st');
    forall s: Saved | InLedger(fs, s.key, s.entry) ensures s.key in Keys(fs) && s.key == KeyOf(s.entry) { NewestInKeys(fs, s.key); }
    TwoPartsDistinct(fs, f, st, st');
    hide Adds, InLedger;
    forall s ensures s in st'.entries <==> InLedger(fs, s.key, s.entry) && Keep(Closure(resolve, fs, f), s.key) {
      assert s in st'.entries <==> Adds(START, st, s) || Adds(mid, st', s);
    }
    hide Scanned;
    forall i | 0 <= i < |st'.entries| ensures st'.entries[i].key == KeyOf(st'.entries[i].entry) {
      assert st'.entries[i] in st'.entries;
    }
  }

  /** What is saved in the end is what the first round added and what the second did. */
  lemma {:induction false} TwoParts(st: State, st': State)
    requires |st.entries| <= |st'.entries| && st'.entries[..|st.entries|] == st.entries
    ensures forall s :: s in st'.entries <==> Adds(START, st, s) || Adds(st.(next := NONE), st', s)
  {
    forall s ensures s in st'.entries <==> Adds(START, st, s) || Adds(st.(next := NONE), st', s) {
      if i :| 0 <= i < |st'.entries| && st'.entries[i] == s {
        if i < |st.entries| { assert st.entries[i] == s; }
      }
      if Adds(START, st, s) {
        var i :| 0 <= i < |st.entries| && st.entries[i] == s;
        assert st'.entries[i] == s;
      }
    }
  }

  lemma {:induction false} TwoPartsDistinct(fs: seq<Frame>, f: Inputs, st: State, st': State)
    requires Scanned(fs, f, START, st) && Scanned(fs, st.next, st.(next := NONE), st')
    requires forall s: Saved :: InLedger(fs, s.key, s.entry) ==> s.key in Keys(fs)
    ensures forall i, j :: 0 <= i < j < |st'.entries| ==> st'.entries[i].key != st'.entries[j].key
  {
    hide Keep, KeyOf, MaxMeta, InLedger, Keys;
    var mid := st.(next := NONE);
    forall i, j | 0 <= i < j < |st'.entries| ensures st'.entries[i].key != st'.entries[j].key {
      if j < |st.entries| {
        assert st'.entries[i] == st.entries[i] && st'.entries[j] == st.entries[j];
      } else if i < |st.entries| {
        assert st'.entries[i] == st.entries[i];
        assert Adds(START, st, st.entries[i]) && Adds(mid, st', st'.entries[j]);
      }
    }
  }

  /** Contents of the buckets, one after the other. */
  function Contents(open: Text -> seq<Frame>, buckets: seq<Text>): seq<Frame> {
    if buckets == [] then []
    else Contents(open, buckets[..|buckets| - 1]) + open(buckets[|buckets| - 1])
  }

  /** All frames of the archive in the order they are read. */
  function Stream(open: Text -> seq<Frame>, levels: seq<Level>): seq<Frame> {
    Contents(open, Buckets(levels))
  }

  lemma {:induction false} ContentsPrefix(open: Text -> seq<Frame>, buckets: seq<Text>, b: nat, i: nat)
    requires b < |buckets| && i <= |open(buckets[b])|
    ensures Contents(open, buckets[..b]) + open(buckets[b])[..i] <= Contents(open, buckets)
    decreases |buckets|
  {
    var front := buckets[..|buckets| - 1];
    if b == |buckets| - 1 {
      assert front == buckets[..b];
    } else {
      ContentsPrefix(open, front, b, i);
      assert front[..b] == buckets[..b];
    }
  }

  lemma {:induction false} PrefixFails(resolve: Resolver, f: Inputs, st: State, fs: seq<Frame>, prefix: seq<Frame>)
    requires prefix <= fs && Scan(resolve, f, st, prefix).Err?
    ensures Scan(resolve, f, st, fs).Err?
  {
    hide Step;
    if |prefix| < |fs| {
      PrefixFails(resolve, f, st, fs[..|fs| - 1], prefix);
    } else {
      assert prefix == fs;
    }
  }

  lemma {:induction false} ScanSnoc(resolve: Resolver, f: Inputs, st: State, fs: seq<Frame>, x: Frame)
    requires Scan(resolve, f, st, fs).Ok?
    ensures Scan(resolve, f, st, fs + [x]) == Step(resolve, f, Scan(resolve, f, st, fs).value, x)
  {
    hide Step;
    assert (fs + [x])[..|fs|] == fs;
  }

  /** Where the search stands before a round: nothing read yet, or one round done. */
  ghost predicate Standing(resolve: Resolver, fs: seq<Frame>, inputs: Inputs, rounds: nat, current: Inputs, st: State) {
    && st.next == NONE
    && (rounds == 0 ==> current == inputs && st == START)
    && (rounds == 1 ==> Scan(resolve, inputs, START, fs) == Ok(st.(next := current)))
    && (rounds >= 2 ==> current == NONE && IsSnapshot(resolve, fs, inputs, st.entries) && st.version == MaxMeta(fs))
    && (rounds >= 1 ==> !inputs.IsEmpty() && current.contracts == {} && AllReadable(fs) && AllResolve(resolve, fs, inputs))
    && rounds <= 2
  }

  lemma {:induction false} RoundDone(resolve: Resolver, fs: seq<Frame>, inputs: Inputs, rounds: nat, current: Inputs, st: State, st': State)
    requires Standing(resolve, fs, inputs, rounds, current, st) && !current.IsEmpty()
    requires Scan(resolve, current, st, fs) == Ok(st')
    ensures Standing(resolve, fs, inputs, rounds + 1, st'.next, st'.(next := NONE))
  {
    hide Scan, IsSnapshot, MaxMeta;
    if rounds == 0 {
      ScanOkExactly(resolve, inputs, START, fs);
      FirstRound(resolve, fs, inputs, st');
      assert st'.(next := NONE).(next := st'.next) == st';
      assert AllResolve(resolve, fs, inputs);
    } else {
      SecondRound(resolve, fs, current, st);
      TwoRoundsSuffice(resolve, fs, inputs, st.(next := current), st');
    }
  }

  lemma {:induction false} RoundFails(resolve: Resolver, fs: seq<Frame>, inputs: Inputs, rounds: nat, current: Inputs, st: State)
    requires Standing(resolve, fs, inputs, rounds, current, st) && !current.IsEmpty()
    requires Scan(resolve, current, st, fs).Err?
    ensures !inputs.IsEmpty() && !(AllReadable(fs) && AllResolve(resolve, fs, inputs))
  {
    if rounds == 0 {
      ScanOkExactly(resolve, inputs, START, fs);
    } else {
      hide Scan;
      SecondRound(resolve, fs, current, st);
    }
  }

  lemma {:induction false} SearchDone(resolve: Resolver, fs: seq<Frame>, inputs: Inputs, rounds: nat, current: Inputs, st: State)
    requires Standing(resolve, fs, inputs, rounds, current, st) && current.IsEmpty()
    ensures IsSnapshot(resolve, fs, inputs, st.entries)
    ensures inputs.IsEmpty() || (AllReadable(fs) && AllResolve(resolve, fs, inputs))
    ensures st.version == (if inputs.IsEmpty() then 0 else MaxMeta(fs))
  {
    if rounds == 0 {
      EmptyFilters(resolve, fs, inputs);
    } else if rounds == 1 {
      FirstRoundSuffices(resolve, fs, inputs, st.(next := current));
      ScanSpec(resolve, inputs, START, fs);
    }
  }

  lemma {:induction false} EmptyFilters(resolve: Resolver, fs: seq<Frame>, inputs: Inputs)
    requires inputs.IsEmpty()
    ensures IsSnapshot(resolve, fs, inputs, [])
  {
    assert forall k :: !Keep(inputs, k);
    assert References(resolve, fs, inputs) == {};
    assert Closure(resolve, fs, inputs) == inputs;
    hide Keep, Newest;
  }

  /**
   The search of `Cmd::run`. It succeeds exactly when there is nothing to look for, or every frame is
   readable and every instance of a given contract resolves; it then saves exactly the merged ledger
   restricted to the closure of the filters, in at most two rounds.
   */
  method Search(open: Text -> seq<Frame>, levels: seq<Level>, inputs: Inputs, resolve: Resolver)
    returns (r: Res<LedgerSnapshot>, rounds: nat)
    ensures rounds <= 2
    ensures var fs := Stream(open, levels);
            r.Ok? <==> inputs.IsEmpty() || (AllReadable(fs) && AllResolve(resolve, fs, inputs))
    ensures r.Ok? ==> IsSnapshot(resolve, Stream(open, levels), inputs, r.value.entries)
    ensures r.Ok? ==> r.value.version == (if inputs.IsEmpty() then 0 else MaxMeta(Stream(open, levels)))
  {
    hide Scan, IsSnapshot, MaxMeta, AllResolve, AllReadable, Contents, Keep, KeyOf, ReferenceOf;
    var buckets := Buckets(levels);
    ghost var fs := Contents(open, buckets);
    var seen: set<LedgerKey>, entries: seq<Saved>, version: u32 := {}, [], 0;
    var current, next := inputs, NONE;
    rounds := 0;
    while !current.IsEmpty()
      invariant next == NONE
      invariant Standing(resolve, fs, inputs, rounds, current, State(seen, NONE, entries, version))
      decreases 2 - rounds
    {
      ghost var st0 := State(seen, next, entries, version);
      ghost var done: seq<Frame> := [];
      EmptyScan(open, resolve, current, st0);
      assert buckets[..0] == [];
      for b := 0 to |buckets|
        invariant done == Contents(open, buckets[..b])
        invariant Scan(resolve, current, st0, done) == Ok(State(seen, next, entries, version))
      {
        var frames := open(buckets[b]);
        ghost var before := done;
        for i := 0 to |frames|
          invariant done == before + frames[..i]
          invariant Scan(resolve, current, st0, done) == Ok(State(seen, next, entries, version))
        {
          var frame := frames[i];
          ScanSnoc(resolve, current, st0, done, frame);
          assert before + frames[..i + 1] == done + [frame];
          done := done + [frame];
          if frame.Corrupt? {
            ContentsPrefix(open, buckets, b, i + 1);
            PrefixFails(resolve, current, st0, fs, done);
            RoundFails(resolve, fs, inputs, rounds, current, st0);
            return Err(CorruptBucket), rounds;
          }
          var key: LedgerKey, val: Option<LedgerEntry>;
          match frame.entry {
            case Live(e) => key, val := KeyOf(e), Some(e);
            case Init(e) => key, val := KeyOf(e), Some(e);
            case Dead(k) => key, val := k, None;
            case Meta(v) =>
              if v > version {
                version := v;
              }
              continue;
          }
          if key in seen {
            continue;
          }
          var keep := Keep(current, key);
          if !keep {
            continue;
          }
          seen := seen + {key};
          if val.None? {
            continue;
          }
          var reference := ReferenceOf(resolve, val.value);
          if reference.Err? {
            ContentsPrefix(open, buckets, b, i + 1);
            PrefixFails(resolve, current, st0, fs, done);
            RoundFails(resolve, fs, inputs, rounds, current, st0);
            return Err(reference.error), rounds;
          }
          if reference.value.NamesWasm? && reference.value.hash !in current.wasms {
            next := next.(wasms := next.wasms + {reference.value.hash});
          } else if reference.value.NamesIssuer? {
            next := next.(accounts := next.accounts + {reference.value.account});
          }
          entries := entries + [Saved(key, val.value)];
        }
        assert frames[..|frames|] == frames;
        ContentsSnoc(open, buckets, b);
      }
      assert buckets[..|buckets|] == buckets;
      RoundDone(resolve, fs, inputs, rounds, current, st0, State(seen, next, entries, version));
      current, next := next, NONE;
      rounds := rounds + 1;
    }
    SearchDone(resolve, fs, inputs, rounds, current, State(seen, NONE, entries, version));
    r := Ok(LedgerSnapshot(version, entries));
  }

  lemma {:induction false} EmptyScan(open: Text -> seq<Frame>, resolve: Resolver, f: Inputs, st: State)
    ensures Contents(open, []) == [] && Scan(resolve, f, st, []) == Ok(st)
  {
  }

  lemma {:induction false} ContentsSnoc(open: Text -> seq<Frame>, buckets: seq<Text>, b: nat)
    requires b < |buckets|
    ensures Contents(open, buckets[..b + 1]) == Contents(open, buckets[..b]) + open(buckets[b])
  {
    assert buckets[..b + 1][..b] == buckets[..b];
  }

  /** One scan with the whole closure known in advance saves the same entries as the search does. */
  lemma {:induction false} OneScanSuffices(resolve: Resolver, fs: seq<Frame>, inputs: Inputs, entries: seq<Saved>)
    requires AllReadable(fs) && AllResolve(resolve, fs, inputs) && IsSnapshot(resolve, fs, inputs, entries)
    ensures var once := Scan(resolve, Closure(resolve, fs, inputs), START, fs);
            once.Ok? && forall s :: s in once.value.entries <==> s in entries
  {
    var c := Closure(resolve, fs, inputs);
    forall k, e | Keep(c, k) && InLedger(fs, k, e) ensures ReferenceOf(resolve, e).Ok? {
      NewestInKeys(fs, k);
      if !k.ContractDataKey? { ReferencesOfFirst(resolve, e); }
    }
    ScanOkExactly(resolve, c, START, fs);
    ScanSpec(resolve, c, START, fs);
    hide Scan, Closure, ReferenceOf, Keep, KeyOf, Newest, MaxMeta;
    var st := Scan(resolve, c, START, fs).value;
    forall s ensures s in st.entries <==> Adds(START, st, s) { }
    hide Adds;
  }
}
