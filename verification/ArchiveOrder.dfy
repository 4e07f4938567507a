/** What the snapshot search reads first, which entry of a key wins, and what is kept, entry by entry. */
module ArchiveOrder {
  import opened Wrappers
  import opened Octets
  import opened OrderedMap
  import opened ScValues
  import opened LedgerEntries
  import opened Snapshot

  // ----- The order of the buckets -----

  /** Position 2i is the `curr` of level i, position 2i+1 its `snap`. */
  function HashAt(levels: seq<Level>, p: nat): Text
    requires p < 2 * |levels|
  {
    if p % 2 == 0 then levels[p / 2].curr else levels[p / 2].snap
  }

  predicate AllZeros(hash: Text) { |hash| == 64 && forall i :: 0 <= i < 64 ==> hash[i] == 48 }

  /** Positions in ascending order that leave out exactly those of an all-zero hash. */
  ghost predicate NonEmptyPositions(levels: seq<Level>, at: seq<nat>) {
    && (forall i, j :: 0 <= i < j < |at| ==> at[i] < at[j])
    && (forall i :: 0 <= i < |at| ==> at[i] < 2 * |levels| && !AllZeros(HashAt(levels, at[i])))
    && (forall p :: 0 <= p < 2 * |levels| && !AllZeros(HashAt(levels, p)) ==> p in at)
  }

  lemma {:induction false} EmptyIsZeros(hash: Text)
    ensures hash == EmptyBucket() <==> AllZeros(hash)
  {
    assert AllZeros(EmptyBucket());
    if AllZeros(hash) { assert hash == EmptyBucket(); }
  }

  /** The buckets read are the non-empty hashes, level by level, `curr` before `snap`. */
  lemma {:induction false} BucketsInOrder(levels: seq<Level>) returns (at: seq<nat>)
    ensures NonEmptyPositions(levels, at)
    ensures |Buckets(levels)| == |at| && forall i :: 0 <= i < |at| ==> Buckets(levels)[i] == HashAt(levels, at[i])
  {
    if levels == [] {
      at := [];
    } else {
      var rest := BucketsInOrder(levels[1..]);
      EmptyIsZeros(levels[0].curr);
      EmptyIsZeros(levels[0].snap);
      var first: seq<nat> := (if AllZeros(levels[0].curr) then [] else [0]) + (if AllZeros(levels[0].snap) then [] else [1]);
      var shifted: seq<nat> := seq(|rest|, i requires 0 <= i < |rest| => rest[i] + 2);
      at := first + shifted;
      LevelShifted(levels, rest, first, shifted);
      FirstLevel(levels, first);
      hide NonEmptyPositions, AllZeros, Buckets, HashAt, EmptyBucket;
      ListedShifted(levels, rest, first, shifted);
    }
  }

  lemma {:induction false} FirstLevel(levels: seq<Level>, first: seq<nat>)
    requires levels != []
    requires first == (if AllZeros(levels[0].curr) then [] else [0]) + (if AllZeros(levels[0].snap) then [] else [1])
    ensures |Buckets(levels)| == |first| + |Buckets(levels[1..])| && Buckets(levels)[|first|..] == Buckets(levels[1..])
    ensures forall i :: 0 <= i < |first| ==> first[i] < 2 && Buckets(levels)[i] == HashAt(levels, first[i])
  {
    EmptyIsZeros(levels[0].curr);
    EmptyIsZeros(levels[0].snap);
    hide AllZeros, EmptyBucket;
  }

  lemma {:induction false} ListedShifted(levels: seq<Level>, rest: seq<nat>, first: seq<nat>, shifted: seq<nat>)
    requires levels != [] && |Buckets(levels[1..])| == |rest| == |shifted| && |Buckets(levels)| == |first| + |rest|
    requires forall i :: 0 <= i < |rest| ==> rest[i] < 2 * |levels[1..]| && Buckets(levels[1..])[i] == HashAt(levels[1..], rest[i])
    requires forall i :: 0 <= i < |rest| ==> shifted[i] == rest[i] + 2
    requires Buckets(levels)[|first|..] == Buckets(levels[1..])
    requires forall i :: 0 <= i < |first| ==> first[i] < 2 && Buckets(levels)[i] == HashAt(levels, first[i])
    ensures forall i :: 0 <= i < |first + shifted| ==>
      (first + shifted)[i] < 2 * |levels| && Buckets(levels)[i] == HashAt(levels, (first + shifted)[i])
  {
    hide Buckets, HashAt;
    var at := first + shifted;
    forall i | 0 <= i < |at| ensures at[i] < 2 * |levels| && Buckets(levels)[i] == HashAt(levels, at[i]) {
      if i >= |first| {
        var j := i - |first|;
        assert at[i] == rest[j] + 2 && Buckets(levels)[|first|..][j] == Buckets(levels)[i];
        HashShifted(levels, rest[j]);
      }
    }
  }

  lemma {:induction false} LevelShifted(levels: seq<Level>, rest: seq<nat>, first: seq<nat>, shifted: seq<nat>)
    requires levels != [] && NonEmptyPositions(levels[1..], rest)
    requires first == (if AllZeros(levels[0].curr) then [] else [0]) + (if AllZeros(levels[0].snap) then [] else [1])
    requires |shifted| == |rest| && forall i :: 0 <= i < |rest| ==> shifted[i] == rest[i] + 2
    ensures NonEmptyPositions(levels, first + shifted)
  {
    FirstLevelHashes(levels);
    var at := first + shifted;
    assert forall i :: 0 <= i < |first| ==> first[i] < 2;
    ShiftedAscends(rest, first, shifted);
    hide AllZeros, HashAt;
    forall i | 0 <= i < |at| ensures at[i] < 2 * |levels| && !AllZeros(HashAt(levels, at[i])) {
      if i >= |first| {
        var q := rest[i - |first|];
        assert at[i] == q + 2;
        HashShifted(levels, q);
      }
    }
    forall p | 0 <= p < 2 * |levels| && !AllZeros(HashAt(levels, p)) ensures p in at {
      PositionListed(levels, rest, first, shifted, p);
    }
  }

  lemma {:induction false} ShiftedAscends(rest: seq<nat>, first: seq<nat>, shifted: seq<nat>)
    requires forall i, j :: 0 <= i < j < |rest| ==> rest[i] < rest[j]
    requires (forall i, j :: 0 <= i < j < |first| ==> first[i] < first[j]) && forall i :: 0 <= i < |first| ==> first[i] < 2
    requires |shifted| == |rest| && forall i :: 0 <= i < |rest| ==> shifted[i] == rest[i] + 2
    ensures forall i, j :: 0 <= i < j < |first + shifted| ==> (first + shifted)[i] < (first + shifted)[j]
  {
    var at := first + shifted;
    forall i, j | 0 <= i < j < |at| ensures at[i] < at[j] {
      if i >= |first| {
        assert rest[i - |first|] < rest[j - |first|];
      } else if j < |first| {
        assert first[i] < first[j];
      }
    }
  }

  lemma {:induction false} PositionListed(levels: seq<Level>, rest: seq<nat>, first: seq<nat>, shifted: seq<nat>, p: nat)
    requires levels != [] && p < 2 * |levels| && !AllZeros(HashAt(levels, p))
    requires forall q :: 0 <= q < 2 * |levels[1..]| && !AllZeros(HashAt(levels[1..], q)) ==> q in rest
    requires first == (if AllZeros(levels[0].curr) then [] else [0]) + (if AllZeros(levels[0].snap) then [] else [1])
    requires |shifted| == |rest| && forall i :: 0 <= i < |rest| ==> shifted[i] == rest[i] + 2
    ensures p in first + shifted
  {
    FirstLevelHashes(levels);
    hide AllZeros, HashAt;
    if p >= 2 {
      HashShifted(levels, p - 2);
      var i :| 0 <= i < |rest| && rest[i] == p - 2;
      assert (first + shifted)[|first| + i] == p;
    } else {
      assert p in first;
    }
  }

  lemma {:induction false} HashShifted(levels: seq<Level>, q: nat)
    requires levels != [] && q < 2 * |levels[1..]|
    ensures HashAt(levels, q + 2) == HashAt(levels[1..], q)
  {
    assert (q + 2) / 2 == q / 2 + 1 && (q + 2) % 2 == q % 2;
  }

  lemma {:induction false} FirstLevelHashes(levels: seq<Level>)
    requires levels != []
    ensures HashAt(levels, 0) == levels[0].curr && HashAt(levels, 1) == levels[0].snap
  {
  }

  // ----- Which record of a key wins -----

  /** No frame mentions the key. */
  ghost predicate Silent(fs: seq<Frame>, k: LedgerKey) { forall i :: 0 <= i < |fs| ==> !Mentions(fs[i], k) }

  /** Frame `m` is the first to mention the key. */
  ghost predicate FirstMention(fs: seq<Frame>, k: LedgerKey, m: nat) {
    m < |fs| && Mentions(fs[m], k) && Silent(fs[..m], k)
  }

  lemma {:induction false} NewestIsFirst(fs: seq<Frame>, k: LedgerKey, m: nat)
    ensures Silent(fs, k) ==> Newest(fs, k) == None
    ensures FirstMention(fs, k, m) ==> Newest(fs, k) == Some(EntryIn(fs[m]))
  {
    hide Mentions, EntryIn;
    if fs != [] {
      var front := fs[..|fs| - 1];
      NewestIsFirst(front, k, m);
      if FirstMention(fs, k, m) && m < |front| { assert front[..m] == fs[..m]; }
    }
  }

  lemma {:induction false} NewestAfterSilence(a: seq<Frame>, b: seq<Frame>, k: LedgerKey)
    requires Newest(a, k).None?
    ensures Newest(a + b, k) == Newest(b, k)
  {
    hide Mentions, EntryIn;
    if b == [] {
      assert a + b == a;
    } else {
      NewestAfterSilence(a, b[..|b| - 1], k);
      assert (a + b)[..|a + b| - 1] == a + b[..|b| - 1];
    }
  }

  lemma {:induction false} SilentContents(open: Text -> seq<Frame>, buckets: seq<Text>, k: LedgerKey)
    requires forall b :: 0 <= b < |buckets| ==> Silent(open(buckets[b]), k)
    ensures Newest(Contents(open, buckets), k).None?
  {
    if buckets != [] {
      var front, last := buckets[..|buckets| - 1], buckets[|buckets| - 1];
      SilentContents(open, front, k);
      NewestIsFirst(open(last), k, 0);
      hide Newest;
      NewestAfterSilence(Contents(open, front), open(last), k);
    }
  }

  lemma {:induction false} NewestInBucket(open: Text -> seq<Frame>, buckets: seq<Text>, b: nat, k: LedgerKey, m: nat)
    requires b < |buckets| && FirstMention(open(buckets[b]), k, m)
    requires forall i :: 0 <= i < b ==> Silent(open(buckets[i]), k)
    ensures Newest(Contents(open, buckets), k) == Some(EntryIn(open(buckets[b])[m]))
  {
    var frames, all := open(buckets[b]), Contents(open, buckets);
    SilentContents(open, buckets[..b], k);
    NewestIsFirst(frames, k, m);
    NewestAfterSilence(Contents(open, buckets[..b]), frames, k);
    ContentsPrefix(open, buckets, b, |frames|);
    hide Newest, Contents, FirstMention, Silent, Mentions, EntryIn;
    assert frames[..|frames|] == frames;
    var prefix := Contents(open, buckets[..b]) + frames;
    assert all[..|prefix|] == prefix;
    NewestGrows(all, |prefix|, k);
  }

  /**
   The merged ledger takes a key from the first position that mentions it: `curr` of the newest level,
   its `snap`, `curr` of the next level, and so on; within a bucket, the first frame.
   */
  lemma {:induction false} NewestByLevel(open: Text -> seq<Frame>, levels: seq<Level>, p: nat, k: LedgerKey, m: nat)
    requires p < 2 * |levels| && !AllZeros(HashAt(levels, p)) && FirstMention(open(HashAt(levels, p)), k, m)
    requires forall q :: 0 <= q < p && !AllZeros(HashAt(levels, q)) ==> Silent(open(HashAt(levels, q)), k)
    ensures Newest(Stream(open, levels), k) == Some(EntryIn(open(HashAt(levels, p))[m]))
  {
    hide Buckets, AllZeros, Newest, Contents, FirstMention, Silent, EntryIn, HashAt;
    var at := BucketsInOrder(levels);
    var b :| 0 <= b < |at| && at[b] == p;
    forall i | 0 <= i < b ensures Silent(open(Buckets(levels)[i]), k) { assert at[i] < at[b]; }
    NewestInBucket(open, Buckets(levels), b, k, m);
  }

  /** So an entry of a kept key is saved exactly as it stands there, and nothing is saved for a tombstone. */
  lemma {:induction false} SavedByLevel(
      open: Text -> seq<Frame>, levels: seq<Level>, resolve: Resolver, inputs: Inputs, entries: seq<Saved>, p: nat, k: LedgerKey, m: nat)
    requires p < 2 * |levels| && !AllZeros(HashAt(levels, p)) && FirstMention(open(HashAt(levels, p)), k, m)
    requires forall q :: 0 <= q < p && !AllZeros(HashAt(levels, q)) ==> Silent(open(HashAt(levels, q)), k)
    requires Keep(Closure(resolve, Stream(open, levels), inputs), k) && IsSnapshot(resolve, Stream(open, levels), inputs, entries)
    ensures forall e :: Saved(k, e) in entries <==> EntryIn(open(HashAt(levels, p))[m]) == Some(e)
  {
    NewestByLevel(open, levels, p, k, m);
    hide Newest, Stream, Keep, Closure, EntryIn, FirstMention, Silent, AllZeros, HashAt;
    forall e ensures Saved(k, e) in entries <==> EntryIn(open(HashAt(levels, p))[m]) == Some(e) {
      assert Saved(k, e).key == k;
    }
  }

  /** The version is the greatest of all meta records, 0 if there is none. */
  lemma {:induction false} MaxMetaIsGreatest(fs: seq<Frame>)
    ensures forall i :: 0 <= i < |fs| && fs[i].Entry? && fs[i].entry.Meta? ==> fs[i].entry.version <= MaxMeta(fs)
    ensures MaxMeta(fs) == 0 || exists i :: 0 <= i < |fs| && fs[i] == Entry(Meta(MaxMeta(fs)))
  {
    if fs != [] {
      var front := fs[..|fs| - 1];
      MaxMetaIsGreatest(front);
      if MaxMeta(fs) == MaxMeta(front) != 0 {
        var i :| 0 <= i < |front| && front[i] == Entry(Meta(MaxMeta(front)));
        assert fs[i] == Entry(Meta(MaxMeta(fs)));
      } else if MaxMeta(fs) != 0 {
        assert fs[|fs| - 1] == Entry(Meta(MaxMeta(fs)));
      }
    }
  }

  // ----- Keys and filters, in terms of the entries -----

  /** Whether two entries are records of one thing: same kind, same identity. */
  predicate SameRecord(a: LedgerData, b: LedgerData) {
    match (a, b)
    case (AccountData(_, _), AccountData(_, _)) => a.account == b.account
    case (TrustlineData(_, _, _), TrustlineData(_, _, _)) => a.account == b.account && a.asset == b.asset
    case (OfferData(_, _, _), OfferData(_, _, _)) => a.seller == b.seller && a.offerId == b.offerId
    case (NamedData(_, _, _), NamedData(_, _, _)) => a.account == b.account && a.name == b.name
    case (ClaimableBalanceData(_, _), ClaimableBalanceData(_, _)) => a.balance == b.balance
    case (LiquidityPoolData(_, _), LiquidityPoolData(_, _)) => a.pool == b.pool
    case (ContractData(_, _, _, _), ContractData(_, _, _, _)) =>
      a.contract == b.contract && a.key == b.key && a.durability == b.durability
    case (ContractCode(_, _), ContractCode(_, _)) => a.hash == b.hash
    case (ConfigSetting(_, _), ConfigSetting(_, _)) => a.id == b.id
    case (Ttl(_, _), Ttl(_, _)) => a.keyHash == b.keyHash
    case _ => false
  }

  /** Two entries share a key exactly when they are records of one thing. */
  lemma {:induction false} KeysIdentify(a: LedgerEntry, b: LedgerEntry)
    ensures KeyOf(a) == KeyOf(b) <==> SameRecord(a.data, b.data)
  {
  }

  /** Accounts and trustlines are kept by account, contract data by contract, code by hash, nothing else is. */
  lemma {:induction false} KeepsExactly(f: Inputs, e: LedgerEntry)
    ensures e.data.AccountData? || e.data.TrustlineData? ==> (Keep(f, KeyOf(e)) <==> e.data.account in f.accounts)
    ensures e.data.ContractData? ==> (Keep(f, KeyOf(e)) <==> e.data.contract in f.contracts)
    ensures e.data.ContractCode? ==> (Keep(f, KeyOf(e)) <==> e.data.hash in f.wasms)
    ensures Keep(f, KeyOf(e)) ==> e.data.AccountData? || e.data.TrustlineData? || e.data.ContractData? || e.data.ContractCode?
  {
  }

  /** Tombstones are matched by key, live and initial entries by the key they have. */
  lemma {:induction false} MentionsExactly(f: Frame, k: LedgerKey)
    ensures Mentions(f, k) <==>
      || (exists e :: (f == Entry(Live(e)) || f == Entry(Init(e))) && KeyOf(e) == k)
      || f == Entry(Dead(k))
    ensures forall e :: EntryIn(f) == Some(e) <==> f == Entry(Live(e)) || f == Entry(Init(e))
  {
  }

  ghost predicate FirstUnder(s: seq<ScMapEntry>, key: ScVal, i: nat) {
    i < |s| && s[i].key == key && forall j :: 0 <= j < i ==> s[j].key != key
  }

  lemma {:induction false} LookupIsFirst(s: seq<ScMapEntry>, key: ScVal) returns (i: nat)
    ensures i <= |s| && forall j :: 0 <= j < i ==> s[j].key != key
    ensures i == |s| ==> Lookup(s, key).None?
    ensures i < |s| ==> FirstUnder(s, key, i) && Lookup(s, key) == Some(s[i].val)
  {
    i := 0;
    if s != [] && s[0].key != key {
      var k := LookupIsFirst(s[1..], key);
      i := k + 1;
    }
  }

  /** The string under "name" in the map under "METADATA". */
  ghost predicate Names(storage: seq<ScMapEntry>, name: Text) {
    exists i: nat, j: nat ::
      && FirstUnder(storage, Symbol(Spell("METADATA")), i) && storage[i].val.Map?
      && FirstUnder(storage[i].val.entries, Symbol(Spell("name")), j) && storage[i].val.entries[j].val == String(name)
  }

  lemma {:induction false} NameKeys()
    ensures METADATA == Symbol(Spell("METADATA")) && NAME == Symbol(Spell("name"))
  {
    assert Spell("METADATA") == [77, 69, 84, 65, 68, 65, 84, 65];
    assert Spell("name") == [110, 97, 109, 101];
  }

  lemma {:induction false} AssetNameExactly(storage: seq<ScMapEntry>, name: Text)
    ensures AssetName(storage) == Some(name) <==> Names(storage, name)
  {
    NameKeys();
    hide Lookup, Spell;
    if AssetName(storage) == Some(name) {
      var i := LookupIsFirst(storage, METADATA);
      var j := LookupIsFirst(storage[i].val.entries, NAME);
      assert FirstUnder(storage, METADATA, i) && FirstUnder(storage[i].val.entries, NAME, j);
    }
    if Names(storage, name) {
      var i: nat, j: nat :| FirstUnder(storage, METADATA, i) && storage[i].val.Map?
        && FirstUnder(storage[i].val.entries, NAME, j) && storage[i].val.entries[j].val == String(name);
      FirstIsFound(storage, METADATA, i);
      FirstIsFound(storage[i].val.entries, NAME, j);
    }
  }

  lemma {:induction false} FirstIsFound(s: seq<ScMapEntry>, key: ScVal, j: nat)
    requires FirstUnder(s, key, j)
    ensures Lookup(s, key) == Some(s[j].val)
  {
    hide Lookup;
    var i := LookupIsFirst(s, key);
    OnlyFirst(s, key, i, j);
  }

  lemma {:induction false} OnlyFirst(s: seq<ScMapEntry>, key: ScVal, i: nat, j: nat)
    requires FirstUnder(s, key, j) && (i < |s| ==> FirstUnder(s, key, i)) && i <= |s| && forall m :: 0 <= m < i ==> s[m].key != key
    ensures i == j
  {
  }

  /** An entry that holds the instance of a contract. */
  predicate HoldsInstance(e: LedgerEntry) {
    e.data.ContractData? && e.data.key == LedgerKeyContractInstance && e.data.val.Instance?
  }

  /**
   An instance names the wasm it runs, or the issuer that the asset name in its storage resolves to;
   resolving that name is all that can fail.
   */
  lemma {:induction false} ReferenceExactly(resolve: Resolver, e: LedgerEntry, hash: Hash, issuer: AccountId)
    ensures ReferenceOf(resolve, e) == Ok(NamesWasm(hash)) <==> HoldsInstance(e) && e.data.val.executable == Wasm(hash)
    ensures ReferenceOf(resolve, e) == Ok(NamesIssuer(issuer)) <==>
      && HoldsInstance(e) && e.data.val.executable == StellarAsset && e.data.val.storage.Some?
      && exists name :: Names(e.data.val.storage.value, name) && resolve(name) == Ok(Some(issuer))
    ensures ReferenceOf(resolve, e).Err? <==>
      && HoldsInstance(e) && e.data.val.executable == StellarAsset && e.data.val.storage.Some?
      && exists name :: Names(e.data.val.storage.value, name) && resolve(name).Err?
  {
    hide AssetName, Names;
    if HoldsInstance(e) && e.data.val.storage.Some? {
      var storage := e.data.val.storage.value;
      forall name ensures AssetName(storage) == Some(name) <==> Names(storage, name) { AssetNameExactly(storage, name); }
    }
  }
}
