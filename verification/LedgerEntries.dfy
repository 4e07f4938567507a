/** Ledger entries, their keys, and the buckets of a history archive. */
module LedgerEntries {
  import opened Wrappers
  import opened Octets
  import opened OrderedMap
  import opened ScValues

  datatype AccountId = AccountId(key: Bytes32)
  datatype Hash = Hash(bytes: Bytes32)

  datatype Durability = Temporary | Persistent

  datatype ConfigSettingId =
    | ContractMaxSizeBytes | ContractComputeV0 | ContractLedgerCostV0 | ContractHistoricalDataV0
    | ContractEventsV0 | ContractBandwidthV0 | ContractCostParamsCpuInstructions
    | ContractCostParamsMemoryBytes | ContractDataKeySizeBytes | ContractDataEntrySizeBytes
    | StateArchival | ContractExecutionLanes | BucketlistSizeWindow | EvictionIterator

  datatype Executable = Wasm(hash: Hash) | StellarAsset

  datatype DataValue = Instance(executable: Executable, storage: Option<seq<ScMapEntry>>) | OtherValue(xdr: Opaque)

  datatype LedgerKey =
    | AccountKey(account: AccountId)
    | TrustlineKey(account: AccountId, asset: Opaque)
    | OfferKey(seller: AccountId, offerId: i64)
    | DataKey(account: AccountId, name: Text)
    | ClaimableBalanceKey(balance: Hash)
    | LiquidityPoolKey(pool: Hash)
    | ContractDataKey(contract: ScAddress, key: ScVal, durability: Durability)
    | ContractCodeKey(hash: Hash)
    | ConfigSettingKey(id: ConfigSettingId)
    | TtlKey(keyHash: Hash)

  datatype LedgerData =
    | AccountData(account: AccountId, rest: Opaque)
    | TrustlineData(account: AccountId, asset: Opaque, rest: Opaque)
    | OfferData(seller: AccountId, offerId: i64, rest: Opaque)
    | NamedData(account: AccountId, name: Text, rest: Opaque)
    | ClaimableBalanceData(balance: Hash, rest: Opaque)
    | LiquidityPoolData(pool: Hash, rest: Opaque)
    | ContractData(contract: ScAddress, key: ScVal, durability: Durability, val: DataValue)
    | ContractCode(hash: Hash, code: Opaque)
    | ConfigSetting(id: ConfigSettingId, rest: Opaque)
    | Ttl(keyHash: Hash, liveUntil: u32)

  datatype LedgerEntry = LedgerEntry(lastModified: u32, data: LedgerData)

  /** `data_into_key`. */
  function KeyOf(e: LedgerEntry): LedgerKey {
    match e.data
    case AccountData(account, _) => AccountKey(account)
    case TrustlineData(account, asset, _) => TrustlineKey(account, asset)
    case OfferData(seller, id, _) => OfferKey(seller, id)
    case NamedData(account, name, _) => DataKey(account, name)
    case ClaimableBalanceData(balance, _) => ClaimableBalanceKey(balance)
    case LiquidityPoolData(pool, _) => LiquidityPoolKey(pool)
    case ContractData(contract, key, durability, _) => ContractDataKey(contract, key, durability)
    case ContractCode(hash, _) => ContractCodeKey(hash)
    case ConfigSetting(id, _) => ConfigSettingKey(id)
    case Ttl(keyHash, _) => TtlKey(keyHash)
  }

  datatype BucketEntry =
    | Live(entry: LedgerEntry)
    | Init(entry: LedgerEntry)
    | Dead(key: LedgerKey)
    | Meta(version: u32)

  /** A frame of a bucket file, or the place where it cannot be read. */
  datatype Frame = Entry(entry: BucketEntry) | Corrupt

  /** A level of the bucket list names two bucket files by hash. */
  datatype Level = Level(curr: Text, snap: Text)

  /** The 64 zeros that stand for an empty bucket. */
  function EmptyBucket(): Text { seq(64, _ => 48) }

  /** The buckets to read, by level, `curr` before `snap`, without the empty ones. */
  function Buckets(levels: seq<Level>): seq<Text> {
    if levels == [] then []
    else
      (if levels[0].curr == EmptyBucket() then [] else [levels[0].curr])
      + (if levels[0].snap == EmptyBucket() then [] else [levels[0].snap])
      + Buckets(levels[1..])
  }

  const METADATA: ScVal := Symbol([77, 69, 84, 65, 68, 65, 84, 65])
  const NAME: ScVal := Symbol([110, 97, 109, 101])

  /** `get_name_from_stellar_asset_contract_storage`. */
  function AssetName(storage: seq<ScMapEntry>): Option<Text> {
    var metadata: Option<ScVal> := Lookup(storage, METADATA);
    if metadata.None? || !metadata.value.Map? then None
    else
      var name: Option<ScVal> := Lookup(metadata.value.entries, NAME);
      if name.Some? && name.value.String? then Some(name.value.str) else None
  }
}
