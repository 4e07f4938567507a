# Stellar CLI: a verified model

This project models the parts of the Stellar CLI whose correctness is hardest to see, and proves what
they promise:

- the schema-directed codec of `soroban-spec-tools`, which turns JSON and command-line text into contract
  values under a contract's specification and prints them back (`Codec`, `Typing`, `RoundTrip`, `Limits`,
  `Arguments`, `Agreement`, `Canonical`, `Printing`, over `ScValues`, `ValueOrder`, `Json`, `SpecTypes`,
  `OrderedMap`, `Words`, `Decimal`, `Hex`, `Unicode`);
- the search of `snapshot create` over the buckets of a history archive (`LedgerEntries`, `Snapshot`,
  `ArchiveOrder`);
- the transaction pipeline: adding operations, assembling a simulation, signing authorization entries and
  envelopes, and whole runs of these (`Transactions`, `Signing`, `Pipeline`);
- the APDU protocol with a Ledger device (`LedgerDevice`);
- specification extraction, metadata sections and the specification cache (`XdrStream`, `ContractSpec`,
  `SpecCache`);
- total order ids, SEP-35 (`Toids`).

Text is the sequence of its UTF-8 bytes, so lengths and orders are those of Rust's `str`. JSON objects
are the strictly ascending lists of members that `serde_json`'s map iterates over. A panic (`todo!`,
`unwrap`) is the error `Panic`. Code that updates variables step by step is a method proved against a
function; the parser and the typed printer are functions.

Parsing is accepted as a terminating function for every specification, recursive user-defined types
included: the measure is the height of the JSON value, where member names count with their length because
`parse_map` parses them again, then the nesting of options, then `from_string` above `from_json`
(`Codec.FromString`, `Codec.FromJson`). No fuel is involved.

Foreign functions are parameters with stated laws: strkeys and JSON text (`Codec.Platform.Lawful`, shown
satisfiable by `Consistency.LawsAreConsistent`), ed25519 and hashing (`Signing.Crypto.Lawful`),
collision-free wasm hashes (`SpecCache.Chain.Honest`), wasm section framing
(`ContractSpec.Tools.WritesSections`) and a self-delimiting codec for specification entries
(`XdrStream.SelfDelimiting`, proved for metadata entries).

Where the code does not keep a promise for all inputs, the model follows the code and the exact condition
is proved: map keys of 128 or 256 bits, and map keys that print as JSON nested deeper than the 127 levels
`serde_json` reads (`Limits.MapKeysExact`, `Limits.BigKeysExact`), struct fields out of symbol order
(`Limits.StructSurvivesExactly` for any field types, `Limits.OneTypeExactly`, `Limits.FieldOrderExact`),
union payloads that look like numbered lists (`Limits.SinglePayloadExact`), symbol-keyed maps and unions
under the two printers (`Limits.SymbolKeysExact`, `Agreement.UnionsDisagree`), a resource fee near 2^64 (`Transactions.FeeCoversExactly`), unpacking an id
(`Toids.UnpackExactly`) and paging tokens of 20 digits (`Toids.TokenOrderExactly`).

Automatic induction is switched off: every proof by induction is written out.

## Model

| member | source | states |
|---|---|---|
| RoundTrip.ValueSurvives | cmd/crates/soroban-spec-tools/src/lib.rs:274-733 | for every specification, every well-typed and readable value prints, and what it prints parses back under the same type to the value itself |
| RoundTrip.UnionSurvives | cmd/crates/soroban-spec-tools/src/lib.rs:399-457 | a union value, with no payload, one or several, is read back from the string or the one-member object it prints as |
| RoundTrip.StructReads | cmd/crates/soroban-spec-tools/src/lib.rs:373-397 | a struct with fields in any order survives if the value at every position, printed under the field's type, reads as the value under the field's name |
| RoundTrip.StructSurvives | cmd/crates/soroban-spec-tools/src/lib.rs:588-602 | a struct with ascending fields survives although printing pairs names with entries by position and parsing looks members up by name and sorts |
| RoundTrip.FieldPositions | cmd/crates/soroban-spec-tools/src/lib.rs:592-602 | in symbol order, the declared fields and the sorted entries with the same keys meet at the same positions |
| RoundTrip.MapSurvives | cmd/crates/soroban-spec-tools/src/lib.rs:569-579 | a map whose keys and values survive one by one survives as a whole |
| RoundTrip.MembersSurvive | cmd/crates/soroban-spec-tools/src/lib.rs:478-499 | members reordered by their text parse to the entries in some order, which `sorted_from` puts back; no two members collide |
| RoundTrip.KeySurvives | cmd/crates/soroban-spec-tools/src/lib.rs:228-268 | `from_string` reads back the printed text of a map key, null and nested options included |
| RoundTrip.OptionsVanish | cmd/crates/soroban-spec-tools/src/lib.rs:308-310 | a value other than null parses under an option as under the type inside, however deep |
| RoundTrip.EnumSurvives | cmd/crates/soroban-spec-tools/src/lib.rs:742-754 | a constant of an enum is read back from its number |
| RoundTrip.Int128Survives | cmd/crates/soroban-spec-tools/src/lib.rs:766-788 | every U128 and I128 is read back from its decimal text, negative values included |
| RoundTrip.Int256Survives | cmd/crates/soroban-spec-tools/src/lib.rs:791-816 | every U256 and I256 is read back from its decimal text, through the prefix-aware parser |
| RoundTrip.BytesSurvive | cmd/crates/soroban-spec-tools/src/lib.rs:848-875 | bytes are read back from their hex text under Bytes and under BytesN of their length, 32 included |
| RoundTrip.AddressSurvives | cmd/crates/soroban-spec-tools/src/lib.rs:1042-1064 | an address is read back from its strkey |
| Arguments.WideArgument | cmd/crates/soroban-spec-tools/src/lib.rs:228-268 | a decimal number typed for a 128- or 256-bit type, optional or not, is read if and only if it is in range, and then as that number, whether or not the text is JSON |
| Arguments.TextArgument | cmd/crates/soroban-spec-tools/src/lib.rs:228-268 | text that is no JSON is that symbol if it has at most 32 bytes, and that string |
| Arguments.AddressArgument | cmd/crates/soroban-spec-tools/src/lib.rs:228-268 | a bare strkey is its address, under BytesN(32) too |
| Arguments.BytesArgument | cmd/crates/soroban-spec-tools/src/lib.rs:228-268 | bare hex digits are the bytes they stand for, also when they happen to be a JSON number that prints as typed |
| Arguments.CaseArgument | cmd/crates/soroban-spec-tools/src/lib.rs:228-268 | the bare name of a union's case is that case; an unknown name is refused |
| Arguments.OptionalArgument | cmd/crates/soroban-spec-tools/src/lib.rs:229-236 | "null" is no value under an option; any other text is read under the type inside |
| Arguments.OtherTextFails | cmd/crates/soroban-spec-tools/src/lib.rs:239-259 | under every other type, text that is no JSON is refused |
| Arguments.JsonArgument | cmd/crates/soroban-spec-tools/src/lib.rs:239-266 | text that is JSON is read as that JSON, except for wide integers |
| Arguments.NumberReads | cmd/crates/soroban-spec-tools/src/lib.rs:818-841 | a JSON number is read under a 32- or 64-bit type if and only if it is an integer in range, and then as that integer |
| Arguments.ConstantReads | cmd/crates/soroban-spec-tools/src/lib.rs:742-754 | a number is read under an enum if and only if it is a declared constant |
| Arguments.ByteArrayReads | cmd/crates/soroban-spec-tools/src/lib.rs:876-890 | an array is read as bytes if and only if all items are integers below 256, and then as those in order |
| Arguments.PaddedBytesRead | cmd/crates/soroban-spec-tools/src/lib.rs:848-869 | hex text for n bytes is read if and only if it is hex digits, at most 2n of them, and has their value |
| Arguments.VecReads | cmd/crates/soroban-spec-tools/src/lib.rs:293-303 | a vector is read if and only if all its items are, in order |
| Arguments.TupleReads | cmd/crates/soroban-spec-tools/src/lib.rs:459-476 | a tuple is read if and only if it has as many items as types and each is read under its type |
| Arguments.TupleStructReads | cmd/crates/soroban-spec-tools/src/lib.rs:355-371 | a tuple struct reads items position by position, missing ones left out and surplus ones dropped, from a list or from an object numbered from "0" |
| Arguments.UnionObjectReads | cmd/crates/soroban-spec-tools/src/lib.rs:434-456 | the object form of a union: a void case drops the payload, one type takes it whole, several take a list position by position, an unknown case is refused |
| Arguments.OtherFormsFallBack | cmd/crates/soroban-spec-tools/src/lib.rs:318-320 | a JSON form that a type has no arm for is left to serde |
| Arguments.OtherStrkeyFails | cmd/crates/soroban-spec-tools/src/lib.rs:1051-1064 | a text that is no strkey of an account or a contract is no address |
| Arguments.MissingFieldFails | cmd/crates/soroban-spec-tools/src/lib.rs:373-389 | a struct without the member of one of its fields is refused |
| Arguments.PrimitivePrintsExactly | cmd/crates/soroban-spec-tools/src/lib.rs:510-548 | under a primitive type exactly the values of its variant print, texts if they are UTF-8, and ledger keys |
| Arguments.ItemsPrintExactly | cmd/crates/soroban-spec-tools/src/lib.rs:552-564 | printing a list succeeds if and only if every item prints, and keeps the order |
| Arguments.ValuesPrintExactly | cmd/crates/soroban-spec-tools/src/lib.rs:942-952 | the same of schema-free printing |
| Arguments.UnionPrintFails | cmd/crates/soroban-spec-tools/src/lib.rs:611-651 | a union value without a known case first, or with a tuple case and no payload, does not print |
| Arguments.NullPrints | cmd/crates/soroban-spec-tools/src/lib.rs:510-513 | void under an option, a tuple, Val and Void, and absent payloads under an option, print as null |
| Arguments.InstancePrints | cmd/crates/soroban-spec-tools/src/lib.rs:909-925 | the instance key prints as "LedgerKeyContractInstance" under every type |
| Arguments.ResultPrints | cmd/crates/soroban-spec-tools/src/lib.rs:541 | a result prints as its value does under the ok type |
| Arguments.TimesPrint | cmd/crates/soroban-spec-tools/src/lib.rs:920-935 | timepoints, durations and nonces print as their number under both printers |
| Arguments.AbsentPrints | cmd/crates/soroban-spec-tools/src/lib.rs:942-953 | an absent vector prints as an empty array, an absent map as an empty object, void as null |
| Arguments.SymbolMapPrints | cmd/crates/soroban-spec-tools/src/lib.rs:954-963 | schema-free printing of a symbol-keyed map names every member by the bare symbol and holds the printed value under it |
| Limits.MapKeysExact | cmd/crates/soroban-spec-tools/src/lib.rs:228-268 | a map whose keys and values survive one by one survives if and only if no key is a 128- or 256-bit integer and every key prints within the depth JSON text may have |
| Limits.BigKeysExact | cmd/crates/soroban-spec-tools/src/lib.rs:569-579 | a map keyed by 128- or 256-bit integers, optional or not, survives if and only if every key is `Void` |
| Limits.StructSurvivesExactly | cmd/crates/soroban-spec-tools/src/lib.rs:588-602 | for any field types in any order, a struct value survives if and only if the value at every field's position, printed under the field's type, reads as the value held under the field's name |
| Limits.OneTypeExactly | cmd/crates/soroban-spec-tools/src/lib.rs:592-602 | with one type for all fields, if and only if every field's position holds the value of its name |
| Limits.FieldOrderExact | cmd/crates/soroban-spec-tools/src/lib.rs:592-602 | for fields of one type, all values of which survive, every struct value survives if and only if the fields are declared in ascending symbol order or the type has no two values |
| Limits.U32OrderExact | cmd/crates/soroban-spec-tools/src/lib.rs:592-602 | for u32 fields, if and only if they are declared in ascending symbol order |
| Limits.SinglePayloadExact | cmd/crates/soroban-spec-tools/src/lib.rs:402-415 | a union value with one payload survives if and only if the payload does not print as an object with a member "0" |
| Limits.SymbolKeysExact | cmd/crates/soroban-spec-tools/src/lib.rs:903-963 | both printers agree on a map keyed by symbols, optional or not, if and only if every key is `Void`, since one of them quotes symbols |
| Agreement.PrintersAgree | cmd/crates/soroban-spec-tools/src/lib.rs:510-610 | typed printing and schema-free printing yield the same JSON on every well-typed value without unions and symbol-keyed maps, for structs in symbol order |
| Agreement.UnionsDisagree | cmd/crates/soroban-spec-tools/src/lib.rs:611-660 | the two printers never agree on a union value |
| Canonical.StructIsCanonical | cmd/crates/soroban-spec-tools/src/lib.rs:373-397 | a parsed struct is strictly ascending, its keys are exactly the declared names, which are distinct, and each value is what its own member parses to |
| Canonical.FieldOrderIrrelevant | cmd/crates/soroban-spec-tools/src/lib.rs:373-397 | permuting the declared fields and the JSON members does not change the parsed struct |
| Canonical.MapIsCanonical | cmd/crates/soroban-spec-tools/src/lib.rs:478-499 | a parsed map is strictly ascending and holds exactly one entry, decoded from it, for every member |
| Canonical.MemberOrderIrrelevant | cmd/crates/soroban-spec-tools/src/lib.rs:478-499 | permuting the members does not change the parsed map |
| Codec.UnionPayload | cmd/crates/soroban-spec-tools/src/lib.rs:402-413 | reading a numbered object as a list makes the payload no higher, which keeps the recursion through unions terminating |
| Codec.PayloadIsNumbered | cmd/crates/soroban-spec-tools/src/lib.rs:402-413 | an object with a member "0" becomes the list of its members "0", "1", ... in that order, one for every member, and nothing exactly when one of those names is missing; any other payload is left alone |
| Printing.PrintText | cmd/crates/soroban-spec-tools/src/lib.rs:903-914 | the text of a value is that of its schema-free JSON, except for symbols and the instance key |
| Printing.PrintJson | cmd/crates/soroban-spec-tools/src/lib.rs:920-1040 | the loop-based printer computes the recursive specification `ToJson` |
| Printing.PrintVec | cmd/crates/soroban-spec-tools/src/lib.rs:942-952 | items are printed in order and the first failure is the result |
| Printing.PrintMap | cmd/crates/soroban-spec-tools/src/lib.rs:954-963 | inserting members one by one yields the object collected from all of them, a repeated name overwritten; the first failure is the result |
| SpecTypes.FindIsFirst | cmd/crates/soroban-spec-tools/src/lib.rs:162-178 | the entry found is the first of that name, and there is none exactly when no entry has it |
| SpecTypes.CaseIsFirst | cmd/crates/soroban-spec-tools/src/lib.rs:418-430 | the case found is the first of that name, and there is none exactly when no case has it |
| Words.JoinPositional | cmd/crates/soroban-spec-tools/src/lib.rs:966-1025 | the number built from big-endian words is their positional value in base 2^64, with the sign on the top word only |
| Words.SplitJoin128 | cmd/crates/soroban-spec-tools/src/lib.rs:766-788 | joining two words gives a number in range that splits into the same words |
| Words.SplitJoin256 | cmd/crates/soroban-spec-tools/src/lib.rs:791-816 | joining four words gives a number in range that splits into the same words |
| Words.JoinSplitU128 | cmd/crates/soroban-spec-tools/src/lib.rs:767-777 | the words of every u128 join to it |
| Words.JoinSplitI128 | cmd/crates/soroban-spec-tools/src/lib.rs:779-789 | the words of every i128 join to it |
| Words.JoinSplitU256 | cmd/crates/soroban-spec-tools/src/lib.rs:792-804 | the words of every 256-bit unsigned number join to it |
| Words.JoinSplitI256 | cmd/crates/soroban-spec-tools/src/lib.rs:805-817 | the words of every 256-bit signed number join to it |
| Decimal.ShowParses | cmd/crates/soroban-spec-tools/src/lib.rs:766-816 | the decimal text of an integer in range parses back to it, with and without prefix detection |
| Decimal.ShowParsesExactly | cmd/crates/soroban-spec-tools/src/lib.rs:766-816 | the text of an integer is read if and only if the integer is in the range of the type |
| Decimal.PlusParses | cmd/crates/soroban-spec-tools/src/lib.rs:766-816 | a plus sign may be written |
| Hex.ToLowerHex | cmd/crates/soroban-spec-tools/src/lib.rs:1066-1072 | the loop yields two lowercase digits a byte |
| Hex.LowerHexDecodes | cmd/crates/soroban-spec-tools/src/lib.rs:1066-1072 | both hex decoders invert `to_lower_hex` |
| Hex.DigitsAre | cmd/crates/soroban-spec-tools/src/utils.rs:12 | the sixteen digits have their values in both cases |
| Hex.CaseIgnored | cmd/crates/soroban-spec-tools/src/utils.rs:12 | digits of either case decode alike |
| Hex.PaddedHexFromStr | cmd/crates/soroban-spec-tools/src/utils.rs:6-14 | succeeds if and only if the text is all hex digits and at most 2n long; the n bytes have the same big-endian value, odd lengths included |
| Hex.DecodeToSlice | cmd/crates/soroban-spec-tools/src/utils.rs:10-13 | filling the buffer in place succeeds if and only if all characters are hex digits, and yields bytes of the same big-endian value |
| Hex.PaddedHexValue | cmd/crates/soroban-spec-tools/src/utils.rs:6-14 | left padding keeps the value of the digits |
| Unicode.Utf8Exactly | cmd/crates/soroban-spec-tools/src/lib.rs:903-941 | the texts taken for UTF-8 are exactly the encodings of sequences of Unicode scalar values (RFC 3629) |
| ScValues.LessIsStrictOrder | cmd/crates/soroban-spec-tools/src/lib.rs:395-396 | the derived order on contract values, by which maps are sorted, is total, irreflexive and transitive |
| ValueOrder.IntegerOrder | cmd/crates/soroban-spec-tools/src/lib.rs:496-498 | integers of one type, of 32 to 256 bits, are ordered as numbers |
| ValueOrder.ScalarOrder | cmd/crates/soroban-spec-tools/src/lib.rs:496-498 | false before true, nonces as numbers, bytes, strings and symbols by their bytes, accounts before contracts and then by bytes |
| ValueOrder.TextOrder | cmd/crates/soroban-spec-tools/src/lib.rs:496-498 | byte order is decided by the first different byte, a proper prefix coming first |
| ValueOrder.VecOrder | cmd/crates/soroban-spec-tools/src/lib.rs:496-498 | vectors are ordered by their first different item, a proper prefix coming first |
| ValueOrder.MapOrder | cmd/crates/soroban-spec-tools/src/lib.rs:496-498 | maps are ordered by their first different entry, key before value, a proper prefix coming first |
| ValueOrder.VariantOrder | cmd/crates/soroban-spec-tools/src/lib.rs:496-498 | values of different variants are in the order in which the variants are declared |
| ValueOrder.IntegerKeysAscend | cmd/crates/soroban-spec-tools/src/lib.rs:478-499 | the integer keys of a parsed map ascend as numbers |
| OrderedMap.SortedFromSpec | cmd/crates/soroban-spec-tools/src/lib.rs:395-396 | sorting fails if and only if a key repeats; otherwise it yields the same bindings in strictly ascending order |
| OrderedMap.SortedFromRecovers | cmd/crates/soroban-spec-tools/src/lib.rs:496-498 | any listing of an ascending map's bindings sorts back to that map |
| Consistency.ListsSurvive | cmd/crates/soroban-spec-tools/src/lib.rs:399-457 | under such laws, values of every length of a recursive union meet the conditions of the round trip and survive |
| Snapshot.Search | cmd/soroban-cli/src/commands/snapshot/create.rs:233-363 | succeeds if and only if no filter is given, or every frame is readable and every instance of a given contract resolves; saves exactly the merged ledger restricted to the closure of the filters, each key once and equal to its entry's key, in at most two rounds, with the greatest version met |
| Snapshot.ScanSpec | cmd/soroban-cli/src/commands/snapshot/create.rs:245-356 | one round decides exactly the kept keys, appends exactly the newest live entry of each key not decided before, keeps what was saved, and raises the version to the maximum |
| Snapshot.ScanOkExactly | cmd/soroban-cli/src/commands/snapshot/create.rs:268-347 | a round succeeds if and only if every frame is readable and every newest kept entry resolves |
| Snapshot.ScanNotes | cmd/soroban-cli/src/commands/snapshot/create.rs:303-347 | the next filters are exactly the wasm hashes and issuers named by the entries saved, without wasms already searched for, and never a contract |
| Snapshot.FirstRound | cmd/soroban-cli/src/commands/snapshot/create.rs:361-362 | the given filters and those queued by the first round together are the closure |
| Snapshot.SecondRound | cmd/soroban-cli/src/commands/snapshot/create.rs:361-362 | a round without contract filters cannot fail on a readable archive and queues nothing |
| Snapshot.TwoRoundsSuffice | cmd/soroban-cli/src/commands/snapshot/create.rs:233-363 | two rounds save exactly the merged ledger restricted to the closure |
| Snapshot.OneScanSuffices | cmd/soroban-cli/src/commands/snapshot/create.rs:233-363 | one scan with the closure known in advance saves the same entries |
| Snapshot.NewestInKeys | cmd/soroban-cli/src/commands/snapshot/create.rs:575-649 | the newest live entry recorded for a key has that key, and a key has a record if and only if a frame mentions it |
| ArchiveOrder.BucketsInOrder | cmd/soroban-cli/src/commands/snapshot/create.rs:170-175 | the buckets read are the non-empty hashes in the order curr of level 0, snap of level 0, curr of level 1, ..., none dropped |
| ArchiveOrder.NewestByLevel | cmd/soroban-cli/src/commands/snapshot/create.rs:201 | the merged ledger takes a key from the first position in that order that mentions it, and there from the first frame |
| ArchiveOrder.SavedByLevel | cmd/soroban-cli/src/commands/snapshot/create.rs:286-355 | for a kept key the entry saved is exactly the one that stands there, and none if it is a tombstone |
| ArchiveOrder.MaxMetaIsGreatest | cmd/soroban-cli/src/commands/snapshot/create.rs:276-285 | the version is at least that of every meta record and is one of them, or 0 |
| ArchiveOrder.KeysIdentify | cmd/soroban-cli/src/commands/snapshot/create.rs:575-649 | two entries share a key if and only if they are records of one thing: same kind and same identity, durability included |
| ArchiveOrder.KeepsExactly | cmd/soroban-cli/src/commands/snapshot/create.rs:289-295 | accounts and trustlines are kept by account, contract data by contract, code by hash, nothing else |
| ArchiveOrder.MentionsExactly | cmd/soroban-cli/src/commands/snapshot/create.rs:270-286 | a tombstone is matched by its key, a live or initial entry by the key it has |
| ArchiveOrder.ReferenceExactly | cmd/soroban-cli/src/commands/snapshot/create.rs:303-347 | an instance names the wasm it runs, or the issuer that the asset name in its storage resolves to; only resolving can fail |
| ArchiveOrder.AssetNameExactly | cmd/soroban-cli/src/utils.rs:142-163 | the asset name is the string under "name" in the map under "METADATA", the first entry of each key deciding |
| Transactions.AddOp | cmd/soroban-cli/src/commands/tx/xdr.rs:44-50 | succeeds if and only if the envelope is V1 with fewer than 100 operations; appends the operation and drops the signatures |
| Transactions.Assemble | cmd/soroban-cli/src/assembled.rs:188-245 | succeeds if and only if there is one operation, the data decodes, exactly one result with decodable entries is given where authorizations are needed, and the fee fits 32 bits; yields the simulated data as extension, the larger fee, the simulated authorizations in order where none were given, and nothing else changed |
| Transactions.AssembledExactly | cmd/soroban-cli/src/assembled.rs:188-245 | the same of the specification that whole runs use |
| Transactions.AssembleConserves | cmd/soroban-cli/src/assembled.rs:188-245 | assembling changes at most an empty authorization list, the fee, which becomes the larger of old and required, and the extension |
| Transactions.AssembleIdempotent | cmd/soroban-cli/src/assembled.rs:188-245 | assembling again with the same answer changes nothing |
| Transactions.FeeCoversExactly | cmd/soroban-cli/src/assembled.rs:233-240 | the fee covers inclusion and resource fee if and only if their sum fits 64 bits; otherwise the sum wraps to less than the inclusion fee |
| Transactions.FeeWrapExample | cmd/soroban-cli/src/assembled.rs:233-240 | an answer whose resource fee wraps around is accepted with fee 100 |
| Signing.SignAuthorizations | cmd/soroban-cli/src/signer.rs:61-145 | the loop over the entries computes the specification, the first failure included; nothing is signed if and only if there is not exactly one operation, it is no host-function call, it has no entry, or its first entry authorizes no contract call |
| Signing.AuthorizationsAreSigned | cmd/soroban-cli/src/signer.rs:44-205 | signing succeeds if and only if every address entry is an account with a key at hand; it keeps number, order, invocations and nonces, sets the expiration, stores a signature that verifies under the address's key, changes nothing else, and is idempotent |
| Signing.SignOneSpec | cmd/soroban-cli/src/signer.rs:90-139 | the same for one entry |
| Signing.SignatureValueIs | cmd/soroban-cli/src/signer.rs:175-201 | the stored value is a vector of one map from `public_key` and `signature`, in that order |
| Signing.SignerIsFirst | cmd/soroban-cli/src/signer.rs:115-131 | the key found is that of the first signer with the address, else the source key if it has it, else none |
| Signing.SignTxEnv | cmd/soroban-cli/src/signer.rs:232-256 | succeeds if and only if the envelope is V1 with fewer than 20 signatures and a key is at hand; appends exactly one signature, over the hash of the transaction, keeps the others as a prefix and the body unchanged |
| Pipeline.SignaturesCoverBody | cmd/soroban-cli/src/signer.rs:220-256 | after any run from an unsigned transaction, the signatures are exactly those of the keys that signed since the last change, in order, at most 20, each valid over the hash of the current body |
| Pipeline.BodyConserved | cmd/soroban-cli/src/assembled.rs:188-245 | over any run, source, sequence number, memo and preconditions stay, the fee never falls, and the operations are the first ones followed by those added, up to authorizations, at most 100 |
| Pipeline.FreshRun | cmd/soroban-cli/src/tx/builder/transaction.rs:21-36 | after any run from a new transaction, source and sequence number are those given, there is no memo and no precondition, and the operations are the first followed by those added |
| Pipeline.SimulateExactly | cmd/soroban-cli/src/commands/tx/simulate.rs:33-40 | simulating succeeds if and only if the envelope is V1, the answer has no error and the transaction can be assembled; it yields the assembled transaction without signatures |
| Pipeline.InvokeExactly | cmd/soroban-cli/src/signer.rs:61-145 | authorizing and signing succeeds if and only if all entries that must be signed can be; one signature results |
| Pipeline.TakeConserves | cmd/soroban-cli/src/commands/tx/xdr.rs:37-50 | every single step conserves the body in that sense |
| Pipeline.AuthorizationsStaySigned | cmd/soroban-cli/src/signer.rs:61-145 | over any run, once an invocation has signed authorizations, every address entry keeps the expiration of the last such invocation and a signature valid for it, whatever is added, simulated or signed later |
| Pipeline.AuthorizationsSettle | cmd/soroban-cli/src/signer.rs:147-205 | once present, authorization entries keep invocation, owner and nonce over every later simulation, authorization and signature, and stay signed by the last invocation that signed them |
| LedgerDevice.DeviceRecovers | cmd/crates/stellar-ledger/src/lib.rs:141-180 | from any state, the device acts exactly once, at the last command, on exactly the path and payload given |
| LedgerDevice.ChunksPartition | cmd/crates/stellar-ledger/src/lib.rs:152-153 | the chunks are the data in pieces of 1 to 137 bytes, all but the last full |
| LedgerDevice.RequestReadsBack | cmd/crates/stellar-ledger/src/lib.rs:143-150 | path and payload are read back from the request bytes |
| LedgerDevice.PathReadsBack | cmd/crates/stellar-ledger/src/hd_path.rs:38-50 | path indices are read back from their big-endian bytes, whatever follows |
| LedgerDevice.PathBytesAre | cmd/crates/stellar-ledger/src/hd_path.rs:31-36 | the twelve bytes of m/44'/148'/index', each index big-endian with its highest bit set |
| LedgerDevice.CommandsAre | cmd/crates/stellar-ledger/src/lib.rs:155-172 | class 0xE0, instruction 0x04, P1 0x00 first and 0x80 after, P2 0x00 last and 0x80 before, 1 to 137 bytes, all but the last full |
| LedgerDevice.ReceivedInOrder | cmd/crates/stellar-ledger/src/lib.rs:174-175 | the replies' data is laid end to end in the order of the exchanges |
| LedgerDevice.Transport.SignTransaction | cmd/crates/stellar-ledger/src/lib.rs:130-181 | succeeds if and only if every exchange does, with the replies end to end; nothing is sent after a failed exchange |
| LedgerDevice.Transport.Send | cmd/crates/stellar-ledger/src/lib.rs:218-242 | one command is sent; the result is the reply's data if and only if the return code is 0x9000, else the matching error |
| LedgerDevice.Transport.SignBlob | cmd/crates/stellar-ledger/src/lib.rs:266-285 | one command, from which a device in any state reads the path and the blob |
| XdrStream.DecodeConcat | cmd/crates/soroban-spec-tools/src/contract.rs:56-61 | decoding a concatenation of streams yields the concatenation of what each decodes to, and fails when the second does |
| XdrStream.DecodeEncoded | cmd/soroban-cli/src/config/data.rs:76-91 | values written one after the other are read back as they were |
| XdrStream.MetaIsSelfDelimiting | cmd/soroban-cli/src/commands/contract/build.rs:297-300 | the XDR encoding of metadata entries (sections 4.11 and 4.15 of RFC 4506) is self-delimiting |
| XdrStream.MetaBytes | cmd/soroban-cli/src/commands/contract/build.rs:297-300 | an entry is written as discriminant 0 and two texts with length and padding, shown on one entry |
| ContractSpec.SpecNew | cmd/crates/soroban-spec-tools/src/contract.rs:42-101 | the three buffers hold the sections of each name in file order and decode to the extracted lists |
| ContractSpec.ExtractExactly | cmd/crates/soroban-spec-tools/src/contract.rs:42-101 | extraction fails if the file does not parse or the sections of one of the three names do not decode; otherwise each list is what the data of the sections of its name, laid end to end by position in the file, decodes to |
| ContractSpec.HoldsOnce | cmd/crates/soroban-spec-tools/src/contract.rs:42-101 | the positions of a name, and so what its sections hold, are determined, so that success and failure exclude each other |
| ContractSpec.SectionNames | cmd/crates/soroban-spec-tools/src/contract.rs:49-54 | the three names are "contractenvmetav0", "contractmetav0" and "contractspecv0" |
| ContractSpec.SpecAppends | cmd/crates/soroban-spec-tools/src/contract.rs:86-106 | a written specification section adds its entries, in order, to those extracted before, with the metadata lists unchanged |
| ContractSpec.MetaEntries | cmd/soroban-cli/src/commands/contract/build.rs:287-297 | pairs become entries with that key and value in order, if and only if every text fits |
| ContractSpec.AddMetadata | cmd/soroban-cli/src/commands/contract/build.rs:280-306 | one section is appended for every pair, unless some text is too long |
| ContractSpec.MetadataAppends | cmd/soroban-cli/src/commands/contract/build.rs:280-306 | afterwards extraction yields the old metadata followed by the new in order, with specification and environment metadata unchanged |
| SpecCache.CacheAgrees | cmd/soroban-cli/src/get_spec.rs:61-75 | over any run of lookups, uploads and cleans, every file decodes to what extraction yields for the code of its hash, and a lookup answers exactly that |
| SpecCache.UseKeepsCoherent | cmd/soroban-cli/src/get_spec.rs:61-75 | every single use keeps the cache coherent |
| SpecCache.LookupFills | cmd/soroban-cli/src/get_spec.rs:61-75 | a lookup leaves its answer in the cache unless told not to, and then changes nothing; cleaning leaves nothing |
| SpecCache.Cache.GetRemoteSpec | cmd/soroban-cli/src/get_spec.rs:61-75 | read-or-fill answers what extraction does, cached or not, and keeps the cache coherent |
| SpecCache.Cache.WriteSpec | cmd/soroban-cli/src/config/data.rs:76-85 | stores the entries' encodings under the hash and touches no other file |
| SpecCache.Cache.ReadSpec | cmd/soroban-cli/src/config/data.rs:87-91 | the decoded file, if there is one and it decodes |
| SpecCache.Cache.UploadWasm | cmd/soroban-cli/src/commands/contract/upload.rs:102-234 | the specification is stored exactly when the installation goes through: not for a refused SDK, a transaction that is only built or simulated, or code already on the ledger with an extension; the cache stays coherent and the stored file decodes to the extracted specification |
| SpecCache.Cache.CleanAll | cmd/soroban-cli/src/commands/cache/clean.rs:19-28 | the cache is empty |
| Toids.ToU64 | cmd/soroban-cli/src/toid.rs:51-64 | or-ing the masked and shifted fields, bit by bit, yields the sum of their multiples |
| Toids.OrIsSum | cmd/soroban-cli/src/toid.rs:58-60 | or-ing numbers without a common bit position adds them |
| Toids.PackIsMonotone | cmd/soroban-cli/src/toid.rs:51-64 | for fields in range, packing is injective and orders ids as triples |
| Toids.PackCollidesExactly | cmd/soroban-cli/src/toid.rs:51-64 | in general two ids are packed alike if and only if they agree after masking |
| Toids.UnpackExactly | cmd/soroban-cli/src/toid.rs:37-49 | unpacking yields ledger 0; it inverts packing if and only if the ledger is 0, the transaction below 256 and the operation below 4096 |
| Toids.TokenOrderExactly | cmd/soroban-cli/src/toid.rs:31-34 | paging tokens of a smaller and a larger number compare as texts in that order if and only if both have at most 19 digits, or both 20, or the smaller is at most a tenth of the larger |
| Toids.TokensFollowIds | cmd/soroban-cli/src/toid.rs:31-34 | below ledger 2^31 the tokens of ids in range compare as texts exactly as the ids do |
| Toids.TokenReadsBack | cmd/soroban-cli/src/toid.rs:31-34 | a token is the number in decimal, padded to 19 digits |

## Left out

- Codec: the variants `Error` and `ContractInstance` of contract values in printing, and Result, Void, Val, Timepoint, Duration and Error as targets of the round trip, because `from_json` has no arm of its own for them.
- Codec: `serde_json::from_value`, the fallback of `from_json`, is a parameter without laws; floating-point numbers occur only as their text; spec names are taken to be UTF-8, so that lossy conversion is the identity.
- Limits.SinglePayloadExact: takes it as given that serde reads no contract value from a JSON array.
- Hex.PaddedHexFromStr: counts padding in bytes where the source counts characters; a text with a non-ASCII character fails either way.
- Snapshot: downloading, unpacking and caching bucket files, writing the snapshot file, and resolving addresses given on the command line; resolving an asset name is a parameter.
- Snapshot.Search: the saved order of entries is not part of the contract, and `lastModified` and other entry fields are carried along unread.
- Transactions: the restore transaction, `set_max_instructions`, `bump_seq_num` and fee padding; simulation itself is an answer given to the model.
- Transactions.Assemble: the 64-bit fee sum wraps around as in a release build; a debug build panics there.
- Signing: real ed25519, SHA-256 and XDR of the hash preimages, the keyring, and signing in the Lab, which only opens a browser.
- LedgerDevice: public keys, the app configuration and the HID transport; the replies of a device are arbitrary.
- ContractSpec: wasm framing, the codec of specification entries, and the base64 and text forms of a specification.
- SpecCache: Stellar asset contracts, whose specification is built in; for `upload`, whether the SDK version is refused, what is on the ledger and whether the transaction goes through are given, since the network decides them.
- The RPC client, help texts (`doc`, `arg_value_name`, `example`), configuration files, binding generators, containers and command-line parsing, which would only add easy members or are I/O.
