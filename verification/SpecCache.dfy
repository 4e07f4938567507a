/** The cache of contract specifications, one file per wasm hash. */
module SpecCache {
  import opened Wrappers
  import opened Octets
  import opened XdrStream
  import opened SpecTypes
  import opened ContractSpec

  datatype WasmHash = WasmHash(bytes: seq<byte>)

  type Files = map<WasmHash, seq<byte>>

  /** Hashing, and what the network holds under a hash. */
  datatype Chain = Chain(sha256: seq<byte> -> WasmHash, fetch: WasmHash -> Option<seq<byte>>) {
    /** Hashes do not collide, and the network answers with the code that has the hash. */
    ghost predicate Honest() {
      && (forall a, b :: sha256(a) == sha256(b) ==> a == b)
      && (forall h :: fetch(h).Some? ==> sha256(fetch(h).value) == h)
    }
  }

  datatype Failure = NotFound | Extraction(error: ContractSpec.Error) | Refused | NotSubmitted

  type Answer = Result<seq<SpecEntry>, Failure>

  /** What a lookup that never consults the cache answers for a piece of code. */
  function SpecOf(t: Tools, wasm: seq<byte>): Answer {
    match Extract(t, wasm)
    case Ok(x) => Ok(x.spec)
    case Err(e) => Err(Extraction(e))
  }

  /** `read_spec`. */
  function Cached(t: Tools, files: Files, h: WasmHash): Option<seq<SpecEntry>> {
    if h in files then DecodeAll(t.specCodec, files[h]) else None
  }

  /** `write_spec`. */
  function Stored(t: Tools, files: Files, h: WasmHash, entries: seq<SpecEntry>): Files {
    files[h := EncodeAll(t.specCodec, entries)]
  }

  datatype CodeExt = ExtV0 | ExtV1

  /**
   What `upload` is asked for and what it meets: whether a release candidate of the SDK is refused, the
   flags of the command, the code already on the ledger, and whether the transaction goes through.
   */
  datatype Install = Install(refused: bool, buildOnly: bool, simOnly: bool, onLedger: Option<CodeExt>, submitted: bool) {
    /** Code with an extension is not installed again; code without one is. */
    predicate GoesAhead() {
      !refused && !buildOnly && !simOnly && onLedger != Some(ExtV1) && submitted
    }
  }

  /** The hash of code that is on the ledger now, or a transaction to be sent. */
  datatype Uploaded = OnLedger(hash: WasmHash) | NotSent

  /** One use of the cache. */
  datatype Use =
    | Lookup(hash: WasmHash, noCache: bool)
    | Upload(wasm: seq<byte>, install: Install, noCache: bool)
    | Clean

  function LookupAnswer(t: Tools, chain: Chain, files: Files, h: WasmHash): Answer {
    match Cached(t, files, h)
    case Some(entries) => Ok(entries)
    case None =>
      match chain.fetch(h)
      case None => Err(NotFound)
      case Some(wasm) => SpecOf(t, wasm)
  }

  /** The files after a use. */
  function After(t: Tools, chain: Chain, files: Files, use: Use): Files {
    match use
    case Lookup(h, noCache) =>
      var answer := LookupAnswer(t, chain, files, h);
      if Cached(t, files, h).Some? || noCache || answer.Err? then files
      else Stored(t, files, h, answer.value)
    case Upload(wasm, install, noCache) =>
      if SpecOf(t, wasm).Err? || !install.GoesAhead() || noCache then files
      else Stored(t, files, chain.sha256(wasm), SpecOf(t, wasm).value)
    case Clean => map[]
  }

  function AfterAll(t: Tools, chain: Chain, files: Files, uses: seq<Use>): Files {
    if uses == [] then files
    else After(t, chain, AfterAll(t, chain, files, uses[..|uses| - 1]), uses[|uses| - 1])
  }

  /** Every file holds the entries that extraction yields for the code of its hash. */
  ghost predicate Coherent(t: Tools, chain: Chain, files: Files) {
    forall wasm :: chain.sha256(wasm) in files ==>
      SpecOf(t, wasm).Ok? && DecodeAll(t.specCodec, files[chain.sha256(wasm)]) == Some(SpecOf(t, wasm).value)
  }

  lemma {:induction false} StoreKeepsCoherent(t: Tools, chain: Chain, files: Files, wasm: seq<byte>)
    requires chain.Honest() && SelfDelimiting(t.specCodec) && Coherent(t, chain, files) && SpecOf(t, wasm).Ok?
    ensures Coherent(t, chain, Stored(t, files, chain.sha256(wasm), SpecOf(t, wasm).value))
  {
    DecodeEncoded(t.specCodec, SpecOf(t, wasm).value);
    hide SpecOf, DecodeAll, EncodeAll, SelfDelimiting;
  }

  /** Every use keeps the cache coherent. */
  lemma {:induction false} UseKeepsCoherent(t: Tools, chain: Chain, files: Files, use: Use)
    requires chain.Honest() && SelfDelimiting(t.specCodec) && Coherent(t, chain, files)
    ensures Coherent(t, chain, After(t, chain, files, use))
  {
    hide SpecOf, Stored, SelfDelimiting, DecodeAll;
    match use
    case Lookup(h, _) =>
      if chain.fetch(h).Some? && SpecOf(t, chain.fetch(h).value).Ok? {
        assert chain.sha256(chain.fetch(h).value) == h;
        StoreKeepsCoherent(t, chain, files, chain.fetch(h).value);
      }
    case Upload(wasm, _, _) => if SpecOf(t, wasm).Ok? { StoreKeepsCoherent(t, chain, files, wasm); }
    case Clean =>
  }

  /**
   Over any run of lookups, uploads and cleans from an empty cache, the cache stays coherent, and a
   lookup of code the network holds answers exactly what extraction from that code does.
   */
  lemma {:induction false} CacheAgrees(t: Tools, chain: Chain, uses: seq<Use>, wasm: seq<byte>)
    requires chain.Honest() && SelfDelimiting(t.specCodec)
    ensures Coherent(t, chain, AfterAll(t, chain, map[], uses))
    ensures chain.fetch(chain.sha256(wasm)).Some? ==>
      LookupAnswer(t, chain, AfterAll(t, chain, map[], uses), chain.sha256(wasm)) == SpecOf(t, wasm)
    ensures LookupAnswer(t, chain, AfterAll(t, chain, map[], uses), chain.sha256(wasm)).Ok? ==>
      LookupAnswer(t, chain, AfterAll(t, chain, map[], uses), chain.sha256(wasm)) == SpecOf(t, wasm)
  {
    hide SpecOf, After, SelfDelimiting, DecodeAll;
    if uses != [] {
      var front := uses[..|uses| - 1];
      CacheAgrees(t, chain, front, wasm);
      UseKeepsCoherent(t, chain, AfterAll(t, chain, map[], front), uses[|uses| - 1]);
    }
    var h := chain.sha256(wasm);
    assert chain.fetch(h).Some? ==> chain.fetch(h).value == wasm;
  }

  /** A lookup leaves the answer in the cache unless told not to; cleaning leaves nothing. */
  lemma {:induction false} LookupFills(t: Tools, chain: Chain, files: Files, h: WasmHash)
    requires SelfDelimiting(t.specCodec)
    ensures After(t, chain, files, Lookup(h, true)) == files && After(t, chain, files, Clean) == map[]
    ensures h !in files && chain.fetch(h).None? ==> LookupAnswer(t, chain, files, h) == Err(NotFound)
    ensures LookupAnswer(t, chain, files, h).Ok? ==>
      Cached(t, After(t, chain, files, Lookup(h, false)), h) == Some(LookupAnswer(t, chain, files, h).value)
  {
    if LookupAnswer(t, chain, files, h).Ok? { DecodeEncoded(t.specCodec, LookupAnswer(t, chain, files, h).value); }
    hide SpecOf, SelfDelimiting, DecodeAll, EncodeAll;
  }

  /** The spec directory. */
  class Cache {
    var files: Files

    constructor ()
      ensures files == map[]
    {
      files := map[];
    }

    /** `write_spec`: the entries' encodings one after the other, under the hash. */
    method WriteSpec(t: Tools, h: WasmHash, entries: seq<SpecEntry>)
      modifies this
      ensures files == Stored(t, old(files), h, entries)
      ensures h in files && forall other :: other != h ==> (other in files <==> other in old(files)) && (other in files ==> files[other] == old(files)[other])
      ensures SelfDelimiting(t.specCodec) ==> DecodeAll(t.specCodec, files[h]) == Some(entries)
    {
      if SelfDelimiting(t.specCodec) { DecodeEncoded(t.specCodec, entries); }
      hide SelfDelimiting, DecodeAll;
      var contents: seq<byte> := [];
      for i := 0 to |entries|
        invariant contents == EncodeAll(t.specCodec, entries[..i])
        invariant files == old(files)
      {
        contents := contents + t.specCodec.encode(entries[i]);
        assert entries[..i + 1][..i] == entries[..i];
      }
      assert entries[..|entries|] == entries;
      files := files[h := contents];
    }

    /** `read_spec`. */
    method ReadSpec(t: Tools, h: WasmHash) returns (r: Option<seq<SpecEntry>>)
      ensures r == Cached(t, files, h)
    {
      if h !in files {
        return None;
      }
      r := DecodeAll(t.specCodec, files[h]);
    }

    /** `get_remote_contract_spec` for a wasm contract: the cached entries, or those of the fetched code. */
    method GetRemoteSpec(t: Tools, chain: Chain, h: WasmHash, noCache: bool) returns (r: Answer)
      requires chain.Honest() && SelfDelimiting(t.specCodec) && Coherent(t, chain, files)
      modifies this
      ensures Coherent(t, chain, files)
      ensures files == After(t, chain, old(files), Lookup(h, noCache))
      ensures r == LookupAnswer(t, chain, old(files), h)
      ensures forall wasm :: chain.sha256(wasm) == h && (r.Ok? || chain.fetch(h).Some?) ==> r == SpecOf(t, wasm)
      ensures noCache ==> files == old(files)
      ensures r.Ok? && !noCache ==> Cached(t, files, h) == Some(r.value)
      ensures forall other :: other != h ==> (other in files <==> other in old(files)) && (other in files ==> files[other] == old(files)[other])
    {
      UseKeepsCoherent(t, chain, files, Lookup(h, noCache));
      LookupIsExtraction(t, chain, files, h);
      hide SpecOf, Coherent, DecodeAll, SelfDelimiting, Chain.Honest;
      var cached := ReadSpec(t, h);
      if cached.Some? {
        return Ok(cached.value);
      }
      var raw := chain.fetch(h);
      if raw.None? {
        return Err(NotFound);
      }
      var spec := SpecOf(t, raw.value);
      if spec.Err? {
        return spec;
      }
      if !noCache {
        WriteSpec(t, h, spec.value);
      }
      r := spec;
    }

    /** `upload`: only an installation that goes through leaves the specification in the cache. */
    method UploadWasm(t: Tools, chain: Chain, wasm: seq<byte>, install: Install, noCache: bool) returns (r: Result<Uploaded, Failure>)
      requires chain.Honest() && SelfDelimiting(t.specCodec) && Coherent(t, chain, files)
      modifies this
      ensures Coherent(t, chain, files)
      ensures files == After(t, chain, old(files), Upload(wasm, install, noCache))
      ensures SpecOf(t, wasm).Ok? && install.GoesAhead() ==> r == Ok(OnLedger(chain.sha256(wasm)))
      ensures SpecOf(t, wasm).Ok? && install.GoesAhead() && !noCache ==>
        chain.sha256(wasm) in files && DecodeAll(t.specCodec, files[chain.sha256(wasm)]) == Some(SpecOf(t, wasm).value)
      ensures r == Ok(OnLedger(chain.sha256(wasm))) ==> SpecOf(t, wasm).Ok? && (install.GoesAhead() || install.onLedger == Some(ExtV1))
    {
      UseKeepsCoherent(t, chain, files, Upload(wasm, install, noCache));
      if SpecOf(t, wasm).Ok? { DecodeEncoded(t.specCodec, SpecOf(t, wasm).value); }
      hide SpecOf, Coherent, DecodeAll, EncodeAll, SelfDelimiting, Chain.Honest;
      var spec := SpecOf(t, wasm);
      if spec.Err? {
        return Err(spec.error);
      }
      if install.refused {
        return Err(Refused);
      }
      if install.buildOnly {
        return Ok(NotSent);
      }
      if !install.simOnly {
        if install.onLedger == Some(ExtV1) {
          return Ok(OnLedger(chain.sha256(wasm)));
        }
      }
      if install.simOnly {
        return Ok(NotSent);
      }
      if !install.submitted {
        return Err(NotSubmitted);
      }
      if !noCache {
        WriteSpec(t, chain.sha256(wasm), spec.value);
      }
      r := Ok(OnLedger(chain.sha256(wasm)));
    }

    /** `cache clean`. */
    method CleanAll()
      modifies this
      ensures files == map[]
    {
      files := map[];
    }
  }

  lemma {:induction false} LookupIsExtraction(t: Tools, chain: Chain, files: Files, h: WasmHash)
    requires chain.Honest() && Coherent(t, chain, files)
    ensures forall wasm :: chain.sha256(wasm) == h && (LookupAnswer(t, chain, files, h).Ok? || chain.fetch(h).Some?) ==>
      LookupAnswer(t, chain, files, h) == SpecOf(t, wasm)
  {
    hide SpecOf, DecodeAll;
  }
}
