/** Signing authorization entries and envelopes. */
module Signing {
  import opened Wrappers
  import opened Octets
  import opened OrderedMap
  import opened ScValues
  import opened Transactions

  /** An ed25519 signing key. */
  datatype Key = Key(seed: Bytes32)

  /** Hashing and ed25519, as functions. */
  datatype Crypto = Crypto(
    publicKey: Key -> Bytes32,
    sign: (Key, Bytes32) -> seq<byte>,
    verify: (Bytes32, Bytes32, seq<byte>) -> bool,
    transactionHash: (Transaction, Text) -> Bytes32,
    networkId: Text -> Bytes32,
    authPayload: (Bytes32, Invocation, i64, u32) -> Bytes32)
  {
    ghost predicate Lawful() {
      forall k, m :: verify(publicKey(k), m, sign(k, m))
    }
  }

  // ----- Authorization entries -----

  /** "public_key" and "signature" */
  const PUBLIC_KEY: Text := [112, 117, 98, 108, 105, 99, 95, 107, 101, 121]
  const SIGNATURE: Text := [115, 105, 103, 110, 97, 116, 117, 114, 101]

  lemma {:induction false} SignatureKeys()
    ensures PUBLIC_KEY == Spell("public_key") && SIGNATURE == Spell("signature")
  {
    assert Spell("public_key") == [112, 117, 98, 108, 105, 99, 95, 107, 101, 121];
    assert Spell("signature") == [115, 105, 103, 110, 97, 116, 117, 114, 101];
  }

  /** The contract value that carries an ed25519 signature: a vector of one sorted map. */
  function SignatureValue(publicKey: Bytes32, signature: seq<byte>): ScVal {
    match SortedFrom(Less, [Pair(Symbol(PUBLIC_KEY), Bytes(publicKey)), Pair(Symbol(SIGNATURE), Bytes(signature))])
    case Some(sorted) => Vec([Map(sorted)])
    case None => Void
  }

  lemma {:induction false} SignatureValueIs(publicKey: Bytes32, signature: seq<byte>)
    ensures SignatureValue(publicKey, signature) ==
      Vec([Map([Pair(Symbol(PUBLIC_KEY), Bytes(publicKey)), Pair(Symbol(SIGNATURE), Bytes(signature))])])
    ensures PUBLIC_KEY == Spell("public_key") && SIGNATURE == Spell("signature")
  {
    SignatureKeys();
    var es: seq<ScMapEntry> := [Pair(Symbol(PUBLIC_KEY), Bytes(publicKey)), Pair(Symbol(SIGNATURE), Bytes(signature))];
    assert TextLess(PUBLIC_KEY, SIGNATURE);
    SymbolOrder(PUBLIC_KEY, SIGNATURE);
    LessIsStrictOrder();
    hide Less;
    assert Ascending(Less, es);
    SortedFromRecovers(Less, es, es);
  }

  /** `sign_soroban_authorization_entry`. */
  function SignEntry(crypto: Crypto, raw: AuthEntry, signer: Key, expiration: u32, networkId: Bytes32): AuthEntry {
    match raw.credentials
    case SourceAccount => raw
    case AddressCredentials(address, nonce, _, _) =>
      var payload := crypto.authPayload(networkId, raw.invocation, nonce, expiration);
      var signature := SignatureValue(crypto.publicKey(signer), crypto.sign(signer, payload));
      raw.(credentials := AddressCredentials(address, nonce, expiration, signature))
  }

  /** The first of the signers whose public key it is, else the source key if it is that one's. */
  function FindSigner(crypto: Crypto, signers: seq<Key>, source: Key, needle: Bytes32): (r: Option<Key>)
    ensures r.Some? ==> crypto.publicKey(r.value) == needle
    ensures r.None? ==> crypto.publicKey(source) != needle && forall k :: k in signers ==> crypto.publicKey(k) != needle
  {
    if signers == [] then (if crypto.publicKey(source) == needle then Some(source) else None)
    else if crypto.publicKey(signers[0]) == needle then Some(signers[0])
    else FindSigner(crypto, signers[1..], source, needle)
  }

  datatype SigningContext = SigningContext(crypto: Crypto, source: Key, signers: seq<Key>, expiration: u32, network: Text)

  function SignOne(s: SigningContext, entry: AuthEntry): Res<AuthEntry> {
    match entry.credentials
    case SourceAccount => Ok(entry)
    case AddressCredentials(Contract(_), _, _, _) => Err(MissingSigner)
    case AddressCredentials(Account(needle), _, _, _) =>
      match FindSigner(s.crypto, s.signers, s.source, needle)
      case None => Err(MissingSigner)
      case Some(key) => Ok(SignEntry(s.crypto, entry, key, s.expiration, s.crypto.networkId(s.network)))
  }

  function SignEach(s: SigningContext, entries: seq<AuthEntry>): Res<seq<AuthEntry>> {
    if entries == [] then Ok([])
    else
      var e :- SignOne(s, entries[0]);
      var rest :- SignEach(s, entries[1..]);
      Ok([e] + rest)
  }

  /** `requires_auth`: one host-function operation whose first entry authorizes a contract call. */
  predicate RequiresAuth(tx: Transaction) {
    && |tx.operations| == 1
    && tx.operations[0].body.InvokeHostFunction?
    && tx.operations[0].body.auth != []
    && tx.operations[0].body.auth[0].invocation.function_.ContractFn?
  }

  function WithSignedAuth(s: SigningContext, raw: Transaction): Res<Option<Transaction>> {
    if !RequiresAuth(raw) then Ok(None)
    else
      var auth :- SignEach(s, raw.operations[0].body.auth);
      Ok(Some(raw.(operations := [WithAuth(raw.operations[0], auth)])))
  }

  /** `sign_soroban_authorizations`. */
  method SignAuthorizations(s: SigningContext, raw: Transaction) returns (r: Res<Option<Transaction>>)
    ensures r == WithSignedAuth(s, raw)
    ensures r == Ok(None) <==>
      || |raw.operations| != 1
      || !raw.operations[0].body.InvokeHostFunction?
      || |raw.operations[0].body.auth| == 0
      || !raw.operations[0].body.auth[0].invocation.function_.ContractFn?
  {
    var tx := raw;
    if !RequiresAuth(tx) {
      return Ok(None);
    }
    var op := tx.operations[0];
    var auths: seq<AuthEntry> := [];
    for i := 0 to |op.body.auth|
      invariant SignEach(s, op.body.auth[..i]) == Ok(auths)
    {
      var signed := SignOne(s, op.body.auth[i]);
      if signed.Err? {
        SignEachFails(s, op.body.auth, i);
        return Err(signed.error);
      }
      SignEachSnoc(s, op.body.auth, i);
      auths := auths + [signed.value];
    }
    assert op.body.auth[..|op.body.auth|] == op.body.auth;
    op := op.(body := op.body.(auth := auths));
    tx := tx.(operations := [op]);
    r := Ok(Some(tx));
  }

  lemma {:induction false} SignEachSnoc(s: SigningContext, entries: seq<AuthEntry>, i: nat)
    requires i < |entries| && SignEach(s, entries[..i]).Ok? && SignOne(s, entries[i]).Ok?
    ensures SignEach(s, entries[..i + 1]) == Ok(SignEach(s, entries[..i]).value + [SignOne(s, entries[i]).value])
  {
    hide SignOne;
    if i == 0 {
      assert entries[..1] == [entries[0]] && entries[..1][1..] == [] == entries[..0];
      assert [SignOne(s, entries[0]).value] + [] == [] + [SignOne(s, entries[0]).value];
    } else {
      assert entries[..i][1..] == entries[1..][..i - 1] && entries[..i + 1][1..] == entries[1..][..i];
      SignEachSnoc(s, entries[1..], i - 1);
      var h, rest, x := SignOne(s, entries[0]).value, SignEach(s, entries[1..][..i - 1]).value, SignOne(s, entries[i]).value;
      assert ([h] + rest) + [x] == [h] + (rest + [x]);
    }
  }

  lemma {:induction false} SignEachFails(s: SigningContext, entries: seq<AuthEntry>, i: nat)
    requires i < |entries| && SignEach(s, entries[..i]).Ok? && SignOne(s, entries[i]).Err?
    ensures SignEach(s, entries) == Err(SignOne(s, entries[i]).error)
  {
    hide SignOne;
    if i > 0 {
      assert entries[..i][1..] == entries[1..][..i - 1];
      SignEachFails(s, entries[1..], i - 1);
    }
  }

  /** Whether an entry can be signed: it needs no signature, or its account's key is at hand. */
  ghost predicate Signable(s: SigningContext, entry: AuthEntry) {
    entry.credentials.AddressCredentials? ==>
      && entry.credentials.address.Account?
      && (s.crypto.publicKey(s.source) == entry.credentials.address.key
          || exists k :: k in s.signers && s.crypto.publicKey(k) == entry.credentials.address.key)
  }

  /**
   What signing makes of an entry: the invocation, address and nonce stay, the expiration is the given
   one, and the signature value holds a signature that verifies under the key the address is.
   */
  ghost predicate SignedFrom(s: SigningContext, raw: AuthEntry, signed: AuthEntry) {
    && signed.invocation == raw.invocation
    && (raw.credentials.SourceAccount? ==> signed == raw)
    && (raw.credentials.AddressCredentials? ==>
          && signed.credentials.AddressCredentials?
          && signed.credentials.address == raw.credentials.address
          && signed.credentials.address.Account?
          && signed.credentials.nonce == raw.credentials.nonce
          && signed.credentials.expiration == s.expiration
          && CarriesSignature(s, signed))
  }

  ghost predicate CarriesSignature(s: SigningContext, e: AuthEntry)
    requires e.credentials.AddressCredentials? && e.credentials.address.Account?
  {
    var key := e.credentials.address.key;
    var payload := s.crypto.authPayload(s.crypto.networkId(s.network), e.invocation, e.credentials.nonce, e.credentials.expiration);
    exists sig ::
      && s.crypto.verify(key, payload, sig)
      && e.credentials.signature == Vec([Map([Pair(Symbol(PUBLIC_KEY), Bytes(key)), Pair(Symbol(SIGNATURE), Bytes(sig))])])
  }

  lemma {:induction false} SignOneSpec(s: SigningContext, raw: AuthEntry)
    requires s.crypto.Lawful()
    ensures SignOne(s, raw).Ok? <==> Signable(s, raw)
    ensures SignOne(s, raw).Ok? ==> SignedFrom(s, raw, SignOne(s, raw).value) && SignOne(s, SignOne(s, raw).value) == SignOne(s, raw)
  {
    hide SignatureValue;
    if SignOne(s, raw).Ok? && raw.credentials.AddressCredentials? {
      var c := raw.credentials;
      var key := FindSigner(s.crypto, s.signers, s.source, c.address.key).value;
      var payload := s.crypto.authPayload(s.crypto.networkId(s.network), raw.invocation, c.nonce, s.expiration);
      SignatureValueIs(s.crypto.publicKey(key), s.crypto.sign(key, payload));
      assert s.crypto.verify(c.address.key, payload, s.crypto.sign(key, payload));
      assert CarriesSignature(s, SignOne(s, raw).value);
      var i := SignerIsFirst(s.crypto, s.signers, s.source, c.address.key);
    }
  }

  /** The key found is that of the first signer with the address; the source key is tried last. */
  lemma {:induction false} SignerIsFirst(crypto: Crypto, signers: seq<Key>, source: Key, needle: Bytes32) returns (i: nat)
    ensures i <= |signers| && forall j :: 0 <= j < i ==> crypto.publicKey(signers[j]) != needle
    ensures i < |signers| ==> crypto.publicKey(signers[i]) == needle && FindSigner(crypto, signers, source, needle) == Some(signers[i])
    ensures i == |signers| ==>
      FindSigner(crypto, signers, source, needle) == if crypto.publicKey(source) == needle then Some(source) else None
  {
    i := 0;
    if signers != [] && crypto.publicKey(signers[0]) != needle {
      var k := SignerIsFirst(crypto, signers[1..], source, needle);
      i := k + 1;
    }
  }

  lemma {:induction false} SignEachSpec(s: SigningContext, raw: seq<AuthEntry>)
    requires s.crypto.Lawful()
    ensures SignEach(s, raw).Ok? <==> forall i :: 0 <= i < |raw| ==> Signable(s, raw[i])
    ensures SignEach(s, raw).Ok? ==>
      var signed := SignEach(s, raw).value;
      && |signed| == |raw|
      && (forall i :: 0 <= i < |raw| ==> SignedFrom(s, raw[i], signed[i]))
      && SignEach(s, signed) == Ok(signed)
  {
    hide SignOne, Signable, SignedFrom;
    if raw != [] {
      assert forall i :: 0 <= i < |raw[1..]| ==> raw[1..][i] == raw[i + 1];
      SignOneSpec(s, raw[0]);
      SignEachSpec(s, raw[1..]);
      if SignEach(s, raw).Ok? {
        var signed := SignEach(s, raw).value;
        assert signed[1..] == SignEach(s, raw[1..]).value;
        assert signed == [signed[0]] + signed[1..];
        forall i | 0 <= i < |raw| ensures SignedFrom(s, raw[i], signed[i]) && Signable(s, raw[i]) {
          if i > 0 { assert raw[i] == raw[1..][i - 1] && signed[i] == signed[1..][i - 1]; }
        }
      }
    }
  }

  /**
   Signing the authorizations of a transaction that needs them: it succeeds exactly when every entry
   can be signed; the result differs only in the entries' credentials, keeps their number and order,
   and signing it again changes nothing.
   */
  lemma {:induction false} AuthorizationsAreSigned(s: SigningContext, raw: Transaction)
    requires s.crypto.Lawful() && RequiresAuth(raw)
    ensures WithSignedAuth(s, raw).Ok? <==> forall i :: 0 <= i < |raw.operations[0].body.auth| ==> Signable(s, raw.operations[0].body.auth[i])
    ensures WithSignedAuth(s, raw).Ok? ==>
      && WithSignedAuth(s, raw).value.Some?
      && var tx := WithSignedAuth(s, raw).value.value;
      && RequiresAuth(tx)
      && tx == raw.(operations := tx.operations)
      && SameButAuth(raw.operations[0], tx.operations[0])
      && |tx.operations[0].body.auth| == |raw.operations[0].body.auth|
      && (forall i :: 0 <= i < |raw.operations[0].body.auth| ==>
            SignedFrom(s, raw.operations[0].body.auth[i], tx.operations[0].body.auth[i]))
      && WithSignedAuth(s, tx) == WithSignedAuth(s, raw)
  {
    hide SignEach, Signable, CarriesSignature;
    SignEachSpec(s, raw.operations[0].body.auth);
    if WithSignedAuth(s, raw).Ok? {
      var tx := WithSignedAuth(s, raw).value.value;
      assert SignedFrom(s, raw.operations[0].body.auth[0], tx.operations[0].body.auth[0]);
    }
  }

  // ----- Envelopes -----

  datatype Signer =
    | Local(key: Key)
    | Lab
    | SecureStore(stored: Option<Key>)  // a keyring entry, or none if the keyring refuses

  function KeyOfSigner(signer: Signer): Res<Key> {
    match signer
    case Local(key) => Ok(key)
    case Lab => Err(ReturningSignatureFromLab)
    case SecureStore(Some(key)) => Ok(key)
    case SecureStore(None) => Err(Keyring)
  }

  /** `sign_tx_hash`: the hint is the last four bytes of the public key. */
  function Decorated(crypto: Crypto, key: Key, hash: Bytes32): DecoratedSignature {
    DecoratedSignature(crypto.publicKey(key)[28..], crypto.sign(key, hash))
  }

  function WithSignature(crypto: Crypto, signer: Signer, env: Envelope, network: Text): Res<Envelope> {
    if !env.Tx? then Err(UnsupportedEnvelope)
    else
      var key :- KeyOfSigner(signer);
      if |env.signatures| >= MAX_SIGNATURES then Err(InvalidXdr)
      else Ok(env.(signatures := env.signatures + [Decorated(crypto, key, crypto.transactionHash(env.tx, network))]))
  }

  /** `sign_tx_env`: appends one signature over the hash of the transaction and keeps the others. */
  method SignTxEnv(crypto: Crypto, signer: Signer, env: Envelope, network: Text) returns (r: Res<Envelope>)
    ensures r == WithSignature(crypto, signer, env, network)
    ensures r.Ok? <==> env.Tx? && |env.signatures| < 20 && (signer.Local? || (signer.SecureStore? && signer.stored.Some?))
    ensures r.Ok? ==> r.value.tx == env.tx && env.signatures < r.value.signatures && |r.value.signatures| == |env.signatures| + 1
    ensures r.Ok? ==>
      var key := if signer.Local? then signer.key else signer.stored.value;
      r.value.signatures[|env.signatures|].signature == crypto.sign(key, crypto.transactionHash(env.tx, network))
  {
    if !env.Tx? {
      return Err(UnsupportedEnvelope);
    }
    var hash := crypto.transactionHash(env.tx, network);
    var key := KeyOfSigner(signer);
    if key.Err? {
      return Err(key.error);
    }
    var sigs := env.signatures;
    sigs := sigs + [Decorated(crypto, key.value, hash)];
    if |sigs| > MAX_SIGNATURES {
      return Err(InvalidXdr);
    }
    r := Ok(Tx(env.tx, sigs));
  }
}
