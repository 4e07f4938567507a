/** Whole runs of the transaction pipeline: new, op add, simulate, authorize, sign. */
module Pipeline {
  import opened Wrappers
  import opened Octets
  import opened ScValues
  import opened Transactions
  import opened Signing

  /** One command of the pipeline. `Invoke` authorizes and signs with the source key in one go. */
  datatype Step =
    | AddOperation(op: Operation)
    | Simulate(answer: Simulation)
    | Sign(signer: Signer)
    | Invoke(source: Key, signers: seq<Key>, expiration: u32)

  datatype World = World(crypto: Crypto, network: Text)

  function Simulated(env: Envelope, sim: Simulation): Res<Envelope> {
    var tx :- Unwrap(env);
    if sim.failed then Err(SimulationFailed)
    else var assembled :- Assembled(tx, sim); Ok(Unsigned(assembled))
  }

  /** Authorization entries are signed if the transaction needs it; the envelope then gets one signature. */
  function Invoked(w: World, env: Envelope, source: Key, signers: seq<Key>, expiration: u32): Res<Envelope> {
    var tx :- Unwrap(env);
    var authorized :- WithSignedAuth(SigningContext(w.crypto, source, signers, expiration, w.network), tx);
    WithSignature(w.crypto, Local(source), Unsigned(if authorized.Some? then authorized.value else tx), w.network)
  }

  function Take(w: World, env: Envelope, step: Step): Res<Envelope> {
    match step
    case AddOperation(op) => WithOperation(env, op)
    case Simulate(answer) => Simulated(env, answer)
    case Sign(signer) => WithSignature(w.crypto, signer, env, w.network)
    case Invoke(source, signers, expiration) => Invoked(w, env, source, signers, expiration)
  }

  /** The steps one after the other; a failing step ends the run. */
  function Run(w: World, start: Envelope, steps: seq<Step>): Res<Envelope> {
    if steps == [] then Ok(start)
    else
      var before :- Run(w, start, steps[..|steps| - 1]);
      Take(w, before, steps[|steps| - 1])
  }

  /** Simulating succeeds exactly on a V1 envelope, an answer without error and a transaction it can assemble; signatures are dropped. */
  lemma {:induction false} SimulateExactly(w: World, env: Envelope, answer: Simulation)
    ensures Take(w, env, Simulate(answer)).Ok? <==> env.Tx? && !answer.failed && Assemblable(env.tx, answer)
    ensures Take(w, env, Simulate(answer)).Ok? ==>
      var after := Take(w, env, Simulate(answer)).value;
      after.Tx? && IsAssembled(env.tx, answer, after.tx) && after.signatures == []
  {
    if env.Tx? { AssembledExactly(env.tx, answer); }
    hide Assembled, Assemblable, IsAssembled;
  }

  /** Invoking succeeds exactly on a V1 envelope whose entries, if any must be signed, can all be; one signature results. */
  lemma {:induction false} InvokeExactly(w: World, env: Envelope, source: Key, signers: seq<Key>, expiration: u32)
    requires w.crypto.Lawful()
    ensures var s := SigningContext(w.crypto, source, signers, expiration, w.network);
      Take(w, env, Invoke(source, signers, expiration)).Ok? <==>
        env.Tx? && (RequiresAuth(env.tx) ==>
          forall i :: 0 <= i < |env.tx.operations[0].body.auth| ==> Signable(s, env.tx.operations[0].body.auth[i]))
    ensures Take(w, env, Invoke(source, signers, expiration)).Ok? ==>
      var after := Take(w, env, Invoke(source, signers, expiration)).value;
      after.Tx? && |after.signatures| == 1 && (!RequiresAuth(env.tx) ==> after.tx == env.tx)
  {
    var s := SigningContext(w.crypto, source, signers, expiration, w.network);
    if env.Tx? && RequiresAuth(env.tx) { AuthorizationsAreSigned(s, env.tx); }
    hide SignEach, Signable, SignedFrom;
  }

  // ----- Signatures -----

  /** The keys that signed since the transaction last changed. */
  function Signers(steps: seq<Step>): seq<Key> {
    if steps == [] then []
    else
      match steps[|steps| - 1]
      case AddOperation(_) => []
      case Simulate(_) => []
      case Invoke(source, _, _) => [source]
      case Sign(signer) =>
        if KeyOfSigner(signer).Ok? then Signers(steps[..|steps| - 1]) + [KeyOfSigner(signer).value]
        else []
  }

  /** The signatures of the keys over a hash, in order. */
  function Signatures(crypto: Crypto, keys: seq<Key>, hash: Bytes32): (s: seq<DecoratedSignature>)
    ensures |s| == |keys| && forall i :: 0 <= i < |keys| ==> s[i] == Decorated(crypto, keys[i], hash)
  {
    seq(|keys|, i requires 0 <= i < |keys| => Decorated(crypto, keys[i], hash))
  }

  /**
   After any run from an unsigned transaction, the envelope's signatures are exactly those of the keys
   that signed since the last change, in order, and each verifies over the hash of the body as it now is.
   */
  lemma {:induction false} SignaturesCoverBody(w: World, tx: Transaction, steps: seq<Step>)
    requires w.crypto.Lawful() && Run(w, Unsigned(tx), steps).Ok?
    ensures var env := Run(w, Unsigned(tx), steps).value;
      && env.Tx?
      && var hash := w.crypto.transactionHash(env.tx, w.network);
      && env.signatures == Signatures(w.crypto, Signers(steps), hash)
      && |env.signatures| <= 20
      && forall i :: 0 <= i < |env.signatures| ==>
           && w.crypto.verify(w.crypto.publicKey(Signers(steps)[i]), hash, env.signatures[i].signature)
           && env.signatures[i].hint == w.crypto.publicKey(Signers(steps)[i])[28..]
  {
    if steps != [] {
      SignaturesCoverBody(w, tx, steps[..|steps| - 1]);
      hide WithSignedAuth, Assembled;
    }
  }

  // ----- The body -----

  /** Operations added by the run, in order. */
  function Added(steps: seq<Step>): seq<Operation> {
    if steps == [] then []
    else
      Added(steps[..|steps| - 1]) +
      (if steps[|steps| - 1].AddOperation? then [steps[|steps| - 1].op] else [])
  }

  /** The same operations in the same order, up to their authorization entries. */
  ghost predicate SameOperations(a: seq<Operation>, b: seq<Operation>) {
    |a| == |b| && forall i :: 0 <= i < |a| ==> SameButAuth(a[i], b[i])
  }

  /** What a run may do to a transaction: append the operations, fill in authorizations, raise the fee. */
  ghost predicate Conserved(before: Transaction, added: seq<Operation>, after: Transaction) {
    && after.source == before.source
    && after.seqNum == before.seqNum
    && after.cond == before.cond
    && after.memo == before.memo
    && before.fee <= after.fee
    && SameOperations(before.operations + added, after.operations)
  }

  lemma {:induction false} TakeConserves(w: World, before: Transaction, added: seq<Operation>, env: Envelope, step: Step)
    requires env.Tx? && Conserved(before, added, env.tx) && Take(w, env, step).Ok?
    requires |env.tx.operations| <= MAX_OPERATIONS
    ensures var now := added + (if step.AddOperation? then [step.op] else []);
            && Take(w, env, step).value.Tx?
            && Conserved(before, now, Take(w, env, step).value.tx)
            && |Take(w, env, step).value.tx.operations| <= MAX_OPERATIONS
  {
    match step
    case AddOperation(op) =>
      assert before.operations + (added + [op]) == (before.operations + added) + [op];
    case Simulate(answer) =>
      assert added + [] == added;
      AssembleConserves(env.tx, answer);
      SameOperationsThrough(before.operations + added, env.tx.operations, Assembled(env.tx, answer).value.operations);
    case Sign(_) => assert added + [] == added;
    case Invoke(source, signers, expiration) =>
      assert added + [] == added;
      var s := SigningContext(w.crypto, source, signers, expiration, w.network);
      AuthKeepsBody(s, env.tx);
      var authorized := WithSignedAuth(s, env.tx).value;
      if authorized.Some? { SameOperationsThrough(before.operations + added, env.tx.operations, authorized.value.operations); }
      hide WithSignedAuth;
  }

  lemma {:induction false} AuthKeepsBody(s: SigningContext, tx: Transaction)
    ensures WithSignedAuth(s, tx).Ok? && WithSignedAuth(s, tx).value.Some? ==>
      var signed := WithSignedAuth(s, tx).value.value;
      signed == tx.(operations := signed.operations) && SameOperations(tx.operations, signed.operations)
  {
    hide SignEach;
  }

  lemma {:induction false} SameOperationsThrough(a: seq<Operation>, b: seq<Operation>, c: seq<Operation>)
    requires SameOperations(a, b) && SameOperations(b, c)
    ensures SameOperations(a, c)
  {
    forall i | 0 <= i < |a| ensures SameButAuth(a[i], c[i]) { assert SameButAuth(a[i], b[i]) && SameButAuth(b[i], c[i]); }
  }

  /**
   Over any run, source, sequence number, memo and preconditions never change, the fee never falls, and
   the operations are the first one followed by those added, in order, at most 100 in all.
   */
  lemma {:induction false} BodyConserved(w: World, tx: Transaction, steps: seq<Step>)
    requires |tx.operations| <= MAX_OPERATIONS && Run(w, Unsigned(tx), steps).Ok?
    ensures var env := Run(w, Unsigned(tx), steps).value;
      && env.Tx?
      && Conserved(tx, Added(steps), env.tx)
      && |env.tx.operations| == |tx.operations| + |Added(steps)| <= 100
  {
    if steps == [] {
      assert tx.operations + [] == tx.operations;
    } else {
      var front := steps[..|steps| - 1];
      BodyConserved(w, tx, front);
      TakeConserves(w, tx, Added(front), Run(w, Unsigned(tx), front).value, steps[|steps| - 1]);
      hide Take;
    }
  }

  /**
   So after any run from a new transaction, its source and sequence number are those given, it has no memo
   and no preconditions, at least the given fee, and the first operation followed by those added.
   */
  lemma {:induction false} FreshRun(w: World, source: Opaque, fee: u32, seqNum: i64, op: Operation, steps: seq<Step>)
    requires Run(w, Unsigned(NewTx(source, fee, seqNum, op)), steps).Ok?
    ensures var env := Run(w, Unsigned(NewTx(source, fee, seqNum, op)), steps).value;
      && env.Tx?
      && env.tx.source == source && env.tx.seqNum == seqNum && env.tx.memo == NoMemo && env.tx.cond == NoPreconditions
      && fee <= env.tx.fee
      && SameOperations([op] + Added(steps), env.tx.operations)
      && 1 <= |env.tx.operations| <= 100
  {
    BodyConserved(w, NewTx(source, fee, seqNum, op), steps);
    hide Run;
  }

  // ----- Authorizations over whole runs -----

  /** What the last `Invoke` that found authorizations to sign was given, if there was one. */
  function LastSigning(w: World, tx: Transaction, steps: seq<Step>): Option<SigningContext> {
    if steps == [] then None
    else
      var front, step := steps[..|steps| - 1], steps[|steps| - 1];
      var before := Run(w, Unsigned(tx), front);
      if step.Invoke? && before.Ok? && before.value.Tx? && RequiresAuth(before.value.tx) then
        Some(SigningContext(w.crypto, step.source, step.signers, step.expiration, w.network))
      else LastSigning(w, tx, front)
  }

  /** An entry that needs a signature carries a valid one of the context, for its expiration. */
  ghost predicate Signed(s: SigningContext, e: AuthEntry) {
    e.credentials.AddressCredentials? ==>
      e.credentials.address.Account? && e.credentials.expiration == s.expiration && CarriesSignature(s, e)
  }

  ghost predicate AllSigned(s: SigningContext, tx: Transaction) {
    && tx.operations != [] && tx.operations[0].body.InvokeHostFunction? && tx.operations[0].body.auth != []
    && forall i :: 0 <= i < |tx.operations[0].body.auth| ==> Signed(s, tx.operations[0].body.auth[i])
  }

  lemma {:induction false} InvokeSigns(w: World, env: Envelope, step: Step)
    requires w.crypto.Lawful() && env.Tx? && RequiresAuth(env.tx) && step.Invoke? && Take(w, env, step).Ok?
    ensures var s := SigningContext(w.crypto, step.source, step.signers, step.expiration, w.network);
            Take(w, env, step).value.Tx? && AllSigned(s, Take(w, env, step).value.tx)
  {
    var s := SigningContext(w.crypto, step.source, step.signers, step.expiration, w.network);
    AuthorizationsAreSigned(s, env.tx);
    var raw, tx := env.tx, WithSignedAuth(s, env.tx).value.value;
    hide CarriesSignature, WithSignedAuth, Crypto.Lawful;
    forall i | 0 <= i < |tx.operations[0].body.auth| ensures Signed(s, tx.operations[0].body.auth[i]) {
      assert SignedFrom(s, raw.operations[0].body.auth[i], tx.operations[0].body.auth[i]);
    }
  }

  lemma {:induction false} TakeKeepsFirst(w: World, env: Envelope, step: Step)
    requires env.Tx? && Take(w, env, step).Ok? && !(step.Invoke? && RequiresAuth(env.tx))
    requires env.tx.operations != [] && env.tx.operations[0].body.InvokeHostFunction? && env.tx.operations[0].body.auth != []
    ensures var after := Take(w, env, step).value;
            after.Tx? && after.tx.operations != [] && after.tx.operations[0] == env.tx.operations[0]
  {
    hide RequiresAuth;
  }

  /**
   Over any run, once an `Invoke` has signed authorizations, every entry keeps a signature that is valid
   for the last such `Invoke`: adding operations, simulating and signing leave the entries as they are.
   */
  lemma {:induction false} AuthorizationsStaySigned(w: World, tx: Transaction, steps: seq<Step>)
    requires w.crypto.Lawful() && Run(w, Unsigned(tx), steps).Ok? && LastSigning(w, tx, steps).Some?
    ensures var env := Run(w, Unsigned(tx), steps).value;
            env.Tx? && AllSigned(LastSigning(w, tx, steps).value, env.tx)
  {
    var front, step := steps[..|steps| - 1], steps[|steps| - 1];
    var env := Run(w, Unsigned(tx), front).value;
    SignaturesCoverBody(w, tx, front);
    hide Take, RequiresAuth, Signed, Signatures, Signers;
    if step.Invoke? && RequiresAuth(env.tx) {
      InvokeSigns(w, env, step);
    } else {
      AuthorizationsStaySigned(w, tx, front);
      TakeKeepsFirst(w, env, step);
    }
  }

  /** The entries of the transaction's only host-function call, if that is what it holds. */
  function Auths(tx: Transaction): seq<AuthEntry> {
    if |tx.operations| == 1 && tx.operations[0].body.InvokeHostFunction? then tx.operations[0].body.auth else []
  }

  /** Entries that authorize the same invocations for the same credentials' owners and nonces. */
  ghost predicate SameAuthorizations(a: seq<AuthEntry>, b: seq<AuthEntry>) {
    |a| == |b| && forall i :: 0 <= i < |a| ==>
      && a[i].invocation == b[i].invocation
      && (a[i].credentials.SourceAccount? <==> b[i].credentials.SourceAccount?)
      && (a[i].credentials.AddressCredentials? && b[i].credentials.AddressCredentials? ==>
            a[i].credentials.address == b[i].credentials.address && a[i].credentials.nonce == b[i].credentials.nonce)
  }

  lemma {:induction false} TakeKeepsAuths(w: World, env: Envelope, step: Step)
    requires w.crypto.Lawful() && env.Tx? && |env.tx.operations| == 1 && Auths(env.tx) != []
    requires !step.AddOperation? && Take(w, env, step).Ok?
    ensures var after := Take(w, env, step).value;
            after.Tx? && |after.tx.operations| == 1 && SameAuthorizations(Auths(env.tx), Auths(after.tx))
  {
    match step
    case Simulate(answer) =>
    case Sign(_) =>
    case Invoke(source, signers, expiration) =>
      var s := SigningContext(w.crypto, source, signers, expiration, w.network);
      if RequiresAuth(env.tx) {
        AuthorizationsAreSigned(s, env.tx);
        var tx := WithSignedAuth(s, env.tx).value.value;
        forall i | 0 <= i < |Auths(env.tx)|
          ensures Auths(tx)[i].invocation == Auths(env.tx)[i].invocation
          ensures Auths(env.tx)[i].credentials.SourceAccount? <==> Auths(tx)[i].credentials.SourceAccount?
          ensures Auths(env.tx)[i].credentials.AddressCredentials? ==>
            Auths(env.tx)[i].credentials.address == Auths(tx)[i].credentials.address
            && Auths(env.tx)[i].credentials.nonce == Auths(tx)[i].credentials.nonce
        {
          assert SignedFrom(s, Auths(env.tx)[i], Auths(tx)[i]);
        }
        hide WithSignedAuth, SignedFrom;
      } else {
        assert WithSignedAuth(s, env.tx) == Ok(None);
      }
  }

  /**
   Once a one-operation transaction has authorization entries, no later simulation, authorization or
   signature changes what they authorize, for whom, or under which nonce; and from the first `Invoke` that
   signs them on, each carries a valid signature of the last such `Invoke`.
   */
  lemma {:induction false} AuthorizationsSettle(w: World, tx: Transaction, steps: seq<Step>)
    requires w.crypto.Lawful() && |tx.operations| == 1 && Auths(tx) != []
    requires Added(steps) == [] && Run(w, Unsigned(tx), steps).Ok?
    ensures var env := Run(w, Unsigned(tx), steps).value;
            env.Tx? && |env.tx.operations| == 1 && SameAuthorizations(Auths(tx), Auths(env.tx))
    ensures LastSigning(w, tx, steps).Some? ==> AllSigned(LastSigning(w, tx, steps).value, Run(w, Unsigned(tx), steps).value.tx)
  {
    hide LastSigning, AllSigned;
    if LastSigning(w, tx, steps).Some? { AuthorizationsStaySigned(w, tx, steps); }
    if steps != [] {
      var front := steps[..|steps| - 1];
      assert !steps[|steps| - 1].AddOperation? && Added(front) == [];
      AuthorizationsSettle(w, tx, front);
      var env := Run(w, Unsigned(tx), front).value;
      TakeKeepsAuths(w, env, steps[|steps| - 1]);
      hide Take;
      SameAuthorizationsThrough(Auths(tx), Auths(env.tx), Auths(Run(w, Unsigned(tx), steps).value.tx));
    }
  }

  lemma {:induction false} SameAuthorizationsThrough(a: seq<AuthEntry>, b: seq<AuthEntry>, c: seq<AuthEntry>)
    requires SameAuthorizations(a, b) && SameAuthorizations(b, c)
    ensures SameAuthorizations(a, c)
  {
    forall i | 0 <= i < |a| ensures a[i].invocation == c[i].invocation { assert a[i].invocation == b[i].invocation; }
  }
}
