/** Transactions, their envelopes, and the operations of the CLI on them. */
module Transactions {
  import opened Wrappers
  import opened Octets
  import opened ScValues

  datatype AuthorizedFunction = ContractFn(call: Opaque) | CreateContractFn(args: Opaque)

  datatype Invocation = Invocation(function_: AuthorizedFunction, subs: Opaque)

  datatype Credentials =
    | SourceAccount
    | AddressCredentials(address: ScAddress, nonce: i64, expiration: u32, signature: ScVal)

  datatype AuthEntry = AuthEntry(credentials: Credentials, invocation: Invocation)

  datatype Body =
    | InvokeHostFunction(hostFunction: Opaque, auth: seq<AuthEntry>)
    | RestoreFootprint
    | OtherBody(xdr: Opaque)

  datatype Operation = Operation(source: Option<Opaque>, body: Body)

  datatype Preconditions = NoPreconditions | Preconditions(xdr: Opaque)
  datatype Memo = NoMemo | Memo(xdr: Opaque)
  datatype Ext = V0 | V1(sorobanData: Opaque)

  datatype Transaction = Transaction(
    source: Opaque, fee: u32, seqNum: i64, cond: Preconditions, memo: Memo, operations: seq<Operation>, ext: Ext)

  datatype DecoratedSignature = DecoratedSignature(hint: seq<byte>, signature: seq<byte>)

  datatype Envelope =
    | TxV0(xdr: Opaque)
    | Tx(tx: Transaction, signatures: seq<DecoratedSignature>)
    | FeeBump(xdr: Opaque)

  datatype Error =
    | OnlyTransactionV1Supported | TooManyOperations
    | SimulationFailed | UnexpectedOperationCount | UnexpectedResultSize | InvalidXdr | LargeFee(fee: nat)
    | UnsupportedEnvelope | ReturningSignatureFromLab | Keyring | MissingSigner

  type Res<+T> = Result<T, Error>

  const MAX_OPERATIONS: nat := 100
  const MAX_SIGNATURES: nat := 20
  const INCLUSION_FEE: nat := 100

  /** What the RPC server answers: fields that are XDR text may fail to decode. */
  datatype Simulation = Simulation(
    failed: bool, transactionData: Option<Opaque>, results: seq<seq<Option<AuthEntry>>>, minResourceFee: u64)

  /** `new_tx`. */
  function NewTx(source: Opaque, fee: u32, seqNum: i64, op: Operation): Transaction {
    Transaction(source, fee, seqNum, NoPreconditions, NoMemo, [op], V0)
  }

  /** `From<Transaction> for TransactionEnvelope`: no signature. */
  function Unsigned(tx: Transaction): Envelope { Tx(tx, []) }

  /** `unwrap_envelope_v1`. */
  function Unwrap(env: Envelope): Res<Transaction> {
    if env.Tx? then Ok(env.tx) else Err(OnlyTransactionV1Supported)
  }

  function WithOperation(env: Envelope, op: Operation): Res<Envelope> {
    var tx :- Unwrap(env);
    if |tx.operations| >= MAX_OPERATIONS then Err(TooManyOperations)
    else Ok(Unsigned(tx.(operations := tx.operations + [op])))
  }

  /** `add_op`: the extended transaction in an envelope without signatures. */
  method AddOp(env: Envelope, op: Operation) returns (r: Res<Envelope>)
    ensures r == WithOperation(env, op)
    ensures r.Ok? <==> env.Tx? && |env.tx.operations| < 100
    ensures r.Ok? ==> r.value == Tx(env.tx.(operations := env.tx.operations + [op]), [])
  {
    if !env.Tx? {
      return Err(OnlyTransactionV1Supported);
    }
    var tx := env.tx;
    var ops := tx.operations;
    ops := ops + [op];
    if |ops| > MAX_OPERATIONS {
      return Err(TooManyOperations);
    }
    tx := tx.(operations := ops);
    r := Ok(Unsigned(tx));
  }

  /** All entries decoded, or the failure of one of them. */
  function DecodeAuths(auths: seq<Option<AuthEntry>>): Res<seq<AuthEntry>> {
    if auths == [] then Ok([])
    else
      match auths[0]
      case None => Err(InvalidXdr)
      case Some(a) => var rest :- DecodeAuths(auths[1..]); Ok([a] + rest)
  }

  function WithAuth(op: Operation, auth: seq<AuthEntry>): Operation
    requires op.body.InvokeHostFunction?
  {
    op.(body := op.body.(auth := auth))
  }

  /** The operation with the simulated authorizations, if it invokes a host function and has none. */
  function Authorized(op: Operation, sim: Simulation): Res<Operation> {
    if op.body.InvokeHostFunction? && op.body.auth == [] then
      if |sim.results| != 1 then Err(UnexpectedResultSize)
      else var auths :- DecodeAuths(sim.results[0]); Ok(WithAuth(op, auths))
    else Ok(op)
  }

  /** The fee asked for, added in 64 bits with wrap-around. */
  function RequiredFee(sim: Simulation): (fee: u64) { (INCLUSION_FEE + sim.minResourceFee) % BASE64 }

  function Assembled(raw: Transaction, sim: Simulation): Res<Transaction> {
    if |raw.operations| != 1 then Err(UnexpectedOperationCount)
    else if sim.transactionData.None? then Err(InvalidXdr)
    else
      var op :- Authorized(raw.operations[0], sim);
      var fee := RequiredFee(sim);
      if fee > U32_MAX then Err(LargeFee(fee))
      else Ok(raw.(fee := if fee > raw.fee then fee else raw.fee, operations := [op], ext := V1(sim.transactionData.value)))
  }

  /** A host-function call without authorizations takes those of the simulation. */
  predicate NeedsAuth(op: Operation) { op.body.InvokeHostFunction? && op.body.auth == [] }

  /** What assembling needs: one operation, transaction data, all authorizations if they are needed, a fee of 32 bits. */
  ghost predicate Assemblable(raw: Transaction, sim: Simulation) {
    && |raw.operations| == 1
    && sim.transactionData.Some?
    && (NeedsAuth(raw.operations[0]) ==> |sim.results| == 1 && forall i :: 0 <= i < |sim.results[0]| ==> sim.results[0][i].Some?)
    && (100 + sim.minResourceFee) % 0x1_0000_0000_0000_0000 <= 0xFFFF_FFFF
  }

  /** What assembling yields: the simulated data, the larger fee, and authorizations where none were given. */
  ghost predicate IsAssembled(raw: Transaction, sim: Simulation, tx: Transaction)
    requires Assemblable(raw, sim)
  {
    var fee := (100 + sim.minResourceFee) % 0x1_0000_0000_0000_0000;
    && tx == raw.(fee := if fee > raw.fee then fee else raw.fee, operations := tx.operations, ext := V1(sim.transactionData.value))
    && (!NeedsAuth(raw.operations[0]) ==> tx.operations == raw.operations)
    && (NeedsAuth(raw.operations[0]) ==>
          && |tx.operations| == 1
          && tx.operations[0].source == raw.operations[0].source
          && tx.operations[0].body.InvokeHostFunction?
          && tx.operations[0].body.hostFunction == raw.operations[0].body.hostFunction
          && |tx.operations[0].body.auth| == |sim.results[0]|
          && forall i :: 0 <= i < |sim.results[0]| ==> tx.operations[0].body.auth[i] == sim.results[0][i].value)
  }

  lemma {:induction false} AuthsDecode(auths: seq<Option<AuthEntry>>)
    ensures DecodeAuths(auths).Ok? <==> forall i :: 0 <= i < |auths| ==> auths[i].Some?
    ensures DecodeAuths(auths).Ok? ==>
      && |DecodeAuths(auths).value| == |auths|
      && forall i :: 0 <= i < |auths| ==> Some(DecodeAuths(auths).value[i]) == auths[i]
  {
    if auths != [] {
      var rest := auths[1..];
      AuthsDecode(rest);
      assert forall i :: 1 <= i < |auths| ==> auths[i] == rest[i - 1];
      assert forall i :: 0 <= i < |rest| ==> rest[i] == auths[i + 1];
      if DecodeAuths(auths).Ok? { assert DecodeAuths(auths).value == [auths[0].value] + DecodeAuths(rest).value; }
    }
  }

  /** Assembling succeeds exactly when it has what it needs, and yields exactly that transaction. */
  lemma {:induction false} AssembledExactly(raw: Transaction, sim: Simulation)
    ensures Assembled(raw, sim).Ok? <==> Assemblable(raw, sim)
    ensures Assembled(raw, sim).Ok? ==> IsAssembled(raw, sim, Assembled(raw, sim).value)
  {
    if |sim.results| == 1 { AuthsDecode(sim.results[0]); }
    hide DecodeAuths;
  }

  /** `assemble`. */
  method Assemble(raw: Transaction, sim: Simulation) returns (r: Res<Transaction>)
    ensures r == Assembled(raw, sim)
    ensures r.Ok? <==> Assemblable(raw, sim)
    ensures r.Ok? ==> IsAssembled(raw, sim, r.value)
  {
    AssembledExactly(raw, sim);
    hide Assemblable, IsAssembled;
    var tx := raw;
    if |tx.operations| != 1 {
      return Err(UnexpectedOperationCount);
    }
    if sim.transactionData.None? {
      return Err(InvalidXdr);
    }
    var op := tx.operations[0];
    if op.body.InvokeHostFunction? {
      if op.body.auth == [] {
        if |sim.results| != 1 {
          return Err(UnexpectedResultSize);
        }
        var auths := DecodeAuths(sim.results[0]);
        if auths.Err? {
          return Err(auths.error);
        }
        op := op.(body := op.body.(auth := auths.value));
      }
    }
    var fee := RequiredFee(sim);
    if fee > U32_MAX {
      return Err(LargeFee(fee));
    }
    tx := tx.(fee := if fee > tx.fee then fee else tx.fee);
    tx := tx.(operations := [op]);
    tx := tx.(ext := V1(sim.transactionData.value));
    r := Ok(tx);
  }

  /** Two operations that differ at most in their authorization entries. */
  ghost predicate SameButAuth(a: Operation, b: Operation) {
    && a.source == b.source
    && (a.body == b.body ||
        (a.body.InvokeHostFunction? && b.body.InvokeHostFunction? && a.body.hostFunction == b.body.hostFunction))
  }

  /** Assembling changes an empty authorization list, the fee and the extension, and nothing else. */
  lemma {:induction false} AssembleConserves(raw: Transaction, sim: Simulation)
    requires Assembled(raw, sim).Ok?
    ensures var tx := Assembled(raw, sim).value;
      && tx.source == raw.source && tx.seqNum == raw.seqNum && tx.cond == raw.cond && tx.memo == raw.memo
      && |tx.operations| == |raw.operations| == 1
      && SameButAuth(raw.operations[0], tx.operations[0])
      && (tx.operations[0] != raw.operations[0] ==> raw.operations[0].body.InvokeHostFunction? && raw.operations[0].body.auth == [])
      && tx.fee == (if RequiredFee(sim) > raw.fee then RequiredFee(sim) else raw.fee)
  {
  }

  /** Assembling again with the same answer changes nothing. */
  lemma {:induction false} AssembleIdempotent(raw: Transaction, sim: Simulation)
    requires Assembled(raw, sim).Ok?
    ensures Assembled(Assembled(raw, sim).value, sim) == Assembled(raw, sim)
  {
  }

  /**
   The assembled fee covers the inclusion fee and the minimum resource fee exactly when their sum fits
   64 bits; a larger sum wraps around to less than the inclusion fee and is accepted.
   */
  lemma {:induction false} FeeCoversExactly(raw: Transaction, sim: Simulation)
    requires Assembled(raw, sim).Ok?
    ensures Assembled(raw, sim).value.fee >= INCLUSION_FEE + sim.minResourceFee <==> INCLUSION_FEE + sim.minResourceFee < BASE64
    ensures INCLUSION_FEE + sim.minResourceFee >= BASE64 ==> RequiredFee(sim) < INCLUSION_FEE
  {
  }

  lemma {:induction false} FeeWrapExample()
    ensures var sim := Simulation(false, Some([]), [[]], 0xFFFF_FFFF_FFFF_FFFF);
            var tx := NewTx([], 100, 0, Operation(None, RestoreFootprint));
            Assembled(tx, sim).Ok? && Assembled(tx, sim).value.fee == 100
  {
  }
}
