/** Total order ids (SEP-35): packing into 64 bits and decimal paging tokens. */
module Toids {
  import opened Wrappers
  import opened Octets
  import Decimal

  datatype Toid = Toid(ledger: u32, transaction: u32, operation: u32)

  const LEDGER_MASK: nat := 0xFFFF_FFFF
  const TRANSACTION_MASK: nat := 0xF_FFFF
  const OPERATION_MASK: nat := 0xFFF
  const LEDGER_SHIFT: nat := 32
  const TRANSACTION_SHIFT: nat := 12
  const OPERATION_SHIFT: nat := 0

  const TX_RANGE: int := 0x10_0000
  const OP_RANGE: int := 0x1000
  const LEDGER_STEP: int := 0x1_0000_0000

  // ----- Bits of unsigned numbers -----

  /** `x` times 2 to the power `k`. */
  function Double(x: nat, k: nat): nat { if k == 0 then x else 2 * Double(x, k - 1) }

  /** `a | b`, bit by bit from the lowest. */
  function Or(a: nat, b: nat): nat
    decreases a + b
  {
    if a == 0 && b == 0 then 0 else 2 * Or(a / 2, b / 2) + (if a % 2 == 1 || b % 2 == 1 then 1 else 0)
  }

  /** `a & b`. */
  function And(a: nat, b: nat): nat {
    if a == 0 || b == 0 then 0 else 2 * And(a / 2, b / 2) + (if a % 2 == 1 && b % 2 == 1 then 1 else 0)
  }

  /** `a << k` on 64 bits. */
  function Shl(a: nat, k: nat): nat
    decreases k
  {
    if k == 0 then a else Shl(2 * a % BASE64, k - 1)
  }

  /** `a >> k`. */
  function Shr(a: nat, k: nat): nat { if k == 0 then a else Shr(a / 2, k - 1) }

  lemma {:induction false} OrZero(a: nat)
    ensures Or(a, 0) == a && Or(0, a) == a
  {
    if a > 0 { OrZero(a / 2); }
  }

  /** Or-ing numbers without a common bit position adds them. */
  lemma {:induction false} OrIsSum(x: nat, k: nat, y: nat)
    requires y < Double(1, k)
    ensures Or(Double(x, k), y) == Double(x, k) + y
  {
    if k == 0 {
      OrZero(x);
    } else {
      var high := Double(x, k - 1);
      assert Double(x, k) == 2 * high;
      OrIsSum(x, k - 1, y / 2);
      hide Double;
      OrStep(2 * high, y);
    }
  }

  lemma {:induction false} OrStep(a: nat, b: nat)
    ensures Or(a, b) == 2 * Or(a / 2, b / 2) + (if a % 2 == 1 || b % 2 == 1 then 1 else 0)
  {
  }

  lemma {:induction false} AndStep(a: nat, b: nat)
    ensures And(a, b) == 2 * And(a / 2, b / 2) + (if a % 2 == 1 && b % 2 == 1 then 1 else 0)
  {
  }

  lemma {:induction false} Halves(h: nat, y: nat, p: nat)
    requires p > 0
    ensures (2 * h + y) / 2 == h + y / 2 && (2 * h + y) % 2 == y % 2
    ensures (2 * p - 1) / 2 == p - 1 && (2 * p - 1) % 2 == 1
  {
  }

  /** A mask of low bits keeps exactly those bits. */
  lemma {:induction false} MaskIsLow(x: nat, k: nat, y: nat)
    requires y < Double(1, k)
    ensures And(Double(x, k) + y, Double(1, k) - 1) == y
  {
    if k > 0 {
      var high, p := Double(x, k - 1), Double(1, k - 1);
      assert Double(x, k) == 2 * high && Double(1, k) == 2 * p;
      MaskIsLow(x, k - 1, y / 2);
      hide Double, And;
      Halves(high, y, p);
      AndStep(2 * high + y, 2 * p - 1);
    }
  }

  /** A shift down drops exactly those bits. */
  lemma {:induction false} ShiftIsHigh(x: nat, k: nat, y: nat)
    requires y < Double(1, k)
    ensures Shr(Double(x, k) + y, k) == x
  {
    if k > 0 {
      var high := Double(x, k - 1);
      assert Double(x, k) == 2 * high && Double(1, k) == 2 * Double(1, k - 1);
      assert Shr(2 * high + y, k) == Shr((2 * high + y) / 2, k - 1);
      ShiftIsHigh(x, k - 1, y / 2);
      hide Double, Shr;
      Halves(high, y, 1);
    }
  }

  lemma {:induction false} DoubleTwice(a: nat, k: nat)
    ensures Double(2 * a, k) == 2 * Double(a, k) && a <= Double(a, k)
  {
    if k > 0 { DoubleTwice(a, k - 1); }
  }

  lemma {:induction false} ShlIsDouble(a: nat, k: nat)
    requires Double(a, k) < BASE64
    ensures Shl(a, k) == Double(a, k)
    decreases k
  {
    if k > 0 {
      DoubleTwice(a, k - 1);
      DoubleTwice(2 * a, k - 1);
      assert Double(a, k) == Double(2 * a, k - 1);
      assert Shl(a, k) == Shl(2 * a % BASE64, k - 1) == Shl(2 * a, k - 1);
      hide Shl, Double;
      ShlIsDouble(2 * a, k - 1);
    }
  }

  lemma {:induction false} DoubleFour(x: nat, k: nat)
    ensures Double(x, k + 4) == 16 * Double(x, k)
  {
    assert Double(x, k + 4) == 2 * Double(x, k + 3);
    assert Double(x, k + 3) == 2 * Double(x, k + 2);
    assert Double(x, k + 2) == 2 * Double(x, k + 1);
  }

  /** The shifts of the fields are products. */
  lemma {:induction false} Products(x: nat)
    ensures Double(x, 0) == x && Double(x, 12) == x * OP_RANGE && Double(x, 20) == x * TX_RANGE && Double(x, 32) == x * LEDGER_STEP
  {
    assert Double(x, 0) == x;
    hide Double;
    DoubleFour(x, 0); DoubleFour(x, 4); DoubleFour(x, 8); DoubleFour(x, 12);
    DoubleFour(x, 16); DoubleFour(x, 20); DoubleFour(x, 24); DoubleFour(x, 28);
  }

  /** The masks of the three fields take remainders. */
  lemma {:induction false} MaskLedger(n: nat)
    ensures And(n, LEDGER_MASK) == n % LEDGER_STEP
  {
    hide Double, And;
    Products(1);
    Products(n / LEDGER_STEP);
    MaskIsLow(n / LEDGER_STEP, 32, n % LEDGER_STEP);
  }

  lemma {:induction false} MaskTransaction(n: nat)
    ensures And(n, TRANSACTION_MASK) == n % TX_RANGE
  {
    hide Double, And;
    Products(1);
    Products(n / TX_RANGE);
    MaskIsLow(n / TX_RANGE, 20, n % TX_RANGE);
  }

  lemma {:induction false} MaskOperation(n: nat)
    ensures And(n, OPERATION_MASK) == n % OP_RANGE
  {
    hide Double, And;
    Products(1);
    Products(n / OP_RANGE);
    MaskIsLow(n / OP_RANGE, 12, n % OP_RANGE);
  }

  /** The shifts down divide. */
  lemma {:induction false} ShrLedger(n: nat)
    ensures Shr(n, LEDGER_SHIFT) == n / LEDGER_STEP
  {
    hide Double, Shr;
    Products(1);
    Products(n / LEDGER_STEP);
    ShiftIsHigh(n / LEDGER_STEP, 32, n % LEDGER_STEP);
  }

  lemma {:induction false} ShrTransaction(n: nat)
    ensures Shr(n, TRANSACTION_SHIFT) == n / OP_RANGE
  {
    hide Double, Shr;
    Products(1);
    Products(n / OP_RANGE);
    ShiftIsHigh(n / OP_RANGE, 12, n % OP_RANGE);
  }

  // ----- Packing -----

  /** The fields, cut to 32, 20 and 12 bits, side by side. */
  function Pack(t: Toid): (n: u64) {
    t.ledger * LEDGER_STEP + (t.transaction % TX_RANGE) * OP_RANGE + t.operation % OP_RANGE
  }

  /** `From<Toid> for u64`. */
  method ToU64(item: Toid) returns (result: u64)
    ensures result == Pack(item)
  {
    var l: nat, t: nat, o: nat := item.ledger, item.transaction, item.operation;
    ghost var tx: nat, op: nat := t % TX_RANGE, o % OP_RANGE;
    ShiftLedger(l);
    ShiftTransaction(t);
    ShiftOperation(o);
    FieldsJoin(l, tx, op);
    hide And, Or, Shl;
    var n: nat := 0;
    n := Or(n, Shl(And(l, LEDGER_MASK), LEDGER_SHIFT));
    n := Or(n, Shl(And(t, TRANSACTION_MASK), TRANSACTION_SHIFT));
    n := Or(n, Shl(And(o, OPERATION_MASK), OPERATION_SHIFT));
    result := n;
  }

  lemma {:induction false} ShiftLedger(l: u32)
    ensures Shl(And(l, LEDGER_MASK), LEDGER_SHIFT) == l * LEDGER_STEP
  {
    hide Shl, And, Double;
    assert And(l, LEDGER_MASK) == l by { MaskLedger(l); }
    Products(l);
    ShlIsDouble(l, 32);
  }

  lemma {:induction false} ShiftTransaction(t: u32)
    ensures Shl(And(t, TRANSACTION_MASK), TRANSACTION_SHIFT) == t % TX_RANGE * OP_RANGE
  {
    hide Shl, And, Double;
    MaskTransaction(t);
    var tx := t % TX_RANGE;
    Products(tx);
    ShlIsDouble(tx, 12);
  }

  lemma {:induction false} ShiftOperation(o: u32)
    ensures Shl(And(o, OPERATION_MASK), OPERATION_SHIFT) == o % OP_RANGE
  {
    hide And;
    MaskOperation(o);
  }

  lemma {:induction false} FieldsJoin(l: nat, tx: nat, op: nat)
    requires tx < TX_RANGE && op < OP_RANGE
    ensures Or(Or(Or(0, l * LEDGER_STEP), tx * OP_RANGE), op) == l * LEDGER_STEP + tx * OP_RANGE + op
  {
    hide Double, Or;
    Products(1);
    OrZero(l * LEDGER_STEP);
    Products(l);
    OrIsSum(l, 32, tx * OP_RANGE);
    Products(l * TX_RANGE + tx);
    OrIsSum(l * TX_RANGE + tx, 12, op);
  }

  /** Ledger, then transaction, then operation. */
  predicate Before(a: Toid, b: Toid) {
    || a.ledger < b.ledger
    || (a.ledger == b.ledger && a.transaction < b.transaction)
    || (a.ledger == b.ledger && a.transaction == b.transaction && a.operation < b.operation)
  }

  predicate InRange(t: Toid) { t.transaction < TX_RANGE && t.operation < OP_RANGE }

  /** Ids in range are ordered as their triples are, and distinct ids are packed differently. */
  lemma {:induction false} PackIsMonotone(a: Toid, b: Toid)
    requires InRange(a) && InRange(b)
    ensures Pack(a) < Pack(b) <==> Before(a, b)
    ensures Pack(a) == Pack(b) <==> a == b
  {
  }

  /** In general two ids collide exactly when they agree after masking. */
  lemma {:induction false} PackCollidesExactly(a: Toid, b: Toid)
    ensures Pack(a) == Pack(b) <==>
      a.ledger == b.ledger && a.transaction % TX_RANGE == b.transaction % TX_RANGE && a.operation % OP_RANGE == b.operation % OP_RANGE
  {
    var x, y := Toid(a.ledger, a.transaction % TX_RANGE, a.operation % OP_RANGE), Toid(b.ledger, b.transaction % TX_RANGE, b.operation % OP_RANGE);
    assert Pack(a) == Pack(x) && Pack(b) == Pack(y);
    PackIsMonotone(x, y);
  }

  /** `From<u64> for Toid`: each field is masked before it is shifted down. */
  function Unpack(n: u64): Toid {
    UnpackedFit(n);
    Toid(Shr(And(n, LEDGER_MASK), LEDGER_SHIFT), Shr(And(n, TRANSACTION_MASK), TRANSACTION_SHIFT), Shr(And(n, OPERATION_MASK), OPERATION_SHIFT))
  }

  lemma {:induction false} UnpackedFit(n: nat)
    ensures Shr(And(n, LEDGER_MASK), LEDGER_SHIFT) == 0
    ensures Shr(And(n, TRANSACTION_MASK), TRANSACTION_SHIFT) == n % TX_RANGE / OP_RANGE
    ensures Shr(And(n, OPERATION_MASK), OPERATION_SHIFT) == n % OP_RANGE
  {
    assert Shr(n % OP_RANGE, 0) == n % OP_RANGE;
    hide And, Shr;
    MaskLedger(n);
    MaskTransaction(n);
    MaskOperation(n);
    ShrLedger(n % LEDGER_STEP);
    ShrTransaction(n % TX_RANGE);
  }

  /** Unpacking always yields ledger 0, so it inverts packing exactly on ledger 0 below transaction 256. */
  lemma {:induction false} UnpackExactly(t: Toid)
    ensures Unpack(Pack(t)).ledger == 0
    ensures Unpack(Pack(t)) == t <==> t.ledger == 0 && t.transaction < 256 && t.operation < OP_RANGE
  {
    UnpackPacked(t);
    hide Unpack, Pack;
    if t.transaction < 256 { assert t.transaction % TX_RANGE % 256 == t.transaction; }
  }

  lemma {:induction false} UnpackPacked(t: Toid)
    ensures Unpack(Pack(t)) == Toid(0, t.transaction % TX_RANGE % 256, t.operation % OP_RANGE)
  {
    hide And, Shr;
    var n, tx, op := Pack(t), t.transaction % TX_RANGE, t.operation % OP_RANGE;
    assert n == t.ledger * LEDGER_STEP + tx * OP_RANGE + op;
    hide Pack;
    PackedLow(n, t.ledger, tx, op);
    UnpackedFit(n);
  }

  lemma {:induction false} DivideOp(n: nat, q: nat, r: nat)
    requires n == q * OP_RANGE + r && r < OP_RANGE
    ensures n % OP_RANGE == r && n / OP_RANGE == q
  {
  }

  lemma {:induction false} DivideTx(n: nat, q: nat, r: nat)
    requires n == q * TX_RANGE + r && r < TX_RANGE
    ensures n % TX_RANGE == r
  {
  }

  /** The low 20 bits keep the operation and 8 bits of the transaction. */
  lemma {:induction false} PackedLow(n: nat, l: nat, tx: nat, op: nat)
    requires tx < TX_RANGE && op < OP_RANGE && n == l * LEDGER_STEP + tx * OP_RANGE + op
    ensures n % OP_RANGE == op && n % TX_RANGE / OP_RANGE == tx % 256
  {
    DivideOp(n, l * TX_RANGE + tx, op);
    var high, low := tx / 256, tx % 256;
    var kept := low * OP_RANGE + op;
    DivideTx(n, l * 4096 + high, kept);
    DivideOp(kept, low, op);
  }

  // ----- Paging tokens -----

  const WIDTH: nat := 19
  const TEN_19: int := 10_000_000_000_000_000_000

  /** `format!("{u:019}")`. */
  function Token(n: u64): Text {
    var s := Decimal.Digits(n);
    if |s| < WIDTH then seq(WIDTH - |s|, _ => 48) + s else s
  }

  function Pow10(w: nat): (p: int)
    ensures p > 0
  {
    if w == 0 then 1 else 10 * Pow10(w - 1)
  }

  /** Exactly `w` decimal digits. */
  function Fixed(n: nat, w: nat): (s: Text)
    ensures |s| == w
  {
    if w == 0 then [] else Fixed(n / 10, w - 1) + [48 + n % 10]
  }

  lemma {:induction false} LexSnoc(a: seq<int>, b: seq<int>, x: int, y: int)
    requires |a| == |b|
    ensures LexLess(a + [x], b + [y]) <==> LexLess(a, b) || (a == b && x < y)
  {
    if a == [] {
      assert a + [x] == [x] && b + [y] == [y];
    } else {
      LexSnoc(a[1..], b[1..], x, y);
      assert (a + [x])[1..] == a[1..] + [x] && (b + [y])[1..] == b[1..] + [y];
      assert a == [a[0]] + a[1..] && b == [b[0]] + b[1..];
    }
  }

  lemma {:induction false} LexExtend(a: seq<int>, b: seq<int>, y: int)
    requires |a| == |b|
    ensures LexLess(a, b + [y]) <==> LexLess(a, b) || a == b
    ensures LexLess(b + [y], a) <==> LexLess(b, a)
  {
    if a == [] {
      assert b + [y] == [y];
    } else {
      LexExtend(a[1..], b[1..], y);
      assert (b + [y])[1..] == b[1..] + [y];
      assert a == [a[0]] + a[1..] && b == [b[0]] + b[1..];
    }
  }

  /** Numbers written in the same width compare as their digits do. */
  lemma {:induction false} FixedOrder(a: nat, b: nat, w: nat)
    requires a < Pow10(w) && b < Pow10(w)
    ensures LexLess(Fixed(a, w), Fixed(b, w)) <==> a < b
    ensures Fixed(a, w) == Fixed(b, w) <==> a == b
  {
    if w > 0 {
      FixedOrder(a / 10, b / 10, w - 1);
      LexSnoc(Fixed(a / 10, w - 1), Fixed(b / 10, w - 1), 48 + a % 10, 48 + b % 10);
      var s, t := Fixed(a, w), Fixed(b, w);
      assert s[..w - 1] == Fixed(a / 10, w - 1) && t[..w - 1] == Fixed(b / 10, w - 1);
      assert s[w - 1] == 48 + a % 10 && t[w - 1] == 48 + b % 10;
    }
  }

  /** Padding the shortest form with zeros gives the fixed-width form. */
  lemma {:induction false} DigitsAreFixed(n: nat, w: nat)
    requires 0 < w && n < Pow10(w)
    ensures |Decimal.Digits(n)| <= w && seq(w - |Decimal.Digits(n)|, _ => 48) + Decimal.Digits(n) == Fixed(n, w)
  {
    if n < 10 {
      FixedZero(w - 1);
      assert n / 10 == 0;
      assert seq(w - 1, _ => 48) + [48 + n] == Fixed(n, w);
    } else {
      DigitsAreFixed(n / 10, w - 1);
      var d := Decimal.Digits(n / 10);
      assert seq(w - 1 - |d|, _ => 48) + (d + [48 + n % 10]) == (seq(w - 1 - |d|, _ => 48) + d) + [48 + n % 10];
    }
  }

  lemma {:induction false} FixedZero(w: nat)
    ensures Fixed(0, w) == seq(w, _ => 48)
  {
    if w > 0 {
      FixedZero(w - 1);
      assert seq(w, _ => 48) == seq(w - 1, _ => 48) + [48];
    }
  }

  lemma {:induction false} DigitsAtLeast(n: nat, w: nat)
    requires 0 < w && n >= Pow10(w - 1)
    ensures |Decimal.Digits(n)| >= w
  {
    if w > 1 { DigitsAtLeast(n / 10, w - 1); }
  }

  lemma {:induction false} Powers()
    ensures Pow10(19) == TEN_19 && Pow10(20) == 10 * TEN_19
  {
    assert Pow10(5) == 100_000;
    assert Pow10(10) == 10_000_000_000;
    assert Pow10(15) == 1_000_000_000_000_000;
  }

  lemma {:induction false} TokenIs(n: u64)
    ensures n < TEN_19 ==> Token(n) == Fixed(n, 19)
    ensures n >= TEN_19 ==> Token(n) == Fixed(n, 20)
  {
    Powers();
    hide Decimal.Digits, Fixed, Pow10;
    if n < TEN_19 {
      DigitsAreFixed(n, 19);
      if |Decimal.Digits(n)| == 19 { assert seq(0, _ => 48) + Decimal.Digits(n) == Decimal.Digits(n); }
    } else {
      DigitsAreFixed(n, 20);
      DigitsAtLeast(n, 20);
      assert seq(0, _ => 48) + Decimal.Digits(n) == Decimal.Digits(n);
    }
  }

  /**
   Tokens of two numbers compare as texts in the numbers' order exactly when both have at most 19
   digits, or both have 20, or the larger is at least ten times the smaller.
   */
  lemma {:induction false} TokenOrderExactly(a: u64, b: u64)
    requires a < b
    ensures LexLess(Token(a), Token(b)) <==> b < TEN_19 || a >= TEN_19 || a <= b / 10
  {
    TokenIs(a);
    TokenIs(b);
    Powers();
    if b < TEN_19 {
      hide Token, Fixed, Pow10, LexLess;
      FixedOrder(a, b, 19);
    } else if a >= TEN_19 {
      hide Token, Fixed, Pow10, LexLess;
      FixedOrder(a, b, 20);
    } else {
      assert Fixed(b, 20) == Fixed(b / 10, 19) + [48 + b % 10];
      hide Token, Fixed, Pow10, LexLess;
      LexExtend(Fixed(a, 19), Fixed(b / 10, 19), 48 + b % 10);
      FixedOrder(a, b / 10, 19);
    }
  }

  /** Below ledger 2^31 the tokens of ids in range compare as texts in the order of the ids. */
  lemma {:induction false} TokensFollowIds(a: Toid, b: Toid)
    requires InRange(a) && InRange(b) && a.ledger < 0x8000_0000 && b.ledger < 0x8000_0000
    ensures LexLess(Token(Pack(a)), Token(Pack(b))) <==> Before(a, b)
  {
    PackIsMonotone(a, b);
    assert Pack(a) < TEN_19 && Pack(b) < TEN_19;
    var m, n := Pack(a), Pack(b);
    hide Pack, Token, LexLess;
    if m < n {
      TokenOrderExactly(m, n);
    } else if n < m {
      TokenOrderExactly(n, m);
      LexTotal(Token(m), Token(n));
    } else {
      LexTotal(Token(m), Token(n));
    }
  }

  lemma {:induction false} LeadingZero(s: Text)
    requires Decimal.ParseDigits(s, 10).Some?
    ensures Decimal.ParseDigits([48] + s, 10) == Decimal.ParseDigits(s, 10)
  {
    var t := [48] + s;
    assert t[..|t| - 1] == [48] + s[..|s| - 1];
    if |s| == 1 {
      assert t[..1] == [48];
    } else {
      LeadingZero(s[..|s| - 1]);
    }
  }

  lemma {:induction false} LeadingZeros(k: nat, s: Text)
    requires Decimal.ParseDigits(s, 10).Some?
    ensures Decimal.ParseDigits(seq(k, _ => 48) + s, 10) == Decimal.ParseDigits(s, 10)
  {
    hide Decimal.ParseDigits;
    if k == 0 {
      assert seq(0, _ => 48) + s == s;
    } else {
      LeadingZeros(k - 1, s);
      LeadingZero(seq(k - 1, _ => 48) + s);
      assert seq(k, _ => 48) + s == [48] + (seq(k - 1, _ => 48) + s);
    }
  }

  /** A token is the number in decimal, of at least 19 digits. */
  lemma {:induction false} TokenReadsBack(n: u64)
    ensures |Token(n)| >= 19 && Decimal.ParseDigits(Token(n), 10) == Some(n)
    ensures |Token(n)| == 19 || Token(n) == Decimal.Show(n)
  {
    hide Decimal.ParseDigits;
    Decimal.ParseOfDigits(n);
    var s := Decimal.Digits(n);
    if |s| < WIDTH { LeadingZeros(WIDTH - |s|, s); }
  }
}
