/**
 Integer text: `to_string`, `from_str` of the primitive integers and `from_str_prefixed` of the
 256-bit integers.
 */
module Decimal {
  import opened Wrappers
  import opened Octets

  const MINUS: byte := 45
  const PLUS: byte := 43

  function Digits(n: nat): (s: Text)
    ensures |s| > 0
    ensures forall i :: 0 <= i < |s| ==> 48 <= s[i] < 58
  {
    if n < 10 then [48 + n] else Digits(n / 10) + [48 + n % 10]
  }

  /** `to_string` of an integer. */
  function Show(n: int): Text {
    if n < 0 then [MINUS] + Digits(-n) else Digits(n)
  }

  /** The digit a character stands for; 36 for a character that is no digit in any radix used here. */
  function DigitOf(c: byte): nat {
    if 48 <= c < 58 then c - 48
    else if 97 <= c < 123 then c - 97 + 10
    else if 65 <= c < 91 then c - 65 + 10
    else 36
  }

  /** The value of a non-empty run of digits in the radix. */
  function ParseDigits(s: Text, radix: nat): Option<nat> {
    if s == [] then None
    else if DigitOf(s[|s| - 1]) >= radix then None
    else if |s| == 1 then Some(DigitOf(s[0]))
    else
      match ParseDigits(s[..|s| - 1], radix)
      case None => None
      case Some(hi) => Some(radix * hi + DigitOf(s[|s| - 1]))
  }

  function InRange(n: int, lo: int, hi: int): (r: Option<int>)
    ensures r.Some? ==> lo <= r.value <= hi
  {
    if lo <= n <= hi then Some(n) else None
  }

  /** Splits a leading sign off; a minus sign is a sign only for a signed type. */
  function Unsigned(s: Text, signed: bool): (bool, Text) {
    if s != [] && s[0] == PLUS then (false, s[1..])
    else if s != [] && s[0] == MINUS && signed then (true, s[1..])
    else (false, s)
  }

  function Finish(neg: bool, digits: Text, radix: nat, lo: int, hi: int): Option<int> {
    match ParseDigits(digits, radix)
    case None => None
    case Some(n) => InRange(if neg then 0 - n else n, lo, hi)
  }

  /** `from_str` of an integer type whose range is `lo..=hi`. */
  function Parse(s: Text, lo: int, hi: int): Option<int> {
    var (neg, digits) := Unsigned(s, lo < 0);
    Finish(neg, digits, 10, lo, hi)
  }

  /** `from_str_prefixed`: as `Parse`, but 0b, 0o and 0x after the sign select another radix. */
  function ParsePrefixed(s: Text, lo: int, hi: int): Option<int> {
    var (neg, digits) := Unsigned(s, lo < 0);
    if |digits| >= 2 && digits[0] == 48 && digits[1] in [98, 111, 120] then
      Finish(neg, digits[2..], if digits[1] == 98 then 2 else if digits[1] == 111 then 8 else 16, lo, hi)
    else
      Finish(neg, digits, 10, lo, hi)
  }

  lemma {:induction false} ParseOfDigits(n: nat)
    ensures ParseDigits(Digits(n), 10) == Some(n)
  {
    if n >= 10 {
      ParseOfDigits(n / 10);
      var s := Digits(n);
      assert s[..|s| - 1] == Digits(n / 10);
    }
  }

  function Abs(n: int): nat { if n < 0 then -n else n }

  lemma {:induction false} ShowSplits(n: int, signed: bool)
    requires n < 0 ==> signed
    ensures Unsigned(Show(n), signed) == (n < 0, Digits(Abs(n)))
    ensures Ascii(Show(n))
  {
    var digits := Digits(Abs(n));
    assert 48 <= digits[0] < 58;
    hide Digits;
    if n < 0 { assert Show(n)[1..] == digits; }
  }

  /** Printing and parsing back is the identity on every integer the type holds. */
  lemma {:induction false} ShowParses(n: int, lo: int, hi: int)
    requires lo <= n <= hi
    ensures Parse(Show(n), lo, hi) == Some(n)
    ensures ParsePrefixed(Show(n), lo, hi) == Some(n)
    ensures Ascii(Show(n))
  {
    hide Digits, ParseDigits, Show, Unsigned, Finish;
    ShowSplits(n, lo < 0);
    FinishDigits(n, lo, hi);
    var digits := Digits(Abs(n));
    assert |digits| >= 2 ==> 48 <= digits[1] < 58;
  }

  lemma {:induction false} FinishDigits(n: int, lo: int, hi: int)
    requires lo <= n <= hi
    ensures Finish(n < 0, Digits(Abs(n)), 10, lo, hi) == Some(n)
  {
    hide Digits, ParseDigits;
    ParseOfDigits(Abs(n));
  }

  /** Distinct integers print differently. */
  lemma {:induction false} ShowInjective(m: int, n: int)
    requires Show(m) == Show(n)
    ensures m == n
  {
    var lo, hi := if m < n then m else n, if m < n then n else m;
    ShowParses(m, lo, hi);
    ShowParses(n, lo, hi);
  }

  /** A quoted text is no integer: neither parser accepts it. */
  lemma {:induction false} QuoteIsNoInteger(s: Text, lo: int, hi: int)
    requires |s| >= 1 && s[0] == 34
    ensures Parse(s, lo, hi).None? && ParsePrefixed(s, lo, hi).None?
  {
    NoDigit(s, 0);
  }

  lemma {:induction false} NoDigit(s: Text, i: nat)
    requires i < |s| && DigitOf(s[i]) >= 10
    ensures ParseDigits(s, 10).None?
  {
    if i < |s| - 1 { NoDigit(s[..|s| - 1], i); }
  }

  // ----- Other texts -----

  lemma {:induction false} FinishExactly(n: int, lo: int, hi: int)
    ensures Finish(n < 0, Digits(Abs(n)), 10, lo, hi) == if lo <= n <= hi then Some(n) else None
  {
    hide Digits, ParseDigits;
    ParseOfDigits(Abs(n));
  }

  /** The text of an integer is read exactly when the integer is in the range of the type. */
  lemma {:induction false} ShowParsesExactly(n: int, lo: int, hi: int)
    requires lo <= 0 <= hi
    ensures Parse(Show(n), lo, hi) == ParsePrefixed(Show(n), lo, hi) == if lo <= n <= hi then Some(n) else None
  {
    hide Digits, ParseDigits, Show, Unsigned, Finish;
    if n < 0 && lo == 0 {
      MinusIsNoDigit(n, lo, hi);
    } else {
      ShowSplits(n, lo < 0);
      FinishExactly(n, lo, hi);
      var digits := Digits(Abs(n));
      assert |digits| >= 2 ==> 48 <= digits[1] < 58;
    }
  }

  lemma {:induction false} MinusIsNoDigit(n: int, lo: int, hi: int)
    requires n < 0 && lo == 0
    ensures Parse(Show(n), lo, hi).None? && ParsePrefixed(Show(n), lo, hi).None?
  {
    hide Digits, ParseDigits;
    assert Show(n)[0] == MINUS;
    NoDigit(Show(n), 0);
  }

  /** A plus sign may be written. */
  lemma {:induction false} PlusParses(n: nat, lo: int, hi: int)
    requires lo <= n <= hi
    ensures Parse([PLUS] + Digits(n), lo, hi) == Some(n) && ParsePrefixed([PLUS] + Digits(n), lo, hi) == Some(n)
  {
    hide ParseDigits, Finish;
    FinishDigits(n, lo, hi);
    var digits := Digits(n);
    assert |digits| >= 2 ==> 48 <= digits[1] < 58;
    hide Digits;
    assert ([PLUS] + digits)[1..] == digits;
  }
}
