/**
 The decimal printer that fills a 20-byte buffer from the back, and the one 64-bit integer whose output does not read
 back.
 */
module Itoa {
  import opened Wrappers

  const MIN := -0x8000_0000_0000_0000
  const MAX := 0x7fff_ffff_ffff_ffff
  const BUFFER := 20

  /** Two's-complement negation of a 64-bit integer: the minimum is its own negation. */
  function Negate(n: int): int {
    if n == MIN then MIN else -n
  }

  function Digit(d: nat): char
    requires d < 10
  {
    '0' + d as char
  }

  function Digits(n: nat): string {
    if n == 0 then "" else Digits(n / 10) + [Digit(n % 10)]
  }

  function Decimal(n: int): string {
    if n == 0 then "0"
    else if n < 0 then "-" + (if Negate(n) < 0 then "" else Digits(Negate(n)))
    else Digits(n)
  }

  // ---- reading -----------------------------------------------------------------------

  predicate AllDigits(s: string) {
    forall i | 0 <= i < |s| :: '0' <= s[i] <= '9'
  }

  function Value(s: string): nat
    requires AllDigits(s)
  {
    if |s| == 0 then 0 else 10 * Value(s[..|s| - 1]) + (s[|s| - 1] - '0') as nat
  }

  /** An optional minus sign and at least one digit. */
  function Parse(s: string): Option<int> {
    var negative := |s| > 0 && s[0] == '-';
    var digits := if negative then s[1..] else s;
    if |digits| == 0 || !AllDigits(digits) then None
    else
      var magnitude: int := Value(digits);
      Some(if negative then -magnitude else magnitude)
  }

  // ---- the digits of a number ----------------------------------------------------------

  function Pow10(k: nat): nat {
    if k == 0 then 1 else 10 * Pow10(k - 1)
  }

  lemma {:induction false} DigitsRead(n: nat)
    ensures AllDigits(Digits(n)) && Value(Digits(n)) == n
    ensures n > 0 ==> |Digits(n)| > 0 && Digits(n)[0] != '0'
  {
    if n > 0 {
      DigitsRead(n / 10);
      var s := Digits(n);
      assert s[..|s| - 1] == Digits(n / 10);
      if n >= 10 { assert s[0] == Digits(n / 10)[0]; }
    }
  }

  lemma {:induction false} DigitsFit(n: nat, k: nat)
    requires n < Pow10(k)
    ensures |Digits(n)| <= k
  {
    if n > 0 {
      assert n / 10 < Pow10(k - 1);
      DigitsFit(n / 10, k - 1);
    }
  }

  lemma SixtyFourBitsFit(n: nat)
    requires n <= MAX
    ensures |Digits(n)| <= 19
  {
    assert Pow10(6) == 1_000_000 && Pow10(12) == 1_000_000_000_000 && Pow10(18) == 1_000_000_000_000_000_000;
    assert Pow10(19) == 10_000_000_000_000_000_000;
    DigitsFit(n, 19);
  }

  // ---- what is printed ---------------------------------------------------------------------

  lemma PositivePrints(n: int)
    requires 0 < n <= MAX
    ensures Parse(Digits(n)) == Some(n) && Parse("-" + Digits(n)) == Some(-n)
    ensures |Digits(n)| <= 19
  {
    DigitsRead(n);
    SixtyFourBitsFit(n);
    assert '0' <= Digits(n)[0] <= '9';
    assert ("-" + Digits(n))[1..] == Digits(n);
  }

  lemma EdgesPrint()
    ensures Parse("0") == Some(0) && Parse("-") == None
  {
    assert Value("") == 0 && "0"[..0] == "";
    assert Value("0") == 0;
  }

  /**
   Reading the output gives the number back for every 64-bit integer but the minimum, which prints a lone minus sign.
   */
  lemma PrintsExactlyUnlessMinimum(n: int)
    requires MIN <= n <= MAX
    ensures Parse(Decimal(n)) == Some(n) <==> n != MIN
    ensures n == MIN ==> Decimal(n) == "-"
    ensures |Decimal(n)| <= BUFFER
  {
    EdgesPrint();
    if n > 0 {
      PositivePrints(n);
    } else if n == MIN {
      assert Negate(n) < 0;
    } else if n < 0 {
      PositivePrints(-n);
    }
  }

  // ---- the printer ---------------------------------------------------------------------------

  lemma MoveDigit(n: nat, whole: string, tail: string)
    requires n > 0 && whole == Digits(n) + tail
    ensures whole == Digits(n / 10) + ([Digit(n % 10)] + tail)
    ensures |Digits(n)| == |Digits(n / 10)| + 1
  {
  }

  lemma NoDigits(tail: string)
    ensures Digits(0) + tail == tail && |Digits(0)| == 0
  {
  }

  method Print(number: int) returns (s: string)
    requires MIN <= number <= MAX
    ensures s == Decimal(number)
  {
    if number == 0 { return "0"; }
    hide Digits, Digit;
    var n := number;
    var neg := n < 0;
    if neg { n := Negate(n); }
    ghost var whole := if n < 0 then "" else Digits(n);
    if n > 0 { SixtyFourBitsFit(n); }
    var b := new char[BUFFER];
    var i := b.Length;
    while n > 0
      invariant 0 < i <= b.Length
      invariant n <= 0 ==> whole == b[i..]
      invariant n >= 0 ==> |Digits(n)| < i && whole == Digits(n) + b[i..]
    {
      ghost var tail := b[i..];
      MoveDigit(n, whole, tail);
      i := i - 1;
      b[i] := Digit(n % 10);
      assert b[i..] == [Digit(n % 10)] + tail;
      n := n / 10;
      if n == 0 { NoDigits(b[i..]); }
    }
    if neg {
      ghost var tail := b[i..];
      i := i - 1;
      b[i] := '-';
      assert b[i..] == "-" + tail;
    }
    s := b[i..];
  }

  /** Different numbers print differently. */
  lemma PrintsInjectively(m: int, n: int)
    requires MIN <= m <= MAX && MIN <= n <= MAX && Decimal(m) == Decimal(n)
    ensures m == n
  {
    PrintsExactlyUnlessMinimum(m);
    PrintsExactlyUnlessMinimum(n);
  }
}
