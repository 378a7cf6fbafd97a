/**
 Integers as single-precision values: rounding to 24 significant bits, and the shortest decimal that reads back as the
 same value.
 */
module Float32 {

  const SIGNIFICANT := 0x100_0000

  /** The greatest multiple of `unit` that is not above `n`. */
  function Below(n: nat, unit: nat): nat
    requires unit > 0
  {
    if n < unit then 0 else unit + Below(n - unit, unit)
  }

  /** The nearest multiple of `unit`; of two equally near ones, the multiple of `2 * unit`. */
  function Nearest(n: nat, unit: nat): nat
    requires unit > 0
  {
    var lo := Below(n, unit);
    var r := n - lo;
    if 2 * r < unit || (2 * r == unit && Below(n, 2 * unit) == lo) then lo else lo + unit
  }

  /** The spacing of representable values doubles until 24 significant bits suffice. */
  function RoundAt(n: nat, unit: nat): nat
    requires unit > 0
    decreases n - unit
  {
    if n < SIGNIFICANT * unit then Nearest(n, unit) else RoundAt(n, 2 * unit)
  }

  function Round(n: nat): nat {
    RoundAt(n, 1)
  }

  function Doubled(unit: nat, times: nat): nat
    decreases times
  {
    if times == 0 then unit else Doubled(2 * unit, times - 1)
  }

  lemma {:induction false} StepUp(a: nat, b: nat, unit: nat)
    requires a <= b
    ensures a * unit <= b * unit && (a < b ==> a * unit + unit <= b * unit)
    decreases b
  {
    if a < b {
      StepUp(a, b - 1, unit);
      assert b * unit == (b - 1) * unit + unit;
    }
  }

  lemma Grows(a: nat, b: nat, unit: nat)
    requires unit > 0
    ensures a < b <==> a * unit < b * unit
    ensures a < b ==> a * unit + unit <= b * unit
  {
    if a < b { StepUp(a, b, unit); } else { StepUp(b, a, unit); }
  }

  lemma {:induction false} BelowIs(n: nat, unit: nat, k: nat)
    requires unit > 0 && k * unit <= n < k * unit + unit
    ensures Below(n, unit) == k * unit
    decreases k
  {
    if k > 0 {
      assert k * unit == (k - 1) * unit + unit;
      BelowIs(n - unit, unit, k - 1);
    }
  }

  lemma {:induction false} BelowShape(n: nat, unit: nat) returns (k: nat)
    requires unit > 0
    ensures Below(n, unit) == k * unit && k * unit <= n < k * unit + unit
  {
    if n < unit { return 0; }
    k := BelowShape(n - unit, unit);
    assert (k + 1) * unit == k * unit + unit;
    k := k + 1;
  }

  lemma {:induction false} DoubledIsMultiple(unit: nat, times: nat) returns (k: nat)
    ensures Doubled(unit, times) == k * unit && k >= 1
    ensures times > 0 ==> k >= 2
    decreases times
  {
    if times == 0 { return 1; }
    var h := DoubledIsMultiple(2 * unit, times - 1);
    k := 2 * h;
    assert h * (2 * unit) == k * unit;
  }

  lemma OnGrid(c: nat, unit: nat)
    requires unit > 0
    ensures Nearest(c * unit, unit) == c * unit
  {
    BelowIs(c * unit, unit, c);
  }

  lemma Regroup(c: nat, k: nat, unit: nat)
    ensures c * (k * unit) == (c * k) * unit
  {
  }

  /** A multiple of a unit with at most 24 significant bits is left alone. */
  lemma {:induction false} Fixed(c: nat, unit: nat, times: nat)
    requires unit > 0 && c <= SIGNIFICANT
    ensures RoundAt(c * Doubled(unit, times), unit) == c * Doubled(unit, times)
    decreases times
  {
    hide Nearest;
    var n := c * Doubled(unit, times);
    if n < SIGNIFICANT * unit {
      var k := DoubledIsMultiple(unit, times);
      Regroup(c, k, unit);
      OnGrid(c * k, unit);
    } else if times > 0 {
      Fixed(c, 2 * unit, times - 1);
    } else {
      Grows(c, SIGNIFICANT, unit);
      assert c == SIGNIFICANT;
      assert n == (SIGNIFICANT / 2) * (2 * unit);
      OnGrid(SIGNIFICANT / 2, 2 * unit);
    }
  }

  lemma NearestShape(n: nat, unit: nat) returns (c: nat)
    requires unit > 0 && n < SIGNIFICANT * unit
    ensures c <= SIGNIFICANT && Nearest(n, unit) == c * unit
  {
    c := BelowShape(n, unit);
    Grows(c, SIGNIFICANT, unit);
    assert (c + 1) * unit == c * unit + unit;
    if Nearest(n, unit) != c * unit { c := c + 1; }
  }

  lemma {:induction false} RoundedShape(n: nat, unit: nat) returns (c: nat, times: nat)
    requires unit > 0
    ensures c <= SIGNIFICANT && RoundAt(n, unit) == c * Doubled(unit, times)
    decreases n - unit
  {
    if n < SIGNIFICANT * unit {
      c := NearestShape(n, unit);
      times := 0;
    } else {
      var t: nat;
      c, t := RoundedShape(n, 2 * unit);
      times := t + 1;
    }
  }

  /** Rounding twice is rounding once. */
  lemma RoundIdempotent(n: nat)
    ensures Round(Round(n)) == Round(n)
  {
    var c, times := RoundedShape(n, 1);
    Fixed(c, 1, times);
  }

  /** Integers of up to 24 bits survive; the next odd one does not. */
  lemma ExactUpTo24Bits(n: nat)
    ensures n <= SIGNIFICANT ==> Round(n) == n
    ensures Round(SIGNIFICANT + 1) == SIGNIFICANT
  {
    if n <= SIGNIFICANT {
      Fixed(n, 1, 0);
      assert Doubled(1, 0) == 1;
    }
    BelowIs(SIGNIFICANT + 1, 2, SIGNIFICANT / 2);
    BelowIs(SIGNIFICANT + 1, 4, SIGNIFICANT / 4);
    assert RoundAt(SIGNIFICANT + 1, 1) == Nearest(SIGNIFICANT + 1, 2);
  }

  // ---- written as a decimal ------------------------------------------------------------------

  /**
   Some multiple of `unit` reads back as `f`; the values that do are an interval around `f`, so only its neighbours
   count.
   */
  predicate Reads(f: nat, unit: nat)
    requires unit > 0
  {
    Round(Below(f, unit)) == f || Round(Below(f, unit) + unit) == f
  }

  /** The multiple of `unit` nearest to `f` among those that read back as `f`; a tie goes to the even one. */
  function NearestReading(f: nat, unit: nat): nat
    requires unit > 0
  {
    var lo := Below(f, unit);
    var hi := lo + unit;
    if Round(lo) == f && (Round(hi) != f || f - lo < hi - f || (f - lo == hi - f && Below(f, 2 * unit) == lo))
        then lo else hi
  }

  /** The shortest decimal: as many trailing zeros as still read back. */
  function Shortest(f: nat, unit: nat): nat
    requires unit > 0
    decreases 20 * f - unit
  {
    if 10 * unit <= 2 * f && Reads(f, 10 * unit) then Shortest(f, 10 * unit) else NearestReading(f, unit)
  }

  /** The integer a server id becomes on the wire: rounded, then written as the shortest decimal that reads back. */
  function Sent(n: nat): nat {
    Shortest(Round(n), 1)
  }

  lemma {:induction false} ShortestReadsBack(f: nat, unit: nat)
    requires unit > 0 && Reads(f, unit)
    ensures Round(Shortest(f, unit)) == f
    decreases 20 * f - unit
  {
    hide Round, Below;
    if 10 * unit <= 2 * f && Reads(f, 10 * unit) { ShortestReadsBack(f, 10 * unit); }
  }

  /** What is sent reads back as the rounded id. */
  lemma SentReadsBack(n: nat)
    ensures Round(Sent(n)) == Round(n)
  {
    RoundIdempotent(n);
    BelowIs(Round(n), 1, Round(n));
    ShortestReadsBack(Round(n), 1);
  }

  lemma {:induction false} StaysAbove(n: nat, unit: nat)
    requires unit > 0 && n >= SIGNIFICANT * unit
    ensures RoundAt(n, unit) >= SIGNIFICANT * unit
    decreases n - unit
  {
    var twice := 2 * unit;
    if n < SIGNIFICANT * twice {
      var k := BelowShape(n, twice);
      if k < SIGNIFICANT / 2 { StepUp(k + 1, SIGNIFICANT / 2, twice); }
      StepUp(SIGNIFICANT / 2, k, twice);
    } else {
      StaysAbove(n, twice);
    }
  }

  /** Below 24 bits only the number itself reads back as the number. */
  lemma OnlyItself(f: nat, c: nat)
    requires f < SIGNIFICANT && Round(c) == f
    ensures c == f
  {
    if c <= SIGNIFICANT { ExactUpTo24Bits(c); } else { StaysAbove(c, 1); }
  }

  /** Ids below 24 bits are sent as they are; 134217744 is representable and read back, yet 134217740 is sent for it. */
  lemma SentIds(n: nat)
    ensures n < SIGNIFICANT ==> Sent(n) == n
    ensures Round(134217744) == 134217744 && Sent(134217744) == 134217740
  {
    ExactUpTo24Bits(n);
    SentReadsBack(n);
    if n < SIGNIFICANT { OnlyItself(n, Sent(n)); }
    ShortenedId();
  }

  /** Ids between 2^27 and 2^28 are sixteen apart. */
  lemma AtSixteen(n: nat, k: nat, h: nat)
    requires SIGNIFICANT * 8 <= n < SIGNIFICANT * 16 && 16 * k <= n < 16 * k + 16 && 32 * h <= n < 32 * h + 32
    ensures Round(n) == if 2 * (n - 16 * k) < 16 || (2 * (n - 16 * k) == 16 && 2 * h == k) then 16 * k else 16 * k + 16
  {
    assert RoundAt(n, 1) == RoundAt(n, 2) == RoundAt(n, 4);
    assert RoundAt(n, 4) == RoundAt(n, 8) == RoundAt(n, 16);
    BelowIs(n, 16, k);
    BelowIs(n, 32, h);
  }

  /** Ids between 2^26 and 2^27 are eight apart. */
  lemma AtEight(n: nat, k: nat, h: nat)
    requires SIGNIFICANT * 4 <= n < SIGNIFICANT * 8 && 8 * k <= n < 8 * k + 8 && 16 * h <= n < 16 * h + 16
    ensures Round(n) == if 2 * (n - 8 * k) < 8 || (2 * (n - 8 * k) == 8 && 2 * h == k) then 8 * k else 8 * k + 8
  {
    assert RoundAt(n, 1) == RoundAt(n, 2) == RoundAt(n, 4) == RoundAt(n, 8);
    BelowIs(n, 8, k);
    BelowIs(n, 16, h);
  }

  lemma ShortenedId()
    ensures Round(134217744) == 134217744 && Sent(134217744) == 134217740
  {
    hide Below, Round;
    var f := 134217744;
    BelowIs(f, 1, f);
    BelowIs(f, 10, 13421774);
    BelowIs(f, 100, 1342177);
    AtSixteen(f, 8388609, 4194304);
    AtSixteen(134217740, 8388608, 4194304);
    AtSixteen(134217750, 8388609, 4194304);
    AtSixteen(134217800, 8388612, 4194306);
    AtEight(134217700, 16777212, 8388606);
    assert !Reads(f, 100) && Reads(f, 10) && Reads(f, 1);
    assert NearestReading(f, 10) == 134217740;
    assert Shortest(f, 1) == Shortest(f, 10);
  }
}
