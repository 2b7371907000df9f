/** Decimal amounts as the service receives them, and the three roundings they meet:
    Python's 28-digit context (ties to even), the `Numeric(18, 2)` columns (ties away from
    zero), and the schema's quantisation to cents (ties up). Stored money is in whole cents. */
module Money {

  // Numeric(18, 2) holds sixteen digits before the point: fewer than 10^18 cents.
  const CENTS_LIMIT: nat := 1_000_000_000_000_000_000

  // Significant digits kept by Python's default decimal context.
  const CONTEXT_DIGITS: nat := 28

  /** The finite decimal coefficient * 10^exponent. */
  datatype Decimal = Decimal(coefficient: int, exponent: int)

  function Pow10(n: nat): (p: nat)
    ensures p >= 1
  {
    if n == 0 then 1 else 10 * Pow10(n - 1)
  }

  /** Decimal digits of n, at least one. */
  function Digits(n: nat): (d: nat)
    ensures d >= 1
  {
    if n < 10 then 1 else 1 + Digits(n / 10)
  }

  /** Digits after the point once the amount is aligned with a balance in cents. */
  function Scale(d: Decimal): (s: nat)
  {
    if d.exponent < -2 then -d.exponent else 2
  }

  /** How many units of the amount's last digit make one cent. */
  function UnitsPerCent(d: Decimal): (u: nat)
    ensures u >= 1
  {
    Pow10(Scale(d) - 2)
  }

  /** The amount in units of its last aligned digit. */
  function Units(d: Decimal): (u: int)
    ensures d.coefficient >= 0 ==> u >= 0
  {
    d.coefficient * Pow10(d.exponent + Scale(d))
  }

  /** Division rounding ties up, which for non-negative numbers is away from zero. */
  function HalfUp(n: int, d: nat): (q: int)
    requires d >= 1
    ensures n >= 0 ==> q >= 0
  {
    (2 * n + d) / (2 * d)
  }

  /** Rounding to the column's cents: ties go away from zero. */
  function ColumnRounded(n: int, d: nat): int
    requires d >= 1
  {
    if n >= 0 then HalfUp(n, d) else -HalfUp(-n, d)
  }

  /** Division rounding ties to the even quotient. */
  function HalfEven(n: int, d: nat): (q: int)
    requires d >= 1
    ensures n >= 0 ==> q >= 0
  {
    var q, r := n / d, n % d;
    if 2 * r > d || (2 * r == d && q % 2 == 1) then q + 1 else q
  }

  /** A number as the context keeps it: to the nearest multiple of d. */
  function ContextRounded(n: int, d: nat): (r: int)
    requires d >= 1
    ensures n >= 0 ==> r >= 0
  {
    d * HalfEven(n, d)
  }

  /** The exact sum balance + amount, in the amount's units. */
  function ExactSum(balance: int, d: Decimal): (s: int)
    ensures balance >= 0 && d.coefficient >= 0 ==> s >= 0
  {
    balance * UnitsPerCent(d) + Units(d)
  }

  /** What Python's context drops from the exact sum: everything below this many units. */
  function Quantum(balance: int, d: Decimal): (q: nat)
    ensures q >= 1
  {
    var s := ExactSum(balance, d);
    var digits := Digits(if s >= 0 then s else -s);
    Pow10(if digits > CONTEXT_DIGITS then digits - CONTEXT_DIGITS else 0)
  }

  /** The stored balance after `account.balance += amount`: the sum is first rounded by the
      context and then by the column. */
  function Credited(balance: int, d: Decimal): (cents: int)
    ensures balance >= 0 && d.coefficient >= 0 ==> cents >= 0
  {
    var q := Quantum(balance, d);
    ColumnRounded(ContextRounded(ExactSum(balance, d), q), UnitsPerCent(d))
  }

  /** The amount as the ledger row's column stores it. */
  function LedgerCents(d: Decimal): int
  {
    ColumnRounded(Units(d), UnitsPerCent(d))
  }

  /** The amount's part below one cent lies within half a context quantum under the half cent,
      so the first rounding lifts it onto the tie and the second one rounds it up. */
  predicate Drifts(balance: int, d: Decimal)
  {
    var q, u := Quantum(balance, d), UnitsPerCent(d);
    q > 1 && u - q <= 2 * (Units(d) % u) < u
  }

  // ---------------------------------------------------------------------------
  // Powers of ten and digit counts
  // ---------------------------------------------------------------------------

  lemma {:induction false} PowSum(a: nat, b: nat)
    ensures Pow10(a + b) == Pow10(a) * Pow10(b)
  {
    if a > 0 {
      PowSum(a - 1, b);
      assert Pow10(a + b) == 10 * (Pow10(a - 1) * Pow10(b));
      assert Pow10(a) * Pow10(b) == 10 * Pow10(a - 1) * Pow10(b);
    }
  }

  lemma {:induction false} PowMonotone(a: nat, b: nat)
    requires a <= b
    ensures Pow10(a) <= Pow10(b)
  {
    if a < b { PowMonotone(a, b - 1); }
  }

  /** A number has n digits exactly when it lies in the n-digit range. */
  lemma {:induction false} DigitsRange(n: nat)
    ensures n < Pow10(Digits(n))
    ensures n > 0 ==> Pow10(Digits(n) - 1) <= n
  {
    if n >= 10 {
      DigitsRange(n / 10);
      assert Pow10(Digits(n) - 1) == 10 * Pow10(Digits(n / 10) - 1);
    }
  }

  /** Fewer than n+1 digits means below 10^n. */
  lemma DigitsBound(n: nat, d: nat)
    requires n < Pow10(d) && d >= 1
    ensures Digits(n) <= d
  {
    DigitsRange(n);
    if Digits(n) > d {
      PowMonotone(d, Digits(n) - 1);
    }
  }

  // ---------------------------------------------------------------------------
  // Double rounding
  // ---------------------------------------------------------------------------

  lemma MulLe(a: int, b: int, c: nat)
    requires a <= b
    ensures a * c <= b * c
  {
    assert (b - a) * c >= 0;
  }

  lemma FloorReaches(n: int, d: nat, q: int)
    requires d >= 1
    ensures q <= n / d <==> q * d <= n
  {
    assert (n / d + 1) * d == (n / d) * d + d;
    if q <= n / d { MulLe(q, n / d, d); } else { MulLe(n / d + 1, q, d); }
  }

  lemma DivOf(n: int, d: nat, q: int, r: int)
    requires 0 <= r < d && n == q * d + r
    ensures n / d == q && n % d == r
  {
    assert (q + 1) * d == q * d + d;
    FloorReaches(n, d, q);
    FloorReaches(n, d, q + 1);
  }

  lemma HalfUpReaches(n: int, u: nat, c: int)
    requires u >= 1
    ensures HalfUp(n, u) >= c <==> 2 * n >= (2 * c - 1) * u
  {
    FloorReaches(2 * n + u, 2 * u, c);
    assert c * (2 * u) == (2 * c - 1) * u + u;
  }

  /** Ties go to an even quotient t, so t is reached from half a divisor below it. */
  lemma HalfEvenReaches(n: nat, d: nat, t: nat)
    requires d >= 1 && t >= 1 && t % 2 == 0
    ensures HalfEven(n, d) >= t <==> 2 * n >= (2 * t - 1) * d
  {
    var q, r := n / d, n % d;
    assert n == q * d + r;
    assert (2 * t - 1) * d == 2 * (t * d) - d;
    if q >= t {
      MulLe(t, q, d);
    } else if q == t - 1 {
      assert (t - 1) * d == t * d - d;
    } else {
      MulLe(q, t - 2, d);
      assert (t - 2) * d == t * d - 2 * d;
    }
  }

  lemma HalfUpShift(m: int, f: int, u: nat)
    requires u >= 1
    ensures HalfUp(m * u + f, u) == m + HalfUp(f, u)
  {
    var n := 2 * f + u;
    var q, r := n / (2 * u), n % (2 * u);
    assert n == q * (2 * u) + r;
    assert (m + q) * (2 * u) == m * u + m * u + q * (2 * u);
    assert 2 * (m * u + f) + u == (m + q) * (2 * u) + r;
    DivOf(2 * (m * u + f) + u, 2 * u, m + q, r);
  }

  /** Half a cent is an even number t of quanta d. */
  ghost predicate EvenTie(d: nat, t: nat, u: nat)
  {
    d >= 1 && t % 2 == 0 && u == 2 * (t * d) && u >= 2 * d
  }

  lemma TieInQuanta(d: nat, t: nat, u: nat, c: nat)
    requires EvenTie(d, t, u) && t >= 1 && c >= 1
    ensures (2 * c - 1) * t >= 1 && (2 * c - 1) * t % 2 == 0
    ensures (2 * c - 1) * u == 2 * (((2 * c - 1) * t) * d)
  {
    var half, odd := t / 2, 2 * c - 1;
    assert t == 2 * half;
    MulLe(1, odd, t);
    assert odd * t == 2 * (odd * half);
    Associate(odd, t, d);
  }

  lemma Associate(a: int, b: int, c: int)
    ensures a * (2 * (b * c)) == 2 * ((a * b) * c)
  {
  }

  lemma MulLeIff(a: int, b: int, c: nat)
    requires c >= 1
    ensures a <= b <==> a * c <= b * c
  {
    if a <= b { MulLe(a, b, c); } else {
      MulLe(b + 1, a, c);
      assert (b + 1) * c == b * c + c;
    }
  }

  /** Rounding s to a multiple of d before rounding it to cents is the same as rounding
      s plus half a d straight to cents. */
  lemma RoundTwiceReaches(s: nat, d: nat, t: nat, u: nat, c: nat)
    requires EvenTie(d, t, u) && t >= 1 && c >= 1
    ensures HalfUp(ContextRounded(s, d), u) >= c <==> 2 * s + d >= (2 * c - 1) * u
  {
    var h, k := HalfEven(s, d), (2 * c - 1) * t;
    TieInQuanta(d, t, u, c);
    HalfUpReaches(h * d, u, c);
    MulLeIff(k, h, d);
    HalfEvenReaches(s, d, k);
    TwiceLess(k, d);
  }

  lemma TwiceLess(k: int, d: int)
    ensures (2 * k - 1) * d == 2 * (k * d) - d
  {
  }

  /** Rounding to multiples of d first changes the rounding to cents exactly on the half-open
      interval of half a d below the tie, and there by one cent. */
  lemma RoundTwice(s: nat, d: nat, t: nat, u: nat)
    requires EvenTie(d, t, u) && t >= 1
    ensures HalfUp(ContextRounded(s, d), u)
         == HalfUp(s, u) + if u - d <= 2 * (s % u) < u then 1 else 0
  {
    FloorReaches(s, u, 0);
    var m: nat, f: nat, first := s / u, s % u, HalfUp(ContextRounded(s, d), u);
    RoundedIs(s, u, m, if 2 * f >= u then m + 1 else m);
    if m >= 1 {
      ReachesAbove(s, d, t, u, m, f, 0, 0 - u);
    }
    ReachesAbove(s, d, t, u, m, f, 1, u);
    ReachesAbove(s, d, t, u, m, f, 2, 3 * u);
  }

  /** Seen from the m whole cents in s: which of its neighbours the two roundings reach. */
  lemma ReachesAbove(s: nat, d: nat, t: nat, u: nat, m: nat, f: nat, j: nat, bound: int)
    requires EvenTie(d, t, u) && t >= 1
    requires m == s / u && f == s % u && m + j >= 1 && bound == 2 * (j * u) - u
    ensures HalfUp(ContextRounded(s, d), u) >= m + j <==> 2 * f + d >= bound
  {
    RoundTwiceReaches(s, d, t, u, m + j);
    TwiceLess(m + j, u);
    Distribute(m, j, u);
    Recombine(s, u);
  }

  lemma Recombine(s: int, u: nat)
    requires u >= 1
    ensures s == (s / u) * u + s % u
  {
  }

  lemma Distribute(a: int, b: int, c: int)
    ensures (a + b) * c == a * c + b * c
  {
  }

  lemma RoundedIs(s: nat, u: nat, m: nat, c: nat)
    requires u >= 1 && m == s / u && c == if 2 * (s % u) >= u then m + 1 else m
    ensures HalfUp(s, u) == c
  {
    var f := s % u;
    assert s == m * u + f;
    HalfUpShift(m, f, u);
    HalfUpReaches(f, u, 0);
    HalfUpReaches(f, u, 1);
    HalfUpReaches(f, u, 2);
  }

  // ---------------------------------------------------------------------------
  // Deposits
  // ---------------------------------------------------------------------------

  lemma LimitIsPower()
    ensures Pow10(18) == CENTS_LIMIT
  {
    assert Pow10(6) == 1_000_000;
    PowSum(6, 6);
    PowSum(12, 6);
  }

  /** The column's limit, in the amount's units. */
  lemma LimitInUnits(d: Decimal)
    ensures CENTS_LIMIT * UnitsPerCent(d) == Pow10(16 + Scale(d))
  {
    LimitIsPower();
    PowSum(18, Scale(d) - 2);
  }

  lemma MultipleKept(s: nat, q: nat, k: nat)
    requires q >= 1 && s >= q * k
    ensures ContextRounded(s, q) >= q * k
  {
    FloorReaches(s, q, k);
    MulLe(k, HalfEven(s, q), q);
  }

  /** Rounding a number that reaches a power of ten keeps it there. */
  lemma RoundingKeepsPower(s: nat, r: nat, p: nat)
    requires s >= Pow10(p) && (r <= p || s >= Pow10(r))
    ensures ContextRounded(s, Pow10(r)) >= Pow10(p)
  {
    var q := Pow10(r);
    if r <= p {
      PowSum(r, p - r);
      MultipleKept(s, q, Pow10(p - r));
    } else {
      PowMonotone(p, r);
      MultipleKept(s, q, 1);
    }
  }

  /** The context drops digits only of a sum that is long enough to have them. */
  lemma DroppedDigits(balance: nat, d: Decimal) returns (r: nat)
    requires d.coefficient >= 0
    ensures Quantum(balance, d) == Pow10(r)
    ensures r == 0 || ExactSum(balance, d) >= Pow10(r)
  {
    var s := ExactSum(balance, d);
    r := if Digits(s) > CONTEXT_DIGITS then Digits(s) - CONTEXT_DIGITS else 0;
    if r > 0 {
      DigitsRange(s);
      PowMonotone(r, Digits(s) - 1);
    }
  }

  lemma AtLimit(n: nat, u: nat)
    requires u >= 1 && n >= CENTS_LIMIT * u
    ensures HalfUp(n, u) >= CENTS_LIMIT
  {
    HalfUpReaches(n, u, CENTS_LIMIT);
    TwiceLess(CENTS_LIMIT, u);
  }

  /** A sum that reaches the column's limit is still there after both roundings. */
  lemma OverflowSurvivesRounding(balance: nat, d: Decimal)
    requires d.coefficient >= 0
    requires ExactSum(balance, d) >= CENTS_LIMIT * UnitsPerCent(d)
    ensures Credited(balance, d) >= CENTS_LIMIT
  {
    var r := DroppedDigits(balance, d);
    LimitInUnits(d);
    RoundingKeepsPower(ExactSum(balance, d), r, 16 + Scale(d));
    AtLimit(ContextRounded(ExactSum(balance, d), Pow10(r)), UnitsPerCent(d));
  }

  /** When the sum stays inside the column, the context drops nothing unless the amount has at
      least thirteen fractional digits, and what it drops divides half a cent evenly. */
  lemma QuantumInRange(balance: nat, d: Decimal) returns (t: nat)
    requires d.coefficient >= 0
    requires ExactSum(balance, d) < CENTS_LIMIT * UnitsPerCent(d)
    requires Quantum(balance, d) > 1
    ensures Scale(d) >= 13
    ensures t >= 1 && EvenTie(Quantum(balance, d), t, UnitsPerCent(d))
  {
    var s := ExactSum(balance, d);
    LimitInUnits(d);
    DigitsBound(s, 16 + Scale(d));
    t := FactorOfCent(Digits(s) - CONTEXT_DIGITS, Scale(d) - 2);
  }

  lemma FactorOfCent(r: nat, e: nat) returns (t: nat)
    requires r + 2 <= e
    ensures t >= 1 && EvenTie(Pow10(r), t, Pow10(e))
  {
    t := 50 * Pow10(e - r - 2);
    PowSum(e - r, r);
    assert Pow10(e - r) == 100 * Pow10(e - r - 2);
    HundredFactor(Pow10(e - r - 2), Pow10(r));
  }

  lemma HundredFactor(p: nat, q: nat)
    requires p >= 1 && q >= 1
    ensures EvenTie(q, 50 * p, (100 * p) * q)
  {
    PullOut(50, p, q);
    PullOut(100, p, q);
    MulLe(1, p, q);
  }

  lemma PullOut(k: int, p: int, q: int)
    ensures (k * p) * q == k * (p * q)
  {
  }

  /** The balance a deposit leaves, against the amount its ledger row records: they agree, or
      the balance is one cent ahead, and it is ahead exactly when the amount drifts. */
  lemma CreditedExactly(balance: nat, d: Decimal)
    requires d.coefficient >= 0
    requires Credited(balance, d) < CENTS_LIMIT
    ensures Credited(balance, d) == balance + LedgerCents(d) + if Drifts(balance, d) then 1 else 0
  {
    if ExactSum(balance, d) >= CENTS_LIMIT * UnitsPerCent(d) {
      OverflowSurvivesRounding(balance, d);
    } else {
      HalfUpShift(balance, Units(d), UnitsPerCent(d));
      if Quantum(balance, d) == 1 {
        DivOf(ExactSum(balance, d), 1, ExactSum(balance, d), 0);
      } else {
        var t := QuantumInRange(balance, d);
        RoundTwice(ExactSum(balance, d), Quantum(balance, d), t, UnitsPerCent(d));
        SameFraction(balance, Units(d), UnitsPerCent(d));
      }
    }
  }

  lemma SameFraction(b: nat, a: int, u: nat)
    requires u >= 1
    ensures (b * u + a) % u == a % u
  {
    assert (b + a / u) * u == b * u + (a / u) * u;
    DivOf(b * u + a, u, b + a / u, a % u);
  }

  /** Amounts of at most twelve fractional digits never drift. */
  lemma ShortAmountsNeverDrift(balance: nat, d: Decimal)
    requires d.coefficient >= 0 && d.exponent >= -12
    requires Credited(balance, d) < CENTS_LIMIT
    ensures !Drifts(balance, d)
  {
    if ExactSum(balance, d) >= CENTS_LIMIT * UnitsPerCent(d) {
      OverflowSurvivesRounding(balance, d);
    } else if Quantum(balance, d) > 1 {
      var t := QuantumInRange(balance, d);
    }
  }

  /** Thirteen fractional digits are enough to drift: 1000000000000000.00 plus
      0.0049999999999 is stored as ...00.01 while the ledger row records 0.00. */
  lemma LongAmountsCanDrift()
    ensures Drifts(100_000_000_000_000_000, Decimal(49999999999, -13))
    ensures Credited(100_000_000_000_000_000, Decimal(49999999999, -13)) == 100_000_000_000_000_001
    ensures LedgerCents(Decimal(49999999999, -13)) == 0
  {
    assert Pow10(11) == 100_000_000_000 by { PowSum(6, 5); assert Pow10(6) == 1_000_000 && Pow10(5) == 100_000; }
    assert Pow10(28) == 10_000_000_000_000_000_000_000_000_000 by {
      LimitIsPower();
      PowSum(18, 10);
      PowSum(5, 5);
      assert Pow10(5) == 100_000;
    }
    var s: nat := 10_000_000_000_000_000_049_999_999_999;
    assert Digits(s) == 29 by { DigitsBound(s, 29); DigitsRange(s); DigitsAtLeast(s, 28); }
    assert Pow10(1) == 10;
    assert ExactSum(100_000_000_000_000_000, Decimal(49999999999, -13)) == s by { assert Pow10(0) == 1; }
    assert Quantum(100_000_000_000_000_000, Decimal(49999999999, -13)) == 10;
    assert ContextRounded(s, 10) == 10_000_000_000_000_000_050_000_000_000;
  }

  lemma WholeNumbersStay(n: nat)
    ensures ContextRounded(n, 1) == n && ColumnRounded(n, 1) == n
  {
    DivOf(n, 1, n, 0);
    DivOf(2 * n + 1, 2, n, 1);
  }

  lemma ColumnDigits(n: nat)
    requires n < CENTS_LIMIT
    ensures Digits(n) <= 18
  {
    LimitIsPower();
    DigitsBound(n, 18);
  }

  lemma DigitsAtLeast(n: nat, d: nat)
    requires n >= Pow10(d)
    ensures Digits(n) > d
  {
    DigitsRange(n);
    if Digits(n) <= d { PowMonotone(Digits(n), d); }
  }

  // ---------------------------------------------------------------------------
  // What an amount is worth
  // ---------------------------------------------------------------------------

  lemma InWholeCents(balance: nat, c: nat, e: int)
    requires e >= -2
    ensures UnitsPerCent(Decimal(c, e)) == 1 && Units(Decimal(c, e)) == c * Pow10(e + 2)
    ensures ExactSum(balance, Decimal(c, e)) == balance + c * Pow10(e + 2)
  {
    assert Pow10(0) == 1;
  }

  /** An amount c * 10^e without fractions of a cent is recorded as c * 10^(e+2) cents, and credited
      as just that while the sum stays inside the column. */
  lemma WholeAmountsAreExact(balance: nat, c: nat, e: int)
    requires e >= -2
    ensures LedgerCents(Decimal(c, e)) == c * Pow10(e + 2)
    ensures balance + c * Pow10(e + 2) < 1_000_000_000_000_000_000 ==>
              Credited(balance, Decimal(c, e)) == balance + c * Pow10(e + 2)
  {
    var cents := c * Pow10(e + 2);
    InWholeCents(balance, c, e);
    WholeNumbersStay(cents);
    if balance + cents < CENTS_LIMIT {
      ColumnDigits(balance + cents);
      WholeNumbersStay(balance + cents);
    }
  }

  /** Whole units: n pesos are 100 * n cents. */
  lemma WholePesos(balance: nat, n: nat)
    ensures LedgerCents(Decimal(n, 0)) == 100 * n
    ensures balance + 100 * n < 1_000_000_000_000_000_000 ==> Credited(balance, Decimal(n, 0)) == balance + 100 * n
  {
    WholeAmountsAreExact(balance, n, 0);
    assert Pow10(2) == 100;
  }

  /** An amount with fractions of a cent is recorded as the nearest cent, ties up: with p = 10^(-e-2)
      of its last digits to the cent, the recorded cents L satisfy L - 1/2 <= c / p < L + 1/2. */
  lemma FractionsRoundToNearest(c: nat, e: int)
    requires e < -2
    ensures var p, cents := Pow10(-e - 2), LedgerCents(Decimal(c, e));
            2 * p * cents <= 2 * c + p < 2 * p * (cents + 1)
  {
    var p, cents := Pow10(-e - 2), LedgerCents(Decimal(c, e));
    InFractions(0, c, e);
    FloorReaches(2 * c + p, 2 * p, cents);
    FloorReaches(2 * c + p, 2 * p, cents + 1);
    assert cents * (2 * p) == 2 * p * cents && (cents + 1) * (2 * p) == 2 * p * (cents + 1);
  }

  lemma WholeAmountsNeverDrift(balance: nat, c: nat, e: int)
    requires e >= -2 && balance + c * Pow10(e + 2) < 1_000_000_000_000_000_000
    ensures !Drifts(balance, Decimal(c, e))
  {
    InWholeCents(balance, c, e);
    ColumnDigits(balance + c * Pow10(e + 2));
  }

  /** When an amount drifts, in plain terms: the sum has d > 28 digits, so the context rounds it to a
      multiple of 10^(d-28), and the fraction of a cent is under the half by at most half of that. */
  lemma DriftsMeans(balance: nat, c: nat, e: int)
    requires e < -2
    ensures var p, d := Pow10(-e - 2), Digits(balance * Pow10(-e - 2) + c);
            Drifts(balance, Decimal(c, e)) <==> d > 28 && p - Pow10(d - 28) <= 2 * (c % p) < p
  {
    var p, d := Pow10(-e - 2), Digits(balance * Pow10(-e - 2) + c);
    InFractions(balance, c, e);
    assert Quantum(balance, Decimal(c, e)) == Pow10(if d > 28 then d - 28 else 0);
    if d > 28 { TenOrMore(d - 28); } else { assert Pow10(0) == 1; }
  }

  lemma InFractions(balance: nat, c: nat, e: int)
    requires e < -2
    ensures UnitsPerCent(Decimal(c, e)) == Pow10(-e - 2) && Units(Decimal(c, e)) == c
    ensures ExactSum(balance, Decimal(c, e)) == balance * Pow10(-e - 2) + c
  {
    assert Pow10(0) == 1;
  }

  lemma TenOrMore(n: nat)
    requires n >= 1
    ensures Pow10(n) >= 10
  {
  }

  // ---------------------------------------------------------------------------
  // TransferRequest.validate_amount
  // ---------------------------------------------------------------------------

  datatype AmountError = NotPositive | TooManyDecimals | TooManyDigits

  datatype Validated = Accepted(cents: int) | Rejected(error: AmountError)

  /** `TransferRequest.validate_amount`: positive, exponent at least -2, quantised half up.
      Quantising fails when the result does not fit the decimal context. */
  function ValidateAmount(v: Decimal): (r: Validated)
  {
    if v.coefficient <= 0 then Rejected(NotPositive)
    else if v.exponent < -2 then Rejected(TooManyDecimals)
    else
      var cents := HalfUp(Units(v), UnitsPerCent(v));
      if cents > 0 && Digits(cents) > CONTEXT_DIGITS then Rejected(TooManyDigits)
      else Accepted(cents)
  }

  /** An accepted amount is a positive whole number of cents that quantisation did not change,
      and validating what was stored accepts it again unchanged. An amount that is not whole
      cents is never accepted. */
  lemma AcceptedAmountsAreExact(v: Decimal)
    ensures ValidateAmount(v).Accepted? ==>
              var c := ValidateAmount(v).cents;
              && c > 0 && c * UnitsPerCent(v) == Units(v)
              && ValidateAmount(Decimal(c, -2)) == Accepted(c)
    ensures Units(v) % UnitsPerCent(v) != 0 ==> ValidateAmount(v).Rejected?
  {
    if v.exponent >= -2 {
      assert UnitsPerCent(v) == 1;
      DivOf(2 * Units(v) + 1, 2, Units(v), 1);
      DivOf(Units(v), 1, Units(v), 0);
      if v.coefficient > 0 {
        assert Units(v) >= v.coefficient by { assert v.coefficient * Pow10(v.exponent + 2) >= v.coefficient * 1; }
        var w := Decimal(Units(v), -2);
        assert Units(w) == Units(v);
      }
    }
  }

  /** Which amounts are accepted, and as what: positive ones with at most two decimals and at most 28
      digits of cents, as that many cents; the errors in the order they are raised. */
  lemma ValidatesExactly(v: Decimal)
    ensures ValidateAmount(v)
         == if v.coefficient <= 0 then Rejected(NotPositive)
            else if v.exponent < -2 then Rejected(TooManyDecimals)
            else if Digits(v.coefficient * Pow10(v.exponent + 2)) > 28 then Rejected(TooManyDigits)
            else Accepted(v.coefficient * Pow10(v.exponent + 2))
  {
    if v.coefficient > 0 && v.exponent >= -2 {
      InWholeCents(0, v.coefficient, v.exponent);
      var cents := v.coefficient * Pow10(v.exponent + 2);
      DivOf(2 * cents + 1, 2, cents, 1);
    }
  }
}
