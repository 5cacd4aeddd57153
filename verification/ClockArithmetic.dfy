// The estimator of crates/clock-sync/src/lib.rs: checked 128-bit integer
// arithmetic over four-timestamp exchanges.
module ClockArithmetic {
  import opened Prelude

  datatype ClockSyncError =
    | InvalidSlewBound
    | HostRegressed
    | ControllerRegressed
    | ControllerProcessingExceedsRoundTrip
    | InsufficientSeparation
    | ArithmeticOverflow
    | EstimateUnavailable
    | HostTickBeforeSession

  type Checked = Result<int, ClockSyncError>

  const MIDPOINT_DENOMINATOR: int := 2_000_000_000

  /** The outcome of an `i128` operation whose exact value is `x`. */
  function I128(x: int): Checked {
    if -I128_LIMIT <= x < I128_LIMIT then Ok(x) else Err(ArithmeticOverflow)
  }

  function ToU64(x: int): Result<u64, ClockSyncError> {
    if 0 <= x < U64_LIMIT then Ok(x) else Err(ArithmeticOverflow)
  }

  /** Division truncated toward zero, as Rust's `/` on signed integers. */
  function TruncDiv(n: int, d: int): int
    requires d > 0
  {
    if n >= 0 then n / d else -((-n) / d)
  }

  function TruncRem(n: int, d: int): int
    requires d > 0
  {
    n - TruncDiv(n, d) * d
  }

  /** The least integer `q` with `q * d >= n`. */
  function Ceil(n: int, d: int): int
    requires d > 0
  {
    -((-n) / d)
  }

  function DivFloor(n: int, d: int): Checked
    requires d > 0
  {
    var quotient := TruncDiv(n, d);
    if TruncRem(n, d) < 0 then I128(quotient - 1) else Ok(quotient)
  }

  function DivCeil(n: int, d: int): Checked
    requires d > 0
  {
    var quotient := TruncDiv(n, d);
    if TruncRem(n, d) > 0 then I128(quotient + 1) else Ok(quotient)
  }

  function DivRoundNearestTiesAway(n: int, d: int): Checked
    requires d > 0
  {
    var quotient := TruncDiv(n, d);
    var magnitude :- I128(2 * Abs(TruncRem(n, d)));
    if magnitude < d then Ok(quotient)
    else if n < 0 then I128(quotient - 1)
    else I128(quotient + 1)
  }

  lemma DivBounds(n: int, d: int)
    requires d > 0
    ensures (n / d) * d <= n < (n / d) * d + d
    ensures Ceil(n, d) * d - d < n <= Ceil(n, d) * d
  {
  }

  lemma {:induction false} MulLess(a: int, b: int, d: int)
    requires d > 0 && a < b
    ensures a * d + d <= b * d
    decreases b - a
  {
    if a + 1 < b {
      MulLess(a + 1, b, d);
      assert (a + 1) * d == a * d + d;
    }
  }

  lemma MulLe(a: int, b: int, d: int)
    requires d > 0
    ensures a <= b <==> a * d <= b * d
    ensures a < b <==> a * d < b * d
  {
    if a < b {
      MulLess(a, b, d);
    } else if b < a {
      MulLess(b, a, d);
    }
  }

  /** A quotient is pinned by its remainder bounds. */
  lemma QuotientUnique(n: int, d: int, q: int)
    requires d > 0
    requires q * d <= n < q * d + d
    ensures n / d == q
  {
    DivBounds(n, d);
    var p := n / d;
    if p < q {
      MulLess(p, q, d);
    } else if q < p {
      MulLess(q, p, d);
    }
  }

  lemma CeilUnique(n: int, d: int, q: int)
    requires d > 0
    requires q * d - d < n <= q * d
    ensures Ceil(n, d) == q
  {
    assert (-q) * d == -(q * d);
    QuotientUnique(-n, d, -q);
  }

  lemma QuotientSmall(m: int, d: int)
    requires d > 0 && m >= 0
    ensures 0 <= m / d <= m
    ensures m - (m / d) * d != 0 ==> m / d < m
  {
    var q := m / d;
    DivBounds(m, d);
    if q > 0 {
      MulLe(1, d, q);
    }
  }

  /** Truncated division in terms of the quotient of magnitudes. */
  lemma TruncParts(n: int, d: int)
    requires d > 0
    ensures var k := Abs(n) / d;
      && TruncDiv(n, d) == (if n >= 0 then k else -k)
      && TruncRem(n, d) == (if n >= 0 then n - k * d else n + k * d)
      && 0 <= Abs(n) - k * d < d
      && 0 <= k <= Abs(n)
      && (TruncRem(n, d) != 0 ==> k < Abs(n))
  {
    DivBounds(Abs(n), d);
    QuotientSmall(Abs(n), d);
    assert (-(Abs(n) / d)) * d == -((Abs(n) / d) * d);
  }

  lemma FloorIsDivision(n: int, d: int)
    requires d > 0 && -I128_LIMIT <= n < I128_LIMIT
    ensures DivFloor(n, d) == Ok(n / d)
  {
    hide TruncDiv, TruncRem;
    TruncParts(n, d);
    var k := Abs(n) / d;
    if n < 0 {
      assert (-k) * d == -(k * d);
      assert (-k - 1) * d == -(k * d) - d;
      QuotientUnique(n, d, if TruncRem(n, d) < 0 then -k - 1 else -k);
    }
  }

  lemma CeilIsDivision(n: int, d: int)
    requires d > 0 && -I128_LIMIT <= n < I128_LIMIT
    ensures DivCeil(n, d) == Ok(Ceil(n, d))
  {
    hide TruncDiv, TruncRem;
    TruncParts(n, d);
    var k := Abs(n) / d;
    if n > 0 {
      assert (k + 1) * d == k * d + d;
      CeilUnique(n, d, if TruncRem(n, d) > 0 then k + 1 else k);
    }
  }

  lemma FloorMono(a: int, b: int, d: int)
    requires d > 0 && a <= b
    ensures a / d <= b / d
  {
    DivBounds(a, d);
    DivBounds(b, d);
    MulLe(a / d, b / d + 1, d);
  }

  lemma CeilMono(a: int, b: int, d: int)
    requires d > 0 && a <= b
    ensures Ceil(a, d) <= Ceil(b, d)
  {
    FloorMono(-b, -a, d);
  }

  /** Rounding lands between the floor and the ceiling. */
  lemma RoundBetween(n: int, d: int)
    requires d > 0 && -I128_LIMIT / 4 < n < I128_LIMIT / 4 && d < I128_LIMIT / 4
    ensures DivRoundNearestTiesAway(n, d).Ok?
    ensures n / d <= DivRoundNearestTiesAway(n, d).value <= Ceil(n, d)
  {
    hide TruncDiv, TruncRem, Ceil;
    TruncParts(n, d);
    FloorIsDivision(n, d);
    CeilIsDivision(n, d);
  }

  /** The quotient of magnitudes, one more when the remainder is at least half. */
  function Rounded(n: int, d: int): int
    requires d > 0
  {
    var k := Abs(n) / d;
    var m := if 2 * (Abs(n) - k * d) < d then k else k + 1;
    if n >= 0 then m else -m
  }

  lemma RoundCases(n: int, d: int)
    requires d > 0 && -I128_LIMIT <= n < I128_LIMIT
    ensures var k := Abs(n) / d;
      && Abs(TruncRem(n, d)) == Abs(n) - k * d
      && DivRoundNearestTiesAway(n, d) ==
           if 2 * (Abs(n) - k * d) >= I128_LIMIT then Err(ArithmeticOverflow) else Ok(Rounded(n, d))
  {
    hide TruncDiv, TruncRem;
    TruncParts(n, d);
  }

  lemma RoundedDistance(n: int, d: int)
    requires d > 0
    ensures var v, rest := Rounded(n, d), Abs(n) - (Abs(n) / d) * d;
      && 0 <= rest < d
      && Abs(n - v * d) == (if 2 * rest < d then rest else d - rest)
      && (2 * rest >= d ==> Abs(v * d) > Abs(n))
  {
    var k := Abs(n) / d;
    DivBounds(Abs(n), d);
    Multiples(k, d);
  }

  lemma Multiples(k: int, d: int)
    ensures (-k) * d == -(k * d) && (k + 1) * d == k * d + d && (-(k + 1)) * d == -(k * d) - d
  {
  }

  /** Rounding fails exactly when the doubled remainder leaves the range; otherwise
      no multiple of the divisor is nearer, and a tie goes away from zero. */
  lemma RoundsToNearest(n: int, d: int)
    requires d > 0 && -I128_LIMIT <= n < I128_LIMIT
    ensures DivRoundNearestTiesAway(n, d).Err? <==> 2 * Abs(TruncRem(n, d)) >= I128_LIMIT
    ensures DivRoundNearestTiesAway(n, d).Ok? ==>
      var v := DivRoundNearestTiesAway(n, d).value;
      && (forall q: int :: Abs(n - v * d) <= Abs(n - q * d))
      && (2 * Abs(n - v * d) == d ==> Abs(v * d) > Abs(n))
  {
    hide TruncRem, DivRoundNearestTiesAway, Rounded;
    RoundCases(n, d);
    RoundedDistance(n, d);
    var v := Rounded(n, d);
    forall q: int
      ensures Abs(n - v * d) <= Abs(n - q * d)
    {
      NoNearer(n, d, v, q);
    }
  }

  lemma NoNearer(n: int, d: int, v: int, q: int)
    requires d > 0 && 2 * Abs(n - v * d) <= d
    ensures Abs(n - v * d) <= Abs(n - q * d)
  {
    if q < v {
      MulLess(q, v, d);
    } else if v < q {
      MulLess(v, q, d);
    }
  }
}
