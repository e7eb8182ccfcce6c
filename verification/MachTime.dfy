/** Scaling mach time to nanoseconds: a fixed-point multiplier, a 64x64 multiply and a 32-bit remainder. */
module MachTime {
  import opened Bytes

  type u64 = x: int | 0 <= x < 0x1_0000_0000_0000_0000

  const W32: nat := 0x1_0000_0000
  const W64: nat := 0x1_0000_0000_0000_0000
  const W96: nat := W32 * W64

  /** NULL_SCALE, the multiplier of a 1:1 scale; its logarithm is HIGH_SHIFT. */
  const NULL_SCALE: nat := 0x4_0000_0000
  const NUMERATOR_LIMIT: nat := 0x4000_0000
  const BILLION: nat := 1_000_000_000

  // ---- Products and quotients ----

  lemma Product(x: nat, y: nat, m: nat)
    requires x <= m && y <= m
    ensures 0 <= x * y <= m * m
  {
    assert x * y <= x * m <= m * m;
  }

  lemma MulLe(x: int, y: int, k: nat)
    requires x <= y || k == 0
    ensures k * x <= k * y
  {
    assert k * y == k * x + k * (y - x);
  }

  /** The quotient is the one integer that fits. */
  lemma Quotient(x: int, d: nat, q: int)
    requires d * q <= x < d * q + d
    ensures x / d == q
  {
    MulLe(x / d + 1, q, if x / d < q then d else 0);
    MulLe(q + 1, x / d, if q < x / d then d else 0);
  }

  lemma QuotientLe(x: int, y: int, d: nat)
    requires d > 0 && x <= y
    ensures x / d <= y / d
  {
    MulLe(y / d + 1, x / d, if y / d < x / d then d else 0);
  }

  // ---- mmul64 ----

  /** Every sum is of type u64: none of them overflows. Only the last shift drops bits. */
  function Mmul64(a: u64, b: u64): (r: u64) {
    var ah, al, bh, bl := a / W32, a % W32, b / W32, b % W32;
    NothingOverflows(a, b);
    Product(al, bl, W32 - 1);
    Product(al, bh, W32 - 1);
    Product(ah, bl, W32 - 1);
    Product(ah, bh, W32 - 1);
    var low: u64 := al * bl;
    var mid2: u64 := ah * bl;
    var mid1: u64 := al * bh + (mid2 % W32 + low / W32);
    var high: u64 := ah * bh + (mid1 / W32 + mid2 / W32);
    high % W32 * W32 + mid1 % W32
  }

  /** The sums of the cross products fit 64 bits, carries included. */
  lemma NothingOverflows(a: u64, b: u64)
    ensures var ah, al, bh, bl := a / W32, a % W32, b / W32, b % W32;
            var mid1 := al * bh + (ah * bl % W32 + al * bl / W32);
            mid1 < W64 && ah * bh + (mid1 / W32 + ah * bl / W32) < W64
  {
    var ah, al, bh, bl := a / W32, a % W32, b / W32, b % W32;
    Product(al, bl, W32 - 1);
    Product(al, bh, W32 - 1);
    Product(ah, bl, W32 - 1);
    Product(ah, bh, W32 - 1);
  }

  lemma Expand(ah: int, al: int, bh: int, bl: int)
    ensures (ah * W32 + al) * (bh * W32 + bl) == ah * bh * W64 + (ah * bl + al * bh) * W32 + al * bl
  {
    assert (ah * W32 + al) * (bh * W32 + bl) == ah * W32 * (bh * W32) + ah * W32 * bl + al * (bh * W32) + al * bl;
  }

  lemma Fold(high0: nat, mid1: nat, mid2: nat, low: nat)
    ensures var m := mid1 + (mid2 % W32 + low / W32);
            var h := high0 + (m / W32 + mid2 / W32);
            (high0 * W64 + (mid2 + mid1) * W32 + low) / W32 % W64 == h % W32 * W32 + m % W32
  {
    var m := mid1 + (mid2 % W32 + low / W32);
    var h := high0 + (m / W32 + mid2 / W32);
    AddQuotient(W32, high0 * W32 + mid2 + mid1, low);
    LowWords(h, m % W32);
    assert mid2 == mid2 / W32 * W32 + mid2 % W32 && m == m / W32 * W32 + m % W32;
  }

  lemma LowWords(h: nat, r: nat)
    requires r < W32
    ensures (h * W32 + r) % W64 == h % W32 * W32 + r
  {
    var q := h / W32;
    assert h * W32 + r == q * W64 + (h % W32 * W32 + r);
  }

  /** mmul64 is the middle of the 128-bit product. */
  lemma Middle(a: u64, b: u64)
    ensures Mmul64(a, b) == a * b / W32 % W64
  {
    var ah, al, bh, bl := a / W32, a % W32, b / W32, b % W32;
    Expand(ah, al, bh, bl);
    MiddleOf(a * b, ah * bh, ah * bl, al * bh, al * bl, ah, al, bh, bl);
  }

  lemma MiddleOf(x: int, high: int, mid2: int, mid1: int, low: int, ah: nat, al: nat, bh: nat, bl: nat)
    requires high == ah * bh && mid2 == ah * bl && mid1 == al * bh && low == al * bl
    requires x == high * W64 + (mid2 + mid1) * W32 + low
    ensures var m := mid1 + (mid2 % W32 + low / W32);
            x / W32 % W64 == (high + (m / W32 + mid2 / W32)) % W32 * W32 + m % W32
  {
    Positive(ah, bh);
    Positive(ah, bl);
    Positive(al, bh);
    Positive(al, bl);
    Fold(high, mid1, mid2, low);
  }

  lemma Positive(x: nat, y: nat)
    ensures x * y >= 0
  {}

  // ---- The multiplier ----

  /** setup_mach_mult's multiplier for the scale numer/denom. */
  function Mult(numer: u32, denom: u32): (m: u64)
    requires denom > 0
  {
    if numer < NUMERATOR_LIMIT then
      Shrinks(numer * NULL_SCALE + denom / 2, denom);
      (numer * NULL_SCALE + denom / 2) / denom
    else
      (numer * W32 + denom / 2) / denom * 4 % W64
  }

  lemma Shrinks(x: nat, d: nat)
    requires d > 0
    ensures 0 <= x / d <= x
  {
    if x < x / d {
      MulLe(1, d, x / d);
    }
  }

  /** The resolution in nanoseconds, `res_mach.tv_nsec`. */
  function Resolution(mult: u64): (r: nat)
    ensures r < NUMERATOR_LIMIT
  {
    (mult + (NULL_SCALE - 1)) % W64 / NULL_SCALE
  }

  function Ceil(n: nat, d: nat): nat
    requires d > 0
  {
    (n + d - 1) / d
  }

  lemma CeilIs(n: nat, d: nat)
    requires d > 0
    ensures Ceil(n, d) == n / d + if n % d == 0 then 0 else 1
  {
    var q, r := n / d, n % d;
    assert d * (q + 1) == d * q + d;
    Quotient(n + d - 1, d, if r == 0 then q else q + 1);
  }

  lemma Distribute(d: int, q: int, r: int, p: int)
    ensures (d * q + r) * p == d * (q * p) + r * p
  {}

  lemma ScaledQuotient(n: nat, d: nat, p: nat, h: nat)
    requires d > 0
    ensures (n * p + h) / d == n / d * p + (n % d * p + h) / d
  {
    var q, r := n / d, n % d;
    Distribute(d, q, r, p);
    AddQuotient(d, q * p, r * p + h);
  }

  lemma AddQuotient(d: nat, a: int, x: int)
    requires d > 0
    ensures (d * a + x) / d == a + x / d
  {
    assert d * (a + x / d) == d * a + d * (x / d);
    Quotient(d * a + x, d, a + x / d);
  }

  lemma FractionRounds(r: nat, d: nat, p: nat)
    requires r < d <= p
    ensures var m := (r * p + d / 2) / d; if r == 0 then m == 0 else 1 <= m < p
  {
    var x := r * p + d / 2;
    if r == 0 {
      Quotient(x, d, 0);
    } else {
      MulLe(1, r, p);
      MulLe(r, d - 1, p);
      QuotientLe(d, x, d);
      QuotientLe(x, d * (p - 1) + (d - 1), d);
      Quotient(d * (p - 1) + (d - 1), d, p - 1);
      Quotient(d, d, 1);
    }
  }

  /** A quotient scaled by `p`, rounded to the nearest and rounded up again, is the quotient rounded up. */
  lemma RoundTwice(n: nat, d: nat, p: nat)
    requires 0 < d <= p
    ensures ((n * p + d / 2) / d + p - 1) / p == Ceil(n, d)
  {
    hide Ceil;
    var q, m := n / d, (n % d * p + d / 2) / d;
    ScaledQuotient(n, d, p, d / 2);
    FractionRounds(n % d, d, p);
    CeilIs(n, d);
    AddQuotient(p, q, m + p - 1);
    Quotient(m + p - 1, p, if n % d == 0 then 0 else 1);
  }

  lemma CeilLess(n: u32, d: u32)
    requires d > 0 && n >= NUMERATOR_LIMIT && Ceil(n, d) < NUMERATOR_LIMIT
    ensures (n * W32 + d / 2) / d + W32 - 1 < W32 * NUMERATOR_LIMIT
  {
    RoundTwice(n, d, W32);
  }

  lemma NoWrap(m: u64)
    requires (m + NULL_SCALE - 1) / NULL_SCALE < NUMERATOR_LIMIT
    ensures Resolution(m) == (m + NULL_SCALE - 1) / NULL_SCALE
  {}

  lemma SmallNumerator(numer: u32, denom: u32)
    requires denom > 0 && numer < NUMERATOR_LIMIT
    ensures Resolution(Mult(numer, denom)) == Ceil(numer, denom) < NUMERATOR_LIMIT
  {
    hide Ceil, Resolution;
    RoundTwice(numer, denom, NULL_SCALE);
    CeilAtMost(numer, denom);
    NoWrap(Mult(numer, denom));
  }

  lemma LargeNumerator(numer: u32, denom: u32)
    requires denom > 0 && numer >= NUMERATOR_LIMIT && Ceil(numer, denom) < NUMERATOR_LIMIT
    ensures Resolution(Mult(numer, denom)) == Ceil(numer, denom)
  {
    hide Ceil;
    RoundTwice(numer, denom, W32);
    CeilLess(numer, denom);
    Quarter((numer * W32 + denom / 2) / denom);
  }

  /** The resolution is exact precisely for scales below 2^30 nanoseconds a unit, whichever way the shift was done. */
  lemma ResolutionExact(numer: u32, denom: u32)
    requires denom > 0
    ensures Resolution(Mult(numer, denom)) == Ceil(numer, denom) <==> Ceil(numer, denom) < NUMERATOR_LIMIT
  {
    hide Ceil, Mult;
    if numer < NUMERATOR_LIMIT {
      SmallNumerator(numer, denom);
    } else if Ceil(numer, denom) < NUMERATOR_LIMIT {
      LargeNumerator(numer, denom);
    }
  }

  /** A scale of 2^30: the resolution comes out as 0. */
  lemma ResolutionLost()
    ensures Ceil(NUMERATOR_LIMIT, 1) == 0x4000_0000 && Resolution(Mult(NUMERATOR_LIMIT, 1)) == 0
  {
    assert Mult(NUMERATOR_LIMIT, 1) == NUMERATOR_LIMIT * W32 * 4 % W64;
  }

  lemma CeilAtMost(n: nat, d: nat)
    requires d > 0
    ensures Ceil(n, d) <= n
  {
    CeilIs(n, d);
    Shrinks(n, d);
    if n / d == n && n > 0 {
      MulLe(1, d, n);
    }
  }

  lemma Quarter(x: nat)
    requires x + W32 - 1 < W32 * NUMERATOR_LIMIT
    ensures (x * 4 % W64 + (NULL_SCALE - 1)) % W64 / NULL_SCALE == (x + W32 - 1) / W32
  {}

  // ---- mach2nanos ----

  function Mach2Nanos(mult: u64, t: u64): (nanos: u64) {
    if mult == NULL_SCALE then t else Mmul64(t, mult) / 4
  }

  /** Unless the product passes 2^96, the result is the product scaled down. */
  lemma NanosIs(mult: u64, t: u64)
    requires t * mult < W96
    ensures Mach2Nanos(mult, t) == t * mult / NULL_SCALE
  {
    hide Mmul64;
    Middle(t, mult);
    ScaledDown(t * mult);
    if mult == NULL_SCALE {
      AddQuotient(NULL_SCALE, t, 0);
    }
  }

  lemma ScaledDown(x: nat)
    requires x < W96
    ensures x / W32 % W64 / 4 == x / NULL_SCALE
  {}

  /** The 1:1 shortcut gives what the multiplication would give exactly below 2^62. */
  lemma ShortcutAgrees(t: u64)
    ensures Mmul64(t, NULL_SCALE) / 4 == Mach2Nanos(NULL_SCALE, t) <==> t < 0x4000_0000_0000_0000
  {
    hide Mmul64;
    Middle(t, NULL_SCALE);
    assert t * NULL_SCALE / W32 == 4 * t;
  }

  /** Nanoseconds never step back, up to a time whose product stays below 2^96. */
  lemma Monotone(mult: u64, t: u64, t': u64)
    requires t <= t' && t' * mult < W96
    ensures Mach2Nanos(mult, t) <= Mach2Nanos(mult, t')
  {
    hide Mach2Nanos;
    MulLe(t, t', mult);
    NanosIs(mult, t);
    NanosIs(mult, t');
    QuotientLe(t * mult, t' * mult, NULL_SCALE);
  }

  ghost predicate MonotoneUpTo(mult: u64, top: u64) {
    forall t: u64, t': u64 | t <= t' <= top :: Mach2Nanos(mult, t) <= Mach2Nanos(mult, t')
  }

  /** That bound is exact: at the first time past it the result falls. */
  lemma MonotoneExactly(mult: u64, top: u64)
    requires mult > 0
    ensures MonotoneUpTo(mult, top) <==> mult == NULL_SCALE || top * mult < W96
  {
    hide Mach2Nanos, Mmul64;
    if mult == NULL_SCALE {
      assert forall t: u64 :: Mach2Nanos(mult, t) == t by {
        SameScale();
      }
    } else if top * mult < W96 {
      forall t: u64, t': u64 | t <= t' <= top
        ensures Mach2Nanos(mult, t) <= Mach2Nanos(mult, t')
      {
        MulLe(t', top, mult);
        Monotone(mult, t, t');
      }
    } else {
      var last := LastBelow(mult, top);
      FallsAfter(mult, last);
      assert last <= last + 1 <= top;
    }
  }

  lemma SameScale()
    ensures forall t: u64 :: Mach2Nanos(NULL_SCALE, t) == t
  {}

  /** The last time whose product stays below 2^96. */
  lemma LastBelow(mult: u64, top: u64) returns (last: u64)
    requires mult > 0 && top * mult >= W96
    ensures last < top && last * mult < W96 <= (last + 1) * mult
  {
    var q := (W96 - 1) / mult;
    assert W96 - 1 == mult * q + (W96 - 1) % mult;
    assert mult * (q + 1) == mult * q + mult;
    if q >= top {
      MulLe(top, q, mult);
    }
    last := q;
  }

  lemma FallsAfter(mult: u64, t: u64)
    requires mult != NULL_SCALE && t + 1 < W64 && t * mult < W96 <= (t + 1) * mult
    ensures Mach2Nanos(mult, t + 1) < Mach2Nanos(mult, t)
  {
    hide Mmul64;
    var x := t * mult;
    assert (t + 1) * mult == x + mult;
    NanosIs(mult, t);
    Middle(t + 1, mult);
    Wrapped(x, mult);
  }

  lemma Wrapped(x: nat, mult: u64)
    requires x < W96 <= x + mult
    ensures (x + mult) / W32 % W64 / 4 < x / NULL_SCALE
  {
    assert (x + mult) / W32 % W64 == (x + mult - W96) / W32;
  }

  /**
   Accuracy: for a numerator below 2^30 the result is off by less than 1 + t/2^35 nanoseconds from t * numer / denom
   (everything times denom * 2^35).
   */
  lemma Accurate(numer: u32, denom: u32, t: u64)
    requires denom > 0 && numer < NUMERATOR_LIMIT && t * Mult(numer, denom) < W96
    ensures var off := 2 * NULL_SCALE * (Mach2Nanos(Mult(numer, denom), t) * denom) - 2 * NULL_SCALE * (t * numer);
            0 - (2 * NULL_SCALE * denom + denom * t) < off <= denom * t
  {
    hide Mach2Nanos;
    var mult := Mult(numer, denom);
    NanosIs(mult, t);
    RoundedMult(numer, denom);
    var nanos := t * mult / NULL_SCALE;
    ErrorBound(numer, denom, mult, t, nanos);
  }

  /** The multiplier is off by at most a half. */
  lemma RoundedMult(n: u32, d: u32)
    requires d > 0 && n < NUMERATOR_LIMIT
    ensures 0 - d <= 2 * (d * Mult(n, d)) - 2 * NULL_SCALE * n <= d
  {
    var x := n * NULL_SCALE + d / 2;
    assert x == d * (x / d) + x % d;
    hide Mult;
    assert Mult(n, d) == x / d by {
      MultIs(n, d);
    }
  }

  lemma MultIs(n: u32, d: u32)
    requires d > 0 && n < NUMERATOR_LIMIT
    ensures Mult(n, d) == (n * NULL_SCALE + d / 2) / d
  {}

  lemma TimesRest(d: int, nanos: int, rest: int)
    ensures d * (NULL_SCALE * nanos + rest) == NULL_SCALE * (nanos * d) + d * rest
  {
    assert d * (NULL_SCALE * nanos) == NULL_SCALE * (nanos * d);
  }

  lemma TimesError(n: int, d: int, m: int, t: int)
    ensures t * (2 * (d * m) - 2 * NULL_SCALE * n) == 2 * (d * (t * m)) - 2 * NULL_SCALE * (t * n)
  {
    assert t * (d * m) == d * (t * m);
    assert t * (2 * NULL_SCALE * n) == 2 * NULL_SCALE * (t * n);
  }

  lemma ErrorBound(n: nat, d: nat, m: nat, t: nat, nanos: nat)
    requires d > 0 && 0 - d <= 2 * (d * m) - 2 * NULL_SCALE * n <= d
    requires nanos == t * m / NULL_SCALE
    ensures 0 - (2 * NULL_SCALE * d + d * t) < 2 * NULL_SCALE * (nanos * d) - 2 * NULL_SCALE * (t * n) <= d * t
  {
    var x := t * m;
    var rest := x % NULL_SCALE;
    TimesRest(d, nanos, rest);
    TimesError(n, d, m, t);
    MulLe(0 - d, 2 * (d * m) - 2 * NULL_SCALE * n, t);
    MulLe(2 * (d * m) - 2 * NULL_SCALE * n, d, t);
    MulLe(rest, NULL_SCALE - 1, d);
    MulLe(0, rest, d);
    Collect(d, d * x, nanos * d, t * n, d * t, d * rest);
  }

  lemma Collect(d: nat, dx: int, nd: int, tn: int, dt: int, dr: int)
    requires d > 0 && dx == NULL_SCALE * nd + dr && 0 <= dr < NULL_SCALE * d
    requires 0 - dt <= 2 * dx - 2 * NULL_SCALE * tn <= dt
    ensures 0 - (2 * NULL_SCALE * d + dt) < 2 * NULL_SCALE * nd - 2 * NULL_SCALE * tn <= dt
  {}

  // ---- nanos2timespec ----

  /** tv_sec and tv_nsec; seconds are 64 bits wide. */
  datatype Timespec = Timespec(sec: int, nsec: int)

  /** With 32-bit unsigned arithmetic for the remainder. */
  function Nanos2Timespec(nanos: u64): Timespec {
    var secs := nanos / BILLION;
    var lownanos, lowsecs := nanos % W32, secs % W32;
    Timespec(secs, (lownanos - lowsecs * BILLION % W32) % W32)
  }

  /** 125/3 nanoseconds a unit: 24 million units are one second. */
  lemma TwentyFourMegahertz()
    ensures Mult(125, 3) == 715_827_882_667 && Mach2Nanos(Mult(125, 3), 24_000_000) == 1_000_000_000
    ensures Mach2Nanos(Mult(1, 1), 24_000_000) == 24_000_000
  {
    hide Mmul64;
    assert (125 * NULL_SCALE + 1) / 3 == 715_827_882_667;
    NanosIs(715_827_882_667, 24_000_000);
    SameScale();
  }

  /** Wrapping around loses nothing: the timespec is in normal form and means the same nanoseconds. */
  lemma Recombines(nanos: u64)
    ensures var ts := Nanos2Timespec(nanos);
            0 <= ts.nsec < 1_000_000_000 && ts.sec * 1_000_000_000 + ts.nsec == nanos
  {
    var secs := nanos / BILLION;
    assert nanos == secs * BILLION + nanos % BILLION;
    Low32(nanos, secs, nanos % BILLION);
  }

  lemma Low32(x: nat, y: nat, r: nat)
    requires r < BILLION && x == y * BILLION + r
    ensures (x % W32 - y % W32 * BILLION % W32) % W32 == r
  {
    var z := y % W32 * BILLION;
    SameMod(x, r + z, y / W32 * BILLION);
    SameMod((r + z) % W32 - z % W32, r, z / W32 - (r + z) / W32);
  }

  lemma SameMod(a: int, b: int, c: int)
    requires a == b + W32 * c
    ensures a % W32 == b % W32
  {}
}
