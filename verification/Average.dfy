// The running average of the metadata reader (metadata-reader/private/average/average.go).
// Go's int64 is modelled exactly: results wrap around and division truncates toward zero.
module Average {

  const MAX_INT64: int := 0x7FFF_FFFF_FFFF_FFFF
  const TWO_64: int := 0x1_0000_0000_0000_0000

  predicate Int64(x: int) {
    -MAX_INT64 - 1 <= x <= MAX_INT64
  }

  /** The int64 value congruent to x modulo 2^64. */
  function Wrap(x: int): (r: int)
    ensures Int64(r) && (Int64(x) ==> r == x)
  {
    var m := x % TWO_64;
    if m > MAX_INT64 then m - TWO_64 else m
  }

  /** Go's integer division by a positive divisor: toward zero. */
  function Quot(a: int, b: int): int
    requires b > 0
  {
    if a >= 0 then a / b else -(-a / b)
  }

  /** The average after the n-th value: what the two branches compute, every operation wrapping. */
  function Next(n: int, avg: int, val: int): (r: int)
    requires n > 0 && Int64(avg)
    ensures Int64(r)
  {
    if val > avg then Wrap(avg + Quot(Wrap(val - avg), n))
    else if val < avg then Wrap(val + Quot(Wrap(Wrap(avg - val) * (n - 1)), n))
    else avg
  }

  /** The incremental mean, rounded down: n - 1 values of average avg, and one more. */
  function FloorMean(n: int, avg: int, val: int): int
    requires n > 0
  {
    ((n - 1) * avg + val) / n
  }

  /** No intermediate result of the branch taken leaves int64; a first value is always stored as it is. */
  predicate Fits(n: int, avg: int, val: int) {
    n == 1 || (if val > avg then val - avg <= MAX_INT64 else (avg - val) * (n - 1) <= MAX_INT64)
  }

  // ---- arithmetic ----

  lemma MulLess(n: int, a: int, b: int)
    requires n > 0 && n * a < n * b
    ensures a < b
  {
  }

  lemma Expand(n: int, d: int)
    ensures d * (n - 1) == n * d - d
  {
  }

  lemma NonNeg(a: int, b: int)
    requires a >= 0 && b >= 0
    ensures a * b >= 0
  {
  }

  lemma DivBounds(p: int, n: int)
    requires n > 0
    ensures n * (p / n) <= p < n * (p / n) + n
  {
  }

  lemma DivUnique(p: int, n: int, a: int)
    requires n > 0 && n * a <= p < n * a + n
    ensures p / n == a
  {
    DivBounds(p, n);
    var q := p / n;
    assert n * (q + 1) == n * q + n && n * (a + 1) == n * a + n;
    MulLess(n, q, a + 1);
    MulLess(n, a, q + 1);
  }

  lemma DivShift(n: int, a: int, d: int)
    requires n > 0
    ensures (n * a + d) / n == a + d / n
  {
    DivBounds(d, n);
    var q := d / n;
    assert n * (a + q) == n * a + n * q;
    DivUnique(n * a + d, n, a + q);
  }

  lemma QuotBounds(w: int, n: int)
    requires n > 0
    ensures w - n < n * Quot(w, n) < w + n
  {
    if w >= 0 {
      DivBounds(w, n);
    } else {
      DivBounds(-w, n);
      var c := -w / n;
      assert n * (-c) == -(n * c);
    }
  }

  lemma WrapIs(x: int) returns (k: int)
    ensures x == Wrap(x) + k * TWO_64
  {
    k := x / TWO_64;
    if x % TWO_64 > MAX_INT64 {
      k := k + 1;
    }
  }

  /** Congruent numbers less than 2^64 apart are equal. */
  lemma WrapUnique(x: int, r: int, k: int)
    requires Int64(r) && x == r + k * TWO_64
    ensures Wrap(x) == r
  {
    var j := WrapIs(x);
  }

  lemma WrapDistinct(x: int, y: int)
    requires Int64(y) && 0 < y - x < TWO_64
    ensures Wrap(x) != y
  {
    var k := WrapIs(x);
  }

  /** Wrapping a factor first does not change a wrapped product. */
  lemma WrapProduct(d: int, m: int)
    ensures Wrap(Wrap(d) * m) == Wrap(d * m)
  {
    var k := WrapIs(d);
    var j := WrapIs(d * m);
    assert d * m == Wrap(d) * m + (k * m) * TWO_64;
    assert (j - k * m) * TWO_64 == j * TWO_64 - (k * m) * TWO_64;
    WrapUnique(Wrap(d) * m, Wrap(d * m), j - k * m);
  }

  // ---- one value ----

  lemma UpExact(n: int, avg: int, val: int)
    requires n > 0 && Int64(avg) && Int64(val) && val > avg
    ensures FloorMean(n, avg, val) == avg + (val - avg) / n
    ensures avg <= FloorMean(n, avg, val) <= val
  {
    var d := val - avg;
    assert (n - 1) * avg + val == n * avg + d;
    DivShift(n, avg, d);
    DivBounds(d, n);
    var q := d / n;
    NonNeg(n - 1, d);
    assert (n - 1) * d == n * d - d;
    QuotBetween(d, n, d);
  }

  lemma QuotBetween(p: int, n: int, d: int)
    requires n > 0 && 0 <= p <= n * d
    ensures 0 <= p / n <= d
  {
    DivBounds(p, n);
    var q := p / n;
    assert n * (q + 1) == n * q + n && n * (d + 1) == n * d + n;
    MulLess(n, q, d + 1);
    MulLess(n, -1, q);
  }

  lemma DownExact(n: int, avg: int, val: int)
    requires n > 0 && Int64(avg) && Int64(val) && val < avg
    ensures FloorMean(n, avg, val) == val + (avg - val) * (n - 1) / n
    ensures val <= FloorMean(n, avg, val) <= avg
  {
    var d := avg - val;
    NonNeg(d, n - 1);
    Expand(n, d);
    assert (n - 1) * avg + val == n * val + d * (n - 1) by {
      assert (n - 1) * avg == (n - 1) * val + (n - 1) * d;
      assert n * val == (n - 1) * val + val;
    }
    DivShift(n, val, d * (n - 1));
    QuotBetween(d * (n - 1), n, d);
  }

  lemma QuotSum(n: int, q: int, c: int, d: int)
    requires 1 < n <= MAX_INT64 < d < TWO_64
    requires n * q <= d < n * q + n && n * c <= TWO_64 - d < n * c + n
    ensures 0 < q + c < TWO_64
  {
    assert n * (q + 1) == n * q + n && n * (c + 1) == n * c + n;
    MulLess(n, 1, q + 1);
    MulLess(n, 0, c + 1);
    assert n * (q + c) == n * q + n * c;
    MulLess(n, q + c, TWO_64);
  }

  /** A difference past int64 wraps to a negative step: from the second value on the average is then wrong. */
  lemma UpWraps(n: int, avg: int, val: int)
    requires 1 < n <= MAX_INT64 && Int64(avg) && Int64(val) && val - avg > MAX_INT64
    ensures Next(n, avg, val) != FloorMean(n, avg, val)
  {
    var d := val - avg;
    UpExact(n, avg, val);
    WrapUnique(d, d - TWO_64, 1);
    DivBounds(d, n);
    DivBounds(TWO_64 - d, n);
    var q := d / n;
    var c := (TWO_64 - d) / n;
    assert Quot(d - TWO_64, n) == -c;
    QuotSum(n, q, c, d);
    WrapDistinct(avg - c, avg + q);
  }

  /** The two quotients differ by less than 2^64, and by at least one. */
  lemma DownGap(n: int, d: int, a: int, b: int, w: int, k: int)
    requires 1 < n <= MAX_INT64 && 0 < d < TWO_64 && Int64(w)
    requires d * (n - 1) == w + k * TWO_64 && k >= 1
    requires n * a <= d * (n - 1) < n * a + n
    requires w - n < n * b < w + n
    ensures 0 < a - b < TWO_64
  {
    assert n * (a - b) == n * a - n * b;
    NonNeg(TWO_64 - 1 - d, n - 1);
    assert (TWO_64 - 1 - d) * (n - 1) == (TWO_64 - 1) * (n - 1) - d * (n - 1);
    assert k <= n - 1;
    MulLess(n, 0, a - b);
    MulLess(n, a - b, TWO_64);
  }

  lemma DownWraps(n: int, avg: int, val: int)
    requires 1 < n <= MAX_INT64 && Int64(avg) && Int64(val) && val < avg
    requires (avg - val) * (n - 1) > MAX_INT64
    ensures Next(n, avg, val) != FloorMean(n, avg, val)
  {
    var d := avg - val;
    var p := d * (n - 1);
    DownExact(n, avg, val);
    WrapProduct(d, n - 1);
    var w := Wrap(p);
    var k := WrapIs(p);
    DivBounds(p, n);
    QuotBounds(w, n);
    DownGap(n, d, p / n, Quot(w, n), w, k);
    WrapDistinct(val + Quot(w, n), val + p / n);
  }

  lemma DownFits(n: int, avg: int, val: int)
    requires 1 <= n && Int64(avg) && Int64(val) && val < avg
    requires (avg - val) * (n - 1) <= MAX_INT64
    ensures Next(n, avg, val) == FloorMean(n, avg, val)
  {
    var d := avg - val;
    DownExact(n, avg, val);
    WrapProduct(d, n - 1);
    assert d * (n - 1) >= 0;
  }

  lemma UpFits(n: int, avg: int, val: int)
    requires 1 <= n && Int64(avg) && Int64(val) && val > avg
    requires n == 1 || val - avg <= MAX_INT64
    ensures Next(n, avg, val) == FloorMean(n, avg, val)
  {
    var d := val - avg;
    UpExact(n, avg, val);
    if d > MAX_INT64 {
      WrapUnique(d, d - TWO_64, 1);
      WrapUnique(avg + d - TWO_64, val, -1);
    }
  }

  /**
   * Both branches, and the missing third one, compute the same rounded-down mean
   * exactly when the branch taken does not overflow.
   */
  lemma NextExactIff(n: int, avg: int, val: int)
    requires 1 <= n <= MAX_INT64 && Int64(avg) && Int64(val)
    ensures Next(n, avg, val) == FloorMean(n, avg, val) <==> Fits(n, avg, val)
  {
    if val > avg {
      if Fits(n, avg, val) {
        UpFits(n, avg, val);
      } else {
        UpWraps(n, avg, val);
      }
    } else if val < avg {
      if (avg - val) * (n - 1) <= MAX_INT64 {
        DownFits(n, avg, val);
      } else {
        DownWraps(n, avg, val);
      }
    } else {
      assert (n - 1) * avg + val == n * avg + 0;
      DivShift(n, avg, 0);
    }
  }

  lemma MeanBetween(n: int, avg: int, val: int, lo: int, hi: int)
    requires n > 0 && Int64(avg) && Int64(val)
    requires n == 1 || lo <= avg <= hi
    requires lo <= val <= hi
    ensures lo <= FloorMean(n, avg, val) <= hi
  {
    if n == 1 {
    } else if val > avg {
      UpExact(n, avg, val);
    } else if val < avg {
      DownExact(n, avg, val);
    } else {
      assert (n - 1) * avg + val == n * avg + 0;
      DivShift(n, avg, 0);
    }
  }

  // ---- whole runs ----

  predicate Int64s(vals: seq<int>) {
    forall i :: 0 <= i < |vals| ==> Int64(vals[i])
  }

  /** The average after the given values, oldest first. */
  function Run(vals: seq<int>): (r: int)
    ensures Int64(r)
  {
    if vals == [] then 0 else Next(|vals|, Run(vals[..|vals| - 1]), vals[|vals| - 1])
  }

  function Sum(vals: seq<int>): int {
    if vals == [] then 0 else Sum(vals[..|vals| - 1]) + vals[|vals| - 1]
  }

  /** No step of the run overflows. */
  predicate Fitting(vals: seq<int>) {
    vals == []
    || (Fitting(vals[..|vals| - 1]) && Fits(|vals|, Run(vals[..|vals| - 1]), vals[|vals| - 1]))
  }

  lemma RunAppend(vals: seq<int>, val: int)
    ensures Run(vals + [val]) == Next(|vals| + 1, Run(vals), val)
    ensures Int64s(vals) && Int64(val) ==> Int64s(vals + [val])
  {
    assert (vals + [val])[..|vals|] == vals;
  }

  lemma RunStep(vals: seq<int>)
    requires 0 < |vals| <= MAX_INT64 && Int64s(vals) && Fitting(vals)
    ensures Run(vals) == FloorMean(|vals|, Run(vals[..|vals| - 1]), vals[|vals| - 1])
  {
    NextExactIff(|vals|, Run(vals[..|vals| - 1]), vals[|vals| - 1]);
  }

  /** The average of one or more values lies between the least and the greatest. */
  lemma {:induction false} RunBetween(vals: seq<int>, lo: int, hi: int)
    requires 0 < |vals| <= MAX_INT64 && Int64s(vals) && Fitting(vals)
    requires forall i :: 0 <= i < |vals| ==> lo <= vals[i] <= hi
    ensures lo <= Run(vals) <= hi
  {
    var front := vals[..|vals| - 1];
    if front != [] {
      RunBetween(front, lo, hi);
    }
    RunStep(vals);
    MeanBetween(|vals|, Run(front), vals[|vals| - 1], lo, hi);
  }

  /** It is at most the true mean, and below it by at most (n - 1) / 2. */
  lemma {:induction false} RunBelowMean(vals: seq<int>)
    requires |vals| <= MAX_INT64 && Int64s(vals) && Fitting(vals)
    ensures 0 <= 2 * (Sum(vals) - |vals| * Run(vals)) <= |vals| * (|vals| - 1)
  {
    var n := |vals|;
    if n > 0 {
      var front := vals[..n - 1];
      RunBelowMean(front);
      RunStep(vals);
      var m := (n - 1) * Run(front) + vals[n - 1];
      DivBounds(m, n);
      MeanError(n, Sum(front), (n - 1) * Run(front), vals[n - 1], n * Run(vals));
    }
  }

  lemma MeanError(n: int, sum: int, scaled: int, val: int, next: int)
    requires n > 0
    requires 0 <= 2 * (sum - scaled) <= (n - 1) * (n - 2)
    requires next <= scaled + val < next + n
    ensures 0 <= 2 * (sum + val - next) <= n * (n - 1)
  {
    assert (n - 1) * (n - 2) + 2 * (n - 1) == n * (n - 1);
  }

  /** A spread that int64 can hold n times over never overflows, so the two bounds then hold. */
  lemma {:induction false} NarrowFits(vals: seq<int>, lo: int, hi: int)
    requires |vals| <= MAX_INT64 && Int64s(vals)
    requires forall i :: 0 <= i < |vals| ==> lo <= vals[i] <= hi
    requires lo <= hi && (hi - lo) * |vals| <= MAX_INT64
    ensures Fitting(vals)
  {
    var n := |vals|;
    if n > 0 {
      var front := vals[..n - 1];
      assert (hi - lo) * n == (hi - lo) * (n - 1) + (hi - lo);
      NonNeg(hi - lo, n - 1);
      NarrowFits(front, lo, hi);
      if front != [] {
        RunBetween(front, lo, hi);
        SpreadFits(n, Run(front), vals[n - 1], lo, hi);
      }
    }
  }

  lemma SpreadFits(n: int, avg: int, val: int, lo: int, hi: int)
    requires n > 0 && lo <= avg <= hi && lo <= val <= hi && (hi - lo) * (n - 1) + (hi - lo) <= MAX_INT64
    requires (hi - lo) * (n - 1) >= 0
    ensures Fits(n, avg, val)
  {
    if val <= avg {
      NonNeg((hi - lo) - (avg - val), n - 1);
      assert (avg - val) * (n - 1) == (hi - lo) * (n - 1) - ((hi - lo) - (avg - val)) * (n - 1);
    }
  }

  // ---- the bound is attained, and overflow breaks it ----

  /** 0, -1, -2, ... */
  function Ramp(n: nat): (r: seq<int>)
    ensures |r| == n
  {
    if n == 0 then [] else Ramp(n - 1) + [1 - n]
  }

  lemma RampMean(n: int)
    requires n > 1
    ensures FloorMean(n, 2 - n, 1 - n) == 1 - n
  {
    assert (n - 1) * (2 - n) + (1 - n) == n * (1 - n) + (n - 1);
    DivUnique(n * (1 - n) + (n - 1), n, 1 - n);
  }

  /** On a falling ramp the average is below the true mean by exactly (n - 1) / 2. */
  lemma {:induction false} RampAttainsBound(n: nat)
    requires 0 < n <= MAX_INT64
    ensures Int64s(Ramp(n)) && Fitting(Ramp(n)) && Run(Ramp(n)) == 1 - n
    ensures 2 * (Sum(Ramp(n)) - n * Run(Ramp(n))) == n * (n - 1)
  {
    var r := Ramp(n);
    assert r[..n - 1] == Ramp(n - 1);
    assert r[n - 1] == 1 - n;
    if n > 1 {
      RampAttainsBound(n - 1);
      RampMean(n);
      NextExactIff(n, 2 - n, 1 - n);
      RampSum(n, Sum(Ramp(n - 1)));
    }
  }

  lemma RampSum(n: int, sum: int)
    requires 2 * (sum - (n - 1) * (2 - n)) == (n - 1) * (n - 2)
    ensures 2 * (sum + (1 - n) - n * (1 - n)) == n * (n - 1)
  {
    assert (n - 1) * (2 - n) == -((n - 1) * (n - 2));
    assert n * (1 - n) == -(n * (n - 1));
    assert n * (n - 1) == (n - 1) * (n - 2) + 2 * (n - 1);
  }

  /** The least int64 followed by the greatest leaves the average at the least, far below the mean. */
  lemma OverflowBreaksBound()
    ensures var vals := [-MAX_INT64 - 1, MAX_INT64];
            Int64s(vals) && !Fitting(vals) && Run(vals) == -MAX_INT64 - 1
            && 2 * (Sum(vals) - 2 * Run(vals)) > 2 * (2 - 1)
  {
    var lo, hi := -MAX_INT64 - 1, MAX_INT64;
    var vals := [lo, hi];
    assert vals[..1] == [lo];
    assert [lo][..0] == [];
    assert Run([lo]) == Next(1, 0, lo) == lo;
    assert Sum([lo]) == lo;
    assert Wrap(hi - lo) == -1;
  }

  // ---- the object ----

  class Incremental {
    var count: int
    var avg: int
    /** Every value given so far. */
    ghost var seen: seq<int>

    ghost predicate Valid()
      reads this
    {
      Int64s(seen) && count == |seen| && avg == Run(seen)
    }

    constructor ()
      ensures Valid() && seen == []
    {
      count, avg, seen := 0, 0, [];
    }

    method Increment(val: int)
      requires Valid() && count < MAX_INT64 && Int64(val)
      modifies this
      ensures Valid() && seen == old(seen) + [val]
      ensures avg == Next(count, old(avg), val)
    {
      RunAppend(seen, val);
      count := count + 1;
      if val > avg {
        avg := Wrap(avg + Quot(Wrap(val - avg), count));
      } else if val < avg {
        avg := Wrap(val + Quot(Wrap(Wrap(avg - val) * (count - 1)), count));
      }
      seen := seen + [val];
    }

    /** The reading is sound whenever no increment so far overflowed. */
    method Value() returns (v: int)
      requires Valid() && count <= MAX_INT64
      ensures v == Run(seen)
      ensures Fitting(seen) ==> 0 <= 2 * (Sum(seen) - count * v) <= count * (count - 1)
    {
      v := avg;
      if Fitting(seen) {
        RunBelowMean(seen);
      }
    }
  }
}
