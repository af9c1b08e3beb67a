/** The budget helpers of src/lib/budget.ts: minimum spend per variant,
    variant and concurrency ceilings, trimming counts to a budget and the
    per-vertical floor. */
module Budget {
  import opened Seqs

  /** `computeMSV`: the minimum spend per variant, target CPA times the
      factor (40 when not given). */
  function ComputeMSV(targetCPA: real, factor: real := 40.0): (msv: real)
    ensures targetCPA >= 0.0 && factor >= 0.0 ==> msv >= 0.0
    ensures factor == 40.0 ==> msv == 40.0 * targetCPA
  {
    MulNonNeg(targetCPA, factor);
    targetCPA * factor
  }

  /** The product of two non-negative numbers is non-negative. */
  lemma MulNonNeg(a: real, b: real)
    ensures a >= 0.0 && b >= 0.0 ==> a * b >= 0.0
  {
    if a >= 0.0 && b > 0.0 {
      MulMonotone(0.0, a, b);
    }
  }

  /** `computeMaxVariants`: how many whole variants the budget pays for at
      the minimum spend, the divisor raised to at least 1, never negative. */
  function ComputeMaxVariants(totalBudget: real, msv: real): (n: int)
    ensures n >= 0
    ensures totalBudget >= 0.0 ==>
              n as real * RMax(msv, 1.0) <= totalBudget < (n + 1) as real * RMax(msv, 1.0)
    ensures totalBudget < RMax(msv, 1.0) ==> n == 0
  {
    var m := RMax(msv, 1.0);
    FloorDiv(totalBudget, m);
    if (totalBudget / m).Floor >= 0 then (totalBudget / m).Floor else 0
  }

  /** floor(x / m) times m is at most x, and one more m exceeds it. */
  lemma FloorDiv(x: real, m: real)
    requires m > 0.0
    ensures (x / m).Floor as real * m <= x < ((x / m).Floor + 1) as real * m
    ensures x >= 0.0 ==> (x / m).Floor >= 0
    ensures x < m ==> (x / m).Floor <= 0
  {
    var q := x / m;
    assert q * m == x;
    var f := q.Floor;
    var lo, hi := f as real, (f + 1) as real;
    assert lo <= q < hi;
    MulMonotone(lo, q, m);
    MulMonotone(q, hi, m);
    assert lo * m <= q * m == x < hi * m;
    assert x / m == q;
    if x < m {
      assert q < 1.0 by {
        if q >= 1.0 {
          MulMonotone(1.0, q, m);
        }
      }
    }
  }

  lemma MulMonotone(a: real, b: real, m: real)
    requires m > 0.0 && a <= b
    ensures a * m <= b * m
    ensures a < b ==> a * m < b * m
  {
  }

  /** A number that may be infinite: the result of dividing by zero. */
  datatype Extended = Finite(n: int) | PosInfinity

  /** `computeMaxConcurrent`: 0 unless the daily budget is positive; otherwise
      how many variants the daily budget keeps running, each needing
      msv / readDays per day, with readDays raised to at least 1. A zero
      minimum spend divides by zero and yields Infinity. */
  function ComputeMaxConcurrent(dailyBudget: real, msv: real, readDays: real): (r: Extended)
    ensures dailyBudget <= 0.0 ==> r == Finite(0)
    ensures dailyBudget > 0.0 && msv == 0.0 ==> r == PosInfinity
    ensures dailyBudget > 0.0 && msv > 0.0 ==>
              r.Finite? && r.n >= 0 &&
              r.n as real * msv <= dailyBudget * RMax(readDays, 1.0) < (r.n + 1) as real * msv
    ensures dailyBudget > 0.0 && msv < 0.0 ==> r.Finite? && r.n < 0
  {
    if dailyBudget <= 0.0 then Finite(0)
    else if msv == 0.0 then PosInfinity
    else
      var perDay := msv / RMax(readDays, 1.0);
      if msv > 0.0 then
        ConcurrentBound(dailyBudget, msv, RMax(readDays, 1.0));
        Finite((dailyBudget / perDay).Floor)
      else
        NegativeQuotient(dailyBudget, perDay);
        Finite((dailyBudget / perDay).Floor)
  }

  lemma ConcurrentBound(daily: real, msv: real, days: real)
    requires daily > 0.0 && msv > 0.0 && days >= 1.0
    ensures var f := (daily / (msv / days)).Floor;
            f >= 0 && f as real * msv <= daily * days < (f + 1) as real * msv
  {
    var p := msv / days;
    assert p > 0.0;
    FloorDiv(daily, p);
    var f := (daily / p).Floor;
    assert f as real * p * days == f as real * msv;
    assert (f + 1) as real * p * days == (f + 1) as real * msv;
    MulMonotone(f as real * p, daily, days);
    MulMonotone(daily, (f + 1) as real * p, days);
  }

  lemma NegativeQuotient(x: real, p: real)
    requires x > 0.0 && p < 0.0
    ensures (x / p).Floor < 0
  {
    assert x / p < 0.0;
  }

  predicate NonNeg(s: seq<int>) {
    forall i :: 0 <= i < |s| ==> s[i] >= 0
  }

  /** The first index holding the maximum (`indexOf(Math.max(...))`). */
  function FirstMax(s: seq<int>): (i: nat)
    requires |s| > 0
    ensures i < |s|
    ensures forall j :: 0 <= j < |s| ==> s[j] <= s[i]
    ensures forall j :: 0 <= j < i ==> s[j] < s[i]
  {
    if |s| == 1 then 0
    else
      var j := FirstMax(s[1..]) + 1;
      if s[0] >= s[j] then 0 else j
  }

  /** A sum of entries no larger than `m` is at most |s|·m. */
  lemma {:induction false} SumAtMost(s: seq<int>, m: int)
    requires forall i :: 0 <= i < |s| ==> s[i] <= m
    ensures Sum(s) <= |s| * m
  {
    if |s| > 0 {
      SumAtMost(s[1..], m);
      assert (|s| - 1) * m + m == |s| * m;
    }
  }

  /** Every entry that was trimmed is within one of the largest entry. */
  predicate TrimsLargest(counts: seq<int>, out: seq<int>)
    requires |out| == |counts|
  {
    forall k, j :: 0 <= k < |out| && 0 <= j < |out| && out[k] < counts[k] ==> out[j] <= out[k] + 1
  }

  /** `clampCountsToBudget`: while the running total exceeds the ceiling,
      take one from the first largest entry (never below 0). With
      non-negative counts and ceiling the result sums to the smaller of the
      two, no entry grows, and only the largest entries are trimmed. */
  method ClampCountsToBudget(counts: seq<int>, maxVariants: int) returns (out: seq<int>)
    ensures |out| == |counts|
    ensures forall i :: 0 <= i < |out| ==> out[i] == counts[i] || out[i] >= 0
    ensures NonNeg(counts) ==> NonNeg(out) && forall i :: 0 <= i < |out| ==> out[i] <= counts[i]
    ensures NonNeg(counts) && maxVariants >= 0 ==> Sum(out) == Min(Sum(counts), maxVariants)
    ensures NonNeg(counts) ==> TrimsLargest(counts, out)
  {
    var total := Sum(counts);
    out := counts;
    while total > maxVariants
      invariant |out| == |counts|
      invariant forall i :: 0 <= i < |out| ==> out[i] == counts[i] || out[i] >= 0
      invariant NonNeg(counts) ==> NonNeg(out) && forall i :: 0 <= i < |out| ==> out[i] <= counts[i]
      invariant NonNeg(counts) && maxVariants >= 0 ==> total == Sum(out)
      invariant total <= Sum(counts) && total >= Min(Sum(counts), maxVariants)
      invariant NonNeg(counts) ==> TrimsLargest(counts, out)
      decreases total - maxVariants
    {
      if |out| == 0 {
        break;
      }
      var i := FirstMax(out);
      if NonNeg(counts) && maxVariants >= 0 {
        if out[i] <= 0 {
          SumAtMost(out, 0);
          assert false;
        }
        SumUpdate(out, i, -1);
      }
      out := out[i := Max(0, out[i] - 1)];
      total := total - 1;
    }
  }

  /** `enforceMinPerVertical`: a count below the floor (3 by default)
      becomes 0. */
  function EnforceMinPerVertical(counts: seq<int>, min: int := 3): (r: seq<int>)
    ensures |r| == |counts|
    ensures forall i :: 0 <= i < |r| ==> r[i] == 0 || r[i] >= min
    ensures forall i :: 0 <= i < |r| ==> (r[i] == counts[i] <==> counts[i] >= min || counts[i] == 0)
    ensures forall i :: 0 <= i < |r| && counts[i] >= min ==> r[i] == counts[i]
    ensures forall i :: 0 <= i < |r| && counts[i] < min ==> r[i] == 0
    ensures NonNeg(counts) ==> Sum(r) <= Sum(counts)
  {
    var r := seq(|counts|, i requires 0 <= i < |counts| => if counts[i] >= min then counts[i] else 0);
    assert NonNeg(counts) ==> Sum(r) <= Sum(counts) by {
      if NonNeg(counts) {
        SumPointwise(r, counts);
      }
    }
    r
  }

  lemma {:induction false} SumPointwise(a: seq<int>, b: seq<int>)
    requires |a| == |b| && forall i :: 0 <= i < |a| ==> a[i] <= b[i]
    ensures Sum(a) <= Sum(b)
  {
    if |a| > 0 {
      SumPointwise(a[1..], b[1..]);
    }
  }

  /** Applying the floor twice is applying it once. */
  lemma EnforceMinIdempotent(counts: seq<int>, min: int)
    ensures EnforceMinPerVertical(EnforceMinPerVertical(counts, min), min) == EnforceMinPerVertical(counts, min)
  {
    var once := EnforceMinPerVertical(counts, min);
    var twice := EnforceMinPerVertical(once, min);
    assert forall i :: 0 <= i < |once| ==> twice[i] == once[i];
  }
}
