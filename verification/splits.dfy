/** How many items each vertical gets (src/lib/logic.ts:62-94): the variety
    slider, and the even, pareto and stage-weighted splits of a total. */
module Splits {
  import opened Types
  import opened Seqs

  /** `clamp`: `n` held inside [lo, hi]; when the bounds cross, `lo` wins. */
  function Clamp(n: int, lo: int, hi: int): (r: int)
    ensures lo <= hi ==> lo <= r <= hi
    ensures lo <= n <= hi ==> r == n
    ensures hi < lo ==> r == lo
  {
    Max(lo, Min(hi, n))
  }

  /** The nominal count of a slider level above 0. */
  function SliderBase(level: int): int {
    if level == 1 then 2 else if level == 2 then 3 else 5
  }

  /** `sliderToCount`: level 0 (or below) picks nothing; levels 1, 2 and 3+
      pick 2, 3 and 5, never more than `max` and never fewer than 1. */
  function SliderToCount(level: int, max: int): (r: int)
    ensures r == 0 <==> level <= 0
    ensures level > 0 ==> 1 <= r <= 5
    ensures level > 0 && max >= 1 ==> r <= max
    ensures level > 0 ==> r == Min(SliderBase(level), Max(max, 1))
  {
    if level <= 0 then 0
    else if level == 1 then Clamp(2, 1, max)
    else if level == 2 then Clamp(3, 1, max)
    else Clamp(5, 1, max)
  }

  /** A higher level never picks fewer. */
  lemma SliderMonotone(l1: int, l2: int, max: int)
    requires l1 <= l2
    ensures SliderToCount(l1, max) <= SliderToCount(l2, max)
  {
  }

  /** JavaScript's `%`: the remainder carries the sign of the dividend. */
  function JsRem(a: int, n: int): (r: int)
    requires n > 0
    ensures a >= 0 ==> 0 <= r < n && r == a % n
    ensures a < 0 ==> -n < r <= 0
  {
    if a >= 0 then a % n else -((-a) % n)
  }

  /** `n` entries of `base`, of which the first `rem` get one more. */
  function Steps(n: nat, base: int, rem: int): (r: seq<int>)
    ensures |r| == n
    ensures forall i, j :: 0 <= i < j < n ==> r[j] <= r[i] <= r[j] + 1
    ensures base >= 0 ==> forall i :: 0 <= i < n ==> r[i] >= 0
  {
    seq(n, i requires 0 <= i < n => base + (if i < rem then 1 else 0))
  }

  /** `evenSplitCounts`: `n` entries of floor(total / n), of which the first
      `total % n` (JavaScript remainder) get one more. A length of 0 or less
      gives the empty list. */
  function EvenSplit(total: int, n: int): (r: seq<int>)
    ensures |r| == Max(n, 0)
    ensures forall i, j :: 0 <= i < j < |r| ==> r[j] <= r[i] <= r[j] + 1
    ensures n > 0 && total >= 0 ==> Sum(r) == total
    ensures n > 0 && total >= 0 ==> forall i :: 0 <= i < |r| ==> r[i] == total / n + (if i < total % n then 1 else 0)
    ensures total >= 0 ==> forall i :: 0 <= i < |r| ==> r[i] >= 0
  {
    if n <= 0 then []
    else
      var base := total / n;
      assert total >= 0 ==> base >= 0 && Sum(Steps(n, base, JsRem(total, n))) == total by {
        if total >= 0 {
          EvenSum(total, n);
        }
      }
      Steps(n, base, JsRem(total, n))
  }

  lemma EvenSum(total: int, n: int)
    requires total >= 0 && n > 0
    ensures total / n >= 0
    ensures Sum(Steps(n, total / n, JsRem(total, n))) == total
  {
    var base, rem := total / n, total % n;
    SumSteps(Steps(n, base, rem), base, rem);
    assert n * base + rem == total;
  }

  /** A list that is `b + 1` on its first `m` entries and `b` on the rest sums
      to |s|·b plus the number of raised entries. */
  lemma {:induction false} SumSteps(s: seq<int>, b: int, m: int)
    requires forall i :: 0 <= i < |s| ==> s[i] == b + (if i < m then 1 else 0)
    ensures Sum(s) == |s| * b + Min(Max(m, 0), |s|)
  {
    if |s| > 0 {
      SumSteps(s[1..], b, m - 1);
      assert (|s| - 1) * b + b == |s| * b;
    }
  }

  /** With a negative total the JavaScript remainder is not positive, so no
      entry is raised and the split falls short of the total. */
  lemma EvenSplitNegativeTotal()
    ensures EvenSplit(-5, 2) == [-3, -3]
    ensures Sum(EvenSplit(-5, 2)) == -6
  {
    var r := EvenSplit(-5, 2);
    assert r[0] == -3 && r[1] == -3;
    assert r == [-3, -3];
  }

  /** `Math.round`: the nearest integer, halves rounded up. */
  function JsRound(x: real): (r: int)
    ensures x - 0.5 < r as real <= x + 0.5
  {
    (x + 0.5).Floor
  }

  /** The weight sum, with 0 replaced by 1 (`|| 1`). */
  function WeightSum(ws: seq<real>): (r: real)
    ensures r != 0.0
    ensures SumReal(ws) != 0.0 ==> r == SumReal(ws)
  {
    if SumReal(ws) == 0.0 then 1.0 else SumReal(ws)
  }

  /** Each weight's exact share of the total. */
  function Shares(total: int, ws: seq<real>): (r: seq<real>)
    ensures |r| == |ws|
  {
    seq(|ws|, i requires 0 <= i < |ws| => ws[i] / WeightSum(ws) * total as real)
  }

  function Rounded(xs: seq<real>): (r: seq<int>)
    ensures |r| == |xs|
    ensures forall i :: 0 <= i < |xs| ==> xs[i] - 0.5 < r[i] as real <= xs[i] + 0.5
  {
    seq(|xs|, i requires 0 <= i < |xs| => JsRound(xs[i]))
  }

  function Sign(d: int): int {
    if d > 0 then 1 else if d < 0 then -1 else 0
  }

  /** The correction loop of `paretoSplitCounts`: while `diff` is not 0, move
      entry `i % |counts|` one step toward it and advance `i`. On an empty list
      the steps land nowhere. When the residual fits between `i` and the end,
      exactly the entries i .. i+|diff|-1 move, by one step each. */
  function Correct(counts: seq<int>, diff: int, i: nat): (r: seq<int>)
    ensures |r| == |counts|
    ensures |counts| > 0 ==> Sum(r) == Sum(counts) + diff
    ensures i + Abs(diff) <= |counts| ==>
              forall j :: 0 <= j < |r| ==> r[j] == counts[j] + (if i <= j < i + Abs(diff) then Sign(diff) else 0)
    decreases Abs(diff)
  {
    if diff == 0 then counts
    else if |counts| == 0 then Correct(counts, diff - Sign(diff), i + 1)
    else
      // i % |counts|, written so that the in-range case needs no division
      var j := if i < |counts| then i else i % |counts|;
      SumUpdate(counts, j, Sign(diff));
      Correct(counts[j := counts[j] + Sign(diff)], diff - Sign(diff), i + 1)
  }

  /** `paretoSplitCounts`: round each weight's share of the total, then hand
      out the rounding residual one unit at a time from the front. */
  function ParetoSplit(total: int, ws: seq<real>): (r: seq<int>)
    ensures |r| == |ws|
    ensures |ws| > 0 ==> Sum(r) == total
  {
    var counts := Rounded(Shares(total, ws));
    Correct(counts, total - Sum(counts), 0)
  }

  /** The sum of the shares is the total whenever the weights do not sum to 0. */
  lemma {:induction false} SharesSum(total: int, ws: seq<real>)
    requires SumReal(ws) != 0.0
    ensures SumReal(Shares(total, ws)) == total as real
  {
    ScaledSum(ws, WeightSum(ws), total as real);
  }

  lemma {:induction false} ScaledSum(ws: seq<real>, s: real, t: real)
    requires s != 0.0
    ensures SumReal(seq(|ws|, i requires 0 <= i < |ws| => ws[i] / s * t)) == SumReal(ws) / s * t
  {
    var c := t / s;
    var xs := seq(|ws|, i requires 0 <= i < |ws| => ws[i] / s * t);
    forall k | 0 <= k < |ws|
      ensures xs[k] == ws[k] * c
    {
      DivMul(ws[k], s, t);
    }
    MulSum(ws, xs, c);
    DivMul(SumReal(ws), s, t);
  }

  lemma DivMul(x: real, s: real, t: real)
    requires s != 0.0
    ensures x / s * t == x * (t / s)
  {
  }

  /** Scaling every entry by `c` scales the sum by `c`. */
  lemma {:induction false} MulSum(ws: seq<real>, xs: seq<real>, c: real)
    requires |xs| == |ws| && forall k :: 0 <= k < |ws| ==> xs[k] == ws[k] * c
    ensures SumReal(xs) == SumReal(ws) * c
  {
    if |ws| > 0 {
      MulSum(ws[1..], xs[1..], c);
      assert ws[0] * c + SumReal(ws[1..]) * c == (ws[0] + SumReal(ws[1..])) * c;
    }
  }

  /** Rounding every entry moves the sum by at most half a unit per entry. */
  lemma {:induction false} RoundedSum(xs: seq<real>)
    ensures SumReal(xs) - 0.5 * |xs| as real <= Sum(Rounded(xs)) as real <= SumReal(xs) + 0.5 * |xs| as real
  {
    if |xs| > 0 {
      RoundedSum(xs[1..]);
      assert Rounded(xs)[1..] == Rounded(xs[1..]);
    }
  }

  /** When the weights do not sum to 0, the rounding residual is at most half
      the number of weights, so each count moves by at most one step and ends
      within 1.5 of its exact share. */
  lemma ParetoNearShare(total: int, ws: seq<real>)
    requires |ws| > 0 && SumReal(ws) != 0.0
    ensures forall j :: 0 <= j < |ws| ==>
              Shares(total, ws)[j] - 1.5 < ParetoSplit(total, ws)[j] as real <= Shares(total, ws)[j] + 1.5
  {
    var xs := Shares(total, ws);
    var counts := Rounded(xs);
    var diff := total - Sum(counts);
    SharesSum(total, ws);
    RoundedSum(xs);
    assert Abs(diff) <= |ws|;
    var r := ParetoSplit(total, ws);
    assert forall j :: 0 <= j < |r| ==> r[j] == counts[j] + (if 0 <= j < Abs(diff) then Sign(diff) else 0);
  }

  /** A zero weight can end below zero: the residual of rounding 0.5 up twice
      is taken back from the first entry. */
  lemma ParetoCanGoNegative()
    ensures ParetoSplit(1, [0.0, 1.0, 1.0]) == [-1, 1, 1]
  {
    var counts := Rounded(Shares(1, [0.0, 1.0, 1.0]));
    ExampleRounded();
    assert [1][1..] == [] && [1, 1][1..] == [1] && counts[1..] == [1, 1];
    assert Sum(counts) == 2;
    var r := Correct(counts, -1, 0);
    assert r[0] == -1 && r[1] == 1 && r[2] == 1;
  }

  lemma ExampleRounded()
    ensures Rounded(Shares(1, [0.0, 1.0, 1.0])) == [0, 1, 1]
  {
    var ws := [0.0, 1.0, 1.0];
    assert ws[1..] == [1.0, 1.0] && [1.0, 1.0][1..] == [1.0] && [1.0][1..] == [];
    assert SumReal(ws) == 2.0;
    assert WeightSum(ws) == 2.0;
    var xs := Shares(1, ws);
    assert xs[0] == 0.0 && xs[1] == 0.5 && xs[2] == 0.5;
    var counts := Rounded(xs);
    assert counts[0] == 0 && counts[1] == 1 && counts[2] == 1;
  }

  /** The stage weights: a vertical's entry in the map, or 1 when it has none. */
  function StageWeights(verticals: seq<string>, weights: map<string, real>): (ws: seq<real>)
    ensures |ws| == |verticals|
    ensures forall i :: 0 <= i < |verticals| ==> verticals[i] !in weights ==> ws[i] == 1.0
  {
    seq(|verticals|, i requires 0 <= i < |verticals| =>
      if verticals[i] in weights then weights[verticals[i]] else 1.0)
  }

  /** `stageWeightedCounts`: the pareto split over the stage weights. */
  function StageWeighted(total: int, verticals: seq<string>, weights: map<string, real>): (r: seq<int>)
    ensures |r| == |verticals|
    ensures |verticals| > 0 ==> Sum(r) == total
  {
    ParetoSplit(total, StageWeights(verticals, weights))
  }

  /** With no stage weights every vertical weighs 1, so each gets total/n
      rounded, give or take one step of the correction. */
  lemma StageUnweighted(total: int, verticals: seq<string>)
    requires |verticals| > 0
    ensures forall j :: 0 <= j < |verticals| ==>
              total as real / |verticals| as real - 1.5 < StageWeighted(total, verticals, map[])[j] as real
                <= total as real / |verticals| as real + 1.5
  {
    forall j | 0 <= j < |verticals| {
      UnweightedAt(total, verticals, j);
    }
  }

  lemma UnweightedAt(total: int, verticals: seq<string>, j: int)
    requires 0 <= j < |verticals|
    ensures var q := total as real / |verticals| as real;
            q - 1.5 < StageWeighted(total, verticals, map[])[j] as real <= q + 1.5
  {
    var ws := StageWeights(verticals, map[]);
    OnesSum(ws);
    UnitShare(total, ws, j);
    ParetoNearShare(total, ws);
  }

  /** With every weight 1, a share is the total over the count. */
  lemma UnitShare(total: int, ws: seq<real>, j: int)
    requires 0 <= j < |ws| && ws[j] == 1.0 && SumReal(ws) == |ws| as real
    ensures Shares(total, ws)[j] == total as real / |ws| as real
  {
    var n := |ws| as real;
    assert WeightSum(ws) == n;
    assert Shares(total, ws)[j] == 1.0 / n * total as real;
  }

  lemma {:induction false} OnesSum(ws: seq<real>)
    requires forall i :: 0 <= i < |ws| ==> ws[i] == 1.0
    ensures SumReal(ws) == |ws| as real
  {
    if |ws| > 0 {
      OnesSum(ws[1..]);
    }
  }

  /** How a total is spread over the verticals. */
  datatype Distribution = ParetoDist | EvenDist | StageDist

  /** The split both the generator and the budget derivation start from:
      even over the verticals, stage-weighted when stage weights are given,
      and pareto over the weight list otherwise. */
  function SplitCounts(dist: Distribution, total: int, verticals: seq<string>, weights: seq<real>,
                       stageWeights: Option<map<string, real>>): (counts: seq<int>)
    ensures dist == EvenDist ==> counts == EvenSplit(total, |verticals|)
    ensures dist == StageDist && stageWeights.Some? ==> counts == StageWeighted(total, verticals, stageWeights.value)
    ensures dist == ParetoDist || (dist == StageDist && stageWeights.None?) ==> counts == ParetoSplit(total, weights)
    ensures dist == EvenDist || (dist == StageDist && stageWeights.Some?) ==> |counts| == |verticals|
    ensures |counts| > 0 && total >= 0 ==> Sum(counts) == total
  {
    if dist == EvenDist then EvenSplit(total, |verticals|)
    else if dist == StageDist && stageWeights.Some? then StageWeighted(total, verticals, stageWeights.value)
    else ParetoSplit(total, weights)
  }
}
