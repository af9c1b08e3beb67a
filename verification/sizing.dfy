/** Sizing a run from its budget (src/lib/logic.ts:328-453): the budget
    ceilings as logic.ts computes them, the derivation of per-vertical
    counts with its drop-and-recompute loop, and the Learn/Scale split. */
module Sizing {
  import opened Types
  import opened Seqs
  import opened Splits
  import Budget

  /** `computeMinSpendPerVariant`: target CPA times the factor (40 when not
      given). */
  function ComputeMinSpendPerVariant(targetCPA: real, factor: real := 40.0): (msv: real)
    ensures targetCPA >= 0.0 && factor >= 0.0 ==> msv >= 0.0
    ensures msv == Budget.ComputeMSV(targetCPA, factor)
  {
    Budget.MulNonNeg(targetCPA, factor);
    targetCPA * factor
  }

  /** `computeMaxVariants` of logic.ts: 0 for a non-positive minimum spend,
      otherwise the number of whole minimum spends in the budget. */
  function ComputeMaxVariants(totalBudget: real, msv: real): (n: int)
    ensures msv <= 0.0 ==> n == 0
    ensures msv > 0.0 ==> n as real * msv <= totalBudget < (n + 1) as real * msv
    ensures msv > 0.0 && totalBudget >= 0.0 ==> n >= 0
  {
    if msv <= 0.0 then 0
    else
      Budget.FloorDiv(totalBudget, msv);
      (totalBudget / msv).Floor
  }

  /** The two `computeMaxVariants` agree on a non-negative budget once the
      minimum spend is at least 1; below that budget.ts divides by 1 where
      logic.ts divides by the spend itself, or returns 0. */
  lemma MaxVariantsAgree(totalBudget: real, msv: real)
    requires totalBudget >= 0.0
    ensures msv >= 1.0 ==> ComputeMaxVariants(totalBudget, msv) == Budget.ComputeMaxVariants(totalBudget, msv)
    ensures msv <= 0.0 && totalBudget >= 1.0 ==>
              ComputeMaxVariants(totalBudget, msv) == 0 < Budget.ComputeMaxVariants(totalBudget, msv)
  {
    if msv >= 1.0 {
      Budget.FloorDiv(totalBudget, msv);
      assert RMax(msv, 1.0) == msv;
    }
  }

  /** `computeMaxConcurrent` of logic.ts: 0 unless all three inputs are
      positive; otherwise how many variants the daily budget keeps running
      when each needs msv / readDays per day. */
  function ComputeMaxConcurrent(dailyBudget: real, msv: real, readDays: real): (n: int)
    ensures n >= 0
    ensures dailyBudget <= 0.0 || msv <= 0.0 || readDays <= 0.0 ==> n == 0
    ensures dailyBudget > 0.0 && msv > 0.0 && readDays > 0.0 ==>
              n as real * msv <= dailyBudget * readDays < (n + 1) as real * msv
  {
    if dailyBudget <= 0.0 || msv <= 0.0 || readDays <= 0.0 then 0
    else
      ConcurrentFloor(dailyBudget, msv, readDays);
      (dailyBudget / (msv / readDays)).Floor
  }

  lemma ConcurrentFloor(daily: real, msv: real, days: real)
    requires daily > 0.0 && msv > 0.0 && days > 0.0
    ensures var f := (daily / (msv / days)).Floor;
            f >= 0 && f as real * msv <= daily * days < (f + 1) as real * msv
  {
    var p := msv / days;
    Budget.FloorDiv(daily, p);
    var f := (daily / p).Floor;
    assert f as real * p * days == f as real * msv;
    assert (f + 1) as real * p * days == (f + 1) as real * msv;
    Budget.MulMonotone(f as real * p, daily, days);
    Budget.MulMonotone(daily, (f + 1) as real * p, days);
  }

  /** The smallest count a vertical may keep. */
  const MinPerVertical: int := 3

  /** The two warnings a plan can carry. */
  datatype Warning = InsufficientWarning | DroppedWarning

  /** The text of each warning. */
  function Message(w: Warning): string {
    match w
    case InsufficientWarning => "Insufficient budget for 3 variations per vertical."
    case DroppedWarning => "Some verticals were dropped due to < 3 variations under floor."
  }

  datatype BudgetArgs = BudgetArgs(
    totalBudget: real,
    targetCPA: real,
    minSpendFactor: real,
    readDays: Option<real>,
    dailyBudget: Option<real>,
    verticalValues: seq<string>,
    distribution: Distribution,
    weights: seq<real>,
    stageWeights: Option<map<string, real>>)

  datatype BudgetPlan = BudgetPlan(
    minSpendPerVariant: real,
    maxVariants: int,
    maxConcurrent: Option<int>,
    adsTotal: int,
    counts: seq<int>,
    usedVerticals: seq<string>,
    droppedVerticals: seq<string>,
    warnings: seq<Warning>)

  /** A number is truthy when it is given and not 0. */
  predicate Truthy(x: Option<real>) {
    x.Some? && x.value != 0.0
  }

  /** Every count reaches the floor (`keepMask.every(Boolean)`). */
  predicate AllKept(counts: seq<int>) {
    forall i :: 0 <= i < |counts| ==> counts[i] >= MinPerVertical
  }

  /** Position `i` has a count and it reaches the floor (`keepMask[i]`). */
  predicate KeepAt(counts: seq<int>, i: int) {
    0 <= i < |counts| && counts[i] >= MinPerVertical
  }

  /** The verticals whose count reaches the floor; a vertical past the end of
      the counts has no count and is not kept. */
  function Kept(used: seq<string>, counts: seq<int>): (r: seq<string>)
    ensures IsSubseq(r, used)
    ensures |r| <= |used|
    ensures |r| == |used| ==> forall i :: 0 <= i < |used| ==> KeepAt(counts, i)
    ensures forall i :: 0 <= i < |used| && KeepAt(counts, i) ==> used[i] in r
    ensures forall x :: x in r ==> exists i :: 0 <= i < |used| && used[i] == x && KeepAt(counts, i)
  {
    if |used| == 0 then []
    else
      var tail := if |counts| > 0 then counts[1..] else [];
      var rest := Kept(used[1..], tail);
      ShiftKeep(used, counts);
      if KeepAt(counts, 0) then
        assert ([used[0]] + rest)[1..] == rest;
        assert |rest| == |used| - 1 ==> forall i :: 0 <= i < |used| ==> KeepAt(counts, i) by {
          if |rest| == |used| - 1 {
            forall i | 0 <= i < |used|
              ensures KeepAt(counts, i)
            {
              if i > 0 {
                assert KeepAt(tail, i - 1);
              }
            }
          }
        }
        [used[0]] + rest
      else
        SubseqConsRight(rest, used[0], used[1..]);
        assert used == [used[0]] + used[1..];
        rest
  }

  /** The verticals whose count misses the floor. */
  function Missed(used: seq<string>, counts: seq<int>): (r: seq<string>)
    ensures |r| <= |used|
    ensures forall i :: 0 <= i < |used| && !KeepAt(counts, i) ==> used[i] in r
    ensures forall x :: x in r ==> exists i :: 0 <= i < |used| && used[i] == x && !KeepAt(counts, i)
  {
    if |used| == 0 then []
    else
      var rest := Missed(used[1..], if |counts| > 0 then counts[1..] else []);
      ShiftKeep(used, counts);
      if KeepAt(counts, 0) then rest else [used[0]] + rest
  }

  /** Position `i + 1` of the verticals is position `i` of their tail, for
      the counts as for the names. */
  lemma ShiftKeep(used: seq<string>, counts: seq<int>)
    requires |used| > 0
    ensures forall i :: 1 <= i < |used| ==> used[1..][i - 1] == used[i]
    ensures forall i :: 1 <= i < |used| ==>
              (KeepAt(counts, i) <==> KeepAt(if |counts| > 0 then counts[1..] else [], i - 1))
  {
  }

  /** Every vertical is either kept or missed, and not both. */
  lemma {:induction false} KeptMissedPartition(used: seq<string>, counts: seq<int>)
    ensures multiset(Kept(used, counts)) + multiset(Missed(used, counts)) == multiset(used)
  {
    if |used| > 0 {
      var tail := if |counts| > 0 then counts[1..] else [];
      KeptMissedPartition(used[1..], tail);
      assert used == [used[0]] + used[1..];
    }
  }

  function IndexOf(xs: seq<string>, x: string): (i: int)
    ensures -1 <= i < |xs|
    ensures i >= 0 ==> xs[i] == x && forall j :: 0 <= j < i ==> xs[j] != x
    ensures i == -1 ==> x !in xs
  {
    if |xs| == 0 then -1
    else if xs[0] == x then 0
    else
      var j := IndexOf(xs[1..], x);
      if j == -1 then -1 else j + 1
  }

  /** The pareto weights of the remaining verticals: each vertical's weight
      by its first position in the original list, 1 when there is none. */
  function FilteredWeights(used: seq<string>, verticals: seq<string>, weights: seq<real>): (ws: seq<real>)
    ensures |ws| == |used|
  {
    seq(|used|, i requires 0 <= i < |used| =>
      var idx := IndexOf(verticals, used[i]);
      if 0 <= idx < |weights| then weights[idx] else 1.0)
  }

  /** The stage weights restricted to the remaining verticals, 1 when absent. */
  function FilteredMap(used: seq<string>, sw: map<string, real>): (m: map<string, real>)
    ensures forall v :: v in used ==> v in m
  {
    map v | v in used :: if v in sw then sw[v] else 1.0
  }

  /** Restricting the stage weights to the remaining verticals changes none
      of their weights. */
  lemma FilteredMapSameWeights(used: seq<string>, sw: map<string, real>)
    ensures StageWeights(used, FilteredMap(used, sw)) == StageWeights(used, sw)
  {
    var a, b := StageWeights(used, FilteredMap(used, sw)), StageWeights(used, sw);
    forall i | 0 <= i < |used|
      ensures a[i] == b[i]
    {
      assert used[i] in used;
    }
  }

  /** The counts recomputed over the remaining verticals. */
  function Recount(a: BudgetArgs, total: int, used: seq<string>): (counts: seq<int>)
    ensures |counts| == |used|
    ensures |used| > 0 && total >= 0 ==> Sum(counts) == total
  {
    if a.distribution == EvenDist then EvenSplit(total, |used|)
    else if a.distribution == StageDist && a.stageWeights.Some? then
      StageWeighted(total, used, FilteredMap(used, a.stageWeights.value))
    else ParetoSplit(total, FilteredWeights(used, a.verticalValues, a.weights))
  }

  datatype DropState = DropState(
    counts: seq<int>, used: seq<string>, dropped: seq<string>, adsTotal: int, warnings: seq<Warning>)

  /** The counts add up to the total whenever there are any and the total is
      not negative. */
  predicate Balanced(st: DropState) {
    |st.counts| > 0 && st.adsTotal >= 0 ==> Sum(st.counts) == st.adsTotal
  }

  /** Vertical `x` is one of the current verticals and its count misses the
      floor (or it has none). */
  predicate ShortAt(st: DropState, x: string) {
    exists i :: 0 <= i < |st.used| && st.used[i] == x && !KeepAt(st.counts, i)
  }

  /** One round of `dropAndRecalc` when some count misses the floor: drop
      those verticals (newest drops first) and recompute over the rest, or
      give up with nothing when none is left. */
  function DropStep(a: BudgetArgs, st: DropState): (r: DropState)
    ensures multiset(r.used) + multiset(r.dropped) == multiset(st.used) + multiset(st.dropped)
    ensures IsSubseq(r.used, st.used)
    ensures |r.counts| == |r.used|
    ensures r.used == [] ==> r.counts == [] && r.adsTotal == 0 && r.warnings == st.warnings + [InsufficientWarning]
    ensures r.used != [] ==> r.adsTotal == st.adsTotal && r.warnings == st.warnings && Balanced(r)
    ensures forall i :: 0 <= i < |st.used| && KeepAt(st.counts, i) ==> st.used[i] in r.used
    ensures forall x :: x in r.used ==> exists i :: 0 <= i < |st.used| && st.used[i] == x && KeepAt(st.counts, i)
    ensures forall i :: 0 <= i < |st.used| && !KeepAt(st.counts, i) ==> st.used[i] in r.dropped
    ensures EndsWith(r.dropped, st.dropped)
    ensures forall j :: 0 <= j < |r.dropped| - |st.dropped| ==> ShortAt(st, r.dropped[j])
  {
    var kept := Kept(st.used, st.counts);
    var dropped := Missed(st.used, st.counts) + st.dropped;
    KeptMissedPartition(st.used, st.counts);
    RoundDrops(st);
    if |kept| == 0 then DropState([], [], dropped, 0, st.warnings + [InsufficientWarning])
    else DropState(Recount(a, st.adsTotal, kept), kept, dropped, st.adsTotal, st.warnings)
  }

  /** The drops of one round go in front of the earlier ones, and each of
      them misses the floor in that round. */
  lemma RoundDrops(st: DropState)
    ensures var d := Missed(st.used, st.counts) + st.dropped;
            EndsWith(d, st.dropped) &&
            (forall j :: 0 <= j < |d| - |st.dropped| ==> ShortAt(st, d[j])) &&
            (forall i :: 0 <= i < |st.used| && !KeepAt(st.counts, i) ==> st.used[i] in d)
  {
    var m := Missed(st.used, st.counts);
    var d := m + st.dropped;
    assert d[|m|..] == st.dropped;
    forall j | 0 <= j < |m|
      ensures ShortAt(st, d[j])
    {
      assert d[j] == m[j] && m[j] in m;
    }
  }

  /** A round that does not empty the list shrinks it, unless the counts were
      longer than the verticals, in which case it brings them into step. */
  lemma DropStepProgress(a: BudgetArgs, st: DropState)
    requires !AllKept(st.counts)
    ensures |DropStep(a, st).used| < |st.used| ||
            (|DropStep(a, st).used| == |st.used| && |st.counts| > |st.used|)
  {
    var kept := Kept(st.used, st.counts);
    if |kept| == |st.used| {
      var i :| 0 <= i < |st.counts| && st.counts[i] < MinPerVertical;
      assert !KeepAt(st.counts, i);
      assert i >= |st.used|;
    }
  }

  /** In step, a round that does not finish strictly shrinks the verticals. */
  lemma DropStepShrinks(a: BudgetArgs, st: DropState)
    requires |st.counts| == |st.used| && !AllKept(st.counts)
    ensures |DropStep(a, st).used| < |st.used|
  {
    DropStepProgress(a, st);
  }

  /** `while (dropAndRecalc())`: repeat until every count reaches the floor. */
  function DropLoop(a: BudgetArgs, st: DropState): (r: DropState)
    ensures multiset(r.used) + multiset(r.dropped) == multiset(st.used) + multiset(st.dropped)
    ensures IsSubseq(r.used, st.used)
    ensures AllKept(r.counts)
    ensures (r.adsTotal == st.adsTotal && r.warnings == st.warnings) ||
            (r.adsTotal == 0 && r.counts == [] && r.used == [] && r.warnings == st.warnings + [InsufficientWarning])
    ensures Balanced(st) ==> Balanced(r)
    ensures |st.counts| == |st.used| ==> |r.counts| == |r.used|
    ensures AllKept(st.counts) ==> r == st
    ensures !AllKept(st.counts) ==>
              forall x :: x in r.used ==> exists i :: 0 <= i < |st.used| && st.used[i] == x && KeepAt(st.counts, i)
    decreases |st.used|, if |st.counts| == |st.used| then 0 else 1
  {
    if AllKept(st.counts) then
      SubseqRefl(st.used);
      st
    else
      var next := DropStep(a, st);
      DropStepProgress(a, st);
      if next.used == [] then next
      else
        var r := DropLoop(a, next);
        SubseqTrans(r.used, next.used, st.used);
        SurvivorsKept(a, st, next, r.used);
        r
  }

  /** Vertical `x` misses the floor in `st` or, once the round from `st` has
      run and left some verticals, in a later round. */
  predicate ShortInSomeRound(a: BudgetArgs, st: DropState, x: string)
    decreases |st.used|, if |st.counts| == |st.used| then 0 else 1
  {
    ShortAt(st, x) ||
    (!AllKept(st.counts) &&
     var next := DropStep(a, st);
     DropStepProgress(a, st);
     next.used != [] && ShortInSomeRound(a, next, x))
  }

  /** Whatever survives the later rounds was kept by the round from `st`. */
  lemma SurvivorsKept(a: BudgetArgs, st: DropState, next: DropState, used: seq<string>)
    requires next == DropStep(a, st) && IsSubseq(used, next.used)
    ensures forall x :: x in used ==> exists i :: 0 <= i < |st.used| && st.used[i] == x && KeepAt(st.counts, i)
  {
    SubseqMembers(used, next.used);
  }

  /** A vertical short in a round after the one from `st` is short in some
      round from `st`. */
  lemma ShortLater(a: BudgetArgs, st: DropState, x: string)
    requires !AllKept(st.counts) && DropStep(a, st).used != []
    requires ShortInSomeRound(a, DropStep(a, st), x)
    ensures ShortInSomeRound(a, st, x)
  {
  }

  /** Composing one round with the rounds after it: the drops still end with
      the earlier ones, and each vertical the round dropped stays dropped. */
  lemma LaterDrops(st: DropState, next: DropState, r: DropState)
    requires EndsWith(next.dropped, st.dropped)
    requires forall i :: 0 <= i < |st.used| && !KeepAt(st.counts, i) ==> st.used[i] in next.dropped
    requires EndsWith(r.dropped, next.dropped)
    ensures EndsWith(r.dropped, st.dropped)
    ensures forall i :: 0 <= i < |st.used| && !KeepAt(st.counts, i) ==> st.used[i] in r.dropped
  {
    EndsWithTrans(r.dropped, next.dropped, st.dropped);
    var k := |r.dropped| - |next.dropped|;
    forall i | 0 <= i < |st.used| && !KeepAt(st.counts, i)
      ensures st.used[i] in r.dropped
    {
      var j :| 0 <= j < |next.dropped| && next.dropped[j] == st.used[i];
      assert r.dropped[k + j] == st.used[i];
    }
  }

  /** The rounds from `st` put their drops in front of the earlier ones;
      every vertical they drop misses the floor in the round that drops it,
      and every vertical short in `st` itself is dropped. */
  lemma {:induction false} DropLoopDrops(a: BudgetArgs, st: DropState)
    ensures var r := DropLoop(a, st);
            EndsWith(r.dropped, st.dropped) &&
            (forall j :: 0 <= j < |r.dropped| - |st.dropped| ==> ShortInSomeRound(a, st, r.dropped[j])) &&
            (!AllKept(st.counts) ==>
               forall i :: 0 <= i < |st.used| && !KeepAt(st.counts, i) ==> st.used[i] in r.dropped)
    decreases |st.used|, if |st.counts| == |st.used| then 0 else 1
  {
    if AllKept(st.counts) {
      assert st.dropped[|st.dropped| - |st.dropped|..] == st.dropped;
    } else {
      var next := DropStep(a, st);
      DropStepProgress(a, st);
      if next.used != [] {
        DropLoopDrops(a, next);
        var r := DropLoop(a, next);
        LaterDrops(st, next, r);
        ShortThroughNext(a, st, next, r);
      }
    }
  }

  /** One round followed by the later ones: a drop that is new since `next`
      was short in a later round, and one new in `next` was short in `st`. */
  lemma ShortThroughNext(a: BudgetArgs, st: DropState, next: DropState, r: DropState)
    requires !AllKept(st.counts) && next == DropStep(a, st) && next.used != []
    requires EndsWith(r.dropped, next.dropped)
    requires forall j :: 0 <= j < |r.dropped| - |next.dropped| ==> ShortInSomeRound(a, next, r.dropped[j])
    ensures forall j :: 0 <= j < |r.dropped| - |st.dropped| ==> ShortInSomeRound(a, st, r.dropped[j])
  {
    EndsWithTrans(r.dropped, next.dropped, st.dropped);
    var k := |r.dropped| - |next.dropped|;
    forall j | 0 <= j < |r.dropped| - |st.dropped|
      ensures ShortInSomeRound(a, st, r.dropped[j])
    {
      if j >= k {
        assert ShortAt(st, next.dropped[j - k]);
      } else {
        ShortLater(a, st, r.dropped[j]);
      }
    }
  }

  /** Every vertical `deriveCountsWithBudget` drops missed the floor in the
      round that dropped it, starting from the initial split; every vertical
      whose initial count misses the floor is dropped, and every vertical
      kept at the end reached it in the initial split. */
  lemma DerivedDrops(a: BudgetArgs)
    ensures var p := DeriveCountsWithBudget(a);
            forall j :: 0 <= j < |p.droppedVerticals| ==> ShortInSomeRound(a, InitialState(a), p.droppedVerticals[j])
    ensures var p, init := DeriveCountsWithBudget(a), InitialState(a);
            !AllKept(init.counts) ==>
              forall i :: 0 <= i < |init.used| && !KeepAt(init.counts, i) ==> init.used[i] in p.droppedVerticals
    ensures var p, init := DeriveCountsWithBudget(a), InitialState(a);
            !AllKept(init.counts) ==>
              forall x :: x in p.usedVerticals ==> exists i :: 0 <= i < |init.used| && init.used[i] == x && KeepAt(init.counts, i)
  {
    DropLoopDrops(a, InitialState(a));
  }

  /** The state before the first round: the initial split of the variant
      ceiling over all verticals, nothing dropped, and the early budget
      warning when the ceiling cannot give every vertical the floor. */
  function InitialState(a: BudgetArgs): (st: DropState)
    ensures st.used == a.verticalValues && st.dropped == []
    ensures st.adsTotal == ComputeMaxVariants(a.totalBudget, ComputeMinSpendPerVariant(a.targetCPA, a.minSpendFactor))
    ensures st.warnings == [InsufficientWarning] <==> st.adsTotal < MinPerVertical * |a.verticalValues|
    ensures st.warnings == [] <==> st.adsTotal >= MinPerVertical * |a.verticalValues|
  {
    var msv := ComputeMinSpendPerVariant(a.targetCPA, a.minSpendFactor);
    var maxVariants := ComputeMaxVariants(a.totalBudget, msv);
    var warnings := if maxVariants < MinPerVertical * |a.verticalValues| then [InsufficientWarning] else [];
    var counts := SplitCounts(a.distribution, maxVariants, a.verticalValues, a.weights, a.stageWeights);
    DropState(counts, a.verticalValues, [], maxVariants, warnings)
  }

  /** `deriveCountsWithBudget`. */
  function DeriveCountsWithBudget(a: BudgetArgs): (p: BudgetPlan)
    ensures p.minSpendPerVariant == ComputeMinSpendPerVariant(a.targetCPA, a.minSpendFactor)
    ensures p.maxVariants == ComputeMaxVariants(a.totalBudget, p.minSpendPerVariant)
    ensures p.maxConcurrent.Some? <==> Truthy(a.dailyBudget) && Truthy(a.readDays)
    ensures p.maxVariants < MinPerVertical * |a.verticalValues| ==> |p.warnings| > 0 && p.warnings[0] == InsufficientWarning
    ensures DroppedWarning in p.warnings ==> p.warnings[|p.warnings| - 1] == DroppedWarning
    ensures forall i :: 0 <= i < |p.warnings| - 1 ==> p.warnings[i] == InsufficientWarning
    ensures DroppedWarning in p.warnings <==> |p.droppedVerticals| > 0
    ensures multiset(p.usedVerticals) + multiset(p.droppedVerticals) == multiset(a.verticalValues)
    ensures IsSubseq(p.usedVerticals, a.verticalValues)
    ensures AllKept(p.counts)
    ensures p.adsTotal == p.maxVariants || (p.adsTotal == 0 && p.counts == [] && p.usedVerticals == [])
    ensures |p.counts| > 0 && p.adsTotal >= 0 ==> Sum(p.counts) == p.adsTotal
    ensures a.distribution == EvenDist || (a.distribution == StageDist && a.stageWeights.Some?) ==>
              |p.counts| == |p.usedVerticals|
  {
    var msv := ComputeMinSpendPerVariant(a.targetCPA, a.minSpendFactor);
    var maxVariants := ComputeMaxVariants(a.totalBudget, msv);
    var maxConcurrent :=
      if Truthy(a.dailyBudget) && Truthy(a.readDays)
      then Some(ComputeMaxConcurrent(a.dailyBudget.value, msv, a.readDays.value))
      else None;
    var warnings := if maxVariants < MinPerVertical * |a.verticalValues| then [InsufficientWarning] else [];
    var st := DropLoop(a, InitialState(a));
    assert DroppedWarning !in st.warnings by {
      assert st.warnings == warnings || st.warnings == warnings + [InsufficientWarning];
    }
    Finish(msv, maxVariants, maxConcurrent, st)
  }

  /** The plan once the loop is over: the drop warning is added when any
      vertical was dropped. */
  function Finish(msv: real, maxVariants: int, maxConcurrent: Option<int>, st: DropState): (p: BudgetPlan)
    requires DroppedWarning !in st.warnings
    ensures DroppedWarning in p.warnings ==> p.warnings[|p.warnings| - 1] == DroppedWarning
    ensures forall i :: 0 <= i < |p.warnings| - 1 ==> p.warnings[i] == InsufficientWarning
    ensures DroppedWarning in p.warnings <==> |p.droppedVerticals| > 0
    ensures st.warnings <= p.warnings
    ensures p.counts == st.counts && p.usedVerticals == st.used && p.droppedVerticals == st.dropped
    ensures p.adsTotal == st.adsTotal && p.minSpendPerVariant == msv && p.maxVariants == maxVariants
    ensures p.maxConcurrent == maxConcurrent
  {
    var warnings := if |st.dropped| > 0 then st.warnings + [DroppedWarning] else st.warnings;
    assert forall i :: 0 <= i < |st.warnings| ==> st.warnings[i] == InsufficientWarning by {
      forall i | 0 <= i < |st.warnings|
        ensures st.warnings[i] == InsufficientWarning
      {
        assert st.warnings[i] in st.warnings;
      }
    }
    BudgetPlan(msv, maxVariants, maxConcurrent, st.adsTotal, st.counts, st.used, st.dropped, warnings)
  }

  /** The budget derivation of the addendum example: a budget of 22000 at
      CPA 50 and factor 40 over four verticals split evenly gives a minimum
      spend of 2000 and 11 variants, short of the 12 the floor needs. The
      warning is raised; D, left with 2, is dropped, and the 11 are re-split
      as 4, 4 and 3 over A, B and C. */
  lemma AddendumBudgetExample()
    ensures DeriveCountsWithBudget(AddendumArgs()) ==
            BudgetPlan(2000.0, 11, None, 11, [4, 4, 3], ["A", "B", "C"], ["D"], [InsufficientWarning, DroppedWarning])
  {
    var a := AddendumArgs();
    AddendumStart();
    assert |a.verticalValues| == 4 && !Truthy(a.dailyBudget);
    DeriveUnfold(a, 2000.0, 11, [3, 3, 3, 2], [InsufficientWarning]);
    AddendumLoop();
    AddendumFinish();
  }

  lemma AddendumFinish()
    ensures Finish(2000.0, 11, None, DropState([4, 4, 3], ["A", "B", "C"], ["D"], 11, [InsufficientWarning])) ==
            BudgetPlan(2000.0, 11, None, 11, [4, 4, 3], ["A", "B", "C"], ["D"], [InsufficientWarning, DroppedWarning])
  {
  }

  /** The derivation in terms of its steps. */
  lemma DeriveUnfold(a: BudgetArgs, msv: real, maxVariants: int, counts: seq<int>, warnings: seq<Warning>)
    requires msv == ComputeMinSpendPerVariant(a.targetCPA, a.minSpendFactor)
    requires maxVariants == ComputeMaxVariants(a.totalBudget, msv)
    requires counts == SplitCounts(a.distribution, maxVariants, a.verticalValues, a.weights, a.stageWeights)
    requires warnings == if maxVariants < MinPerVertical * |a.verticalValues| then [InsufficientWarning] else []
    requires !Truthy(a.dailyBudget)
    ensures DeriveCountsWithBudget(a) ==
            Finish(msv, maxVariants, None, DropLoop(a, DropState(counts, a.verticalValues, [], maxVariants, warnings)))
  {
  }

  /** Before the loop: a spend of 2000, 11 variants, counts 3, 3, 3, 2. */
  lemma AddendumStart()
    ensures var a := AddendumArgs();
            ComputeMinSpendPerVariant(a.targetCPA, a.minSpendFactor) == 2000.0 &&
            ComputeMaxVariants(a.totalBudget, 2000.0) == 11 &&
            SplitCounts(a.distribution, 11, a.verticalValues, a.weights, a.stageWeights) == [3, 3, 3, 2]
  {
    MaxVariantsExample();
    EvenSplitExamples();
  }

  /** The loop of the addendum example: one round drops D and re-splits,
      after which every count reaches the floor. */
  lemma AddendumLoop()
    ensures DropLoop(AddendumArgs(), DropState([3, 3, 3, 2], ["A", "B", "C", "D"], [], 11, [InsufficientWarning]))
            == DropState([4, 4, 3], ["A", "B", "C"], ["D"], 11, [InsufficientWarning])
  {
    var st0 := DropState([3, 3, 3, 2], ["A", "B", "C", "D"], [], 11, [InsufficientWarning]);
    var st1 := DropState([4, 4, 3], ["A", "B", "C"], ["D"], 11, [InsufficientWarning]);
    assert st0.counts[3] < MinPerVertical;
    AddendumStep();
    DropLoopOnce(AddendumArgs(), st0);
    KeptThree(4, 4, 3);
  }

  lemma KeptThree(x: int, y: int, z: int)
    requires x >= MinPerVertical && y >= MinPerVertical && z >= MinPerVertical
    ensures AllKept([x, y, z])
  {
  }

  /** A round that leaves some vertical is followed by the rest of the loop. */
  lemma DropLoopOnce(a: BudgetArgs, st: DropState)
    requires !AllKept(st.counts) && DropStep(a, st).used != []
    ensures DropLoop(a, st) == DropLoop(a, DropStep(a, st))
  {
  }

  lemma AddendumStep()
    ensures DropStep(AddendumArgs(), DropState([3, 3, 3, 2], ["A", "B", "C", "D"], [], 11, [InsufficientWarning]))
            == DropState([4, 4, 3], ["A", "B", "C"], ["D"], 11, [InsufficientWarning])
  {
    KeptExample();
    EvenSplitExamples();
    assert Recount(AddendumArgs(), 11, ["A", "B", "C"]) == EvenSplit(11, 3);
  }

  function AddendumArgs(): BudgetArgs {
    BudgetArgs(22000.0, 50.0, 40.0, Some(10.0), None, ["A", "B", "C", "D"], EvenDist, [1.0, 1.0, 1.0, 1.0], None)
  }

  lemma MaxVariantsExample()
    ensures ComputeMaxVariants(22000.0, 50.0 * 40.0) == 11
  {
    var n := ComputeMaxVariants(22000.0, 2000.0);
    assert n as real * 2000.0 <= 22000.0 < (n + 1) as real * 2000.0;
  }

  lemma EvenSplitExamples()
    ensures EvenSplit(11, 4) == [3, 3, 3, 2]
    ensures EvenSplit(11, 3) == [4, 4, 3]
  {
    var c4 := EvenSplit(11, 4);
    assert JsRem(11, 4) == 3;
    assert c4[0] == 3 && c4[1] == 3 && c4[2] == 3 && c4[3] == 2;
    var c3 := EvenSplit(11, 3);
    assert JsRem(11, 3) == 2;
    assert c3[0] == 4 && c3[1] == 4 && c3[2] == 3;
  }

  lemma KeptExample()
    ensures Kept(["A", "B", "C", "D"], [3, 3, 3, 2]) == ["A", "B", "C"]
    ensures Missed(["A", "B", "C", "D"], [3, 3, 3, 2]) == ["D"]
  {
    assert ["A", "B", "C", "D"][1..] == ["B", "C", "D"];
    assert ["B", "C", "D"][1..] == ["C", "D"];
    assert ["C", "D"][1..] == ["D"];
    assert ["D"][1..] == [];
    assert [3, 3, 3, 2][1..] == [3, 3, 2];
    assert [3, 3, 2][1..] == [3, 2];
    assert [3, 2][1..] == [2];
    assert [2][1..] == [];
  }

  datatype Rails = Rails(learn: int, scale: int)

  /** `splitRails`: the Learn rail takes floor(adsTotal · ratio) (ratio 0.7
      by default), the Scale rail the rest, never below 0. With a ratio in
      [0, 1] and a non-negative total the two rails share the total exactly. */
  function SplitRails(adsTotal: int, learnRatio: real := 0.7): (r: Rails)
    ensures r.learn as real <= adsTotal as real * learnRatio < (r.learn + 1) as real
    ensures r.scale >= 0
    ensures 0.0 <= learnRatio <= 1.0 && adsTotal >= 0 ==>
              r.learn + r.scale == adsTotal && 0 <= r.learn <= adsTotal
  {
    var learn := (adsTotal as real * learnRatio).Floor;
    if 0.0 <= learnRatio <= 1.0 && adsTotal >= 0 then
      LearnWithin(adsTotal, learnRatio);
      Rails(learn, Max(0, adsTotal - learn))
    else
      Rails(learn, Max(0, adsTotal - learn))
  }

  /** With a ratio in [0, 1] the Learn share of a non-negative total lies
      between 0 and the total. */
  lemma LearnWithin(adsTotal: int, learnRatio: real)
    requires 0.0 <= learnRatio <= 1.0 && adsTotal >= 0
    ensures 0 <= (adsTotal as real * learnRatio).Floor <= adsTotal
  {
    var x := adsTotal as real * learnRatio;
    Fraction(adsTotal as real, learnRatio);
    assert (x.Floor) as real <= x < (x.Floor) as real + 1.0;
  }

  /** A fraction in [0, 1] of a non-negative amount lies between 0 and it. */
  lemma Fraction(a: real, r: real)
    requires a >= 0.0 && 0.0 <= r <= 1.0
    ensures 0.0 <= a * r <= a
  {
    if a > 0.0 {
      Budget.MulMonotone(r, 1.0, a);
      Budget.MulMonotone(0.0, r, a);
    }
  }

  /** The two worked splits: 10 at 0.7 is 7 and 3; 1 at 0.7 is 0 and 1. */
  lemma SplitRailsExamples()
    ensures SplitRails(10) == Rails(7, 3)
    ensures SplitRails(1) == Rails(0, 1)
  {
    assert (10.0 * 0.7).Floor == 7;
    assert (1.0 * 0.7).Floor == 0;
  }
}
