/** The set-level quota enforcer `applyQuotas` (src/lib/ruleEngine.ts:170-324).

    Rows travel in `Slot`s that carry the ranked score and the annotations
    the source writes onto the row objects: the drop mark, the quota note and
    the need-more-supply note. Quota rules are processed in rule order; for
    each rule the rows are split into buckets (one global bucket, or one per
    vertical value) and each bucket goes through the cap, min-share and
    min-distinct steps. Rows marked dropped stay in place while later rules
    build their buckets, and are removed only at the very end. */
module Quotas {
  import opened Types
  import opened Seqs
  import opened Sorting

  /** The `__quota` annotation of a row kept under a quota. */
  datatype QuotaNote = QuotaNote(field: Field, values: seq<string>, scope: QuotaScope, bucketSize: nat,
                                 cap: Option<int>, tolerance: real)

  /** The `__quotaNeed` annotation: a bucket lacks supply. */
  datatype NeedNote =
    | MinShareNeed(field: Field, values: seq<string>, scope: QuotaScope, bucketSize: nat,
                   minRequired: real, current: nat, tolerance: real, need: real)
    | DistinctNeed(field: Field, values: seq<string>, scope: QuotaScope, bucketSize: nat,
                   perVerticalMinDistinct: real, currentDistinct: nat, need: real)

  /** A ranked row with its annotations. */
  datatype Slot = Slot(row: Row, score: real, drop: bool, quota: Option<QuotaNote>, need: Option<NeedNote>)

  /** Which end of the score order a cap keeps: the code as written keeps the
      lowest scores; its comments intend to keep the highest. */
  datatype CapOrder = AsWritten | Intended

  datatype Mark = DropMark | QuotaMark(note: QuotaNote) | NeedMark(needNote: NeedNote)

  function Marked(s: Slot, m: Mark): Slot {
    match m
    case DropMark => s.(drop := true)
    case QuotaMark(n) => s.(quota := Some(n))
    case NeedMark(n) => s.(need := Some(n))
  }

  predicate ValidIdx(idxs: seq<int>, n: int) {
    forall k :: 0 <= k < |idxs| ==> 0 <= idxs[k] < n
  }

  /** Applies one mark to every listed position. */
  function MarkAll(out: seq<Slot>, idxs: seq<int>, m: Mark): (r: seq<Slot>)
    requires ValidIdx(idxs, |out|)
    ensures |r| == |out|
    ensures forall i :: 0 <= i < |out| ==> r[i] == (if i in idxs then Marked(out[i], m) else out[i])
    decreases |idxs|
  {
    if |idxs| == 0 then out
    else
      var j := idxs[0];
      var r := MarkAll(out[j := Marked(out[j], m)], idxs[1..], m);
      assert forall i :: i in idxs <==> i == j || i in idxs[1..];
      r
  }

  /** Rows and scores are unchanged and no drop mark is lost. */
  predicate Grows(a: seq<Slot>, b: seq<Slot>) {
    |a| == |b| &&
    forall i :: 0 <= i < |a| ==> b[i].row == a[i].row && b[i].score == a[i].score && (a[i].drop ==> b[i].drop)
  }

  /** Marking keeps rows and scores and loses no drop mark. */
  lemma MarkAllGrows(out: seq<Slot>, idxs: seq<int>, m: Mark)
    requires ValidIdx(idxs, |out|)
    ensures Grows(out, MarkAll(out, idxs, m))
  {
    var r := MarkAll(out, idxs, m);
    forall i | 0 <= i < |out|
      ensures r[i].row == out[i].row && r[i].score == out[i].score && (out[i].drop ==> r[i].drop)
    {
      assert r[i] == (if i in idxs then Marked(out[i], m) else out[i]);
    }
  }

  lemma GrowsTrans(a: seq<Slot>, b: seq<Slot>, c: seq<Slot>)
    requires Grows(a, b) && Grows(b, c)
    ensures Grows(a, c)
  {
  }

  /** Rows, scores and drop marks are unchanged (only notes may differ). */
  predicate SameDrops(a: seq<Slot>, b: seq<Slot>) {
    |a| == |b| &&
    forall i :: 0 <= i < |a| ==> b[i].row == a[i].row && b[i].score == a[i].score && b[i].drop == a[i].drop
  }

  function RowsOf(s: seq<Slot>): (r: seq<Row>)
    ensures |r| == |s| && forall i :: 0 <= i < |s| ==> r[i] == s[i].row
  {
    seq(|s|, i requires 0 <= i < |s| => s[i].row)
  }

  /** The (row, score) pairs of a slot sequence. */
  function Entries(s: seq<Slot>): (r: seq<(Row, real)>)
    ensures |r| == |s| && forall i :: 0 <= i < |s| ==> r[i] == (s[i].row, s[i].score)
  {
    seq(|s|, i requires 0 <= i < |s| => (s[i].row, s[i].score))
  }

  // ---------------------------------------------------------------------
  // Parameters of one quota rule

  /** `valuesForRule`: oneOf when non-empty, else a non-empty value, else nothing. */
  function ValuesFor(q: QuotaSpec): seq<string> {
    if q.oneOf.Some? && |q.oneOf.value| > 0 then q.oneOf.value
    else if q.value.Some? && q.value.value != "" then [q.value.value]
    else []
  }

  /** `matchesValue`: a present value listed by the rule. */
  predicate MatchesValue(actual: Option<string>, q: QuotaSpec) {
    Present(actual) && actual.value in ValuesFor(q)
  }

  /** `Math.max(lo, Math.min(hi, x))`. */
  function Clamp(x: real, lo: real, hi: real): real {
    RMax(lo, if x <= hi then x else hi)
  }

  /** Tolerance: `max(0, tolerance)`, or 1 when it is absent or not finite. */
  function ToleranceOf(q: QuotaSpec): (t: real)
    ensures t >= 0.0
    ensures q.tolerance.None? ==> t == 1.0
    ensures q.tolerance.Some? && q.tolerance.value >= 0.0 ==> t == q.tolerance.value
    ensures q.tolerance.Some? && q.tolerance.value < 0.0 ==> t == 0.0
  {
    if q.tolerance.Some? then RMax(0.0, q.tolerance.value) else 1.0
  }

  /** floor(size * f) lies in [0, size] for a fraction f. */
  lemma FloorScaled(size: nat, f: real)
    requires 0.0 <= f <= 1.0
    ensures 0 <= (size as real * f).Floor <= size
  {
    assert 0.0 <= size as real * f <= size as real;
  }

  /** The cap of a bucket: `maxShare` (clamped to [0,1]) takes precedence over
      `maxPct` (clamped to [0,100]); cap = floor(size * share). */
  function CapOf(q: QuotaSpec, size: nat): (cap: Option<int>)
    ensures cap.Some? <==> q.maxShare.Some? || q.maxPct.Some?
    ensures cap.Some? ==> 0 <= cap.value <= size
    ensures q.maxShare.Some? && 0.0 <= q.maxShare.value <= 1.0 ==>
              cap.value as real <= size as real * q.maxShare.value < (cap.value + 1) as real
    ensures q.maxShare.Some? && q.maxShare.value >= 1.0 ==> cap == Some(size)
    ensures q.maxShare.None? && q.maxPct.Some? && 0.0 <= q.maxPct.value <= 100.0 ==>
              cap.value as real <= size as real * q.maxPct.value / 100.0 < (cap.value + 1) as real
    ensures q.maxShare.Some? && q.maxShare.value <= 0.0 ==> cap == Some(0)
    ensures q.maxShare.None? && q.maxPct.Some? && q.maxPct.value <= 0.0 ==> cap == Some(0)
  {
    if q.maxShare.Some? then
      var f := Clamp(q.maxShare.value, 0.0, 1.0);
      FloorScaled(size, f);
      Some((size as real * f).Floor)
    else if q.maxPct.Some? then
      var f := Clamp(q.maxPct.value, 0.0, 100.0) / 100.0;
      FloorScaled(size, f);
      Some((size as real * f).Floor)
    else None
  }

  /** A legacy `maxShare` takes precedence: any `maxPct` beside it is ignored. */
  lemma MaxShareWins(q: QuotaSpec, size: nat)
    requires q.maxShare.Some?
    ensures CapOf(q, size) == CapOf(q.(maxPct := None), size)
    ensures CapOf(q, size).Some?
  {
    var f := Clamp(q.maxShare.value, 0.0, 1.0);
    var a := CapOf(q, size);
    var b := CapOf(q.(maxPct := None), size);
    assert a.Some? && a.value == (size as real * f).Floor;
    assert b.Some? && b.value == (size as real * f).Floor;
  }

  /** How many group rows a triggered cap keeps: `floor(max(0, cap + tolerance))`,
      the largest whole number within cap + tolerance. */
  function KeepCount(cap: int, tol: real): (n: nat)
    requires cap >= 0 && tol >= 0.0
    ensures n as real <= cap as real + tol < (n + 1) as real
  {
    RMax(0.0, cap as real + tol).Floor
  }

  // ---------------------------------------------------------------------
  // Buckets

  function AllIndices(n: nat): (r: seq<int>)
    ensures |r| == n && forall k :: 0 <= k < n ==> r[k] == k
    ensures forall i :: i in r <==> 0 <= i < n
    ensures ValidIdx(r, n)
  {
    var r := seq(n, i => i);
    assert forall i :: 0 <= i < n ==> i in r by {
      forall i | 0 <= i < n
        ensures i in r
      {
        assert r[i] == i;
      }
    }
    assert forall i :: i in r ==> 0 <= i < n by {
      forall i | i in r
        ensures 0 <= i < n
      {
        var k :| 0 <= k < n && r[k] == i;
      }
    }
    r
  }

  /** Order-preserving selection of indices. */
  function Select(idxs: seq<int>, keep: int -> bool): (r: seq<int>)
    ensures |r| <= |idxs|
    ensures forall x :: x in r <==> x in idxs && keep(x)
    ensures Distinct(idxs) ==> Distinct(r)
  {
    if |idxs| == 0 then []
    else
      var rest := Select(idxs[1..], keep);
      assert forall x :: x in idxs <==> x == idxs[0] || x in idxs[1..];
      (if keep(idxs[0]) then [idxs[0]] else []) + rest
  }

  /** Distinct vertical values in order of first appearance. */
  function Verticals(rows: seq<Row>): (vs: seq<string>)
    ensures forall i :: 0 <= i < |rows| ==> rows[i].verticalValue in vs
    ensures forall v :: v in vs ==> exists i :: 0 <= i < |rows| && rows[i].verticalValue == v
    ensures forall a, b :: 0 <= a < b < |vs| ==> vs[a] != vs[b]
  {
    if |rows| == 0 then []
    else
      var init := rows[..|rows| - 1];
      var d := Verticals(init);
      var v := rows[|rows| - 1].verticalValue;
      assert forall i :: 0 <= i < |init| ==> init[i] == rows[i];
      if v in d then d else d + [v]
  }

  /** The positions of the rows of one vertical value, in order. */
  function IndicesWith(rows: seq<Row>, v: string): (r: seq<int>)
    ensures forall i :: i in r <==> 0 <= i < |rows| && rows[i].verticalValue == v
    ensures ValidIdx(r, |rows|)
  {
    var r := Select(AllIndices(|rows|), i => 0 <= i < |rows| && rows[i].verticalValue == v);
    assert forall k :: 0 <= k < |r| ==> r[k] in r;
    r
  }

  /** The buckets of one rule: all rows, or one bucket per vertical value. */
  function BucketsFor(rows: seq<Row>, q: QuotaSpec): (bs: seq<seq<int>>)
    ensures forall k :: 0 <= k < |bs| ==> ValidIdx(bs[k], |rows|)
    ensures q.EffectiveScope() == Global ==> bs == [AllIndices(|rows|)]
    ensures q.EffectiveScope() == PerVertical ==>
              forall i :: 0 <= i < |rows| ==> IndicesWith(rows, rows[i].verticalValue) in bs
  {
    if q.EffectiveScope() == PerVertical then VerticalBuckets(rows) else [AllIndices(|rows|)]
  }

  /** One bucket per distinct vertical value, in order of first appearance. */
  function VerticalBuckets(rows: seq<Row>): (bs: seq<seq<int>>)
    ensures forall k :: 0 <= k < |bs| ==> ValidIdx(bs[k], |rows|)
    ensures forall i :: 0 <= i < |rows| ==> IndicesWith(rows, rows[i].verticalValue) in bs
  {
    var vs := Verticals(rows);
    var bs := seq(|vs|, k requires 0 <= k < |vs| => IndicesWith(rows, vs[k]));
    BucketOfEachRow(rows, vs, bs);
    bs
  }

  lemma BucketOfEachRow(rows: seq<Row>, vs: seq<string>, bs: seq<seq<int>>)
    requires forall i :: 0 <= i < |rows| ==> rows[i].verticalValue in vs
    requires |bs| == |vs| && forall k :: 0 <= k < |vs| ==> bs[k] == IndicesWith(rows, vs[k])
    ensures forall i :: 0 <= i < |rows| ==> IndicesWith(rows, rows[i].verticalValue) in bs
  {
    forall i | 0 <= i < |rows|
      ensures IndicesWith(rows, rows[i].verticalValue) in bs
    {
      var k :| 0 <= k < |vs| && vs[k] == rows[i].verticalValue;
      assert bs[k] == IndicesWith(rows, rows[i].verticalValue);
    }
  }

  /** The target group of a bucket: rows whose value at the rule's field is targeted. */
  function Group(out: seq<Slot>, bucket: seq<int>, q: QuotaSpec): (g: seq<int>)
    ensures |g| <= |bucket|
    ensures forall i :: i in g <==> i in bucket && 0 <= i < |out| && MatchesValue(out[i].row.Get(q.field), q)
    ensures Distinct(bucket) ==> Distinct(g)
  {
    Select(bucket, i => 0 <= i < |out| && MatchesValue(out[i].row.Get(q.field), q))
  }

  /** Targeted rows of a bucket that are not marked dropped. */
  function LiveMatch(out: seq<Slot>, bucket: seq<int>, q: QuotaSpec): set<int> {
    set i | i in bucket && 0 <= i < |out| && MatchesValue(out[i].row.Get(q.field), q) && !out[i].drop
  }

  lemma {:induction false} CardSeqSet(s: seq<int>)
    ensures |set x | x in s| <= |s|
  {
    if |s| > 0 {
      CardSeqSet(s[1..]);
      assert (set x | x in s) == (set x | x in s[1..]) + {s[0]};
    }
  }

  lemma SubsetCard(a: set<int>, b: set<int>)
    requires a <= b
    ensures |a| <= |b|
  {
    assert b == a + (b - a);
  }

  lemma LiveMatchShrinks(a: seq<Slot>, b: seq<Slot>, bucket: seq<int>, q: QuotaSpec)
    requires Grows(a, b)
    ensures LiveMatch(b, bucket, q) <= LiveMatch(a, bucket, q)
  {
  }

  lemma LiveMatchSame(a: seq<Slot>, b: seq<Slot>, bucket: seq<int>, q: QuotaSpec)
    requires SameDrops(a, b)
    ensures LiveMatch(b, bucket, q) == LiveMatch(a, bucket, q)
  {
  }

  // ---------------------------------------------------------------------
  // enforceCap

  /** The sort key `enforceCap` orders group positions by: ascending score as
      written, descending score as intended. */
  function ScoreKey(order: CapOrder, out: seq<Slot>): int -> real {
    (i: int) =>
      var s := if 0 <= i < |out| then out[i].score else 0.0;
      if order == AsWritten then -s else s
  }

  /** The kept and dropped positions of a group whose cap fires. */
  datatype CapPlan = CapPlan(kept: seq<int>, dropped: seq<int>)

  /** `enforceCap` (ruleEngine.ts:197-224) on group positions: sort the group
      stably by score, keep the first `keepN`, drop the rest. As written the
      sort is ascending, so the kept rows are the lowest-scored ones. */
  function PlanCap(order: CapOrder, out: seq<Slot>, g: seq<int>, keepN: nat): (p: CapPlan)
    requires ValidIdx(g, |out|) && keepN <= |g|
    ensures |p.kept| == keepN && |p.dropped| == |g| - keepN
    ensures forall i :: i in g <==> i in p.kept || i in p.dropped
    ensures ValidIdx(p.kept, |out|) && ValidIdx(p.dropped, |out|)
    ensures order == AsWritten ==> forall a, b :: a in p.kept && b in p.dropped ==> out[a].score <= out[b].score
    ensures order == Intended ==> forall a, b :: a in p.kept && b in p.dropped ==> out[a].score >= out[b].score
  {
    var sorted := SortDesc(g, ScoreKey(order, out));
    PlanFacts(order, out, g, keepN, sorted);
    CapPlan(sorted[..keepN], sorted[keepN..])
  }

  lemma PlanFacts(order: CapOrder, out: seq<Slot>, g: seq<int>, keepN: nat, sorted: seq<int>)
    requires ValidIdx(g, |out|) && keepN <= |g|
    requires |sorted| == |g| && multiset(sorted) == multiset(g) && SortedDesc(sorted, ScoreKey(order, out))
    ensures forall i :: i in g <==> i in sorted[..keepN] || i in sorted[keepN..]
    ensures ValidIdx(sorted[..keepN], |out|) && ValidIdx(sorted[keepN..], |out|)
    ensures order == AsWritten ==>
              forall a, b :: a in sorted[..keepN] && b in sorted[keepN..] ==> out[a].score <= out[b].score
    ensures order == Intended ==>
              forall a, b :: a in sorted[..keepN] && b in sorted[keepN..] ==> out[a].score >= out[b].score
  {
    assert sorted == sorted[..keepN] + sorted[keepN..];
    SameMembers(g, sorted);
    SortedValid(g, sorted, |out|, keepN);
    SplitOrdered(sorted, ScoreKey(order, out), keepN);
    KeyOrder(order, out, sorted[..keepN], sorted[keepN..]);
  }

  /** A permutation of valid positions is valid, and so are its two parts. */
  lemma SortedValid(g: seq<int>, sorted: seq<int>, n: int, keepN: nat)
    requires ValidIdx(g, n) && keepN <= |sorted|
    requires forall i :: i in g <==> i in sorted
    ensures ValidIdx(sorted[..keepN], n) && ValidIdx(sorted[keepN..], n)
  {
    assert ValidIdx(sorted, n) by {
      forall k | 0 <= k < |sorted|
        ensures 0 <= sorted[k] < n
      {
        var x := sorted[k];
        assert x in sorted;
        assert x in g;
        var u :| 0 <= u < |g| && g[u] == x;
      }
    }
    forall k | 0 <= k < |sorted| - keepN
      ensures 0 <= sorted[keepN..][k] < n
    {
      assert sorted[keepN..][k] == sorted[keepN + k];
    }
  }

  /** Key order read back as score order: reversed as written, kept as intended. */
  lemma KeyOrder(order: CapOrder, out: seq<Slot>, kept: seq<int>, dropped: seq<int>)
    requires ValidIdx(kept, |out|) && ValidIdx(dropped, |out|)
    requires forall a, b :: a in kept && b in dropped ==> ScoreKey(order, out)(a) >= ScoreKey(order, out)(b)
    ensures order == AsWritten ==> forall a, b :: a in kept && b in dropped ==> out[a].score <= out[b].score
    ensures order == Intended ==> forall a, b :: a in kept && b in dropped ==> out[a].score >= out[b].score
  {
    forall a, b | a in kept && b in dropped
      ensures if order == AsWritten then out[a].score <= out[b].score else out[a].score >= out[b].score
    {
      var x :| 0 <= x < |kept| && kept[x] == a;
      var y :| 0 <= y < |dropped| && dropped[y] == b;
      assert ScoreKey(order, out)(a) >= ScoreKey(order, out)(b);
    }
  }

  lemma SameMembers(a: seq<int>, b: seq<int>)
    requires multiset(a) == multiset(b)
    ensures forall i :: i in a <==> i in b
  {
    forall i: int
      ensures i in a <==> i in b
    {
      assert i in a <==> i in multiset(a);
      assert i in b <==> i in multiset(b);
    }
  }

  /** In a sequence sorted by non-increasing key, every element of a prefix has
      a key at least that of every element after it. */
  lemma SplitOrdered(sorted: seq<int>, key: int -> real, n: nat)
    requires SortedDesc(sorted, key) && n <= |sorted|
    ensures forall a, b :: a in sorted[..n] && b in sorted[n..] ==> key(a) >= key(b)
  {
    forall a, b | a in sorted[..n] && b in sorted[n..]
      ensures key(a) >= key(b)
    {
      var x :| 0 <= x < n && sorted[x] == a;
      var y :| 0 <= y < |sorted| - n && sorted[n..][y] == b;
      assert sorted[n + y] == b;
    }
  }

  /** A cap fires when the group exceeds cap + tolerance. */
  predicate CapFires(out: seq<Slot>, bucket: seq<int>, q: QuotaSpec) {
    CapOf(q, |bucket|).Some? && |Group(out, bucket, q)| as real > CapOf(q, |bucket|).value as real + ToleranceOf(q)
  }

  /** How many rows of a bucket a rule with a cap lets survive. */
  function Allowed(q: QuotaSpec, size: nat): nat
    requires CapOf(q, size).Some?
  {
    KeepCount(CapOf(q, size).value, ToleranceOf(q))
  }

  function NoteFor(q: QuotaSpec, size: nat): QuotaNote {
    QuotaNote(q.field, ValuesFor(q), q.EffectiveScope(), size, CapOf(q, size), ToleranceOf(q))
  }

  lemma GroupValid(out: seq<Slot>, bucket: seq<int>, q: QuotaSpec)
    ensures ValidIdx(Group(out, bucket, q), |out|)
  {
    var g := Group(out, bucket, q);
    assert forall k :: 0 <= k < |g| ==> g[k] in g;
  }

  /** The cap step's outcome: the updated rows, the bucket left for the
      min-share and min-distinct steps, and the positions this cap dropped. */
  datatype CapResult = CapResult(out: seq<Slot>, bucket: seq<int>, dropped: seq<int>)

  /** The cap step when it fires: the plan's kept rows are annotated, its
      dropped rows are marked and leave the bucket. */
  function FiredCap(order: CapOrder, out: seq<Slot>, bucket: seq<int>, q: QuotaSpec): (res: CapResult)
    requires ValidIdx(bucket, |out|)
    requires CapFires(out, bucket, q)
    ensures Grows(out, res.out)
    ensures forall i :: 0 <= i < |out| && i !in bucket ==> res.out[i] == out[i]
    ensures forall i :: i in res.bucket <==> i in bucket && i !in res.dropped
    ensures forall i :: i in res.dropped ==> i in Group(out, bucket, q) && res.out[i].drop
    ensures forall i :: 0 <= i < |out| && res.out[i].drop ==> out[i].drop || i in res.dropped
    ensures |res.dropped| == |Group(out, bucket, q)| - Allowed(q, |bucket|)
    ensures forall i :: i in Group(out, bucket, q) && i !in res.dropped ==>
              res.out[i].quota == Some(NoteFor(q, |bucket|))
  {
    var g := Group(out, bucket, q);
    GroupValid(out, bucket, q);
    var p := PlanCap(order, out, g, Allowed(q, |bucket|));
    var out1 := MarkAll(out, p.kept, QuotaMark(NoteFor(q, |bucket|)));
    var out2 := MarkAll(out1, p.dropped, DropMark);
    MarkAllGrows(out, p.kept, QuotaMark(NoteFor(q, |bucket|)));
    MarkAllGrows(out1, p.dropped, DropMark);
    GrowsTrans(out, out1, out2);
    CapResult(out2, Select(bucket, i => i !in p.dropped), p.dropped)
  }

  /** The cap step of one bucket (ruleEngine.ts:267-284): when the group exceeds
      cap + tolerance, floor(cap + tolerance) of its rows are annotated as kept
      and the rest are marked dropped and leave the bucket; otherwise every
      group row is annotated. Rows outside the bucket are untouched. */
  function CapStep(order: CapOrder, out: seq<Slot>, bucket: seq<int>, q: QuotaSpec): (res: CapResult)
    requires ValidIdx(bucket, |out|)
    ensures Grows(out, res.out)
    ensures forall i :: 0 <= i < |out| && i !in bucket ==> res.out[i] == out[i]
    ensures forall i :: i in res.bucket <==> i in bucket && i !in res.dropped
    ensures ValidIdx(res.bucket, |out|)
    ensures forall i :: i in res.dropped ==> i in Group(out, bucket, q) && res.out[i].drop
    ensures forall i :: 0 <= i < |out| && res.out[i].drop ==> out[i].drop || i in res.dropped
    ensures !CapFires(out, bucket, q) ==> res.dropped == [] && res.bucket == bucket
    ensures CapFires(out, bucket, q) ==> |res.dropped| == |Group(out, bucket, q)| - Allowed(q, |bucket|)
    ensures forall i :: i in Group(out, bucket, q) && i !in res.dropped ==>
              res.out[i].quota == Some(NoteFor(q, |bucket|))
  {
    if CapFires(out, bucket, q) then
      var res := FiredCap(order, out, bucket, q);
      assert forall k :: 0 <= k < |res.bucket| ==> res.bucket[k] in res.bucket;
      res
    else
      GroupValid(out, bucket, q);
      CapResult(MarkAll(out, Group(out, bucket, q), QuotaMark(NoteFor(q, |bucket|))), bucket, [])
  }

  /** As written, every row a firing cap keeps scores at most as high as every
      row it drops; with the intended order, at least as high. */
  lemma CapStepOrder(order: CapOrder, out: seq<Slot>, bucket: seq<int>, q: QuotaSpec)
    requires ValidIdx(bucket, |out|)
    requires CapFires(out, bucket, q)
    ensures var res := CapStep(order, out, bucket, q);
            forall a, b :: a in Group(out, bucket, q) && a !in res.dropped && b in res.dropped ==>
              if order == AsWritten then out[a].score <= out[b].score else out[a].score >= out[b].score
  {
    GroupValid(out, bucket, q);
    var p := PlanCap(order, out, Group(out, bucket, q), Allowed(q, |bucket|));
    assert CapStep(order, out, bucket, q).dropped == p.dropped;
  }

  /** After a rule's cap step, at most floor(cap + tolerance) targeted rows of
      the bucket are still live. */
  lemma CapStepBound(order: CapOrder, out: seq<Slot>, bucket: seq<int>, q: QuotaSpec)
    requires ValidIdx(bucket, |out|)
    requires CapOf(q, |bucket|).Some?
    ensures |LiveMatch(CapStep(order, out, bucket, q).out, bucket, q)| <= Allowed(q, |bucket|)
  {
    var res := CapStep(order, out, bucket, q);
    var g := Group(out, bucket, q);
    var live := LiveMatch(res.out, bucket, q);
    GroupValid(out, bucket, q);
    if CapFires(out, bucket, q) {
      var p := PlanCap(order, out, g, Allowed(q, |bucket|));
      assert res.dropped == p.dropped;
      assert live <= set x | x in p.kept by {
        forall i | i in live
          ensures i in p.kept
        {
          assert i in g;
          assert i !in p.dropped;
        }
      }
      CardSeqSet(p.kept);
      SubsetCard(live, set x | x in p.kept);
    } else {
      assert |g| as real <= CapOf(q, |bucket|).value as real + ToleranceOf(q);
      assert |g| <= Allowed(q, |bucket|);
      assert live <= set x | x in g by {
        forall i | i in live
          ensures i in g
        {
          assert res.out[i].row == out[i].row;
        }
      }
      CardSeqSet(g);
      SubsetCard(live, set x | x in g);
    }
  }

  // ---------------------------------------------------------------------
  // Minimum share and minimum distinct values

  /** `out` with the need note `n` on every position of the bucket. */
  predicate NeedOnBucket(out: seq<Slot>, r: seq<Slot>, bucket: seq<int>, n: NeedNote) {
    |r| == |out| &&
    forall i :: 0 <= i < |out| ==> r[i] == (if i in bucket then out[i].(need := Some(n)) else out[i])
  }

  /** floor(size * minPct / 100) - tolerance, with minPct clamped to [0,100]. */
  function MinRequired(q: QuotaSpec, size: nat): real
    requires q.minPct.Some?
  {
    (size as real * Clamp(q.minPct.value, 0.0, 100.0) / 100.0).Floor as real - ToleranceOf(q)
  }

  function MinShareNote(q: QuotaSpec, size: nat, count: nat): NeedNote
    requires q.minPct.Some?
  {
    var req := MinRequired(q, size);
    MinShareNeed(q.field, ValuesFor(q), q.EffectiveScope(), size, req, count, ToleranceOf(q),
                 RMax(0.0, req - count as real))
  }

  /** The min-share step (ruleEngine.ts:287-299): when the targeted count of
      the bucket is below the required minimum, every row of the bucket gets a
      need note whose shortfall is exactly what is missing. Nothing is
      dropped and no row is made. */
  function MinShareStep(out: seq<Slot>, bucket: seq<int>, q: QuotaSpec, size: nat): (r: seq<Slot>)
    requires ValidIdx(bucket, |out|)
    ensures SameDrops(out, r)
    ensures q.minPct.None? ==> r == out
    ensures q.minPct.Some? && |Group(out, bucket, q)| as real >= MinRequired(q, size) ==> r == out
    ensures q.minPct.Some? && |Group(out, bucket, q)| as real < MinRequired(q, size) ==>
              var n := MinShareNote(q, size, |Group(out, bucket, q)|);
              NeedOnBucket(out, r, bucket, n) && n.need > 0.0 && n.current as real + n.need == n.minRequired
  {
    if q.minPct.Some? then
      var countNow := |Group(out, bucket, q)|;
      if (countNow as real) < MinRequired(q, size) then
        MarkAll(out, bucket, NeedMark(MinShareNote(q, size, countNow)))
      else out
    else out
  }

  /** The present values of a field within a bucket. */
  function DistinctValues(out: seq<Slot>, bucket: seq<int>, f: Field): set<string> {
    set i | i in bucket && 0 <= i < |out| && Present(out[i].row.Get(f)) :: out[i].row.Get(f).value
  }

  /** max(1, perVerticalMinDistinct). */
  function DistinctRequired(q: QuotaSpec): real
    requires q.perVerticalMinDistinct.Some?
  {
    RMax(1.0, q.perVerticalMinDistinct.value)
  }

  function DistinctNote(q: QuotaSpec, size: nat, have: nat): NeedNote
    requires q.perVerticalMinDistinct.Some?
  {
    var needed := DistinctRequired(q);
    DistinctNeed(q.field, ValuesFor(q), q.EffectiveScope(), size, needed, have, RMax(0.0, needed - have as real))
  }

  /** The min-distinct step (ruleEngine.ts:302-317): per-vertical scope only;
      when the bucket shows fewer distinct present values than required (at
      least 1), every row of the bucket gets a need note. */
  function DistinctStep(out: seq<Slot>, bucket: seq<int>, q: QuotaSpec, size: nat): (r: seq<Slot>)
    requires ValidIdx(bucket, |out|)
    ensures SameDrops(out, r)
    ensures q.EffectiveScope() == Global || q.perVerticalMinDistinct.None? ==> r == out
    ensures q.EffectiveScope() == PerVertical && q.perVerticalMinDistinct.Some? ==>
              var have := |DistinctValues(out, bucket, q.field)|;
              if have as real < DistinctRequired(q) then
                var n := DistinctNote(q, size, have);
                NeedOnBucket(out, r, bucket, n) && n.need > 0.0 && n.currentDistinct as real + n.need == n.perVerticalMinDistinct
              else r == out
  {
    if q.EffectiveScope() == PerVertical && q.perVerticalMinDistinct.Some? then
      var have := |DistinctValues(out, bucket, q.field)|;
      if (have as real) < DistinctRequired(q) then
        MarkAll(out, bucket, NeedMark(DistinctNote(q, size, have)))
      else out
    else out
  }

  // ---------------------------------------------------------------------
  // Whole rules and the whole pass

  /** One bucket of one rule: cap, then min share, then min distinct, the
      latter two over the bucket left after the cap. An empty bucket is skipped. */
  function BucketStep(order: CapOrder, out: seq<Slot>, bucket: seq<int>, q: QuotaSpec): (r: seq<Slot>)
    requires ValidIdx(bucket, |out|)
    ensures Grows(out, r)
    ensures forall i :: 0 <= i < |out| && i !in bucket ==> r[i].drop == out[i].drop
    ensures CapOf(q, |bucket|).Some? ==>
              |LiveMatch(r, bucket, q)| <= Allowed(q, |bucket|)
  {
    if |bucket| == 0 then out
    else
      var c := CapStep(order, out, bucket, q);
      var o2 := MinShareStep(c.out, c.bucket, q, |bucket|);
      var o3 := DistinctStep(o2, c.bucket, q, |bucket|);
      assert CapOf(q, |bucket|).Some? ==> |LiveMatch(c.out, bucket, q)| <= Allowed(q, |bucket|) by {
        if CapOf(q, |bucket|).Some? {
          CapStepBound(order, out, bucket, q);
        }
      }
      LiveMatchSame(c.out, o2, bucket, q);
      LiveMatchSame(o2, o3, bucket, q);
      o3
  }

  /** All buckets of one rule, in order. */
  function StepBuckets(order: CapOrder, out: seq<Slot>, buckets: seq<seq<int>>, q: QuotaSpec): (r: seq<Slot>)
    requires forall k :: 0 <= k < |buckets| ==> ValidIdx(buckets[k], |out|)
    ensures Grows(out, r)
    decreases |buckets|
  {
    if |buckets| == 0 then out
    else
      var o := BucketStep(order, out, buckets[0], q);
      StepBuckets(order, o, buckets[1..], q)
  }

  lemma {:induction false} StepBucketsCap(order: CapOrder, out: seq<Slot>, buckets: seq<seq<int>>, q: QuotaSpec, b: seq<int>)
    requires forall k :: 0 <= k < |buckets| ==> ValidIdx(buckets[k], |out|)
    requires b in buckets
    requires CapOf(q, |b|).Some?
    ensures |LiveMatch(StepBuckets(order, out, buckets, q), b, q)| <= Allowed(q, |b|)
    decreases |buckets|
  {
    var o := BucketStep(order, out, buckets[0], q);
    var r := StepBuckets(order, o, buckets[1..], q);
    assert forall k :: 0 <= k < |buckets[1..]| ==> ValidIdx(buckets[1..][k], |o|) by {
      forall k | 0 <= k < |buckets[1..]|
        ensures ValidIdx(buckets[1..][k], |o|)
      {
        assert buckets[1..][k] == buckets[k + 1];
      }
    }
    if buckets[0] == b {
      LiveMatchShrinks(o, r, b, q);
      assert |LiveMatch(o, b, q)| <= Allowed(q, |b|);
      SubsetCard(LiveMatch(r, b, q), LiveMatch(o, b, q));
    } else {
      assert b in buckets[1..];
      StepBucketsCap(order, o, buckets[1..], q, b);
    }
  }

  /** One quota rule: build its buckets from the current rows and step each. */
  function ApplyRule(order: CapOrder, out: seq<Slot>, q: QuotaSpec): (r: seq<Slot>)
    ensures Grows(out, r)
  {
    StepBuckets(order, out, BucketsFor(RowsOf(out), q), q)
  }

  /** One rule of the rule pack: quota rules are applied, the others skipped. */
  function StepRule(order: CapOrder, out: seq<Slot>, rule: Rule): (r: seq<Slot>)
    ensures Grows(out, r)
  {
    if rule.Quota? then ApplyRule(order, out, rule.quota) else out
  }

  /** Every quota rule in rule order. */
  function ApplyRules(order: CapOrder, out: seq<Slot>, rules: seq<Rule>): (r: seq<Slot>)
    ensures Grows(out, r)
    decreases |rules|
  {
    if |rules| == 0 then out
    else
      ApplyRules(order, StepRule(order, out, rules[0]), rules[1..])
  }

  /** Removes the rows marked dropped, keeping order. */
  function Finalize(out: seq<Slot>): (r: seq<Slot>)
    ensures IsSubseq(r, out)
    ensures |r| <= |out|
    ensures forall k :: 0 <= k < |r| ==> !r[k].drop
    ensures (forall i :: 0 <= i < |out| ==> !out[i].drop) ==> r == out
  {
    if |out| == 0 then []
    else
      var rest := Finalize(out[1..]);
      if out[0].drop then
        SubseqConsRight(rest, out[0], out[1..]);
        assert out == [out[0]] + out[1..];
        rest
      else
        assert ([out[0]] + rest)[1..] == rest;
        [out[0]] + rest
  }

  /** No quota rule in the rule pack and no row already marked dropped. */
  predicate NoQuotaWork(rows: seq<Slot>, rules: seq<Rule>) {
    (forall k :: 0 <= k < |rules| ==> !rules[k].Quota?) && (forall i :: 0 <= i < |rows| ==> !rows[i].drop)
  }

  /** `applyQuotas` with a chosen cap order. */
  function ApplyQuotasWith(order: CapOrder, rows: seq<Slot>, rules: seq<Rule>): (r: seq<Slot>)
    ensures |rules| == 0 ==> r == rows
    ensures |r| <= |rows|
    ensures IsSubseq(Entries(r), Entries(rows))
    ensures |rules| > 0 ==> forall k :: 0 <= k < |r| ==> !r[k].drop
    ensures NoQuotaWork(rows, rules) ==> Entries(r) == Entries(rows)
  {
    if |rules| == 0 then
      SubseqRefl(Entries(rows));
      rows
    else
      var out := ApplyRules(order, rows, rules);
      var r := Finalize(out);
      SubseqEntries(r, out);
      assert Entries(out) == Entries(rows);
      assert NoQuotaWork(rows, rules) ==> Entries(r) == Entries(rows) by {
        if NoQuotaWork(rows, rules) {
          NoQuotaRulesNoDrops(order, rows, rules);
        }
      }
      r
  }

  /** `applyQuotas` exactly as written: a firing cap keeps the lowest-scored
      rows of its group. The output is the input's undropped rows, in order. */
  function ApplyQuotas(rows: seq<Slot>, rules: seq<Rule>): (r: seq<Slot>)
    ensures |rules| == 0 ==> r == rows
    ensures IsSubseq(Entries(r), Entries(rows))
    ensures |rules| > 0 ==> forall k :: 0 <= k < |r| ==> !r[k].drop
    ensures NoQuotaWork(rows, rules) ==> Entries(r) == Entries(rows)
  {
    ApplyQuotasWith(AsWritten, rows, rules)
  }

  /** `applyQuotas` with the cap keeping the highest-scored rows, as the
      source's comments intend. */
  function ApplyQuotasIntended(rows: seq<Slot>, rules: seq<Rule>): (r: seq<Slot>)
    ensures |rules| == 0 ==> r == rows
    ensures IsSubseq(Entries(r), Entries(rows))
    ensures |rules| > 0 ==> forall k :: 0 <= k < |r| ==> !r[k].drop
    ensures NoQuotaWork(rows, rules) ==> Entries(r) == Entries(rows)
  {
    ApplyQuotasWith(Intended, rows, rules)
  }

  lemma {:induction false} NoQuotaRulesNoDrops(order: CapOrder, rows: seq<Slot>, rules: seq<Rule>)
    requires forall k :: 0 <= k < |rules| ==> !rules[k].Quota?
    ensures ApplyRules(order, rows, rules) == rows
  {
    if |rules| > 0 {
      NoQuotaRulesNoDrops(order, rows, rules[1..]);
    }
  }

  lemma {:induction false} SubseqEntries(a: seq<Slot>, b: seq<Slot>)
    requires IsSubseq(a, b)
    ensures IsSubseq(Entries(a), Entries(b))
    ensures IsSubseq(RowsOf(a), RowsOf(b))
    decreases |b|
  {
    if |a| == 0 {
    } else if a[0] == b[0] {
      SubseqEntries(a[1..], b[1..]);
      assert Entries(a)[1..] == Entries(a[1..]);
      assert Entries(b)[1..] == Entries(b[1..]);
      assert RowsOf(a)[1..] == RowsOf(a[1..]);
      assert RowsOf(b)[1..] == RowsOf(b[1..]);
    } else {
      SubseqEntries(a, b[1..]);
      assert Entries(b) == [Entries(b)[0]] + Entries(b[1..]);
      assert RowsOf(b) == [RowsOf(b)[0]] + RowsOf(b[1..]);
      SubseqConsRight(Entries(a), Entries(b)[0], Entries(b[1..]));
      SubseqConsRight(RowsOf(a), RowsOf(b)[0], RowsOf(b[1..]));
    }
  }

  // ---------------------------------------------------------------------
  // What survives the pass

  /** The number of slots satisfying `p`. */
  function CountWhere(s: seq<Slot>, p: Slot -> bool): nat {
    if |s| == 0 then 0
    else CountWhere(s[..|s| - 1], p) + (if p(s[|s| - 1]) then 1 else 0)
  }

  /** The positions of live slots satisfying `p`. */
  function LiveWhere(out: seq<Slot>, p: Slot -> bool): set<int> {
    set i | 0 <= i < |out| && !out[i].drop && p(out[i])
  }

  lemma {:induction false} FinalizeSnoc(a: seq<Slot>, x: Slot)
    ensures Finalize(a + [x]) == Finalize(a) + (if x.drop then [] else [x])
  {
    if |a| == 0 {
      assert a + [x] == [x];
      assert [x][1..] == [];
    } else {
      assert (a + [x])[1..] == a[1..] + [x];
      FinalizeSnoc(a[1..], x);
    }
  }

  /** Counting in the finalized sequence is counting the live positions. */
  lemma {:induction false} FinalizeCount(out: seq<Slot>, p: Slot -> bool)
    ensures CountWhere(Finalize(out), p) == |LiveWhere(out, p)|
  {
    if |out| > 0 {
      var init := out[..|out| - 1];
      var x := out[|out| - 1];
      assert out == init + [x];
      FinalizeSnoc(init, x);
      FinalizeCount(init, p);
      var f := Finalize(init);
      if x.drop {
        assert f + [] == f;
      } else {
        assert (f + [x])[..|f|] == f;
      }
      LiveWhereSnoc(out, p);
    }
  }

  lemma LiveWhereSnoc(out: seq<Slot>, p: Slot -> bool)
    requires |out| > 0
    ensures var x := out[|out| - 1];
            |LiveWhere(out, p)| == |LiveWhere(out[..|out| - 1], p)| + (if !x.drop && p(x) then 1 else 0)
  {
    var init := out[..|out| - 1];
    var x := out[|out| - 1];
    var n := |out| - 1;
    assert n !in LiveWhere(init, p);
    if !x.drop && p(x) {
      assert LiveWhere(out, p) == LiveWhere(init, p) + {n};
    } else {
      assert LiveWhere(out, p) == LiveWhere(init, p);
    }
  }

  lemma ApplyRulesUnfold(order: CapOrder, out: seq<Slot>, rules: seq<Rule>)
    requires |rules| > 0
    ensures ApplyRules(order, out, rules) == ApplyRules(order, StepRule(order, out, rules[0]), rules[1..])
  {
  }

  lemma RowsKept(a: seq<Slot>, b: seq<Slot>)
    requires Grows(a, b)
    ensures RowsOf(a) == RowsOf(b)
  {
  }

  predicate Bounded(out: seq<Slot>, b: seq<int>, q: QuotaSpec)
    requires CapOf(q, |b|).Some?
  {
    |LiveMatch(out, b, q)| <= Allowed(q, |b|)
  }

  lemma BoundedKept(a: seq<Slot>, c: seq<Slot>, b: seq<int>, q: QuotaSpec)
    requires CapOf(q, |b|).Some?
    requires Grows(a, c) && Bounded(a, b, q)
    ensures Bounded(c, b, q)
  {
    LiveMatchShrinks(a, c, b, q);
    SubsetCard(LiveMatch(c, b, q), LiveMatch(a, b, q));
  }

  /** Rule `k` of the rule pack bounds the live targeted rows of each of its buckets
      by floor(cap + tolerance), whatever the rules before and after it do. */
  lemma {:induction false} ApplyRulesCap(order: CapOrder, out: seq<Slot>, rules: seq<Rule>, k: int, b: seq<int>)
    requires 0 <= k < |rules| && rules[k].Quota?
    requires b in BucketsFor(RowsOf(out), rules[k].quota)
    requires CapOf(rules[k].quota, |b|).Some?
    ensures Bounded(ApplyRules(order, out, rules), b, rules[k].quota)
    decreases |rules|
  {
    var q := rules[k].quota;
    var o := StepRule(order, out, rules[0]);
    ApplyRulesUnfold(order, out, rules);
    if k == 0 {
      FirstRuleCap(order, out, rules, b);
    } else {
      RowsKept(out, o);
      assert rules[1..][k - 1] == rules[k];
      ApplyRulesCap(order, o, rules[1..], k - 1, b);
    }
  }

  /** The first rule's bound survives the rules after it. */
  lemma FirstRuleCap(order: CapOrder, out: seq<Slot>, rules: seq<Rule>, b: seq<int>)
    requires 0 < |rules| && rules[0].Quota?
    requires b in BucketsFor(RowsOf(out), rules[0].quota)
    requires CapOf(rules[0].quota, |b|).Some?
    ensures Bounded(ApplyRules(order, StepRule(order, out, rules[0]), rules[1..]), b, rules[0].quota)
  {
    var q := rules[0].quota;
    var o := StepRule(order, out, rules[0]);
    StepBucketsCap(order, out, BucketsFor(RowsOf(out), q), q, b);
    BoundedKept(o, ApplyRules(order, o, rules[1..]), b, q);
  }

  /** When `p` picks exactly the targeted rows of a bounded bucket, the
      finalized output holds at most the bucket's allowance of them. */
  lemma SurvivorsBound(out: seq<Slot>, b: seq<int>, q: QuotaSpec, p: Slot -> bool)
    requires CapOf(q, |b|).Some? && Bounded(out, b, q)
    requires forall i :: 0 <= i < |out| ==> (p(out[i]) <==> i in b && MatchesValue(out[i].row.Get(q.field), q))
    ensures CountWhere(Finalize(out), p) <= Allowed(q, |b|)
  {
    FinalizeCount(out, p);
    assert LiveWhere(out, p) == LiveMatch(out, b, q);
  }

  /** A global quota rule with a cap: the output holds at most
      floor(cap + tolerance) targeted rows, the cap computed on the whole input. */
  lemma GlobalCapHolds(order: CapOrder, rows: seq<Slot>, rules: seq<Rule>, k: int)
    requires 0 <= k < |rules| && rules[k].Quota?
    requires rules[k].quota.EffectiveScope() == Global
    requires CapOf(rules[k].quota, |rows|).Some?
    ensures var q := rules[k].quota;
            CountWhere(ApplyQuotasWith(order, rows, rules), (s: Slot) => MatchesValue(s.row.Get(q.field), q))
              <= Allowed(q, |rows|)
  {
    var q := rules[k].quota;
    var b := AllIndices(|rows|);
    var out := ApplyRules(order, rows, rules);
    ApplyRulesCap(order, rows, rules, k, b);
    SurvivorsBound(out, b, q, (s: Slot) => MatchesValue(s.row.Get(q.field), q));
  }

  /** A per-vertical quota rule with a cap: for every vertical value present,
      the output holds at most floor(cap + tolerance) targeted rows of that
      vertical, the cap computed on that vertical's rows in the input. */
  lemma PerVerticalCapHolds(order: CapOrder, rows: seq<Slot>, rules: seq<Rule>, k: int, j: int)
    requires 0 <= k < |rules| && rules[k].Quota?
    requires rules[k].quota.EffectiveScope() == PerVertical
    requires 0 <= j < |rows|
    requires CapOf(rules[k].quota, |IndicesWith(RowsOf(rows), rows[j].row.verticalValue)|).Some?
    ensures var q := rules[k].quota;
            var v := rows[j].row.verticalValue;
            CountWhere(ApplyQuotasWith(order, rows, rules),
                       (s: Slot) => s.row.verticalValue == v && MatchesValue(s.row.Get(q.field), q))
              <= Allowed(q, |IndicesWith(RowsOf(rows), v)|)
  {
    var q := rules[k].quota;
    var v := rows[j].row.verticalValue;
    var b := IndicesWith(RowsOf(rows), v);
    var out := ApplyRules(order, rows, rules);
    assert RowsOf(rows)[j].verticalValue == v;
    ApplyRulesCap(order, rows, rules, k, b);
    VerticalBucketPicks(rows, out, v, q);
    SurvivorsBound(out, b, q, (s: Slot) => s.row.verticalValue == v && MatchesValue(s.row.Get(q.field), q));
  }

  lemma VerticalBucketPicks(rows: seq<Slot>, out: seq<Slot>, v: string, q: QuotaSpec)
    requires Grows(rows, out)
    ensures forall i :: 0 <= i < |out| ==>
              (out[i].row.verticalValue == v && MatchesValue(out[i].row.Get(q.field), q) <==>
               i in IndicesWith(RowsOf(rows), v) && MatchesValue(out[i].row.Get(q.field), q))
  {
  }

  // ---------------------------------------------------------------------
  // The cap's sort order

  /** Three rows of one vertical, all with Pattern "P", scored 3, 2 and 1. */
  function ThreeScored(): seq<Slot> {
    var row := Row("Vertical", "V", Some("P"), None, None, None, None, None, None, None, None, None, None);
    [Slot(row, 3.0, false, None, None), Slot(row, 2.0, false, None, None), Slot(row, 1.0, false, None, None)]
  }

  /** At most 34% of rows with Pattern "P", no tolerance: a cap of 1 out of 3. */
  const OneInThree := QuotaSpec(Pattern, Some("P"), None, None, None, Some(34.0), None, Some(0.0), None)

  lemma OneInThreeFires()
    ensures Group(ThreeScored(), [0, 1, 2], OneInThree) == [0, 1, 2]
    ensures CapOf(OneInThree, 3) == Some(1) && Allowed(OneInThree, 3) == 1
    ensures CapFires(ThreeScored(), [0, 1, 2], OneInThree)
  {
    assert ValuesFor(OneInThree) == ["P"];
    assert 3.0 * (Clamp(34.0, 0.0, 100.0) / 100.0) == 1.02;
  }

  lemma {:induction false} CardDistinct(s: seq<int>)
    requires Distinct(s)
    ensures |set x | x in s| == |s|
  {
    if |s| > 0 {
      assert Distinct(s[1..]);
      CardDistinct(s[1..]);
      assert (set x | x in s) == (set x | x in s[1..]) + {s[0]};
      assert s[0] !in s[1..];
    }
  }

  /** A distinct sequence has an element outside any shorter sequence. */
  lemma Outside(g: seq<int>, d: seq<int>) returns (a: int)
    requires Distinct(g) && |d| < |g|
    ensures a in g && a !in d
  {
    CardDistinct(g);
    CardSeqSet(d);
    if forall x :: x in g ==> x in d {
      SubsetCard(set x | x in g, set x | x in d);
      assert false;
    }
    a :| a in g && a !in d;
  }

  /** As written, a firing cap drops the group's best-scored row whenever that
      row scores strictly above every other row of the group. */
  lemma AsWrittenDropsTop(out: seq<Slot>, bucket: seq<int>, q: QuotaSpec, t: int)
    requires ValidIdx(bucket, |out|) && CapFires(out, bucket, q)
    requires t in Group(out, bucket, q)
    requires forall i :: i in Group(out, bucket, q) && i != t ==> out[i].score < out[t].score
    ensures CapStep(AsWritten, out, bucket, q).out[t].drop
  {
    var g := Group(out, bucket, q);
    var res := CapStep(AsWritten, out, bucket, q);
    CapStepOrder(AsWritten, out, bucket, q);
    assert |res.dropped| > 0;
    var d := res.dropped[0];
    assert d in res.dropped && d in g;
    var st, sd := out[t].score, out[d].score;
    assert t !in res.dropped ==> st <= sd && d != t;
    assert t in res.dropped;
  }

  /** With the intended order, a firing cap that keeps at least one row never
      drops the group's strictly best-scored row. */
  lemma IntendedKeepsTop(out: seq<Slot>, bucket: seq<int>, q: QuotaSpec, t: int)
    requires ValidIdx(bucket, |out|) && Distinct(bucket) && CapFires(out, bucket, q)
    requires Allowed(q, |bucket|) >= 1
    requires t in Group(out, bucket, q) && !out[t].drop
    requires forall i :: i in Group(out, bucket, q) && i != t ==> out[i].score < out[t].score
    ensures !CapStep(Intended, out, bucket, q).out[t].drop
  {
    var g := Group(out, bucket, q);
    var res := CapStep(Intended, out, bucket, q);
    CapStepOrder(Intended, out, bucket, q);
    var a := Outside(g, res.dropped);
    var sa, st := out[a].score, out[t].score;
    assert t in res.dropped ==> sa >= st && a != t;
    assert t !in res.dropped;
  }

  /** As written, capping the three rows at one drops the row scored 3. */
  lemma AsWrittenCapDropsTopScore()
    ensures CapStep(AsWritten, ThreeScored(), [0, 1, 2], OneInThree).out[0].drop
  {
    OneInThreeFires();
    AsWrittenDropsTop(ThreeScored(), [0, 1, 2], OneInThree, 0);
  }

  /** With the intended order, the row scored 3 survives the same cap. */
  lemma IntendedCapKeepsTopScore()
    ensures !CapStep(Intended, ThreeScored(), [0, 1, 2], OneInThree).out[0].drop
  {
    OneInThreeFires();
    IntendedKeepsTop(ThreeScored(), [0, 1, 2], OneInThree, 0);
  }
}
