/** The combination generator `generateCombos` (src/lib/logic.ts:165-326) and
    its sampling helper `pickN` (src/lib/logic.ts:42-50). The random source is
    an explicit stream of values in [0, 1) read through a cursor, so every
    call is a pure function of its inputs and of the stream. */
module Generator {
  import opened Types
  import opened Seqs
  import opened RuleEngine
  import opened Quotas
  import opened Rank
  import opened Splits
  import opened Combos

  /** A value of `random()`. */
  type Unit = u: real | 0.0 <= u < 1.0

  /** `Math.floor(random() * n)`: an index into a list of n items. */
  function Index(u: Unit, n: nat): (k: nat)
    requires n > 0
    ensures k < n
  {
    assert u * n as real < n as real by {
      assert (1.0 - u) * n as real > 0.0;
    }
    (u * n as real).Floor
  }

  /** `pickN`: remove a random element of a working copy of `arr` until `n`
      are taken or none is left. Returns the picks and the advanced cursor. */
  function PickN<T>(arr: seq<T>, n: int, rand: nat -> Unit, c: nat): (res: (seq<T>, nat))
    ensures |res.0| == Min(Max(n, 0), |arr|)
    ensures multiset(res.0) <= multiset(arr)
    ensures n >= |arr| ==> multiset(res.0) == multiset(arr)
    ensures res.1 == c + |res.0|
    decreases |arr|
  {
    if |arr| == 0 || n <= 0 then ([], c)
    else
      var k := Index(rand(c), |arr|);
      var rest := arr[..k] + arr[k + 1..];
      assert arr == arr[..k] + [arr[k]] + arr[k + 1..];
      var (tail, c2) := PickN(rest, n - 1, rand, c + 1);
      ([arr[k]] + tail, c2)
  }

  /** A pool entry: an id and, for formats, a production cluster. */
  datatype PoolItem = PoolItem(id: string, cluster: Option<string>)

  /** One draw from a pool; an empty pool yields null and consumes nothing. */
  function Draw(pool: seq<PoolItem>, rand: nat -> Unit, c: nat): (res: (Option<PoolItem>, nat))
    ensures |pool| == 0 ==> res.0.None? && res.1 == c
    ensures |pool| > 0 ==> res.0.Some? && res.0.value in pool && res.1 == c + 1
  {
    if |pool| == 0 then (None, c) else (Some(pool[Index(rand(c), |pool|)]), c + 1)
  }

  function IdOf(item: Option<PoolItem>): Option<string> {
    if item.None? then None else Some(item.value.id)
  }

  /** The attribute pools left after `pickN`, one per field. */
  datatype Picks = Picks(
    pat: seq<PoolItem>, fmt: seq<PoolItem>, vis: seq<PoolItem>,
    opn: seq<PoolItem>, ton: seq<PoolItem>, tal: seq<PoolItem>,
    cta: seq<PoolItem>, prf: seq<PoolItem>, spc: seq<PoolItem>)

  /** A row value comes from its pool: null exactly when the pool is empty,
      otherwise the id of one of the pool's items. */
  predicate FromPool(v: Option<string>, pool: seq<PoolItem>) {
    if |pool| == 0 then v.None? else v.Some? && exists it :: it in pool && it.id == v.value
  }

  predicate FromPicks(row: Row, p: Picks) {
    FromPool(row.pattern, p.pat) && FromPool(row.format, p.fmt) && FromPool(row.visualStyle, p.vis) &&
    FromPool(row.opening, p.opn) && FromPool(row.tone, p.ton) && FromPool(row.talent, p.tal) &&
    FromPool(row.cta, p.cta) && FromPool(row.proofDevice, p.prf) && FromPool(row.spec, p.spc)
  }

  lemma DrawFromPool(pool: seq<PoolItem>, rand: nat -> Unit, c: nat)
    ensures FromPool(IdOf(Draw(pool, rand, c).0), pool)
  {
    var d := Draw(pool, rand, c).0;
    if |pool| > 0 {
      assert d.value in pool && d.value.id == IdOf(d).value;
    }
  }

  /** One attempt of the oversampling loop: draw the nine attributes in the
      source's order and build the row; the cluster is the format's. */
  function Candidate(mainDim: string, v: string, p: Picks, rail: Option<Rail>, rand: nat -> Unit, c: nat)
    : (res: (Row, nat))
    ensures res.0.mainDimension == mainDim && res.0.verticalValue == v && res.0.rail == rail
    ensures FromPicks(res.0, p)
    ensures c <= res.1 <= c + 9
  {
    var (P, c1) := Draw(p.pat, rand, c);
    var (F, c2) := Draw(p.fmt, rand, c1);
    var (V, c3) := Draw(p.vis, rand, c2);
    var (O, c4) := Draw(p.opn, rand, c3);
    var (T, c5) := Draw(p.ton, rand, c4);
    var (L, c6) := Draw(p.tal, rand, c5);
    var (C, c7) := Draw(p.cta, rand, c6);
    var (R, c8) := Draw(p.prf, rand, c7);
    var (S, c9) := Draw(p.spc, rand, c8);
    DrawFromPool(p.pat, rand, c);
    DrawFromPool(p.fmt, rand, c1);
    DrawFromPool(p.vis, rand, c2);
    DrawFromPool(p.opn, rand, c3);
    DrawFromPool(p.ton, rand, c4);
    DrawFromPool(p.tal, rand, c5);
    DrawFromPool(p.cta, rand, c6);
    DrawFromPool(p.prf, rand, c7);
    DrawFromPool(p.spc, rand, c8);
    var cluster := if F.None? then None else F.value.cluster;
    (Row(mainDim, v, IdOf(P), IdOf(F), IdOf(V), IdOf(O), IdOf(T), IdOf(L), IdOf(C), IdOf(R), IdOf(S), cluster, rail), c9)
  }

  /** A value as a template literal prints it; null prints as "null". */
  function KeyPart(v: Option<string>): string {
    if v.None? then "null" else v.value
  }

  /** The similarity key: vertical, pattern, format and visual style. */
  function SimKey(row: Row): string {
    row.verticalValue + "|" + KeyPart(row.pattern) + "|" + KeyPart(row.format) + "|" + KeyPart(row.visualStyle)
  }

  predicate DistinctKeys(rows: seq<Row>) {
    forall i, j :: 0 <= i < j < |rows| ==> SimKey(rows[i]) != SimKey(rows[j])
  }

  /** The vertical together with the similarity key. */
  function VerticalKey(row: Row): (string, string) {
    (row.verticalValue, SimKey(row))
  }

  /** Two rows of the same vertical never share a similarity key. */
  predicate KeysDistinctPerVertical(rows: seq<Row>) {
    forall i, j :: 0 <= i < j < |rows| && rows[i].verticalValue == rows[j].verticalValue ==>
      SimKey(rows[i]) != SimKey(rows[j])
  }

  /** Rows drawn from rows with distinct keys, no row more often than
      there, have distinct keys. */
  lemma DistinctKeysBelow(a: seq<Row>, b: seq<Row>)
    requires multiset(a) <= multiset(b) && DistinctKeys(b)
    ensures DistinctKeys(a)
  {
    assert Distinct(MapSeq(SimKey, b));
    DistinctMapSub(SimKey, a, b);
    assert forall i :: 0 <= i < |a| ==> MapSeq(SimKey, a)[i] == SimKey(a[i]);
  }

  /** The same for keys that are distinct within each vertical. */
  lemma PerVerticalBelow(a: seq<Row>, b: seq<Row>)
    requires multiset(a) <= multiset(b) && KeysDistinctPerVertical(b)
    ensures KeysDistinctPerVertical(a)
  {
    assert Distinct(MapSeq(VerticalKey, b));
    DistinctMapSub(VerticalKey, a, b);
    assert forall i :: 0 <= i < |a| ==> MapSeq(VerticalKey, a)[i] == VerticalKey(a[i]);
  }

  function Keys(rows: seq<Row>): set<string> {
    set i | 0 <= i < |rows| :: SimKey(rows[i])
  }

  /** What every row generated for vertical `v` satisfies. */
  predicate Generated(row: Row, cfg: Config, mainDim: string, v: string, rail: Option<Rail>, p: Picks) {
    IsComboAllowed(row, cfg) && row.mainDimension == mainDim && row.verticalValue == v && row.rail == rail &&
    FromPicks(row, p)
  }

  /** Appending a row with a new key keeps the keys distinct. */
  lemma AppendNewKey(bucket: seq<Row>, row: Row)
    requires DistinctKeys(bucket) && SimKey(row) !in Keys(bucket)
    ensures DistinctKeys(bucket + [row])
    ensures Keys(bucket + [row]) == Keys(bucket) + {SimKey(row)}
  {
    var b := bucket + [row];
    forall i, j | 0 <= i < j < |b|
      ensures SimKey(b[i]) != SimKey(b[j])
    {
      if j == |bucket| {
        assert SimKey(b[i]) in Keys(bucket);
      }
    }
    KeysSnoc(bucket, row);
  }

  /** Appending a row adds its key to the keys. */
  lemma KeysSnoc(bucket: seq<Row>, row: Row)
    ensures Keys(bucket + [row]) == Keys(bucket) + {SimKey(row)}
  {
    var b := bucket + [row];
    assert forall k :: k in Keys(b) ==> k in Keys(bucket) + {SimKey(row)};
    assert forall k :: k in Keys(bucket) ==> k in Keys(b) by {
      forall k | k in Keys(bucket)
        ensures k in Keys(b)
      {
        var i :| 0 <= i < |bucket| && SimKey(bucket[i]) == k;
        assert b[i] == bucket[i];
      }
    }
    assert SimKey(b[|bucket|]) in Keys(b);
  }

  /** How many rows to generate for a vertical: its count, or 0 when the
      counts list is too short (`counts[vi] || 0`). */
  function NeedAt(counts: seq<int>, vi: nat): int {
    if vi < |counts| then counts[vi] else 0
  }

  function Target(need: int): int {
    Max(need * 3, need)
  }

  function MaxTries(need: int): int {
    Max(need * 500, 1500)
  }

  /** The oversampling loop as a recursive definition over its state (the
      bucket, the attempts made and the stream cursor): while the bucket is
      short of `target` and attempts remain, draw one candidate at the cursor
      and keep it when it is allowed and its similarity key is new. The draw
      and the admission test are parameters so that the loop is stated once. */
  function Sample(draw: nat -> (Row, nat), allowed: Row -> bool, target: int, maxTries: int,
                  bucket: seq<Row>, tries: nat, c: nat): (res: (seq<Row>, nat, nat))
    ensures bucket <= res.0 && tries <= res.1
    decreases maxTries - tries
  {
    if |bucket| < target && tries < maxTries then
      var next := draw(c);
      if !allowed(next.0) || SimKey(next.0) in Keys(bucket) then
        Sample(draw, allowed, target, maxTries, bucket, tries + 1, next.1)
      else
        Sample(draw, allowed, target, maxTries, bucket + [next.0], tries + 1, next.1)
    else
      (bucket, tries, c)
  }

  /** The counting facts of the sampling loop: the attempt bound, the bucket
      bound, and a short bucket only once the attempts run out. */
  lemma {:induction false} SampleBounds(draw: nat -> (Row, nat), allowed: Row -> bool, target: int, maxTries: int,
                                        bucket: seq<Row>, tries: nat, c: nat)
    ensures var res := Sample(draw, allowed, target, maxTries, bucket, tries, c);
            (tries <= maxTries ==> res.1 <= maxTries) &&
            (|bucket| <= tries ==> |res.0| <= res.1) &&
            (|bucket| <= Max(target, 0) ==> |res.0| <= Max(target, 0)) &&
            (|res.0| < target ==> res.1 >= maxTries)
    decreases maxTries - tries
  {
    if |bucket| < target && tries < maxTries {
      var next := draw(c);
      if !allowed(next.0) || SimKey(next.0) in Keys(bucket) {
        SampleBounds(draw, allowed, target, maxTries, bucket, tries + 1, next.1);
      } else {
        SampleBounds(draw, allowed, target, maxTries, bucket + [next.0], tries + 1, next.1);
      }
    }
  }

  /** The cursor never moves back when no draw moves it back. */
  lemma {:induction false} SampleCursor(draw: nat -> (Row, nat), allowed: Row -> bool, target: int, maxTries: int,
                                        bucket: seq<Row>, tries: nat, c: nat)
    requires forall k: nat :: k <= draw(k).1
    ensures c <= Sample(draw, allowed, target, maxTries, bucket, tries, c).2
    decreases maxTries - tries
  {
    if |bucket| < target && tries < maxTries {
      var next := draw(c);
      if !allowed(next.0) || SimKey(next.0) in Keys(bucket) {
        SampleCursor(draw, allowed, target, maxTries, bucket, tries + 1, next.1);
      } else {
        SampleCursor(draw, allowed, target, maxTries, bucket + [next.0], tries + 1, next.1);
      }
    }
  }

  /** Every row the sampling loop keeps has a property `good` that every
      allowed draw has. */
  lemma {:induction false} SampleGood(draw: nat -> (Row, nat), allowed: Row -> bool, good: Row -> bool,
                                      target: int, maxTries: int, bucket: seq<Row>, tries: nat, c: nat)
    requires forall k: nat :: allowed(draw(k).0) ==> good(draw(k).0)
    requires forall x :: x in bucket ==> good(x)
    ensures forall x :: x in Sample(draw, allowed, target, maxTries, bucket, tries, c).0 ==> good(x)
    decreases maxTries - tries
  {
    if |bucket| < target && tries < maxTries {
      var next := draw(c);
      var keep := allowed(next.0) && SimKey(next.0) !in Keys(bucket);
      var b := if keep then bucket + [next.0] else bucket;
      SampleGood(draw, allowed, good, target, maxTries, b, tries + 1, next.1);
      assert Sample(draw, allowed, target, maxTries, bucket, tries, c) ==
             Sample(draw, allowed, target, maxTries, b, tries + 1, next.1);
    } else {
      assert Sample(draw, allowed, target, maxTries, bucket, tries, c).0 == bucket;
    }
  }

  /** The sampling loop keeps the similarity keys pairwise distinct. */
  lemma {:induction false} SampleDistinct(draw: nat -> (Row, nat), allowed: Row -> bool, target: int, maxTries: int,
                                          bucket: seq<Row>, tries: nat, c: nat)
    requires DistinctKeys(bucket)
    ensures DistinctKeys(Sample(draw, allowed, target, maxTries, bucket, tries, c).0)
    decreases maxTries - tries
  {
    if |bucket| < target && tries < maxTries {
      var next := draw(c);
      if !allowed(next.0) || SimKey(next.0) in Keys(bucket) {
        SampleDistinct(draw, allowed, target, maxTries, bucket, tries + 1, next.1);
      } else {
        AppendNewKey(bucket, next.0);
        SampleDistinct(draw, allowed, target, maxTries, bucket + [next.0], tries + 1, next.1);
      }
    }
  }

  /** The candidate draw of one vertical, as a function of the cursor. */
  function DrawFor(mainDim: string, v: string, p: Picks, rail: Option<Rail>, rand: nat -> Unit): (draw: nat -> (Row, nat))
    ensures forall k: nat :: k <= draw(k).1
  {
    (k: nat) => Candidate(mainDim, v, p, rail, rand, k)
  }

  function AllowedBy(cfg: Config): Row -> bool {
    (r: Row) => IsComboAllowed(r, cfg)
  }

  function GeneratedFor(cfg: Config, mainDim: string, v: string, rail: Option<Rail>, p: Picks): Row -> bool {
    (r: Row) => Generated(r, cfg, mainDim, v, rail, p)
  }

  /** An allowed candidate of a vertical is a generated row of it. */
  lemma AllowedDrawsGenerated(mainDim: string, v: string, p: Picks, rail: Option<Rail>, cfg: Config, rand: nat -> Unit)
    ensures var draw := DrawFor(mainDim, v, p, rail, rand);
            forall k: nat :: AllowedBy(cfg)(draw(k).0) ==> GeneratedFor(cfg, mainDim, v, rail, p)(draw(k).0)
  {
  }

  /** The oversampling loop of one vertical: draw candidates until the bucket
      holds three times the need or the attempt budget is spent, starting
      from an empty bucket; it returns the bucket, the attempts made and the
      cursor. */
  function Oversample(mainDim: string, v: string, need: int, p: Picks, rail: Option<Rail>, cfg: Config,
                      rand: nat -> Unit, c0: nat): (res: (seq<Row>, nat, nat))
    ensures res.1 <= MaxTries(need)
    ensures |res.0| <= res.1 && |res.0| <= Max(Target(need), 0)
    ensures |res.0| < Target(need) ==> res.1 == MaxTries(need)
    ensures forall i :: 0 <= i < |res.0| ==> Generated(res.0[i], cfg, mainDim, v, rail, p)
    ensures DistinctKeys(res.0)
    ensures c0 <= res.2
  {
    var draw := DrawFor(mainDim, v, p, rail, rand);
    var good := GeneratedFor(cfg, mainDim, v, rail, p);
    SampleBounds(draw, AllowedBy(cfg), Target(need), MaxTries(need), [], 0, c0);
    SampleCursor(draw, AllowedBy(cfg), Target(need), MaxTries(need), [], 0, c0);
    AllowedDrawsGenerated(mainDim, v, p, rail, cfg, rand);
    SampleGood(draw, AllowedBy(cfg), good, Target(need), MaxTries(need), [], 0, c0);
    SampleDistinct(draw, AllowedBy(cfg), Target(need), MaxTries(need), [], 0, c0);
    var res := Sample(draw, AllowedBy(cfg), Target(need), MaxTries(need), [], 0, c0);
    assert forall i :: 0 <= i < |res.0| ==> res.0[i] in res.0 && good(res.0[i]);
    res
  }

  /** Consecutive rows are at least `d` apart. */
  predicate SpreadApart(s: seq<Row>, d: real, w: Impact) {
    forall i :: 0 < i < |s| ==> DiversityDelta(Some(s[i - 1]), Some(s[i]), w) >= d
  }

  /** Some row of `r` is closer than `d` to `x`. */
  predicate Near(r: seq<Row>, x: Row, d: real, w: Impact) {
    exists i :: 0 <= i < |r| && DiversityDelta(Some(r[i]), Some(x), w) < d
  }

  /** Every row of `rest` was taken into `r` or is too close to a row of it. */
  predicate Covers(r: seq<Row>, rest: seq<Row>, d: real, w: Impact) {
    forall x :: x in rest ==> x in r || Near(r, x, d, w)
  }

  /** Covering the tail and the head covers the whole. */
  lemma CoverCons(r: seq<Row>, rest: seq<Row>, d: real, w: Impact)
    requires |rest| > 0 && Covers(r, rest[1..], d, w)
    requires rest[0] in r || Near(r, rest[0], d, w)
    ensures Covers(r, rest, d, w)
  {
    forall x | x in rest
      ensures x in r || Near(r, x, d, w)
    {
      if x != rest[0] {
        assert x in rest[1..];
      }
    }
  }

  /** The diversity-floor loop from the point where `chosen` has been taken:
      stop at `need` rows; take the next ranked row when nothing is chosen yet
      or when it is at least `d` from the last chosen row, else skip it. The
      chosen rows stay in front and the loop stops at `need`. */
  function Greedy(rest: seq<Row>, need: int, d: real, w: Impact, chosen: seq<Row>): (r: seq<Row>)
    ensures |chosen| <= |r| && r[..|chosen|] == chosen
    ensures |r| <= Max(need, |chosen|)
    ensures |r| - |chosen| <= |rest|
    decreases |rest|
  {
    if |rest| == 0 || |chosen| >= need then chosen
    else if |chosen| > 0 && DiversityDelta(Some(chosen[|chosen| - 1]), Some(rest[0]), w) < d then
      Greedy(rest[1..], need, d, w, chosen)
    else
      var chosen' := chosen + [rest[0]];
      var r := Greedy(rest[1..], need, d, w, chosen');
      assert r[..|chosen|] == r[..|chosen'|][..|chosen|];
      r
  }

  /** The rows the loop adds are ranked rows, in ranked order. */
  lemma {:induction false} GreedyInOrder(rest: seq<Row>, need: int, d: real, w: Impact, chosen: seq<Row>)
    ensures var r := Greedy(rest, need, d, w, chosen);
            IsSubseq(r[|chosen|..], rest)
    decreases |rest|
  {
    var r := Greedy(rest, need, d, w, chosen);
    if |rest| == 0 || |chosen| >= need {
      SubseqNil(rest);
    } else if |chosen| > 0 && DiversityDelta(Some(chosen[|chosen| - 1]), Some(rest[0]), w) < d {
      GreedyInOrder(rest[1..], need, d, w, chosen);
      SubseqConsRight(r[|chosen|..], rest[0], rest[1..]);
      assert rest == [rest[0]] + rest[1..];
    } else {
      var chosen' := chosen + [rest[0]];
      GreedyInOrder(rest[1..], need, d, w, chosen');
      assert r[..|chosen'|] == chosen';
      assert r[|chosen|..] == [rest[0]] + r[|chosen'|..];
      assert ([rest[0]] + r[|chosen'|..])[1..] == r[|chosen'|..];
    }
  }

  /** The loop keeps consecutive rows at least `d` apart. */
  lemma {:induction false} GreedySpreads(rest: seq<Row>, need: int, d: real, w: Impact, chosen: seq<Row>)
    requires SpreadApart(chosen, d, w)
    ensures SpreadApart(Greedy(rest, need, d, w, chosen), d, w)
    decreases |rest|
  {
    if |rest| == 0 || |chosen| >= need {
    } else if |chosen| > 0 && DiversityDelta(Some(chosen[|chosen| - 1]), Some(rest[0]), w) < d {
      GreedySpreads(rest[1..], need, d, w, chosen);
    } else {
      var chosen' := chosen + [rest[0]];
      assert SpreadApart(chosen', d, w) by {
        forall i | 0 < i < |chosen'|
          ensures DiversityDelta(Some(chosen'[i - 1]), Some(chosen'[i]), w) >= d
        {
          if i < |chosen| {
            assert chosen'[i - 1] == chosen[i - 1] && chosen'[i] == chosen[i];
          }
        }
      }
      GreedySpreads(rest[1..], need, d, w, chosen');
    }
  }

  /** When the loop ends short of `need`, every ranked row it passed over is
      within `d` of a chosen row. */
  lemma {:induction false} GreedyCovers(rest: seq<Row>, need: int, d: real, w: Impact, chosen: seq<Row>)
    requires |chosen| > 0
    ensures var r := Greedy(rest, need, d, w, chosen);
            |r| < need ==> Covers(r, rest, d, w)
    decreases |rest|
  {
    var r := Greedy(rest, need, d, w, chosen);
    if |rest| == 0 || |chosen| >= need {
    } else if DiversityDelta(Some(chosen[|chosen| - 1]), Some(rest[0]), w) < d {
      GreedyCovers(rest[1..], need, d, w, chosen);
      if |r| < need {
        assert r[|chosen| - 1] == chosen[|chosen| - 1];
        CoverCons(r, rest, d, w);
      }
    } else {
      var chosen' := chosen + [rest[0]];
      GreedyCovers(rest[1..], need, d, w, chosen');
      if |r| < need {
        assert r[..|chosen'|] == chosen';
        assert r[|chosen|] == rest[0];
        CoverCons(r, rest, d, w);
      }
    }
  }

  lemma SubseqNil<T>(b: seq<T>)
    ensures IsSubseq([], b)
  {
  }

  /** The diversity-floor selection over a ranked bucket: at most `need` rows
      (none when `need` is not positive), in ranked order, consecutive rows at
      least `d` apart, the best-ranked row always first; when fewer than
      `need` are taken, every ranked row left out is within `d` of a chosen one. */
  function SelectDiverse(ranked: seq<Row>, need: int, d: real, w: Impact): (r: seq<Row>)
    ensures |r| <= Max(need, 0)
    ensures IsSubseq(r, ranked)
    ensures SpreadApart(r, d, w)
    ensures need > 0 && |ranked| > 0 ==> |r| > 0 && r[0] == ranked[0]
    ensures |r| < need ==> Covers(r, ranked, d, w)
  {
    if need <= 0 || |ranked| == 0 then
      SubseqNil(ranked);
      []
    else
      var r := Greedy(ranked[1..], need, d, w, [ranked[0]]);
      GreedyInOrder(ranked[1..], need, d, w, [ranked[0]]);
      GreedySpreads(ranked[1..], need, d, w, [ranked[0]]);
      GreedyCovers(ranked[1..], need, d, w, [ranked[0]]);
      assert r[0] == ranked[0];
      assert r == [ranked[0]] + r[1..];
      assert ranked == [ranked[0]] + ranked[1..];
      assert |r| < need ==> Covers(r, ranked, d, w) by {
        if |r| < need {
          CoverCons(r, ranked, d, w);
        }
      }
      r
  }

  /** One vertical's rows: oversample, rank by the rule pack when it is not
      empty, then select under the diversity floor. Besides the chosen rows
      it returns the bucket they were chosen from. */
  method GenerateVertical(mainDim: string, v: string, need: int, p: Picks, rail: Option<Rail>, cfg: Config,
                          d: real, rand: nat -> Unit, c0: nat)
    returns (bucket: seq<Row>, chosen: seq<Row>, c: nat)
    ensures var o := Oversample(mainDim, v, need, p, rail, cfg, rand, c0); bucket == o.0 && c == o.2
    ensures chosen == SelectDiverse(RankBucket(bucket, cfg.rules), need, d, cfg.impact)
    ensures |chosen| <= Max(need, 0)
    ensures SpreadApart(chosen, d, cfg.impact)
    ensures forall i :: 0 <= i < |chosen| ==> Generated(chosen[i], cfg, mainDim, v, rail, p)
    ensures DistinctKeys(chosen)
    ensures c0 <= c
  {
    var o := Oversample(mainDim, v, need, p, rail, cfg, rand, c0);
    bucket, c := o.0, o.2;
    chosen := SelectDiverse(RankBucket(bucket, cfg.rules), need, d, cfg.impact);
    ChosenFromBucket(bucket, need, d, cfg, mainDim, v, rail, p);
  }

  /** The selection from a ranked bucket keeps what every bucket row
      satisfies, and keeps the keys distinct. */
  lemma ChosenFromBucket(bucket: seq<Row>, need: int, d: real, cfg: Config, mainDim: string, v: string,
                         rail: Option<Rail>, p: Picks)
    requires forall i :: 0 <= i < |bucket| ==> Generated(bucket[i], cfg, mainDim, v, rail, p)
    requires DistinctKeys(bucket)
    ensures var chosen := SelectDiverse(RankBucket(bucket, cfg.rules), need, d, cfg.impact);
            (forall i :: 0 <= i < |chosen| ==> Generated(chosen[i], cfg, mainDim, v, rail, p)) &&
            DistinctKeys(chosen)
  {
    var ranked := RankBucket(bucket, cfg.rules);
    var chosen := SelectDiverse(ranked, need, d, cfg.impact);
    SubseqMembers(chosen, ranked);
    SubseqMultiset(chosen, ranked);
    DistinctKeysBelow(chosen, bucket);
    forall i | 0 <= i < |chosen|
      ensures Generated(chosen[i], cfg, mainDim, v, rail, p)
    {
      assert chosen[i] in bucket;
    }
  }

  /** The ranking inside a vertical: `filterAndRank` when the rule pack is not
      empty, the bucket as drawn otherwise. */
  function RankBucket(bucket: seq<Row>, rules: seq<Rule>): (ranked: seq<Row>)
    ensures forall x :: x in ranked ==> x in bucket
    ensures |rules| == 0 ==> ranked == bucket
    ensures |rules| > 0 ==> ranked == RowsOf(FilterAndRank(bucket, rules))
    ensures multiset(ranked) <= multiset(bucket)
  {
    if |rules| == 0 then bucket
    else
      RankedRowsFrom(bucket, rules);
      FilterAndRankRowsBelow(AsWritten, bucket, rules);
      RowsOf(FilterAndRank(bucket, rules))
  }

  /** How many items of each attribute to keep; proof device and spec may be
      left unset, which means 0. */
  datatype Variety = Variety(
    pattern: int, format: int, visualStyle: int, opening: int, tone: int,
    talent: int, cta: int, proofDevice: Option<int>, spec: Option<int>)

  /** The attribute pools; the proof and spec pools may be missing. */
  datatype Pools = Pools(
    patterns: seq<PoolItem>, formats: seq<PoolItem>, visualStyles: seq<PoolItem>,
    openings: seq<PoolItem>, tones: seq<PoolItem>, talents: seq<PoolItem>,
    ctas: seq<PoolItem>, proofs: Option<seq<PoolItem>>, specs: Option<seq<PoolItem>>)

  datatype Params = Params(
    mainDim: string,
    verticalValues: seq<string>,
    distribution: Distribution,
    weights: seq<real>,
    stageWeights: Option<map<string, real>>,
    adsTotal: int,
    variety: Variety,
    diversityTarget: Option<real>,
    pools: Pools,
    rail: Option<Rail>)

  /** The per-vertical counts. */
  function Counts(p: Params): (counts: seq<int>)
    ensures p.distribution == EvenDist ==> |counts| == |p.verticalValues|
    ensures |counts| > 0 && p.adsTotal >= 0 ==> Sum(counts) == p.adsTotal
  {
    SplitCounts(p.distribution, p.adsTotal, p.verticalValues, p.weights, p.stageWeights)
  }

  /** The nine `pickN` calls, in the source's order, sharing the stream. */
  function PickAll(pools: Pools, v: Variety, rand: nat -> Unit, c: nat): (res: (Picks, nat))
    ensures multiset(res.0.pat) <= multiset(pools.patterns) && multiset(res.0.fmt) <= multiset(pools.formats)
    ensures multiset(res.0.vis) <= multiset(pools.visualStyles) && multiset(res.0.opn) <= multiset(pools.openings)
    ensures multiset(res.0.ton) <= multiset(pools.tones) && multiset(res.0.tal) <= multiset(pools.talents)
    ensures multiset(res.0.cta) <= multiset(pools.ctas)
    ensures multiset(res.0.prf) <= multiset(pools.proofs.GetOr([])) && multiset(res.0.spc) <= multiset(pools.specs.GetOr([]))
    ensures pools.proofs.None? || v.proofDevice.None? ==> res.0.prf == []
    ensures res.1 == c + |res.0.pat| + |res.0.fmt| + |res.0.vis| + |res.0.opn| + |res.0.ton| + |res.0.tal|
                      + |res.0.cta| + |res.0.prf| + |res.0.spc|
  {
    var (pat, c1) := PickN(pools.patterns, v.pattern, rand, c);
    var (fmt, c2) := PickN(pools.formats, v.format, rand, c1);
    var (vis, c3) := PickN(pools.visualStyles, v.visualStyle, rand, c2);
    var (opn, c4) := PickN(pools.openings, v.opening, rand, c3);
    var (ton, c5) := PickN(pools.tones, v.tone, rand, c4);
    var (tal, c6) := PickN(pools.talents, v.talent, rand, c5);
    var (cta, c7) := PickN(pools.ctas, v.cta, rand, c6);
    var (prf, c8) := PickN(pools.proofs.GetOr([]), v.proofDevice.GetOr(0), rand, c7);
    var (spc, c9) := PickN(pools.specs.GetOr([]), v.spec.GetOr(0), rand, c8);
    (Picks(pat, fmt, vis, opn, ton, tal, cta, prf, spc), c9)
  }

  function Concat(xss: seq<seq<Row>>): seq<Row> {
    if |xss| == 0 then [] else Concat(xss[..|xss| - 1]) + xss[|xss| - 1]
  }

  /** The per-vertical needs, floored at 0, summed. */
  function NeedTotal(counts: seq<int>, n: nat): int {
    if n == 0 then 0 else NeedTotal(counts, n - 1) + Max(NeedAt(counts, n - 1), 0)
  }

  /** What one vertical's chosen rows satisfy before the final pass. */
  predicate VerticalOk(chosen: seq<Row>, need: int, d: real, cfg: Config, mainDim: string, v: string) {
    |chosen| <= Max(need, 0) && SpreadApart(chosen, d, cfg.impact) && DistinctKeys(chosen) &&
    forall i :: 0 <= i < |chosen| ==>
      IsComboAllowed(chosen[i], cfg) && chosen[i].mainDimension == mainDim && chosen[i].verticalValue == v
  }

  /** Every row is allowed and belongs to one of the verticals. */
  predicate AllowedIn(rows: seq<Row>, cfg: Config, verticals: seq<string>) {
    forall i :: 0 <= i < |rows| ==> IsComboAllowed(rows[i], cfg) && rows[i].verticalValue in verticals
  }

  lemma ConcatSnoc(xss: seq<seq<Row>>, xs: seq<Row>)
    ensures Concat(xss + [xs]) == Concat(xss) + xs
  {
    assert (xss + [xs])[..|xss|] == xss;
  }

  lemma AllowedAppend(out: seq<Row>, chosen: seq<Row>, cfg: Config, verticals: seq<string>, need: int, d: real,
                      mainDim: string, vi: nat)
    requires vi < |verticals|
    requires AllowedIn(out, cfg, verticals)
    requires VerticalOk(chosen, need, d, cfg, mainDim, verticals[vi])
    ensures AllowedIn(out + chosen, cfg, verticals)
  {
    var r := out + chosen;
    forall i | 0 <= i < |r|
      ensures IsComboAllowed(r[i], cfg) && r[i].verticalValue in verticals
    {
      if i >= |out| {
        assert r[i] == chosen[i - |out|];
      }
    }
  }

  /** Each vertical handled so far satisfies its own constraints. */
  predicate VerticalsOk(pv: seq<seq<Row>>, counts: seq<int>, d: real, cfg: Config, mainDim: string,
                        verticals: seq<string>) {
    |pv| <= |verticals| &&
    forall k :: 0 <= k < |pv| ==> VerticalOk(pv[k], NeedAt(counts, k), d, cfg, mainDim, verticals[k])
  }

  /** One more vertical keeps every invariant of the generation loop. */
  lemma VerticalStep(pv: seq<seq<Row>>, chosen: seq<Row>, counts: seq<int>, d: real, cfg: Config,
                     mainDim: string, verticals: seq<string>)
    requires |pv| < |verticals| && VerticalsOk(pv, counts, d, cfg, mainDim, verticals)
    requires VerticalOk(chosen, NeedAt(counts, |pv|), d, cfg, mainDim, verticals[|pv|])
    requires |Concat(pv)| <= NeedTotal(counts, |pv|) && AllowedIn(Concat(pv), cfg, verticals)
    ensures VerticalsOk(pv + [chosen], counts, d, cfg, mainDim, verticals)
    ensures Concat(pv + [chosen]) == Concat(pv) + chosen
    ensures |Concat(pv + [chosen])| <= NeedTotal(counts, |pv| + 1)
    ensures AllowedIn(Concat(pv + [chosen]), cfg, verticals)
  {
    ConcatSnoc(pv, chosen);
    AllowedAppend(Concat(pv), chosen, cfg, verticals, NeedAt(counts, |pv|), d, mainDim, |pv|);
    var pv' := pv + [chosen];
    forall k | 0 <= k < |pv'|
      ensures VerticalOk(pv'[k], NeedAt(counts, k), d, cfg, mainDim, verticals[k])
    {
      if k < |pv| {
        assert pv'[k] == pv[k];
      }
    }
  }

  /** The bucket vertical `vi` draws from cursor `c`, and the cursor after it. */
  function DrawVertical(params: Params, cfg: Config, rand: nat -> Unit, vi: nat, c: nat): (res: (seq<Row>, nat))
    requires vi < |params.verticalValues|
  {
    var o := Oversample(params.mainDim, params.verticalValues[vi], NeedAt(Counts(params), vi),
                        PickAll(params.pools, params.variety, rand, 0).0, params.rail, cfg, rand, c);
    (o.0, o.2)
  }

  /** The first `n` verticals drew their buckets one after another from the
      shared stream, starting where the pool picks left it, and each chose
      the diversity-floor selection of its ranked bucket. */
  predicate Drawn(params: Params, cfg: Config, rand: nat -> Unit, n: nat, buckets: seq<seq<Row>>,
                  cursors: seq<nat>, perVertical: seq<seq<Row>>) {
    n <= |params.verticalValues| && |buckets| == n && |perVertical| == n && |cursors| == n + 1 &&
    cursors[0] == PickAll(params.pools, params.variety, rand, 0).1 &&
    forall vi :: 0 <= vi < n ==>
      (buckets[vi], cursors[vi + 1]) == DrawVertical(params, cfg, rand, vi, cursors[vi]) &&
      perVertical[vi] == SelectDiverse(RankBucket(buckets[vi], cfg.rules), NeedAt(Counts(params), vi),
                                       params.diversityTarget.GetOr(DiversityTargetDefault), cfg.impact)
  }

  /** One more vertical's draw extends `Drawn`. */
  lemma DrawnStep(params: Params, cfg: Config, rand: nat -> Unit, n: nat, buckets: seq<seq<Row>>,
                  cursors: seq<nat>, perVertical: seq<seq<Row>>, bucket: seq<Row>, chosen: seq<Row>, c: nat)
    requires Drawn(params, cfg, rand, n, buckets, cursors, perVertical) && n < |params.verticalValues|
    requires (bucket, c) == DrawVertical(params, cfg, rand, n, cursors[n])
    requires chosen == SelectDiverse(RankBucket(bucket, cfg.rules), NeedAt(Counts(params), n),
                                     params.diversityTarget.GetOr(DiversityTargetDefault), cfg.impact)
    ensures Drawn(params, cfg, rand, n + 1, buckets + [bucket], cursors + [c], perVertical + [chosen])
  {
    var b, cs, pv := buckets + [bucket], cursors + [c], perVertical + [chosen];
    forall vi | 0 <= vi < n + 1
      ensures (b[vi], cs[vi + 1]) == DrawVertical(params, cfg, rand, vi, cs[vi])
      ensures pv[vi] == SelectDiverse(RankBucket(b[vi], cfg.rules), NeedAt(Counts(params), vi),
                                      params.diversityTarget.GetOr(DiversityTargetDefault), cfg.impact)
    {
      if vi < n {
        assert b[vi] == buckets[vi] && cs[vi + 1] == cursors[vi + 1] && cs[vi] == cursors[vi] && pv[vi] == perVertical[vi];
      }
    }
  }

  /** `generateCombos`. Besides the final rows it returns each vertical's
      bucket, the stream cursor before each vertical and after the last, and
      the rows each vertical chose before the final ranking pass, on which the
      diversity floor holds. */
  method GenerateCombos(params: Params, cfg: Config, rand: nat -> Unit)
    returns (rows: seq<Row>, perVertical: seq<seq<Row>>, buckets: seq<seq<Row>>, cursors: seq<nat>)
    ensures |perVertical| == |params.verticalValues|
    ensures Drawn(params, cfg, rand, |params.verticalValues|, buckets, cursors, perVertical)
    ensures forall vi :: 0 <= vi < |perVertical| ==>
              VerticalOk(perVertical[vi], NeedAt(Counts(params), vi), params.diversityTarget.GetOr(DiversityTargetDefault),
                         cfg, params.mainDim, params.verticalValues[vi])
    ensures |Concat(perVertical)| <= NeedTotal(Counts(params), |params.verticalValues|)
    ensures rows == RankBucket(Concat(perVertical), cfg.rules)
    ensures AllowedIn(rows, cfg, params.verticalValues)
    ensures Distinct(params.verticalValues) ==> KeysDistinctPerVertical(rows)
  {
    var d := params.diversityTarget.GetOr(DiversityTargetDefault);
    var counts := Counts(params);
    var (picks, c) := PickAll(params.pools, params.variety, rand, 0);
    var out: seq<Row> := [];
    perVertical, buckets, cursors := [], [], [c];
    CombosInit(params, cfg, rand);
    var vi := 0;
    while vi < |params.verticalValues|
      invariant CombosInv(params, cfg, rand, vi, out, perVertical, buckets, cursors, c)
    {
      var bucket, chosen, c';
      bucket, chosen, c' := GenerateVertical(params.mainDim, params.verticalValues[vi], NeedAt(counts, vi), picks,
                                             params.rail, cfg, d, rand, c);
      CombosStep(params, cfg, rand, vi, out, perVertical, buckets, cursors, c, bucket, chosen, c');
      buckets, cursors, perVertical, out := buckets + [bucket], cursors + [c'], perVertical + [chosen], out + chosen;
      c, vi := c', vi + 1;
    }
    rows := RankBucket(out, cfg.rules);
    CombosDone(params, cfg, rand, out, perVertical, buckets, cursors, c, rows);
  }

  /** What the finished generation loop establishes about the ranked rows. */
  lemma CombosDone(params: Params, cfg: Config, rand: nat -> Unit, out: seq<Row>, perVertical: seq<seq<Row>>,
                   buckets: seq<seq<Row>>, cursors: seq<nat>, c: nat, rows: seq<Row>)
    requires CombosInv(params, cfg, rand, |params.verticalValues|, out, perVertical, buckets, cursors, c)
    requires rows == RankBucket(out, cfg.rules)
    ensures |perVertical| == |params.verticalValues|
    ensures Drawn(params, cfg, rand, |params.verticalValues|, buckets, cursors, perVertical)
    ensures forall vi :: 0 <= vi < |perVertical| ==>
              VerticalOk(perVertical[vi], NeedAt(Counts(params), vi), params.diversityTarget.GetOr(DiversityTargetDefault),
                         cfg, params.mainDim, params.verticalValues[vi])
    ensures |Concat(perVertical)| <= NeedTotal(Counts(params), |params.verticalValues|)
    ensures rows == RankBucket(Concat(perVertical), cfg.rules)
    ensures AllowedIn(rows, cfg, params.verticalValues)
    ensures Distinct(params.verticalValues) ==> KeysDistinctPerVertical(rows)
  {
    AllowedMembers(rows, out, cfg, params.verticalValues);
    if Distinct(params.verticalValues) {
      PerVerticalBelow(rows, out);
    }
  }

  /** The invariant of the generation loop after `vi` verticals. */
  predicate CombosInv(params: Params, cfg: Config, rand: nat -> Unit, vi: nat, out: seq<Row>,
                      perVertical: seq<seq<Row>>, buckets: seq<seq<Row>>, cursors: seq<nat>, c: nat) {
    var d, counts := params.diversityTarget.GetOr(DiversityTargetDefault), Counts(params);
    vi <= |params.verticalValues| && |perVertical| == vi &&
    Drawn(params, cfg, rand, vi, buckets, cursors, perVertical) && c == cursors[vi] &&
    out == Concat(perVertical) && |out| <= NeedTotal(counts, vi) &&
    VerticalsOk(perVertical, counts, d, cfg, params.mainDim, params.verticalValues) &&
    AllowedIn(out, cfg, params.verticalValues) &&
    (forall i :: 0 <= i < |out| ==> out[i].verticalValue in params.verticalValues[..vi]) &&
    (Distinct(params.verticalValues) ==> KeysDistinctPerVertical(out))
  }

  /** The invariant holds before the first vertical, with the stream just past the pool picks. */
  lemma CombosInit(params: Params, cfg: Config, rand: nat -> Unit)
    ensures var c := PickAll(params.pools, params.variety, rand, 0).1;
            CombosInv(params, cfg, rand, 0, [], [], [], [c], c)
  {
    assert Concat([]) == [];
  }

  /** One vertical's draw and choice keep the invariant of the generation loop. */
  lemma CombosStep(params: Params, cfg: Config, rand: nat -> Unit, vi: nat, out: seq<Row>,
                   perVertical: seq<seq<Row>>, buckets: seq<seq<Row>>, cursors: seq<nat>, c: nat,
                   bucket: seq<Row>, chosen: seq<Row>, c': nat)
    requires CombosInv(params, cfg, rand, vi, out, perVertical, buckets, cursors, c) && vi < |params.verticalValues|
    requires (bucket, c') == DrawVertical(params, cfg, rand, vi, c)
    requires chosen == SelectDiverse(RankBucket(bucket, cfg.rules), NeedAt(Counts(params), vi),
                                     params.diversityTarget.GetOr(DiversityTargetDefault), cfg.impact)
    requires VerticalOk(chosen, NeedAt(Counts(params), vi), params.diversityTarget.GetOr(DiversityTargetDefault), cfg,
                        params.mainDim, params.verticalValues[vi])
    ensures CombosInv(params, cfg, rand, vi + 1, out + chosen, perVertical + [chosen], buckets + [bucket],
                      cursors + [c'], c')
  {
    var d, counts := params.diversityTarget.GetOr(DiversityTargetDefault), Counts(params);
    DrawnStep(params, cfg, rand, vi, buckets, cursors, perVertical, bucket, chosen, c');
    VerticalStep(perVertical, chosen, counts, d, cfg, params.mainDim, params.verticalValues);
    PerVerticalAppend(out, chosen, params.verticalValues, vi);
  }

  /** Appending the rows of the next vertical, all of that vertical and with
      distinct keys, keeps the keys distinct within each vertical when the
      vertical names are distinct. */
  lemma PerVerticalAppend(out: seq<Row>, chosen: seq<Row>, vs: seq<string>, vi: nat)
    requires vi < |vs|
    requires forall i :: 0 <= i < |out| ==> out[i].verticalValue in vs[..vi]
    requires DistinctKeys(chosen) && forall i :: 0 <= i < |chosen| ==> chosen[i].verticalValue == vs[vi]
    ensures forall i :: 0 <= i < |out + chosen| ==> (out + chosen)[i].verticalValue in vs[..vi + 1]
    ensures Distinct(vs) && KeysDistinctPerVertical(out) ==> KeysDistinctPerVertical(out + chosen)
  {
    var r := out + chosen;
    assert vs[..vi + 1] == vs[..vi] + [vs[vi]];
    if Distinct(vs) && KeysDistinctPerVertical(out) {
      assert vs[vi] !in vs[..vi];
      forall i, j | 0 <= i < j < |r| && r[i].verticalValue == r[j].verticalValue
        ensures SimKey(r[i]) != SimKey(r[j])
      {
        if j < |out| {
          assert r[i] == out[i] && r[j] == out[j];
        } else if i >= |out| {
          assert r[i] == chosen[i - |out|] && r[j] == chosen[j - |out|];
        }
      }
    }
  }

  /** Rows drawn from allowed rows are allowed. */
  lemma AllowedMembers(rows: seq<Row>, from: seq<Row>, cfg: Config, verticals: seq<string>)
    requires forall x :: x in rows ==> x in from
    requires AllowedIn(from, cfg, verticals)
    ensures AllowedIn(rows, cfg, verticals)
  {
    forall i | 0 <= i < |rows|
      ensures IsComboAllowed(rows[i], cfg) && rows[i].verticalValue in verticals
    {
      assert rows[i] in from;
      var j :| 0 <= j < |from| && from[j] == rows[i];
    }
  }
}
