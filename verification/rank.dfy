/** The ranking pipeline `filterAndRank` (src/lib/ruleEngine.ts:326-352): drop
    rows that break a hard rule, score the rest by the soft rules, sort by
    score (highest first, ties in input order), then enforce the quotas. */
module Rank {
  import opened Types
  import opened Seqs
  import opened Sorting
  import opened RuleEngine
  import opened Quotas

  /** The rows no hard rule rejects, in input order. */
  function Candidates(rows: seq<Row>, rules: seq<Rule>): (r: seq<Row>)
    ensures IsSubseq(r, rows)
    ensures forall x :: x in r <==> x in rows && Admissible(x, rules)
    ensures (forall i :: 0 <= i < |rows| ==> Admissible(rows[i], rules)) ==> r == rows
    ensures forall x :: multiset(r)[x] == (if Admissible(x, rules) then multiset(rows)[x] else 0)
  {
    Filter(x => Admissible(x, rules), rows)
  }

  /** The sum of the soft scores of the rules of one kind (prefer when
      `prefer` holds, penalize otherwise). */
  function KindScore(row: Row, rules: seq<Rule>, prefer: bool): real {
    if |rules| == 0 then 0.0
    else
      (if (prefer && rules[0].Prefer?) || (!prefer && rules[0].Penalize?) then ScoreSoft(row, rules[0]) else 0.0)
      + KindScore(row, rules[1..], prefer)
  }

  /** A row's score: the prefer rules' contributions, then the penalize rules'. */
  function SoftScore(row: Row, rules: seq<Rule>): real {
    KindScore(row, rules, true) + KindScore(row, rules, false)
  }

  /** Reference definition: the sum of every rule's soft score. */
  function TotalSoft(row: Row, rules: seq<Rule>): real {
    if |rules| == 0 then 0.0 else ScoreSoft(row, rules[0]) + TotalSoft(row, rules[1..])
  }

  /** Splitting the rules by kind loses nothing: other kinds score 0. */
  lemma {:induction false} SoftScoreIsTotal(row: Row, rules: seq<Rule>)
    ensures SoftScore(row, rules) == TotalSoft(row, rules)
  {
    if |rules| > 0 {
      SoftScoreIsTotal(row, rules[1..]);
    }
  }

  /** Without soft rules every row scores 0. */
  lemma {:induction false} NoSoftRulesScoreZero(row: Row, rules: seq<Rule>)
    requires forall k :: 0 <= k < |rules| ==> !rules[k].IsSoft()
    ensures SoftScore(row, rules) == 0.0
  {
    SoftScoreIsTotal(row, rules);
    TotalZero(row, rules);
  }

  lemma {:induction false} TotalZero(row: Row, rules: seq<Rule>)
    requires forall k :: 0 <= k < |rules| ==> !rules[k].IsSoft()
    ensures TotalSoft(row, rules) == 0.0
  {
    if |rules| > 0 {
      TotalZero(row, rules[1..]);
    }
  }

  function Fresh(row: Row, rules: seq<Rule>): Slot {
    Slot(row, SoftScore(row, rules), false, None, None)
  }

  function Score(s: Slot): real {
    s.score
  }

  /** The scored candidates, in input order. */
  function Scored(rows: seq<Row>, rules: seq<Rule>): (r: seq<Slot>)
    ensures |r| == |rows| && forall i :: 0 <= i < |rows| ==> r[i] == Fresh(rows[i], rules)
  {
    seq(|rows|, i requires 0 <= i < |rows| => Fresh(rows[i], rules))
  }

  /** The ranking before quotas: the candidates, freshly scored, sorted by
      score, highest first, ties in input order. */
  function Ranked(rows: seq<Row>, rules: seq<Rule>): (r: seq<Slot>)
    ensures multiset(r) == multiset(Scored(Candidates(rows, rules), rules))
    ensures SortedDesc(r, Score)
    ensures forall v :: WithKey(r, Score, v) == WithKey(Scored(Candidates(rows, rules), rules), Score, v)
    ensures forall i :: 0 <= i < |r| ==> r[i] == Fresh(r[i].row, rules) && Admissible(r[i].row, rules)
    ensures forall x :: x in rows && Admissible(x, rules) ==> Fresh(x, rules) in r
  {
    var c := Candidates(rows, rules);
    var r := SortDesc(Scored(c, rules), Score);
    PermutedScored(c, rules, r);
    r
  }

  /** A permutation of the scored candidates holds exactly their fresh slots. */
  lemma PermutedScored(c: seq<Row>, rules: seq<Rule>, r: seq<Slot>)
    requires multiset(r) == multiset(Scored(c, rules))
    ensures forall i :: 0 <= i < |r| ==> r[i] in Scored(c, rules)
    ensures forall x :: x in c ==> Fresh(x, rules) in r
  {
    var sc := Scored(c, rules);
    forall i | 0 <= i < |r|
      ensures r[i] in sc
    {
      assert r[i] in multiset(r);
    }
    forall x | x in c
      ensures Fresh(x, rules) in r
    {
      var i :| 0 <= i < |c| && c[i] == x;
      assert sc[i] in multiset(sc);
    }
  }

  /** The quota rules of a rule pack, in order. */
  function QuotaRules(rules: seq<Rule>): (r: seq<Rule>)
    ensures forall x :: x in r <==> x in rules && x.Quota?
    ensures forall k :: 0 <= k < |r| ==> r[k].Quota?
  {
    if |rules| == 0 then []
    else
      assert forall x :: x in rules <==> x == rules[0] || x in rules[1..];
      (if rules[0].Quota? then [rules[0]] else []) + QuotaRules(rules[1..])
  }

  /** The ranking with the quota pass applied, for either cap order. */
  function FilterAndRankWith(order: CapOrder, rows: seq<Row>, rules: seq<Rule>): (r: seq<Slot>)
    ensures |r| <= |Ranked(rows, rules)|
    ensures IsSubseq(Entries(r), Entries(Ranked(rows, rules)))
    ensures forall i :: 0 <= i < |r| ==> Admissible(r[i].row, rules) && r[i].score == SoftScore(r[i].row, rules)
    ensures SortedDesc(r, Score)
    ensures (forall k :: 0 <= k < |rules| ==> !rules[k].Quota?) ==> Entries(r) == Entries(Ranked(rows, rules))
  {
    var ranked := Ranked(rows, rules);
    var r := ApplyQuotasWith(order, ranked, QuotaRules(rules));
    SurvivorsKeepRanking(ranked, r, rules);
    NoQuotaRulesNoWork(rows, rules);
    r
  }

  /** Without a quota rule the quota pass has nothing to do. */
  lemma NoQuotaRulesNoWork(rows: seq<Row>, rules: seq<Rule>)
    ensures (forall k :: 0 <= k < |rules| ==> !rules[k].Quota?) ==> NoQuotaWork(Ranked(rows, rules), QuotaRules(rules))
  {
    var ranked := Ranked(rows, rules);
    assert forall i :: 0 <= i < |ranked| ==> !ranked[i].drop;
    if forall k :: 0 <= k < |rules| ==> !rules[k].Quota? {
      assert forall k :: 0 <= k < |QuotaRules(rules)| ==> QuotaRules(rules)[k] in rules;
    }
  }

  /** `filterAndRank` as written: the quota pass is `applyQuotas` with its
      ascending cap. */
  function FilterAndRank(rows: seq<Row>, rules: seq<Rule>): (r: seq<Slot>)
    ensures |r| <= |Ranked(rows, rules)|
    ensures IsSubseq(Entries(r), Entries(Ranked(rows, rules)))
    ensures forall i :: 0 <= i < |r| ==> Admissible(r[i].row, rules) && r[i].score == SoftScore(r[i].row, rules)
    ensures SortedDesc(r, Score)
    ensures (forall k :: 0 <= k < |rules| ==> !rules[k].Quota?) ==> Entries(r) == Entries(Ranked(rows, rules))
  {
    FilterAndRankWith(AsWritten, rows, rules)
  }

  /** `filterAndRank` with the cap keeping the highest-scored rows. */
  function IntendedFilterAndRank(rows: seq<Row>, rules: seq<Rule>): (r: seq<Slot>)
    ensures |r| <= |Ranked(rows, rules)|
    ensures IsSubseq(Entries(r), Entries(Ranked(rows, rules)))
    ensures forall i :: 0 <= i < |r| ==> Admissible(r[i].row, rules) && r[i].score == SoftScore(r[i].row, rules)
    ensures SortedDesc(r, Score)
    ensures (forall k :: 0 <= k < |rules| ==> !rules[k].Quota?) ==> Entries(r) == Entries(Ranked(rows, rules))
  {
    FilterAndRankWith(Intended, rows, rules)
  }

  /** What the quota pass keeps inherits the ranking's order and scores. */
  lemma SurvivorsKeepRanking(ranked: seq<Slot>, r: seq<Slot>, rules: seq<Rule>)
    requires IsSubseq(Entries(r), Entries(ranked))
    requires SortedDesc(ranked, Score)
    requires forall i :: 0 <= i < |ranked| ==> Admissible(ranked[i].row, rules) && ranked[i].score == SoftScore(ranked[i].row, rules)
    ensures forall i :: 0 <= i < |r| ==> Admissible(r[i].row, rules) && r[i].score == SoftScore(r[i].row, rules)
    ensures SortedDesc(r, Score)
  {
    SubseqSorted(Entries(r), Entries(ranked));
    SubseqMembers(Entries(r), Entries(ranked));
    forall i | 0 <= i < |r|
      ensures Admissible(r[i].row, rules) && r[i].score == SoftScore(r[i].row, rules)
    {
      assert Entries(r)[i] in Entries(ranked);
      var j :| 0 <= j < |ranked| && Entries(ranked)[j] == Entries(r)[i];
    }
    forall i, j | 0 <= i < j < |r|
      ensures Score(r[i]) >= Score(r[j])
    {
      assert Entries(r)[i].1 >= Entries(r)[j].1;
    }
  }

  /** A subsequence of (row, score) pairs sorted by score is sorted too. */
  lemma {:induction false} SubseqSorted(a: seq<(Row, real)>, b: seq<(Row, real)>)
    requires IsSubseq(a, b)
    requires forall i, j :: 0 <= i < j < |b| ==> b[i].1 >= b[j].1
    ensures forall i, j :: 0 <= i < j < |a| ==> a[i].1 >= a[j].1
    decreases |b|
  {
    if |a| > 0 {
      if a[0] == b[0] {
        SubseqSorted(a[1..], b[1..]);
        SubseqMembers(a[1..], b[1..]);
        forall j | 0 < j < |a|
          ensures a[0].1 >= a[j].1
        {
          assert a[1..][j - 1] in b[1..];
        }
      } else {
        SubseqSorted(a, b[1..]);
      }
    }
  }

  /** A global capped quota rule of the rule pack bounds the targeted rows of the
      ranking's output by floor(cap + tolerance) of the ranked candidates. */
  lemma RankedGlobalCap(rows: seq<Row>, rules: seq<Rule>, k: int)
    requires 0 <= k < |rules| && rules[k].Quota?
    requires rules[k].quota.EffectiveScope() == Global
    requires CapOf(rules[k].quota, |Ranked(rows, rules)|).Some?
    ensures var q := rules[k].quota;
            CountWhere(FilterAndRank(rows, rules), (s: Slot) => MatchesValue(s.row.Get(q.field), q))
              <= Allowed(q, |Ranked(rows, rules)|)
  {
    var qs := QuotaRules(rules);
    assert rules[k] in qs;
    var k' :| 0 <= k' < |qs| && qs[k'] == rules[k];
    GlobalCapHolds(AsWritten, Ranked(rows, rules), qs, k');
  }

  /** The ranking never repeats a row more often than the input holds it:
      its rows form a sub-multiset of the input rows. */
  lemma FilterAndRankRowsBelow(order: CapOrder, rows: seq<Row>, rules: seq<Rule>)
    ensures multiset(RowsOf(FilterAndRankWith(order, rows, rules))) <= multiset(rows)
  {
    EntriesRowsBelow(FilterAndRankWith(order, rows, rules), Ranked(rows, rules));
    RankedRowsBelow(rows, rules);
  }

  /** The sorted candidates hold the input rows at most as often as the input. */
  lemma RankedRowsBelow(rows: seq<Row>, rules: seq<Rule>)
    ensures multiset(RowsOf(Ranked(rows, rules))) <= multiset(rows)
  {
    var ranked := Ranked(rows, rules);
    var c := Candidates(rows, rules);
    var sc := Scored(c, rules);
    var rowOf := (s: Slot) => s.row;
    MapMultisetLe(rowOf, ranked, sc);
    assert MapSeq(rowOf, ranked) == RowsOf(ranked);
    assert MapSeq(rowOf, sc) == c;
    SubseqMultiset(c, rows);
  }

  /** A subsequence of (row, score) entries keeps the rows below. */
  lemma EntriesRowsBelow(a: seq<Slot>, b: seq<Slot>)
    requires IsSubseq(Entries(a), Entries(b))
    ensures multiset(RowsOf(a)) <= multiset(RowsOf(b))
  {
    var first := (e: (Row, real)) => e.0;
    SubseqMultiset(Entries(a), Entries(b));
    MapMultisetLe(first, Entries(a), Entries(b));
    assert MapSeq(first, Entries(a)) == RowsOf(a);
    assert MapSeq(first, Entries(b)) == RowsOf(b);
  }

  /** Every row the ranking returns is one of its input rows. */
  lemma RankedRowsFrom(rows: seq<Row>, rules: seq<Rule>)
    ensures forall i :: 0 <= i < |FilterAndRank(rows, rules)| ==> FilterAndRank(rows, rules)[i].row in rows
  {
    RankedFrom(rows, rules);
    EntriesRowsFrom(FilterAndRank(rows, rules), Ranked(rows, rules), rows);
  }

  lemma RankedFrom(rows: seq<Row>, rules: seq<Rule>)
    ensures forall j :: 0 <= j < |Ranked(rows, rules)| ==> Ranked(rows, rules)[j].row in rows
  {
    var ranked := Ranked(rows, rules);
    var c := Candidates(rows, rules);
    var sc := Scored(c, rules);
    forall j | 0 <= j < |ranked|
      ensures ranked[j].row in rows
    {
      assert ranked[j] in multiset(sc);
      var k :| 0 <= k < |sc| && sc[k] == ranked[j];
      assert c[k] in c;
    }
  }

  lemma EntriesRowsFrom(a: seq<Slot>, b: seq<Slot>, rows: seq<Row>)
    requires IsSubseq(Entries(a), Entries(b))
    requires forall j :: 0 <= j < |b| ==> b[j].row in rows
    ensures forall i :: 0 <= i < |a| ==> a[i].row in rows
  {
    SubseqMembers(Entries(a), Entries(b));
    forall i | 0 <= i < |a|
      ensures a[i].row in rows
    {
      assert Entries(a)[i] in Entries(b);
    }
  }
}
