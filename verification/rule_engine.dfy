/** Clause matching, the three hard-constraint predicates, soft scoring and
    the diagnostic trace (src/lib/ruleEngine.ts:31-168). */
module RuleEngine {
  import opened Types
  import opened Seqs

  /** A scalar clause value stands for the singleton list. */
  function Items(v: ClauseValue): seq<string> {
    match v
    case Scalar(s) => [s]
    case List(xs) => xs
  }

  /** Array elements joined with commas: how a list value reads when it is
      used where a string is expected. */
  function JoinComma(xs: seq<string>): string {
    if |xs| == 0 then ""
    else if |xs| == 1 then xs[0]
    else xs[0] + "," + JoinComma(xs[1..])
  }

  function AsText(v: ClauseValue): string {
    match v
    case Scalar(s) => s
    case List(xs) => JoinComma(xs)
  }

  /** A clause value is truthy unless it is the empty string (arrays always are). */
  predicate ValueTruthy(v: ClauseValue) {
    !v.Scalar? || v.s != ""
  }

  /** One operator applied to a row value (ruleEngine.ts:35-44). */
  function MatchesOp(actual: Option<string>, op: OpName, value: ClauseValue): (r: bool)
    ensures r ==> Present(actual)
    ensures op.Unknown? ==> !r
    ensures op == Known(Equals) ==> (r <==> Present(actual) && value.Scalar? && actual.value == value.s)
    ensures op == Known(OneOf) && value.Scalar? ==> (r <==> Present(actual) && actual.value == value.s)
    ensures op == Known(OneOf) && value.List? ==> (r <==> Present(actual) && actual.value in value.items)
    ensures op == Known(StartsWith) && value.Scalar? ==> (r <==> Present(actual) && value.s <= actual.value)
  {
    if !Present(actual) then false
    else
      match op
      case Unknown(_) => false
      case Known(Equals) => value == Scalar(actual.value)
      case Known(OneOf) => actual.value in Items(value)
      case Known(StartsWith) => AsText(value) <= actual.value
  }

  /** An IF entry holds when the row has a present value passing its operator. */
  predicate EntryHolds(row: Row, e: IfEntry) {
    Present(row.Get(e.field)) && MatchesOp(row.Get(e.field), e.op, e.value)
  }

  /** `match` (ruleEngine.ts:46-54): every listed field must pass; an empty
      clause matches every row. */
  function Match(row: Row, ifc: IfClause): (r: bool)
    ensures r <==> forall i :: 0 <= i < |ifc| ==> EntryHolds(row, ifc[i])
    ensures |ifc| == 0 ==> r
  {
    if |ifc| == 0 then true
    else
      var e := ifc[0];
      var rest := Match(row, ifc[1..]);
      assert forall i :: 1 <= i < |ifc| ==> ifc[1..][i - 1] == ifc[i];
      MatchesOp(row.Get(e.field), e.op, e.value) && rest
  }

  /** An operator name is truthy unless it is the empty string. */
  predicate OpTruthy(op: OpName) {
    op != Unknown("")
  }

  /** The op/value part of a THEN spec is in use when both are given and
      truthy (`cfg.op && cfg.value`). */
  predicate OpPartGiven(spec: ThenSpec) {
    spec.op.Some? && OpTruthy(spec.op.value) && spec.value.Some? && ValueTruthy(spec.value.value)
  }

  predicate StartsWithGiven(spec: ThenSpec) {
    spec.startsWith.Some? && spec.startsWith.value != ""
  }

  /** The field's value satisfies ANY of the spec's parts (the disallow and
      prefer/penalize reading, ruleEngine.ts:66-69 and :121-124). */
  predicate AnyPartHolds(actual: Option<string>, spec: ThenSpec) {
    Present(actual) &&
    ( (StartsWithGiven(spec) && spec.startsWith.value <= actual.value)
    || (spec.oneOf.Some? && actual.value in spec.oneOf.value)
    || (OpPartGiven(spec) && MatchesOp(actual, spec.op.value, spec.value.value)))
  }

  /** The field's value is present and passes the FIRST part the spec gives:
      oneOf, else startsWith, else op/value; a spec with no part allows any
      present value (the allowOnly, mustInclude and satisfiesThen reading,
      ruleEngine.ts:83-88). */
  predicate FirstPartHolds(actual: Option<string>, spec: ThenSpec) {
    Present(actual) &&
    if spec.oneOf.Some? then actual.value in spec.oneOf.value
    else if StartsWithGiven(spec) then spec.startsWith.value <= actual.value
    else if OpPartGiven(spec) then MatchesOp(actual, spec.op.value, spec.value.value)
    else true
  }

  /** The OR loop over THEN fields used by disallow and scoreSoft. */
  function SomeFieldHits(row: Row, thenc: ThenClause): (r: bool)
    ensures r <==> exists i :: 0 <= i < |thenc| && AnyPartHolds(row.Get(thenc[i].field), thenc[i].spec)
  {
    if |thenc| == 0 then false
    else
      var rest := SomeFieldHits(row, thenc[1..]);
      assert forall i :: 1 <= i < |thenc| ==> thenc[1..][i - 1] == thenc[i];
      AnyPartHolds(row.Get(thenc[0].field), thenc[0].spec) || rest
  }

  /** The loop over THEN fields used by allowOnly and mustInclude: some field
      is absent or fails its first given part. */
  function SomeFieldFails(row: Row, thenc: ThenClause): (r: bool)
    ensures r <==> exists i :: 0 <= i < |thenc| && !FirstPartHolds(row.Get(thenc[i].field), thenc[i].spec)
  {
    if |thenc| == 0 then false
    else
      var rest := SomeFieldFails(row, thenc[1..]);
      assert forall i :: 1 <= i < |thenc| ==> thenc[1..][i - 1] == thenc[i];
      !FirstPartHolds(row.Get(thenc[0].field), thenc[0].spec) || rest
  }

  /** `satisfiesThen` (ruleEngine.ts:133-149): every THEN field is present and
      passes its first given part; an empty clause is satisfied. */
  function SatisfiesThen(row: Row, thenc: ThenClause): (r: bool)
    ensures r <==> forall i :: 0 <= i < |thenc| ==> FirstPartHolds(row.Get(thenc[i].field), thenc[i].spec)
    ensures r ==> forall i :: 0 <= i < |thenc| ==> Present(row.Get(thenc[i].field))
  {
    !SomeFieldFails(row, thenc)
  }

  /** `violatesDisallow` (ruleEngine.ts:57-72). */
  function ViolatesDisallow(row: Row, rule: Rule): (r: bool)
    ensures r <==> rule.Disallow? && Match(row, rule.ifc) &&
                   (|rule.thenc| == 0 ||
                    exists i :: 0 <= i < |rule.thenc| && AnyPartHolds(row.Get(rule.thenc[i].field), rule.thenc[i].spec))
  {
    rule.Disallow? && Match(row, rule.ifc) && (|rule.thenc| == 0 || SomeFieldHits(row, rule.thenc))
  }

  /** `violatesAllowOnly` (ruleEngine.ts:75-91). */
  function ViolatesAllowOnly(row: Row, rule: Rule): (r: bool)
    ensures r <==> rule.AllowOnly? && Match(row, rule.ifc) && !SatisfiesThen(row, rule.thenc)
    ensures r <==> rule.AllowOnly? && Match(row, rule.ifc) &&
                   exists i :: 0 <= i < |rule.thenc| &&
                     (!Present(row.Get(rule.thenc[i].field)) || !FirstPartHolds(row.Get(rule.thenc[i].field), rule.thenc[i].spec))
  {
    rule.AllowOnly? && Match(row, rule.ifc) && SomeFieldFails(row, rule.thenc)
  }

  /** `violatesMustInclude` (ruleEngine.ts:94-110): the same predicate as
      allowOnly, kept as its own rule kind. */
  function ViolatesMustInclude(row: Row, rule: Rule): (r: bool)
    ensures r <==> rule.MustInclude? && Match(row, rule.ifc) && !SatisfiesThen(row, rule.thenc)
    ensures r <==> rule.MustInclude? && Match(row, rule.ifc) &&
                   exists i :: 0 <= i < |rule.thenc| &&
                     (!Present(row.Get(rule.thenc[i].field)) || !FirstPartHolds(row.Get(rule.thenc[i].field), rule.thenc[i].spec))
  {
    rule.MustInclude? && Match(row, rule.ifc) && SomeFieldFails(row, rule.thenc)
  }

  /** allowOnly and mustInclude evaluate identically on the same clauses. */
  lemma MustIncludeMirrorsAllowOnly(row: Row, ifc: IfClause, thenc: ThenClause)
    ensures ViolatesMustInclude(row, MustInclude(ifc, thenc)) == ViolatesAllowOnly(row, AllowOnly(ifc, thenc))
  {
  }

  /** The hard-rule dispatch used by both the filter and `isComboAllowed`. */
  predicate ViolatesHard(row: Row, rule: Rule) {
    match rule
    case Disallow(_, _) => ViolatesDisallow(row, rule)
    case AllowOnly(_, _) => ViolatesAllowOnly(row, rule)
    case MustInclude(_, _) => ViolatesMustInclude(row, rule)
    case _ => false
  }

  /** An empty operator name switches the op/value part off: an allowOnly
      whose only THEN part has op "" lets any present value through, and a
      disallow with it rejects nothing. */
  lemma EmptyOpIsSkipped(row: Row, v: string)
    requires Present(row.format)
    ensures var spec := ThenSpec(None, None, Some(Unknown("")), Some(Scalar(v)));
            !ViolatesAllowOnly(row, AllowOnly([], [ThenEntry(Format, spec)])) &&
            !ViolatesMustInclude(row, MustInclude([], [ThenEntry(Format, spec)])) &&
            !ViolatesDisallow(row, Disallow([], [ThenEntry(Format, spec)]))
  {
    var spec := ThenSpec(None, None, Some(Unknown("")), Some(Scalar(v)));
    assert FirstPartHolds(row.Get(Format), spec);
  }

  /** A row survives the hard filter when no rule of the rule pack rejects it. */
  predicate Admissible(row: Row, rules: seq<Rule>) {
    forall k :: 0 <= k < |rules| ==> !ViolatesHard(row, rules[k])
  }

  /** The weight of a soft rule; a missing weight counts as 0. */
  function WeightOf(rule: Rule): real
    requires rule.IsSoft()
  {
    rule.weight.GetOr(0.0)
  }

  /** `scoreSoft` (ruleEngine.ts:112-129). */
  function ScoreSoft(row: Row, rule: Rule): (s: real)
    ensures !rule.IsSoft() ==> s == 0.0
    ensures rule.IsSoft() && !Match(row, rule.ifc) ==> s == 0.0
    ensures (rule.IsSoft() && forall i :: 0 <= i < |rule.thenc| ==> !AnyPartHolds(row.Get(rule.thenc[i].field), rule.thenc[i].spec))
      ==> s == 0.0
    ensures (rule.IsSoft() && Match(row, rule.ifc) &&
             exists i :: 0 <= i < |rule.thenc| && AnyPartHolds(row.Get(rule.thenc[i].field), rule.thenc[i].spec))
      ==> s == (if rule.Prefer? then WeightOf(rule) else -WeightOf(rule))
  {
    if !rule.IsSoft() then 0.0
    else if !Match(row, rule.ifc) then 0.0
    else if !SomeFieldHits(row, rule.thenc) then 0.0
    else if rule.Prefer? then WeightOf(rule) else -WeightOf(rule)
  }

  datatype HitKind = PreferHit | PenalizeHit | AllowOnlyHit | MustIncludeHit

  /** A trace entry; soft rules record their weight. */
  datatype Hit = Hit(kind: HitKind, weight: Option<real>)

  /** The trace entry one rule contributes: soft and allowOnly/mustInclude
      rules whose IF matches and whose THEN is satisfied; never disallow or
      quota rules. */
  function HitFor(row: Row, rule: Rule): Option<Hit> {
    match rule
    case Prefer(i, t, w) =>
      if Match(row, i) && SatisfiesThen(row, t) then Some(Hit(PreferHit, Some(w.GetOr(0.0)))) else None
    case Penalize(i, t, w) =>
      if Match(row, i) && SatisfiesThen(row, t) then Some(Hit(PenalizeHit, Some(w.GetOr(0.0)))) else None
    case AllowOnly(i, t) =>
      if Match(row, i) && SatisfiesThen(row, t) then Some(Hit(AllowOnlyHit, None)) else None
    case MustInclude(i, t) =>
      if Match(row, i) && SatisfiesThen(row, t) then Some(Hit(MustIncludeHit, None)) else None
    case _ => None
  }

  /** `traceHits` (ruleEngine.ts:152-168): the hits in rule order. */
  function TraceHits(row: Row, rules: seq<Rule>): (hits: seq<Hit>)
    ensures |hits| <= |rules|
    ensures forall h :: h in hits ==> exists k :: 0 <= k < |rules| && HitFor(row, rules[k]) == Some(h)
    ensures (forall k :: 0 <= k < |rules| ==> HitFor(row, rules[k]).None?) ==> hits == []
    ensures forall k :: 0 <= k < |rules| && HitFor(row, rules[k]).Some? ==> HitFor(row, rules[k]).value in hits
  {
    if |rules| == 0 then []
    else
      var rest := TraceHits(row, rules[1..]);
      assert forall k :: 1 <= k < |rules| ==> rules[1..][k - 1] == rules[k];
      match HitFor(row, rules[0])
      case Some(h) => [h] + rest
      case None => rest
  }

  /** A single rule contributes its hit when it has one and nothing otherwise. */
  lemma TraceHitsOne(row: Row, rule: Rule)
    ensures TraceHits(row, [rule]) == (if HitFor(row, rule).Some? then [HitFor(row, rule).value] else [])
  {
    assert [rule][1..] == [];
  }

  /** The trace of a non-empty list is the first rule's hit, if any, then the
      trace of the rest. */
  lemma TraceHitsCons(row: Row, rules: seq<Rule>)
    requires |rules| > 0
    ensures TraceHits(row, rules) == TraceHits(row, [rules[0]]) + TraceHits(row, rules[1..])
  {
    TraceHitsOne(row, rules[0]);
  }

  /** The trace of a concatenation of rules is the concatenation of their
      traces: with `TraceHitsOne`, every qualifying rule adds its hit, in
      rule order. */
  lemma {:induction false} TraceHitsAppend(row: Row, a: seq<Rule>, b: seq<Rule>)
    ensures TraceHits(row, a + b) == TraceHits(row, a) + TraceHits(row, b)
    decreases |a|
  {
    if |a| == 0 {
      assert a + b == b;
    } else {
      TraceHitsAppend(row, a[1..], b);
      TraceHitsAppendStep(row, a, b);
    }
  }

  /** One step of `TraceHitsAppend`: the property for `a` follows from the
      property for the tail of `a`. */
  lemma TraceHitsAppendStep(row: Row, a: seq<Rule>, b: seq<Rule>)
    requires |a| > 0
    requires TraceHits(row, a[1..] + b) == TraceHits(row, a[1..]) + TraceHits(row, b)
    ensures TraceHits(row, a + b) == TraceHits(row, a) + TraceHits(row, b)
  {
    TailOfAppend(a, b);
    TraceHitsCons(row, a);
    TraceHitsCons(row, a + b);
    AppendAssoc(TraceHits(row, [a[0]]), TraceHits(row, a[1..]), TraceHits(row, b));
  }

  /** For a hard rule whose IF matches, the trace lists it exactly when the
      row does not violate it. */
  lemma TraceHardRuleIffKept(row: Row, rule: Rule)
    requires rule.AllowOnly? || rule.MustInclude?
    requires Match(row, rule.ifc)
    ensures HitFor(row, rule).Some? <==> !ViolatesHard(row, rule)
  {
  }

  /** Disallow and quota rules never appear in the trace. */
  lemma TraceOmitsDisallowAndQuota(row: Row, rule: Rule)
    requires rule.Disallow? || rule.Quota?
    ensures HitFor(row, rule).None?
  {
  }

  /** A spec that gives at least one part. */
  predicate SomePartGiven(spec: ThenSpec) {
    spec.oneOf.Some? || StartsWithGiven(spec) || OpPartGiven(spec)
  }

  /** When every THEN field gives a part and the clause is non-empty, a soft
      rule listed in the trace also contributes its signed weight. */
  lemma {:induction false} TraceHitScores(row: Row, rule: Rule)
    requires rule.IsSoft()
    requires |rule.thenc| > 0
    requires forall i :: 0 <= i < |rule.thenc| ==> SomePartGiven(rule.thenc[i].spec)
    requires HitFor(row, rule).Some?
    ensures ScoreSoft(row, rule) == (if rule.Prefer? then WeightOf(rule) else -WeightOf(rule))
  {
    var e := rule.thenc[0];
    assert FirstPartHolds(row.Get(e.field), e.spec);
    assert AnyPartHolds(row.Get(e.field), e.spec);
  }

  /** Scoring reads THEN with OR and the trace with AND: a prefer rule can
      raise a row's score without appearing in its trace. */
  lemma ScoreOrTraceAnd()
    ensures var row := Row("Pain Point", "A", Some("P"), Some("F"), None, None, None, None, None, None, None, None, None);
            var spec := ThenSpec(Some(["P"]), None, None, None);
            var rule := Prefer([], [ThenEntry(Pattern, spec), ThenEntry(Tone, spec)], Some(0.5));
            ScoreSoft(row, rule) == 0.5 && HitFor(row, rule).None?
  {
    var row := Row("Pain Point", "A", Some("P"), Some("F"), None, None, None, None, None, None, None, None, None);
    var spec := ThenSpec(Some(["P"]), None, None, None);
    var rule := Prefer([], [ThenEntry(Pattern, spec), ThenEntry(Tone, spec)], Some(0.5));
    assert AnyPartHolds(row.Get(rule.thenc[0].field), rule.thenc[0].spec);
    assert !FirstPartHolds(row.Get(rule.thenc[1].field), rule.thenc[1].spec);
  }
}
