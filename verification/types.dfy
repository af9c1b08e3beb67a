/** The data model shared by the rule engine, the sizing module and the generator
    (src/lib/types.ts and the Row record of src/lib/logic.ts). */
module Types {

  /** Absent-or-present value; the source's `null`/`undefined`. */
  datatype Option<+T> = None | Some(value: T) {
    function GetOr(default: T): T {
      match this
      case Some(v) => v
      case None => default
    }
  }

  /** The nine attributes a row carries. */
  datatype Field = Pattern | Format | VisualStyle | Opening | Tone | Talent | CTA | ProofDevice | Spec

  const AllFields: seq<Field> := [Pattern, Format, VisualStyle, Opening, Tone, Talent, CTA, ProofDevice, Spec]

  /** `Field` is a closed set of exactly nine attributes, each listed once. */
  lemma FieldsAreNine(f: Field)
    ensures |AllFields| == 9
    ensures f in AllFields
    ensures forall i, j :: 0 <= i < j < |AllFields| ==> AllFields[i] != AllFields[j]
  {
  }

  /** The three clause operators. */
  datatype Op = Equals | OneOf | StartsWith

  /** An operator name as read from a rule document: one of the three known
      operators, or any other string (which never matches). */
  datatype OpName = Known(op: Op) | Unknown(name: string)

  /** `Op` is exactly one of the three operators. */
  lemma OpsAreThree(o: Op)
    ensures o == Equals || o == OneOf || o == StartsWith
    ensures o == Equals ==> o != OneOf && o != StartsWith
    ensures o == OneOf ==> o != StartsWith
  {
  }

  /** A clause value is a string or a list of strings. */
  datatype ClauseValue = Scalar(s: string) | List(items: seq<string>)

  /** One entry of an IF clause: a field, an operator (always given) and a value. */
  datatype IfEntry = IfEntry(field: Field, op: OpName, value: ClauseValue)

  /** The per-field configuration of a THEN clause: three optional parts.
      `oneOf` is present only when the document holds an array there. */
  datatype ThenSpec = ThenSpec(oneOf: Option<seq<string>>, startsWith: Option<string>,
                               op: Option<OpName>, value: Option<ClauseValue>)

  datatype ThenEntry = ThenEntry(field: Field, spec: ThenSpec)

  /** Clauses list their fields in key order. */
  type IfClause = seq<IfEntry>
  type ThenClause = seq<ThenEntry>

  datatype QuotaScope = Global | PerVertical

  /** A quota rule. Numeric parts are `None` when absent or not finite;
      `maxShare` is a 0..1 fraction, `minPct`/`maxPct` are 0..100 percentages. */
  datatype QuotaSpec = QuotaSpec(
    field: Field,
    value: Option<string>,
    oneOf: Option<seq<string>>,
    maxShare: Option<real>,
    minPct: Option<real>,
    maxPct: Option<real>,
    scope: Option<QuotaScope>,
    tolerance: Option<real>,
    perVerticalMinDistinct: Option<real>)
  {
    /** The scope defaults to global. */
    function EffectiveScope(): QuotaScope {
      scope.GetOr(Global)
    }
  }

  /** A quota without a scope is global; one that names a scope keeps it. */
  lemma QuotaScopeDefault(q: QuotaSpec)
    ensures q.scope.None? ==> q.EffectiveScope() == Global
    ensures q.scope.Some? ==> q.EffectiveScope() == q.scope.value
  {
  }

  /** The six rule variants; only prefer and penalize carry a weight. */
  datatype Rule =
    | Disallow(ifc: IfClause, thenc: ThenClause)
    | AllowOnly(ifc: IfClause, thenc: ThenClause)
    | MustInclude(ifc: IfClause, thenc: ThenClause)
    | Prefer(ifc: IfClause, thenc: ThenClause, weight: Option<real>)
    | Penalize(ifc: IfClause, thenc: ThenClause, weight: Option<real>)
    | Quota(quota: QuotaSpec)
  {
    predicate IsHard() {
      Disallow? || AllowOnly? || MustInclude?
    }
    predicate IsSoft() {
      Prefer? || Penalize?
    }
  }

  /** Exactly one of the six kinds holds, and a weight exists only on the soft kinds. */
  lemma RuleKindsAreSix(r: Rule)
    ensures r.IsHard() || r.IsSoft() || r.Quota?
    ensures r.IsHard() ==> !r.IsSoft() && !r.Quota?
    ensures r.IsSoft() ==> !r.Quota?
    ensures r.IsSoft() <==> !r.Quota? && !r.IsHard()
  {
  }

  datatype Rail = Learn | Scale

  /** A generated combination. */
  datatype Row = Row(
    mainDimension: string,
    verticalValue: string,
    pattern: Option<string>,
    format: Option<string>,
    visualStyle: Option<string>,
    opening: Option<string>,
    tone: Option<string>,
    talent: Option<string>,
    cta: Option<string>,
    proofDevice: Option<string>,
    spec: Option<string>,
    cluster: Option<string>,
    rail: Option<Rail>)
  {
    /** The row's value for a field. */
    function Get(f: Field): Option<string> {
      match f
      case Pattern => pattern
      case Format => format
      case VisualStyle => visualStyle
      case Opening => opening
      case Tone => tone
      case Talent => talent
      case CTA => cta
      case ProofDevice => proofDevice
      case Spec => spec
    }
  }

  /** A value counts as present when it is neither null nor the empty string. */
  predicate Present(v: Option<string>) {
    v.Some? && v.value != ""
  }
}
