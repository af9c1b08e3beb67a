/** Which combinations may be generated and how different two of them are
    (src/lib/logic.ts:96-163), with the engine's configuration passed in
    explicitly instead of living in module-level variables. The defaults are
    the constants of src/lib/config.ts:89-110. */
module Combos {
  import opened Types
  import opened RuleEngine

  /** The fields a legacy compat rule's `when` part may pin. An absent or
      empty value does not constrain the row. */
  datatype CompatWhen = CompatWhen(
    opening: Option<string>,
    pattern: Option<string>,
    proofDevice: Option<string>,
    spec: Option<string>)

  /** The value lists of a legacy `thenNot` / `thenOnly` part. */
  datatype CompatLists = CompatLists(
    format: Option<seq<string>>,
    visualStyle: Option<seq<string>>,
    proofDevice: Option<seq<string>>,
    spec: Option<seq<string>>)

  datatype CompatDisallow = CompatDisallow(when: CompatWhen, thenNot: CompatLists)

  /** `thenOnly` has no VisualStyle list in the source; it is ignored here. */
  datatype CompatAllowOnly = CompatAllowOnly(when: CompatWhen, thenOnly: CompatLists)

  datatype Compat = Compat(disallow: seq<CompatDisallow>, allowOnly: seq<CompatAllowOnly>)

  /** The impact weight of each of the seven diversity fields. */
  datatype Impact = Impact(
    pattern: real, format: real, visualStyle: real, opening: real,
    tone: real, talent: real, cta: real)

  /** The engine's configuration: the merged rule pack, the legacy compat
      rules, the impact weights and the VOFirst-square pipeline flag. */
  datatype Config = Config(
    rules: seq<Rule>,
    compat: Compat,
    impact: Impact,
    voFirstSquareDisallow: bool)

  const DefaultImpact: Impact := Impact(0.9, 0.85, 0.7, 0.6, 0.6, 0.4, 0.2)

  const DiversityTargetDefault: real := 2.2

  const DefaultVOFirstSquareDisallow: bool := false

  const NoLists: CompatLists := CompatLists(None, None, None, None)

  const NoWhen: CompatWhen := CompatWhen(None, None, None, None)

  const DefaultCompat: Compat := Compat(
    [ CompatDisallow(NoWhen.(opening := Some("VOFirst")), NoLists.(format := Some(["Static_SP", "Static_MR"]))),
      CompatDisallow(NoWhen.(opening := Some("AppHUD")), NoLists.(visualStyle := Some(["MacroProduct"]))),
      CompatDisallow(NoWhen.(proofDevice := Some("ScreenCapture")), NoLists.(format := Some(["Static_SP", "Static_MR"]))) ],
    [ CompatAllowOnly(NoWhen.(pattern := Some("TestimonialStory")),
                      NoLists.(format := Some(["UGC_3ReasonsWhy", "UGC_FlipTheScript", "Video_PS"]))) ])

  /** A pinned `when` value constrains the row only when it is truthy. */
  predicate Pins(want: Option<string>, actual: Option<string>) {
    Present(want) ==> actual == want
  }

  predicate WhenHolds(w: CompatWhen, row: Row) {
    Pins(w.opening, row.opening) && Pins(w.pattern, row.pattern) &&
    Pins(w.proofDevice, row.proofDevice) && Pins(w.spec, row.spec)
  }

  /** `list.includes(value)`: a null row value is in no list of strings. */
  predicate Includes(list: Option<seq<string>>, v: Option<string>) {
    list.Some? && v.Some? && v.value in list.value
  }

  /** `list && !list.includes(value)`. */
  predicate Excludes(list: Option<seq<string>>, v: Option<string>) {
    list.Some? && !(v.Some? && v.value in list.value)
  }

  /** A legacy disallow rule rejects the row. */
  predicate DisallowHits(c: CompatDisallow, row: Row) {
    WhenHolds(c.when, row) &&
    (Includes(c.thenNot.format, row.format) || Includes(c.thenNot.visualStyle, row.visualStyle) ||
     Includes(c.thenNot.proofDevice, row.proofDevice) || Includes(c.thenNot.spec, row.spec))
  }

  /** A legacy allowOnly rule rejects the row. */
  predicate AllowOnlyFails(c: CompatAllowOnly, row: Row) {
    WhenHolds(c.when, row) &&
    (Excludes(c.thenOnly.format, row.format) || Excludes(c.thenOnly.proofDevice, row.proofDevice) ||
     Excludes(c.thenOnly.spec, row.spec))
  }

  /** The disallow loop: false at the first rule that rejects the row. */
  function DisallowLoop(cs: seq<CompatDisallow>, row: Row): (ok: bool)
    ensures ok <==> forall k :: 0 <= k < |cs| ==> !DisallowHits(cs[k], row)
  {
    if |cs| == 0 then true
    else if DisallowHits(cs[0], row) then false
    else
      assert forall k :: 0 < k < |cs| ==> cs[k] == cs[1..][k - 1];
      DisallowLoop(cs[1..], row)
  }

  /** The allowOnly loop: false at the first rule the row fails. */
  function AllowOnlyLoop(cs: seq<CompatAllowOnly>, row: Row): (ok: bool)
    ensures ok <==> forall k :: 0 <= k < |cs| ==> !AllowOnlyFails(cs[k], row)
  {
    if |cs| == 0 then true
    else if AllowOnlyFails(cs[0], row) then false
    else
      assert forall k :: 0 < k < |cs| ==> cs[k] == cs[1..][k - 1];
      AllowOnlyLoop(cs[1..], row)
  }

  /** The hard-rule check: false at the first hard rule the row violates. */
  function HardLoop(rules: seq<Rule>, row: Row): (ok: bool)
    ensures ok <==> Admissible(row, rules)
  {
    if |rules| == 0 then true
    else if ViolatesHard(row, rules[0]) then false
    else
      assert forall k :: 0 < k < |rules| ==> rules[k] == rules[1..][k - 1];
      HardLoop(rules[1..], row)
  }

  /** The pipeline restriction: a VOFirst opening on the square spec. */
  predicate VOFirstSquare(row: Row) {
    row.spec == Some("1:1") && row.opening == Some("VOFirst")
  }

  /** `isComboAllowed`: the pipeline flag, then the legacy compat rules, then
      the rule pack's hard rules, in that order. */
  function IsComboAllowed(row: Row, cfg: Config): (ok: bool)
    ensures ok <==>
      !(cfg.voFirstSquareDisallow && VOFirstSquare(row)) &&
      (forall k :: 0 <= k < |cfg.compat.disallow| ==> !DisallowHits(cfg.compat.disallow[k], row)) &&
      (forall k :: 0 <= k < |cfg.compat.allowOnly| ==> !AllowOnlyFails(cfg.compat.allowOnly[k], row)) &&
      (forall k :: 0 <= k < |cfg.rules| ==> !ViolatesHard(row, cfg.rules[k]))
  {
    if cfg.voFirstSquareDisallow && VOFirstSquare(row) then false
    else if !DisallowLoop(cfg.compat.disallow, row) then false
    else if !AllowOnlyLoop(cfg.compat.allowOnly, row) then false
    else HardLoop(cfg.rules, row)
  }

  /** Under the default compat rules a screen-capture proof never appears on
      a static format, whatever the rule pack and the flag. */
  lemma ScreenCaptureNeverStatic(row: Row, cfg: Config)
    requires cfg.compat == DefaultCompat
    requires row.proofDevice == Some("ScreenCapture")
    requires row.format == Some("Static_SP") || row.format == Some("Static_MR")
    ensures !IsComboAllowed(row, cfg)
  {
    assert DisallowHits(cfg.compat.disallow[2], row);
  }

  /** Under the default compat rules a testimonial story appears only on one of
      its three formats. */
  lemma TestimonialOnlyOnItsFormats(row: Row, cfg: Config)
    requires cfg.compat == DefaultCompat
    requires row.pattern == Some("TestimonialStory")
    requires IsComboAllowed(row, cfg)
    ensures row.format == Some("UGC_3ReasonsWhy") || row.format == Some("UGC_FlipTheScript") || row.format == Some("Video_PS")
  {
    assert !AllowOnlyFails(cfg.compat.allowOnly[0], row);
  }

  /** The pipeline flag rejects every VOFirst-square row and changes the
      verdict on no other row. */
  lemma PipelineFlagEffect(row: Row, cfg: Config)
    ensures VOFirstSquare(row) ==> !IsComboAllowed(row, cfg.(voFirstSquareDisallow := true))
    ensures !VOFirstSquare(row) ==>
              IsComboAllowed(row, cfg.(voFirstSquareDisallow := true)) == IsComboAllowed(row, cfg.(voFirstSquareDisallow := false))
  {
  }

  /** With no compat rules and the flag off, the check is the hard filter. */
  lemma AllowedIsAdmissible(row: Row, rules: seq<Rule>, impact: Impact)
    ensures IsComboAllowed(row, Config(rules, Compat([], []), impact, false)) == Admissible(row, rules)
  {
  }

  /** The seven fields diversity is measured on, in the source's order. */
  const DeltaFields: seq<Field> := [Pattern, Format, VisualStyle, Opening, Tone, Talent, CTA]

  function WeightOfField(w: Impact, f: Field): real {
    match f
    case Pattern => w.pattern
    case Format => w.format
    case VisualStyle => w.visualStyle
    case Opening => w.opening
    case Tone => w.tone
    case Talent => w.talent
    case CTA => w.cta
    case _ => 0.0
  }

  /** The weight a field contributes when the two rows differ on it. */
  function FieldDelta(a: Row, b: Row, w: Impact, f: Field): real {
    if a.Get(f) != b.Get(f) then WeightOfField(w, f) else 0.0
  }

  /** Reference definition: the weights of the listed fields that differ. */
  function WeightedDifference(a: Row, b: Row, w: Impact, fs: seq<Field>): real {
    if |fs| == 0 then 0.0 else FieldDelta(a, b, w, fs[0]) + WeightedDifference(a, b, w, fs[1..])
  }

  /** `diversityDelta`: 0 when either row is missing; otherwise it adds the
      impact weight of each of the seven fields on which the rows differ. */
  function DiversityDelta(a: Option<Row>, b: Option<Row>, w: Impact): (d: real)
    ensures a.None? || b.None? ==> d == 0.0
    ensures a.Some? && b.Some? ==> d == WeightedDifference(a.value, b.value, w, DeltaFields)
  {
    if a.None? || b.None? then 0.0
    else
      var x, y := a.value, b.value;
      SevenFields(x, y, w);
      var d := 0.0;
      var d := if x.pattern != y.pattern then d + w.pattern else d;
      var d := if x.format != y.format then d + w.format else d;
      var d := if x.visualStyle != y.visualStyle then d + w.visualStyle else d;
      var d := if x.opening != y.opening then d + w.opening else d;
      var d := if x.tone != y.tone then d + w.tone else d;
      var d := if x.talent != y.talent then d + w.talent else d;
      var d := if x.cta != y.cta then d + w.cta else d;
      d
  }

  lemma SevenFields(a: Row, b: Row, w: Impact)
    ensures WeightedDifference(a, b, w, DeltaFields) ==
      FieldDelta(a, b, w, Pattern) + (FieldDelta(a, b, w, Format) + (FieldDelta(a, b, w, VisualStyle) +
      (FieldDelta(a, b, w, Opening) + (FieldDelta(a, b, w, Tone) + (FieldDelta(a, b, w, Talent) +
      (FieldDelta(a, b, w, CTA) + 0.0))))))
  {
    var f1 := [Format, VisualStyle, Opening, Tone, Talent, CTA];
    var f2 := [VisualStyle, Opening, Tone, Talent, CTA];
    var f3 := [Opening, Tone, Talent, CTA];
    var f4 := [Tone, Talent, CTA];
    var f5 := [Talent, CTA];
    var f6 := [CTA];
    assert DeltaFields[1..] == f1 && f1[1..] == f2 && f2[1..] == f3 && f3[1..] == f4;
    assert f4[1..] == f5 && f5[1..] == f6 && f6[1..] == [];
    assert WeightedDifference(a, b, w, f6) == FieldDelta(a, b, w, CTA) + 0.0;
    assert WeightedDifference(a, b, w, f5) == FieldDelta(a, b, w, Talent) + WeightedDifference(a, b, w, f6);
    assert WeightedDifference(a, b, w, f4) == FieldDelta(a, b, w, Tone) + WeightedDifference(a, b, w, f5);
    assert WeightedDifference(a, b, w, f3) == FieldDelta(a, b, w, Opening) + WeightedDifference(a, b, w, f4);
    assert WeightedDifference(a, b, w, f2) == FieldDelta(a, b, w, VisualStyle) + WeightedDifference(a, b, w, f3);
    assert WeightedDifference(a, b, w, f1) == FieldDelta(a, b, w, Format) + WeightedDifference(a, b, w, f2);
  }

  /** Diversity is symmetric. */
  lemma {:induction false} DiversitySymmetric(a: Row, b: Row, w: Impact, fs: seq<Field>)
    ensures WeightedDifference(a, b, w, fs) == WeightedDifference(b, a, w, fs)
  {
    if |fs| > 0 {
      DiversitySymmetric(a, b, w, fs[1..]);
    }
  }

  /** A row is at distance 0 from itself. */
  lemma {:induction false} DiversityOfSelf(a: Row, w: Impact, fs: seq<Field>)
    ensures WeightedDifference(a, a, w, fs) == 0.0
  {
    if |fs| > 0 {
      DiversityOfSelf(a, w, fs[1..]);
    }
  }

  predicate NonNegative(w: Impact) {
    w.pattern >= 0.0 && w.format >= 0.0 && w.visualStyle >= 0.0 && w.opening >= 0.0 &&
    w.tone >= 0.0 && w.talent >= 0.0 && w.cta >= 0.0
  }

  function TotalWeight(w: Impact, fs: seq<Field>): real {
    if |fs| == 0 then 0.0 else WeightOfField(w, fs[0]) + TotalWeight(w, fs[1..])
  }

  /** With non-negative weights the distance lies between 0 and the weight of
      all listed fields. */
  lemma {:induction false} DiversityUpper(a: Row, b: Row, w: Impact, fs: seq<Field>)
    requires NonNegative(w)
    ensures 0.0 <= WeightedDifference(a, b, w, fs) <= TotalWeight(w, fs)
  {
    if |fs| > 0 {
      DiversityUpper(a, b, w, fs[1..]);
    }
  }

  /** The properties of `diversityDelta` on two present rows. */
  lemma DiversityDeltaFacts(a: Row, b: Row, w: Impact)
    ensures DiversityDelta(Some(a), Some(b), w) == DiversityDelta(Some(b), Some(a), w)
    ensures DiversityDelta(Some(a), Some(a), w) == 0.0
    ensures NonNegative(w) ==> 0.0 <= DiversityDelta(Some(a), Some(b), w) <= TotalWeight(w, DeltaFields)
  {
    DiversitySymmetric(a, b, w, DeltaFields);
    DiversityOfSelf(a, w, DeltaFields);
    if NonNegative(w) {
      DiversityUpper(a, b, w, DeltaFields);
    }
  }

  /** How many of the seven fields differ. */
  function DiffCount(a: Row, b: Row): (n: nat)
    ensures n <= 7
  {
    (if a.pattern != b.pattern then 1 else 0) + (if a.format != b.format then 1 else 0) +
    (if a.visualStyle != b.visualStyle then 1 else 0) + (if a.opening != b.opening then 1 else 0) +
    (if a.tone != b.tone then 1 else 0) + (if a.talent != b.talent then 1 else 0) +
    (if a.cta != b.cta then 1 else 0)
  }

  /** Under the default weights the default target of 2.2 cannot be met by
      two differing fields (0.9 + 0.85 = 1.75): rows at least that far apart
      differ on three or more of the seven fields. */
  lemma DefaultTargetNeedsThreeFields(a: Row, b: Row)
    requires DiversityDelta(Some(a), Some(b), DefaultImpact) >= DiversityTargetDefault
    ensures DiffCount(a, b) >= 3
  {
  }
}
