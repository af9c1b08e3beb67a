/** The CSV export of src/lib/logic.ts:455-537: escaping one cell, joining
    cells and lines, and the document `rowsToCsv` builds. The partner of the
    writer is a reader for the same dialect (quoted cells, doubled quotes);
    the writer's output reads back as exactly the cells it was given. */
module Csv {
  import opened Types
  import opened RuleEngine

  /** A cell must be quoted when it holds a comma, a newline or a quote. */
  predicate NeedsQuoting(s: string) {
    ',' in s || '\n' in s || '"' in s
  }

  /** Every quote written twice. */
  function DoubleQuotes(s: string): (r: string)
    ensures |r| >= |s|
    ensures '"' !in s ==> r == s
  {
    if |s| == 0 then []
    else QuoteOf(s[0]) + DoubleQuotes(s[1..])
  }

  /** How one character is written inside quotes. */
  function QuoteOf(ch: char): string {
    if ch == '"' then "\"\"" else [ch]
  }

  /** `csvEscape`: a cell with a comma, newline or quote is wrapped in quotes
      with its quotes doubled; any other cell is written as it is. */
  function CsvEscape(s: string): (r: string)
    ensures !NeedsQuoting(s) ==> r == s
    ensures NeedsQuoting(s) ==> |r| >= 2 && r[0] == '"' && r[|r| - 1] == '"'
    ensures |r| >= |s|
  {
    if NeedsQuoting(s) then "\"" + DoubleQuotes(s) + "\"" else s
  }

  /** `Array.prototype.join`: the items with the separator between them. */
  function Join(xs: seq<string>, sep: char): (r: string)
    ensures |xs| == 1 ==> r == xs[0]
  {
    if |xs| == 0 then []
    else if |xs| == 1 then xs[0]
    else xs[0] + [sep] + Join(xs[1..], sep)
  }

  function EscapeAll(cells: seq<string>): (r: seq<string>)
    ensures |r| == |cells|
    ensures forall i :: 0 <= i < |r| ==> r[i] == CsvEscape(cells[i])
  {
    seq(|cells|, i requires 0 <= i < |cells| => CsvEscape(cells[i]))
  }

  /** One line of the document. */
  function Line(cells: seq<string>): string {
    Join(EscapeAll(cells), ',')
  }

  // ---- the reader -------------------------------------------------------

  /** A cell ends at the end of the text, a comma or a newline. */
  predicate AtDelimiter(t: string) {
    |t| == 0 || t[0] == ',' || t[0] == '\n'
  }

  /** An unquoted cell: everything up to the next delimiter. */
  function ReadPlain(t: string): (r: (string, string))
    ensures r.0 + r.1 == t
    ensures AtDelimiter(r.1)
  {
    if AtDelimiter(t) then ([], t)
    else
      var (v, rest) := ReadPlain(t[1..]);
      ([t[0]] + v, rest)
  }

  /** A quoted cell after its opening quote: a doubled quote stands for one
      quote, a single quote closes the cell; running out of text is an error. */
  function ReadQuoted(t: string): (r: Option<(string, string)>)
    ensures r.Some? ==> |r.value.1| < |t|
  {
    if |t| == 0 then None
    else if t[0] == '"' then
      if |t| >= 2 && t[1] == '"' then
        match ReadQuoted(t[2..])
        case None => None
        case Some((v, rest)) => Some((['"'] + v, rest))
      else Some(([], t[1..]))
    else
      match ReadQuoted(t[1..])
      case None => None
      case Some((v, rest)) => Some(([t[0]] + v, rest))
  }

  /** One cell and the text after it, which starts at a delimiter. A stray
      quote in an unquoted cell, or text after a closing quote, is an error. */
  function ReadField(t: string): (r: Option<(string, string)>)
    ensures r.Some? ==> |r.value.1| <= |t| && AtDelimiter(r.value.1)
  {
    if |t| > 0 && t[0] == '"' then
      match ReadQuoted(t[1..])
      case None => None
      case Some((v, rest)) => if AtDelimiter(rest) then Some((v, rest)) else None
    else
      var (v, rest) := ReadPlain(t);
      if '"' in v then None else Some((v, rest))
  }

  /** The cells of one line and the text after it (empty or at a newline). */
  function ReadRecord(t: string): (r: Option<(seq<string>, string)>)
    ensures r.Some? ==> |r.value.0| > 0 && (|r.value.1| == 0 || r.value.1[0] == '\n')
    ensures r.Some? ==> |r.value.1| <= |t|
    decreases |t|
  {
    match ReadField(t)
    case None => None
    case Some((v, rest)) =>
      if |rest| > 0 && rest[0] == ',' then
        match ReadRecord(rest[1..])
        case None => None
        case Some((vs, after)) => Some(([v] + vs, after))
      else Some(([v], rest))
  }

  /** The records of a whole document, lines separated by newlines. */
  function ReadDocument(t: string): (r: Option<seq<seq<string>>>)
    ensures r.Some? ==> |r.value| > 0
    decreases |t|
  {
    match ReadRecord(t)
    case None => None
    case Some((cells, rest)) =>
      if |rest| == 0 then Some([cells])
      else
        match ReadDocument(rest[1..])
        case None => None
        case Some(records) => Some([cells] + records)
  }

  // ---- round trip -------------------------------------------------------

  lemma {:induction false} PlainRoundTrip(c: string, suffix: string)
    requires !NeedsQuoting(c) && AtDelimiter(suffix)
    ensures ReadPlain(c + suffix) == (c, suffix)
    decreases |c|
  {
    if |c| > 0 {
      assert (c + suffix)[1..] == c[1..] + suffix;
      assert !NeedsQuoting(c[1..]) by {
        assert forall k :: 0 <= k < |c[1..]| ==> c[1..][k] == c[k + 1];
      }
      PlainRoundTrip(c[1..], suffix);
      assert [c[0]] + c[1..] == c;
    } else {
      assert c + suffix == suffix;
    }
  }

  lemma {:induction false} QuotedRoundTrip(c: string, suffix: string)
    requires |suffix| == 0 || suffix[0] != '"'
    ensures ReadQuoted(DoubleQuotes(c) + "\"" + suffix) == Some((c, suffix))
    decreases |c|
  {
    var t := DoubleQuotes(c) + "\"" + suffix;
    if |c| == 0 {
      assert t == "\"" + suffix;
      assert t[1..] == suffix;
    } else {
      QuotedRoundTrip(c[1..], suffix);
      var tail := DoubleQuotes(c[1..]) + "\"" + suffix;
      QuotedCons(c, suffix);
      if c[0] == '"' {
        assert t[2..] == tail;
      } else {
        assert t[1..] == tail;
      }
      assert [c[0]] + c[1..] == c;
    }
  }

  lemma QuotedCons(c: string, suffix: string)
    requires |c| > 0
    ensures DoubleQuotes(c) + "\"" + suffix == QuoteOf(c[0]) + (DoubleQuotes(c[1..]) + "\"" + suffix)
  {
    Assoc(QuoteOf(c[0]), DoubleQuotes(c[1..]), "\"", suffix);
  }

  lemma Assoc(a: string, b: string, c: string, d: string)
    ensures a + b + c + d == a + (b + c + d)
  {
  }

  /** An escaped cell followed by a delimiter reads back as the cell. */
  lemma FieldRoundTrip(c: string, suffix: string)
    requires AtDelimiter(suffix)
    ensures ReadField(CsvEscape(c) + suffix) == Some((c, suffix))
  {
    if NeedsQuoting(c) {
      QuotedFieldRoundTrip(c, suffix);
    } else {
      PlainFieldRoundTrip(c, suffix);
    }
  }

  lemma QuotedFieldRoundTrip(c: string, suffix: string)
    requires AtDelimiter(suffix) && NeedsQuoting(c)
    ensures ReadField(CsvEscape(c) + suffix) == Some((c, suffix))
  {
    var q := DoubleQuotes(c) + "\"" + suffix;
    Assoc("\"", DoubleQuotes(c), "\"", suffix);
    QuotedRoundTrip(c, suffix);
    OpenQuote(q, c, suffix);
  }

  lemma OpenQuote(q: string, c: string, suffix: string)
    requires ReadQuoted(q) == Some((c, suffix)) && AtDelimiter(suffix)
    ensures ReadField("\"" + q) == Some((c, suffix))
  {
    assert ("\"" + q)[1..] == q;
  }

  lemma PlainFieldRoundTrip(c: string, suffix: string)
    requires AtDelimiter(suffix) && !NeedsQuoting(c)
    ensures ReadField(CsvEscape(c) + suffix) == Some((c, suffix))
  {
    var t := c + suffix;
    PlainRoundTrip(c, suffix);
    if |c| == 0 {
      assert t == suffix;
    } else {
      assert t[0] == c[0];
    }
  }

  /** A written line followed by the end of the text or a newline reads back
      as its cells. */
  lemma {:induction false} RecordRoundTrip(cells: seq<string>, suffix: string)
    requires |cells| > 0 && (|suffix| == 0 || suffix[0] == '\n')
    ensures ReadRecord(Line(cells) + suffix) == Some((cells, suffix))
    decreases |cells|
  {
    if |cells| == 1 {
      assert Line(cells) == CsvEscape(cells[0]);
      FieldRoundTrip(cells[0], suffix);
      assert cells == [cells[0]];
    } else {
      var more := Line(cells[1..]) + suffix;
      LineCons(cells, suffix);
      FieldRoundTrip(cells[0], "," + more);
      assert ("," + more)[1..] == more;
      RecordRoundTrip(cells[1..], suffix);
      assert [cells[0]] + cells[1..] == cells;
    }
  }

  lemma LineCons(cells: seq<string>, suffix: string)
    requires |cells| > 1
    ensures Line(cells) + suffix == CsvEscape(cells[0]) + ("," + (Line(cells[1..]) + suffix))
  {
    assert EscapeAll(cells)[1..] == EscapeAll(cells[1..]);
  }

  /** Each record written as a line. */
  function Lines(table: seq<seq<string>>): (r: seq<string>)
    ensures |r| == |table|
    ensures forall i :: 0 <= i < |r| ==> r[i] == Line(table[i])
  {
    seq(|table|, i requires 0 <= i < |table| => Line(table[i]))
  }

  /** A document of non-empty lines reads back as those lines' cells. */
  lemma {:induction false} DocumentRoundTrip(table: seq<seq<string>>)
    requires |table| > 0
    requires forall i :: 0 <= i < |table| ==> |table[i]| > 0
    ensures ReadDocument(Join(Lines(table), '\n')) == Some(table)
    decreases |table|
  {
    if |table| == 1 {
      RecordRoundTrip(table[0], []);
      assert Line(table[0]) + [] == Line(table[0]);
      assert Join(Lines(table), '\n') == Line(table[0]);
      assert table == [table[0]];
    } else {
      var more := Join(Lines(table[1..]), '\n');
      DocumentCons(table);
      RecordRoundTrip(table[0], "\n" + more);
      assert ("\n" + more)[1..] == more;
      DocumentRoundTrip(table[1..]);
      assert [table[0]] + table[1..] == table;
    }
  }

  lemma DocumentCons(table: seq<seq<string>>)
    requires |table| > 1
    ensures Join(Lines(table), '\n') == Line(table[0]) + ("\n" + Join(Lines(table[1..]), '\n'))
  {
    assert Lines(table)[1..] == Lines(table[1..]);
  }

  // ---- rowsToCsv --------------------------------------------------------

  /** The nineteen column headers, in export order. */
  const Headers: seq<string> := [
    "Rail", "MainDimension", "VerticalValue", "Hypothesis", "Pattern", "Format",
    "VisualStyle", "Opening", "Tone", "Talent", "ProofDevice", "CTA", "Spec",
    "Cluster", "BudgetPerVariant", "MinSpend", "Notes", "RulesHit", "DiversityDelta"]

  /** The headers are written without escaping; none of them needs it. */
  lemma HeadersNeedNoQuoting()
    ensures EscapeAll(Headers) == Headers
  {
    HeadersPlain0();
    HeadersPlain1();
    HeadersPlain2();
    HeadersPlain3();
  }

  lemma HeadersPlain0()
    ensures forall i :: 0 <= i < 5 ==> !NeedsQuoting(Headers[i])
  {
  }

  lemma HeadersPlain1()
    ensures forall i :: 5 <= i < 10 ==> !NeedsQuoting(Headers[i])
  {
  }

  lemma HeadersPlain2()
    ensures forall i :: 10 <= i < 15 ==> !NeedsQuoting(Headers[i])
  {
  }

  lemma HeadersPlain3()
    ensures forall i :: 15 <= i < 19 ==> !NeedsQuoting(Headers[i])
  {
  }

  /** The diagnostic trace a row may carry: the rule hits, when they are a
      list, and the diversity delta it reached. */
  datatype Trace = Trace(rulesHit: Option<seq<Hit>>, diversityDelta: Option<real>)

  datatype CsvRow = CsvRow(row: Row, trace: Option<Trace>)

  /** The export options; an absent options object is `NoOptions`. */
  datatype CsvOptions = CsvOptions(
    rail: Option<Rail>,
    budgetPerVariant: Option<real>,
    minSpend: Option<real>,
    hypotheses: map<string, string>,
    notes: map<int, string>)

  const NoOptions := CsvOptions(None, None, None, map[], map[])

  function RailName(r: Rail): string {
    match r
    case Learn => "Learn"
    case Scale => "Scale"
  }

  function KindName(k: HitKind): string {
    match k
    case PreferHit => "prefer"
    case PenalizeHit => "penalize"
    case AllowOnlyHit => "allowOnly"
    case MustIncludeHit => "mustInclude"
  }

  /** A hit with a weight is written `type:weight`, one without as its type;
      never empty, so the source's `filter(Boolean)` drops nothing. */
  function HitText(h: Hit, num: real -> string): (t: string)
    ensures |t| > 0
    ensures h.weight.None? ==> t == KindName(h.kind)
  {
    match h.weight
    case Some(w) => KindName(h.kind) + ":" + num(w)
    case None => KindName(h.kind)
  }

  function RulesHitText(trace: Option<Trace>, num: real -> string): string {
    if trace.Some? && trace.value.rulesHit.Some? then
      var hits := trace.value.rulesHit.value;
      Join(seq(|hits|, k requires 0 <= k < |hits| => HitText(hits[k], num)), '|')
    else ""
  }

  function NumberOr(v: Option<real>, num: real -> string): string {
    if v.Some? then num(v.value) else ""
  }

  /** The nineteen cell values of the row at `index`, before escaping: the
      row's own rail wins over the option's, hypotheses are looked up by
      vertical value and notes by row index, and anything missing is empty. */
  function Cells(r: CsvRow, index: int, opts: CsvOptions, num: real -> string): (cells: seq<string>)
    ensures |cells| == |Headers|
  {
    var row := r.row;
    var rail := if row.rail.Some? then RailName(row.rail.value)
                else if opts.rail.Some? then RailName(opts.rail.value) else "";
    var hyp := if row.verticalValue in opts.hypotheses then opts.hypotheses[row.verticalValue] else "";
    var notes := if index in opts.notes then opts.notes[index] else "";
    var delta := if r.trace.Some? then NumberOr(r.trace.value.diversityDelta, num) else "";
    [rail, row.mainDimension, row.verticalValue, hyp,
     row.pattern.GetOr(""), row.format.GetOr(""), row.visualStyle.GetOr(""),
     row.opening.GetOr(""), row.tone.GetOr(""), row.talent.GetOr(""),
     row.proofDevice.GetOr(""), row.cta.GetOr(""), row.spec.GetOr(""),
     row.cluster.GetOr(""),
     NumberOr(opts.budgetPerVariant, num), NumberOr(opts.minSpend, num),
     notes, RulesHitText(r.trace, num), delta]
  }

  /** The header that names an attribute's column. */
  function FieldName(f: Field): string {
    match f
    case Pattern => "Pattern"
    case Format => "Format"
    case VisualStyle => "VisualStyle"
    case Opening => "Opening"
    case Tone => "Tone"
    case Talent => "Talent"
    case CTA => "CTA"
    case ProofDevice => "ProofDevice"
    case Spec => "Spec"
  }

  /** Where an attribute's column sits in the export. */
  function Column(f: Field): nat {
    match f
    case Pattern => 4
    case Format => 5
    case VisualStyle => 6
    case Opening => 7
    case Tone => 8
    case Talent => 9
    case ProofDevice => 10
    case CTA => 11
    case Spec => 12
  }

  /** Each attribute lands under the header that names it, empty when the
      row leaves it unset; the row's own rail wins over the option's. */
  lemma CellsUnderHeaders(r: CsvRow, index: int, opts: CsvOptions, num: real -> string, f: Field)
    ensures Column(f) < |Headers| && Headers[Column(f)] == FieldName(f)
    ensures Cells(r, index, opts, num)[Column(f)] == r.row.Get(f).GetOr("")
    ensures Headers[0] == "Rail" && (r.row.rail.Some? ==> Cells(r, index, opts, num)[0] == RailName(r.row.rail.value))
  {
  }

  /** The header line followed by one line per row. */
  function Table(rows: seq<CsvRow>, opts: CsvOptions, num: real -> string): (t: seq<seq<string>>)
    ensures |t| == |rows| + 1 && t[0] == Headers
    ensures forall i :: 0 <= i < |rows| ==> t[i + 1] == Cells(rows[i], i, opts, num)
    ensures forall i :: 0 <= i < |t| ==> |t[i]| > 0
  {
    [Headers] + seq(|rows|, i requires 0 <= i < |rows| => Cells(rows[i], i, opts, num))
  }

  /** `rowsToCsv`: the document reads back as the header line followed by
      each row's nineteen cells, in row order, whatever the cells contain.
      Numbers are written by `num` (the runtime's number-to-text). */
  function RowsToCsv(rows: seq<CsvRow>, opts: CsvOptions, num: real -> string): (doc: string)
    ensures ReadDocument(doc) == Some(Table(rows, opts, num))
  {
    var t := Table(rows, opts, num);
    HeaderLine();
    HeaderLineReads(t, Headers);
    Join([Join(Headers, ',')] + Lines(t)[1..], '\n')
  }

  lemma HeaderLine()
    ensures Line(Headers) == Join(Headers, ',')
  {
    HeadersNeedNoQuoting();
  }

  /** A first line written unescaped reads the same when escaping leaves it
      alone. */
  lemma HeaderLineReads(t: seq<seq<string>>, header: seq<string>)
    requires |t| > 0 && t[0] == header && Line(header) == Join(header, ',')
    requires forall i :: 0 <= i < |t| ==> |t[i]| > 0
    ensures ReadDocument(Join([Join(header, ',')] + Lines(t)[1..], '\n')) == Some(t)
  {
    DocumentRoundTrip(t);
    assert [Join(header, ',')] + Lines(t)[1..] == Lines(t);
  }

  /** A lone comma is quoted; a cell without special characters is not. */
  lemma EscapeExample()
    ensures CsvEscape(",") == "\",\""
    ensures CsvEscape("ab") == "ab"
  {
    assert ","[0] == ',';
  }
}
