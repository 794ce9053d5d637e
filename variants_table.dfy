/**
 * The per-variant average table and the entry point of the variants script:
 * check the run summary file, aggregate it per variant, and render one row
 * per variant with the run count and five metrics as percentages.
 */
module VariantsTable {
  import opened Wrappers
  import opened Latex
  import opened VariantAggregation

  /** A cell of the aggregated frame as the renderer reads it: missing or NaN,
      a number, or something `float` rejects. */
  datatype Value = Missing | Num(x: real) | NonNumeric

  /** One row of the aggregated frame; `nRuns` is `None` when the frame has no
      `n_runs` column. */
  datatype SummaryRow = SummaryRow(
    variant: string,
    nRuns: Option<int>,
    policyTestAccMean: Value,
    computeSavingPctMean: Value,
    exitE1Mean: Value,
    exitE2Mean: Value,
    exitE3Mean: Value,
    expectedMflopsMean: Value,
    fullMflopsMean: Value)

  /** `fmt_pct_frac`: a fraction shown as a percentage, or the placeholder. */
  function FmtPctFrac(v: Value): (c: Cell)
    ensures v.Num? ==> c == Fixed1(v.x * 100.0)
    ensures !v.Num? ==> c == Dash
  {
    match v
    case Num(x) => Fixed1(x * 100.0)
    case _ => Dash
  }

  /** `fmt_pct`: a value already in percent, or the placeholder. */
  function FmtPct(v: Value): (c: Cell)
    ensures v.Num? ==> c == Fixed1(v.x)
    ensures !v.Num? ==> c == Dash
  {
    match v
    case Num(x) => Fixed1(x)
    case _ => Dash
  }

  function Scaled(v: Value): Value {
    match v
    case Num(x) => Num(x * 100.0)
    case _ => v
  }

  /** The data row of one variant: name, runs, accuracy, saving and the three
      exit rates. */
  function VariantRow(r: SummaryRow): (line: Line)
    ensures line.Row? && |line.cells| == 7
    ensures line.cells[0] == Lit(r.variant)
  {
    Row([ Lit(r.variant),
          Int(r.nRuns.GetOr(1)),
          FmtPctFrac(r.policyTestAccMean),
          FmtPct(r.computeSavingPctMean),
          FmtPctFrac(r.exitE1Mean),
          FmtPctFrac(r.exitE2Mean),
          FmtPctFrac(r.exitE3Mean) ])
  }

  const Header: seq<Line> := [
    Plain(@"\begin{table}[ht]"),
    Plain(@"  \centering"),
    Plain(@"  \caption{Average early-exit performance per ASHADIP variant.}"),
    Plain(@"  \label{tab:ashadip_variants_avg}"),
    Plain(@"  \begin{tabular}{lrrrrrr}"),
    Plain(@"    \toprule"),
    Row([Lit("Variant"), Lit("Runs"), Lit(@"Acc$_{\text{policy}}$ (\%)"), Lit(@"Save (\%)"),
         Lit(@"Exit1 (\%)"), Lit(@"Exit2 (\%)"), Lit(@"Exit3 (\%)")]),
    MidruleLine ]

  const Closing: seq<Line> := [BottomruleLine, Plain(@"  \end{tabular}"), Plain(@"\end{table}")]

  function DataRows(rows: seq<SummaryRow>): seq<Line> {
    seq(|rows|, i requires 0 <= i < |rows| => VariantRow(rows[i]))
  }

  /** The table, as lines (the script joins them with newlines). */
  function TableLines(rows: seq<SummaryRow>): (t: seq<Line>)
    ensures |t| == |rows| + 11
  {
    Header + DataRows(rows) + Closing
  }

  /** `make_latex_table`: the header, one appended row per frame row, the closing lines. */
  method MakeLatexTable(rows: seq<SummaryRow>) returns (lines: seq<Line>)
    ensures lines == TableLines(rows)
  {
    lines := Header;
    var i := 0;
    while i < |rows|
      invariant 0 <= i <= |rows|
      invariant lines == Header + DataRows(rows[..i])
    {
      var row := rows[i];
      var variant := row.variant;
      var nRuns := row.nRuns.GetOr(1);
      var accMean := FmtPctFrac(row.policyTestAccMean);
      var saveMean := FmtPct(row.computeSavingPctMean);
      var e1Mean := FmtPctFrac(row.exitE1Mean);
      var e2Mean := FmtPctFrac(row.exitE2Mean);
      var e3Mean := FmtPctFrac(row.exitE3Mean);
      lines := lines + [Row([Lit(variant), Int(nRuns), accMean, saveMean, e1Mean, e2Mean, e3Mean])];
      assert DataRows(rows[..i + 1]) == DataRows(rows[..i]) + [VariantRow(rows[i])];
      i := i + 1;
    }
    assert rows[..i] == rows;
    lines := lines + [BottomruleLine];
    lines := lines + [Plain(@"  \end{tabular}")];
    lines := lines + [Plain(@"\end{table}")];
  }

  // ---------------------------------------------------------------------------
  // The entry point
  // ---------------------------------------------------------------------------

  /** The run summary file as read: its column names and its rows. */
  datatype Frame = Frame(columns: seq<string>, rows: seq<RunRow>)

  datatype Failure =
    | SummaryNotFound(message: string)
    | NoRows(message: string)
    | NoVariantColumn(message: string)
    | MissingColumns(columns: seq<string>)  // pandas' `KeyError` in the aggregation

  function NotFoundMessage(path: string): string {
    "Summary CSV not found: " + path
  }

  function NoRowsMessage(path: string): string {
    "No rows in " + path + "; nothing to summarise."
  }

  const NoVariantMessage: string :=
    "Column 'variant' not found in all_runs_summary.csv. Make sure compare_variants.py writes a 'variant' column."

  /** The aggregated columns the file lacks, in the order of the aggregation. */
  function MissingAggregated(columns: seq<string>, wanted: seq<string>): (ms: seq<string>)
    ensures forall c :: c in ms <==> c in wanted && c !in columns
  {
    if wanted == [] then []
    else
      assert wanted == [wanted[0]] + wanted[1..];
      (if wanted[0] in columns then [] else [wanted[0]]) + MissingAggregated(columns, wanted[1..])
  }

  function ValueOf(o: Option<real>): Value {
    match o
    case None => Missing
    case Some(x) => Num(x)
  }

  /** A row of `agg_df` as the renderer reads it. */
  function ToSummaryRow(s: VariantSummary): SummaryRow {
    SummaryRow(s.variant, Some(s.nRuns as int),
      ValueOf(s.policyTestAccMean), ValueOf(s.computeSavingPctMean),
      ValueOf(s.exitE1Mean), ValueOf(s.exitE2Mean), ValueOf(s.exitE3Mean),
      ValueOf(s.expectedMflopsMean), ValueOf(s.fullMflopsMean))
  }

  function AggregatedFrame(rows: seq<RunRow>): seq<SummaryRow> {
    var a := Aggregate(rows);
    seq(|a|, i requires 0 <= i < |a| => ToSummaryRow(a[i]))
  }

  /** pandas calls a frame empty when it has no rows or no columns; a CSV file
      that `read_csv` accepts has a header, so in practice it is the rows. */
  predicate Empty(frame: Frame) {
    |frame.rows| == 0 || |frame.columns| == 0
  }

  /** What the script does, as a function of whether the file exists and what it holds. */
  function RunOutcome(summaryExists: bool, summaryPath: string, frame: Frame): (r: Result<seq<Line>, Failure>)
    ensures r.Ok? <==>
      summaryExists && !Empty(frame) && VariantColumn in frame.columns
      && forall c :: c in AggregatedColumns ==> c in frame.columns
    ensures r.Err? && r.error.MissingColumns? ==> r.error.columns != []
    ensures r.Err? && r.error.MissingColumns? ==> r.error.columns == MissingAggregated(frame.columns, AggregatedColumns)
    ensures r.Ok? ==> r.value == TableLines(AggregatedFrame(frame.rows))
  {
    if !summaryExists then Err(SummaryNotFound(NotFoundMessage(summaryPath)))
    else if Empty(frame) then Err(NoRows(NoRowsMessage(summaryPath)))
    else if VariantColumn !in frame.columns then Err(NoVariantColumn(NoVariantMessage))
    else
      var missing := MissingAggregated(frame.columns, AggregatedColumns);
      if missing != [] then
        assert missing[0] in missing;
        Err(MissingColumns(missing))
      else Ok(TableLines(AggregatedFrame(frame.rows)))
  }

  /** `main`: the three checks, the aggregation, and the table. */
  method Run(summaryExists: bool, summaryPath: string, frame: Frame) returns (r: Result<seq<Line>, Failure>)
    ensures r == RunOutcome(summaryExists, summaryPath, frame)
  {
    if !summaryExists {
      return Err(SummaryNotFound(NotFoundMessage(summaryPath)));
    }
    if |frame.rows| == 0 || |frame.columns| == 0 {
      return Err(NoRows(NoRowsMessage(summaryPath)));
    }
    if VariantColumn !in frame.columns {
      return Err(NoVariantColumn(NoVariantMessage));
    }
    var missing := MissingAggregated(frame.columns, AggregatedColumns);
    if missing != [] {
      return Err(MissingColumns(missing));
    }
    var aggDf := AggregatedFrame(frame.rows);
    var table := MakeLatexTable(aggDf);
    return Ok(table);
  }

  // ---------------------------------------------------------------------------
  // Properties
  // ---------------------------------------------------------------------------

  /** A frame row without `n_runs` shows one run. */
  lemma DefaultRunCount(r: SummaryRow)
    requires r.nRuns.None?
    ensures VariantRow(r).cells[1] == Int(1)
  {
  }

  /** The scaled formatter is the unscaled one applied to the value times 100. */
  lemma FracIsScaledPct(v: Value)
    ensures FmtPctFrac(v) == FmtPct(Scaled(v))
  {
  }

  /** The table: the eight header lines ending with `\midrule`, one row of seven
      cells per frame row in frame order, then `\bottomrule` and the two closing lines. */
  lemma TableLayout(rows: seq<SummaryRow>)
    ensures var t := TableLines(rows);
            && |t| == |rows| + 11
            && t[..8] == Header && t[7] == MidruleLine
            && (forall i :: 0 <= i < |rows| ==> t[8 + i] == VariantRow(rows[i]) && |t[8 + i].cells| == 7)
            && t[8 + |rows|] == BottomruleLine
            && t[8 + |rows|..] == Closing
  {
    var t, d := TableLines(rows), DataRows(rows);
    ConcatLayout(t, Header, d, Closing);
    assert |Header| == 8 && |d| == |rows|;
    assert t[7] == t[..8][7] == Header[7];
    forall i | 0 <= i < |rows| ensures t[8 + i] == VariantRow(rows[i]) {
      assert t[|Header| + i] == d[i];
    }
  }

  /** Where the parts of a concatenation of three sequences sit. */
  lemma ConcatLayout<T>(t: seq<T>, h: seq<T>, d: seq<T>, c: seq<T>)
    requires t == h + d + c
    ensures |t| == |h| + |d| + |c|
    ensures t[..|h|] == h
    ensures forall i :: 0 <= i < |d| ==> t[|h| + i] == d[i]
    ensures t[|h| + |d|..] == c
  {
    assert t == h + (d + c);
    assert (d + c)[|d|..] == c;
    forall i | 0 <= i < |d| ensures t[|h| + i] == d[i] {
      assert (d + c)[i] == d[i];
    }
  }

  /** The two MFLOPS means never reach the table. */
  lemma MflopsNotRendered(r: SummaryRow, a: Value, b: Value)
    ensures VariantRow(r.(expectedMflopsMean := a, fullMflopsMean := b)) == VariantRow(r)
  {
  }

  /** A fraction in [0, 1] is shown as a percentage in [0, 100]. */
  lemma FractionShownAsPercent(v: Value)
    requires v.Num? && 0.0 <= v.x <= 1.0
    ensures FmtPctFrac(v).Fixed1? && 0.0 <= FmtPctFrac(v).x <= 100.0
  {
  }

  /** The row of a variant: its runs cell is the number of its runs with a
      run id, and its policy-accuracy cell is the placeholder exactly when none
      of its runs has a policy accuracy, and a percentage in [0, 100] otherwise
      when every accuracy is a fraction. */
  lemma RenderedSummary(rows: seq<RunRow>, v: string)
    requires forall r :: r in rows && r.variant == Some(v) && r.policyTestAcc.Some? ==>
      0.0 <= r.policyTestAcc.value <= 1.0
    ensures var line := VariantRow(ToSummaryRow(Summarize(rows, v)));
            && line.cells[0] == Lit(v)
            && line.cells[1] == Int(CountRuns(Group(rows, v)))
            && (line.cells[2] == Dash <==> forall r :: r in rows && r.variant == Some(v) ==> r.policyTestAcc.None?)
            && (line.cells[2] != Dash ==> line.cells[2].Fixed1? && 0.0 <= line.cells[2].x <= 100.0)
  {
    var s := Summarize(rows, v);
    MeanMissing(rows, v, PolicyTestAcc);
    MetricMeanBounds(rows, v, PolicyTestAcc, 0.0, 1.0);
    assert forall r: RunRow :: r.Get(PolicyTestAcc) == r.policyTestAcc;
    assert s.MeanOf(PolicyTestAcc) == s.policyTestAccMean;
    var line := VariantRow(ToSummaryRow(s));
    assert line.cells[2] == FmtPctFrac(ValueOf(s.policyTestAccMean));
    if s.policyTestAccMean.Some? {
      FractionShownAsPercent(ValueOf(s.policyTestAccMean));
    }
  }

  /** A cell shows the mean of metric m over the runs of v, as a percentage of
      a fraction when `fraction` holds and as it is otherwise: the placeholder
      when no run of v has the metric, otherwise the number whose value (or
      hundredth) is the mean of the values present. */
  ghost predicate ShowsMean(c: Cell, rows: seq<RunRow>, v: string, m: Metric, fraction: bool) {
    var xs := Present(Group(rows, v), m);
    && (c == Dash <==> NoRunHas(rows, v, m))
    && (c != Dash ==> c.Fixed1? && Mean(xs) == Some(if fraction then c.x / 100.0 else c.x))
  }

  /** No run of v has a value for metric m. */
  ghost predicate NoRunHas(rows: seq<RunRow>, v: string, m: Metric) {
    forall r :: r in rows && r.variant == Some(v) ==> r.Get(m).None?
  }

  lemma MeanShown(rows: seq<RunRow>, v: string, m: Metric, fraction: bool, c: Cell)
    requires m != ExpectedMflops && m != FullMflops
    requires fraction <==> m != ComputeSavingPct
    requires c == VariantRow(ToSummaryRow(Summarize(rows, v))).cells[CellOf(m)]
    ensures ShowsMean(c, rows, v, m, fraction)
  {
    MeanMissing(rows, v, m);
    SummaryMeans(rows, v, m);
    var s := Summarize(rows, v);
    assert c == (if s.MeanOf(m).None? then Dash else if fraction then Fixed1(s.MeanOf(m).value * 100.0) else Fixed1(s.MeanOf(m).value));
  }

  /** The column of the table that shows a metric's mean. */
  function CellOf(m: Metric): nat
    requires m != ExpectedMflops && m != FullMflops
  {
    match m
    case PolicyTestAcc => 2
    case ComputeSavingPct => 3
    case ExitE1 => 4
    case ExitE2 => 5
    case ExitE3 => 6
  }

  /** The accuracy, saving and exit-rate cells of a variant's row are the means
      of their columns over the runs of that variant: the saving as it is, the
      accuracy and the three exit rates times 100. */
  lemma RenderedMeans(rows: seq<RunRow>, v: string)
    ensures var line := VariantRow(ToSummaryRow(Summarize(rows, v)));
            && ShowsMean(line.cells[2], rows, v, PolicyTestAcc, true)
            && ShowsMean(line.cells[3], rows, v, ComputeSavingPct, false)
            && ShowsMean(line.cells[4], rows, v, ExitE1, true)
            && ShowsMean(line.cells[5], rows, v, ExitE2, true)
            && ShowsMean(line.cells[6], rows, v, ExitE3, true)
  {
    var s := Summarize(rows, v);
    var line := VariantRow(ToSummaryRow(s));
    MeanShown(rows, v, PolicyTestAcc, true, line.cells[2]);
    MeanShown(rows, v, ComputeSavingPct, false, line.cells[3]);
    MeanShown(rows, v, ExitE1, true, line.cells[4]);
    MeanShown(rows, v, ExitE2, true, line.cells[5]);
    MeanShown(rows, v, ExitE3, true, line.cells[6]);
  }

  /** The aggregated frame has one row per variant of the file, in ascending
      order, and the table one data row per aggregated row. */
  lemma TableRowsPerVariant(rows: seq<RunRow>)
    ensures var t := TableLines(AggregatedFrame(rows));
            && |t| == |Aggregate(rows)| + 11
            && forall i :: 0 <= i < |Aggregate(rows)| ==> t[8 + i] == VariantRow(ToSummaryRow(Aggregate(rows)[i]))
  {
    var a := Aggregate(rows);
    var af := AggregatedFrame(rows);
    assert |af| == |a| && forall i :: 0 <= i < |a| ==> af[i] == ToSummaryRow(a[i]);
    TableLayout(af);
  }

  /** Data row i of the table is the row of the i-th variant key: it shows the
      key, the number of its runs with a run id, and the means of its runs. */
  lemma TableShowsAggregates(rows: seq<RunRow>, i: nat)
    requires i < |Variants(rows)|
    ensures var t, v := TableLines(AggregatedFrame(rows)), Variants(rows)[i];
            var line := VariantRow(ToSummaryRow(Summarize(rows, v)));
            && t[8 + i] == line
            && line.cells[0] == Lit(v)
            && line.cells[1] == Int(CountRuns(Group(rows, v)))
            && ShowsMean(line.cells[2], rows, v, PolicyTestAcc, true)
            && ShowsMean(line.cells[3], rows, v, ComputeSavingPct, false)
            && ShowsMean(line.cells[4], rows, v, ExitE1, true)
            && ShowsMean(line.cells[5], rows, v, ExitE2, true)
            && ShowsMean(line.cells[6], rows, v, ExitE3, true)
  {
    var v := Variants(rows)[i];
    TableRowsPerVariant(rows);
    assert Aggregate(rows)[i] == Summarize(rows, v);
    RenderedMeans(rows, v);
  }

  /** A missing file, a file with no data rows and a file without a `variant` column stop
      the script before any table is built, in that order of precedence. */
  lemma AbortsInOrder(summaryExists: bool, summaryPath: string, frame: Frame)
    ensures !summaryExists ==> RunOutcome(summaryExists, summaryPath, frame) == Err(SummaryNotFound(NotFoundMessage(summaryPath)))
    ensures summaryExists && Empty(frame) ==> RunOutcome(summaryExists, summaryPath, frame) == Err(NoRows(NoRowsMessage(summaryPath)))
    ensures summaryExists && !Empty(frame) && VariantColumn !in frame.columns ==>
      RunOutcome(summaryExists, summaryPath, frame) == Err(NoVariantColumn(NoVariantMessage))
  {
  }
}
