/**
 * The command-line entry point of the classification report script: read the
 * analysis file, write the CSV backup, then write the LaTeX table. Reading and
 * writing files is left to the caller; the model says what would be written
 * and when the script stops instead.
 */
module AnalysisToLatex {
  import opened Wrappers
  import opened Text
  import opened Latex
  import opened ClassificationReport
  import opened ClassificationTable
  import opened ClassificationCsv
  import ClassificationTableProperties

  /** The two keys of the analysis file the script reads; `None` stands for a
      missing key as well as for JSON null, which `dict.get` does not tell apart. */
  datatype Analysis = Analysis(classificationPerExit: Option<Exits>, labelNames: Option<seq<string>>)

  datatype Failure =
    | MissingClassification(message: string)  // the script's `SystemExit`
    | AccuracyNotNumeric                        // `float(stats)` on an accuracy that is null or a dict
    | MalformedEntry                            // the table builder reads a non-dict as statistics

  /** What a run leaves behind: both outputs, or the failure and the CSV
      records when the CSV had already been written. */
  datatype Outcome =
    | Written(csv: seq<CsvRecord>, tex: seq<Line>)
    | Aborted(failure: Failure, csvWritten: Option<seq<CsvRecord>>)

  const MissingPrefix: string := "No 'classification_per_exit' found in "
  const MissingHint: string := ". Did you generate analysis_run.json with analyse_run.py?"

  /** The exit message, naming the analysis file. */
  function MissingMessage(analysisPath: string): (m: string)
    ensures |m| == |MissingPrefix| + |analysisPath| + |MissingHint|
    ensures m[..|MissingPrefix|] == MissingPrefix
    ensures OccursAt(m, analysisPath, |MissingPrefix|)
  {
    var m := MissingPrefix + analysisPath + MissingHint;
    assert m[|MissingPrefix|..|MissingPrefix| + |analysisPath|] == analysisPath;
    m
  }

  /** What the script does with an analysis file, as a function. */
  function RunOutcome(analysis: Analysis, analysisPath: string, runLabel: string): (o: Outcome)
    ensures o.Written? <==>
      analysis.classificationPerExit.Some?
      && AccuracyIsNumber(analysis.classificationPerExit.value)
      && WellShaped(analysis.classificationPerExit.value)
    ensures analysis.classificationPerExit.None? ==>
      o == Aborted(MissingClassification(MissingMessage(analysisPath)), None)
    ensures o == Aborted(AccuracyNotNumeric, None) <==>
      analysis.classificationPerExit.Some? && !AccuracyIsNumber(analysis.classificationPerExit.value)
    ensures (o.Aborted? && o.failure == MalformedEntry) <==>
      analysis.classificationPerExit.Some?
      && AccuracyIsNumber(analysis.classificationPerExit.value)
      && !WellShaped(analysis.classificationPerExit.value)
    ensures o.Aborted? && o.failure == MalformedEntry ==>
      o.csvWritten == Some(FlattenExits(analysis.classificationPerExit.value, analysis.labelNames))
    ensures o.Aborted? && o.failure != MalformedEntry ==> o.csvWritten.None?
    ensures o.Written? ==>
      && o.csv == FlattenExits(analysis.classificationPerExit.value, analysis.labelNames)
      && o.tex == Table(analysis.classificationPerExit.value, runLabel, analysis.labelNames)
  {
    match analysis.classificationPerExit
    case None => Aborted(MissingClassification(MissingMessage(analysisPath)), None)
    case Some(exits) =>
      if !AccuracyIsNumber(exits) then Aborted(AccuracyNotNumeric, None)
      else
        var csv := FlattenExits(exits, analysis.labelNames);
        if !WellShaped(exits) then Aborted(MalformedEntry, Some(csv))
        else Written(csv, Table(exits, runLabel, analysis.labelNames))
  }

  /** `main`: stop when the classification block is missing, flatten it into
      the CSV records, then build the table. A crash of the CSV loop happens
      before anything is written; a crash of the table builder after the CSV. */
  method Run(analysis: Analysis, analysisPath: string, runLabel: string) returns (outcome: Outcome)
    ensures outcome == RunOutcome(analysis, analysisPath, runLabel)
  {
    if analysis.classificationPerExit.None? {
      return Aborted(MissingClassification(MissingMessage(analysisPath)), None);
    }
    var exits := analysis.classificationPerExit.value;
    if !AccuracyIsNumber(exits) {
      return Aborted(AccuracyNotNumeric, None);
    }
    var rows := FlattenRecords(exits, analysis.labelNames);
    if !WellShaped(exits) {
      return Aborted(MalformedEntry, Some(rows));
    }
    var table := MakeLatexTable(exits, runLabel, analysis.labelNames);
    return Written(rows, table);
  }

  // ---------------------------------------------------------------------------
  // Properties
  // ---------------------------------------------------------------------------

  /** A written table ends with `\bottomrule` and the two closing lines, and
      every record of the CSV names an exit of the file. */
  lemma WrittenOutputs(analysis: Analysis, analysisPath: string, runLabel: string)
    requires RunOutcome(analysis, analysisPath, runLabel).Written?
    ensures var o := RunOutcome(analysis, analysisPath, runLabel);
            && |o.tex| >= 3
            && o.tex[|o.tex| - 3] == BottomruleLine
            && o.tex[|o.tex| - 2..] == Epilogue
            && forall r :: r in o.csv ==> r.exit in Keys(analysis.classificationPerExit.value)
  {
    var exits := analysis.classificationPerExit.value;
    ClassificationTableProperties.TableShape(exits, runLabel, analysis.labelNames);
  }

  /** A null accuracy stops the script in the CSV loop, although the table
      builder alone skips it. */
  lemma NullAccuracyAborts()
    ensures var exits := [("exit1", [(Accuracy, Null)])];
            && WellShaped(exits)
            && RunOutcome(Analysis(Some(exits), None), "run/analysis_run.json", "V0") == Aborted(AccuracyNotNumeric, None)
  {
    var exits: Exits := [("exit1", [(Accuracy, Null)])];
    assert exits[0].1[0].0 == Accuracy && !exits[0].1[0].1.Scalar?;
    assert !AccuracyIsNumberExit(exits[0].1);
  }

  /** A class whose value is a bare number is skipped by the CSV loop but stops
      the table builder, after the CSV has been written without it. */
  lemma ScalarClassAbortsAfterCsv()
    ensures var exits := [("exit1", [("0", Scalar(1.0))])];
            RunOutcome(Analysis(Some(exits), None), "run/analysis_run.json", "V0") == Aborted(MalformedEntry, Some([]))
  {
    var exits: Exits := [("exit1", [("0", Scalar(1.0))])];
    var rep := exits[0].1;
    assert |rep[0].0| != |Accuracy|;
    assert !WellShapedExit(rep);
    assert rep[..0] == [];
    assert FlattenEntries("exit1", rep, None) == [];
    assert exits[..0] == [];
  }
}
