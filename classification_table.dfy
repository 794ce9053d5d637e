/**
 * `make_latex_table` of scripts/analysis_to_latex.py: the per-run table of
 * classification metrics, one block per exit. The methods follow the
 * script's loops; the functions beside them say what the loops build.
 */
module ClassificationTable {
  import opened Wrappers
  import opened Text
  import Sorting
  import opened Latex
  import opened ClassificationReport

  /** Python's `int(x)` on a float: truncation toward zero. */
  function Trunc(x: real): (n: int)
    ensures 0.0 <= x ==> n as real <= x < n as real + 1.0
    ensures x < 0.0 ==> n as real - 1.0 < x <= n as real
  {
    if x >= 0.0 then x.Floor else -((-x).Floor)
  }

  /** The eight lines before the first exit block. */
  function Prelude(runLabel: string): seq<Line> {
    [ Plain(@"\begin{table}[ht]"),
      Plain(@"  \centering"),
      Plain(@"  \caption{Classification metrics per exit for " + runLabel + ".}"),
      Plain(@"  \label{tab:" + Lower(ReplaceAll(runLabel, " ", "_")) + "_cls}"),
      Plain(@"  \begin{tabular}{lrrrr}"),
      Plain(@"    \toprule"),
      Row([Lit("Class / summary"), Lit("Precision"), Lit("Recall"), Lit("F1-score"), Lit("Support")]),
      MidruleLine ]
  }

  const Epilogue: seq<Line> := [Plain(@"  \end{tabular}"), Plain(@"\end{table}")]

  function ExitHeader(exitName: string): Line {
    Plain(@"    \multicolumn{5}{c}{" + Capitalize(exitName) + @"} \\")
  }

  /** A class or average row; an absent statistic shows as 0.0, or 0 for support. */
  function StatsRow(name: string, st: Stats): (line: Line)
    ensures line.Row? && |line.cells| == 5 && line.cells[0] == Lit(name)
    ensures line.cells[1] == Fixed3(st.precision.GetOr(0.0))
    ensures line.cells[2] == Fixed3(st.recall.GetOr(0.0))
    ensures line.cells[3] == Fixed3(st.f1Score.GetOr(0.0))
    ensures line.cells[4] == Int(Trunc(st.support.GetOr(0.0)))
  {
    Row([ Lit(name),
          Fixed3(st.precision.GetOr(0.0)),
          Fixed3(st.recall.GetOr(0.0)),
          Fixed3(st.f1Score.GetOr(0.0)),
          Int(Trunc(st.support.GetOr(0.0))) ])
  }

  function ClassRow(rep: ExitReport, key: string, labelNames: Option<seq<string>>): Line
    requires HasStats(rep, key)
  {
    StatsRow(LabelFor(key, labelNames), StatsOf(rep, key))
  }

  /** Every key holds a statistics dict. */
  predicate AllHaveStats(rep: ExitReport, keys: seq<string>) {
    forall k :: k in keys ==> HasStats(rep, k)
  }

  lemma AllHaveStatsPrefix(rep: ExitReport, keys: seq<string>, n: nat)
    requires AllHaveStats(rep, keys) && n <= |keys|
    ensures AllHaveStats(rep, keys[..n])
  {
    assert forall k :: k in keys[..n] ==> k in keys;
  }

  /** One row per key, in the order given. */
  function ClassRows(rep: ExitReport, keys: seq<string>, labelNames: Option<seq<string>>): seq<Line>
    requires AllHaveStats(rep, keys)
  {
    seq(|keys|, i requires 0 <= i < |keys| => ClassRow(rep, keys[i], labelNames))
  }

  /** The accuracy row with the rule above it, when accuracy is present and not null. */
  function AccuracyLines(rep: ExitReport): seq<Line> {
    var acc: Option<Entry> := Lookup(rep, Accuracy);
    if acc.Some? && acc.value.Scalar? then [MidruleLine, Row([Lit("accuracy"), Spanning3(acc.value.x), Dash])]
    else []
  }

  /** The row of an aggregate average, when its key is present. */
  function AverageLines(rep: ExitReport, key: string): seq<Line>
    requires key in Keys(rep) ==> HasStats(rep, key)
  {
    if key in Keys(rep) then [StatsRow(key, StatsOf(rep, key))] else []
  }

  /** The class keys of a report in the order the table shows them. */
  function OrderedClassKeys(rep: ExitReport): (ks: seq<string>)
    requires WellShapedExit(rep)
    ensures multiset(ks) == multiset(ClassKeys(rep))
    ensures AllHaveStats(rep, ks)
  {
    WellShapedLookups(rep);
    ClassKeyOrder(ClassKeys(rep));
    var ks := SortClassKeys(ClassKeys(rep));
    assert forall k :: k in ks ==> k in ClassKeys(rep) by {
      forall k | k in ks ensures k in ClassKeys(rep) { assert k in multiset(ks); }
    }
    ks
  }

  /** The summary lines under the class rows: accuracy, then the macro and
      the weighted average. */
  function SummaryLines(rep: ExitReport): seq<Line>
    requires WellShapedExit(rep)
  {
    WellShapedLookups(rep);
    AccuracyLines(rep) + AverageLines(rep, MacroAvg) + AverageLines(rep, WeightedAvg)
  }

  /** `add_exit_block`: the lines one exit contributes. */
  function Block(exitName: string, rep: ExitReport, labelNames: Option<seq<string>>): (b: seq<Line>)
    requires WellShapedExit(rep)
    ensures |b| >= 3 && b[0] == ExitHeader(exitName) && b[1] == MidruleLine && b[|b| - 1] == MidruleLine
  {
    [ExitHeader(exitName), MidruleLine]
    + ClassRows(rep, OrderedClassKeys(rep), labelNames)
    + SummaryLines(rep)
    + [MidruleLine]
  }

  /** `sorted(classification_per_exit.keys())`. */
  function SortedExits(exits: Exits): (names: seq<string>)
    ensures multiset(names) == multiset(Keys(exits))
    ensures forall k :: k in names ==> k in Keys(exits)
  {
    Sorting.SortByPermutes(Keys(exits), LexLe);
    var names := Sorting.SortBy(Keys(exits), LexLe);
    assert forall k :: k in names ==> k in Keys(exits) by {
      forall k | k in names ensures k in Keys(exits) { assert k in multiset(names); }
    }
    names
  }

  function ReportOf(exits: Exits, exitName: string): ExitReport
    requires exitName in Keys(exits)
  {
    Lookup(exits, exitName).value
  }

  lemma ReportOfWellShaped(exits: Exits, exitName: string)
    requires WellShaped(exits) && exitName in Keys(exits)
    ensures WellShapedExit(ReportOf(exits, exitName))
  {
    var i :| 0 <= i < |exits| && exits[i] == (exitName, ReportOf(exits, exitName));
  }

  /** The blocks of the given exits, one after the other. */
  function Blocks(exits: Exits, names: seq<string>, labelNames: Option<seq<string>>): seq<Line>
    requires WellShaped(exits) && forall k :: k in names ==> k in Keys(exits)
  {
    if names == [] then []
    else
      var last := names[|names| - 1];
      ReportOfWellShaped(exits, last);
      Blocks(exits, names[..|names| - 1], labelNames) + Block(last, ReportOf(exits, last), labelNames)
  }

  /** The index of the last line containing `\midrule`, if any. */
  function LastMidrule(lines: seq<Line>): (r: Option<nat>)
    ensures r.Some? ==> r.value < |lines| && HasMidrule(lines[r.value])
    ensures r.Some? ==> forall j :: r.value < j < |lines| ==> !HasMidrule(lines[j])
    ensures r.None? ==> forall j :: 0 <= j < |lines| ==> !HasMidrule(lines[j])
  {
    if lines == [] then None
    else if HasMidrule(lines[|lines| - 1]) then Some(|lines| - 1)
    else LastMidrule(lines[..|lines| - 1])
  }

  /** The last line containing `\midrule` gets `\bottomrule` instead. */
  function RewriteLast(lines: seq<Line>): (r: seq<Line>)
    ensures |r| == |lines|
  {
    match LastMidrule(lines)
    case None => lines
    case Some(k) => lines[k := Rewrite(lines[k])]
  }

  function Body(exits: Exits, runLabel: string, labelNames: Option<seq<string>>): seq<Line>
    requires WellShaped(exits)
  {
    Prelude(runLabel) + Blocks(exits, SortedExits(exits), labelNames)
  }

  /** The whole table, as lines (the script joins them with newlines). */
  function Table(exits: Exits, runLabel: string, labelNames: Option<seq<string>>): (t: seq<Line>)
    requires WellShaped(exits)
    ensures |t| >= |Epilogue| && t[|t| - |Epilogue|..] == Epilogue
  {
    RewriteLast(Body(exits, runLabel, labelNames)) + Epilogue
  }

  // ---------------------------------------------------------------------------
  // The script's loops
  // ---------------------------------------------------------------------------

  /** The backward loop that rewrites the last `\midrule` line and stops. */
  method ReplaceLastMidrule(lines: seq<Line>) returns (out: seq<Line>)
    ensures out == RewriteLast(lines)
  {
    out := lines;
    var i := |lines| - 1;
    while i >= 0
      invariant -1 <= i < |lines|
      invariant out == lines
      invariant forall j :: i < j < |lines| ==> !HasMidrule(lines[j])
      invariant LastMidrule(lines) == LastMidrule(lines[..i + 1])
    {
      if HasMidrule(out[i]) {
        assert LastMidrule(lines[..i + 1]) == Some(i);
        out := out[i := Rewrite(out[i])];
        return;
      }
      assert lines[..i + 1][..i] == lines[..i];
      i := i - 1;
    }
  }

  /** Regrouping a concatenation of three sequences. */
  lemma AppendAssociates<T>(a: seq<T>, b: seq<T>, c: seq<T>)
    ensures a + b + c == a + (b + c)
  {
  }

  lemma ClassRowsSnoc(rep: ExitReport, keys: seq<string>, i: nat, labelNames: Option<seq<string>>)
    requires AllHaveStats(rep, keys)
    requires i < |keys|
    ensures AllHaveStats(rep, keys[..i])
    ensures ClassRows(rep, keys[..i + 1], labelNames) == ClassRows(rep, keys[..i], labelNames) + [ClassRow(rep, keys[i], labelNames)]
  {
    var all := ClassRows(rep, keys, labelNames);
    ClassRowsPrefix(rep, keys, i, labelNames);
    ClassRowsPrefix(rep, keys, i + 1, labelNames);
    assert all[..i + 1] == all[..i] + [all[i]];
  }

  lemma ClassRowsPrefix(rep: ExitReport, keys: seq<string>, n: nat, labelNames: Option<seq<string>>)
    requires AllHaveStats(rep, keys) && n <= |keys|
    ensures AllHaveStats(rep, keys[..n])
    ensures ClassRows(rep, keys[..n], labelNames) == ClassRows(rep, keys, labelNames)[..n]
  {
    AllHaveStatsPrefix(rep, keys, n);
    var all := ClassRows(rep, keys, labelNames);
    var pre := ClassRows(rep, keys[..n], labelNames);
    forall j | 0 <= j < n ensures pre[j] == all[j] {
      assert keys[..n][j] == keys[j];
    }
  }

  /** The loop over the class keys inside `add_exit_block`. */
  method AppendClassRows(lines: seq<Line>, rep: ExitReport, classKeys: seq<string>, labelNames: Option<seq<string>>)
    returns (out: seq<Line>)
    requires AllHaveStats(rep, classKeys)
    ensures out == lines + ClassRows(rep, classKeys, labelNames)
  {
    out := lines;
    var i := 0;
    while i < |classKeys|
      invariant 0 <= i <= |classKeys|
      invariant out == lines + ClassRows(rep, classKeys[..i], labelNames)
    {
      var cls := classKeys[i];
      assert cls in classKeys;
      var stats := StatsOf(rep, cls);
      var name := LabelFor(cls, labelNames);
      var row := StatsRow(name, stats);
      assert row == ClassRow(rep, cls, labelNames);
      ClassRowsSnoc(rep, classKeys, i, labelNames);
      AppendAssociates(lines, ClassRows(rep, classKeys[..i], labelNames), [row]);
      out := out + [row];
      i := i + 1;
    }
    assert classKeys[..i] == classKeys;
  }

  /** The accuracy row and the loop over the two averages inside `add_exit_block`. */
  method AppendSummaryRows(lines: seq<Line>, rep: ExitReport) returns (out: seq<Line>)
    requires WellShapedExit(rep)
    ensures out == lines + SummaryLines(rep)
  {
    out := lines;
    WellShapedLookups(rep);
    var acc := Lookup(rep, Accuracy);
    if acc.Some? && !acc.value.Null? {
      out := out + [MidruleLine];
      out := out + [Row([Lit("accuracy"), Spanning3(acc.value.x), Dash])];
    }
    assert out == lines + AccuracyLines(rep);
    ghost var withAccuracy := out;
    var aggKeys := [MacroAvg, WeightedAvg];
    var j := 0;
    while j < |aggKeys|
      invariant 0 <= j <= 2
      invariant out == withAccuracy
        + (if j >= 1 then AverageLines(rep, MacroAvg) else [])
        + (if j >= 2 then AverageLines(rep, WeightedAvg) else [])
    {
      var aggKey := aggKeys[j];
      ghost var before := out;
      if aggKey in Keys(rep) {
        out := out + [StatsRow(aggKey, StatsOf(rep, aggKey))];
      }
      assert out == before + AverageLines(rep, aggKey);
      if j == 0 {
        assert before == withAccuracy && aggKey == MacroAvg;
      } else {
        assert before == withAccuracy + AverageLines(rep, MacroAvg) && aggKey == WeightedAvg;
      }
      j := j + 1;
    }
    AppendAssociates(lines, AccuracyLines(rep), AverageLines(rep, MacroAvg));
    AppendAssociates(lines, AccuracyLines(rep) + AverageLines(rep, MacroAvg), AverageLines(rep, WeightedAvg));
  }

  /** `add_exit_block`, appending to `lines`. */
  method AddExitBlock(lines: seq<Line>, exitName: string, rep: ExitReport, labelNames: Option<seq<string>>)
    returns (out: seq<Line>)
    requires WellShapedExit(rep)
    ensures out == lines + Block(exitName, rep, labelNames)
  {
    out := lines + [ExitHeader(exitName)];
    out := out + [MidruleLine];
    ghost var head := out;
    assert head == lines + [ExitHeader(exitName), MidruleLine];
    var classKeys := OrderedClassKeys(rep);
    out := AppendClassRows(out, rep, classKeys, labelNames);
    ghost var classRows := ClassRows(rep, classKeys, labelNames);
    out := AppendSummaryRows(out, rep);
    out := out + [MidruleLine];
    AppendAssociates(lines, [ExitHeader(exitName), MidruleLine], classRows);
    AppendAssociates(lines, [ExitHeader(exitName), MidruleLine] + classRows, SummaryLines(rep));
    AppendAssociates(lines, [ExitHeader(exitName), MidruleLine] + classRows + SummaryLines(rep), [MidruleLine]);
  }

  lemma BlocksSnoc(exits: Exits, exitNames: seq<string>, i: nat, labelNames: Option<seq<string>>)
    requires WellShaped(exits) && forall k :: k in exitNames ==> k in Keys(exits)
    requires i < |exitNames|
    ensures WellShapedExit(ReportOf(exits, exitNames[i]))
    ensures Blocks(exits, exitNames[..i + 1], labelNames)
      == Blocks(exits, exitNames[..i], labelNames) + Block(exitNames[i], ReportOf(exits, exitNames[i]), labelNames)
  {
    assert exitNames[i] in exitNames;
    ReportOfWellShaped(exits, exitNames[i]);
    assert exitNames[..i + 1][..i] == exitNames[..i];
  }

  /** The loop over the sorted exit names in `make_latex_table`. */
  method AppendBlocks(lines: seq<Line>, exits: Exits, exitNames: seq<string>, labelNames: Option<seq<string>>)
    returns (out: seq<Line>)
    requires WellShaped(exits) && forall k :: k in exitNames ==> k in Keys(exits)
    ensures out == lines + Blocks(exits, exitNames, labelNames)
  {
    out := lines;
    var i := 0;
    while i < |exitNames|
      invariant 0 <= i <= |exitNames|
      invariant out == lines + Blocks(exits, exitNames[..i], labelNames)
    {
      var exitName := exitNames[i];
      assert exitName in exitNames;
      ReportOfWellShaped(exits, exitName);
      ghost var done := Blocks(exits, exitNames[..i], labelNames);
      ghost var block := Block(exitName, ReportOf(exits, exitName), labelNames);
      out := AddExitBlock(out, exitName, Lookup(exits, exitName).value, labelNames);
      assert out == lines + done + block;
      BlocksSnoc(exits, exitNames, i, labelNames);
      AppendAssociates(lines, done, block);
      i := i + 1;
    }
    assert exitNames[..i] == exitNames;
  }

  /** `make_latex_table`. */
  method MakeLatexTable(exits: Exits, runLabel: string, labelNames: Option<seq<string>>)
    returns (lines: seq<Line>)
    requires WellShaped(exits)
    ensures lines == Table(exits, runLabel, labelNames)
  {
    lines := Prelude(runLabel);
    var exitNames := SortedExits(exits);
    lines := AppendBlocks(lines, exits, exitNames, labelNames);
    assert lines == Body(exits, runLabel, labelNames);
    lines := ReplaceLastMidrule(lines);
    ghost var rewritten := lines;
    lines := lines + [Plain(@"  \end{tabular}")];
    lines := lines + [Plain(@"\end{table}")];
    assert lines == rewritten + Epilogue;
  }
}

/** What the table builder's output is known to satisfy. */
module ClassificationTableProperties {
  import opened Wrappers
  import opened Text
  import Sorting
  import opened Latex
  import opened ClassificationReport
  import opened ClassificationTable

  /** The summary part of a block: the accuracy row under its own rule when
      accuracy is present and not null, then `macro avg` and `weighted avg`
      each when present, in that order. */
  lemma SummaryShape(rep: ExitReport)
    requires WellShapedExit(rep)
    ensures var sl := SummaryLines(rep);
            var acc: Option<Entry> := Lookup(rep, Accuracy);
            var a := if acc.Some? && acc.value.Scalar? then 2 else 0;
            var m := if MacroAvg in Keys(rep) then 1 else 0;
            var w := if WeightedAvg in Keys(rep) then 1 else 0;
            && |sl| == a + m + w
            && (a == 2 ==> sl[0] == MidruleLine && sl[1] == Row([Lit("accuracy"), Spanning3(acc.value.x), Dash]))
            && (m == 1 ==> sl[a] == StatsRow(MacroAvg, StatsOf(rep, MacroAvg)))
            && (w == 1 ==> sl[a + m] == StatsRow(WeightedAvg, StatsOf(rep, WeightedAvg)))
  {
    WellShapedLookups(rep);
    var al := AccuracyLines(rep);
    var ml := AverageLines(rep, MacroAvg);
    var wl := AverageLines(rep, WeightedAvg);
    assert SummaryLines(rep) == al + ml + wl;
  }

  /** The pieces of a sequence laid out as two lines, a run, another run and a
      final line. */
  lemma BlockLayout<T>(b: seq<T>, h0: T, h1: T, cr: seq<T>, sl: seq<T>, m: T)
    requires b == [h0, h1] + cr + sl + [m]
    ensures |b| == 3 + |cr| + |sl|
    ensures b[0] == h0 && b[1] == h1
    ensures forall i :: 0 <= i < |cr| ==> b[2 + i] == cr[i]
    ensures b[2 + |cr|..|b| - 1] == sl
    ensures b[|b| - 1] == m
  {
    assert b[..|b| - 1] == [h0, h1] + cr + sl;
    assert ([h0, h1] + cr + sl)[2 + |cr|..] == sl;
  }

  /** The layout of one exit block: a header and a rule, one row per class in
      the table's key order with absent statistics shown as 0, the summary
      lines, and a closing rule. */
  lemma BlockShape(exitName: string, rep: ExitReport, labelNames: Option<seq<string>>)
    requires WellShapedExit(rep)
    ensures var b := Block(exitName, rep, labelNames);
            var ks := OrderedClassKeys(rep);
            var n := |ks|;
            && |b| == 3 + n + |SummaryLines(rep)|
            && b[0] == ExitHeader(exitName) && b[1] == MidruleLine
            && (forall i :: 0 <= i < n ==> b[2 + i] == StatsRow(LabelFor(ks[i], labelNames), StatsOf(rep, ks[i])))
            && b[2 + n..|b| - 1] == SummaryLines(rep)
            && b[|b| - 1] == MidruleLine
  {
    var ks := OrderedClassKeys(rep);
    var cr := ClassRows(rep, ks, labelNames);
    BlockLayout(Block(exitName, rep, labelNames), ExitHeader(exitName), MidruleLine, cr, SummaryLines(rep), MidruleLine);
    forall i | 0 <= i < |ks|
      ensures cr[i] == StatsRow(LabelFor(ks[i], labelNames), StatsOf(rep, ks[i]))
    {
      assert cr[i] == ClassRow(rep, ks[i], labelNames);
    }
  }

  /** Every exit block ends with a rule line. */
  lemma {:induction false} BlocksEndWithMidrule(exits: Exits, names: seq<string>, labelNames: Option<seq<string>>)
    requires WellShaped(exits) && forall k :: k in names ==> k in Keys(exits)
    requires names != []
    ensures var bs := Blocks(exits, names, labelNames); |bs| > 0 && bs[|bs| - 1] == MidruleLine
  {
    var last := names[|names| - 1];
    ReportOfWellShaped(exits, last);
    BlockShape(last, ReportOf(exits, last), labelNames);
    ghost var blk := Block(last, ReportOf(exits, last), labelNames);
    assert Blocks(exits, names, labelNames) == Blocks(exits, names[..|names| - 1], labelNames) + blk;
  }

  /** The blocks of two lists of exits, one after the other: each exit name
      contributes exactly its own block, in the order the names come. */
  lemma {:induction false} BlocksAppend(exits: Exits, a: seq<string>, b: seq<string>, labelNames: Option<seq<string>>)
    requires WellShaped(exits)
    requires forall k :: k in a ==> k in Keys(exits)
    requires forall k :: k in b ==> k in Keys(exits)
    ensures forall k :: k in a + b ==> k in Keys(exits)
    ensures Blocks(exits, a + b, labelNames) == Blocks(exits, a, labelNames) + Blocks(exits, b, labelNames)
  {
    if b == [] {
      assert a + b == a;
    } else {
      var last := b[|b| - 1];
      var init := b[..|b| - 1];
      assert (a + b)[..|a + b| - 1] == a + init;
      assert forall k :: k in init ==> k in b;
      BlocksAppend(exits, a, init, labelNames);
      ReportOfWellShaped(exits, last);
      ghost var blk := Block(last, ReportOf(exits, last), labelNames);
      calc {
        Blocks(exits, a + b, labelNames);
        Blocks(exits, a + init, labelNames) + blk;
        Blocks(exits, a, labelNames) + Blocks(exits, init, labelNames) + blk;
        { AppendAssociates(Blocks(exits, a, labelNames), Blocks(exits, init, labelNames), blk); }
        Blocks(exits, a, labelNames) + (Blocks(exits, init, labelNames) + blk);
      }
    }
  }

  /** The exits appear in Python's string order, each exactly once, and that
      order depends only on the set of exit names, not on their order in the file. */
  lemma ExitOrder(exits: Exits, other: Exits)
    requires multiset(Keys(exits)) == multiset(Keys(other))
    ensures Sorting.SortedBy(SortedExits(exits), LexLe)
    ensures multiset(SortedExits(exits)) == multiset(Keys(exits))
    ensures SortedExits(exits) == SortedExits(other)
  {
    Sorting.SortLexSpec(Keys(exits), Keys(other));
  }

  /** Plain string order puts `exit10` before `exit2`, as the script does. */
  lemma Exit10BeforeExit2()
    ensures LexLe("exit10", "exit2") && !LexLe("exit2", "exit10")
    ensures LexLe("exit1", "exit10")
  {
    LexLeCommonPrefix("exit", "10", "2");
    LexLeCommonPrefix("exit", "2", "10");
    LexLeCommonPrefix("exit1", "", "0");
    assert "exit" + "10" == "exit10" && "exit" + "2" == "exit2";
    assert "exit1" + "" == "exit1" && "exit1" + "0" == "exit10";
  }

  /** Exits named `exit1`, `exit2` and `exit10` are shown as exit1, exit10, exit2. */
  lemma ExitsInStringOrder()
    ensures Sorting.SortBy(["exit1", "exit2", "exit10"], LexLe) == ["exit1", "exit10", "exit2"]
  {
    Exit10BeforeExit2();
    var s := ["exit1", "exit2", "exit10"];
    assert s[1..] == ["exit2", "exit10"] && s[1..][1..] == ["exit10"];
    assert Sorting.SortBy(["exit10"], LexLe) == ["exit10"];
    assert Sorting.SortBy(["exit2", "exit10"], LexLe) == ["exit10", "exit2"];
  }

  /** The backward loop rewrites the last line holding `\midrule` and nothing
      else; a table without such a line is left as it is. */
  lemma RewriteLastSpec(lines: seq<Line>)
    ensures |RewriteLast(lines)| == |lines|
    ensures (forall j :: 0 <= j < |lines| ==> !HasMidrule(lines[j])) ==> RewriteLast(lines) == lines
    ensures forall k :: 0 <= k < |lines| && HasMidrule(lines[k]) && (forall j :: k < j < |lines| ==> !HasMidrule(lines[j])) ==>
      RewriteLast(lines)[k] == Rewrite(lines[k]) && forall j :: 0 <= j < |lines| && j != k ==> RewriteLast(lines)[j] == lines[j]
  {
    match LastMidrule(lines)
    case None =>
    case Some(k) =>
      forall k' | 0 <= k' < |lines| && HasMidrule(lines[k']) && (forall j :: k' < j < |lines| ==> !HasMidrule(lines[j]))
        ensures k' == k
      {
      }
  }

  /** Exactly one rewrite happens, and it turns the closing rule of the last
      block (or of the header, when there are no exits) into `\bottomrule`:
      the table is its body with that one line replaced, then the two closing lines. */
  lemma TableShape(exits: Exits, runLabel: string, labelNames: Option<seq<string>>)
    requires WellShaped(exits)
    ensures var body := Body(exits, runLabel, labelNames);
            && |body| >= 8
            && body[|body| - 1] == MidruleLine
            && LastMidrule(body) == Some(|body| - 1)
            && Table(exits, runLabel, labelNames) == body[..|body| - 1] + [BottomruleLine] + Epilogue
  {
    var body := Body(exits, runLabel, labelNames);
    var names := SortedExits(exits);
    if names != [] {
      BlocksEndWithMidrule(exits, names, labelNames);
    }
    EndingRuleRewrites(body);
  }

  /** When the last line is the closing rule, it is the one `RewriteLast` rewrites. */
  lemma EndingRuleRewrites(body: seq<Line>)
    requires |body| > 0 && body[|body| - 1] == MidruleLine
    ensures LastMidrule(body) == Some(|body| - 1)
    ensures RewriteLast(body) == body[..|body| - 1] + [BottomruleLine]
  {
    var k := |body| - 1;
    MidruleLineRewrites();
    LastMidruleOfEnding(body);
    assert body[..k] + [BottomruleLine] == body[k := BottomruleLine];
  }

  lemma LastMidruleOfEnding(lines: seq<Line>)
    requires |lines| > 0 && HasMidrule(lines[|lines| - 1])
    ensures LastMidrule(lines) == Some(|lines| - 1)
    ensures RewriteLast(lines) == lines[|lines| - 1 := Rewrite(lines[|lines| - 1])]
  {
  }
}
