/**
 * The CSV backup written next to the classification table: one record per
 * class, per aggregate average and per accuracy value of every exit, in the
 * order the analysis file lists them.
 */
module ClassificationCsv {
  import opened Wrappers
  import opened ClassificationReport
  import ClassificationTable

  /** The `row_type` column. */
  datatype RowType = Class | Summary

  /** One CSV record; an absent statistic is an empty cell (`None`). */
  datatype CsvRecord = CsvRecord(
    exit: string,
    rowType: RowType,
    name: string,
    precision: Option<real>,
    recall: Option<real>,
    f1Score: Option<real>,
    support: Option<real>,
    accuracy: Option<real>)

  /** What every record satisfies: the accuracy column is filled exactly on the
      accuracy record, whose statistics are all empty, and summary records are
      named after one of the three aggregate keys. */
  predicate WellFormedRecord(r: CsvRecord) {
    && (r.accuracy.Some? <==> r.rowType == Summary && r.name == Accuracy)
    && (r.accuracy.Some? ==> r.precision.None? && r.recall.None? && r.f1Score.None? && r.support.None?)
    && (r.rowType == Summary ==> IsReserved(r.name))
  }

  /** The records one `(key, value)` pair of an exit contributes: the accuracy
      record, nothing for a value that is not a dict, or one statistics record
      whose name is the class label for a class and the key for an average. */
  function EntryRecords(exitName: string, key: string, e: Entry, labelNames: Option<seq<string>>): (rs: seq<CsvRecord>)
    requires key == Accuracy ==> e.Scalar?
    ensures |rs| <= 1
    ensures |rs| == 1 <==> key == Accuracy || e.Metrics?
    ensures forall r :: r in rs ==> r.exit == exitName && WellFormedRecord(r)
  {
    if key == Accuracy then
      [CsvRecord(exitName, Summary, Accuracy, None, None, None, None, Some(e.x))]
    else if !e.Metrics? then
      []
    else
      var rowType := if IsReserved(key) then Summary else Class;
      var name := if rowType == Class then LabelFor(key, labelNames) else key;
      [CsvRecord(exitName, rowType, name, e.stats.precision, e.stats.recall, e.stats.f1Score, e.stats.support, None)]
  }

  /** The fields of the record of one pair: accuracy goes into its own column
      with the statistics empty; any other dict is a summary record exactly
      for the reserved keys, named by its key, or a class record named by its
      label, and carries its statistics as they are, empty where absent. */
  lemma EntryRecordFields(exitName: string, key: string, e: Entry, labelNames: Option<seq<string>>)
    requires key == Accuracy ==> e.Scalar?
    ensures key == Accuracy ==>
      EntryRecords(exitName, key, e, labelNames) == [CsvRecord(exitName, Summary, Accuracy, None, None, None, None, Some(e.x))]
    ensures key != Accuracy && e.Metrics? ==>
      var r := EntryRecords(exitName, key, e, labelNames)[0];
      && (r.rowType == Summary <==> IsReserved(key))
      && r.name == (if IsReserved(key) then key else LabelFor(key, labelNames))
      && r.precision == e.stats.precision && r.recall == e.stats.recall
      && r.f1Score == e.stats.f1Score && r.support == e.stats.support
      && r.accuracy == None
    ensures key != Accuracy && !e.Metrics? ==> EntryRecords(exitName, key, e, labelNames) == []
  {
  }

  /** The records of one exit, in the order of its keys. */
  function FlattenEntries(exitName: string, rep: ExitReport, labelNames: Option<seq<string>>): (rs: seq<CsvRecord>)
    requires AccuracyIsNumberExit(rep)
    ensures forall r :: r in rs ==> r.exit == exitName && WellFormedRecord(r)
  {
    if rep == [] then []
    else
      var init := rep[..|rep| - 1];
      assert AccuracyIsNumberExit(init) by {
        forall i | 0 <= i < |init| ensures init[i] == rep[i] {}
      }
      var (key, e) := rep[|rep| - 1];
      FlattenEntries(exitName, init, labelNames) + EntryRecords(exitName, key, e, labelNames)
  }

  /** The records of all exits, exit by exit in the order of the analysis file. */
  function FlattenExits(exits: Exits, labelNames: Option<seq<string>>): (rs: seq<CsvRecord>)
    requires AccuracyIsNumber(exits)
    ensures forall r :: r in rs ==> r.exit in Keys(exits) && WellFormedRecord(r)
  {
    if exits == [] then []
    else
      var init := exits[..|exits| - 1];
      assert AccuracyIsNumber(init) by {
        forall i | 0 <= i < |init| ensures init[i] == exits[i] {}
      }
      assert Keys(exits) == Keys(init) + [exits[|exits| - 1].0];
      var (exitName, rep) := exits[|exits| - 1];
      FlattenExits(init, labelNames) + FlattenEntries(exitName, rep, labelNames)
  }

  // ---------------------------------------------------------------------------
  // The script's loop
  // ---------------------------------------------------------------------------

  lemma AccuracyIsNumberExitPrefix(rep: ExitReport, n: nat)
    requires AccuracyIsNumberExit(rep) && n <= |rep|
    ensures AccuracyIsNumberExit(rep[..n])
  {
    forall i | 0 <= i < n ensures rep[..n][i] == rep[i] {}
  }

  lemma FlattenEntriesSnoc(exitName: string, rep: ExitReport, j: nat, labelNames: Option<seq<string>>)
    requires AccuracyIsNumberExit(rep) && j < |rep|
    ensures AccuracyIsNumberExit(rep[..j]) && AccuracyIsNumberExit(rep[..j + 1])
    ensures FlattenEntries(exitName, rep[..j + 1], labelNames)
      == FlattenEntries(exitName, rep[..j], labelNames) + EntryRecords(exitName, rep[j].0, rep[j].1, labelNames)
  {
    AccuracyIsNumberExitPrefix(rep, j);
    AccuracyIsNumberExitPrefix(rep, j + 1);
    assert rep[..j + 1][..j] == rep[..j] && rep[..j + 1][j] == rep[j];
  }

  /** The inner loop of `main`: the records of one exit appended to `rows`. */
  method AppendExitRecords(rows: seq<CsvRecord>, exitName: string, exitDict: ExitReport, labelNames: Option<seq<string>>)
    returns (out: seq<CsvRecord>)
    requires AccuracyIsNumberExit(exitDict)
    ensures out == rows + FlattenEntries(exitName, exitDict, labelNames)
  {
    out := rows;
    var j := 0;
    while j < |exitDict|
      invariant 0 <= j <= |exitDict|
      invariant AccuracyIsNumberExit(exitDict[..j])
      invariant out == rows + FlattenEntries(exitName, exitDict[..j], labelNames)
    {
      var (key, stats) := exitDict[j];
      ghost var done := FlattenEntries(exitName, exitDict[..j], labelNames);
      if key == Accuracy {
        out := out + [CsvRecord(exitName, Summary, Accuracy, None, None, None, None, Some(stats.x))];
      } else if stats.Metrics? {
        var rowType := if IsReserved(key) then Summary else Class;
        var name := if rowType == Class then LabelFor(key, labelNames) else key;
        out := out + [CsvRecord(exitName, rowType, name, stats.stats.precision, stats.stats.recall,
                                stats.stats.f1Score, stats.stats.support, None)];
      }
      assert out == rows + done + EntryRecords(exitName, key, stats, labelNames);
      ClassificationTable.AppendAssociates(rows, done, EntryRecords(exitName, key, stats, labelNames));
      FlattenEntriesSnoc(exitName, exitDict, j, labelNames);
      j := j + 1;
    }
    assert exitDict[..j] == exitDict;
  }

  /** The nested loop of `main` that builds the list of CSV rows. */
  method FlattenRecords(exits: Exits, labelNames: Option<seq<string>>) returns (rows: seq<CsvRecord>)
    requires AccuracyIsNumber(exits)
    ensures rows == FlattenExits(exits, labelNames)
  {
    rows := [];
    var i := 0;
    while i < |exits|
      invariant 0 <= i <= |exits|
      invariant AccuracyIsNumber(exits[..i])
      invariant rows == FlattenExits(exits[..i], labelNames)
    {
      var (exitName, exitDict) := exits[i];
      assert AccuracyIsNumberExit(exitDict);
      rows := AppendExitRecords(rows, exitName, exitDict, labelNames);
      assert exits[..i + 1][..i] == exits[..i] && exits[..i + 1][i] == (exitName, exitDict);
      i := i + 1;
    }
    assert exits[..i] == exits;
  }

  // ---------------------------------------------------------------------------
  // Agreement with the table
  // ---------------------------------------------------------------------------

  /** The `name` column of the class records, in order. */
  function ClassNames(rs: seq<CsvRecord>): seq<string> {
    if rs == [] then []
    else ClassNames(rs[..|rs| - 1]) + (if rs[|rs| - 1].rowType == Class then [rs[|rs| - 1].name] else [])
  }

  /** The display names of a sequence of class keys. */
  function Labels(keys: seq<string>, labelNames: Option<seq<string>>): (ns: seq<string>)
    ensures |ns| == |keys| && forall i :: 0 <= i < |keys| ==> ns[i] == LabelFor(keys[i], labelNames)
  {
    seq(|keys|, i requires 0 <= i < |keys| => LabelFor(keys[i], labelNames))
  }

  lemma LabelsAppend(a: seq<string>, b: seq<string>, labelNames: Option<seq<string>>)
    ensures Labels(a + b, labelNames) == Labels(a, labelNames) + Labels(b, labelNames)
  {
    assert forall i :: 0 <= i < |a| ==> (a + b)[i] == a[i];
    assert forall i :: |a| <= i < |a| + |b| ==> (a + b)[i] == b[i - |a|];
  }

  lemma ClassNamesAppend(rs: seq<CsvRecord>, r: CsvRecord)
    ensures ClassNames(rs + [r]) == ClassNames(rs) + (if r.rowType == Class then [r.name] else [])
  {
    assert (rs + [r])[..|rs|] == rs;
  }

  /** Taking one key out of a sequence takes its label out of the labels. */
  lemma LabelsRemove(b: seq<string>, j: int, labelNames: Option<seq<string>>)
    requires 0 <= j < |b|
    ensures multiset(Labels(b, labelNames))
         == multiset(Labels(b[..j] + b[j + 1..], labelNames)) + multiset{LabelFor(b[j], labelNames)}
  {
    var pre, post := b[..j], b[j + 1..];
    var mid := [b[j]] + post;
    assert b == pre + mid;
    LabelsAppend(pre, mid, labelNames);
    LabelsAppend([b[j]], post, labelNames);
    LabelsAppend(pre, post, labelNames);
    var lb := Labels([b[j]], labelNames);
    assert lb == [LabelFor(b[j], labelNames)];
    calc {
      multiset(Labels(b, labelNames));
      multiset(Labels(pre, labelNames) + (lb + Labels(post, labelNames)));
      multiset(Labels(pre, labelNames)) + multiset(lb) + multiset(Labels(post, labelNames));
      multiset(Labels(pre, labelNames) + Labels(post, labelNames)) + multiset(lb);
    }
  }

  /** Relabelling a permutation of the keys gives a permutation of the labels. */
  lemma {:induction false} LabelsPermute(a: seq<string>, b: seq<string>, labelNames: Option<seq<string>>)
    requires multiset(a) == multiset(b)
    ensures multiset(Labels(a, labelNames)) == multiset(Labels(b, labelNames))
    decreases |a|
  {
    if a == [] {
      assert |b| == |multiset(b)| == 0;
    } else {
      var x := a[0];
      assert x in multiset(b);
      var j :| 0 <= j < |b| && b[j] == x;
      var rest := b[..j] + b[j + 1..];
      assert b == b[..j] + [x] + b[j + 1..];
      assert multiset(rest) == multiset(b) - multiset{x};
      assert a == [x] + a[1..];
      assert multiset(a[1..]) == multiset(a) - multiset{x};
      LabelsPermute(a[1..], rest, labelNames);
      LabelsRemove(b, j, labelNames);
      LabelsRemove(a, 0, labelNames);
      assert a[..0] + a[1..] == a[1..];
    }
  }

  /** One pair adds its label to the class names exactly when its key is a class. */
  lemma EntryClassNames(done: seq<CsvRecord>, exitName: string, key: string, e: Entry, labelNames: Option<seq<string>>)
    requires key == Accuracy ==> e.Scalar?
    requires !IsReserved(key) ==> e.Metrics?
    ensures ClassNames(done + EntryRecords(exitName, key, e, labelNames))
         == ClassNames(done) + Labels(if IsReserved(key) then [] else [key], labelNames)
  {
    var er := EntryRecords(exitName, key, e, labelNames);
    if er == [] {
      assert done + er == done;
    } else {
      ClassNamesAppend(done, er[0]);
      assert er == [er[0]];
    }
  }

  /** Reading the class records of one exit back gives the labels of its class
      keys, in the order of the analysis file. */
  lemma {:induction false} ClassNamesOfExit(exitName: string, rep: ExitReport, labelNames: Option<seq<string>>)
    requires AccuracyIsNumberExit(rep)
    requires forall i :: 0 <= i < |rep| && !IsReserved(rep[i].0) ==> rep[i].1.Metrics?
    ensures ClassNames(FlattenEntries(exitName, rep, labelNames)) == Labels(ClassKeys(rep), labelNames)
  {
    if rep != [] {
      var init := rep[..|rep| - 1];
      assert forall i :: 0 <= i < |init| ==> init[i] == rep[i];
      ClassNamesOfExit(exitName, init, labelNames);
      var (key, e) := rep[|rep| - 1];
      var ext := if IsReserved(key) then [] else [key];
      assert ClassKeys(rep) == ClassKeys(init) + ext;
      LabelsAppend(ClassKeys(init), ext, labelNames);
      EntryClassNames(FlattenEntries(exitName, init, labelNames), exitName, key, e, labelNames);
    }
  }

  /** The CSV lists, for every exit, the same classes the table shows: the
      names of its class records are the labels of the table's class rows, up
      to order (the CSV keeps file order, the table sorts). */
  lemma CsvClassesMatchTable(exitName: string, rep: ExitReport, labelNames: Option<seq<string>>)
    requires WellShapedExit(rep) && AccuracyIsNumberExit(rep)
    ensures multiset(ClassNames(FlattenEntries(exitName, rep, labelNames)))
         == multiset(Labels(ClassificationTable.OrderedClassKeys(rep), labelNames))
  {
    ClassNamesOfExit(exitName, rep, labelNames);
    LabelsPermute(ClassKeys(rep), ClassificationTable.OrderedClassKeys(rep), labelNames);
  }

  /** The accuracy of an exit appears in the CSV as the accuracy record of that exit. */
  lemma {:induction false} AccuracyRecorded(exitName: string, rep: ExitReport, labelNames: Option<seq<string>>, x: real)
    requires AccuracyIsNumberExit(rep)
    requires (Accuracy, Scalar(x)) in rep
    ensures CsvRecord(exitName, Summary, Accuracy, None, None, None, None, Some(x)) in FlattenEntries(exitName, rep, labelNames)
  {
    var init := rep[..|rep| - 1];
    assert forall i :: 0 <= i < |init| ==> init[i] == rep[i];
    if rep[|rep| - 1] != (Accuracy, Scalar(x)) {
      AccuracyRecorded(exitName, init, labelNames, x);
    }
  }

  /** The records of a file whose exits are split in two are those of the first
      part followed by those of the second. */
  lemma {:induction false} FlattenExitsAppend(a: Exits, b: Exits, labelNames: Option<seq<string>>)
    requires AccuracyIsNumber(a) && AccuracyIsNumber(b)
    ensures AccuracyIsNumber(a + b)
    ensures FlattenExits(a + b, labelNames) == FlattenExits(a, labelNames) + FlattenExits(b, labelNames)
    decreases |b|
  {
    AccuracyIsNumberAppend(a, b);
    if b == [] {
      assert a + b == a;
    } else {
      var binit := b[..|b| - 1];
      AccuracyIsNumberPrefix(b, |b| - 1);
      FlattenExitsAppend(a, binit, labelNames);
      assert (a + b)[..|a + b| - 1] == a + binit;
      assert (a + b)[|a + b| - 1] == b[|b| - 1];
      var (n, rep) := b[|b| - 1];
      ClassificationTable.AppendAssociates(FlattenExits(a, labelNames), FlattenExits(binit, labelNames), FlattenEntries(n, rep, labelNames));
    }
  }

  lemma AccuracyIsNumberAppend(a: Exits, b: Exits)
    requires AccuracyIsNumber(a) && AccuracyIsNumber(b)
    ensures AccuracyIsNumber(a + b)
  {
    forall i | 0 <= i < |a + b| ensures AccuracyIsNumberExit((a + b)[i].1) {
      if i < |a| {
        assert (a + b)[i] == a[i];
      } else {
        assert (a + b)[i] == b[i - |a|];
      }
    }
  }

  lemma AccuracyIsNumberPrefix(a: Exits, n: nat)
    requires AccuracyIsNumber(a) && n <= |a|
    ensures AccuracyIsNumber(a[..n])
  {
    forall i | 0 <= i < n ensures AccuracyIsNumberExit(a[..n][i].1) {
      assert a[..n][i] == a[i];
    }
  }
}
