/**
 * The per-variant aggregation of the run summary file: the runs are grouped
 * by their `variant` value (runs without one are dropped), the groups come
 * out in ascending variant order, and each group gets the number of runs that
 * have a run id and, for every metric, the mean of the values that are
 * present. Means are exact rational arithmetic here; the floating-point
 * rounding of the sums is not modelled.
 */
module VariantAggregation {
  import opened Wrappers
  import Text
  import Sorting

  /** The averaged columns, in the order of the aggregation. */
  datatype Metric = PolicyTestAcc | ComputeSavingPct | ExitE1 | ExitE2 | ExitE3 | ExpectedMflops | FullMflops

  function ColumnName(m: Metric): string {
    match m
    case PolicyTestAcc => "policy_test_acc"
    case ComputeSavingPct => "compute_saving_pct"
    case ExitE1 => "exit_e1"
    case ExitE2 => "exit_e2"
    case ExitE3 => "exit_e3"
    case ExpectedMflops => "expected_mflops"
    case FullMflops => "full_mflops"
  }

  const VariantColumn: string := "variant"
  const RunIdColumn: string := "run_id"

  /** The columns the aggregation reads besides `variant`. */
  const AggregatedColumns: seq<string> := [
    RunIdColumn,
    ColumnName(PolicyTestAcc), ColumnName(ComputeSavingPct),
    ColumnName(ExitE1), ColumnName(ExitE2), ColumnName(ExitE3),
    ColumnName(ExpectedMflops), ColumnName(FullMflops) ]

  /** One line of the run summary file; an empty cell (NaN) is `None`. */
  datatype RunRow = RunRow(
    variant: Option<string>,
    runId: Option<string>,
    policyTestAcc: Option<real>,
    computeSavingPct: Option<real>,
    exitE1: Option<real>,
    exitE2: Option<real>,
    exitE3: Option<real>,
    expectedMflops: Option<real>,
    fullMflops: Option<real>)
  {
    function Get(m: Metric): Option<real> {
      match m
      case PolicyTestAcc => policyTestAcc
      case ComputeSavingPct => computeSavingPct
      case ExitE1 => exitE1
      case ExitE2 => exitE2
      case ExitE3 => exitE3
      case ExpectedMflops => expectedMflops
      case FullMflops => fullMflops
    }
  }

  /** The aggregate of one variant: `n_runs` and the seven `*_mean` columns. */
  datatype VariantSummary = VariantSummary(
    variant: string,
    nRuns: nat,
    policyTestAccMean: Option<real>,
    computeSavingPctMean: Option<real>,
    exitE1Mean: Option<real>,
    exitE2Mean: Option<real>,
    exitE3Mean: Option<real>,
    expectedMflopsMean: Option<real>,
    fullMflopsMean: Option<real>)
  {
    function MeanOf(m: Metric): Option<real> {
      match m
      case PolicyTestAcc => policyTestAccMean
      case ComputeSavingPct => computeSavingPctMean
      case ExitE1 => exitE1Mean
      case ExitE2 => exitE2Mean
      case ExitE3 => exitE3Mean
      case ExpectedMflops => expectedMflopsMean
      case FullMflops => fullMflopsMean
    }
  }

  // ---------------------------------------------------------------------------
  // Grouping and the two aggregations
  // ---------------------------------------------------------------------------

  /** The rows of one group, in file order. */
  function Group(rows: seq<RunRow>, v: string): (g: seq<RunRow>)
    ensures |g| <= |rows|
  {
    if rows == [] then []
    else
      var last := rows[|rows| - 1];
      Group(rows[..|rows| - 1], v) + (if last.variant == Some(v) then [last] else [])
  }

  /** `("run_id", "count")`: the rows whose run id is present. */
  function CountRuns(g: seq<RunRow>): (n: nat)
    ensures n <= |g|
  {
    if g == [] then 0
    else CountRuns(g[..|g| - 1]) + (if g[|g| - 1].runId.Some? then 1 else 0)
  }

  /** The values of a metric that are present, in file order. */
  function Present(g: seq<RunRow>, m: Metric): (xs: seq<real>)
    ensures |xs| <= |g|
  {
    if g == [] then []
    else
      var last := g[|g| - 1];
      Present(g[..|g| - 1], m) + (match last.Get(m) case Some(x) => [x] case None => [])
  }

  function Sum(xs: seq<real>): real {
    if xs == [] then 0.0 else Sum(xs[..|xs| - 1]) + xs[|xs| - 1]
  }

  /** `mean` with missing values skipped: undefined (NaN) when nothing is present. */
  function Mean(xs: seq<real>): (r: Option<real>)
    ensures r.Some? <==> |xs| > 0
    ensures r.Some? ==> r.value * (|xs| as real) == Sum(xs)
  {
    if xs == [] then None else Some(Sum(xs) / (|xs| as real))
  }

  /** The aggregate row of variant v. */
  function Summarize(rows: seq<RunRow>, v: string): (s: VariantSummary)
    ensures s.variant == v
    ensures s.nRuns <= |rows|
  {
    var g := Group(rows, v);
    VariantSummary(v, CountRuns(g),
      Mean(Present(g, PolicyTestAcc)), Mean(Present(g, ComputeSavingPct)),
      Mean(Present(g, ExitE1)), Mean(Present(g, ExitE2)), Mean(Present(g, ExitE3)),
      Mean(Present(g, ExpectedMflops)), Mean(Present(g, FullMflops)))
  }

  /** The variant values present in the file, in file order with repeats. */
  function PresentVariants(rows: seq<RunRow>): (vs: seq<string>)
    ensures forall v :: v in vs <==> exists r :: r in rows && r.variant == Some(v)
  {
    if rows == [] then []
    else
      var last := rows[|rows| - 1];
      assert rows == rows[..|rows| - 1] + [last];
      PresentVariants(rows[..|rows| - 1]) + (match last.variant case Some(v) => [v] case None => [])
  }

  /** The first occurrence of every value. */
  function Distinct(s: seq<string>): (d: seq<string>)
    ensures forall x :: x in d <==> x in s
    ensures forall x :: multiset(d)[x] <= 1
  {
    if s == [] then []
    else
      var d := Distinct(s[..|s| - 1]);
      var last := s[|s| - 1];
      assert s == s[..|s| - 1] + [last];
      if last in d then d
      else
        assert multiset(d)[last] == 0;
        d + [last]
  }

  /** The group keys of `groupby("variant")`: the distinct variant values, ascending. */
  function Variants(rows: seq<RunRow>): seq<string> {
    Sorting.SortBy(Distinct(PresentVariants(rows)), Text.LexLe)
  }

  /** `groupby("variant").agg(...)`: one aggregate row per variant, in key order. */
  function Aggregate(rows: seq<RunRow>): (a: seq<VariantSummary>)
    ensures |a| == |Variants(rows)|
    ensures forall i :: 0 <= i < |a| ==> a[i].variant == Variants(rows)[i]
    ensures forall i :: 0 <= i < |a| ==> a[i] == Summarize(rows, Variants(rows)[i])
  {
    var keys := Variants(rows);
    seq(|keys|, i requires 0 <= i < |keys| => Summarize(rows, keys[i]))
  }

  // ---------------------------------------------------------------------------
  // Properties
  // ---------------------------------------------------------------------------

  /** A group holds exactly the rows with its variant value. */
  lemma {:induction false} GroupMembers(rows: seq<RunRow>, v: string)
    ensures forall r :: r in Group(rows, v) <==> r in rows && r.variant == Some(v)
  {
    if rows != [] {
      var init := rows[..|rows| - 1];
      GroupMembers(init, v);
      assert rows == init + [rows[|rows| - 1]];
    }
  }

  /** The present values of a metric are the values of the rows that have one. */
  lemma {:induction false} PresentMembers(g: seq<RunRow>, m: Metric)
    ensures forall x :: x in Present(g, m) <==> exists r :: r in g && r.Get(m) == Some(x)
  {
    if g != [] {
      var init := g[..|g| - 1];
      PresentMembers(init, m);
      assert g == init + [g[|g| - 1]];
    }
  }

  /** A group keeps every row of its variant as often as it occurs in the file,
      and no other row. */
  lemma {:induction false} GroupCounts(rows: seq<RunRow>, v: string)
    ensures forall r :: multiset(Group(rows, v))[r] == if r.variant == Some(v) then multiset(rows)[r] else 0
  {
    if rows != [] {
      var init := rows[..|rows| - 1];
      GroupCounts(init, v);
      assert rows == init + [rows[|rows| - 1]];
    }
  }

  /** `n_runs` adds up over a split of the group. */
  lemma {:induction false} CountRunsAppend(a: seq<RunRow>, b: seq<RunRow>)
    ensures CountRuns(a + b) == CountRuns(a) + CountRuns(b)
    decreases |b|
  {
    if b == [] {
      assert a + b == a;
    } else {
      var binit := b[..|b| - 1];
      assert (a + b)[..|a + b| - 1] == a + binit;
      assert (a + b)[|a + b| - 1] == b[|b| - 1];
      CountRunsAppend(a, binit);
    }
  }

  /** A single run counts once when it has a run id and not at all otherwise. */
  lemma CountRunsSingle(r: RunRow)
    ensures CountRuns([r]) == if r.runId.Some? then 1 else 0
  {
    assert [r][..0] == [];
  }

  /** The present values of a split group are those of the first part, then
      those of the second. */
  lemma {:induction false} PresentAppend(a: seq<RunRow>, b: seq<RunRow>, m: Metric)
    ensures Present(a + b, m) == Present(a, m) + Present(b, m)
    decreases |b|
  {
    if b == [] {
      assert a + b == a;
      assert Present(a, m) + [] == Present(a, m);
    } else {
      var binit := b[..|b| - 1];
      var last := b[|b| - 1];
      assert (a + b)[..|a + b| - 1] == a + binit;
      assert (a + b)[|a + b| - 1] == last;
      PresentAppend(a, binit, m);
      var tail: seq<real> := match last.Get(m) case Some(x) => [x] case None => [];
      assert Present(a + b, m) == Present(a, m) + Present(binit, m) + tail;
      assert Present(b, m) == Present(binit, m) + tail;
    }
  }

  /** A single run contributes its value of the metric when it has one. */
  lemma PresentSingle(r: RunRow, m: Metric)
    ensures Present([r], m) == match r.Get(m) case Some(x) => [x] case None => []
  {
    assert [r][..0] == [];
  }

  /** Each `*_mean` column is the mean over the group of the matching metric. */
  lemma SummaryMeans(rows: seq<RunRow>, v: string, m: Metric)
    ensures Summarize(rows, v).variant == v
    ensures Summarize(rows, v).MeanOf(m) == Mean(Present(Group(rows, v), m))
  {
  }

  lemma TwiceInMultiset(s: seq<string>, i: int, j: int)
    requires 0 <= i < j < |s| && s[i] == s[j]
    ensures multiset(s)[s[i]] >= 2
  {
    assert s == s[..j] + s[j..];
    assert s[i] == s[..j][i];
    assert s[j] == s[j..][0];
  }

  /** The group keys are the variant values of the file, each once, ascending. */
  lemma VariantsSpec(rows: seq<RunRow>)
    ensures var keys := Variants(rows);
            && (forall v :: v in keys <==> exists r :: r in rows && r.variant == Some(v))
            && (forall i, j :: 0 <= i < j < |keys| ==> Text.LexLe(keys[i], keys[j]) && keys[i] != keys[j])
  {
    var d := Distinct(PresentVariants(rows));
    var keys := Variants(rows);
    Sorting.SortLexSpec(d, d);
    forall v ensures v in keys <==> v in d {
      assert v in keys <==> v in multiset(keys);
      assert v in d <==> v in multiset(d);
    }
    forall i, j | 0 <= i < j < |keys| ensures keys[i] != keys[j] {
      if keys[i] == keys[j] {
        TwiceInMultiset(keys, i, j);
      }
    }
  }

  /** The groups come out in strictly ascending variant order, one for every
      variant value in the file and none for anything else. */
  lemma AggregateKeys(rows: seq<RunRow>)
    ensures var a := Aggregate(rows);
            && (forall v :: (exists i :: 0 <= i < |a| && a[i].variant == v) <==> (exists r :: r in rows && r.variant == Some(v)))
            && (forall i, j :: 0 <= i < j < |a| ==> Text.LexLe(a[i].variant, a[j].variant) && a[i].variant != a[j].variant)
  {
    var keys := Variants(rows);
    var a := Aggregate(rows);
    VariantsSpec(rows);
    forall v ensures (exists i :: 0 <= i < |a| && a[i].variant == v) <==> v in keys {
      if v in keys {
        var i :| 0 <= i < |keys| && keys[i] == v;
        assert a[i].variant == v;
      }
      if i :| 0 <= i < |a| && a[i].variant == v {
        assert keys[i] == v;
      }
    }
    forall i, j | 0 <= i < j < |a|
      ensures Text.LexLe(a[i].variant, a[j].variant) && a[i].variant != a[j].variant
    {
      assert a[i].variant == keys[i] && a[j].variant == keys[j];
    }
  }

  /** A filter keeps appended rows after the kept rows. */
  lemma {:induction false} GroupAppend(rows: seq<RunRow>, other: seq<RunRow>, v: string)
    requires forall i :: 0 <= i < |other| ==> other[i].variant != Some(v)
    ensures Group(rows + other, v) == Group(rows, v)
    decreases |other|
  {
    if other == [] {
      assert rows + other == rows;
    } else {
      var init := other[..|other| - 1];
      var all := rows + other;
      assert all[..|all| - 1] == rows + init;
      assert all[|all| - 1] == other[|other| - 1];
      GroupAppend(rows, init, v);
      assert Group(all, v) == Group(rows + init, v) + [];
    }
  }

  /** Group isolation: rows of other variants appended to the file do not
      change the aggregate of v. */
  lemma SummaryIsolation(rows: seq<RunRow>, other: seq<RunRow>, v: string)
    requires forall i :: 0 <= i < |other| ==> other[i].variant != Some(v)
    ensures Summarize(rows + other, v) == Summarize(rows, v)
  {
    GroupAppend(rows, other, v);
  }

  lemma {:induction false} GroupOfGroup(rows: seq<RunRow>, v: string)
    ensures Group(Group(rows, v), v) == Group(rows, v)
  {
    if rows != [] {
      var init := rows[..|rows| - 1];
      var last := rows[|rows| - 1];
      GroupOfGroup(init, v);
      var g := Group(init, v);
      if last.variant == Some(v) {
        assert (g + [last])[..|g|] == g && (g + [last])[|g|] == last;
      } else {
        assert g + [] == g;
      }
    }
  }

  /** The aggregate of v is that of v's own rows. */
  lemma SummaryOfOwnRows(rows: seq<RunRow>, v: string)
    ensures Summarize(Group(rows, v), v) == Summarize(rows, v)
  {
    GroupOfGroup(rows, v);
  }

  /** `n_runs` counts every run of its group exactly when every run has an id. */
  lemma {:induction false} CountAllRuns(g: seq<RunRow>)
    ensures CountRuns(g) == |g| <==> forall i :: 0 <= i < |g| ==> g[i].runId.Some?
  {
    if g != [] {
      var init := g[..|g| - 1];
      CountAllRuns(init);
      assert forall i :: 0 <= i < |init| ==> init[i] == g[i];
      if CountRuns(g) == |g| {
        assert CountRuns(init) <= |init|;
      }
    }
  }

  lemma {:induction false} SumBounds(xs: seq<real>, lo: real, hi: real)
    requires forall i :: 0 <= i < |xs| ==> lo <= xs[i] <= hi
    ensures lo * (|xs| as real) <= Sum(xs) <= hi * (|xs| as real)
  {
    if xs != [] {
      var init := xs[..|xs| - 1];
      assert forall i :: 0 <= i < |init| ==> init[i] == xs[i];
      SumBounds(init, lo, hi);
      assert lo * (|xs| as real) == lo * (|init| as real) + lo;
      assert hi * (|xs| as real) == hi * (|init| as real) + hi;
    }
  }

  /** A mean lies between the smallest and the largest possible value. */
  lemma MeanBounds(xs: seq<real>, lo: real, hi: real)
    requires |xs| > 0
    requires forall i :: 0 <= i < |xs| ==> lo <= xs[i] <= hi
    ensures lo <= Mean(xs).value <= hi
  {
    SumBounds(xs, lo, hi);
    var n := |xs| as real;
    var m := Mean(xs).value;
    assert lo * n <= m * n && m * n <= hi * n;
  }

  /** When every present value of a metric lies in [lo, hi] so does its mean. */
  lemma MetricMeanBounds(rows: seq<RunRow>, v: string, m: Metric, lo: real, hi: real)
    requires forall r :: r in rows && r.variant == Some(v) && r.Get(m).Some? ==> lo <= r.Get(m).value <= hi
    ensures var mean := Summarize(rows, v).MeanOf(m);
            mean.Some? ==> lo <= mean.value <= hi
  {
    var xs := Present(Group(rows, v), m);
    SummaryMeans(rows, v, m);
    GroupMembers(rows, v);
    PresentMembers(Group(rows, v), m);
    if |xs| > 0 {
      forall i | 0 <= i < |xs| ensures lo <= xs[i] <= hi {
        assert xs[i] in xs;
      }
      MeanBounds(xs, lo, hi);
    }
  }

  /** A mean is missing exactly when no run of the group has the metric. */
  lemma MeanMissing(rows: seq<RunRow>, v: string, m: Metric)
    ensures Summarize(rows, v).MeanOf(m).None? <==>
      forall r :: r in rows && r.variant == Some(v) ==> r.Get(m).None?
  {
    SummaryMeans(rows, v, m);
    GroupMembers(rows, v);
    PresentEmpty(Group(rows, v), m);
  }

  lemma {:induction false} PresentEmpty(g: seq<RunRow>, m: Metric)
    ensures Present(g, m) == [] <==> forall r :: r in g ==> r.Get(m).None?
  {
    if g != [] {
      var init := g[..|g| - 1];
      var last := g[|g| - 1];
      PresentEmpty(init, m);
      assert g == init + [last];
      assert forall r :: r in g <==> r in init || r == last;
    }
  }

  /** Three runs with policy accuracy 0.90, 0.92 and 0.94 average 0.92. */
  lemma MeanExample()
    ensures Mean([0.90, 0.92, 0.94]) == Some(0.92)
  {
    var xs := [0.90, 0.92, 0.94];
    assert xs[..2] == [0.90, 0.92] && xs[..2][..1] == [0.90] && xs[..2][..1][..0] == [];
    assert Sum([0.90]) == 0.90;
    assert Sum([0.90, 0.92]) == 1.82;
    assert Sum(xs) == 2.76;
  }
}
