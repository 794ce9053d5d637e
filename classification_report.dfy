/**
 * The `classification_per_exit` block of an analysis file: for every exit,
 * a classification report in the shape scikit-learn's
 * `classification_report(output_dict=True)` produces. A JSON object is a list
 * of (key, value) pairs in insertion order; lookups take the first match, as
 * a JSON object has each key once.
 */
module ClassificationReport {
  import opened Wrappers
  import Text
  import Sorting

  /** The per-row statistics; a field is `None` when the key is absent. */
  datatype Stats = Stats(precision: Option<real>, recall: Option<real>, f1Score: Option<real>, support: Option<real>)

  /** A value in an exit report: a statistics dict, a number, or JSON null. */
  datatype Entry = Metrics(stats: Stats) | Scalar(x: real) | Null

  type ExitReport = seq<(string, Entry)>
  type Exits = seq<(string, ExitReport)>

  const Accuracy: string := "accuracy"
  const MacroAvg: string := "macro avg"
  const WeightedAvg: string := "weighted avg"

  /** The aggregate keys, which are not classes. */
  predicate IsReserved(k: string) {
    k == Accuracy || k == MacroAvg || k == WeightedAvg
  }

  /** Python's `d.keys()`, in insertion order. */
  function Keys<V>(d: seq<(string, V)>): (ks: seq<string>)
    ensures |ks| == |d| && forall i :: 0 <= i < |d| ==> ks[i] == d[i].0
  {
    seq(|d|, i requires 0 <= i < |d| => d[i].0)
  }

  /** Python's `d.get(k)`: the value stored under k, if any. */
  function Lookup<V>(d: seq<(string, V)>, k: string): (r: Option<V>)
    ensures r.Some? <==> k in Keys(d)
    ensures r.Some? ==> (k, r.value) in d
  {
    if d == [] then None
    else if d[0].0 == k then Some(d[0].1)
    else
      assert Keys(d) == [d[0].0] + Keys(d[1..]);
      Lookup(d[1..], k)
  }

  /** The class keys of a report: every key but the three aggregate ones, in
      insertion order. */
  function ClassKeys(rep: ExitReport): (ks: seq<string>)
    ensures forall k :: k in ks ==> !IsReserved(k)
    ensures forall k :: !IsReserved(k) ==> multiset(ks)[k] == multiset(Keys(rep))[k]
  {
    if rep == [] then []
    else
      var init := rep[..|rep| - 1];
      var k := rep[|rep| - 1].0;
      assert Keys(rep) == Keys(init) + [k];
      ClassKeys(init) + (if IsReserved(k) then [] else [k])
  }

  /** Python's `int(k)` for a key known to parse. */
  function IntKey(k: string): int {
    match Text.ParseInt(k)
    case Some(n) => n
    case None => 0
  }

  predicate AllParse(keys: seq<string>) {
    forall i :: 0 <= i < |keys| ==> Text.ParseInt(keys[i]).Some?
  }

  predicate IntKeyLe(a: string, b: string) {
    IntKey(a) <= IntKey(b)
  }

  /** `sorted(keys, key=int)`, falling back to `sorted(keys)` when some key
      does not parse as an integer. */
  function SortClassKeys(keys: seq<string>): (sorted: seq<string>)
    ensures |sorted| == |keys|
  {
    if AllParse(keys) then Sorting.SortBy(keys, IntKeyLe) else Sorting.SortBy(keys, Text.LexLe)
  }

  /** The display name of a class: `label_names[int(key)]` when the key parses
      and is a valid Python index (negative ones count from the end), and the
      key itself otherwise; it never fails. */
  function LabelFor(key: string, labelNames: Option<seq<string>>): (name: string)
    ensures name == key || (labelNames.Some? && name in labelNames.value)
    ensures labelNames.None? || Text.ParseInt(key).None? ==> name == key
  {
    match labelNames
    case None => key
    case Some(names) =>
      match Text.ParseInt(key)
      case None => key
      case Some(i) =>
        if 0 <= i < |names| then names[i]
        else if -|names| <= i < 0 then names[|names| + i]
        else key
  }

  /** The key is present and holds a statistics dict. */
  predicate HasStats(rep: ExitReport, k: string) {
    Lookup(rep, k).Some? && Lookup(rep, k).value.Metrics?
  }

  function StatsOf(rep: ExitReport, k: string): Stats
    requires HasStats(rep, k)
  {
    Lookup(rep, k).value.stats
  }

  /** What the table builder needs to run without raising: every key except
      `accuracy` holds a dict, and `accuracy`, when present, does not. */
  predicate WellShapedExit(rep: ExitReport) {
    forall i :: 0 <= i < |rep| ==> (rep[i].0 == Accuracy <==> !rep[i].1.Metrics?)
  }

  predicate WellShaped(exits: Exits) {
    forall i :: 0 <= i < |exits| ==> WellShapedExit(exits[i].1)
  }

  /** What the CSV flattening needs: every `accuracy` value goes through `float`. */
  predicate AccuracyIsNumberExit(rep: ExitReport) {
    forall i :: 0 <= i < |rep| ==> rep[i].0 == Accuracy ==> rep[i].1.Scalar?
  }

  predicate AccuracyIsNumber(exits: Exits) {
    forall i :: 0 <= i < |exits| ==> AccuracyIsNumberExit(exits[i].1)
  }

  // ---------------------------------------------------------------------------
  // Properties
  // ---------------------------------------------------------------------------

  /** In a well-shaped report every class key and every aggregate average that
      is present holds statistics, and accuracy never does. */
  lemma WellShapedLookups(rep: ExitReport)
    requires WellShapedExit(rep)
    ensures forall k :: k in ClassKeys(rep) ==> HasStats(rep, k)
    ensures MacroAvg in Keys(rep) ==> HasStats(rep, MacroAvg)
    ensures WeightedAvg in Keys(rep) ==> HasStats(rep, WeightedAvg)
    ensures Lookup(rep, Accuracy).Some? ==> !Lookup(rep, Accuracy).value.Metrics?
  {
    forall k | k in ClassKeys(rep) || k == MacroAvg || k == WeightedAvg || k == Accuracy
      ensures Lookup(rep, k).Some? ==> (Lookup(rep, k).value.Metrics? <==> k != Accuracy)
    {
      if Lookup(rep, k).Some? {
        var i :| 0 <= i < |rep| && rep[i] == (k, Lookup(rep, k).value);
      }
    }
    forall k | k in ClassKeys(rep) ensures k in Keys(rep) {
      assert multiset(ClassKeys(rep))[k] > 0;
    }
  }

  /** The class rows of a report are exactly its keys other than `accuracy`,
      `macro avg` and `weighted avg`, each as often as it occurs. */
  lemma ClassKeysExact(rep: ExitReport)
    ensures forall k :: k in ClassKeys(rep) <==> k in Keys(rep) && !IsReserved(k)
  {
    forall k ensures k in ClassKeys(rep) <==> k in Keys(rep) && !IsReserved(k) {
      if !IsReserved(k) {
        assert k in ClassKeys(rep) <==> multiset(ClassKeys(rep))[k] > 0;
      }
    }
  }

  lemma IntKeyLeTotalPreorder()
    ensures Sorting.TotalPreorder(IntKeyLe)
  {
  }

  /** The class-key order: a permutation of the keys that is ascending by
      integer value when every key parses, and lexicographic otherwise. */
  lemma ClassKeyOrder(keys: seq<string>)
    ensures multiset(SortClassKeys(keys)) == multiset(keys)
    ensures AllParse(keys) ==> AllParse(SortClassKeys(keys))
    ensures AllParse(keys) ==> forall i, j :: 0 <= i < j < |keys| ==>
      Text.ParseInt(SortClassKeys(keys)[i]).value <= Text.ParseInt(SortClassKeys(keys)[j]).value
    ensures !AllParse(keys) ==> Sorting.SortedBy(SortClassKeys(keys), Text.LexLe)
  {
    var r := SortClassKeys(keys);
    if AllParse(keys) {
      Sorting.SortByPermutes(keys, IntKeyLe);
      IntKeyLeTotalPreorder();
      Sorting.SortBySorted(keys, IntKeyLe);
      forall i | 0 <= i < |r| ensures Text.ParseInt(r[i]).Some? {
        assert r[i] in multiset(keys);
        var j :| 0 <= j < |keys| && keys[j] == r[i];
      }
      forall i, j | 0 <= i < j < |keys|
        ensures Text.ParseInt(r[i]).value <= Text.ParseInt(r[j]).value
      {
        assert IntKeyLe(r[i], r[j]);
      }
    } else {
      Sorting.SortByPermutes(keys, Text.LexLe);
      Sorting.LexLeTotalOrder();
      Sorting.SortBySorted(keys, Text.LexLe);
    }
  }

  /** The label of a key that parses as the integer i. */
  lemma LabelOfParsed(key: string, i: int, names: seq<string>)
    requires Text.ParseInt(key) == Some(i)
    ensures LabelFor(key, Some(names)) ==
      if 0 <= i < |names| then names[i]
      else if -|names| <= i < 0 then names[|names| + i]
      else key
  {
  }

  /** A key written as `str(i)` for a valid index i names `label_names[i]`. */
  lemma LabelOfIndex(i: int, names: seq<string>)
    requires 0 <= i < |names|
    ensures LabelFor(Text.ShowInt(i), Some(names)) == names[i]
  {
    Text.ParseShowInt(i);
    LabelOfParsed(Text.ShowInt(i), i, names);
  }

  /** A negative key `-m` with 1 <= m <= |label_names| counts from the end. */
  lemma LabelOfNegativeIndex(m: int, names: seq<string>)
    requires 1 <= m <= |names|
    ensures LabelFor(Text.ShowInt(-m), Some(names)) == names[|names| - m]
  {
    Text.ParseShowInt(-m);
    LabelOfParsed(Text.ShowInt(-m), -m, names);
  }

  /** An integer key outside the index range of `label_names` falls back to
      the key itself. */
  lemma LabelOutOfRange(i: int, names: seq<string>)
    requires i >= |names| || i < -|names|
    ensures LabelFor(Text.ShowInt(i), Some(names)) == Text.ShowInt(i)
  {
    Text.ParseShowInt(i);
    LabelOfParsed(Text.ShowInt(i), i, names);
  }

  /** With label names ["female", "male"], class "1" is shown as "male" and the
      out-of-range class "5" as "5". */
  lemma LabelExamples()
    ensures LabelFor("1", Some(["female", "male"])) == "male"
    ensures LabelFor("5", Some(["female", "male"])) == "5"
    ensures LabelFor("female", Some(["female", "male"])) == "female"
  {
    LabelOfIndex(1, ["female", "male"]);
    assert Text.ShowInt(1) == "1";
    LabelOutOfRange(5, ["female", "male"]);
    assert Text.ShowInt(5) == "5";
    assert Text.ParseInt("female") == None by {
      assert Text.Strip("female") == "female";
      assert !Text.WellFormedDigits("female");
    }
  }
}
