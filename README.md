# ASHADIP report scripts, modelled in Dafny

This project models the two table-building scripts of the ASHADIP repository:

- `scripts/analysis_to_latex.py` turns the `classification_per_exit` block of
  an `analysis_run.json` into a per-run LaTeX table. Its `main` also writes a
  CSV backup with one record per (exit, key).
  - Each exit has a classification report in scikit-learn's
    `classification_report(output_dict=True)` shape.
- `scripts/variants_avg_to_latex.py` reads the per-run summary CSV and
  aggregates it per `variant`: it counts runs and takes means that ignore
  missing values. It then renders one table row per variant.

## Modules

| module | what it holds |
|---|---|
| `Wrappers` | `Option` and `Result` |
| `Text` | ASCII `str.strip`, `int(s)` and `str(n)`, `in`, `replace`, `lower` and `capitalize`, and Python's string order |
| `Sorting` | a stable insertion sort standing for `sorted`, with permutation, sortedness and uniqueness lemmas |
| `Latex` | output lines: a `Plain` text line, or a `Row` of abstract cells |
| `ClassificationReport` | reports as insertion-ordered key/value lists; class keys, the key sort, label lookup, and shape predicates |
| `ClassificationTable` | `make_latex_table` and `add_exit_block` as methods with loops, beside the functions that specify them |
| `ClassificationTableProperties` | lemmas about the table's layout, its exit order and the final rewrite |
| `ClassificationCsv` | the CSV flattening loop of `main`, plus lemmas about its records |
| `AnalysisToLatex` | `main` of the classification script: its abort and its two outputs |
| `VariantAggregation` | `groupby("variant").agg(...)` as pure functions, with lemmas |
| `VariantsTable` | the two cell formatters, the renderer loop, and `main` of the variants script |

## How the model represents things

- **Numbers** are `real`.
  - A formatted number is a cell that holds its real value and says how it is shown: `Fixed3` for `:.3f`, `Fixed1` for `:.1f`, `Int` for `int(...)`, and `Spanning3` for the accuracy cell over three columns.
  - `Dash` is the `--` placeholder.
- **Rows and lines.** A table row is a list of cells. A line holds `\midrule` when its text contains it, or when one of its literal cells does.
- **JSON objects** are lists of (key, value) pairs in insertion order. Lookups take the first match.
- **Failures.**
  - A Python exception raised inside a helper shows up as a `requires` on that helper.
  - The `main` models (`RunOutcome`, `Run`) turn each exception into an explicit failure outcome.
  - Each outcome records whether the CSV had already been written.
- **Empty CSV cells** (NaN) are `None` in the aggregation. The renderer reads a value as `Missing`, `Num(x)`, or `NonNumeric` (a value `float` rejects).

## Model

| member | source | states |
|---|---|---|
| Text.ParseInt | scripts/analysis_to_latex.py:79 | `int(s)` after stripping whitespace and at most one sign: it succeeds only on a non-empty stripped string, and a negative result needs a leading `-`; `ParseShowInt` shows that it inverts `str` on every integer |
| Text.ParseShowInt | scripts/analysis_to_latex.py:79 | `int(str(n)) == n` for every integer n, so a class key written by scikit-learn parses back to its index |
| Text.ReplaceAfterPrefix | scripts/analysis_to_latex.py:117-118 | the indented `\midrule` line contains `\midrule`, and `replace` turns it into the same prefix followed by `\bottomrule` |
| Text.ReplaceAbsent | scripts/analysis_to_latex.py:118 | `replace` leaves a string without the pattern unchanged |
| Text.Capitalize | scripts/analysis_to_latex.py:53 | `capitalize` keeps the length, upper-cases the first character and lower-cases the rest |
| Text.LexLeCommonPrefix | scripts/analysis_to_latex.py:112 | a common prefix does not change Python's string order |
| Sorting.SortBy | scripts/analysis_to_latex.py:63-66 | `sorted` with a key comparison returns as many items as it got; `SortByPermutes`, `SortBySorted` and `SortedUnique` show that the result is the one ascending permutation of the input |
| Sorting.SortByPermutes | scripts/analysis_to_latex.py:63-66 | `sorted` returns a permutation of its input |
| Sorting.SortBySorted | scripts/analysis_to_latex.py:63-66 | under a total preorder, `sorted` returns an ascending sequence |
| Sorting.SortedUnique | scripts/analysis_to_latex.py:112 | under a total order there is only one ascending permutation of a sequence |
| Sorting.SortLexSpec | scripts/analysis_to_latex.py:66 | string sorting gives an ascending permutation that depends only on the multiset of its inputs |
| Latex.MidruleLineRewrites | scripts/analysis_to_latex.py:45 | the `    \midrule` line holds `\midrule` and is rewritten into `    \bottomrule` |
| Latex.RewriteWithoutMidrule | scripts/analysis_to_latex.py:117-118 | a line without `\midrule` is left unchanged by the rewrite |
| ClassificationReport.Lookup | scripts/analysis_to_latex.py:91 | `d.get(k)` finds a value exactly when k is a key, and the value found is stored under k |
| ClassificationReport.ClassKeys | scripts/analysis_to_latex.py:57-58 | no class key is reserved, and every other key occurs among the class keys as often as among the keys |
| ClassificationReport.ClassKeysExact | scripts/analysis_to_latex.py:57-58 | a key is a class key exactly when it is a key of the report other than `accuracy`, `macro avg` and `weighted avg` |
| ClassificationReport.SortClassKeys | scripts/analysis_to_latex.py:61-66 | the sort of the class keys keeps their number; `ClassKeyOrder` shows that it is by integer value when every key parses and by string order otherwise |
| ClassificationReport.ClassKeyOrder | scripts/analysis_to_latex.py:60-66 | the class-key order is a permutation of the class keys: ascending by integer value when every key parses, lexicographically sorted otherwise |
| ClassificationReport.LabelFor | scripts/analysis_to_latex.py:76-84 | the shown name is the key itself or one of the label names, and it is always defined; without label names, or for a key `int()` rejects, it is the key itself |
| ClassificationReport.LabelOfIndex | scripts/analysis_to_latex.py:77-80 | the key `str(i)` for a valid index i is shown as `label_names[i]` |
| ClassificationReport.LabelOfNegativeIndex | scripts/analysis_to_latex.py:77-80 | a key `-m` with 1 <= m <= the number of label names picks the m-th label from the end |
| ClassificationReport.LabelOutOfRange | scripts/analysis_to_latex.py:81-82 | an integer key that is not a valid index falls back to the key itself |
| ClassificationReport.LabelExamples | scripts/analysis_to_latex.py:76-84 | with labels ["female", "male"], `1` shows as `male`, while `5` and `female` show as themselves |
| ClassificationReport.WellShapedLookups | scripts/analysis_to_latex.py:69-70 | in a report the table can render, every class key and each average that is present holds statistics, and accuracy does not |
| ClassificationTable.Trunc | scripts/analysis_to_latex.py:87 | `int(x)` truncates toward zero |
| ClassificationTable.OrderedClassKeys | scripts/analysis_to_latex.py:56-66 | the table's class keys are a permutation of the class keys, and each of them holds statistics |
| ClassificationTable.SortedExits | scripts/analysis_to_latex.py:112 | the exits are shown in a permutation of the file's exit names |
| ClassificationTable.Block | scripts/analysis_to_latex.py:48-109 | an exit's block opens with its header and `\midrule` and closes with `\midrule`; `BlockShape` places every class row and summary line in it |
| ClassificationTable.RewriteLast | scripts/analysis_to_latex.py:115-119 | rewriting the last `\midrule` keeps the number of lines; `RewriteLastSpec` shows that only the last line holding `\midrule` changes, into `\bottomrule` |
| ClassificationTable.Table | scripts/analysis_to_latex.py:36-124 | the table ends with `\end{tabular}` and `\end{table}`; `TableShape` shows where the prelude, the blocks and the rewritten `\bottomrule` sit |
| ClassificationTable.LastMidrule | scripts/analysis_to_latex.py:116-117 | the index found holds `\midrule` and no later line does; when none is found, no line holds it |
| ClassificationTable.ReplaceLastMidrule | scripts/analysis_to_latex.py:115-119 | the backward loop with `break` computes `RewriteLast` |
| ClassificationTable.AppendClassRows | scripts/analysis_to_latex.py:68-88 | the class loop appends exactly the class rows, in key order |
| ClassificationTable.AppendSummaryRows | scripts/analysis_to_latex.py:90-106 | the accuracy step and the loop over the averages append exactly the summary lines |
| ClassificationTable.AddExitBlock | scripts/analysis_to_latex.py:48-109 | `add_exit_block` appends exactly the block of one exit |
| ClassificationTable.AppendBlocks | scripts/analysis_to_latex.py:111-113 | the exit loop appends the blocks of the exits, one after the other |
| ClassificationTable.MakeLatexTable | scripts/analysis_to_latex.py:36-124 | `make_latex_table` returns `Table`: the prelude and the blocks, with the last `\midrule` rewritten, then the two closing lines |
| ClassificationTableProperties.SummaryShape | scripts/analysis_to_latex.py:90-106 | the summary part holds the accuracy rule and row when accuracy is present and not null, then `macro avg`, then `weighted avg`, each only when present |
| ClassificationTableProperties.BlockShape | scripts/analysis_to_latex.py:52-109 | a block is a header, a rule, then one row per class key in table order, the summary lines, and a closing rule. Each class row shows the label and statistics of its key, with 0.0 and 0 for absent statistics |
| ClassificationTableProperties.BlocksEndWithMidrule | scripts/analysis_to_latex.py:109 | the blocks of a non-empty list of exits end with a `\midrule` line |
| ClassificationTableProperties.BlocksAppend | scripts/analysis_to_latex.py:112-113 | each exit name contributes exactly its own block, in the order of the names |
| ClassificationTableProperties.ExitOrder | scripts/analysis_to_latex.py:112 | exits appear in ascending string order, each once, in an order that depends only on the set of exit names |
| ClassificationTableProperties.Exit10BeforeExit2 | scripts/analysis_to_latex.py:112 | plain string order has `exit1` < `exit10` < `exit2` |
| ClassificationTableProperties.ExitsInStringOrder | scripts/analysis_to_latex.py:112 | exits named exit1, exit2 and exit10 are shown in the order exit1, exit10, exit2 |
| ClassificationTableProperties.RewriteLastSpec | scripts/analysis_to_latex.py:115-119 | only the last line holding `\midrule` changes, and it is rewritten; a table without such a line is unchanged |
| ClassificationTableProperties.TableShape | scripts/analysis_to_latex.py:45 | the body always ends with a `\midrule` line (the header's rule when there are no exits). That line is the only one rewritten, so the table is the body with its last line turned into `\bottomrule`, then the two closing lines |
| ClassificationCsv.EntryRecords | scripts/analysis_to_latex.py:165-209 | a (key, value) pair gives at most one record. It gives one exactly for accuracy or a dict value, and every record is well formed and names its exit |
| ClassificationCsv.EntryRecordFields | scripts/analysis_to_latex.py:167-208 | the accuracy record has empty statistics and `float(stats)` as accuracy. Any other dict gives a summary record exactly for a reserved key, named by its key, or a class record named by its label, with the statistics as they are and empty where absent. A non-dict gives no record |
| ClassificationCsv.FlattenEntries | scripts/analysis_to_latex.py:165-209 | every record of an exit names the exit and is well formed |
| ClassificationCsv.FlattenExits | scripts/analysis_to_latex.py:164-209 | every record names an exit of the file and is well formed |
| ClassificationCsv.AppendExitRecords | scripts/analysis_to_latex.py:165-209 | the inner loop, with its `continue`, appends exactly the records of one exit |
| ClassificationCsv.FlattenRecords | scripts/analysis_to_latex.py:161-209 | the nested loop builds `FlattenExits`: exit by exit, then key by key, in file order |
| ClassificationCsv.ClassNamesOfExit | scripts/analysis_to_latex.py:186-196 | the names of an exit's class records are the labels of its class keys, in file order |
| ClassificationCsv.CsvClassesMatchTable | scripts/analysis_to_latex.py:186-196 | the CSV's class records of an exit carry, up to order, the same labels as the table's class rows |
| ClassificationCsv.AccuracyRecorded | scripts/analysis_to_latex.py:167-180 | an accuracy x gives the record with empty statistics and accuracy x |
| ClassificationCsv.FlattenExitsAppend | scripts/analysis_to_latex.py:164 | splitting the exits in two splits the records the same way |
| AnalysisToLatex.MissingMessage | scripts/analysis_to_latex.py:155-158 | the abort message starts with the fixed prefix and names the analysis path |
| AnalysisToLatex.RunOutcome | scripts/analysis_to_latex.py:151-224 | a missing `classification_per_exit` stops the script with the message naming the file and nothing written. It stops with nothing written and a non-numeric-accuracy failure exactly when some accuracy is not a number. It stops with a malformed-entry failure exactly when every accuracy is a number but an entry the table reads is not a dict, and then the CSV of the whole block has been written. Otherwise the CSV of the block and `Table` are written |
| AnalysisToLatex.Run | scripts/analysis_to_latex.py:150-224 | `main` computes `RunOutcome` |
| AnalysisToLatex.WrittenOutputs | scripts/analysis_to_latex.py:115-124 | a written table ends with `\bottomrule` and the two closing lines, and every CSV record names an exit of the file |
| AnalysisToLatex.NullAccuracyAborts | scripts/analysis_to_latex.py:167-177 | a null accuracy, which the table alone would skip, stops the script in the CSV loop before anything is written |
| AnalysisToLatex.ScalarClassAbortsAfterCsv | scripts/analysis_to_latex.py:183-184 | a class entry holding a bare number is skipped by the CSV loop, then stops the table builder after the CSV is written |
| VariantAggregation.Group | scripts/variants_avg_to_latex.py:102 | a group is no longer than the file; `GroupCounts` gives each row of v its multiplicity in the file and every other row none |
| VariantAggregation.CountRuns | scripts/variants_avg_to_latex.py:105 | `n_runs` never exceeds the group size; `CountRunsAppend` and `CountRunsSingle` show that it counts the rows with a run id, one by one |
| VariantAggregation.GroupCounts | scripts/variants_avg_to_latex.py:102 | every row of variant v occurs in v's group as often as in the file, and no other row occurs in it |
| VariantAggregation.CountRunsAppend | scripts/variants_avg_to_latex.py:105 | the run count of two concatenated groups is the sum of their counts |
| VariantAggregation.CountRunsSingle | scripts/variants_avg_to_latex.py:105 | a single run counts once when it has a run id and not at all otherwise |
| VariantAggregation.PresentAppend | scripts/variants_avg_to_latex.py:106-112 | the values present in two concatenated groups are those of the first followed by those of the second |
| VariantAggregation.PresentSingle | scripts/variants_avg_to_latex.py:106-112 | a single run contributes its value of the metric when it has one and nothing otherwise |
| VariantAggregation.Summarize | scripts/variants_avg_to_latex.py:104-113 | the aggregate row of v is labelled v and counts at most as many runs as the file has; `SummaryMeans`, `MeanMissing` and `SummaryIsolation` give its means |
| VariantAggregation.Aggregate | scripts/variants_avg_to_latex.py:102-113 | row i of the aggregate is the summary (run count and means) of the group of the i-th variant key; `AggregateKeys` shows that the keys are exactly the variants of the file, sorted |
| VariantAggregation.Mean | scripts/variants_avg_to_latex.py:106-112 | the mean is defined exactly when some value is present, and the mean times the count is the sum |
| VariantAggregation.PresentVariants | scripts/variants_avg_to_latex.py:102 | the variant values listed are exactly those of the rows that have one |
| VariantAggregation.Distinct | scripts/variants_avg_to_latex.py:102 | it keeps every value of its input, each once |
| VariantAggregation.GroupMembers | scripts/variants_avg_to_latex.py:102 | a group holds exactly the rows with its variant value |
| VariantAggregation.PresentMembers | scripts/variants_avg_to_latex.py:106-112 | the present values of a metric are those of the rows that have it |
| VariantAggregation.SummaryMeans | scripts/variants_avg_to_latex.py:104-113 | each `*_mean` is the mean of the matching metric over the group |
| VariantAggregation.VariantsSpec | scripts/variants_avg_to_latex.py:102 | the group keys are the variant values of the file, each once, ascending |
| VariantAggregation.AggregateKeys | scripts/variants_avg_to_latex.py:102-113 | there is one aggregate row per variant value of the file and none for anything else, in strictly ascending order |
| VariantAggregation.SummaryIsolation | scripts/variants_avg_to_latex.py:102 | adding rows of other variants does not change a variant's aggregate |
| VariantAggregation.SummaryOfOwnRows | scripts/variants_avg_to_latex.py:102 | a variant's aggregate is that of its own rows alone |
| VariantAggregation.CountAllRuns | scripts/variants_avg_to_latex.py:105 | `n_runs` equals the group size exactly when every run has a run id |
| VariantAggregation.MeanBounds | scripts/variants_avg_to_latex.py:106-112 | a mean lies within any bounds of its values |
| VariantAggregation.MetricMeanBounds | scripts/variants_avg_to_latex.py:106-112 | when every present value of a metric in a group is within bounds, so is its mean |
| VariantAggregation.MeanMissing | scripts/variants_avg_to_latex.py:106-112 | a mean is missing exactly when no run of the group has the metric |
| VariantAggregation.MeanExample | scripts/variants_avg_to_latex.py:106 | accuracies 0.90, 0.92 and 0.94 average 0.92 |
| VariantsTable.FmtPctFrac | scripts/variants_avg_to_latex.py:36-42 | a number is shown times 100 with one decimal; missing, NaN and non-numeric values show as the placeholder |
| VariantsTable.FmtPct | scripts/variants_avg_to_latex.py:44-50 | a number is shown as it is with one decimal; anything else shows as the placeholder |
| VariantsTable.VariantRow | scripts/variants_avg_to_latex.py:32-60 | a data row has seven cells and starts with the variant; `RenderedSummary`, `RenderedMeans` and `MflopsNotRendered` give the other cells |
| VariantsTable.DefaultRunCount | scripts/variants_avg_to_latex.py:34 | a frame row without `n_runs` shows one run |
| VariantsTable.TableLines | scripts/variants_avg_to_latex.py:20-66 | the table has the eleven fixed lines and one line per frame row; `TableLayout` shows where each sits |
| VariantsTable.FracIsScaledPct | scripts/variants_avg_to_latex.py:36-50 | the scaled formatter is the unscaled one applied to the value times 100 |
| VariantsTable.FractionShownAsPercent | scripts/variants_avg_to_latex.py:36-42 | a fraction in [0, 1] is shown as a percentage in [0, 100] |
| VariantsTable.MflopsNotRendered | scripts/variants_avg_to_latex.py:52-59 | the two MFLOPS means do not affect the rendered row |
| VariantsTable.MakeLatexTable | scripts/variants_avg_to_latex.py:20-66 | the renderer loop returns `TableLines`: the header, one row per frame row, then the closing lines |
| VariantsTable.TableLayout | scripts/variants_avg_to_latex.py:20-64 | the table has eight header lines ending with `\midrule`, then one seven-cell row per frame row in frame order, then one `\bottomrule` and the two closing lines |
| VariantsTable.TableRowsPerVariant | scripts/variants_avg_to_latex.py:102-117 | the table of the aggregated frame has one data row per aggregated variant, in group order |
| VariantsTable.TableShowsAggregates | scripts/variants_avg_to_latex.py:32-117 | data row i of the table is the row of the i-th variant: it shows the variant, the number of its runs with a run id, and for each shown metric the placeholder exactly when no run has it and otherwise its mean (times 100 for fractions) |
| VariantsTable.RenderedSummary | scripts/variants_avg_to_latex.py:32-59 | when every policy accuracy of a variant is a fraction, its row shows the variant and its run count, and the accuracy cell is the placeholder exactly when none of its runs has a policy accuracy, a percentage in [0, 100] otherwise |
| VariantsTable.RenderedMeans | scripts/variants_avg_to_latex.py:52-59 | each of the accuracy, saving and three exit-rate cells of a variant's row is the placeholder exactly when no run of the variant has that column, and otherwise a number equal to the mean of the values present for the saving, and to 100 times that mean for the other four |
| VariantsTable.MeanShown | scripts/variants_avg_to_latex.py:36-56 | the cell of one shown metric is the placeholder exactly when no run of the variant has it, and otherwise its mean, scaled by 100 for a fraction |
| VariantsTable.MissingAggregated | scripts/variants_avg_to_latex.py:104-113 | the columns reported missing are exactly the aggregated columns the file lacks |
| VariantsTable.RunOutcome | scripts/variants_avg_to_latex.py:83-117 | a table is produced exactly when the file exists, has data rows, and has `variant` and every aggregated column; the table is `TableLines` of the aggregated frame. A missing-columns failure lists exactly the aggregated columns the file lacks, in their order, and at least one |
| VariantsTable.Run | scripts/variants_avg_to_latex.py:83-117 | `main` computes `RunOutcome` |
| VariantsTable.AbortsInOrder | scripts/variants_avg_to_latex.py:84-99 | a missing file, a file with no data rows and a missing `variant` column abort with their messages, in that order of precedence |

## Left out

- `adapters/audio_adapter.py` (`TinyAudioCNN`) is not part of this model. It is floating-point tensor code on PyTorch. Its shape contract is (B, 64) for the output and (B, 16), (B, 32) for the taps.
- File and console I/O are left out: `json.load`, `open`/`write`, `mkdir`, the existence check of the summary file, `pd.read_csv`, `to_csv`, `print`, argparse.
  - The models take the parsed contents and a `summaryExists` flag as parameters.
  - They return the records and lines that would be written.
- The `"\n".join(lines)` and the trailing newline written after it are left out: tables are kept as sequences of lines.
- Decimal rendering of floats (`:.3f`, `:.1f`) is left out. Cells carry the exact real value and a format tag.
- VariantAggregation.Mean: the mean is stated over exact reals. The binary floating-point rounding of pandas' sum and division is not modelled.
- JSON values other than objects, numbers and null are left out, and so are non-numeric statistics inside a statistics object.
  - An exit holding something that is not an object is not modelled.
  - Neither is a statistics field holding a string.
  - Such inputs make the script fail in ways that depend on Python's formatting.
- AnalysisToLatex.RunOutcome: a missing `classification_per_exit` key and a JSON null under it are one case, because `dict.get` does not tell them apart.
- Duplicate keys in a JSON object: `json.load` keeps only the last entry of a repeated key. The model keeps every entry: `Lookup` finds the first one, and the CSV flattening and the class keys visit each. On a file with a repeated key the model and the script can differ.
- VariantsTable.Empty: its `no columns` half stands for no frame `pd.read_csv` returns. A zero-byte file makes `read_csv` raise `EmptyDataError` at variants_avg_to_latex.py:90, which is not modelled; only a file with a header and no data rows reaches the `No rows` exit.
- Strings are treated as ASCII.
  - `isspace`, `lower`, `capitalize` and digit recognition in `int(s)` cover ASCII only.
  - Python's string order is modelled as comparison of code points.
- ClassificationReport.ClassKeyOrder: stability of the integer sort among keys with the same value (such as `1` and `01`) is modelled by the insertion sort, but not stated as a lemma.
- `add_exit_block`'s closure: it appends to the enclosing `lines`. Here it is a method that takes the lines and returns them extended.
- VariantsTable.RunOutcome: two kinds of input are not modelled.
  - A `variant` column whose values are not strings is not modelled. Variants are strings, so numeric variant labels sort as strings.
  - A non-numeric metric column, which makes pandas' `mean` raise, is not modelled.
- pandas mechanics beyond count and mean per group are left out, such as index handling and dtype coercion in `iterrows`.
  - The `n_runs` default of 1 is modelled on the renderer's input row.
  - The aggregated frame always has an `n_runs` column.
- Standard deviations are left out. The script names them but never computes them.
