/**
 * The lines of a LaTeX table as the report scripts build them. A line is
 * either fixed text or a table row whose cells are joined with " & ",
 * indented by four spaces and closed with " \\". Numeric cells are kept
 * abstract: `Fixed3(x)` stands for Python's `f"{x:.3f}"`, `Fixed1(x)` for
 * `f"{x:.1f}"`, `Int(n)` for `f"{n}"` of an int, and `Spanning3(x)` for the
 * accuracy cell `\multicolumn{3}{r}{x:.3f}`. None of these renderings
 * contains `\midrule`, so a line contains `\midrule` exactly when one of its
 * texts does.
 */
module Latex {
  import Text

  datatype Cell =
    | Lit(text: string)
    | Fixed3(x: real)
    | Fixed1(x: real)
    | Int(n: int)
    | Spanning3(x: real)

  datatype Line = Plain(s: string) | Row(cells: seq<Cell>)

  /** The placeholder the scripts print for a value they cannot show. */
  const Dash: Cell := Lit("--")

  const Midrule: string := @"\midrule"
  const Bottomrule: string := @"\bottomrule"

  /** The four spaces that indent every line inside the tabular. */
  const Indent: string := "    "

  const MidruleLine: Line := Plain(Indent + Midrule)
  const BottomruleLine: Line := Plain(Indent + Bottomrule)

  /** Python's `r"\midrule" in line`. */
  predicate HasMidrule(line: Line) {
    match line
    case Plain(s) => Text.Contains(s, Midrule)
    case Row(cells) => exists i | 0 <= i < |cells| :: cells[i].Lit? && Text.Contains(cells[i].text, Midrule)
  }

  function RewriteCell(c: Cell): Cell {
    match c
    case Lit(t) => Lit(Text.ReplaceAll(t, Midrule, Bottomrule))
    case _ => c
  }

  /** Python's `line.replace(r"\midrule", r"\bottomrule")`. */
  function Rewrite(line: Line): Line {
    match line
    case Plain(s) => Plain(Text.ReplaceAll(s, Midrule, Bottomrule))
    case Row(cells) => Row(seq(|cells|, i requires 0 <= i < |cells| => RewriteCell(cells[i])))
  }

  /** A rule line contains `\midrule` and the rewrite turns it into the closing rule. */
  lemma MidruleLineRewrites()
    ensures HasMidrule(MidruleLine)
    ensures Rewrite(MidruleLine) == BottomruleLine
  {
    Text.ReplaceAfterPrefix(Indent, Midrule, Bottomrule);
  }

  /** A line without `\midrule` is left as it is by the rewrite. */
  lemma RewriteWithoutMidrule(line: Line)
    requires !HasMidrule(line)
    ensures Rewrite(line) == line
  {
    match line
    case Plain(s) =>
      Text.ReplaceAbsent(s, Midrule, Bottomrule);
    case Row(cells) =>
      forall i | 0 <= i < |cells| ensures RewriteCell(cells[i]) == cells[i] {
        if cells[i].Lit? {
          Text.ReplaceAbsent(cells[i].text, Midrule, Bottomrule);
        }
      }
  }
}
