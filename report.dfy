/**
 * `FileHandler.generate_report` of `bn_falkon/utils/file_handler.py`: one
 * HTML table per scan result, the tables joined by `<hr>`, and the page
 * template filled in by successive `str.replace` calls. The template and the
 * style sheet, which the source reads from files, are parameters, and the
 * page is returned instead of written to `output_file`.
 */
module Report {
  import opened Wrappers
  import opened Text

  /** One entry of `results`: its `title`, `rows` and `columns` keys. */
  datatype ScanResult = ScanResult(title: string, rows: seq<string>, columns: seq<string>)

  /** The `KeyError` raised by `results[i]` when index `i` is missing. */
  datatype ReportError = KeyError(index: int)

  // ---------------------------------------------------------------------
  // Placeholders and the table template
  // ---------------------------------------------------------------------

  const StylesSlot: string := "{styles}"
  const TargetSlot: string := "{target}"
  const TablesSlot: string := "{tables}"
  const TitleSlot: string := "{title}"
  const ColumnsSlot: string := "{columns}"
  const RowsSlot: string := "{rows}"

  // The literal text of `table_template` around its three placeholders.
  const TitleOpen: string := "\n<h2>"
  const TitleClose: string := "</h2>\n<table>\n\t<thead>\n\t\t"
  const HeadClose: string := "\n\t</thead>\n\t<tbody>\n\t\t"
  const BodyClose: string := "\n\t</tbody>\n</table>\n\t"

  const TableTemplate: string :=
    TitleOpen + TitleSlot + TitleClose + ColumnsSlot + HeadClose + RowsSlot + BodyClose

  /** The six placeholders are well formed and pairwise different. */
  lemma SlotsWellFormed()
    ensures Placeholder(StylesSlot) && Placeholder(TargetSlot) && Placeholder(TablesSlot)
    ensures Placeholder(TitleSlot) && Placeholder(ColumnsSlot) && Placeholder(RowsSlot)
    ensures StylesSlot != TargetSlot && StylesSlot != TablesSlot && TargetSlot != TablesSlot
    ensures TitleSlot != ColumnsSlot && TitleSlot != RowsSlot && ColumnsSlot != RowsSlot
  {
    assert StylesSlot[1] != TargetSlot[1] && StylesSlot[1] != TablesSlot[1];
    assert TargetSlot[3] != TablesSlot[3];
    assert TitleSlot[1] != ColumnsSlot[1] && TitleSlot[1] != RowsSlot[1];
    assert ColumnsSlot[1] != RowsSlot[1];
  }

  // ---------------------------------------------------------------------
  // Cells and rows
  // ---------------------------------------------------------------------

  /** `"".join(f"<tag>{elem}</tag>\n" for elem in elems)`. */
  function Cells(tag: string, elems: seq<string>): string
    decreases |elems|
  {
    if elems == [] then ""
    else "<" + tag + ">" + elems[0] + "</" + tag + ">\n" + Cells(tag, elems[1..])
  }

  /** A table row: `<tr>`, one `tag` cell per element in order, `</tr>`. */
  function Row(tag: string, elems: seq<string>): (r: string)
    ensures |r| >= 9 && r[..4] == "<tr>" && r[|r| - 5..] == "</tr>"
  {
    "<tr>" + Cells(tag, elems) + "</tr>"
  }

  /** The header row: one `<th>` cell per column. */
  function HeaderRow(columns: seq<string>): string {
    Row("th", columns)
  }

  /** The body row: one `<td>` cell per row entry. */
  function BodyRow(rows: seq<string>): string {
    Row("td", rows)
  }

  /** Cells of a concatenation are the cells of each part, in order. */
  lemma {:induction false} CellsAppend(tag: string, xs: seq<string>, ys: seq<string>)
    ensures Cells(tag, xs + ys) == Cells(tag, xs) + Cells(tag, ys)
    decreases |xs|
  {
    if xs == [] {
      assert xs + ys == ys;
    } else {
      assert (xs + ys)[0] == xs[0];
      assert (xs + ys)[1..] == xs[1..] + ys;
      CellsAppend(tag, xs[1..], ys);
    }
  }

  /** One cell per element: the cells of a single element. */
  lemma CellsSingle(tag: string, x: string)
    ensures Cells(tag, [x]) == "<" + tag + ">" + x + "</" + tag + ">\n"
  {
    assert [x][1..] == [];
  }

  /** Cells hold a `{` only if some element does. */
  lemma {:induction false} CellsBraceFree(tag: string, elems: seq<string>)
    requires '{' !in tag
    requires forall k :: 0 <= k < |elems| ==> '{' !in elems[k]
    ensures '{' !in Cells(tag, elems)
    decreases |elems|
  {
    if elems != [] {
      CellsBraceFree(tag, elems[1..]);
    }
  }

  /** Text that starts with `<` and ends with `>` is not changed by `strip()`. */
  lemma RowSurvivesStrip(open: string, cells: string, close: string)
    requires open != [] && open[0] == '<'
    requires close != [] && close[|close| - 1] == '>'
    ensures Strip(open + cells + close) == open + cells + close
  {
    var s := open + cells + close;
    assert s[0] == '<';
    assert s[|s| - 1] == '>';
    assert !IsSpace('<') && !IsSpace('>');
    StripKeeps(s);
  }

  /** Both rows start with `<` and end with `>`, so `strip()` leaves them as they are. */
  lemma RowsSurviveStrip(rows: seq<string>, columns: seq<string>)
    ensures Strip(HeaderRow(columns)) == HeaderRow(columns)
    ensures Strip(BodyRow(rows)) == BodyRow(rows)
  {
    RowSurvivesStrip("<tr>", Cells("th", columns), "</tr>");
    RowSurvivesStrip("<tr>", Cells("td", rows), "</tr>");
  }

  // ---------------------------------------------------------------------
  // One table
  // ---------------------------------------------------------------------

  /** The table of one result: `{columns}`, then `{rows}`, then `{title}` substituted. */
  function TableHtml(r: ScanResult): string {
    var columns := HeaderRow(r.columns);
    var rows := BodyRow(r.rows);
    ReplaceAll(ReplaceAll(ReplaceAll(TableTemplate, ColumnsSlot, Strip(columns)), RowsSlot, Strip(rows)),
      TitleSlot, r.title)
  }

  /**
   * What the table proof needs of the literal text around the placeholders:
   * no `{` anywhere, and a line break at the start of the text that follows
   * the header row and the body row.
   */
  predicate TemplateText(o: string, tc: string, hc: string, bc: string) {
    '{' !in o && '{' !in tc && '{' !in hc && '{' !in bc &&
    hc != [] && hc[0] == '\n' && bc != [] && bc[0] == '\n'
  }

  /** The text of `table_template` meets `TemplateText`. */
  lemma TableTextHolds()
    ensures TemplateText(TitleOpen, TitleClose, HeadClose, BodyClose)
  {
  }

  /** Substituting `{columns}` fills its slot and leaves the other placeholders. */
  lemma TableColumnsStep(o: string, tc: string, hc: string, bc: string, cols: string)
    requires TemplateText(o, tc, hc, bc)
    ensures ReplaceAll(o + TitleSlot + tc + ColumnsSlot + hc + RowsSlot + bc, ColumnsSlot, cols) ==
      o + TitleSlot + tc + cols + hc + RowsSlot + bc
  {
    var p := ColumnsSlot;
    var tail := hc + (RowsSlot + bc);
    var mid := tc + (p + tail);
    assert ReplaceAll(tail, p, cols) == tail by {
      SlotsWellFormed();
      ReplaceWithoutFirstChar(bc, p, cols);
      PlaceholderKept(hc, RowsSlot, bc, p, cols);
    }
    assert ReplaceAll(mid, p, cols) == tc + (cols + tail) by {
      ReplaceSkipsPrefix(tc, p + tail, p, cols);
      ReplaceAtFront(p, tail, cols);
    }
    assert ReplaceAll(o + (TitleSlot + mid), p, cols) == o + (TitleSlot + ReplaceAll(mid, p, cols)) by {
      SlotsWellFormed();
      ReplaceSkipsPrefix(o, TitleSlot + mid, p, cols);
      PlaceholderSurvives(TitleSlot, mid, p, cols);
    }
    Regroup(o, TitleSlot, tc, p, hc, RowsSlot, bc);
    Regroup(o, TitleSlot, tc, cols, hc, RowsSlot, bc);
  }

  /** Substituting `{rows}` fills its slot, and also any `{rows}` inside the header row. */
  lemma TableRowsStep(o: string, tc: string, hc: string, bc: string, cols: string, rows: string)
    requires TemplateText(o, tc, hc, bc)
    ensures ReplaceAll(o + TitleSlot + tc + cols + hc + RowsSlot + bc, RowsSlot, rows) ==
      o + TitleSlot + tc + ReplaceAll(cols, RowsSlot, rows) + hc + rows + bc
  {
    var p := RowsSlot;
    var after := hc + (p + bc);
    assert ReplaceAll(after, p, rows) == hc + (rows + bc) by {
      ReplaceSkipsPrefix(hc, p + bc, p, rows);
      ReplaceAtFront(p, bc, rows);
      ReplaceWithoutFirstChar(bc, p, rows);
    }
    assert ReplaceAll(cols + after, p, rows) == ReplaceAll(cols, p, rows) + ReplaceAll(after, p, rows) by {
      assert after[0] == '\n' && '\n' !in p;
      ReplaceSplits(cols, after, p, rows);
    }
    var x := cols + after;
    assert ReplaceAll(o + (TitleSlot + (tc + x)), p, rows) == o + (TitleSlot + (tc + ReplaceAll(x, p, rows))) by {
      SlotsWellFormed();
      ReplaceSkipsPrefix(o, TitleSlot + (tc + x), p, rows);
      PlaceholderSurvives(TitleSlot, tc + x, p, rows);
      ReplaceSkipsPrefix(tc, x, p, rows);
    }
    Regroup(o, TitleSlot, tc, cols, hc, p, bc);
    Regroup(o, TitleSlot, tc, ReplaceAll(cols, p, rows), hc, rows, bc);
  }

  /** Substituting `{title}` last fills its slot and rescans only the two rows. */
  lemma TableTitleStep(o: string, tc: string, hc: string, bc: string, cols: string, rows: string, title: string)
    requires TemplateText(o, tc, hc, bc)
    ensures ReplaceAll(o + TitleSlot + tc + cols + hc + rows + bc, TitleSlot, title) ==
      o + title + tc + ReplaceAll(cols, TitleSlot, title) + hc +
      ReplaceAll(rows, TitleSlot, title) + bc
  {
    var p := TitleSlot;
    var inner := rows + bc;
    assert ReplaceAll(inner, p, title) == ReplaceAll(rows, p, title) + bc by {
      assert bc[0] == '\n' && '\n' !in p;
      ReplaceSplits(rows, bc, p, title);
      ReplaceWithoutFirstChar(bc, p, title);
    }
    var y := cols + (hc + inner);
    assert ReplaceAll(y, p, title) == ReplaceAll(cols, p, title) + (hc + ReplaceAll(inner, p, title)) by {
      assert (hc + inner)[0] == '\n' && '\n' !in p;
      ReplaceSplits(cols, hc + inner, p, title);
      ReplaceSkipsPrefix(hc, inner, p, title);
    }
    assert ReplaceAll(o + (p + (tc + y)), p, title) == o + (title + (tc + ReplaceAll(y, p, title))) by {
      ReplaceSkipsPrefix(o, p + (tc + y), p, title);
      ReplaceAtFront(p, tc + y, title);
      ReplaceSkipsPrefix(tc, y, p, title);
    }
    Regroup(o, p, tc, cols, hc, rows, bc);
    Regroup(o, title, tc, ReplaceAll(cols, p, title), hc, ReplaceAll(rows, p, title), bc);
  }

  /**
   * The table in closed form. The title is inserted verbatim, even when it
   * holds `{rows}` or `{columns}`; a `{rows}` inside a header cell is filled
   * with the body row, and a `{title}` inside any cell with the title.
   */
  lemma TableLayout(r: ScanResult)
    ensures TableHtml(r) ==
      TitleOpen + r.title + TitleClose +
      ReplaceAll(ReplaceAll(HeaderRow(r.columns), RowsSlot, BodyRow(r.rows)), TitleSlot, r.title) +
      HeadClose + ReplaceAll(BodyRow(r.rows), TitleSlot, r.title) + BodyClose
  {
    TableWithoutStrip(r);
    TableFromRows(HeaderRow(r.columns), BodyRow(r.rows), r.title);
  }

  /** `strip()` on the rows is a no-op, so the table is built from the rows themselves. */
  lemma TableWithoutStrip(r: ScanResult)
    ensures TableHtml(r) == ReplaceAll(ReplaceAll(ReplaceAll(TableTemplate, ColumnsSlot, HeaderRow(r.columns)),
      RowsSlot, BodyRow(r.rows)), TitleSlot, r.title)
  {
    RowsSurviveStrip(r.rows, r.columns);
  }

  /** The three substitutions on the table template, for any header and body row. */
  lemma TableFromRows(cols: string, rows: string, title: string)
    ensures ReplaceAll(ReplaceAll(ReplaceAll(TableTemplate, ColumnsSlot, cols), RowsSlot, rows), TitleSlot, title) ==
      TitleOpen + title + TitleClose + ReplaceAll(ReplaceAll(cols, RowsSlot, rows), TitleSlot, title) +
      HeadClose + ReplaceAll(rows, TitleSlot, title) + BodyClose
  {
    var o, tc, hc, bc := TitleOpen, TitleClose, HeadClose, BodyClose;
    TableTextHolds();
    TableColumnsStep(o, tc, hc, bc, cols);
    TableRowsStep(o, tc, hc, bc, cols, rows);
    TableTitleStep(o, tc, hc, bc, ReplaceAll(cols, RowsSlot, rows), rows, title);
  }

  /** When no cell holds a `{`, the table is the template with its three slots filled in place. */
  lemma TableLiteral(r: ScanResult)
    requires forall k :: 0 <= k < |r.columns| ==> '{' !in r.columns[k]
    requires forall k :: 0 <= k < |r.rows| ==> '{' !in r.rows[k]
    ensures TableHtml(r) ==
      TitleOpen + r.title + TitleClose + HeaderRow(r.columns) + HeadClose + BodyRow(r.rows) + BodyClose
  {
    var cols := HeaderRow(r.columns);
    var rows := BodyRow(r.rows);
    assert '{' !in cols && '{' !in rows by {
      CellsBraceFree("th", r.columns);
      CellsBraceFree("td", r.rows);
    }
    assert ReplaceAll(ReplaceAll(cols, RowsSlot, rows), TitleSlot, r.title) == cols by {
      ReplaceWithoutFirstChar(cols, RowsSlot, rows);
      ReplaceWithoutFirstChar(cols, TitleSlot, r.title);
    }
    assert ReplaceAll(rows, TitleSlot, r.title) == rows by {
      ReplaceWithoutFirstChar(rows, TitleSlot, r.title);
    }
    TableLayout(r);
  }

  // ---------------------------------------------------------------------
  // The page
  // ---------------------------------------------------------------------

  const StyleOpen: string := "<style>"
  const StyleClose: string := "</style>"

  /** What replaces `{styles}`: the style sheet inside a `<style>` element. */
  function StyleBlock(styles: string): (r: string)
    ensures |r| == |styles| + 15 && r[7..7 + |styles|] == styles
  {
    StyleOpen + styles + StyleClose
  }

  /** The style tags hold no `{`, and `<` occurs in neither of the later placeholders. */
  lemma StyleTagsText()
    ensures '{' !in StyleOpen && '{' !in StyleClose && StyleClose != [] && StyleClose[0] == '<'
    ensures TargetSlot[0] == '{' && '<' !in TargetSlot && TablesSlot[0] == '{' && '<' !in TablesSlot
  {
  }

  /** The report: `{styles}`, then `{target}`, then `{tables}` (the tables joined by `<hr>`). */
  function Page(template: string, styles: string, target: string, tables: seq<string>): string {
    ReplaceAll(ReplaceAll(ReplaceAll(template, StylesSlot, StyleBlock(styles)), TargetSlot, target),
      TablesSlot, Join(tables, "<hr>"))
  }

  /** A template without placeholders is the report itself. */
  lemma PageWithoutSlots(template: string, styles: string, target: string, tables: seq<string>)
    requires !Contains(template, StylesSlot) && !Contains(template, TargetSlot)
    requires !Contains(template, TablesSlot)
    ensures Page(template, styles, target, tables) == template
  {
    ReplaceAbsent(template, StylesSlot, StyleBlock(styles));
    ReplaceAbsent(template, TargetSlot, target);
    ReplaceAbsent(template, TablesSlot, Join(tables, "<hr>"));
  }

  /**
   * For a template with one of each placeholder, in the order `{styles}`,
   * `{target}`, `{tables}`, and no other `{`, and a target without `{`, the
   * report is the template with the three slots filled in place. The style
   * sheet may hold anything: a `{target}` or `{tables}` inside it is filled
   * too, because it is in the text when those are substituted. The tables
   * are inserted verbatim whatever they contain, because `{tables}` is
   * substituted last.
   */
  lemma PageLayout(a: string, b: string, c: string, d: string, styles: string, target: string,
                   tables: seq<string>)
    requires '{' !in a && '{' !in b && '{' !in c && '{' !in d
    requires '{' !in target
    ensures Page(a + StylesSlot + b + TargetSlot + c + TablesSlot + d, styles, target, tables) ==
      a + StyleBlock(ReplaceAll(ReplaceAll(styles, TargetSlot, target), TablesSlot, Join(tables, "<hr>"))) +
      b + target + c + Join(tables, "<hr>") + d
  {
    var all := Join(tables, "<hr>");
    PageStylesStep(a, b, c, d, StyleBlock(styles));
    PageTargetStepStyled(a, styles, b, c, d, target);
    PageTablesStepStyled(a, ReplaceAll(styles, TargetSlot, target), b, target, c, d, all);
  }

  /** A style sheet that holds neither `{target}` nor `{tables}` is copied into the report as it is. */
  lemma PagePlainStyles(a: string, b: string, c: string, d: string, styles: string, target: string,
                        tables: seq<string>)
    requires '{' !in a && '{' !in b && '{' !in c && '{' !in d
    requires '{' !in target
    requires !Contains(styles, TargetSlot) && !Contains(styles, TablesSlot)
    ensures Page(a + StylesSlot + b + TargetSlot + c + TablesSlot + d, styles, target, tables) ==
      a + StyleBlock(styles) + b + target + c + Join(tables, "<hr>") + d
  {
    PageLayout(a, b, c, d, styles, target, tables);
    ReplaceAbsent(styles, TargetSlot, target);
    ReplaceAbsent(styles, TablesSlot, Join(tables, "<hr>"));
  }

  /** Nine pieces of text with a style block among them, grouped around the style sheet. */
  lemma RegroupStyled(a: string, o: string, x: string, e: string, b: string, q: string, c: string,
                      r: string, d: string)
    ensures a + (o + x + e) + b + q + c + r + d == (a + o) + x + e + (b + q + c + r + d)
  {
  }

  /** Substituting `{target}` fills its slot and any `{target}` in the style sheet, and leaves `{tables}`. */
  lemma PageTargetStepStyled(a: string, styles: string, b: string, c: string, d: string, target: string)
    requires '{' !in a && '{' !in b && '{' !in c && '{' !in d
    ensures ReplaceAll(a + StyleBlock(styles) + b + TargetSlot + c + TablesSlot + d, TargetSlot, target) ==
      a + StyleBlock(ReplaceAll(styles, TargetSlot, target)) + b + target + c + TablesSlot + d
  {
    var p := TargetSlot;
    StyleTagsText();
    assert '{' !in a + StyleOpen;
    RegroupStyled(a, StyleOpen, styles, StyleClose, b, p, c, TablesSlot, d);
    ReplaceInside(a + StyleOpen, styles, StyleClose, b + p + c + TablesSlot + d, p, target);
    PageTargetStep(b, c, d, target);
    RegroupStyled(a, StyleOpen, ReplaceAll(styles, p, target), StyleClose, b, target, c, TablesSlot, d);
  }

  /** Substituting `{tables}` fills its slot and any `{tables}` in the style sheet. */
  lemma PageTablesStepStyled(a: string, styles: string, b: string, target: string, c: string, d: string,
                             all: string)
    requires '{' !in a && '{' !in b && '{' !in c && '{' !in d && '{' !in target
    ensures ReplaceAll(a + StyleBlock(styles) + b + target + c + TablesSlot + d, TablesSlot, all) ==
      a + StyleBlock(ReplaceAll(styles, TablesSlot, all)) + b + target + c + all + d
  {
    var p := TablesSlot;
    StyleTagsText();
    assert '{' !in a + StyleOpen;
    assert '{' !in b + target + c;
    RegroupStyled(a, StyleOpen, styles, StyleClose, b, target, c, p, d);
    ReplaceInside(a + StyleOpen, styles, StyleClose, b + target + c + p + d, p, all);
    PageTablesStep(b + target + c, d, all);
    RegroupStyled(a, StyleOpen, ReplaceAll(styles, p, all), StyleClose, b, target, c, all, d);
  }

  /** Seven pieces of text, concatenated left to right or nested to the right. */
  lemma Regroup(a: string, p: string, b: string, q: string, c: string, r: string, d: string)
    ensures a + p + b + q + c + r + d == a + (p + (b + (q + (c + (r + d)))))
  {
  }

  /** Five pieces of text, concatenated left to right or nested to the right. */
  lemma RegroupFive(a: string, p: string, c: string, r: string, d: string)
    ensures a + p + c + r + d == a + (p + (c + (r + d)))
  {
  }

  /** Substituting `{styles}` fills its slot and leaves the other two. */
  lemma PageStylesStep(a: string, b: string, c: string, d: string, st: string)
    requires '{' !in a && '{' !in b && '{' !in c && '{' !in d
    ensures ReplaceAll(a + StylesSlot + b + TargetSlot + c + TablesSlot + d, StylesSlot, st) ==
      a + st + b + TargetSlot + c + TablesSlot + d
  {
    var p := StylesSlot;
    var tail := c + (TablesSlot + d);
    var rest := b + (TargetSlot + tail);
    assert ReplaceAll(rest, p, st) == rest by {
      SlotsWellFormed();
      ReplaceWithoutFirstChar(d, p, st);
      PlaceholderKept(c, TablesSlot, d, p, st);
      PlaceholderKept(b, TargetSlot, tail, p, st);
    }
    assert ReplaceAll(a + (p + rest), p, st) == a + (st + rest) by {
      ReplaceSkipsPrefix(a, p + rest, p, st);
      ReplaceAtFront(p, rest, st);
    }
    Regroup(a, p, b, TargetSlot, c, TablesSlot, d);
    Regroup(a, st, b, TargetSlot, c, TablesSlot, d);
  }

  /** Substituting `{target}` after the styles fills its slot and leaves `{tables}`. */
  lemma PageTargetStep(head: string, c: string, d: string, target: string)
    requires '{' !in head && '{' !in c && '{' !in d
    ensures ReplaceAll(head + TargetSlot + c + TablesSlot + d, TargetSlot, target) ==
      head + target + c + TablesSlot + d
  {
    var p := TargetSlot;
    var tail := c + (TablesSlot + d);
    assert ReplaceAll(tail, p, target) == tail by {
      SlotsWellFormed();
      ReplaceWithoutFirstChar(d, p, target);
      PlaceholderKept(c, TablesSlot, d, p, target);
    }
    assert ReplaceAll(head + (p + tail), p, target) == head + (target + tail) by {
      ReplaceSkipsPrefix(head, p + tail, p, target);
      ReplaceAtFront(p, tail, target);
    }
    RegroupFive(head, p, c, TablesSlot, d);
    RegroupFive(head, target, c, TablesSlot, d);
  }

  /** Substituting `{tables}` last inserts the joined tables verbatim. */
  lemma PageTablesStep(head: string, d: string, all: string)
    requires '{' !in head && '{' !in d
    ensures ReplaceAll(head + TablesSlot + d, TablesSlot, all) == head + all + d
  {
    var p := TablesSlot;
    assert head + p + d == head + (p + d);
    ReplaceSkipsPrefix(head, p + d, p, all);
    ReplaceAtFront(p, d, all);
    ReplaceWithoutFirstChar(d, p, all);
  }

  // ---------------------------------------------------------------------
  // The results dictionary
  // ---------------------------------------------------------------------

  /** `results[i]` succeeds for every `i` in `range(len(results))`. */
  predicate DenseKeys(results: map<int, ScanResult>) {
    forall i :: 0 <= i < |results| ==> i in results
  }

  /** The entries in the order the loop visits them. */
  function Ordered(results: map<int, ScanResult>): (rs: seq<ScanResult>)
    requires DenseKeys(results)
    ensures |rs| == |results|
    ensures forall i :: 0 <= i < |rs| ==> rs[i] == results[i]
  {
    seq(|results|, i requires 0 <= i < |results| => results[i])
  }

  /** One table per entry, in the same order. */
  function Tables(rs: seq<ScanResult>): (ts: seq<string>)
    ensures |ts| == |rs|
    ensures forall i :: 0 <= i < |rs| ==> ts[i] == TableHtml(rs[i])
  {
    seq(|rs|, i requires 0 <= i < |rs| => TableHtml(rs[i]))
  }

  /** The integers from 0 up to, but not including, `n`. */
  function Range(n: nat): (s: set<int>)
    ensures |s| == n
    ensures forall i :: i in s <==> 0 <= i < n
  {
    if n == 0 then {} else Range(n - 1) + {n - 1}
  }

  /** Every lookup succeeds exactly when the keys are `0 .. len(results) - 1`. */
  lemma DenseKeysExactly(results: map<int, ScanResult>)
    ensures DenseKeys(results) <==> results.Keys == Range(|results|)
  {
    var r := Range(|results|);
    if DenseKeys(results) {
      assert r <= results.Keys;
      var extra := results.Keys - r;
      assert results.Keys == r + extra;
      assert r !! extra;
      assert |results.Keys| == |r| + |extra|;
      assert |results.Keys| == |results|;
      assert extra == {};
    }
  }

  /** With no results, `{tables}` is replaced by the empty string. */
  lemma NoResultsNoTables(results: map<int, ScanResult>)
    requires |results| == 0
    ensures DenseKeys(results) && Join(Tables(Ordered(results)), "<hr>") == ""
  {
  }

  /**
   * The loop's progress: every index below `|tables|` is a key, and
   * `tables` holds `table` of each of those entries in index order. The
   * table function is a parameter so that the proofs about the loop's
   * bookkeeping need not unfold `TableHtml`, whose template is a literal.
   */
  predicate Built(results: map<int, ScanResult>, tables: seq<string>, table: ScanResult -> string) {
    && |tables| <= |results|
    && (forall j :: 0 <= j < |tables| ==> j in results && tables[j] == table(results[j]))
  }

  /** Appending the table of the next entry keeps `Built`. */
  lemma BuiltPush(results: map<int, ScanResult>, tables: seq<string>, table: ScanResult -> string, t: string)
    requires Built(results, tables, table) && |tables| < |results|
    requires |tables| in results && t == table(results[|tables|])
    ensures Built(results, tables + [t], table)
  {
  }

  /** Once every entry has its table, the keys are dense and the list is `Tables` of the entries. */
  lemma BuiltAll(results: map<int, ScanResult>, tables: seq<string>)
    requires Built(results, tables, TableHtml) && |tables| == |results|
    ensures DenseKeys(results) && tables == Tables(Ordered(results))
  {
  }

  // ---------------------------------------------------------------------
  // generate_report
  // ---------------------------------------------------------------------

  /**
   * `generate_report(target, results, output_file)` with the template and
   * the style sheet given: the report, or the `KeyError` of the first index
   * of `range(len(results))` that `results` lacks.
   */
  method GenerateReport(target: string, results: map<int, ScanResult>, template: string, styles: string)
    returns (r: Result<string, ReportError>)
    ensures r.Success? <==> DenseKeys(results)
    ensures r.Failure? ==> 0 <= r.error.index < |results| && r.error.index !in results
    ensures r.Failure? ==> forall j :: 0 <= j < r.error.index ==> j in results
    ensures r.Success? ==> r.value == Page(template, styles, target, Tables(Ordered(results)))
  {
    var finalReport := ReplaceAll(ReplaceAll(template, StylesSlot, StyleBlock(styles)), TargetSlot, target);
    var tables: seq<string> := [];
    var i := 0;
    while i < |results|
      invariant i == |tables| && Built(results, tables, TableHtml)
    {
      if i !in results {
        return Failure(KeyError(i));
      }
      var entry := results[i];
      var rows := BodyRow(entry.rows);
      var columns := HeaderRow(entry.columns);
      var table := ReplaceAll(ReplaceAll(ReplaceAll(TableTemplate, ColumnsSlot, Strip(columns)),
        RowsSlot, Strip(rows)), TitleSlot, entry.title);
      BuiltPush(results, tables, TableHtml, table);
      tables := tables + [table];
      i := i + 1;
    }
    BuiltAll(results, tables);
    finalReport := ReplaceAll(finalReport, TablesSlot, Join(tables, "<hr>"));
    return Success(finalReport);
  }
}
