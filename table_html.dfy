/** `table_to_html`: the serialisation of a recognised table into HTML, with
    rows taken in row-index order, the cells of each row stably sorted by
    column index, and the content of every cell HTML-escaped. */
module TableHtml {
  import opened TextUtil

  datatype Cell = Cell(rowIndex: int, columnIndex: int, kind: string,
                       columnSpan: int, rowSpan: int, content: string)

  datatype Table = Table(rowCount: int, cells: seq<Cell>)

  // ---------------------------------------------------------------------------
  // Rows: the cells of one row index, sorted by column

  /** `[cell for cell in cells if cell.row_index == i]`. */
  function CellsInRow(cells: seq<Cell>, i: int): (r: seq<Cell>)
    ensures forall c :: c in r <==> c in cells && c.rowIndex == i
    ensures forall c :: multiset(r)[c] == if c.rowIndex == i then multiset(cells)[c] else 0
  {
    if cells == [] then []
    else
      assert cells == [cells[0]] + cells[1..];
      if cells[0].rowIndex == i then [cells[0]] + CellsInRow(cells[1..], i)
      else CellsInRow(cells[1..], i)
  }

  /** The cells of `cells` in column `k`, in their original order. */
  function InColumn(cells: seq<Cell>, k: int): seq<Cell> {
    if cells == [] then []
    else if cells[0].columnIndex == k then [cells[0]] + InColumn(cells[1..], k)
    else InColumn(cells[1..], k)
  }

  predicate SortedByColumn(cells: seq<Cell>) {
    forall i, j | 0 <= i < j < |cells| :: cells[i].columnIndex <= cells[j].columnIndex
  }

  /** Puts `c` in front of the first cell whose column is not smaller, so that
      it precedes the cells of its own column that came after it. */
  function Insert(c: Cell, cells: seq<Cell>): (r: seq<Cell>)
    ensures multiset(r) == multiset(cells) + multiset{c}
    ensures |r| == |cells| + 1
  {
    if cells == [] || c.columnIndex <= cells[0].columnIndex then [c] + cells
    else
      assert cells == [cells[0]] + cells[1..];
      [cells[0]] + Insert(c, cells[1..])
  }

  /** `sorted(cells, key=lambda cell: cell.column_index)`, which is stable. */
  function SortByColumn(cells: seq<Cell>): (r: seq<Cell>)
    ensures multiset(r) == multiset(cells)
    ensures |r| == |cells|
  {
    if cells == [] then []
    else
      assert cells == [cells[0]] + cells[1..];
      Insert(cells[0], SortByColumn(cells[1..]))
  }

  lemma {:induction false} InsertSorted(c: Cell, cells: seq<Cell>)
    requires SortedByColumn(cells)
    ensures SortedByColumn(Insert(c, cells))
    decreases |cells|
  {
    var r := Insert(c, cells);
    if cells == [] || c.columnIndex <= cells[0].columnIndex {
      assert forall j | 1 <= j < |r| :: r[j] == cells[j - 1];
    } else {
      var tail := cells[1..];
      assert SortedByColumn(tail);
      InsertSorted(c, tail);
      var rest := Insert(c, tail);
      assert r == [cells[0]] + rest;
      forall j | 0 < j < |r|
        ensures cells[0].columnIndex <= r[j].columnIndex
      {
        assert r[j] in multiset(rest);
        assert r[j] in multiset(tail) + multiset{c};
        if r[j] != c {
          assert r[j] in tail;
        }
      }
    }
  }

  lemma {:induction false} SortByColumnSorted(cells: seq<Cell>)
    ensures SortedByColumn(SortByColumn(cells))
    decreases |cells|
  {
    if cells != [] {
      SortByColumnSorted(cells[1..]);
      InsertSorted(cells[0], SortByColumn(cells[1..]));
    }
  }

  lemma {:induction false} InColumnAppend(a: seq<Cell>, b: seq<Cell>, k: int)
    ensures InColumn(a + b, k) == InColumn(a, k) + InColumn(b, k)
    decreases |a|
  {
    if a != [] {
      assert (a + b)[0] == a[0];
      assert (a + b)[1..] == a[1..] + b;
      InColumnAppend(a[1..], b, k);
      if a[0].columnIndex == k {
        assert InColumn(a + b, k) == [a[0]] + InColumn(a[1..] + b, k);
      } else {
        assert InColumn(a + b, k) == InColumn(a[1..] + b, k);
      }
    } else {
      assert a + b == b;
    }
  }

  /** Inserting keeps the order of the cells of every column, with `c` first
      among those of its own column. */
  lemma {:induction false} InsertStable(c: Cell, cells: seq<Cell>, k: int)
    ensures InColumn(Insert(c, cells), k) == InColumn([c] + cells, k)
    decreases |cells|
  {
    if !(cells == [] || c.columnIndex <= cells[0].columnIndex) {
      var tail := cells[1..];
      InsertStable(c, tail, k);
      assert [cells[0]] + Insert(c, tail) == [cells[0]] + Insert(c, tail);
      InColumnAppend([cells[0]], Insert(c, tail), k);
      InColumnAppend([c], tail, k);
      InColumnAppend([c], cells, k);
      InColumnAppend([cells[0]], tail, k);
      assert cells == [cells[0]] + tail;
    }
  }

  /** Stability: within every column the sorted row keeps the input order. */
  lemma {:induction false} SortByColumnStable(cells: seq<Cell>, k: int)
    ensures InColumn(SortByColumn(cells), k) == InColumn(cells, k)
    decreases |cells|
  {
    if cells != [] {
      SortByColumnStable(cells[1..], k);
      InsertStable(cells[0], SortByColumn(cells[1..]), k);
      InColumnAppend([cells[0]], SortByColumn(cells[1..]), k);
      InColumnAppend([cells[0]], cells[1..], k);
      assert cells == [cells[0]] + cells[1..];
    }
  }

  /** `rows`: one sorted row per row index `0 .. row_count - 1`. */
  function Rows(t: Table): (rows: seq<seq<Cell>>)
    ensures |rows| == if t.rowCount < 0 then 0 else t.rowCount
  {
    seq(if t.rowCount < 0 then 0 else t.rowCount, i => SortByColumn(CellsInRow(t.cells, i)))
  }

  /** Row `i` holds exactly the cells with row index `i`, sorted by column and
      in input order within a column. */
  lemma RowsAreSortedRows(t: Table, i: nat, k: int)
    requires i < |Rows(t)|
    ensures multiset(Rows(t)[i]) == multiset(CellsInRow(t.cells, i))
    ensures forall c :: c in Rows(t)[i] <==> c in t.cells && c.rowIndex == i
    ensures SortedByColumn(Rows(t)[i])
    ensures InColumn(Rows(t)[i], k) == InColumn(CellsInRow(t.cells, i), k)
  {
    var row := CellsInRow(t.cells, i);
    assert Rows(t)[i] == SortByColumn(row);
    SortByColumnSorted(row);
    SortByColumnStable(row, k);
    forall c
      ensures c in Rows(t)[i] <==> c in row
    {
      assert c in Rows(t)[i] <==> c in multiset(Rows(t)[i]);
      assert c in row <==> c in multiset(row);
    }
  }

  // ---------------------------------------------------------------------------
  // html.escape

  /** `html.escape(s)` with its default `quote=True`, one character at a time. */
  function EscapeChar(c: char): string {
    match c
    case '&' => "&amp;"
    case '<' => "&lt;"
    case '>' => "&gt;"
    case '"' => "&quot;"
    case '\'' => "&#x27;"
    case _ => [c]
  }

  /** `html.escape(s)`: no `<`, `>`, `"` or `'` survives, and nothing
      gets shorter (`UnescapeEscape` shows nothing is lost). */
  function Escape(s: string): (r: string)
    ensures |s| <= |r|
    ensures NoChar(r, '<') && NoChar(r, '>') && NoChar(r, '"') && NoChar(r, '\'')
    decreases |s|
  {
    if s == [] then []
    else
      var head, tail := EscapeChar(s[0]), Escape(s[1..]);
      assert NoChar(head, '<') && NoChar(head, '>') && NoChar(head, '"') && NoChar(head, '\'');
      NoCharAppend(head, tail, '<');
      NoCharAppend(head, tail, '>');
      NoCharAppend(head, tail, '"');
      NoCharAppend(head, tail, '\'');
      head + tail
  }

  predicate StartsWith(s: string, prefix: string) {
    |prefix| <= |s| && s[..|prefix|] == prefix
  }

  /** The inverse of `Escape`: decodes the five references it produces. */
  function Unescape(s: string): string
    decreases |s|
  {
    if s == [] then []
    else if StartsWith(s, "&amp;") then "&" + Unescape(s[5..])
    else if StartsWith(s, "&lt;") then "<" + Unescape(s[4..])
    else if StartsWith(s, "&gt;") then ">" + Unescape(s[4..])
    else if StartsWith(s, "&quot;") then "\"" + Unescape(s[6..])
    else if StartsWith(s, "&#x27;") then "'" + Unescape(s[6..])
    else [s[0]] + Unescape(s[1..])
  }

  lemma NotPrefix(s: string, prefix: string, k: nat)
    requires k < |prefix| && k < |s| && s[k] != prefix[k]
    ensures !StartsWith(s, prefix)
  {
    if |prefix| <= |s| {
      assert s[..|prefix|][k] == s[k];
    }
  }

  lemma UnescapeChar(c: char, rest: string)
    ensures Unescape(EscapeChar(c) + rest) == [c] + Unescape(rest)
  {
    var e := EscapeChar(c);
    var s := e + rest;
    assert s[..|e|] == e;
    assert s[|e|..] == rest;
    assert s[0] == e[0];
    if c == '&' {
      assert StartsWith(s, "&amp;");
    } else if c == '<' {
      assert s[1] == 'l';
      NotPrefix(s, "&amp;", 1);
      assert StartsWith(s, "&lt;");
    } else if c == '>' {
      assert s[1] == 'g';
      NotPrefix(s, "&amp;", 1);
      NotPrefix(s, "&lt;", 1);
      assert StartsWith(s, "&gt;");
    } else if c == '"' {
      assert s[1] == 'q';
      NotPrefix(s, "&amp;", 1);
      NotPrefix(s, "&lt;", 1);
      NotPrefix(s, "&gt;", 1);
      assert StartsWith(s, "&quot;");
    } else if c == '\'' {
      assert s[1] == '#';
      NotPrefix(s, "&amp;", 1);
      NotPrefix(s, "&lt;", 1);
      NotPrefix(s, "&gt;", 1);
      NotPrefix(s, "&quot;", 1);
      assert StartsWith(s, "&#x27;");
    } else {
      assert s[0] == c;
      NotPrefix(s, "&amp;", 0);
      NotPrefix(s, "&lt;", 0);
      NotPrefix(s, "&gt;", 0);
      NotPrefix(s, "&quot;", 0);
      NotPrefix(s, "&#x27;", 0);
      assert s[1..] == rest;
    }
  }

  /** Escaping loses nothing: the content can be recovered. */
  lemma {:induction false} UnescapeEscape(s: string)
    ensures Unescape(Escape(s)) == s
    decreases |s|
  {
    if s != [] {
      UnescapeEscape(s[1..]);
      UnescapeChar(s[0], Escape(s[1..]));
    }
  }

  /** The number of occurrences of `c` in `s`. */
  function Count(s: string, c: char): nat {
    if s == [] then 0 else (if s[0] == c then 1 else 0) + Count(s[1..], c)
  }

  predicate NoChar(s: string, c: char) {
    forall k | 0 <= k < |s| :: s[k] != c
  }

  lemma {:induction false} CountAppend(a: string, b: string, c: char)
    ensures Count(a + b, c) == Count(a, c) + Count(b, c)
    decreases |a|
  {
    if a != [] {
      assert (a + b)[0] == a[0];
      assert (a + b)[1..] == a[1..] + b;
      CountAppend(a[1..], b, c);
      assert Count(a + b, c) == (if a[0] == c then 1 else 0) + Count(a[1..] + b, c);
    } else {
      assert a + b == b;
    }
  }

  lemma {:induction false} CountNone(s: string, c: char)
    requires NoChar(s, c)
    ensures Count(s, c) == 0
    decreases |s|
  {
    if s != [] {
      CountNone(s[1..], c);
    }
  }

  /** `c` followed by text free of `c` holds exactly one `c`. */
  lemma CountLeading(c: char, s: string)
    requires NoChar(s, c)
    ensures Count([c] + s, c) == 1
  {
    assert ([c] + s)[1..] == s;
    CountNone(s, c);
  }

  lemma NoCharAppend(a: string, b: string, c: char)
    requires NoChar(a, c) && NoChar(b, c)
    ensures NoChar(a + b, c)
  {
    assert forall k | |a| <= k < |a + b| :: (a + b)[k] == b[k - |a|];
  }

  // ---------------------------------------------------------------------------
  // The HTML of cells, rows and tables

  function Tag(c: Cell): string {
    if c.kind == "columnHeader" || c.kind == "rowHeader" then "th" else "td"
  }

  /** `cell_spans`: ` colSpan=n` when n > 1, then ` rowSpan=m` when m > 1. */
  function CellSpans(c: Cell): string {
    ColSpanAttr(c) + RowSpanAttr(c)
  }

  function ColSpanAttr(c: Cell): string {
    if c.columnSpan > 1 then " colSpan=" + IntToString(c.columnSpan) else ""
  }

  function RowSpanAttr(c: Cell): string {
    if c.rowSpan > 1 then " rowSpan=" + IntToString(c.rowSpan) else ""
  }

  function OpenTag(c: Cell): string {
    "<" + Tag(c) + CellSpans(c) + ">"
  }

  function CloseTag(c: Cell): string {
    "</" + Tag(c) + ">"
  }

  /** `f"<{tag}{cell_spans}>{html.escape(cell.content)}</{tag}>"`. */
  function CellHtml(c: Cell): string {
    "<" + Tag(c) + CellSpans(c) + ">" + Escape(c.content) + "</" + Tag(c) + ">"
  }

  lemma ConcatAssoc(a: string, b: string, c: string)
    ensures (a + b) + c == a + (b + c)
  {
  }

  lemma CellHtmlParts(c: Cell)
    ensures CellHtml(c) == OpenTag(c) + Escape(c.content) + CloseTag(c)
  {
    var pre := "<" + Tag(c) + CellSpans(c) + ">" + Escape(c.content);
    ConcatAssoc(pre, "</", Tag(c));
    ConcatAssoc(pre, "</" + Tag(c), ">");
  }

  /** The cells of a row, in order. */
  function CellsHtml(cells: seq<Cell>): string {
    if cells == [] then "" else CellsHtml(cells[..|cells| - 1]) + CellHtml(cells[|cells| - 1])
  }

  function RowHtml(cells: seq<Cell>): string {
    "<tr>" + CellsHtml(cells) + "</tr>"
  }

  function RowsHtml(rows: seq<seq<Cell>>): string {
    if rows == [] then "" else RowsHtml(rows[..|rows| - 1]) + RowHtml(rows[|rows| - 1])
  }

  /** What `table_to_html(table)` returns. */
  function TableHtmlSpec(t: Table): string {
    "<table>" + RowsHtml(Rows(t)) + "</table>"
  }

  /** The total number of cells in `rows`. */
  function CellCount(rows: seq<seq<Cell>>): nat {
    if rows == [] then 0 else CellCount(rows[..|rows| - 1]) + |rows[|rows| - 1]|
  }

  lemma SpanNoAngle(attr: string, n: int)
    requires n > 1 && NoChar(attr, '<')
    ensures NoChar(attr + IntToString(n), '<')
  {
    var digits := IntToString(n);
    assert forall k | 0 <= k < |digits| :: IsDigit(digits[k]);
    NoCharAppend(attr, digits, '<');
  }

  lemma OpenTagAngles(c: Cell)
    ensures Count(OpenTag(c), '<') == 1
  {
    var col, row := ColSpanAttr(c), RowSpanAttr(c);
    if c.columnSpan > 1 {
      assert NoChar(" colSpan=", '<');
      SpanNoAngle(" colSpan=", c.columnSpan);
    }
    if c.rowSpan > 1 {
      assert NoChar(" rowSpan=", '<');
      SpanNoAngle(" rowSpan=", c.rowSpan);
    }
    assert CellSpans(c) == col + row;
    NoCharAppend(col, row, '<');
    assert NoChar(Tag(c), '<') && NoChar(">", '<');
    NoCharAppend(Tag(c), CellSpans(c), '<');
    NoCharAppend(Tag(c) + CellSpans(c), ">", '<');
    assert OpenTag(c) == "<" + (Tag(c) + CellSpans(c) + ">");
    CountLeading('<', Tag(c) + CellSpans(c) + ">");
  }

  lemma CloseTagAngles(c: Cell)
    ensures Count(CloseTag(c), '<') == 1
  {
    assert NoChar(Tag(c), '<') && NoChar("/", '<') && NoChar(">", '<');
    NoCharAppend("/", Tag(c), '<');
    NoCharAppend("/" + Tag(c), ">", '<');
    assert CloseTag(c) == "<" + ("/" + Tag(c) + ">");
    CountLeading('<', "/" + Tag(c) + ">");
  }

  /** A cell contributes exactly two `<`: its opening and its closing tag. */
  lemma CellHtmlAngles(c: Cell)
    ensures Count(CellHtml(c), '<') == 2
  {
    CellHtmlParts(c);
    OpenTagAngles(c);
    CloseTagAngles(c);
    CountNone(Escape(c.content), '<');
    CountAppend(OpenTag(c), Escape(c.content), '<');
    CountAppend(OpenTag(c) + Escape(c.content), CloseTag(c), '<');
  }

  lemma {:induction false} CellsHtmlAngles(cells: seq<Cell>)
    ensures Count(CellsHtml(cells), '<') == 2 * |cells|
    decreases |cells|
  {
    if cells != [] {
      CellsHtmlAngles(cells[..|cells| - 1]);
      CellHtmlAngles(cells[|cells| - 1]);
      CountAppend(CellsHtml(cells[..|cells| - 1]), CellHtml(cells[|cells| - 1]), '<');
    }
  }

  lemma RowTagsAngles()
    ensures Count("<tr>", '<') == 1 && Count("</tr>", '<') == 1
    ensures Count("<table>", '<') == 1 && Count("</table>", '<') == 1
  {
    assert "<tr>" == "<" + "tr>" && NoChar("tr>", '<');
    CountLeading('<', "tr>");
    assert "</tr>" == "<" + "/tr>" && NoChar("/tr>", '<');
    CountLeading('<', "/tr>");
    assert "<table>" == "<" + "table>" && NoChar("table>", '<');
    CountLeading('<', "table>");
    assert "</table>" == "<" + "/table>" && NoChar("/table>", '<');
    CountLeading('<', "/table>");
  }

  lemma {:induction false} RowsHtmlAngles(rows: seq<seq<Cell>>)
    ensures Count(RowsHtml(rows), '<') == 2 * |rows| + 2 * CellCount(rows)
    decreases |rows|
  {
    if rows != [] {
      var last := rows[|rows| - 1];
      RowsHtmlAngles(rows[..|rows| - 1]);
      CellsHtmlAngles(last);
      RowTagsAngles();
      CountAppend("<tr>", CellsHtml(last), '<');
      CountAppend("<tr>" + CellsHtml(last), "</tr>", '<');
      CountAppend(RowsHtml(rows[..|rows| - 1]), RowHtml(last), '<');
    }
  }

  /** Every `<` in the output opens or closes a tag: there is one pair for the
      table, one per row and one per cell, so none comes from cell content. */
  lemma TableHtmlAngles(t: Table)
    ensures Count(TableHtmlSpec(t), '<') == 2 + 2 * |Rows(t)| + 2 * CellCount(Rows(t))
  {
    RowsHtmlAngles(Rows(t));
    RowTagsAngles();
    CountAppend("<table>", RowsHtml(Rows(t)), '<');
    CountAppend("<table>" + RowsHtml(Rows(t)), "</table>", '<');
  }

  lemma CellsHtmlSnoc(cells: seq<Cell>, j: nat)
    requires j < |cells|
    ensures CellsHtml(cells[..j + 1]) == CellsHtml(cells[..j]) + CellHtml(cells[j])
  {
    assert cells[..j + 1][..j] == cells[..j];
  }

  lemma RowsHtmlSnoc(rows: seq<seq<Cell>>, i: nat)
    requires i < |rows|
    ensures RowsHtml(rows[..i + 1]) == RowsHtml(rows[..i]) + RowHtml(rows[i])
  {
    assert rows[..i + 1][..i] == rows[..i];
  }

  /** The body of the inner loop of `table_to_html`: the tag, the span
      attributes and the escaped content of one cell. */
  method CellToHtml(cell: Cell) returns (cellHtml: string)
    ensures cellHtml == CellHtml(cell)
  {
    var tag := if cell.kind == "columnHeader" || cell.kind == "rowHeader" then "th" else "td";
    var cellSpans := "";
    if cell.columnSpan > 1 {
      cellSpans := cellSpans + " colSpan=" + IntToString(cell.columnSpan);
      ConcatAssoc("", " colSpan=", IntToString(cell.columnSpan));
    }
    assert cellSpans == ColSpanAttr(cell);
    if cell.rowSpan > 1 {
      cellSpans := cellSpans + " rowSpan=" + IntToString(cell.rowSpan);
      ConcatAssoc(ColSpanAttr(cell), " rowSpan=", IntToString(cell.rowSpan));
    }
    assert tag == Tag(cell) && cellSpans == CellSpans(cell);
    cellHtml := "<" + tag + cellSpans + ">" + Escape(cell.content) + "</" + tag + ">";
  }

  /** `table_to_html(table)`: builds the HTML with `+=` over rows and cells. */
  method TableToHtml(t: Table) returns (tableHtml: string)
    ensures tableHtml == TableHtmlSpec(t)
  {
    tableHtml := "<table>";
    var rows := Rows(t);
    for i := 0 to |rows|
      invariant tableHtml == "<table>" + RowsHtml(rows[..i])
    {
      tableHtml := AppendRow(tableHtml, rows[i]);
      RowsHtmlSnoc(rows, i);
      ConcatAssoc("<table>", RowsHtml(rows[..i]), RowHtml(rows[i]));
    }
    assert rows[..|rows|] == rows;
    tableHtml := tableHtml + "</table>";
  }

  /** One pass of the outer loop of `table_to_html`: `<tr>`, the cells, `</tr>`. */
  method AppendRow(before: string, rowCells: seq<Cell>) returns (tableHtml: string)
    ensures tableHtml == before + RowHtml(rowCells)
  {
    tableHtml := before + "<tr>";
    for j := 0 to |rowCells|
      invariant tableHtml == before + "<tr>" + CellsHtml(rowCells[..j])
    {
      var cellHtml := CellToHtml(rowCells[j]);
      CellsHtmlSnoc(rowCells, j);
      ConcatAssoc(before + "<tr>", CellsHtml(rowCells[..j]), cellHtml);
      tableHtml := tableHtml + cellHtml;
    }
    assert rowCells[..|rowCells|] == rowCells;
    ConcatAssoc(before, "<tr>" + CellsHtml(rowCells), "</tr>");
    ConcatAssoc(before, "<tr>", CellsHtml(rowCells));
    tableHtml := tableHtml + "</tr>";
  }
}
