/**
 * `process_table` (md2docx.py:276-315): a table of `len(rows)` by the
 * widest row, filled cell by cell, the first row styled as header, the
 * alignment looked up from the lower-cased `style` attribute.
 */
module DocxTable {
  import opened Wrappers
  import opened Strings
  import opened Html
  import opened DocxHelpers
  import opened DocxDoc
  import opened Grids

  /** `max(len(tr.find_all(['td','th'])) for tr in rows)`: defined only for at least one row. */
  function MaxCells(rows: seq<Node>): (m: nat)
    requires rows != []
    ensures forall k :: 0 <= k < |rows| ==> |CellsOf(rows[k])| <= m
    ensures exists k :: 0 <= k < |rows| && |CellsOf(rows[k])| == m
  {
    if |rows| == 1 then |CellsOf(rows[0])|
    else
      var rest := MaxCells(rows[1..]);
      assert forall k :: 1 <= k < |rows| ==> rows[k] == rows[1..][k - 1];
      var k :| 0 <= k < |rows[1..]| && |CellsOf(rows[1..][k])| == rest;
      assert rows[k + 1] == rows[1..][k];
      if |CellsOf(rows[0])| >= rest then |CellsOf(rows[0])| else rest
  }

  /** The `align_map` lookup of `style.lower()`, LEFT for any other string. */
  function AlignOf(style: string): Align {
    var s := Lower(style);
    if s == "text-align:left;" then Left
    else if s == "text-align:center;" then Center
    else if s == "text-align:right;" then Right
    else Left
  }

  /** Alignment is only set on a cell that has a `style` attribute. */
  function CellAlign(td: Node): (a: Option<Align>)
    ensures a.Some? <==> td.Elem? && "style" in td.attrs
  {
    if td.Elem? && "style" in td.attrs then Some(AlignOf(td.attrs["style"])) else None
  }

  /**
   * The hyperlinks added for the `a` elements of a cell, in order: each
   * shows its own text, and each looks for an image in the whole cell.
   */
  function CellLinks(td: Node, links: seq<Node>): (r: seq<Inline>)
    requires td.Elem?
    ensures |r| == |links|
    ensures forall k :: 0 <= k < |r| ==>
              r[k] == Link(AttrOr(links[k], "href", ""), GetText(links[k]), GetImgSrc(td))
  {
    if links == [] then []
    else [Link(AttrOr(links[0], "href", ""), GetText(links[0]), GetImgSrc(td))] + CellLinks(td, links[1..])
  }

  /** The cell written for source cell `td` of row `rowIdx`. */
  function FilledCell(td: Node, rowIdx: nat): Cell
    requires td.Elem?
  {
    Cell(Strip(GetText(td)), rowIdx == 0, CellAlign(td), CellLinks(td, FindAll(td, {"a"})))
  }

  /** Cell `(r, c)` of the finished table: the `c`-th source cell of row `r`, or an untouched cell. */
  function CellAt(rows: seq<Node>, r: nat, c: nat): Cell
    requires r < |rows|
  {
    var cells := CellsOf(rows[r]);
    if c < |cells| then FilledCell(cells[c], r) else EmptyCell
  }

  /** The finished table, row by row. */
  function TableGrid(t: Node): seq<seq<Cell>>
    requires Rows(t) != []
  {
    var rows := Rows(t);
    seq(|rows|, r requires 0 <= r < |rows| => seq(MaxCells(rows), c requires 0 <= c => CellAt(rows, r, c)))
  }

  /**
   * The inner loop of `process_table`: writes the cells of row `i` so that
   * each reads as `CellAt`, touching no other row.
   */
  method FillRow(grid: array2<Cell>, rows: seq<Node>, i: nat)
    requires i < |rows| == grid.Length0 && |CellsOf(rows[i])| <= grid.Length1
    requires forall c :: 0 <= c < grid.Length1 ==> grid[i, c] == EmptyCell
    modifies grid
    ensures forall c :: 0 <= c < grid.Length1 ==> grid[i, c] == CellAt(rows, i, c)
    ensures forall r, c :: 0 <= r < grid.Length0 && r != i && 0 <= c < grid.Length1 ==> grid[r, c] == old(grid[r, c])
  {
    var cells := CellsOf(rows[i]);
    for j := 0 to |cells|
      invariant forall r, c :: 0 <= r < grid.Length0 && r != i && 0 <= c < grid.Length1 ==> grid[r, c] == old(grid[r, c])
      invariant forall c :: 0 <= c < j ==> grid[i, c] == CellAt(rows, i, c)
      invariant forall c :: j <= c < grid.Length1 ==> grid[i, c] == EmptyCell
    {
      var cell := FilledCell(cells[j], i);
      assert cell == CellAt(rows, i, j);
      grid[i, j] := cell;
    }
  }

  /** The fill loop of `process_table`, writing each source cell into the pre-sized table. */
  method FillTable(t: Node) returns (grid: array2<Cell>)
    requires Rows(t) != []
    ensures fresh(grid)
    ensures GridRows(grid) == TableGrid(t)
  {
    var rows := Rows(t);
    var rowCount := |rows|;
    var colCount := MaxCells(rows);
    grid := new Cell[rowCount, colCount]((r, c) => EmptyCell);
    for i := 0 to rowCount
      invariant forall r, c :: 0 <= r < i && 0 <= c < colCount ==> grid[r, c] == CellAt(rows, r, c)
      invariant forall r, c :: i <= r < rowCount && 0 <= c < colCount ==> grid[r, c] == EmptyCell
    {
      FillRow(grid, rows, i);
    }
    GridOfCells(grid, TableGrid(t));
  }

  /**
   * `process_table`: fails (the `max` of no rows) exactly when the table has
   * no row; otherwise appends the filled table to the document.
   */
  method ProcessTable(t: Node, doc: Document) returns (ok: bool)
    modifies doc
    ensures ok <==> Rows(t) != []
    ensures ok ==> doc.blocks == old(doc.blocks) + [Table(TableGrid(t))]
  {
    var rows := Rows(t);
    if rows == [] {
      return false;
    }
    var grid := FillTable(t);
    doc.blocks := doc.blocks + [Table(GridRows(grid))];
    ok := true;
  }

  /**
   * The table has one row per `tr` and as many columns as the widest row;
   * some row fills every column.
   */
  lemma TableShape(t: Node)
    requires Rows(t) != []
    ensures |TableGrid(t)| == |Rows(t)|
    ensures forall r :: 0 <= r < |Rows(t)| ==> |TableGrid(t)[r]| == MaxCells(Rows(t))
    ensures forall r :: 0 <= r < |Rows(t)| ==> |CellsOf(Rows(t)[r])| <= MaxCells(Rows(t))
    ensures exists r :: 0 <= r < |Rows(t)| && |CellsOf(Rows(t)[r])| == MaxCells(Rows(t))
  {
    var rows := Rows(t);
    var k :| 0 <= k < |rows| && |CellsOf(rows[k])| == MaxCells(rows);
  }

  /**
   * Every source cell lands at its row and position with its stripped text;
   * the cells past the end of a short row stay empty.
   */
  lemma CellPlacement(t: Node, r: nat, c: nat)
    requires Rows(t) != [] && r < |Rows(t)| && c < MaxCells(Rows(t))
    ensures c < |CellsOf(Rows(t)[r])| ==> TableGrid(t)[r][c].text == Strip(GetText(CellsOf(Rows(t)[r])[c]))
    ensures c >= |CellsOf(Rows(t)[r])| ==> TableGrid(t)[r][c] == EmptyCell
  {
  }

  /** Only the written cells of the first row are styled as header. */
  lemma HeaderOnlyFirstRow(t: Node, r: nat, c: nat)
    requires Rows(t) != [] && r < |Rows(t)| && c < MaxCells(Rows(t))
    ensures TableGrid(t)[r][c].header <==> r == 0 && c < |CellsOf(Rows(t)[0])|
  {
  }

  /** The lookup ignores letter case: `text-align:Center;` centres. */
  lemma AlignIgnoresCase(style: string)
    ensures AlignOf(Lower(style)) == AlignOf(style)
  {
    LowerIdempotent(style);
  }

  /**
   * Centre and right alignment need the lower-cased style to be exactly the
   * map's key; everything else, padding and a missing semicolon included,
   * is LEFT.
   */
  lemma AlignExactKeys(style: string)
    ensures AlignOf(style) == Center <==> Lower(style) == "text-align:center;"
    ensures AlignOf(style) == Right <==> Lower(style) == "text-align:right;"
    ensures AlignOf(style) == Left <==> Lower(style) != "text-align:center;" && Lower(style) != "text-align:right;"
  {
  }

  /** A style with leading whitespace never matches a key, so it is LEFT. */
  lemma PaddedStyleIsLeft(style: string)
    requires style != [] && IsSpace(style[0])
    ensures AlignOf(style) == Left
  {
    assert Lower(style)[0] == style[0];
    assert "text-align:center;"[0] == 't' && "text-align:right;"[0] == 't';
  }
}
