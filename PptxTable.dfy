/**
 * `process_table_element` (md2pptx.py:52-120): the rows that have cells,
 * a table slide of as many rows by the widest row, each cell's first
 * paragraph filled by the inline walk, short rows padded with empty cells.
 *
 * The table slide is added before any cell is walked, so the image slides
 * of inline images in the cells follow it, in row-major order.
 */
module PptxTable {
  import opened Wrappers
  import opened Strings
  import opened Html
  import opened Grids
  import opened PptxDeck
  import opened PptxInline
  import DocxDoc
  import DocxTable

  /** `rows_data`: the cell lists of the rows, leaving out the rows without cells. */
  function RowsData(rows: seq<Node>): (data: seq<seq<Node>>)
    ensures |data| <= |rows|
    ensures forall k :: 0 <= k < |data| ==> data[k] != []
    decreases |rows|
  {
    if rows == [] then []
    else
      var last := CellsOf(rows[|rows| - 1]);
      RowsData(rows[..|rows| - 1]) + (if last != [] then [last] else [])
  }

  /** `max(len(row) for row in rows_data)`. */
  function MaxLen(data: seq<seq<Node>>): (m: nat)
    requires data != []
    ensures forall k :: 0 <= k < |data| ==> |data[k]| <= m
    ensures exists k :: 0 <= k < |data| && |data[k]| == m
  {
    if |data| == 1 then |data[0]|
    else
      var rest := MaxLen(data[1..]);
      assert forall k :: 1 <= k < |data| ==> data[k] == data[1..][k - 1];
      var k :| 0 <= k < |data[1..]| && |data[1..][k]| == rest;
      assert data[k + 1] == data[1..][k];
      if |data[0]| >= rest then |data[0]| else rest
  }

  /** The `align_map` lookup of `style.lower()`, LEFT for any other string. */
  function PAlignOf(style: string): PAlign {
    var s := Lower(style);
    if s == "text-align:left;" then AlignLeft
    else if s == "text-align:center;" then AlignCenter
    else if s == "text-align:right;" then AlignRight
    else if s == "text-align:justify;" then AlignJustify
    else AlignLeft
  }

  /** The cell written for source cell `td`: its alignment if it has a `style`, and its inline runs. */
  function CellOut(td: Node): (cell: PCell)
    requires td.Elem?
    ensures cell.align.Some? <==> "style" in td.attrs
  {
    PCell(if "style" in td.attrs then Some(PAlignOf(td.attrs["style"])) else None, InlineOf(td).runs)
  }

  /** Cell `(i, j)` of the table: the `j`-th cell of row `i`, or a padding cell. */
  function CellAt(data: seq<seq<Node>>, i: nat, j: nat): PCell
    requires i < |data|
  {
    if j < |data[i]| && data[i][j].Elem? then CellOut(data[i][j]) else BlankCell
  }

  /** The table of the slide, `numCols` cells per row. */
  function PGrid(data: seq<seq<Node>>, numCols: nat): seq<seq<PCell>> {
    seq(|data|, i requires 0 <= i < |data| => seq(numCols, j requires 0 <= j => CellAt(data, i, j)))
  }

  /** The image slides the inline walks of one row's cells add, in order. */
  function RowSlides(row: seq<Node>): seq<Slide>
    decreases |row|
  {
    if row == [] then []
    else
      var last := row[|row| - 1];
      RowSlides(row[..|row| - 1]) + (if last.Elem? then InlineOf(last).slides else [])
  }

  /** The image slides of all cells, row by row. */
  function TableImageSlides(data: seq<seq<Node>>): seq<Slide>
    decreases |data|
  {
    if data == [] then [] else TableImageSlides(data[..|data| - 1]) + RowSlides(data[|data| - 1])
  }

  /** Every slide the table element adds: none without cells, else the table and then its cells' images. */
  function TableSlides(t: Node): seq<Slide> {
    var data := RowsData(Rows(t));
    if data == [] then [] else [TableSlide(PGrid(data, MaxLen(data)))] + TableImageSlides(data)
  }

  /** The loop collecting `rows_data`. */
  method CollectRows(rows: seq<Node>) returns (data: seq<seq<Node>>)
    ensures data == RowsData(rows)
  {
    data := [];
    for i := 0 to |rows|
      invariant data == RowsData(rows[..i])
    {
      assert rows[..i + 1][..i] == rows[..i];
      var row := CellsOf(rows[i]);
      if row != [] {
        data := data + [row];
      }
    }
    assert rows[..|rows|] == rows;
  }

  /**
   * The inner loop for row `i`: every column is written, a source cell by
   * walking it into a fresh first paragraph, a column past the row's end as
   * an empty cell; the walks append their image slides to the deck.
   */
  method FillRow(grid: array2<PCell>, data: seq<seq<Node>>, i: nat, deck: Deck)
    requires i < |data| == grid.Length0 && |data[i]| <= grid.Length1
    requires forall k :: 0 <= k < |data[i]| ==> data[i][k].Elem?
    modifies grid, deck
    ensures forall c :: 0 <= c < grid.Length1 ==> grid[i, c] == CellAt(data, i, c)
    ensures forall r, c :: 0 <= r < grid.Length0 && r != i && 0 <= c < grid.Length1 ==> grid[r, c] == old(grid[r, c])
    ensures deck.slides == old(deck.slides) + RowSlides(data[i])
  {
    var row := data[i];
    for j := 0 to grid.Length1
      invariant forall r, c :: 0 <= r < grid.Length0 && r != i && 0 <= c < grid.Length1 ==> grid[r, c] == old(grid[r, c])
      invariant forall c :: 0 <= c < j ==> grid[i, c] == CellAt(data, i, c)
      invariant j <= |row| ==> deck.slides == old(deck.slides) + RowSlides(row[..j])
      invariant j > |row| ==> deck.slides == old(deck.slides) + RowSlides(row)
    {
      if j < |row| {
        var td := row[j];
        var align := if "style" in td.attrs then Some(PAlignOf(td.attrs["style"])) else None;
        var p := new Paragraph();
        ProcessInlineElement(td, p, deck);
        grid[i, j] := PCell(align, p.runs);
        assert row[..j + 1][..j] == row[..j];
        AppendAssociative(old(deck.slides), RowSlides(row[..j]), InlineOf(td).slides);
      } else {
        if j == |row| {
          assert row[..j] == row;
        }
        grid[i, j] := BlankCell;
      }
    }
    if grid.Length1 == |row| {
      assert row[..|row|] == row;
    }
  }

  /** Every collected cell is an element. */
  lemma {:induction false} RowsDataCells(rows: seq<Node>)
    ensures forall k, c :: 0 <= k < |RowsData(rows)| && 0 <= c < |RowsData(rows)[k]| ==>
              RowsData(rows)[k][c].Elem?
    decreases |rows|
  {
    if rows != [] {
      RowsDataCells(rows[..|rows| - 1]);
    }
  }

  /**
   * The fill loops of `process_table_element` over a table of
   * `len(rows_data)` rows by the widest row.
   */
  method FillTable(data: seq<seq<Node>>, deck: Deck) returns (grid: array2<PCell>)
    requires data != []
    requires forall k, c :: 0 <= k < |data| && 0 <= c < |data[k]| ==> data[k][c].Elem?
    modifies deck
    ensures fresh(grid)
    ensures GridRows(grid) == PGrid(data, MaxLen(data))
    ensures deck.slides == old(deck.slides) + TableImageSlides(data)
  {
    var numRows := |data|;
    var numCols := MaxLen(data);
    grid := new PCell[numRows, numCols]((r, c) => BlankCell);
    for i := 0 to numRows
      invariant forall r, c :: 0 <= r < i && 0 <= c < numCols ==> grid[r, c] == CellAt(data, r, c)
      invariant deck.slides == old(deck.slides) + TableImageSlides(data[..i])
    {
      assert data[..i + 1][..i] == data[..i];
      FillRow(grid, data, i, deck);
      AppendAssociative(old(deck.slides), TableImageSlides(data[..i]), RowSlides(data[i]));
    }
    assert data[..numRows] == data;
    GridOfCells(grid, PGrid(data, numCols));
  }

  /** `process_table_element`: adds the table slide, then fills it cell by cell. */
  method ProcessTableElement(t: Node, deck: Deck)
    modifies deck
    ensures deck.slides == old(deck.slides) + TableSlides(t)
  {
    var data := CollectRows(Rows(t));
    if data == [] {
      return;
    }
    RowsDataCells(Rows(t));
    var at := |deck.slides|;
    deck.slides := deck.slides + [TableSlide([])];
    var grid := FillTable(data, deck);
    ghost var table := TableSlide(GridRows(grid));
    ghost var images := TableImageSlides(data);
    assert TableSlides(t) == [table] + images;
    ReplaceReserved(old(deck.slides), TableSlide([]), table, images);
    deck.slides := deck.slides[at := TableSlide(GridRows(grid))];
  }

  /** Setting the slide reserved at index `|before|` leaves the slides around it alone. */
  lemma ReplaceReserved<T>(before: seq<T>, reserved: T, final: T, after: seq<T>)
    ensures (before + [reserved] + after)[|before| := final] == before + ([final] + after)
  {
    assert before + [final] + after == before + ([final] + after);
  }

  /** Collecting from consecutive rows is collecting from each part, in order. */
  lemma {:induction false} RowsDataAppend(a: seq<Node>, b: seq<Node>)
    ensures RowsData(a + b) == RowsData(a) + RowsData(b)
    decreases |b|
  {
    if b == [] {
      assert a + b == a;
    } else {
      var init := b[..|b| - 1];
      var cells := CellsOf(b[|b| - 1]);
      var tail := if cells != [] then [cells] else [];
      assert (a + b)[..|a + b| - 1] == a + init;
      assert (a + b)[|a + b| - 1] == b[|b| - 1];
      calc {
        RowsData(a + b);
        RowsData(a + init) + tail;
        { RowsDataAppend(a, init); }
        RowsData(a) + RowsData(init) + tail;
        { AppendAssociative(RowsData(a), RowsData(init), tail); }
        RowsData(a) + RowsData(b);
      }
    }
  }

  /** A single row is kept, as its cell list, exactly when it has a cell. */
  lemma RowsDataOne(x: Node)
    ensures RowsData([x]) == if CellsOf(x) != [] then [CellsOf(x)] else []
  {
    assert [x][..0] == [];
  }

  /** A cell list is collected exactly when it is the non-empty cell list of some row. */
  lemma {:induction false} RowsDataMembers(rows: seq<Node>)
    ensures forall x :: x in RowsData(rows) <==> x != [] && exists k :: 0 <= k < |rows| && CellsOf(rows[k]) == x
  {
    forall x
      ensures x in RowsData(rows) <==> x != [] && exists k :: 0 <= k < |rows| && CellsOf(rows[k]) == x
    {
      if x in RowsData(rows) {
        RowsDataFrom(rows, x);
      }
      if x != [] && exists k :: 0 <= k < |rows| && CellsOf(rows[k]) == x {
        var k :| 0 <= k < |rows| && CellsOf(rows[k]) == x;
        RowsDataHas(rows, k);
      }
    }
  }

  /** Every row with a cell is collected. */
  lemma {:induction false} RowsDataHas(rows: seq<Node>, k: nat)
    requires k < |rows| && CellsOf(rows[k]) != []
    ensures CellsOf(rows[k]) in RowsData(rows)
    decreases |rows|
  {
    var init := rows[..|rows| - 1];
    if k < |init| {
      assert init[k] == rows[k];
      RowsDataHas(init, k);
    }
  }

  /** Every collected cell list is the non-empty cell list of some row. */
  lemma {:induction false} RowsDataFrom(rows: seq<Node>, x: seq<Node>)
    requires x in RowsData(rows)
    ensures x != [] && exists k :: 0 <= k < |rows| && CellsOf(rows[k]) == x
    decreases |rows|
  {
    var init := rows[..|rows| - 1];
    if x in RowsData(init) {
      RowsDataFrom(init, x);
      var k :| 0 <= k < |init| && CellsOf(init[k]) == x;
      assert rows[k] == init[k];
    } else {
      assert CellsOf(rows[|rows| - 1]) == x;
    }
  }

  /** No slide is added exactly when no row has a `td` or `th`. */
  lemma NoCellsNoSlide(t: Node)
    ensures TableSlides(t) == [] <==> forall k :: 0 <= k < |Rows(t)| ==> CellsOf(Rows(t)[k]) == []
  {
    var rows := Rows(t);
    RowsDataMembers(rows);
    if RowsData(rows) != [] {
      assert RowsData(rows)[0] in RowsData(rows);
    } else {
      forall k | 0 <= k < |rows|
        ensures CellsOf(rows[k]) == []
      {
        assert CellsOf(rows[k]) !in RowsData(rows);
      }
    }
  }

  /**
   * With cells, the first slide added is the table: one row per row with
   * cells, every row as wide as the widest, which some row fills.
   */
  lemma TableSlideShape(t: Node)
    requires TableSlides(t) != []
    ensures TableSlides(t)[0].TableSlide?
    ensures |TableSlides(t)[0].rows| == |RowsData(Rows(t))|
    ensures forall i :: 0 <= i < |RowsData(Rows(t))| ==> |TableSlides(t)[0].rows[i]| == MaxLen(RowsData(Rows(t)))
    ensures exists i :: 0 <= i < |RowsData(Rows(t))| && |RowsData(Rows(t))[i]| == MaxLen(RowsData(Rows(t)))
  {
    var data := RowsData(Rows(t));
    var m := MaxLen(data);
    assert TableSlides(t)[0] == TableSlide(PGrid(data, m));
    PGridShape(data, m);
    var i :| 0 <= i < |data| && |data[i]| == m;
  }

  lemma PGridShape(data: seq<seq<Node>>, numCols: nat)
    ensures |PGrid(data, numCols)| == |data|
    ensures forall i :: 0 <= i < |data| ==> |PGrid(data, numCols)[i]| == numCols
  {
  }

  /**
   * Cell `(i, j)` of the table holds the walk of the `j`-th source cell of
   * row `i` and that cell's alignment; past the end of the row it is empty.
   */
  lemma CellPlacement(t: Node, i: nat, j: nat)
    requires TableSlides(t) != []
    requires i < |RowsData(Rows(t))| && j < MaxLen(RowsData(Rows(t)))
    ensures j < |RowsData(Rows(t))[i]| ==>
              var td := RowsData(Rows(t))[i][j];
              td.Elem? && TableSlides(t)[0].rows[i][j] == CellOut(td)
    ensures j >= |RowsData(Rows(t))[i]| ==> TableSlides(t)[0].rows[i][j] == BlankCell
  {
    var data := RowsData(Rows(t));
    RowsDataCells(Rows(t));
    assert TableSlides(t)[0] == TableSlide(PGrid(data, MaxLen(data)));
    assert PGrid(data, MaxLen(data))[i][j] == CellAt(data, i, j);
  }

  lemma {:induction false} RowSlidesAreImages(row: seq<Node>)
    ensures forall k :: 0 <= k < |RowSlides(row)| ==> RowSlides(row)[k].ImageSlide? && RowSlides(row)[k].src != ""
    decreases |row|
  {
    if row != [] {
      RowSlidesAreImages(row[..|row| - 1]);
      var last := row[|row| - 1];
      if last.Elem? {
        InlineSlidesAreImages(last);
      }
    }
  }

  lemma {:induction false} TableImageSlidesAreImages(data: seq<seq<Node>>)
    ensures forall k :: 0 <= k < |TableImageSlides(data)| ==>
              TableImageSlides(data)[k].ImageSlide? && TableImageSlides(data)[k].src != ""
    decreases |data|
  {
    if data != [] {
      TableImageSlidesAreImages(data[..|data| - 1]);
      RowSlidesAreImages(data[|data| - 1]);
    }
  }

  /** After the table slide, the table element adds only image slides of the cells' images. */
  lemma OneTableSlide(t: Node)
    ensures forall k :: 1 <= k < |TableSlides(t)| ==> TableSlides(t)[k].ImageSlide? && TableSlides(t)[k].src != ""
  {
    TableImageSlidesAreImages(RowsData(Rows(t)));
  }

  /** The lookup ignores letter case: `text-align:Justify;` justifies. */
  lemma PAlignIgnoresCase(style: string)
    ensures PAlignOf(Lower(style)) == PAlignOf(style)
  {
    LowerIdempotent(style);
  }

  /** Each alignment other than LEFT needs the lower-cased style to be exactly its key. */
  lemma PAlignExactKeys(style: string)
    ensures PAlignOf(style) == AlignCenter <==> Lower(style) == "text-align:center;"
    ensures PAlignOf(style) == AlignRight <==> Lower(style) == "text-align:right;"
    ensures PAlignOf(style) == AlignJustify <==> Lower(style) == "text-align:justify;"
    ensures PAlignOf(style) == AlignLeft <==>
              Lower(style) !in {"text-align:center;", "text-align:right;", "text-align:justify;"}
  {
  }

  /**
   * The two converters agree on left, centre and right; a justified cell is
   * justified on a slide but LEFT in the word-processor table.
   */
  lemma ConvertersAgreeButJustify(style: string)
    ensures Lower(style) == "text-align:justify;" ==> PAlignOf(style) == AlignJustify && DocxTable.AlignOf(style) == DocxDoc.Left
    ensures DocxTable.AlignOf(style) == DocxDoc.Center <==> PAlignOf(style) == AlignCenter
    ensures DocxTable.AlignOf(style) == DocxDoc.Right <==> PAlignOf(style) == AlignRight
  {
  }
}
