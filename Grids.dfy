/**
 * What both converters share about tables: the same `find_all` calls to
 * collect rows and cells, and a pre-sized table read back row by row.
 */
module Grids {
  import opened Html

  /** `table.find_all("tr")`: every row below the table, nested tables included. */
  function Rows(t: Node): seq<Node> {
    FindAll(t, {"tr"})
  }

  /** `tr.find_all(['td', 'th'])` (the order of the names does not matter). */
  function CellsOf(tr: Node): (r: seq<Node>)
    ensures forall k :: 0 <= k < |r| ==> r[k].Elem? && r[k].name in {"td", "th"}
  {
    FindAll(tr, {"td", "th"})
  }

  /** The rows of a filled table as values. */
  function GridRows<T>(grid: array2<T>): seq<seq<T>>
    reads grid
  {
    seq(grid.Length0, r requires 0 <= r < grid.Length0 reads grid =>
      seq(grid.Length1, c requires 0 <= c < grid.Length1 reads grid => grid[r, c]))
  }

  /** A table that agrees cell by cell with a rectangular grid reads as that grid. */
  lemma GridOfCells<T>(grid: array2<T>, want: seq<seq<T>>)
    requires |want| == grid.Length0
    requires forall r :: 0 <= r < |want| ==> |want[r]| == grid.Length1
    requires forall r, c :: 0 <= r < grid.Length0 && 0 <= c < grid.Length1 ==> grid[r, c] == want[r][c]
    ensures GridRows(grid) == want
  {
    var g := GridRows(grid);
    forall r | 0 <= r < |g|
      ensures g[r] == want[r]
    {
      assert |g[r]| == |want[r]|;
    }
  }
}
