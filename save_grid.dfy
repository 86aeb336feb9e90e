/**
 * The sidebar's grid of saved colours (src/ui/main/draw/sidebar/save_grid.rs):
 * six rows of four cells, each empty or holding a colour.
 *
 * Clicking a cell right after pressing the "Save colour" button (the
 * `PrevTouch` flag) stores the picker's colour in it; clicking a cell at
 * any other time loads the cell, empty or not, into the picker.
 *
 * Whether the topbar lets the sidebar be hovered (`HoverPossible`) is an
 * input, like the mouse and the release flag.  The file calls `col_button`
 * with the optional mouse position where the helper takes a hovered flag;
 * here a cell is hovered when hovering is possible and the cell contains
 * the mouse.
 */
module SaveGrid {
  import opened Wrappers
  import opened Geometry
  import opened Helpers
  import opened Entries

  const Rows := 6
  const Cols := 4

  /** The whole grid's rectangle. */
  const GridRect := Rect(10.0, 60.0, 132.0, 198.0)

  /** The square of the cell in row `r`, column `c`. */
  function CellRect(r: nat, c: nat): Rect
  {
    Rect(33.0 * c as real + 10.0, 33.0 * r as real + 60.0, 28.0, 28.0)
  }

  /** The inputs a cell button looks at. */
  datatype Click = Click(hoverPossible: bool, mouse: Vec2, letGo: bool)

  /** Was the cell in row `r`, column `c` clicked this frame? */
  predicate CellClicked(k: Click, r: nat, c: nat)
  {
    ColButton(k.hoverPossible && Contains(CellRect(r, c), k.mouse), k.letGo)
  }

  /** The cells, row by row. */
  type Grid = seq<seq<Option<Rgba4>>>

  predicate Shaped(g: Grid)
  {
    |g| == Rows && forall r | 0 <= r < Rows :: |g[r]| == Cols
  }

  /** A cell after the frame: a clicked cell takes the picker's colour when `PrevTouch` is set and there is one. */
  function NewCell(g: Grid, picker: Option<Rgba4>, prevTouch: bool, k: Click, r: nat, c: nat): Option<Rgba4>
    requires Shaped(g) && r < Rows && c < Cols
  {
    if CellClicked(k, r, c) && prevTouch && picker.Some? then picker else g[r][c]
  }

  /** The picker after cells `0..m` of row `r`: a clicked cell loads into it when `PrevTouch` is not set. */
  function PickerRow(g: Grid, picker: Option<Rgba4>, prevTouch: bool, k: Click, r: nat, m: nat): Option<Rgba4>
    requires Shaped(g) && r < Rows && m <= Cols
  {
    if m == 0 then picker
    else
      var p := PickerRow(g, picker, prevTouch, k, r, m - 1);
      if CellClicked(k, r, m - 1) && !prevTouch then g[r][m - 1] else p
  }

  /** The picker after rows `0..n`. */
  function PickerGrid(g: Grid, picker: Option<Rgba4>, prevTouch: bool, k: Click, n: nat): Option<Rgba4>
    requires Shaped(g) && n <= Rows
  {
    if n == 0 then picker
    else PickerRow(g, PickerGrid(g, picker, prevTouch, k, n - 1), prevTouch, k, n - 1, Cols)
  }

  /** The cells do not overlap, and all of them lie inside the grid's rectangle. */
  lemma CellsApart(r: nat, c: nat, r': nat, c': nat, p: Vec2)
    ensures Contains(CellRect(r, c), p) && Contains(CellRect(r', c'), p) ==> r == r' && c == c'
    ensures r < Rows && c < Cols && Contains(CellRect(r, c), p) ==> Contains(GridRect, p)
  {
  }

  /** With cell (r, c) the one clicked, the row fold leaves the picker as it was before that cell and as the cell holds after it. */
  lemma {:induction false} PickerRowOne(g: Grid, picker: Option<Rgba4>, prevTouch: bool, k: Click, r: nat, m: nat, r': nat, c': nat)
    requires Shaped(g) && r < Rows && m <= Cols && r' < Rows && c' < Cols
    requires CellClicked(k, r', c')
    ensures PickerRow(g, picker, prevTouch, k, r, m) ==
      if r == r' && c' < m && !prevTouch then g[r'][c'] else picker
  {
    if m > 0 {
      PickerRowOne(g, picker, prevTouch, k, r, m - 1, r', c');
      if CellClicked(k, r, m - 1) {
        CellsApart(r, m - 1, r', c', k.mouse);
      }
    }
  }

  /** With no cell of row `r` clicked, the row fold leaves the picker alone. */
  lemma {:induction false} PickerRowNone(g: Grid, picker: Option<Rgba4>, prevTouch: bool, k: Click, r: nat, m: nat)
    requires Shaped(g) && r < Rows && m <= Cols
    requires forall c | 0 <= c < Cols :: !CellClicked(k, r, c)
    ensures PickerRow(g, picker, prevTouch, k, r, m) == picker
  {
    if m > 0 {
      PickerRowNone(g, picker, prevTouch, k, r, m - 1);
    }
  }

  /** With cell (r', c') the one clicked, the whole fold loads that cell exactly when `PrevTouch` is not set. */
  lemma {:induction false} PickerGridOne(g: Grid, picker: Option<Rgba4>, prevTouch: bool, k: Click, n: nat, r': nat, c': nat)
    requires Shaped(g) && n <= Rows && r' < Rows && c' < Cols
    requires CellClicked(k, r', c')
    ensures PickerGrid(g, picker, prevTouch, k, n) == if r' < n && !prevTouch then g[r'][c'] else picker
  {
    if n > 0 {
      PickerGridOne(g, picker, prevTouch, k, n - 1, r', c');
      PickerRowOne(g, PickerGrid(g, picker, prevTouch, k, n - 1), prevTouch, k, n - 1, Cols, r', c');
    }
  }

  /** With no cell clicked, the picker is left alone. */
  lemma {:induction false} PickerGridNone(g: Grid, picker: Option<Rgba4>, prevTouch: bool, k: Click, n: nat)
    requires Shaped(g) && n <= Rows
    requires forall r, c | 0 <= r < Rows && 0 <= c < Cols :: !CellClicked(k, r, c)
    ensures PickerGrid(g, picker, prevTouch, k, n) == picker
  {
    if n > 0 {
      PickerGridNone(g, picker, prevTouch, k, n - 1);
      PickerRowNone(g, picker, prevTouch, k, n - 1, Cols);
    }
  }

  /**
   * One frame, by cases.  A click on cell (r, c) with `PrevTouch` set and
   * a picker colour stores the colour in that cell only; with `PrevTouch`
   * set and no colour it changes nothing; without `PrevTouch` it loads the
   * cell into the picker and leaves the grid alone.  Without a click
   * nothing changes.
   */
  lemma FrameSpec(g: Grid, picker: Option<Rgba4>, prevTouch: bool, k: Click, r: nat, c: nat)
    requires Shaped(g) && r < Rows && c < Cols
    ensures CellClicked(k, r, c) ==>
      && (forall r', c' | 0 <= r' < Rows && 0 <= c' < Cols && (r', c') != (r, c) :: NewCell(g, picker, prevTouch, k, r', c') == g[r'][c'])
      && (prevTouch && picker.Some? ==> NewCell(g, picker, prevTouch, k, r, c) == picker)
      && (prevTouch ==> PickerGrid(g, picker, prevTouch, k, Rows) == picker)
      && (!prevTouch ==> NewCell(g, picker, prevTouch, k, r, c) == g[r][c] && PickerGrid(g, picker, prevTouch, k, Rows) == g[r][c])
      && (picker.None? ==> NewCell(g, picker, prevTouch, k, r, c) == g[r][c])
    ensures (forall r', c' | 0 <= r' < Rows && 0 <= c' < Cols :: !CellClicked(k, r', c')) ==>
      && (forall r', c' | 0 <= r' < Rows && 0 <= c' < Cols :: NewCell(g, picker, prevTouch, k, r', c') == g[r'][c'])
      && PickerGrid(g, picker, prevTouch, k, Rows) == picker
  {
    if CellClicked(k, r, c) {
      PickerGridOne(g, picker, prevTouch, k, Rows, r, c);
      forall r', c' | 0 <= r' < Rows && 0 <= c' < Cols && (r', c') != (r, c)
        ensures !CellClicked(k, r', c')
      {
        CellsApart(r, c, r', c', k.mouse);
      }
    }
    if forall r', c' | 0 <= r' < Rows && 0 <= c' < Cols :: !CellClicked(k, r', c') {
      PickerGridNone(g, picker, prevTouch, k, Rows);
    }
  }

  /** `SaveGrid`: the 6 × 4 cells. */
  class SaveGrid {
    const rect: Rect
    const cells: array2<Option<Rgba4>>

    predicate Valid()
    {
      cells.Length0 == Rows && cells.Length1 == Cols
    }

    /** The cells as rows of values. */
    function Contents(): (g: Grid)
      reads cells
      requires Valid()
      ensures Shaped(g)
    {
      seq(Rows, r requires 0 <= r < Rows reads cells => seq(Cols, c requires 0 <= c < Cols reads cells => cells[r, c]))
    }

    /** `SaveGrid::new`: every cell empty. */
    constructor ()
      ensures Valid() && rect == GridRect
      ensures forall r, c | 0 <= r < Rows && 0 <= c < Cols :: cells[r, c] == None
    {
      rect := GridRect;
      cells := new Option<Rgba4>[Rows, Cols]((r, c) => None);
    }

    /** `update`: the cells row by row, each a button that stores or loads a colour. */
    method Update(k: Click, prevTouch: bool, picker: Entry<Option<Rgba4>>)
      requires Valid()
      modifies cells, picker
      ensures Valid()
      ensures forall r, c | 0 <= r < Rows && 0 <= c < Cols ::
        cells[r, c] == NewCell(old(Contents()), old(picker.value), prevTouch, k, r, c)
      ensures picker.value == PickerGrid(old(Contents()), old(picker.value), prevTouch, k, Rows)
    {
      ghost var g := Contents();
      ghost var p0 := picker.value;
      var y := 0;
      while y < Rows
        invariant 0 <= y <= Rows
        invariant picker.value == PickerGrid(g, p0, prevTouch, k, y)
        invariant prevTouch ==> picker.value == p0
        invariant forall r, c | 0 <= r < Rows && 0 <= c < Cols ::
          cells[r, c] == if r < y then NewCell(g, p0, prevTouch, k, r, c) else g[r][c]
      {
        var x := 0;
        while x < Cols
          invariant 0 <= x <= Cols
          invariant picker.value == PickerRow(g, PickerGrid(g, p0, prevTouch, k, y), prevTouch, k, y, x)
          invariant prevTouch ==> picker.value == p0
          invariant forall r, c | 0 <= r < Rows && 0 <= c < Cols ::
            cells[r, c] == if r < y || (r == y && c < x) then NewCell(g, p0, prevTouch, k, r, c) else g[r][c]
        {
          if ColButton(k.hoverPossible && Contains(CellRect(y, x), k.mouse), k.letGo) {
            if prevTouch {
              var col := picker.value;
              if col.Some? {
                cells[y, x] := col;
              }
            } else {
              picker.value := cells[y, x];
            }
          }
          x := x + 1;
        }
        y := y + 1;
      }
    }

    /** `hit_detect`: the grid alone when the point is inside its rectangle, nothing otherwise. */
    function HitDetect(pos: Vec2, id: nat): (path: seq<nat>)
      ensures path == [] || path == [id]
      ensures path != [] <==> Contains(rect, pos)
    {
      if Contains(rect, pos) then [id] else []
    }
  }
}
