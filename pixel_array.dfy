/**
 * The sparse canvas `PixelArray` of src/transform.rs.
 *
 * The source keeps a `HashSet<Pixel>` whose equality and hash look at the
 * position only, so the set holds at most one pixel per cell: it is a map
 * from cell to colour, and that is how it is modelled.  The colour is an
 * opaque type with equality (an `[f32; 4]` in the source).
 */
module PixelArray {
  import opened Wrappers
  import opened Bresenham
  import BL = Bresenham

  /** A stored pixel: its cell and its colour. */
  datatype Pixel<C> = Pixel(pos: Point, col: C)

  /** What the canvas holds at `p`: a colour, or None for an empty cell. */
  function Lookup<C>(m: map<Point, C>, p: Point): Option<C>
  {
    if p in m then Some(m[p]) else None
  }

  /** The rectangle [lo.x, hi.x] x [lo.y, hi.y], both edges included. */
  predicate InBox(lo: Point, hi: Point, p: Point)
  {
    lo.x <= p.x <= hi.x && lo.y <= p.y <= hi.y
  }

  /**
   * lo and hi are the componentwise minimum and maximum of `cells`: every
   * cell lies in the box and each of its four edges is attained.
   */
  ghost predicate IsBoundingBox(cells: set<Point>, lo: Point, hi: Point)
  {
    && (forall p | p in cells :: InBox(lo, hi, p))
    && (exists p | p in cells :: p.x == lo.x)
    && (exists p | p in cells :: p.y == lo.y)
    && (exists p | p in cells :: p.x == hi.x)
    && (exists p | p in cells :: p.y == hi.y)
  }

  function Min(a: int, b: int): int { if a <= b then a else b }

  function Max2(a: int, b: int): int { if a <= b then b else a }

  /** The bounding box of a non-empty set of cells, one cell at a time. */
  ghost function BoxOf(cells: set<Point>): (b: (Point, Point))
    requires cells != {}
    ensures IsBoundingBox(cells, b.0, b.1)
    decreases |cells|
  {
    var p :| p in cells;
    if cells == {p} then (p, p)
    else
      var rest := cells - {p};
      var (lo, hi) := BoxOf(rest);
      BoxAdd(rest, lo, hi, p);
      assert rest + {p} == cells;
      (Point(Min(lo.x, p.x), Min(lo.y, p.y)), Point(Max2(hi.x, p.x), Max2(hi.y, p.y)))
  }

  /** Adding a cell widens the bounding box just enough to hold it. */
  lemma BoxAdd(cells: set<Point>, lo: Point, hi: Point, p: Point)
    requires IsBoundingBox(cells, lo, hi)
    ensures IsBoundingBox(cells + {p}, Point(Min(lo.x, p.x), Min(lo.y, p.y)), Point(Max2(hi.x, p.x), Max2(hi.y, p.y)))
  {
    var lo', hi' := Point(Min(lo.x, p.x), Min(lo.y, p.y)), Point(Max2(hi.x, p.x), Max2(hi.y, p.y));
    var a :| a in cells && a.x == lo.x;
    var b :| b in cells && b.y == lo.y;
    var c :| c in cells && c.x == hi.x;
    var d :| d in cells && d.y == hi.y;
    var s := cells + {p};
    assert (if lo.x <= p.x then a else p) in s;
    assert (if lo.y <= p.y then b else p) in s;
    assert (if hi.x >= p.x then c else p) in s;
    assert (if hi.y >= p.y then d else p) in s;
  }

  /** Moving one cell from `rest` to the cells seen so far widens their box as BoxAdd says. */
  lemma BoxGrows(cells: set<Point>, rest: set<Point>, lo: Point, hi: Point, p: Point)
    requires p in rest && rest <= cells && IsBoundingBox(cells - rest, lo, hi)
    ensures IsBoundingBox(cells - (rest - {p}), Point(Min(lo.x, p.x), Min(lo.y, p.y)), Point(Max2(hi.x, p.x), Max2(hi.y, p.y)))
  {
    BoxAdd(cells - rest, lo, hi, p);
    assert (cells - rest) + {p} == cells - (rest - {p});
  }

  /** A set of cells has only one bounding box. */
  lemma BoundingBoxUnique(cells: set<Point>, lo: Point, hi: Point, lo': Point, hi': Point)
    requires IsBoundingBox(cells, lo, hi) && IsBoundingBox(cells, lo', hi')
    ensures lo == lo' && hi == hi'
  {
    var a :| a in cells && a.x == lo.x;
    var b :| b in cells && b.x == lo'.x;
    var c :| c in cells && c.y == lo.y;
    var d :| d in cells && d.y == lo'.y;
    var e :| e in cells && e.x == hi.x;
    var f :| e in cells && f in cells && f.x == hi'.x;
    var g :| g in cells && g.y == hi.y;
    var h :| h in cells && h.y == hi'.y;
    assert InBox(lo, hi, b) && InBox(lo', hi', a) && InBox(lo, hi, d) && InBox(lo', hi', c);
    assert InBox(lo, hi, f) && InBox(lo', hi', e) && InBox(lo, hi, h) && InBox(lo', hi', g);
  }

  /** What get_bounds returns: (-1,-1),(1,1) for an empty canvas, else the bounding box. */
  ghost function Bounds<C>(m: map<Point, C>): (Point, Point)
  {
    if m == map[] then (Point(-1, -1), Point(1, 1)) else BoxOf(m.Keys)
  }

  /** Bounds of a non-empty canvas is its one bounding box. */
  lemma BoundsAre<C>(m: map<Point, C>, lo: Point, hi: Point)
    requires m != map[] && IsBoundingBox(m.Keys, lo, hi)
    ensures Bounds(m) == (lo, hi)
  {
    BoundingBoxUnique(m.Keys, lo, hi, Bounds(m).0, Bounds(m).1);
  }

  /**
   * A coordinate as an `i16` holds it after a release build's wrapping
   * arithmetic: the representative of `v` modulo 2^16 in [-2^15, 2^15).
   */
  function WrapI16(v: int): int
  {
    (v + 0x8000) % 0x1_0000 - 0x8000
  }

  /**
   * The four neighbours of a cell, in the order fill visits them.  The
   * source computes `x+1`, `y+1`, `x-1` and `y-1` in `i16`, so past the
   * edge of the range a neighbour wraps to the other end.
   */
  function Neighbour(p: Point, i: nat): Point
    requires i < 4
  {
    if i == 0 then Point(WrapI16(p.x + 1), p.y)
    else if i == 1 then Point(p.x, WrapI16(p.y + 1))
    else if i == 2 then Point(WrapI16(p.x - 1), p.y)
    else Point(p.x, WrapI16(p.y - 1))
  }

  predicate Adjacent(p: Point, q: Point)
  {
    q == Neighbour(p, 0) || q == Neighbour(p, 1) || q == Neighbour(p, 2) || q == Neighbour(p, 3)
  }

  /** A 4-connected walk through cells that all hold `colour` (or are all empty). */
  ghost predicate IsWalk<C>(m: map<Point, C>, walk: seq<Point>, colour: Option<C>)
  {
    && |walk| >= 1
    && (forall i | 0 <= i < |walk| :: Lookup(m, walk[i]) == colour)
    && (forall i | 0 <= i < |walk| - 1 :: Adjacent(walk[i], walk[i + 1]))
  }

  /** `q` is in the 4-connected region of cells coloured like `seed`. */
  ghost predicate InRegion<C>(m: map<Point, C>, seed: Point, q: Point)
  {
    exists walk :: IsWalk(m, walk, Lookup(m, seed)) && walk[0] == seed && walk[|walk| - 1] == q
  }

  /** The region stays inside the box (lo, hi). */
  ghost predicate Enclosed<C>(m: map<Point, C>, seed: Point, lo: Point, hi: Point)
  {
    forall q | InRegion(m, seed, q) :: InBox(lo, hi, q)
  }

  lemma SeedInRegion<C>(m: map<Point, C>, seed: Point)
    ensures InRegion(m, seed, seed)
  {
    assert IsWalk(m, [seed], Lookup(m, seed));
  }

  /** A region cell's neighbour of the same colour is in the region too. */
  lemma RegionStep<C>(m: map<Point, C>, seed: Point, p: Point, q: Point)
    requires InRegion(m, seed, p) && Adjacent(p, q) && Lookup(m, q) == Lookup(m, seed)
    ensures InRegion(m, seed, q)
  {
    var walk :| IsWalk(m, walk, Lookup(m, seed)) && walk[0] == seed && walk[|walk| - 1] == p;
    var walk' := walk + [q];
    assert IsWalk(m, walk', Lookup(m, seed));
  }

  /**
   * A set that contains the seed and, with every member, each same-coloured
   * neighbour, contains the whole region.
   */
  lemma {:induction false} ClosedSetHoldsRegion<C>(m: map<Point, C>, seed: Point, s: set<Point>, walk: seq<Point>)
    requires seed in s
    requires forall p, i | p in s && 0 <= i < 4 :: Lookup(m, Neighbour(p, i)) == Lookup(m, seed) ==> Neighbour(p, i) in s
    requires IsWalk(m, walk, Lookup(m, seed)) && walk[0] == seed
    ensures walk[|walk| - 1] in s
    decreases |walk|
  {
    if |walk| > 1 {
      var front := walk[..|walk| - 1];
      assert IsWalk(m, front, Lookup(m, seed));
      ClosedSetHoldsRegion(m, seed, s, front);
      var p, q := walk[|walk| - 2], walk[|walk| - 1];
      assert Adjacent(p, q) && Lookup(m, q) == Lookup(m, seed);
      if q == Neighbour(p, 0) {
      } else if q == Neighbour(p, 1) {
      } else if q == Neighbour(p, 2) {
      } else {
        assert q == Neighbour(p, 3);
      }
    }
  }

  /** Painted cells lie in the bounding box of the canvas. */
  lemma PaintedInBounds<C>(m: map<Point, C>, p: Point)
    requires p in m
    ensures InBox(Bounds(m).0, Bounds(m).1, p)
  {
  }

  /**
   * Filling from a painted seed never escapes the box: every cell of its
   * region holds the seed's colour, so it is painted and therefore inside
   * the bounding box.
   */
  lemma PaintedSeedEnclosed<C>(m: map<Point, C>, seed: Point)
    requires seed in m
    ensures Enclosed(m, seed, Bounds(m).0, Bounds(m).1)
  {
    forall q | InRegion(m, seed, q)
      ensures InBox(Bounds(m).0, Bounds(m).1, q)
    {
      var walk :| IsWalk(m, walk, Lookup(m, seed)) && walk[0] == seed && walk[|walk| - 1] == q;
      assert Lookup(m, walk[|walk| - 1]) == Lookup(m, seed);
      PaintedInBounds(m, q);
    }
  }

  /**
   * The `i16` wrap at work: on a canvas with pixels at (32767,0), (32767,2),
   * (32766,1) and (-32768,1), the empty cell (32767,1) is walled in on all
   * four sides, since its right-hand neighbour is (-32768,1).  Its region is
   * the cell alone, inside the canvas bounds, so a fill from it recolours it.
   */
  lemma EdgeWrapEncloses<C>(a: C)
    ensures var m := map[Point(32767, 0) := a, Point(32767, 2) := a, Point(32766, 1) := a, Point(-32768, 1) := a];
            && Bounds(m) == (Point(-32768, 0), Point(32767, 2))
            && (forall q :: InRegion(m, Point(32767, 1), q) <==> q == Point(32767, 1))
            && Enclosed(m, Point(32767, 1), Bounds(m).0, Bounds(m).1)
  {
    var m := map[Point(32767, 0) := a, Point(32767, 2) := a, Point(32766, 1) := a, Point(-32768, 1) := a];
    var seed, lo, hi := Point(32767, 1), Point(-32768, 0), Point(32767, 2);
    assert Point(-32768, 1) in m.Keys && Point(32767, 0) in m.Keys && Point(32767, 2) in m.Keys;
    assert IsBoundingBox(m.Keys, lo, hi);
    BoundsAre(m, lo, hi);
    assert Neighbour(seed, 0) == Point(-32768, 1) && Neighbour(seed, 1) == Point(32767, 2);
    assert Neighbour(seed, 2) == Point(32766, 1) && Neighbour(seed, 3) == Point(32767, 0);
    forall q | InRegion(m, seed, q)
      ensures q == seed
    {
      var walk :| IsWalk(m, walk, Lookup(m, seed)) && walk[0] == seed && walk[|walk| - 1] == q;
      assert |walk| > 1 ==> Adjacent(walk[0], walk[1]);
    }
    SeedInRegion(m, seed);
  }

  /** How many entries of the stack are already checked. */
  function CountChecked(stack: seq<Point>, checked: set<Point>): nat
  {
    if stack == [] then 0
    else CountChecked(stack[..|stack| - 1], checked) + (if stack[|stack| - 1] in checked then 1 else 0)
  }

  /** All cells of the box, a finite set. */
  function BoxCells(lo: Point, hi: Point): (cells: set<Point>)
    ensures forall p :: p in cells <==> InBox(lo, hi, p)
  {
    set x, y | lo.x <= x <= hi.x && lo.y <= y <= hi.y :: Point(x, y)
  }

  lemma CountPush(stack: seq<Point>, checked: set<Point>, q: Point)
    requires q !in checked
    ensures CountChecked(stack + [q], checked) == CountChecked(stack, checked)
  {
    assert (stack + [q])[..|stack|] == stack;
  }

  class PixelArray<C(==)> {
    /** The stored pixels: the colour of each painted cell. */
    var pixels: map<Point, C>

    constructor ()
      ensures pixels == map[]
    {
      pixels := map[];
    }

    /** PixelArray::insert: replace whatever pixel is at that cell. */
    method Insert(pixel: Pixel<C>)
      modifies this
      ensures pixels == old(pixels)[pixel.pos := pixel.col]
      ensures Lookup(pixels, pixel.pos) == Some(pixel.col)
      ensures forall p | p != pixel.pos :: Lookup(pixels, p) == Lookup(old(pixels), p)
    {
      pixels := pixels[pixel.pos := pixel.col];
    }

    /** PixelArray::remove: delete the pixel at `pos`, if any. */
    method Remove(pos: Point)
      modifies this
      ensures pixels == old(pixels) - {pos}
      ensures Lookup(pixels, pos) == None
      ensures forall p | p != pos :: Lookup(pixels, p) == Lookup(old(pixels), p)
    {
      pixels := pixels - {pos};
    }

    /** PixelArray::get: the pixel at `pos`, or None. */
    function Get(pos: Point): (r: Option<Pixel<C>>)
      reads this
      ensures r.Some? <==> pos in pixels
      ensures r.Some? ==> r.value.pos == pos && Lookup(pixels, pos) == Some(r.value.col)
    {
      if pos in pixels then Some(Pixel(pos, pixels[pos])) else None
    }

    /** PixelArray::get_bounds: the corners of the smallest box holding every pixel. */
    method GetBounds() returns (lo: Point, hi: Point)
      ensures (lo, hi) == Bounds(pixels)
      ensures pixels == map[] ==> lo == Point(-1, -1) && hi == Point(1, 1)
      ensures pixels != map[] ==> IsBoundingBox(pixels.Keys, lo, hi)
    {
      if pixels == map[] {
        return Point(-1, -1), Point(1, 1);
      }
      var rest := pixels.Keys;
      var first :| first in rest;
      var minx, miny, maxx, maxy := first.x, first.y, first.x, first.y;
      rest := rest - {first};
      assert pixels.Keys - rest == {first};
      while rest != {}
        invariant rest <= pixels.Keys && minx <= maxx && miny <= maxy
        invariant IsBoundingBox(pixels.Keys - rest, Point(minx, miny), Point(maxx, maxy))
        decreases |rest|
      {
        var p :| p in rest;
        ghost var lo0, hi0 := Point(minx, miny), Point(maxx, maxy);
        if minx > p.x {
          minx := p.x;
        } else if maxx < p.x {
          maxx := p.x;
        }
        if miny > p.y {
          miny := p.y;
        } else if maxy < p.y {
          maxy := p.y;
        }
        assert Point(minx, miny) == Point(Min(lo0.x, p.x), Min(lo0.y, p.y));
        assert Point(maxx, maxy) == Point(Max2(hi0.x, p.x), Max2(hi0.y, p.y));
        BoxGrows(pixels.Keys, rest, lo0, hi0, p);
        rest := rest - {p};
      }
      lo, hi := Point(minx, miny), Point(maxx, maxy);
      assert pixels.Keys - rest == pixels.Keys;
      BoundsAre(pixels, lo, hi);
    }

    /**
     * One step of the worklist loop of PixelArray::fill: push each neighbour
     * of `pos`, in the source's order, that is unchecked and coloured `oldCol`.
     */
    method PushNeighbours(pos: Point, oldCol: Option<C>, checked: set<Point>, stack: seq<Point>)
      returns (stack': seq<Point>)
      ensures |stack'| >= |stack| && stack'[..|stack|] == stack
      ensures forall j | |stack| <= j < |stack'| :: stack'[j] !in checked && Lookup(pixels, stack'[j]) == oldCol
      ensures forall j | |stack| <= j < |stack'| :: Adjacent(pos, stack'[j])
      ensures forall i | 0 <= i < 4 :: Neighbour(pos, i) !in checked && Lookup(pixels, Neighbour(pos, i)) == oldCol ==> Neighbour(pos, i) in stack'
      ensures CountChecked(stack', checked) == CountChecked(stack, checked)
    {
      stack' := stack;
      var i := 0;
      while i < 4
        invariant 0 <= i <= 4
        invariant |stack'| >= |stack| && stack'[..|stack|] == stack
        invariant forall j | |stack| <= j < |stack'| :: stack'[j] !in checked && Lookup(pixels, stack'[j]) == oldCol
        invariant forall j | |stack| <= j < |stack'| :: Adjacent(pos, stack'[j])
        invariant forall k | 0 <= k < i :: Neighbour(pos, k) !in checked && Lookup(pixels, Neighbour(pos, k)) == oldCol ==> Neighbour(pos, k) in stack'
        invariant CountChecked(stack', checked) == CountChecked(stack, checked)
      {
        var n := Neighbour(pos, i);
        if n !in checked && Lookup(pixels, n) == oldCol {
          CountPush(stack', checked, n);
          stack' := stack' + [n];
        }
        i := i + 1;
      }
    }

    /**
     * The worklist loop of PixelArray::fill.  It returns the cells to
     * recolour: the seed's region when that stays inside (lo, hi), and
     * nothing when the flood reaches a cell outside it.
     */
    method Flood(seed: Point, lo: Point, hi: Point) returns (additions: set<Point>)
      ensures Enclosed(pixels, seed, lo, hi) ==> forall q :: q in additions <==> InRegion(pixels, seed, q)
      ensures !Enclosed(pixels, seed, lo, hi) ==> additions == {}
    {
      var oldCol := Lookup(pixels, seed);
      var unchecked := [seed];
      var checked: set<Point> := {};
      additions := {};
      SeedInRegion(pixels, seed);
      var escaped := false;
      while unchecked != []
        invariant !escaped && additions == checked
        invariant FloodInv(seed, lo, hi, checked, unchecked)
        decreases |BoxCells(lo, hi) - checked|, CountChecked(unchecked, checked)
      {
        var pos := unchecked[|unchecked| - 1];
        var popped := unchecked[..|unchecked| - 1];
        if !InBox(lo, hi, pos) {
          additions := {};
          escaped := true;
          break;
        }
        var pushed := PushNeighbours(pos, oldCol, checked, popped);
        FloodStep(seed, lo, hi, checked, unchecked, pos, pushed);
        FloodProgress(lo, hi, checked, unchecked, pushed);
        unchecked := pushed;
        additions := additions + {pos};
        checked := checked + {pos};
      }
      if escaped {
        FloodEscapes(seed, lo, hi, unchecked);
      } else {
        FloodDone(seed, lo, hi, checked);
      }
    }

    /** When the flood pops a cell outside the box, the region is not enclosed. */
    lemma FloodEscapes(seed: Point, lo: Point, hi: Point, stack: seq<Point>)
      requires stack != [] && forall i | 0 <= i < |stack| :: InRegion(pixels, seed, stack[i])
      requires !InBox(lo, hi, stack[|stack| - 1])
      ensures !Enclosed(pixels, seed, lo, hi)
    {
      assert InRegion(pixels, seed, stack[|stack| - 1]);
    }

    /** When the stack runs dry, the checked cells are exactly the region, and it is enclosed. */
    lemma FloodDone(seed: Point, lo: Point, hi: Point, checked: set<Point>)
      requires FloodInv(seed, lo, hi, checked, [])
      ensures Enclosed(pixels, seed, lo, hi)
      ensures forall q :: q in checked <==> InRegion(pixels, seed, q)
    {
      RegionChecked(seed, checked);
    }

    /** Each step of the worklist loop decreases (unchecked cells of the box, checked cells on the stack). */
    lemma FloodProgress(lo: Point, hi: Point, checked: set<Point>, stack: seq<Point>, pushed: seq<Point>)
      requires stack != [] && InBox(lo, hi, stack[|stack| - 1])
      requires CountChecked(pushed, checked) == CountChecked(stack[..|stack| - 1], checked)
      ensures var checked' := checked + {stack[|stack| - 1]};
              || |BoxCells(lo, hi) - checked'| < |BoxCells(lo, hi) - checked|
              || (|BoxCells(lo, hi) - checked'| == |BoxCells(lo, hi) - checked| && CountChecked(pushed, checked') < CountChecked(stack, checked))
    {
      var pos := stack[|stack| - 1];
      if pos !in checked {
        assert BoxCells(lo, hi) - (checked + {pos}) == (BoxCells(lo, hi) - checked) - {pos};
      } else {
        assert checked + {pos} == checked;
      }
    }

    /**
     * The invariant of the worklist loop: checked cells are region cells
     * inside the box, stacked cells are region cells, the seed is checked or
     * stacked, and the checked cells are closed up to the stack.
     */
    ghost predicate FloodInv(seed: Point, lo: Point, hi: Point, checked: set<Point>, stack: seq<Point>)
      reads this
    {
      && (forall q | q in checked :: InRegion(pixels, seed, q) && InBox(lo, hi, q))
      && (forall i | 0 <= i < |stack| :: InRegion(pixels, seed, stack[i]))
      && (seed in checked || seed in stack)
      && Closed(pixels, Lookup(pixels, seed), checked, stack)
    }

    /** Popping the top cell and pushing its unchecked same-coloured neighbours keeps FloodInv. */
    lemma FloodStep(seed: Point, lo: Point, hi: Point, checked: set<Point>, stack: seq<Point>, pos: Point, pushed: seq<Point>)
      requires FloodInv(seed, lo, hi, checked, stack)
      requires stack != [] && pos == stack[|stack| - 1] && InBox(lo, hi, pos)
      requires |pushed| >= |stack| - 1 && pushed[..|stack| - 1] == stack[..|stack| - 1]
      requires forall j | |stack| - 1 <= j < |pushed| :: Lookup(pixels, pushed[j]) == Lookup(pixels, seed)
      requires forall j | |stack| - 1 <= j < |pushed| :: Adjacent(pos, pushed[j])
      requires forall i | 0 <= i < 4 ::
                 Neighbour(pos, i) !in checked && Lookup(pixels, Neighbour(pos, i)) == Lookup(pixels, seed) ==> Neighbour(pos, i) in pushed
      ensures FloodInv(seed, lo, hi, checked + {pos}, pushed)
    {
      PushedInRegion(seed, pos, stack, pushed);
      StayClosed(Lookup(pixels, seed), checked, stack, pos, pushed);
      if seed !in checked + {pos} {
        var j :| 0 <= j < |stack| && stack[j] == seed;
        assert pushed[j] == stack[j];
      }
    }

    /** A closed set of cells that holds the seed holds its whole region. */
    lemma RegionChecked(seed: Point, checked: set<Point>)
      requires seed in checked && Closed(pixels, Lookup(pixels, seed), checked, [])
      ensures forall q | InRegion(pixels, seed, q) :: q in checked
    {
      forall q | InRegion(pixels, seed, q)
        ensures q in checked
      {
        var walk :| IsWalk(pixels, walk, Lookup(pixels, seed)) && walk[0] == seed && walk[|walk| - 1] == q;
        ClosedSetHoldsRegion(pixels, seed, checked, walk);
      }
    }

    /**
     * Every same-coloured neighbour of a checked cell is checked or still
     * waiting on the stack.
     */
    ghost predicate Closed(m: map<Point, C>, oldCol: Option<C>, checked: set<Point>, stack: seq<Point>)
    {
      forall p, i | p in checked && 0 <= i < 4 ::
        Lookup(m, Neighbour(p, i)) == oldCol ==> Neighbour(p, i) in checked || Neighbour(p, i) in stack
    }

    /** Cells pushed while processing a region cell are region cells. */
    lemma PushedInRegion(seed: Point, pos: Point, stack: seq<Point>, pushed: seq<Point>)
      requires stack != [] && forall i | 0 <= i < |stack| :: InRegion(pixels, seed, stack[i])
      requires |pushed| >= |stack| - 1 && pushed[..|stack| - 1] == stack[..|stack| - 1]
      requires forall j | |stack| - 1 <= j < |pushed| :: Lookup(pixels, pushed[j]) == Lookup(pixels, seed)
      requires forall j | |stack| - 1 <= j < |pushed| :: Adjacent(pos, pushed[j])
      requires pos == stack[|stack| - 1]
      ensures forall j | 0 <= j < |pushed| :: InRegion(pixels, seed, pushed[j])
    {
      forall j | 0 <= j < |pushed|
        ensures InRegion(pixels, seed, pushed[j])
      {
        if j < |stack| - 1 {
          assert pushed[j] == stack[j];
        } else {
          RegionStep(pixels, seed, pos, pushed[j]);
        }
      }
    }

    lemma StayClosed(oldCol: Option<C>, checked: set<Point>, stack: seq<Point>, pos: Point, pushed: seq<Point>)
      requires stack != [] && pos == stack[|stack| - 1]
      requires Closed(pixels, oldCol, checked, stack)
      requires |pushed| >= |stack| - 1 && pushed[..|stack| - 1] == stack[..|stack| - 1]
      requires forall i | 0 <= i < 4 :: Neighbour(pos, i) !in checked && Lookup(pixels, Neighbour(pos, i)) == oldCol ==> Neighbour(pos, i) in pushed
      ensures Closed(pixels, oldCol, checked + {pos}, pushed)
    {
      forall p, i | p in checked + {pos} && 0 <= i < 4 && Lookup(pixels, Neighbour(p, i)) == oldCol
        ensures Neighbour(p, i) in checked + {pos} || Neighbour(p, i) in pushed
      {
        var n := Neighbour(p, i);
        if p != pos && n !in checked && n != pos {
          var j :| 0 <= j < |stack| && stack[j] == n;
          assert pushed[j] == stack[j];
        }
      }
    }

    /**
     * PixelArray::fill: recolour (or erase, when `col` is None) the
     * 4-connected region of cells coloured like `pos`, unless that region
     * reaches outside the bounding box, in which case nothing changes.
     */
    method Fill(pos: Point, col: Option<C>)
      modifies this
      ensures var (lo, hi) := Bounds(old(pixels));
              !Enclosed(old(pixels), pos, lo, hi) ==> pixels == old(pixels)
      ensures var (lo, hi) := Bounds(old(pixels));
              Enclosed(old(pixels), pos, lo, hi) ==>
                forall p :: Lookup(pixels, p) == if InRegion(old(pixels), pos, p) then col else Lookup(old(pixels), p)
    {
      var lo, hi := GetBounds();
      var additions := Flood(pos, lo, hi);
      if additions != {} {
        ghost var before := pixels;
        var rest := additions;
        while rest != {}
          invariant rest <= additions
          invariant forall p :: Lookup(pixels, p) == if p in additions - rest then col else Lookup(before, p)
          decreases |rest|
        {
          var p :| p in rest;
          match col {
            case Some(c) => Insert(Pixel(p, c));
            case None => Remove(p);
          }
          rest := rest - {p};
        }
        assert additions - rest == additions;
      }
    }

    /**
     * PixelArray::line: paint `col` on (or erase, when None) every point the
     * Bresenham iterator yields from `start` to `end`, both included.
     */
    method Line(start: Point, end: Point, col: Option<C>)
      modifies this
      ensures forall p :: Lookup(pixels, p) == if p in BL.Line(start, end) then col else Lookup(old(pixels), p)
    {
      var it := new BL.Bresenham(start, end);
      while true
        invariant it.Valid() && it.start == start && it.end == end
        invariant it.yielded == BL.Line(start, end)[..|it.yielded|]
        invariant forall p :: Lookup(pixels, p) == if p in it.yielded then col else Lookup(old(pixels), p)
        decreases it.Remaining()
      {
        var next := it.Next();
        if next.None? {
          break;
        }
        match col {
          case Some(c) => Insert(Pixel(next.value, c));
          case None => Remove(next.value);
        }
      }
      assert it.yielded == BL.Line(start, end);
    }
  }
}
