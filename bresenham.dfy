/**
 * The Bresenham line iterator of src/bresenham.rs.
 *
 * A segment is first reduced to octant 0 (0 <= dy <= dx) by one of eight
 * signed axis permutations, stepped there one column at a time, and every
 * point is mapped back before it is yielded.  Coordinates are unbounded
 * integers here; the source's 16-bit arithmetic is the subject of module
 * BresenhamI16.
 */
module Bresenham {
  import opened Wrappers

  /** A canvas cell, `[i16; 2]` in the source. */
  datatype Point = Point(x: int, y: int)

  /** The byte wrapped by `Octant`; only 0..7 are meaningful. */
  type Octant = n: nat | n < 256

  function Abs(n: int): nat { if n < 0 then -n else n }

  function Max(a: int, b: int): int { if a < b then b else a }

  /** Octant::from_points: classify the direction from start to end. */
  function FromPoints(start: Point, end: Point): (o: Octant)
    ensures o < 8
  {
    var dx, dy := end.x - start.x, end.y - start.y;
    var (dx1, dy1, o1) := if dy < 0 then (-dx, -dy, 4) else (dx, dy, 0);
    var (dx2, dy2, o2) := if dx1 < 0 then (dy1, -dx1, o1 + 2) else (dx1, dy1, o1);
    if dx2 < dy2 then o2 + 1 else o2
  }

  /** Octant::to_octant0: the signed axis permutation taking octant `o` to octant 0. */
  function ToOctant0(o: Octant, p: Point): (r: Point)
    requires o < 8
  {
    if o == 0 then Point(p.x, p.y)
    else if o == 1 then Point(p.y, p.x)
    else if o == 2 then Point(p.y, -p.x)
    else if o == 3 then Point(-p.x, p.y)
    else if o == 4 then Point(-p.x, -p.y)
    else if o == 5 then Point(-p.y, -p.x)
    else if o == 6 then Point(-p.y, p.x)
    else Point(p.x, -p.y)
  }

  /** Octant::from_octant0: the inverse permutation. */
  function FromOctant0(o: Octant, p: Point): (r: Point)
    requires o < 8
  {
    if o == 0 then Point(p.x, p.y)
    else if o == 1 then Point(p.y, p.x)
    else if o == 2 then Point(-p.y, p.x)
    else if o == 3 then Point(-p.x, p.y)
    else if o == 4 then Point(-p.x, -p.y)
    else if o == 5 then Point(-p.y, -p.x)
    else if o == 6 then Point(p.y, -p.x)
    else Point(p.x, -p.y)
  }

  /**
   * The reference definition of the line: in octant-0 coordinates, column
   * k of a segment with extent (dx, dy) lies on the row nearest the ideal
   * line y = k * dy / dx, a tie going to the lower row.
   */
  ghost function Row(k: int, dx: int, dy: int): int
  {
    if dx <= 0 then 0
    else
      RowExists(k, dx, dy);
      var m :| NearestRow(k, m, dx, dy); m
  }

  /** `m` is the nearest row to the ideal line at column `k` (ties rounded down). */
  predicate NearestRow(k: int, m: int, dx: int, dy: int)
  {
    2 * dx * m - dx < 2 * dy * k <= 2 * dx * m + dx
  }

  /** The transformed start of the segment. */
  function Start0(start: Point, end: Point): Point
  {
    ToOctant0(FromPoints(start, end), start)
  }

  /** The transformed end of the segment. */
  function End0(start: Point, end: Point): Point
  {
    ToOctant0(FromPoints(start, end), end)
  }

  /** The k-th point of the line from start to end, in original coordinates. */
  ghost function LinePoint(start: Point, end: Point, k: int): Point
  {
    var s, e := Start0(start, end), End0(start, end);
    FromOctant0(FromPoints(start, end), Point(s.x + k, s.y + Row(k, e.x - s.x, e.y - s.y)))
  }

  /** The number of points on the line from start to end. */
  function LineLength(start: Point, end: Point): nat
  {
    End0(start, end).x - Start0(start, end).x + 1
  }

  /** Every point the iterator created by `new(start, end)` yields, in order. */
  ghost function Line(start: Point, end: Point): (pts: seq<Point>)
  {
    seq(LineLength(start, end), k => LinePoint(start, end, k))
  }

  lemma {:induction false} MulAtLeast(d: int, t: int)
    requires d > 0 && t >= 1
    ensures d * t >= d
  {
    assert d * t == d * (t - 1) + d;
    if t > 1 { MulAtLeast(d, t - 1); }
  }

  /** For dx > 0 every column has a nearest row ... */
  lemma RowExists(k: int, dx: int, dy: int)
    requires dx > 0
    ensures NearestRow(k, (2 * dy * k + dx - 1) / (2 * dx), dx, dy)
  {
    var n, d := 2 * dy * k + dx - 1, 2 * dx;
    var q := n / d;
    assert d * q <= n < d * q + d;
  }

  /**
   * After the transform of Bresenham::new the segment lies in octant 0, and
   * its x extent is the larger of the two coordinate distances.
   */
  lemma InOctant0(start: Point, end: Point)
    ensures var s, e := Start0(start, end), End0(start, end);
            0 <= e.y - s.y <= e.x - s.x
  {
  }

  /** The x extent in octant 0 is the larger of the two coordinate distances. */
  lemma Octant0Extent(start: Point, end: Point)
    ensures End0(start, end).x - Start0(start, end).x
            == Max(Abs(end.x - start.x), Abs(end.y - start.y))
  {
  }

  /** to_octant0 and from_octant0 are mutually inverse in every octant. */
  lemma OctantRoundTrip(o: Octant, p: Point)
    requires o < 8
    ensures FromOctant0(o, ToOctant0(o, p)) == p
    ensures ToOctant0(o, FromOctant0(o, p)) == p
  {
  }

  /** ... and it is unique. */
  lemma RowIsNearest(k: int, m: int, dx: int, dy: int)
    requires dx > 0 && NearestRow(k, m, dx, dy)
    ensures Row(k, dx, dy) == m
  {
    var r := Row(k, dx, dy);
    var t := r - m;
    assert 2 * dx * t == 2 * dx * r - 2 * dx * m;
    if t >= 1 { MulAtLeast(2 * dx, t); }
    if t <= -1 { MulAtLeast(2 * dx, -t); }
  }

  /** The first column lies on row 0, the last on row dy. */
  lemma RowAtEnds(dx: int, dy: int)
    requires 0 <= dy <= dx
    ensures Row(0, dx, dy) == 0 && Row(dx, dx, dy) == dy
  {
    if dx > 0 {
      assert NearestRow(0, 0, dx, dy);
      assert NearestRow(dx, dy, dx, dy) by { assert dy * dx == dx * dy; }
      RowIsNearest(0, 0, dx, dy);
      RowIsNearest(dx, dy, dx, dy);
    }
  }

  /**
   * One Bresenham step.  If m is the row of column k, the error term of
   * column k is diff = 2dy(k+1) - 2dx*m - dx; the row of column k + 1 is one
   * higher exactly when diff > 0, and the updated error term is that of
   * column k + 1.
   */
  lemma RowStep(k: int, m: int, dx: int, dy: int)
    requires 0 <= dy <= dx && dx > 0 && NearestRow(k, m, dx, dy)
    ensures var diff := 2 * dy * (k + 1) - 2 * dx * m - dx;
            var m' := if diff > 0 then m + 1 else m;
            var diff' := (if diff > 0 then diff - 2 * dx else diff) + 2 * dy;
            && NearestRow(k + 1, m', dx, dy)
            && diff' == 2 * dy * (k + 2) - 2 * dx * m' - dx
  {
  }

  lemma LineAt(start: Point, end: Point, k: int)
    requires 0 <= k < LineLength(start, end)
    ensures |Line(start, end)| == LineLength(start, end)
    ensures Line(start, end)[k] == LinePoint(start, end, k)
  {
  }

  /** The line's length is the larger of the two coordinate distances, plus one. */
  lemma LineLengthIsExtent(start: Point, end: Point)
    ensures |Line(start, end)| == LineLength(start, end)
    ensures LineLength(start, end) == Max(Abs(end.x - start.x), Abs(end.y - start.y)) + 1
  {
    InOctant0(start, end);
    Octant0Extent(start, end);
  }

  /** The line starts at `start` and ends at `end`: both endpoints are included. */
  lemma LineEndpoints(start: Point, end: Point)
    ensures |Line(start, end)| >= 1
    ensures Line(start, end)[0] == start
    ensures Line(start, end)[|Line(start, end)| - 1] == end
  {
    var o, s, e := FromPoints(start, end), Start0(start, end), End0(start, end);
    var dx, dy := e.x - s.x, e.y - s.y;
    InOctant0(start, end);
    OctantRoundTrip(o, start);
    OctantRoundTrip(o, end);
    RowAtEnds(dx, dy);
    LineAt(start, end, 0);
    LineAt(start, end, dx);
    assert LinePoint(start, end, 0) == FromOctant0(o, s);
    assert LinePoint(start, end, dx) == FromOctant0(o, e);
  }

  /** In octant-0 coordinates, column k + 1 is on the row of column k or the one above. */
  lemma RowAdvance(k: int, dx: int, dy: int)
    requires 0 <= dy <= dx
    ensures Row(k, dx, dy) <= Row(k + 1, dx, dy) <= Row(k, dx, dy) + 1
  {
    if dx > 0 {
      var m := Row(k, dx, dy);
      RowStep(k, m, dx, dy);
      var diff := 2 * dy * (k + 1) - 2 * dx * m - dx;
      RowIsNearest(k + 1, if diff > 0 then m + 1 else m, dx, dy);
    }
  }

  /**
   * Consecutive points differ by at most 1 in each coordinate and are never
   * equal, so the line is 8-connected.
   */
  lemma LineConnected(start: Point, end: Point, k: nat)
    requires k + 1 < |Line(start, end)|
    ensures var p, q := Line(start, end)[k], Line(start, end)[k + 1];
            p != q && -1 <= q.x - p.x <= 1 && -1 <= q.y - p.y <= 1
  {
    var o, s, e := FromPoints(start, end), Start0(start, end), End0(start, end);
    var dx, dy := e.x - s.x, e.y - s.y;
    InOctant0(start, end);
    RowAdvance(k, dx, dy);
    var a := Point(s.x + k, s.y + Row(k, dx, dy));
    var b := Point(s.x + k + 1, s.y + Row(k + 1, dx, dy));
    LineAt(start, end, k);
    LineAt(start, end, k + 1);
    NeighboursStayNeighbours(o, a, b);
  }

  /** A signed axis permutation keeps 8-neighbours 8-neighbours. */
  lemma NeighboursStayNeighbours(o: Octant, a: Point, b: Point)
    requires o < 8 && b.x == a.x + 1 && a.y <= b.y <= a.y + 1
    ensures var p, q := FromOctant0(o, a), FromOctant0(o, b);
            p != q && -1 <= q.x - p.x <= 1 && -1 <= q.y - p.y <= 1
  {
  }

  /**
   * The iterator's arithmetic invariant at column k of octant 0: m is the
   * row of column k and diff is the error term Bresenham keeps for it.
   */
  ghost predicate Stepping(k: int, m: int, dx: int, dy: int, diff: int)
  {
    m == Row(k, dx, dy) && diff == 2 * dy * (k + 1) - 2 * dx * m - dx
  }

  /** The loop body of Iterator::next keeps the arithmetic invariant. */
  lemma Advance(k: int, m: int, dx: int, dy: int, diff: int)
    requires 0 <= dy <= dx && Stepping(k, m, dx, dy, diff)
    ensures var m' := if diff > 0 then m + 1 else m;
            var diff' := (if diff > 0 then diff - 2 * dx else diff) + 2 * dy;
            Stepping(k + 1, m', dx, dy, diff')
  {
    if dx > 0 {
      RowStep(k, m, dx, dy);
      RowIsNearest(k + 1, if diff > 0 then m + 1 else m, dx, dy);
    }
  }

  /**
   * The iterator state.  In octant-0 coordinates it sits at column x of a
   * segment whose last column is x1; `yielded` is the ghost record of the
   * points returned so far.
   */
  class Bresenham {
    var x: int
    var y: int
    const dx: int
    const dy: int
    const x1: int
    var diff: int
    const octant: Octant
    ghost const start: Point
    ghost const end: Point
    ghost const s0: Point
    ghost var yielded: seq<Point>

    ghost predicate Valid()
      reads this
    {
      && octant == FromPoints(start, end)
      && s0 == Start0(start, end)
      && x1 == End0(start, end).x && dx == x1 - s0.x && dy == End0(start, end).y - s0.y
      && 0 <= dy <= dx
      && s0.x <= x <= x1 + 1
      && Stepping(x - s0.x, y - s0.y, dx, dy, diff)
      && yielded == Line(start, end)[..x - s0.x]
    }

    /** How many points are still to come; the iterator terminates. */
    ghost function Remaining(): nat
      reads this
      requires Valid()
    {
      x1 + 1 - x
    }

    /** Bresenham::new */
    constructor (start: Point, end: Point)
      ensures this.start == start && this.end == end
      ensures Valid() && yielded == []
      ensures Remaining() == |Line(start, end)|
    {
      var o := FromPoints(start, end);
      var s := ToOctant0(o, start);
      var e := ToOctant0(o, end);
      var dx0 := e.x - s.x;
      var dy0 := e.y - s.y;
      InOctant0(start, end);
      RowAtEnds(dx0, dy0);
      x, y := s.x, s.y;
      dx, dy := dx0, dy0;
      x1 := e.x;
      diff := 2 * dy0 - dx0;
      octant := o;
      this.start, this.end, s0 := start, end, s;
      yielded := [];
    }

    /** Iterator::next: the next point of the line, or None once it is exhausted. */
    method Next() returns (p: Option<Point>)
      requires Valid()
      modifies this
      ensures Valid()
      ensures p.None? <==> old(Remaining()) == 0
      ensures p.None? ==> yielded == old(yielded) && Remaining() == 0
      ensures p.Some? ==> p.value == Line(start, end)[|old(yielded)|]
                          && yielded == old(yielded) + [p.value]
                          && Remaining() == old(Remaining()) - 1
    {
      if x > x1 {
        return None;
      }
      ghost var k := x - s0.x;
      Advance(k, y - s0.y, dx, dy, diff);
      var q := Point(x, y);
      if diff > 0 {
        y := y + 1;
        diff := diff - 2 * dx;
      }
      diff := diff + 2 * dy;
      x := x + 1;
      var r := FromOctant0(octant, q);
      LineAt(start, end, k);
      assert Line(start, end)[..k + 1] == Line(start, end)[..k] + [r];
      yielded := yielded + [r];
      return Some(r);
    }
  }
}
