/**
 * The line iterator of src/bresenham.rs as written, on `i16` coordinates.
 *
 * In a release build Rust's `i16` arithmetic wraps modulo 2^16 (a debug
 * build panics instead).  Every subtraction, negation, doubling and
 * increment of the source is wrapped here.  For a segment whose extent does
 * not fit in `i16` the octant is then misclassified and the iterator yields
 * nothing, although the iterator promises to include both endpoints.  The
 * rest of the model uses module Bresenham, where coordinates are unbounded.
 */
module BresenhamI16 {
  import opened Wrappers
  import B = Bresenham

  /** An `i16`. */
  type I16 = x: int | -0x8000 <= x < 0x8000

  /**
   * Two's-complement wrap-around into `i16`, for the results the iterator
   * can produce: a sum, difference or double of `i16` values lies within
   * one period of the range.
   */
  function Wrap(n: int): (r: I16)
    requires -0x1_0000 <= n < 0x1_0000
    ensures -0x8000 <= n < 0x8000 ==> r == n
    ensures r == n || r == n + 0x1_0000 || r == n - 0x1_0000
  {
    if n < -0x8000 then n + 0x1_0000
    else if n >= 0x8000 then n - 0x1_0000
    else n
  }

  /** `-a` on `i16`. */
  function Neg(a: I16): I16 { Wrap(0 - (a as int)) }

  /** `a - b` on `i16`. */
  function Sub(a: I16, b: I16): I16 { Wrap((a as int) - (b as int)) }

  /** `a + b` on `i16`. */
  function Add(a: I16, b: I16): I16 { Wrap((a as int) + (b as int)) }

  /** `2 * a` on `i16`. */
  function Dbl(a: I16): I16 { Wrap(2 * (a as int)) }

  datatype Point16 = Point16(x: I16, y: I16)

  /** `Octant::from_points` with wrapping arithmetic. */
  function FromPoints(start: Point16, end: Point16): (o: B.Octant)
    ensures o < 8
  {
    var dx, dy := Sub(end.x, start.x), Sub(end.y, start.y);
    var dx1, dy1, o1 := if dy < 0 then Neg(dx) else dx, if dy < 0 then Neg(dy) else dy, if dy < 0 then 4 else 0;
    var dx2, dy2, o2 := if dx1 < 0 then dy1 else dx1, if dx1 < 0 then Neg(dx1) else dy1, if dx1 < 0 then o1 + 2 else o1;
    if dx2 < dy2 then o2 + 1 else o2
  }

  /** `Octant::to_octant0` with wrapping negation. */
  function ToOctant0(o: B.Octant, p: Point16): Point16
    requires o < 8
  {
    if o == 0 then Point16(p.x, p.y)
    else if o == 1 then Point16(p.y, p.x)
    else if o == 2 then Point16(p.y, Neg(p.x))
    else if o == 3 then Point16(Neg(p.x), p.y)
    else if o == 4 then Point16(Neg(p.x), Neg(p.y))
    else if o == 5 then Point16(Neg(p.y), Neg(p.x))
    else if o == 6 then Point16(Neg(p.y), p.x)
    else Point16(p.x, Neg(p.y))
  }

  /** `Octant::from_octant0` with wrapping negation. */
  function FromOctant0(o: B.Octant, p: Point16): Point16
    requires o < 8
  {
    if o == 0 then Point16(p.x, p.y)
    else if o == 1 then Point16(p.y, p.x)
    else if o == 2 then Point16(Neg(p.y), p.x)
    else if o == 3 then Point16(Neg(p.x), p.y)
    else if o == 4 then Point16(Neg(p.x), Neg(p.y))
    else if o == 5 then Point16(Neg(p.y), Neg(p.x))
    else if o == 6 then Point16(p.y, Neg(p.x))
    else Point16(p.x, Neg(p.y))
  }

  /** The fields of the `Bresenham` struct. */
  datatype State = State(x: I16, y: I16, dx: I16, dy: I16, x1: I16, diff: I16, octant: B.Octant)

  /** `Bresenham::new` with wrapping arithmetic. */
  function New(start: Point16, end: Point16): (s: State)
    ensures s.octant < 8
  {
    var o := FromPoints(start, end);
    var s0, e0 := ToOctant0(o, start), ToOctant0(o, end);
    var dx, dy := Sub(e0.x, s0.x), Sub(e0.y, s0.y);
    State(s0.x, s0.y, dx, dy, e0.x, Sub(Dbl(dy), dx), o)
  }

  /** `Iterator::next` with wrapping arithmetic: the point yielded, if any, and the new state. */
  function Next(s: State): (Option<Point16>, State)
    requires s.octant < 8
  {
    if s.x > s.x1 then (None, s)
    else
      var p := Point16(s.x, s.y);
      var (y, diff) := if s.diff > 0 then (Add(s.y, 1), Sub(s.diff, Dbl(s.dx))) else (s.y, s.diff);
      (Some(FromOctant0(s.octant, p)), s.(x := Add(s.x, 1), y := y, diff := Add(diff, Dbl(s.dy))))
  }

  /**
   * The horizontal segment from (-20000, 0) to (20000, 0): its extent 40000
   * wraps to -25536, so the segment is classified as running backwards
   * (octant 3) and the iterator starts past its last column.
   */
  lemma WideLineState()
    ensures New(Point16(-20000, 0), Point16(20000, 0)) == State(20000, 0, 25536, 0, -20000, -25536, 3)
  {
    var start, end := Point16(-20000, 0), Point16(20000, 0);
    assert Sub(end.x, start.x) == -25536 && Sub(end.y, start.y) == 0;
    OctantThree(start, end);
    assert Neg(start.x) == 20000 && Neg(end.x) == -20000;
    NewInOctantThree(start, end);
  }

  /** A horizontal segment whose extent wraps to -25536 is put in octant 3. */
  lemma OctantThree(start: Point16, end: Point16)
    requires Sub(end.x, start.x) == -25536 && Sub(end.y, start.y) == 0
    ensures FromPoints(start, end) == 3
  {
    assert Neg(-25536) == 25536;
  }

  /** The iterator state of the wide segment, once its octant is known. */
  lemma NewInOctantThree(start: Point16, end: Point16)
    requires FromPoints(start, end) == 3 && start.y == 0 && end.y == 0
    requires Neg(start.x) == 20000 && Neg(end.x) == -20000
    ensures New(start, end) == State(20000, 0, 25536, 0, -20000, -25536, 3)
  {
    var s0, e0 := ToOctant0(3, start), ToOctant0(3, end);
    assert s0 == Point16(20000, 0) && e0 == Point16(-20000, 0);
    assert Sub(e0.x, s0.x) == 25536 && Sub(e0.y, s0.y) == 0;
    assert Sub(Dbl(0), 25536) == -25536;
  }

  /**
   * The first call of `next` on that segment already returns `None`: not
   * one point is drawn, although over unbounded integers the same segment
   * has 40001 points, both endpoints included.
   */
  lemma WideLineIsEmpty()
    ensures Next(New(Point16(-20000, 0), Point16(20000, 0))).0 == None
    ensures |B.Line(B.Point(-20000, 0), B.Point(20000, 0))| == 40001
  {
    WideLineState();
    B.LineLengthIsExtent(B.Point(-20000, 0), B.Point(20000, 0));
  }

  /** Points whose coordinates and differences stay well inside `i16`. */
  predicate Small(p: Point16)
  {
    -0x2000 < p.x < 0x2000 && -0x2000 < p.y < 0x2000
  }

  function Widen(p: Point16): B.Point
  {
    B.Point(p.x, p.y)
  }

  /**
   * Away from the edges of the `i16` range nothing wraps: the octant, the
   * transformed endpoints and the initial error term agree with the
   * unbounded model.
   */
  lemma SmallAgrees(start: Point16, end: Point16)
    requires Small(start) && Small(end)
    ensures FromPoints(start, end) == B.FromPoints(Widen(start), Widen(end))
    ensures Widen(ToOctant0(FromPoints(start, end), start)) == B.Start0(Widen(start), Widen(end))
    ensures Widen(ToOctant0(FromPoints(start, end), end)) == B.End0(Widen(start), Widen(end))
    ensures var s := New(start, end);
      s.dx == B.End0(Widen(start), Widen(end)).x - B.Start0(Widen(start), Widen(end)).x
      && s.diff == 2 * s.dy - s.dx
  {
    OctantAgrees(start, end);
    var o := FromPoints(start, end);
    TransformAgrees(o, start);
    TransformAgrees(o, end);
    B.InOctant0(Widen(start), Widen(end));
    var s0, e0 := ToOctant0(o, start), ToOctant0(o, end);
    assert Sub(e0.x, s0.x) == e0.x - s0.x && Sub(e0.y, s0.y) == e0.y - s0.y;
  }

  /** Between small points nothing in `from_points` wraps. */
  lemma OctantAgrees(start: Point16, end: Point16)
    requires Small(start) && Small(end)
    ensures FromPoints(start, end) == B.FromPoints(Widen(start), Widen(end))
  {
    var dx, dy := Sub(end.x, start.x), Sub(end.y, start.y);
    assert dx == end.x - start.x && dy == end.y - start.y;
    assert Neg(dx) == -dx && Neg(dy) == -dy;
  }

  /** A small point's octant transform does not wrap. */
  lemma TransformAgrees(o: B.Octant, p: Point16)
    requires o < 8 && Small(p)
    ensures Widen(ToOctant0(o, p)) == B.ToOctant0(o, Widen(p))
    ensures Small(ToOctant0(o, p))
  {
    NegSmall(p);
  }

  /** Negating a small point's coordinates does not wrap. */
  lemma NegSmall(p: Point16)
    requires Small(p)
    ensures Neg(p.x) == -p.x && Neg(p.y) == -p.y
  {
  }
}
