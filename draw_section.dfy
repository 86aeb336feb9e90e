/**
 * The drawing area (src/ui/main/draw/draw_section.rs): each frame it reacts
 * to the tool shortcuts, cycles the grid overlay, and edits the canvas
 * according to the selected tool.
 *
 * The view transform (zoom, scroll, pan) is floating-point screen
 * geometry and is not modelled: the canvas cell under the mouse, which the
 * transform computes and which is absent when it falls outside the 16-bit
 * range, is an input `cell`.  Drawing the canvas and the line preview are
 * rendering only.
 */
module DrawSection {
  import opened Wrappers
  import opened Instructions
  import opened UserInput
  import opened Entries
  import opened Bresenham
  import opened PixelArray
  import BL = Bresenham
  import DSB = DrawStateButton
  import NodeTree

  /** The section's own fields, besides the transform. */
  datatype Section = Section(gridLines: bool, crossboard: bool, lineStart: Option<Point>, prevTouch: Option<Point>)

  /** `DrawSection::new`: the checkerboard on, the grid lines off, no stroke in progress. */
  const InitialSection := Section(false, true, None, None)

  /** What one frame does to the canvas. */
  datatype Edit =
    | NoEdit
    | Put(pos: Point, col: Option<Rgba4>)
    | Stroke(start: Point, end: Point, col: Option<Rgba4>)
    | Flood(seed: Point, col: Option<Rgba4>)

  /**
   * `m'` is the canvas `m` after the edit: a put inserts or, with no
   * colour, removes one pixel; a stroke sets the cells of the line; a
   * flood recolours the seed's region when it is enclosed.
   */
  ghost predicate Applied(m: map<Point, Rgba4>, m': map<Point, Rgba4>, e: Edit)
  {
    match e
    case NoEdit => m' == m
    case Put(p, col) => m' == if col.Some? then m[p := col.value] else m - {p}
    case Stroke(a, b, col) => forall p :: Lookup(m', p) == if p in BL.Line(a, b) then col else Lookup(m, p)
    case Flood(seed, col) =>
      var (lo, hi) := Bounds(m);
      if Enclosed(m, seed, lo, hi) then
        forall p :: Lookup(m', p) == if InRegion(m, seed, p) then col else Lookup(m, p)
      else m' == m
  }

  /** The result of a frame: the new fields, tool, picker colour, and the canvas edit. */
  datatype Outcome = Outcome(section: Section, drawState: DrawState, picker: Option<Rgba4>, edit: Edit)

  /** The tool shortcuts: a tool shortcut toggles the tool, the eraser empties the picker. */
  function Shortcut(i: Instruction, ds: DrawState, picker: Option<Rgba4>): (DrawState, Option<Rgba4>)
  {
    match i
    case ChangeDrawState(st) => (DSB.Toggled(ds, st), picker)
    case Eraser => (ds, None)
    case _ => (ds, picker)
  }

  /** The grid shortcut: lines off; or, from the checkerboard, lines on and checkerboard off; or checkerboard on. */
  function GridStep(gridLines: bool, crossboard: bool): (bool, bool)
  {
    if gridLines then (false, crossboard)
    else if crossboard then (true, false)
    else (false, true)
  }

  /** The section is both held and hovered: only then does it scroll, toggle the grid or paint. */
  predicate Active(f: Focus, id: nat)
  {
    NodeTree.ContainsSelf(id, f.hoverholdFocus) && NodeTree.ContainsSelf(id, f.hoverFocus)
  }

  /** The pencil: while the button is held over a cell, put the colour there, or stroke to it from last frame's cell. */
  function PencilPaint(s: Section, touched: Option<Point>, b: Buttons, cell: Option<Point>, picker: Option<Rgba4>): Outcome
  {
    if b.leftDown && cell.Some? then
      var e := if touched.Some? then Stroke(touched.value, cell.value, picker) else Put(cell.value, picker);
      Outcome(s.(prevTouch := cell), DrawState.Draw, picker, e)
    else Outcome(s, DrawState.Draw, picker, NoEdit)
  }

  /** The colour picker: on release, sample the pixel under the mouse, if any, and go back to the pencil. */
  function PickerPaint(s: Section, b: Buttons, cell: Option<Point>, picker: Option<Rgba4>, pixels: map<Point, Rgba4>): Outcome
  {
    if b.leftLetGo then
      var p := if cell.Some? && cell.value in pixels then Some(pixels[cell.value]) else picker;
      Outcome(s, DrawState.Draw, p, NoEdit)
    else Outcome(s, DrawState.Picker, picker, NoEdit)
  }

  /** The bucket: while the button is held over a cell, flood from it and go back to the pencil. */
  function FillPaint(s: Section, b: Buttons, cell: Option<Point>, picker: Option<Rgba4>): Outcome
  {
    if b.leftDown && cell.Some? then Outcome(s, DrawState.Draw, picker, Flood(cell.value, picker))
    else Outcome(s, DrawState.Fill, picker, NoEdit)
  }

  /** The line tool: a press records the start, a release strokes from it to the mouse's cell and forgets it. */
  function LinePaint(s: Section, b: Buttons, cell: Option<Point>, picker: Option<Rgba4>): Outcome
  {
    if b.leftPressed then Outcome(s.(lineStart := cell), DrawState.Line, picker, NoEdit)
    else if b.leftLetGo then
      var e := if s.lineStart.Some? && cell.Some? then Stroke(s.lineStart.value, cell.value, picker) else NoEdit;
      Outcome(s.(lineStart := None), DrawState.Line, picker, e)
    else Outcome(s, DrawState.Line, picker, NoEdit)
  }

  /** The tool's action, for an active section; `touched` is the cell painted last frame. */
  function Paint(s: Section, touched: Option<Point>, b: Buttons, cell: Option<Point>,
                 ds: DrawState, picker: Option<Rgba4>, pixels: map<Point, Rgba4>): Outcome
  {
    match ds
    case Draw => PencilPaint(s, touched, b, cell, picker)
    case Picker => PickerPaint(s, b, cell, picker, pixels)
    case Fill => FillPaint(s, b, cell, picker)
    case Line => LinePaint(s, b, cell, picker)
  }

  /** One frame of `update`, from the fields, the inputs, the tool, the picker colour and the canvas. */
  function Frame(s: Section, f: Focus, id: nat, cell: Option<Point>,
                 ds: DrawState, picker: Option<Rgba4>, pixels: map<Point, Rgba4>): Outcome
  {
    var (ds1, picker1) := Shortcut(f.pressedShortcut, ds, picker);
    var s1 := s.(prevTouch := None);
    if !Active(f, id) then Outcome(s1, ds1, picker1, NoEdit)
    else
      var (g, c) := if f.pressedShortcut == ToggleGrid then GridStep(s.gridLines, s.crossboard) else (s.gridLines, s.crossboard);
      Paint(s1.(gridLines := g, crossboard := c), s.prevTouch, f.buttons, cell, ds1, picker1, pixels)
  }

  /**
   * The grid shortcut cycles through three overlays, never both at once:
   * each step changes the overlay, and three steps come back to it.
   */
  lemma GridCycle(g: bool, c: bool)
    requires !(g && c)
    ensures var (g1, c1) := GridStep(g, c);
      && !(g1 && c1) && (g1, c1) != (g, c)
      && GridStep(GridStep(g1, c1).0, GridStep(g1, c1).1) == (g, c)
  {
  }

  /** Every frame keeps the two overlays from being on together, so from `new` they never are. */
  lemma GridNeverBoth(s: Section, f: Focus, id: nat, cell: Option<Point>, ds: DrawState, picker: Option<Rgba4>, pixels: map<Point, Rgba4>)
    requires !(s.gridLines && s.crossboard)
    ensures var o := Frame(s, f, id, cell, ds, picker, pixels);
      !(o.section.gridLines && o.section.crossboard)
    ensures !(InitialSection.gridLines && InitialSection.crossboard)
  {
    var (ds1, picker1) := Shortcut(f.pressedShortcut, ds, picker);
    if Active(f, id) {
      var (g, c) := if f.pressedShortcut == ToggleGrid then GridStep(s.gridLines, s.crossboard) else (s.gridLines, s.crossboard);
      PaintKeepsGrid(s.(prevTouch := None, gridLines := g, crossboard := c), s.prevTouch, f.buttons, cell, ds1, picker1, pixels);
    }
  }

  /** The paint step leaves the overlay alone. */
  lemma PaintKeepsGrid(s: Section, touched: Option<Point>, b: Buttons, cell: Option<Point>,
                       ds: DrawState, picker: Option<Rgba4>, pixels: map<Point, Rgba4>)
    ensures var o := Paint(s, touched, b, cell, ds, picker, pixels);
      o.section.gridLines == s.gridLines && o.section.crossboard == s.crossboard
  {
  }

  /** An inactive section edits nothing, keeps its overlay and line start, and forgets the last painted cell. */
  lemma FrameInactive(s: Section, f: Focus, id: nat, cell: Option<Point>, ds: DrawState, picker: Option<Rgba4>, pixels: map<Point, Rgba4>)
    requires !Active(f, id)
    ensures var o := Frame(s, f, id, cell, ds, picker, pixels);
      && o.edit == NoEdit
      && o.section == s.(prevTouch := None)
      && (o.drawState, o.picker) == Shortcut(f.pressedShortcut, ds, picker)
  {
  }

  /** A frame edits only when the section is active, and always with the picker colour the shortcuts leave. */
  lemma FrameEdits(s: Section, f: Focus, id: nat, cell: Option<Point>, ds: DrawState, picker: Option<Rgba4>, pixels: map<Point, Rgba4>)
    ensures var o := Frame(s, f, id, cell, ds, picker, pixels);
      o.edit != NoEdit ==> Active(f, id) && o.edit.col == Shortcut(f.pressedShortcut, ds, picker).1
  {
  }

  /**
   * A frame remembers a painted cell exactly when it painted that very
   * cell with the pencil: a single pixel when the frame before painted
   * nothing, a stroke from the previous cell otherwise.
   */
  lemma FrameTouches(s: Section, f: Focus, id: nat, cell: Option<Point>, ds: DrawState, picker: Option<Rgba4>, pixels: map<Point, Rgba4>)
    ensures var o := Frame(s, f, id, cell, ds, picker, pixels);
      var (ds1, picker1) := Shortcut(f.pressedShortcut, ds, picker);
      && (o.section.prevTouch.Some? <==> Active(f, id) && ds1 == DrawState.Draw && f.buttons.leftDown && cell.Some?)
      && (o.section.prevTouch.Some? ==>
            && o.section.prevTouch == cell
            && o.edit == if s.prevTouch.Some? then Stroke(s.prevTouch.value, cell.value, picker1) else Put(cell.value, picker1))
  {
  }

  /**
   * Two frames in a row that both paint with the pencil join their cells:
   * the second frame strokes from the first frame's cell to its own, so a
   * fast drag leaves no gaps.
   */
  lemma DragJoins(s: Section, f1: Focus, f2: Focus, id: nat, c1: Option<Point>, c2: Option<Point>,
                  ds: DrawState, picker: Option<Rgba4>, pixels1: map<Point, Rgba4>, pixels2: map<Point, Rgba4>)
    requires var o1 := Frame(s, f1, id, c1, ds, picker, pixels1);
      && o1.section.prevTouch.Some?
      && Frame(o1.section, f2, id, c2, o1.drawState, o1.picker, pixels2).section.prevTouch.Some?
    ensures var o1 := Frame(s, f1, id, c1, ds, picker, pixels1);
      var o2 := Frame(o1.section, f2, id, c2, o1.drawState, o1.picker, pixels2);
      c1.Some? && c2.Some? && o2.edit == Stroke(c1.value, c2.value, o2.picker)
  {
    FrameTouches(s, f1, id, c1, ds, picker, pixels1);
    var o1 := Frame(s, f1, id, c1, ds, picker, pixels1);
    FrameTouches(o1.section, f2, id, c2, o1.drawState, o1.picker, pixels2);
  }

  /** A stroke colours both of its ends. */
  lemma StrokeEnds(m: map<Point, Rgba4>, m': map<Point, Rgba4>, a: Point, b: Point, col: Option<Rgba4>)
    requires Applied(m, m', Stroke(a, b, col))
    ensures Lookup(m', a) == col && Lookup(m', b) == col
  {
    LineEndpoints(a, b);
    assert a in BL.Line(a, b);
    assert b in BL.Line(a, b);
  }

  /**
   * The picker and fill tools act once and hand back to the pencil: the
   * tool changes in the paint step only from those two, and only to `Draw`.
   */
  lemma ToolsReturn(s: Section, f: Focus, id: nat, cell: Option<Point>, ds: DrawState, picker: Option<Rgba4>, pixels: map<Point, Rgba4>)
    ensures var o := Frame(s, f, id, cell, ds, picker, pixels);
      var (ds1, _) := Shortcut(f.pressedShortcut, ds, picker);
      && (o.drawState != ds1 ==> o.drawState == DrawState.Draw && (ds1 == DrawState.Picker || ds1 == DrawState.Fill))
      && (Active(f, id) && ds1 == DrawState.Picker && f.buttons.leftLetGo ==> o.drawState == DrawState.Draw)
      && (Active(f, id) && ds1 == DrawState.Fill && f.buttons.leftDown && cell.Some? ==>
            o.drawState == DrawState.Draw && o.edit.Flood? && o.edit.seed == cell.value)
  {
  }

  /**
   * The line tool edits only on the release of the button, from the cell
   * where it was pressed to the cell under the mouse, and every release
   * forgets the start.
   */
  lemma LineOnRelease(s: Section, f: Focus, id: nat, cell: Option<Point>, ds: DrawState, picker: Option<Rgba4>, pixels: map<Point, Rgba4>)
    requires Shortcut(f.pressedShortcut, ds, picker).0 == DrawState.Line
    ensures var o := Frame(s, f, id, cell, ds, picker, pixels);
      && (o.edit != NoEdit ==> o.edit.Stroke? && f.buttons.leftLetGo && !f.buttons.leftPressed
                               && Some(o.edit.start) == s.lineStart && Some(o.edit.end) == cell)
      && (Active(f, id) && f.buttons.leftLetGo && !f.buttons.leftPressed ==> o.section.lineStart.None?)
      && (Active(f, id) && f.buttons.leftPressed ==> o.section.lineStart == cell)
  {
  }

  /**
   * The picker colour changes only through the shortcuts or by sampling a
   * pixel with the picker tool; after the eraser shortcut it is empty
   * unless such a sample happened in the same frame.
   */
  lemma PickerChanges(s: Section, f: Focus, id: nat, cell: Option<Point>, ds: DrawState, picker: Option<Rgba4>, pixels: map<Point, Rgba4>)
    ensures var o := Frame(s, f, id, cell, ds, picker, pixels);
      var (ds1, picker1) := Shortcut(f.pressedShortcut, ds, picker);
      && (o.picker != picker1 ==> ds1 == DrawState.Picker && cell.Some? && cell.value in pixels && o.picker == Some(pixels[cell.value]))
      && (f.pressedShortcut == Eraser && o.picker.Some? ==> ds == DrawState.Picker && cell.Some? && cell.value in pixels)
  {
    var (ds1, picker1) := Shortcut(f.pressedShortcut, ds, picker);
    if Active(f, id) {
      var (g, c) := if f.pressedShortcut == ToggleGrid then GridStep(s.gridLines, s.crossboard) else (s.gridLines, s.crossboard);
      PaintPicker(s.(prevTouch := None, gridLines := g, crossboard := c), s.prevTouch, f.buttons, cell, ds1, picker1, pixels);
    }
  }

  /** Only the picker tool changes the picker colour, and only to a sampled pixel. */
  lemma PaintPicker(s: Section, touched: Option<Point>, b: Buttons, cell: Option<Point>,
                    ds: DrawState, picker: Option<Rgba4>, pixels: map<Point, Rgba4>)
    ensures var o := Paint(s, touched, b, cell, ds, picker, pixels);
      o.picker != picker ==> ds == DrawState.Picker && cell.Some? && cell.value in pixels && o.picker == Some(pixels[cell.value])
  {
  }

  /** `DrawSection`. */
  class DrawSection {
    var gridLines: bool
    var crossboard: bool
    var lineStart: Option<Point>
    var prevTouch: Option<Point>

    function State(): Section
      reads this
    {
      Section(gridLines, crossboard, lineStart, prevTouch)
    }

    constructor ()
      ensures State() == InitialSection
    {
      gridLines := false;
      crossboard := true;
      lineStart := None;
      prevTouch := None;
    }

    /** The shortcut step: toggle the tool or empty the picker. */
    method ApplyShortcut(i: Instruction, drawState: Entry<DrawState>, picker: Entry<Option<Rgba4>>)
      modifies drawState, picker
      ensures (drawState.value, picker.value) == Shortcut(i, old(drawState.value), old(picker.value))
    {
      if i.ChangeDrawState? {
        if drawState.value == i.state {
          drawState.value := DrawState.Draw;
        } else {
          drawState.value := i.state;
        }
      } else if i == Eraser {
        picker.value := None;
      }
    }

    /** The grid step. */
    method CycleGrid()
      modifies this
      ensures (gridLines, crossboard) == GridStep(old(gridLines), old(crossboard))
      ensures lineStart == old(lineStart) && prevTouch == old(prevTouch)
    {
      if gridLines {
        gridLines := false;
      } else if crossboard {
        gridLines := true;
        crossboard := false;
      } else {
        crossboard := true;
      }
    }

    /** The paint step of an active section. */
    method PaintStep(touched: Option<Point>, b: Buttons, cell: Option<Point>,
                     drawState: Entry<DrawState>, picker: Entry<Option<Rgba4>>, pixels: PixelArray<Rgba4>)
      modifies this, drawState, picker, pixels
      ensures var o := Paint(old(State()), touched, b, cell, old(drawState.value), old(picker.value), old(pixels.pixels));
        && State() == o.section && drawState.value == o.drawState && picker.value == o.picker
        && Applied(old(pixels.pixels), pixels.pixels, o.edit)
    {
      match drawState.value {
        case Draw => PencilStep(touched, b, cell, picker.value, pixels);
        case Picker => PickerStep(b, cell, drawState, picker, pixels);
        case Fill => FillStep(b, cell, drawState, picker.value, pixels);
        case Line => LineStep(b, cell, picker.value, pixels);
      }
    }

    /** The pencil: put the picker colour at the cell, or stroke to it from last frame's cell. */
    method PencilStep(touched: Option<Point>, b: Buttons, cell: Option<Point>, col: Option<Rgba4>, pixels: PixelArray<Rgba4>)
      modifies this, pixels
      ensures var o := PencilPaint(old(State()), touched, b, cell, col);
        && State() == o.section && Applied(old(pixels.pixels), pixels.pixels, o.edit)
    {
      if b.leftDown && cell.Some? {
        if touched.Some? {
          pixels.Line(touched.value, cell.value, col);
        } else {
          match col {
            case Some(c) => pixels.Insert(Pixel(cell.value, c));
            case None => pixels.Remove(cell.value);
          }
        }
        prevTouch := cell;
      }
    }

    /** The colour picker: on release, sample the pixel under the mouse and go back to the pencil. */
    method PickerStep(b: Buttons, cell: Option<Point>, drawState: Entry<DrawState>, picker: Entry<Option<Rgba4>>, pixels: PixelArray<Rgba4>)
      modifies drawState, picker
      ensures var o := PickerPaint(State(), b, cell, old(picker.value), pixels.pixels);
        && (b.leftLetGo ==> drawState.value == o.drawState) && (!b.leftLetGo ==> drawState.value == old(drawState.value))
        && picker.value == o.picker && o.section == State() && o.edit == NoEdit
    {
      if b.leftLetGo {
        if cell.Some? {
          var px := pixels.Get(cell.value);
          if px.Some? {
            picker.value := Some(px.value.col);
          }
        }
        drawState.value := DrawState.Draw;
      }
    }

    /** The bucket: on a held button, flood the region under the mouse and go back to the pencil. */
    method FillStep(b: Buttons, cell: Option<Point>, drawState: Entry<DrawState>, col: Option<Rgba4>, pixels: PixelArray<Rgba4>)
      modifies drawState, pixels
      ensures var o := FillPaint(State(), b, cell, col);
        && (b.leftDown && cell.Some? ==> drawState.value == o.drawState) && (!(b.leftDown && cell.Some?) ==> drawState.value == old(drawState.value))
        && o.section == State() && Applied(old(pixels.pixels), pixels.pixels, o.edit)
    {
      if b.leftDown && cell.Some? {
        pixels.Fill(cell.value, col);
        drawState.value := DrawState.Draw;
      }
    }

    /** The line tool: a press records the start, a release strokes to the mouse's cell and forgets the start. */
    method LineStep(b: Buttons, cell: Option<Point>, col: Option<Rgba4>, pixels: PixelArray<Rgba4>)
      modifies this, pixels
      ensures var o := LinePaint(old(State()), b, cell, col);
        && State() == o.section && Applied(old(pixels.pixels), pixels.pixels, o.edit)
    {
      if b.leftPressed {
        lineStart := cell;
      } else if b.leftLetGo {
        if lineStart.Some? && cell.Some? {
          pixels.Line(lineStart.value, cell.value, col);
        }
        lineStart := None;
      }
    }

    /** `update`: one frame of the drawing area. */
    method Update(f: Focus, id: nat, cell: Option<Point>,
                  drawState: Entry<DrawState>, picker: Entry<Option<Rgba4>>, pixels: PixelArray<Rgba4>)
      modifies this, drawState, picker, pixels
      ensures var o := Frame(old(State()), f, id, cell, old(drawState.value), old(picker.value), old(pixels.pixels));
        && State() == o.section && drawState.value == o.drawState && picker.value == o.picker
        && Applied(old(pixels.pixels), pixels.pixels, o.edit)
    {
      var hoverhold := NodeTree.ContainsSelf(id, f.hoverholdFocus);
      var hover := NodeTree.ContainsSelf(id, f.hoverFocus);
      var touched := prevTouch;
      prevTouch := None;
      ApplyShortcut(f.pressedShortcut, drawState, picker);
      if hoverhold && hover {
        if f.pressedShortcut == ToggleGrid {
          CycleGrid();
        }
        PaintStep(touched, f.buttons, cell, drawState, picker, pixels);
      }
    }

    /** `hit_detect`: the drawing area always reports itself. */
    function HitDetect(id: nat): (path: seq<nat>)
      ensures path == [id]
    {
      [id]
    }
  }

  /** `DrawSection::new` with the canvas it registers: the initial fields and an empty canvas. */
  method New() returns (section: DrawSection, pixels: PixelArray<Rgba4>)
    ensures fresh(section) && fresh(pixels)
    ensures section.State() == InitialSection && pixels.pixels == map[]
  {
    section := new DrawSection();
    pixels := new PixelArray<Rgba4>();
  }
}
