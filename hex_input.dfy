/**
 * The hex colour text box of the draw sidebar
 * (src/ui/main/draw/sidebar/hex_input.rs).
 *
 * A click on the box activates it with the text `#`.  While active, typed
 * hex digits are appended in upper case up to `#` plus six digits, every
 * typed character clears the picker colour, and the seventh character sets
 * the picker to the colour the digits spell.  Backspace removes the last
 * character but puts `#` back when the text would become empty.  While
 * inactive the text mirrors the picker colour.
 *
 * The characters macroquad queued this frame (`get_char_pressed`) and
 * whether Backspace was pressed are inputs of `Update`.
 */
module HexInput {
  import opened Wrappers
  import opened Geometry
  import opened Colour
  import opened Entries
  import opened UserInput
  import NodeTree

  /** `to_ascii_uppercase`. */
  function ToUpper(c: char): (u: char)
    ensures IsHexDigit(c) ==> IsUpperHexDigit(u) && HexValue(u) == HexValue(c)
  {
    if 'a' <= c <= 'z' then (c as int - 32) as char else c
  }

  /** `#` followed by at most six upper-case hex digits. */
  predicate HexText(t: string)
  {
    1 <= |t| <= 7 && t[0] == '#' && forall i | 1 <= i < |t| :: IsUpperHexDigit(t[i])
  }

  /** 16^n. */
  function Pow16(n: nat): nat
  {
    if n == 0 then 1 else 16 * Pow16(n - 1)
  }

  lemma Pow16Six()
    ensures Pow16(6) == 0x100_0000
  {
    assert Pow16(2) == 256;
    assert Pow16(4) == 256 * 256;
  }

  /** A string of n hex digits is worth less than 16^n. */
  lemma {:induction false} ParseHexBound(s: string)
    requires forall i | 0 <= i < |s| :: IsHexDigit(s[i])
    ensures ParseHex(s) < Pow16(|s|)
  {
    if s != [] {
      var init := s[..|s| - 1];
      ParseHexBound(init);
      assert ParseHex(init) + 1 <= Pow16(|init|);
      assert (ParseHex(init) + 1) * 16 <= Pow16(|init|) * 16;
    }
  }

  /** The conversions the `Rgba` path never calls. */
  const Unused := Conversions(
    (r, g, b, a) => HsvaCol(r, g, b, a),
    (r, g, b, a) => OkLabCol(r, g, b, a),
    (c, r, s) => OkLabCol(c, r, s, 1.0))

  /**
   * The colour a full text spells: `col_from_hex_string` on the six digits
   * in the Rgba space, as `[f32; 4]`.  Alpha is always 1.
   */
  function HexRgba(t: string): (col: Rgba4)
    requires HexText(t) && |t| == 7
    ensures col[3] == 1.0
  {
    var digits := t[1..];
    assert forall i | 0 <= i < |digits| :: IsHexDigit(digits[i]);
    assert Digits(digits) == digits by { assert digits[0] != '+'; }
    ParseHexBound(digits);
    Pow16Six();
    ShiftInAlphaBytes(ParseHex(digits));
    RgbaToRgba(ColFromHexString(Rgba, digits, Unused).rgba)
  }

  /** What one queued character does to the text. */
  function Keep(t: string, c: char): string
  {
    if |t| < 7 && IsHexDigit(c) then t + [ToUpper(c)] else t
  }

  /** The text after the character loop has consumed `chars`; typing keeps the text well formed. */
  function Typed(t: string, chars: seq<char>): (r: string)
    ensures HexText(t) ==> HexText(r)
    ensures |r| >= |t|
  {
    if chars == [] then t else Keep(Typed(t, chars[..|chars| - 1]), chars[|chars| - 1])
  }

  /**
   * The picker colour after the character loop: unchanged when nothing was
   * typed, otherwise decided by the last character alone: the colour of
   * the text when that character completed it, else cleared.
   */
  function PickerAfter(t: string, chars: seq<char>, col: Option<Rgba4>): Option<Rgba4>
    requires HexText(t)
  {
    if chars == [] then col
    else
      var before := Typed(t, chars[..|chars| - 1]);
      var c := chars[|chars| - 1];
      if |before| == 6 && IsHexDigit(c) then Some(HexRgba(Keep(before, c))) else None
  }

  /** The hex digits among `chars`, upper-cased, in order. */
  function HexDigitsOf(chars: seq<char>): (ds: string)
    ensures forall i | 0 <= i < |ds| :: IsUpperHexDigit(ds[i])
  {
    if chars == [] then []
    else
      var c := chars[|chars| - 1];
      HexDigitsOf(chars[..|chars| - 1]) + (if IsHexDigit(c) then [ToUpper(c)] else [])
  }

  function Min(a: int, b: int): int { if a <= b then a else b }

  /**
   * Typing appends the hex digits among the characters, upper-cased and in
   * order, and drops everything past the seventh character: the text is
   * the old text followed by the typed digits, cut at length 7.
   */
  lemma {:induction false} TypedSpec(t: string, chars: seq<char>)
    requires |t| <= 7
    ensures var all := t + HexDigitsOf(chars);
      Typed(t, chars) == all[..Min(7, |all|)]
  {
    if chars != [] {
      var init := chars[..|chars| - 1];
      var c := chars[|chars| - 1];
      TypedSpec(t, init);
      var before := t + HexDigitsOf(init);
      var after := t + HexDigitsOf(chars);
      assert after == before + (if IsHexDigit(c) then [ToUpper(c)] else []);
      if IsHexDigit(c) && |before| < 7 {
        assert after[..Min(7, |after|)] == before[..Min(7, |before|)] + [ToUpper(c)];
      } else {
        assert after[..Min(7, |after|)] == before[..Min(7, |before|)];
      }
    }
  }

  /** Backspace on the text: drop the last character, and restore `#` if nothing is left. */
  function Pop(t: string): (r: string)
    ensures r != []
    ensures |t| >= 2 ==> r == t[..|t| - 1]
    ensures |t| <= 1 ==> r == "#"
  {
    if |t| <= 1 then "#" else t[..|t| - 1]
  }

  /** The inactive text: the picker colour formatted, or `NA`. */
  function Mirror(col: Option<Rgba4>): string
  {
    match col
    case Some(c) => FormatRgba(c)
    case None => "NA"
  }

  /** The text and the activation flag. */
  datatype HexState = HexState(text: string, active: bool)

  /** The box's invariant: while active, its text is `#` and up to six digits. */
  predicate Valid(s: HexState)
  {
    s.active ==> HexText(s.text)
  }

  /**
   * One `update` of the box with id `id`: the new text and activation,
   * and the new picker colour.
   */
  function Frame(s: HexState, f: Focus, id: nat, chars: seq<char>, backspace: bool, col: Option<Rgba4>): (HexState, Option<Rgba4>)
    requires Valid(s)
  {
    var clicked := NodeTree.ContainsSelf(id, f.hoverFocus) && f.buttons.leftLetGo;
    var text := if clicked then "#" else s.text;
    var col := if clicked then None else col;
    var chars := if clicked then [] else chars;
    var active := (clicked || s.active) && NodeTree.ContainsSelf(id, f.lasttouchFocus);
    if active then
      var t := Typed(text, chars);
      (HexState(if backspace then Pop(t) else t, true), PickerAfter(text, chars, col))
    else
      (HexState(Mirror(col), false), col)
  }

  /**
   * Every frame keeps the invariant.  The box is active afterwards only
   * when its node is on the last-touch path, and then it was already active
   * or was clicked; when inactive its text mirrors the picker colour.
   */
  lemma FrameSpec(s: HexState, f: Focus, id: nat, chars: seq<char>, backspace: bool, col: Option<Rgba4>)
    requires Valid(s)
    ensures var (s', col') := Frame(s, f, id, chars, backspace, col);
      && Valid(s')
      && (s'.active ==> NodeTree.ContainsSelf(id, f.lasttouchFocus))
      && (s'.active ==> s.active || (NodeTree.ContainsSelf(id, f.hoverFocus) && f.buttons.leftLetGo))
      && (!s'.active ==> s'.text == Mirror(col'))
  {
  }

  /**
   * A click on the box empties it to `#` and clears the picker; the
   * characters queued that frame are thrown away, so only Backspace can
   * still act (and leaves `#`).
   */
  lemma ClickResets(s: HexState, f: Focus, id: nat, chars: seq<char>, backspace: bool, col: Option<Rgba4>)
    requires Valid(s)
    requires NodeTree.ContainsSelf(id, f.hoverFocus) && f.buttons.leftLetGo
    requires NodeTree.ContainsSelf(id, f.lasttouchFocus)
    ensures Frame(s, f, id, chars, backspace, col) == (HexState("#", true), None)
  {
  }

  /**
   * While the box stays active, the picker is set exactly when the last
   * typed character is the seventh of the text, and it is then the colour
   * of the completed text; any other typed character clears it.
   */
  lemma PickerSetOnSeventh(s: HexState, f: Focus, id: nat, chars: seq<char>, backspace: bool, col: Option<Rgba4>)
    requires Valid(s) && s.active && chars != []
    requires !(NodeTree.ContainsSelf(id, f.hoverFocus) && f.buttons.leftLetGo)
    requires NodeTree.ContainsSelf(id, f.lasttouchFocus)
    ensures var (s', col') := Frame(s, f, id, chars, backspace, col);
      var before := Typed(s.text, chars[..|chars| - 1]);
      && (col'.Some? <==> |before| == 6 && IsHexDigit(chars[|chars| - 1]))
      && (col'.Some? ==> |Typed(s.text, chars)| == 7 && col' == Some(HexRgba(Typed(s.text, chars))))
  {
  }

  /** The text box node. */
  class HexInput {
    const rect: Rect
    var text: string
    var active: bool

    /** `HexInput::new`: inactive, text `#`. */
    constructor ()
      ensures rect == Rect(10.0, 414.0, 133.0, 28.0)
      ensures text == "#" && !active
      ensures Valid(HexState(text, active))
    {
      rect := Rect(10.0, 414.0, 133.0, 28.0);
      text := "#";
      active := false;
    }

    /**
     * `HexInput::update` for node `id` with this frame's focus `f`, queued
     * characters `chars` and Backspace flag, reading and writing the
     * picker colour.
     */
    method Update(f: Focus, id: nat, chars: seq<char>, backspace: bool, picker: Entry<Option<Rgba4>>)
      requires Valid(HexState(text, active))
      modifies this, picker
      ensures (HexState(text, active), picker.value)
        == Frame(old(HexState(text, active)), f, id, chars, backspace, old(picker.value))
      ensures Valid(HexState(text, active))
    {
      ghost var s := HexState(text, active);
      ghost var col := picker.value;
      FrameSpec(s, f, id, chars, backspace, col);
      var activePossible := NodeTree.ContainsSelf(id, f.lasttouchFocus);
      var letGo := f.buttons.leftLetGo;
      var hovered := NodeTree.ContainsSelf(id, f.hoverFocus);
      var queue := chars;
      if hovered && letGo {
        active := true;
        picker.value := None;
        text := "#";
        queue := [];
      }
      if !activePossible {
        active := false;
      }
      if active {
        TypeChars(queue, picker);
        if backspace {
          text := Pop(text);
        }
      } else {
        text := Mirror(picker.value);
      }
    }

    /** The `while let Some(c) = get_char_pressed()` loop over this frame's queued characters. */
    method TypeChars(queue: seq<char>, picker: Entry<Option<Rgba4>>)
      requires HexText(text)
      modifies this, picker
      ensures text == Typed(old(text), queue) && active == old(active)
      ensures picker.value == PickerAfter(old(text), queue, old(picker.value))
    {
      var i := 0;
      while i < |queue|
        invariant 0 <= i <= |queue|
        invariant text == Typed(old(text), queue[..i]) && active == old(active)
        invariant picker.value == PickerAfter(old(text), queue[..i], old(picker.value))
      {
        var c := queue[i];
        assert queue[..i + 1][..i] == queue[..i];
        picker.value := None;
        if |text| < 7 && IsHexDigit(c) {
          text := text + [ToUpper(c)];
          if |text| == 7 {
            picker.value := Some(HexRgba(text));
          }
        }
        i := i + 1;
      }
      assert queue[..|queue|] == queue;
    }

    /** `hit_detect`: the box's own path when the point is inside it. */
    function HitDetect(pos: Vec2, id: nat): (path: seq<nat>)
      reads this
      ensures path == [id] <==> Contains(rect, pos)
      ensures path == [] <==> !Contains(rect, pos)
    {
      if Contains(rect, pos) then [id] else []
    }
  }
}
