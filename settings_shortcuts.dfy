/**
 * The shortcut settings page (src/ui/main/settings/shortcuts.rs): key
 * names made readable, chords written as text, and the per-row rebinding
 * state machine.
 *
 * Each binding is a row.  Touching a row's chord box makes that row
 * `Active`; releasing a key while it is active commits the chord that was
 * held before the release and disables the row until another row is
 * touched; touching elsewhere makes it `New` again.  A row's Remove button
 * discards its binding.
 *
 * The rows (`get_owned_shortcuts`) and the held key sets before and after
 * this frame are inputs.  The table edits the page makes are returned, in
 * order, instead of being applied, since `discard` is not part of this
 * model.
 */
module SettingsShortcuts {
  import opened Geometry
  import opened Instructions
  import opened ShortcutTable
  import opened UserInput
  import opened Helpers
  import NodeTree

  // ---------------------------------------------------------------------
  // prettify_camel_case
  // ---------------------------------------------------------------------

  /** `char::is_uppercase` on the ASCII letters key names are made of. */
  predicate IsUpper(c: char)
  {
    'A' <= c <= 'Z'
  }

  /** The output for one character after the first: a space before each upper-case letter. */
  function Piece(c: char): string
  {
    if IsUpper(c) then [' ', c] else [c]
  }

  /** The pieces of a sequence of characters, in order. */
  function Spread(t: string): string
  {
    if t == [] then [] else Spread(t[..|t| - 1]) + Piece(t[|t| - 1])
  }

  /** The readable form: the first character as is, a space before every later upper-case letter. */
  function Prettify(s: string): string
  {
    if s == [] then [] else [s[0]] + Spread(s[1..])
  }

  /** `prettify_camel_case`: push the first character, then each later one, with a space before capitals. */
  method PrettifyCamelCase(s: string) returns (result: string)
    ensures result == Prettify(s)
  {
    result := [];
    if |s| > 0 {
      result := result + [s[0]];
      var i := 1;
      while i < |s|
        invariant 1 <= i <= |s|
        invariant result == [s[0]] + Spread(s[1..i])
      {
        SpreadSnoc(s, i);
        ghost var before := Spread(s[1..i]);
        if IsUpper(s[i]) {
          result := result + [' '];
        }
        result := result + [s[i]];
        assert result == [s[0]] + (before + Piece(s[i]));
        i := i + 1;
      }
      assert s[1..i] == s[1..];
    }
  }

  /** The pieces of one more character follow the pieces before it. */
  lemma SpreadSnoc(s: string, i: nat)
    requires 1 <= i < |s|
    ensures Spread(s[1..i + 1]) == Spread(s[1..i]) + Piece(s[i])
  {
    assert s[1..i + 1][..i - 1] == s[1..i];
  }

  /** The number of upper-case letters in `t`. */
  function CountUpper(t: string): nat
  {
    if t == [] then 0 else CountUpper(t[..|t| - 1]) + (if IsUpper(t[|t| - 1]) then 1 else 0)
  }

  /** Remove every space that stands right before an upper-case letter (scanning from the end). */
  function Unspace(t: string): string
  {
    if t == [] then []
    else if |t| >= 2 && IsUpper(t[|t| - 1]) && t[|t| - 2] == ' ' then Unspace(t[..|t| - 2]) + [t[|t| - 1]]
    else Unspace(t[..|t| - 1]) + [t[|t| - 1]]
  }

  /** Deleting the inserted spaces gives back the input. */
  function Unprettify(t: string): string
  {
    if t == [] then [] else [t[0]] + Unspace(t[1..])
  }

  lemma {:induction false} SpreadLength(t: string)
    ensures |Spread(t)| == |t| + CountUpper(t)
  {
    if t != [] {
      SpreadLength(t[..|t| - 1]);
    }
  }

  lemma UnspaceUpper(x: string, c: char)
    requires IsUpper(c)
    ensures Unspace(x + [' ', c]) == Unspace(x) + [c]
  {
    var y := x + [' ', c];
    assert y[..|y| - 2] == x;
  }

  lemma UnspaceOther(x: string, c: char)
    requires !IsUpper(c)
    ensures Unspace(x + [c]) == Unspace(x) + [c]
  {
    var y := x + [c];
    assert y[..|y| - 1] == x;
  }

  lemma {:induction false} SpreadUnspace(t: string)
    ensures Unspace(Spread(t)) == t
  {
    if t != [] {
      var init := t[..|t| - 1];
      var c := t[|t| - 1];
      assert t == init + [c];
      assert Spread(t) == Spread(init) + Piece(c);
      SpreadUnspace(init);
      if IsUpper(c) {
        UnspaceUpper(Spread(init), c);
      } else {
        UnspaceOther(Spread(init), c);
      }
    }
  }

  /**
   * The prettified name keeps every character in order and inserts one
   * space per upper-case letter after the first character: removing those
   * spaces gives the input back, the first character never gets a space
   * before it, and the empty name stays empty.
   */
  lemma PrettifySpec(s: string)
    ensures Unprettify(Prettify(s)) == s
    ensures s == [] ==> Prettify(s) == []
    ensures s != [] ==> |Prettify(s)| == |s| + CountUpper(s[1..]) && Prettify(s)[0] == s[0]
  {
    if s != [] {
      SpreadLength(s[1..]);
      SpreadUnspace(s[1..]);
      assert Prettify(s)[1..] == Spread(s[1..]);
    }
  }

  // ---------------------------------------------------------------------
  // shortcut_to_string
  // ---------------------------------------------------------------------

  /** `parts.join(sep)`. */
  function Join(parts: seq<string>, sep: string): string
  {
    if parts == [] then []
    else if |parts| == 1 then parts[0]
    else Join(parts[..|parts| - 1], sep) + sep + parts[|parts| - 1]
  }

  /** The readable names of a chord's keys, in chord order; `name` is the key's `Debug` text. */
  function KeyNames(chord: Chord, name: KeyCode -> string): (names: seq<string>)
    ensures |names| == |chord|
    ensures forall i | 0 <= i < |chord| :: names[i] == Prettify(name(chord[i]))
  {
    if chord == [] then [] else KeyNames(chord[..|chord| - 1], name) + [Prettify(name(chord[|chord| - 1]))]
  }

  /** `shortcut_to_string`: the readable key names joined with ` + `. */
  function ShortcutToString(chord: Chord, name: KeyCode -> string): string
  {
    Join(KeyNames(chord, name), " + ")
  }

  /** Joining two non-empty runs of parts puts one separator between them. */
  lemma {:induction false} JoinAppend(a: seq<string>, b: seq<string>, sep: string)
    requires a != [] && b != []
    ensures Join(a + b, sep) == Join(a, sep) + sep + Join(b, sep)
    decreases |b|
  {
    var last := b[|b| - 1];
    if |b| == 1 {
      assert a + b == a + [last];
      JoinSnoc(a, last, sep);
    } else {
      var binit := b[..|b| - 1];
      assert b == binit + [last];
      assert a + b == (a + binit) + [last];
      JoinSnoc(a + binit, last, sep);
      JoinAppend(a, binit, sep);
      JoinSnoc(binit, last, sep);
      var ja, jb := Join(a, sep), Join(binit, sep);
      assert Join(a + b, sep) == ja + sep + jb + sep + last;
      assert Join(b, sep) == jb + sep + last;
      assert ja + sep + jb + sep + last == ja + sep + (jb + sep + last);
    }
  }

  /** Joining one more part adds a separator and the part. */
  lemma JoinSnoc(a: seq<string>, x: string, sep: string)
    requires a != []
    ensures Join(a + [x], sep) == Join(a, sep) + sep + x
  {
    assert (a + [x])[..|a|] == a;
  }

  /**
   * The empty chord is the empty string, one key is its readable name,
   * and two chords written one after the other are joined by ` + `.
   */
  lemma ShortcutToStringSpec(a: Chord, b: Chord, k: KeyCode, name: KeyCode -> string)
    ensures ShortcutToString([], name) == ""
    ensures ShortcutToString([k], name) == Prettify(name(k))
    ensures a != [] && b != [] ==>
      ShortcutToString(a + b, name) == ShortcutToString(a, name) + " + " + ShortcutToString(b, name)
  {
    if a != [] && b != [] {
      assert KeyNames(a + b, name) == KeyNames(a, name) + KeyNames(b, name);
      JoinAppend(KeyNames(a, name), KeyNames(b, name), " + ");
    }
  }

  // ---------------------------------------------------------------------
  // The rebinding state machine
  // ---------------------------------------------------------------------

  /** `OverwriteState`: which row is being rebound. */
  datatype OverwriteState = Active(row: nat) | Disabled(row: nat) | New

  /** A change the page makes to the shortcut table. */
  datatype TableEdit = InsertEdit(chord: Chord, instruction: Instruction) | DiscardEdit(instruction: Instruction)

  /** The chord box of row i. */
  function ShortcutRect(i: nat): Rect
  {
    Rect(438.0, 32.0 * i as real + 106.0, 300.0, 26.0)
  }

  /** The Remove button of row i. */
  function RemoveRect(i: nat): Rect
  {
    Rect(352.0, 32.0 * i as real + 106.0, 80.0, 26.0)
  }

  /** The rows are stacked without overlap, so a point is in at most one chord box. */
  lemma RowsDisjoint(i: nat, j: nat, p: Vec2)
    requires Contains(ShortcutRect(i), p) && Contains(ShortcutRect(j), p)
    ensures i == j
  {
  }

  /** The frame's inputs the rows look at. */
  datatype Keys = Keys(f: Focus, id: nat, prevHeld: Chord, held: Chord)

  /** Is the last-touch position inside row i's chord box? */
  predicate Touched(k: Keys, i: nat)
  {
    Contains(ShortcutRect(i), k.f.lasttouchMouse)
  }

  /** Row i of the loop: the new state and the table edits, in order. */
  function RowStep(active: OverwriteState, i: nat, row: (Chord, Instruction), k: Keys): (OverwriteState, seq<TableEdit>)
  {
    var hoverPossible := NodeTree.ContainsSelf(k.id, k.f.hoverholdFocus);
    var removeClicked := RawUiButton(hoverPossible && Contains(RemoveRect(i), k.f.mouse), k.f.buttons.leftLetGo);
    var (a, edits) :=
      if Touched(k, i) && active != Disabled(i) then (Active(i), [])
      else if row.0 == [] then (active, [])
      else if removeClicked then (active, [DiscardEdit(row.1)])
      else (active, []);
    if a == Active(i) then
      if !Touched(k, i) then (New, edits)
      else if |k.prevHeld| > |k.held| then (Disabled(i), edits + [InsertEdit(k.prevHeld, row.1)])
      else (a, edits)
    else (a, edits)
  }

  /** The loop over rows `0..n`. */
  function Rows(active: OverwriteState, rows: seq<(Chord, Instruction)>, n: nat, k: Keys): (OverwriteState, seq<TableEdit>)
    requires n <= |rows|
  {
    if n == 0 then (active, [])
    else
      var (a, edits) := Rows(active, rows, n - 1, k);
      var (a', more) := RowStep(a, n - 1, rows[n - 1], k);
      (a', edits + more)
  }

  /**
   * One row: an active row whose held key set shrank commits the chord
   * held before for the row's instruction and becomes disabled; an active
   * row no longer under the last-touch position becomes `New`; a disabled
   * row never commits; a row comes out active only when the last-touch
   * position is on it, and another row's state is left as it was unless
   * this row takes over.
   */
  lemma RowStepSpec(active: OverwriteState, i: nat, row: (Chord, Instruction), k: Keys)
    ensures var (a, edits) := RowStep(active, i, row, k);
      && (active == Active(i) && Touched(k, i) && |k.prevHeld| > |k.held| ==>
            a == Disabled(i) && edits[|edits| - 1] == InsertEdit(k.prevHeld, row.1))
      && (active == Active(i) && !Touched(k, i) ==> a == New)
      && (active == Disabled(i) ==> a == Disabled(i) && forall e | e in edits :: !e.InsertEdit?)
      && (a == Active(i) ==> Touched(k, i))
      && (a != active ==> a == Active(i) || a == Disabled(i) || a == New)
      && (a.Active? && a.row != i ==> a == active)
  {
  }

  /**
   * After the whole loop, an `Active` row among those shown is one under
   * the last-touch position.
   */
  lemma {:induction false} RowsActiveTouched(active: OverwriteState, rows: seq<(Chord, Instruction)>, n: nat, k: Keys)
    requires n <= |rows|
    requires active.Active? && active.row < n ==> Touched(k, active.row)
    ensures var (a, _) := Rows(active, rows, n, k);
      a.Active? && a.row < n ==> Touched(k, a.row)
  {
    if n > 0 {
      RowsActiveTouched(active, rows, n - 1, k);
      var (a, _) := Rows(active, rows, n - 1, k);
      RowStepSpec(a, n - 1, rows[n - 1], k);
    }
  }

  /** The settings page's shortcuts node. */
  class Shortcuts {
    var active: OverwriteState

    /** `Shortcuts::new`: no row is being rebound. */
    constructor ()
      ensures active == New
    {
      active := New;
    }

    /** `Shortcuts::update`: walk the rows in order, collecting the table edits. */
    method Update(rows: seq<(Chord, Instruction)>, k: Keys) returns (edits: seq<TableEdit>)
      modifies this
      ensures (active, edits) == Rows(old(active), rows, |rows|, k)
    {
      edits := [];
      var i := 0;
      while i < |rows|
        invariant 0 <= i <= |rows|
        invariant (active, edits) == Rows(old(active), rows, i, k)
      {
        var more := Row(i, rows[i], k);
        edits := edits + more;
        i := i + 1;
      }
    }

    /** One row of the loop: the Remove button, then the chord box. */
    method Row(i: nat, row: (Chord, Instruction), k: Keys) returns (more: seq<TableEdit>)
      modifies this
      ensures (active, more) == RowStep(old(active), i, row, k)
    {
      var (shortcut, instruction) := row;
      var touched := Contains(ShortcutRect(i), k.f.lasttouchMouse);
      var hoverPossible := NodeTree.ContainsSelf(k.id, k.f.hoverholdFocus);
      more := [];
      if touched && active != Disabled(i) {
        active := Active(i);
      } else if shortcut == [] {
      } else if RawUiButton(hoverPossible && Contains(RemoveRect(i), k.f.mouse), k.f.buttons.leftLetGo) {
        more := [DiscardEdit(instruction)];
      }
      if active == Active(i) {
        if !touched {
          active := New;
        } else if |k.prevHeld| > |k.held| {
          more := more + [InsertEdit(k.prevHeld, instruction)];
          active := Disabled(i);
        }
      }
    }
  }
}
