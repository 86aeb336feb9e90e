/**
 * The value types the shortcut table and the UI nodes exchange: the
 * drawing tool, the top-level tab and the instruction a key chord stands
 * for.
 */
module Instructions {
  import opened Colour

  /** The active drawing tool. */
  datatype DrawState = Line | Fill | Picker | Draw

  /** The top-level tabs, in the order of `Main`'s children (0, 1, 2). */
  datatype Tab = Draw | Settings | Export

  /** A tab's position among `Main`'s children (`tab as u8`). */
  function TabIndex(t: Tab): (i: nat)
    ensures i < 3
  {
    match t
    case Draw => 0
    case Settings => 1
    case Export => 2
  }

  /** Distinct tabs occupy distinct child positions. */
  lemma TabIndexInjective(t: Tab, u: Tab)
    ensures TabIndex(t) == TabIndex(u) <==> t == u
  {
  }

  /**
   * What a key chord resolves to.  `NoInstruction` is the `None` variant
   * (the value of an unbound chord); `GoTo` exists only in the later tab
   * code.
   */
  datatype Instruction =
    | NoInstruction
    | ChangeDrawState(state: DrawState)
    | Eraser
    | SaveCol
    | ToggleGrid
    | ChangePickerType(sel: ColSelection)
    | GoTo(tab: Tab)
}
