/**
 * The integer parts of the colour layer of src/colour.rs: hex formatting
 * and parsing at byte level, dispatch on the colour space, the field
 * copies of `Rgba` and `Hsva`, and the per-space wheel defaults.
 *
 * Channels are reals (`f32` in the source; rounding is not modelled).  The
 * HSV and OkLab conversions are floating-point maths and are passed in as
 * functions (`Conversions`).
 */
module Colour {
  /** A `u8`. */
  type Byte = x: nat | x < 256

  /** A `u32`. */
  type U32 = x: nat | x < 0x1_0000_0000

  /** The colour space a picker works in (`ColSelection`). */
  datatype ColSelection = Rgba | Hsva | OkLab

  /** The `Rgba` struct: channels as given. */
  datatype RgbaCol = RgbaCol(r: real, g: real, b: real, a: real)

  /** The `Hsva` struct: hue, saturation, value and alpha. */
  datatype HsvaCol = HsvaCol(h: real, s: real, v: real, a: real)

  /** The `OkLab` struct: an OkLab triple and alpha. */
  datatype OkLabCol = OkLabCol(l: real, ok_a: real, ok_b: real, alpha: real)

  /** `Col`: a colour in one of the three spaces. */
  datatype Col = RgbaC(rgba: RgbaCol) | HsvaC(hsva: HsvaCol) | OkLabC(oklab: OkLabCol)

  /** The floating-point conversions the dispatch calls but this model does not define. */
  datatype Conversions = Conversions(
    hsvaFromRgba: (real, real, real, real) -> HsvaCol,
    okLabFromRgba: (real, real, real, real) -> OkLabCol,
    okLabFromWheel: (real, real, real) -> OkLabCol)

  // ---------------------------------------------------------------------
  // Field copies of Rgba and Hsva (colour.rs:180-208, 314-325)
  // ---------------------------------------------------------------------

  function RgbaFromRgba(r: real, g: real, b: real, a: real): RgbaCol { RgbaCol(r, g, b, a) }

  function RgbaToRgba(c: RgbaCol): seq<real> { [c.r, c.g, c.b, c.a] }

  /** `Rgba::from_wheel`: circular, radial and scalar become r, g and b; alpha is 1. */
  function RgbaFromWheel(circular: real, radial: real, scalar: real): RgbaCol { RgbaCol(circular, radial, scalar, 1.0) }

  function RgbaToWheel(c: RgbaCol): (real, real, real) { (c.r, c.g, c.b) }

  /** `Hsva::from_wheel`: circular, radial and scalar become h, s and v; alpha is 1. */
  function HsvaFromWheel(circular: real, radial: real, scalar: real): HsvaCol { HsvaCol(circular, radial, scalar, 1.0) }

  function HsvaToWheel(c: HsvaCol): (real, real, real) { (c.h, c.s, c.v) }

  /** `to_rgba(from_rgba(r, g, b, a)) == [r, g, b, a]` for `Rgba`, and the converse. */
  lemma RgbaRoundTrip(r: real, g: real, b: real, a: real, c: RgbaCol)
    ensures RgbaToRgba(RgbaFromRgba(r, g, b, a)) == [r, g, b, a]
    ensures var s := RgbaToRgba(c); RgbaFromRgba(s[0], s[1], s[2], s[3]) == c
  {
  }

  /** The wheel coordinates survive a round trip in both field-copy spaces, and alpha becomes 1. */
  lemma WheelRoundTrip(circular: real, radial: real, scalar: real)
    ensures RgbaToWheel(RgbaFromWheel(circular, radial, scalar)) == (circular, radial, scalar)
    ensures RgbaFromWheel(circular, radial, scalar).a == 1.0
    ensures HsvaToWheel(HsvaFromWheel(circular, radial, scalar)) == (circular, radial, scalar)
    ensures HsvaFromWheel(circular, radial, scalar).a == 1.0
  {
  }

  // ---------------------------------------------------------------------
  // Dispatch on the colour space (colour.rs:51-57, 74-88)
  // ---------------------------------------------------------------------

  /** `Col::to_col_sel`: the space a colour is in. */
  function ToColSel(c: Col): ColSelection
  {
    match c
    case RgbaC(_) => Rgba
    case HsvaC(_) => Hsva
    case OkLabC(_) => OkLab
  }

  /** `ColSelection::col_from_rgba`: build the colour in the selected space. */
  function ColFromRgba(sel: ColSelection, r: real, g: real, b: real, a: real, conv: Conversions): (c: Col)
    ensures ToColSel(c) == sel
    ensures sel == Rgba ==> c == RgbaC(RgbaCol(r, g, b, a))
  {
    match sel
    case Rgba => RgbaC(RgbaFromRgba(r, g, b, a))
    case Hsva => HsvaC(conv.hsvaFromRgba(r, g, b, a))
    case OkLab => OkLabC(conv.okLabFromRgba(r, g, b, a))
  }

  /** `ColSelection::col_from_wheel`: build the colour in the selected space from wheel coordinates. */
  function ColFromWheel(sel: ColSelection, circular: real, radial: real, scalar: real, conv: Conversions): (c: Col)
    ensures ToColSel(c) == sel
    ensures sel == Rgba ==> RgbaToWheel(c.rgba) == (circular, radial, scalar)
    ensures sel == Hsva ==> HsvaToWheel(c.hsva) == (circular, radial, scalar)
  {
    match sel
    case Rgba => RgbaC(RgbaFromWheel(circular, radial, scalar))
    case Hsva => HsvaC(HsvaFromWheel(circular, radial, scalar))
    case OkLab => OkLabC(conv.okLabFromWheel(circular, radial, scalar))
  }

  /** `default_cirular`, `default_radial` and `default_scalar` of each space, as one triple. */
  function DefaultWheel(sel: ColSelection): (real, real, real)
  {
    match sel
    case Rgba => (0.0, 0.0, 0.0)
    case Hsva => (0.0, 1.0, 1.0)
    case OkLab => (0.0, 0.0, 0.0)
  }

  /**
   * The defaults select the first corner of the wheel in every space:
   * black for Rgba, a fully saturated and bright hue 0 for Hsva.
   */
  lemma DefaultWheelColours(conv: Conversions)
    ensures var (c, r, s) := DefaultWheel(Rgba); ColFromWheel(Rgba, c, r, s, conv) == RgbaC(RgbaCol(0.0, 0.0, 0.0, 1.0))
    ensures var (c, r, s) := DefaultWheel(Hsva); ColFromWheel(Hsva, c, r, s, conv) == HsvaC(HsvaCol(0.0, 1.0, 1.0, 1.0))
    ensures DefaultWheel(OkLab) == (0.0, 0.0, 0.0)
  {
  }

  // ---------------------------------------------------------------------
  // Bytes and hex text (colour.rs:47-49, 66-72, 98-110)
  // ---------------------------------------------------------------------

  /**
   * `(d * 255.0) as u8`: Rust's float-to-integer cast truncates toward zero
   * and saturates at the ends of the range.
   */
  function ToU8(d: real): (b: Byte)
    ensures d * 255.0 <= 0.0 ==> b == 0
    ensures d * 255.0 >= 255.0 ==> b == 255
    ensures 0.0 < d * 255.0 < 255.0 ==> b as real <= d * 255.0 < b as real + 1.0
  {
    var x := d * 255.0;
    if x <= 0.0 then 0 else if x >= 255.0 then 255 else x.Floor
  }

  /** A channel that came from a byte converts back to that byte. */
  lemma ToU8OfByte(b: Byte)
    ensures ToU8(b as real / 255.0) == b
  {
  }

  predicate IsHexDigit(c: char)
  {
    '0' <= c <= '9' || 'a' <= c <= 'f' || 'A' <= c <= 'F'
  }

  predicate IsUpperHexDigit(c: char)
  {
    '0' <= c <= '9' || 'A' <= c <= 'F'
  }

  function HexValue(c: char): (v: nat)
    requires IsHexDigit(c)
    ensures v < 16
  {
    if '0' <= c <= '9' then c as int - '0' as int
    else if 'a' <= c <= 'f' then c as int - 'a' as int + 10
    else c as int - 'A' as int + 10
  }

  /** The upper-case hex digit of a value below 16. */
  function UpperHex(n: nat): (c: char)
    requires n < 16
    ensures IsUpperHexDigit(c) && HexValue(c) == n
  {
    if n < 10 then ('0' as int + n) as char else ('A' as int + n - 10) as char
  }

  /** A byte as two upper-case hex digits, high nibble first. */
  function Hex2(b: Byte): (s: string)
    ensures |s| == 2 && IsUpperHexDigit(s[0]) && IsUpperHexDigit(s[1])
  {
    [UpperHex(b / 16), UpperHex(b % 16)]
  }

  /** The value of a string of hex digits, most significant first. */
  function ParseHex(s: string): nat
    requires forall i | 0 <= i < |s| :: IsHexDigit(s[i])
  {
    if s == [] then 0 else ParseHex(s[..|s| - 1]) * 16 + HexValue(s[|s| - 1])
  }

  lemma ParseHexAppend2(s: string, b: Byte)
    requires forall i | 0 <= i < |s| :: IsHexDigit(s[i])
    ensures forall i | 0 <= i < |s + Hex2(b)| :: IsHexDigit((s + Hex2(b))[i])
    ensures ParseHex(s + Hex2(b)) == ParseHex(s) * 256 + b
  {
    var t := s + Hex2(b);
    assert t[..|t| - 1] == s + [UpperHex(b / 16)];
    assert (s + [UpperHex(b / 16)])[..|s|] == s;
  }

  /** `format_rgba_u8`: `#` and two upper-case hex digits for each of r, g and b; alpha is ignored. */
  function FormatRgbaU8(arr: seq<Byte>): (s: string)
    requires |arr| == 4
    ensures |s| == 7 && s[0] == '#'
    ensures forall i | 1 <= i < 7 :: IsUpperHexDigit(s[i])
  {
    "#" + Hex2(arr[0]) + Hex2(arr[1]) + Hex2(arr[2])
  }

  /**
   * `format_rgba`: each channel through `(d * 255.0) as u8`, then
   * `format_rgba_u8`.  The digits read back, as `col_from_hex_string`
   * reads them, give the converted r, g and b bytes.
   */
  function FormatRgba(arr: seq<real>): (s: string)
    requires |arr| == 4
    ensures |s| == 7 && s[0] == '#'
    ensures ParsesAsU32(s[1..]) && ParseHex(Digits(s[1..])) == FromBe(0, ToU8(arr[0]), ToU8(arr[1]), ToU8(arr[2]))
  {
    var bytes := [ToU8(arr[0]), ToU8(arr[1]), ToU8(arr[2]), ToU8(arr[3])];
    FormatParses(bytes);
    FormatRgbaU8(bytes)
  }

  /** The digits `u32::from_str_radix(s, 16)` reads: a leading `+` is allowed. */
  function Digits(s: string): string
  {
    if |s| > 0 && s[0] == '+' then s[1..] else s
  }

  /**
   * `u32::from_str_radix(s, 16)` succeeds: at least one digit, every
   * character a hex digit, and the value fits in 32 bits.
   */
  predicate ParsesAsU32(s: string)
  {
    var d := Digits(s);
    && |d| > 0
    && (forall i | 0 <= i < |d| :: IsHexDigit(d[i]))
    && ParseHex(d) < 0x1_0000_0000
  }

  /** The `u32` whose big-endian bytes are b0, b1, b2, b3 (`u32::from_be_bytes`). */
  function FromBe(b0: Byte, b1: Byte, b2: Byte, b3: Byte): U32
  {
    ((b0 * 256 + b1) * 256 + b2) * 256 + b3
  }

  /** `u32::to_be_bytes`. */
  function BeBytes(x: U32): (bytes: seq<Byte>)
    ensures |bytes| == 4
  {
    var x1 := x / 256;
    var x2 := x1 / 256;
    [x2 / 256, x2 % 256, x1 % 256, x % 256]
  }

  lemma Div256(x: int, q: int, r: int)
    requires 0 <= r < 256 && x == q * 256 + r
    ensures x / 256 == q && x % 256 == r
  {
  }

  lemma Mod32(x: int, q: int, r: int)
    requires 0 <= r < 0x1_0000_0000 && x == q * 0x1_0000_0000 + r
    ensures x % 0x1_0000_0000 == r
  {
  }

  /** `to_be_bytes` and `from_be_bytes` are inverse. */
  lemma BeBytesRoundTrip(b0: Byte, b1: Byte, b2: Byte, b3: Byte, x: U32)
    ensures BeBytes(FromBe(b0, b1, b2, b3)) == [b0, b1, b2, b3]
    ensures var b := BeBytes(x); FromBe(b[0], b[1], b[2], b[3]) == x
  {
    Div256(FromBe(b0, b1, b2, b3), (b0 * 256 + b1) * 256 + b2, b3);
    Div256((b0 * 256 + b1) * 256 + b2, b0 * 256 + b1, b2);
    Div256(b0 * 256 + b1, b0, b1);
  }

  /** `(hex << 8) + 0xFF` in `u32`: the top byte is shifted out. */
  function ShiftInAlpha(hex: U32): U32
  {
    (hex * 256) % 0x1_0000_0000 + 0xFF
  }

  /**
   * `col_from_rgb_hex` keeps the low three bytes of `hex` as big-endian
   * r, g, b, drops the top byte and forces alpha to 0xFF.
   */
  lemma ShiftInAlphaBytes(hex: U32)
    ensures var b := BeBytes(hex); BeBytes(ShiftInAlpha(hex)) == [b[1], b[2], b[3], 255]
  {
    var b := BeBytes(hex);
    BeBytesRoundTrip(b[1], b[2], b[3], 255, hex);
    assert hex * 256 == b[0] * 0x1_0000_0000 + FromBe(b[1], b[2], b[3], 0);
    Mod32(hex * 256, b[0], FromBe(b[1], b[2], b[3], 0));
  }

  /** `col_from_rgba_hex`: the four big-endian bytes, each divided by 255. */
  function ColFromRgbaHex(sel: ColSelection, hex: U32, conv: Conversions): (c: Col)
    ensures ToColSel(c) == sel
  {
    var bytes := BeBytes(hex);
    ColFromRgba(sel, bytes[0] as real / 255.0, bytes[1] as real / 255.0, bytes[2] as real / 255.0, bytes[3] as real / 255.0, conv)
  }

  function ColFromRgbHex(sel: ColSelection, hex: U32, conv: Conversions): (c: Col)
    ensures ToColSel(c) == sel
  {
    ColFromRgbaHex(sel, ShiftInAlpha(hex), conv)
  }

  /** `col_from_hex_string`: the source unwraps the parse, so a string that does not parse is fatal. */
  function ColFromHexString(sel: ColSelection, s: string, conv: Conversions): (c: Col)
    requires ParsesAsU32(s)
    ensures ToColSel(c) == sel
  {
    ColFromRgbHex(sel, ParseHex(Digits(s)), conv)
  }

  /**
   * Byte round trip: the digits after `#` in `format_rgba_u8([r, g, b, a])`
   * parse, and give back the bytes r, g, b with alpha 0xFF; through the
   * Rgba space the colour is [r, g, b, 255] / 255.
   */
  lemma {:induction false} HexRoundTrip(arr: seq<Byte>, conv: Conversions)
    requires |arr| == 4
    ensures var digits := FormatRgbaU8(arr)[1..];
      && ParsesAsU32(digits)
      && BeBytes(ShiftInAlpha(ParseHex(Digits(digits)))) == [arr[0], arr[1], arr[2], 255]
      && ColFromHexString(Rgba, digits, conv)
         == RgbaC(RgbaCol(arr[0] as real / 255.0, arr[1] as real / 255.0, arr[2] as real / 255.0, 1.0))
  {
    var digits := FormatRgbaU8(arr)[1..];
    FormatParses(arr);
    var v := ParseHex(Digits(digits));
    BeBytesRoundTrip(0, arr[0], arr[1], arr[2], v);
    ShiftInAlphaBytes(v);
  }

  /** The digits after `#` in `format_rgba_u8([r, g, b, a])` parse as a `u32`, to the value with bytes 0, r, g, b. */
  lemma FormatParses(arr: seq<Byte>)
    requires |arr| == 4
    ensures var digits := FormatRgbaU8(arr)[1..];
      ParsesAsU32(digits) && ParseHex(Digits(digits)) == FromBe(0, arr[0], arr[1], arr[2])
  {
    var digits := FormatRgbaU8(arr)[1..];
    assert digits == [] + Hex2(arr[0]) + Hex2(arr[1]) + Hex2(arr[2]);
    ParseHexAppend2([], arr[0]);
    ParseHexAppend2(Hex2(arr[0]), arr[1]);
    ParseHexAppend2(Hex2(arr[0]) + Hex2(arr[1]), arr[2]);
    assert [] + Hex2(arr[0]) == Hex2(arr[0]);
    assert Digits(digits) == digits;
  }
}
