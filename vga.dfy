/**
 * The VGA text-mode driver of `src/drivers/vga.rs`: 80x25 cells of 16 bits each (a code
 * page 437 byte, then the foreground and background colours), the colour palette, and the
 * table between code page 437 bytes and Unicode characters.
 */
module Vga {
  import opened Wrappers

  const WIDTH: nat := 80
  const HEIGHT: nat := 25
  /** The number of cells of the buffer, `WIDTH * HEIGHT`. */
  const CELLS: nat := 2000

  /** A `u8`. */
  type Byte = b: int | 0 <= b < 256

  /** `VgaChar`: a non-zero code page 437 byte (`NonZeroU8`); `as_u8` is the byte itself. */
  type VgaChar = b: int | 1 <= b <= 255 witness 1

  /** `Color`, a `repr(u8)` enumeration of the sixteen VGA colours. */
  datatype Color =
    | Black | Blue | Green | Cyan | Red | Magenta | Brown | LightGray
    | DarkGray | LightBlue | LightGreen | LightCyan | LightRed | Pink | Yellow | White

  /** The discriminant of a colour, `color as u8`. */
  function ColorCode(c: Color): (r: nat)
    ensures r < 16
  {
    match c
    case Black => 0 case Blue => 1 case Green => 2 case Cyan => 3
    case Red => 4 case Magenta => 5 case Brown => 6 case LightGray => 7
    case DarkGray => 8 case LightBlue => 9 case LightGreen => 10 case LightCyan => 11
    case LightRed => 12 case Pink => 13 case Yellow => 14 case White => 15
  }

  /** The `transmute` of a discriminant below 16 back into a colour. */
  function ColorOf(n: nat): (c: Color)
    requires n < 16
    ensures ColorCode(c) == n
  {
    [Black, Blue, Green, Cyan, Red, Magenta, Brown, LightGray,
     DarkGray, LightBlue, LightGreen, LightCyan, LightRed, Pink, Yellow, White][n]
  }

  /** Each colour is the `transmute` of its own discriminant. */
  lemma ColorCodeRoundTrip(c: Color)
    ensures ColorOf(ColorCode(c)) == c
  {
  }

  /** `Color::iter_all`: the colours of discriminants 0 to 15, in order, so each exactly once. */
  function AllColors(): (r: seq<Color>)
    ensures |r| == 16 && forall i | 0 <= i < 16 :: ColorCode(r[i]) == i
    ensures forall c: Color :: r[ColorCode(c)] == c
  {
    var r := seq(16, i requires 0 <= i < 16 => ColorOf(i));
    forall c: Color
      ensures r[ColorCode(c)] == c
    {
      ColorCodeRoundTrip(c);
    }
    r
  }

  /** `VgaChar::iter_all`: every byte from 1 to 255, in order. */
  function AllVgaChars(): (r: seq<VgaChar>)
    ensures |r| == 255 && forall i | 0 <= i < 255 :: r[i] == i + 1
  {
    seq(255, i requires 0 <= i < 255 => i + 1)
  }

  /**
   * The cell `putc_unchecked` stores: the byte in bits 0-7, the foreground in bits 8-11 and
   * the background in bits 12-15.
   */
  function PackCell(c: Byte, fg: Color, bg: Color): bv16 {
    (c as bv16) | ((ColorCode(bg) as bv16) << 12) | ((ColorCode(fg) as bv16) << 8)
  }

  /** Colours below 16 do not overlap: a cell decodes back into its byte and colours. */
  lemma CellDecodes(c: Byte, fg: Color, bg: Color)
    ensures PackCell(c, fg, bg) & 0xFF == c as bv16
    ensures (PackCell(c, fg, bg) >> 8) & 0xF == ColorCode(fg) as bv16
    ensures PackCell(c, fg, bg) >> 12 == ColorCode(bg) as bv16
  {
  }

  /**
   * `VgaChar::as_char`: the character a byte shows. Bytes 0x20-0x7E are printable ASCII and
   * show the character of the same code; byte 0xFF has no entry and gives '\0'.
   */
  function AsChar(v: VgaChar): char {
    if 0x20 <= v <= 0x7E then v as char
    else if v < 0x20 then ControlGlyph(v)
    else if v < 0xA0 then AccentGlyph(v)
    else if v < 0xC0 then PunctuationGlyph(v)
    else if v < 0xE0 then BoxGlyph(v)
    else if v < 0xFF then MathGlyph(v)
    else '\0'
  }

  /**
   * `VgaChar::from_char`: the byte that shows `c`, if any. The table is split by code point
   * range; printable ASCII maps to its own code.
   */
  function FromChar(c: char): Option<VgaChar> {
    if ' ' <= c <= '~' then Some(c as int)
    else if c < '\U{0080}' then None
    else if c < '\U{00C0}' then FromLatin1Low(c)
    else if c < '\U{0100}' then FromLatin1High(c)
    else if c < '\U{2000}' then FromGreek(c)
    else if c < '\U{2500}' then FromPunctuation(c)
    else if c < '\U{2580}' then FromBox(c)
    else FromShapes(c)
  }

  /** The glyphs of the control bytes 0x01-0x1F. */
  function ControlGlyph(v: VgaChar): char {
    match v
    case 0x01 => '☺' case 0x02 => '☻' case 0x03 => '♥' case 0x04 => '♦'
    case 0x05 => '♣' case 0x06 => '♠' case 0x07 => '\U{2022}' case 0x08 => '◘'
    case 0x09 => '○' case 0x0A => '◙' case 0x0B => '♂' case 0x0C => '♀'
    case 0x0D => '♪' case 0x0E => '♫' case 0x0F => '☼' case 0x10 => '►'
    case 0x11 => '◄' case 0x12 => '↕' case 0x13 => '‼' case 0x14 => '¶'
    case 0x15 => '§' case 0x16 => '▬' case 0x17 => '↨' case 0x18 => '↑'
    case 0x19 => '↓' case 0x1A => '→' case 0x1B => '←' case 0x1C => '∟'
    case 0x1D => '↔' case 0x1E => '▲' case 0x1F => '▼'
    case _ => '\0'
  }

  /** 0x7F-0x9F: the house and accented letters. */
  function AccentGlyph(v: VgaChar): char {
    match v
    case 0x7F => '⌂' case 0x80 => 'Ç' case 0x81 => 'ü' case 0x82 => 'é'
    case 0x83 => 'â' case 0x84 => 'ä' case 0x85 => 'à' case 0x86 => 'å'
    case 0x87 => 'ç' case 0x88 => 'ê' case 0x89 => 'ë' case 0x8A => 'è'
    case 0x8B => 'ï' case 0x8C => 'î' case 0x8D => 'ì' case 0x8E => 'Ä'
    case 0x8F => 'Å' case 0x90 => 'É' case 0x91 => 'æ' case 0x92 => 'Æ'
    case 0x93 => 'ô' case 0x94 => 'ö' case 0x95 => 'ò' case 0x96 => 'û'
    case 0x97 => 'ù' case 0x98 => 'ÿ' case 0x99 => 'Ö' case 0x9A => 'Ü'
    case 0x9B => '¢' case 0x9C => '£' case 0x9D => '¥' case 0x9E => '₧'
    case 0x9F => 'ƒ'
    case _ => '\0'
  }

  /** 0xA0-0xBF: accented letters, punctuation, shades and box drawing. */
  function PunctuationGlyph(v: VgaChar): char {
    match v
    case 0xA0 => 'á' case 0xA1 => 'í' case 0xA2 => 'ó' case 0xA3 => 'ú'
    case 0xA4 => 'ñ' case 0xA5 => 'Ñ' case 0xA6 => 'ª' case 0xA7 => 'º'
    case 0xA8 => '¿' case 0xA9 => '⌐' case 0xAA => '¬' case 0xAB => '½'
    case 0xAC => '¼' case 0xAD => '¡' case 0xAE => '«' case 0xAF => '»'
    case 0xB0 => '░' case 0xB1 => '▒' case 0xB2 => '▓' case 0xB3 => '│'
    case 0xB4 => '┤' case 0xB5 => '╡' case 0xB6 => '╢' case 0xB7 => '╖'
    case 0xB8 => '╕' case 0xB9 => '╣' case 0xBA => '║' case 0xBB => '╗'
    case 0xBC => '╝' case 0xBD => '╜' case 0xBE => '╛' case 0xBF => '┐'
    case _ => '\0'
  }

  /** 0xC0-0xDF: box drawing and blocks. */
  function BoxGlyph(v: VgaChar): char {
    match v
    case 0xC0 => '└' case 0xC1 => '┴' case 0xC2 => '┬' case 0xC3 => '├'
    case 0xC4 => '─' case 0xC5 => '┼' case 0xC6 => '╞' case 0xC7 => '╟'
    case 0xC8 => '╚' case 0xC9 => '╔' case 0xCA => '╩' case 0xCB => '╦'
    case 0xCC => '╠' case 0xCD => '═' case 0xCE => '╬' case 0xCF => '╧'
    case 0xD0 => '╨' case 0xD1 => '╤' case 0xD2 => '╥' case 0xD3 => '╙'
    case 0xD4 => '╘' case 0xD5 => '╒' case 0xD6 => '╓' case 0xD7 => '╫'
    case 0xD8 => '╪' case 0xD9 => '┘' case 0xDA => '┌' case 0xDB => '█'
    case 0xDC => '▄' case 0xDD => '▌' case 0xDE => '▐' case 0xDF => '▀'
    case _ => '\0'
  }

  /** 0xE0-0xFE: Greek letters and mathematical signs. */
  function MathGlyph(v: VgaChar): char {
    match v
    case 0xE0 => 'α' case 0xE1 => 'ß' case 0xE2 => 'Γ' case 0xE3 => 'π'
    case 0xE4 => 'Σ' case 0xE5 => 'σ' case 0xE6 => 'µ' case 0xE7 => 'τ'
    case 0xE8 => 'Φ' case 0xE9 => 'Θ' case 0xEA => 'Ω' case 0xEB => 'δ'
    case 0xEC => '∞' case 0xED => 'φ' case 0xEE => 'ε' case 0xEF => '∩'
    case 0xF0 => '≡' case 0xF1 => '±' case 0xF2 => '≥' case 0xF3 => '≤'
    case 0xF4 => '⌠' case 0xF5 => '⌡' case 0xF6 => '÷' case 0xF7 => '≈'
    case 0xF8 => '°' case 0xF9 => '\U{2219}' case 0xFA => '\U{00B7}' case 0xFB => '√'
    case 0xFC => 'ⁿ' case 0xFD => '²' case 0xFE => '■'
    case _ => '\0'
  }

  function FromLatin1Low(c: char): Option<VgaChar> {
    match c
    case '¡' => Some(0xAD) case '¢' => Some(0x9B) case '£' => Some(0x9C) case '¥' => Some(0x9D)
    case '§' => Some(0x15) case 'ª' => Some(0xA6) case '«' => Some(0xAE) case '¬' => Some(0xAA)
    case '°' => Some(0xF8) case '±' => Some(0xF1) case '²' => Some(0xFD) case 'µ' => Some(0xE6)
    case '¶' => Some(0x14) case '\U{00B7}' => Some(0xFA) case 'º' => Some(0xA7) case '»' => Some(0xAF)
    case '¼' => Some(0xAC) case '½' => Some(0xAB) case '¿' => Some(0xA8)
    case _ => None
  }

  function FromLatin1High(c: char): Option<VgaChar> {
    match c
    case 'Ä' => Some(0x8E) case 'Å' => Some(0x8F) case 'Æ' => Some(0x92) case 'Ç' => Some(0x80)
    case 'É' => Some(0x90) case 'Ñ' => Some(0xA5) case 'Ö' => Some(0x99) case 'Ü' => Some(0x9A)
    case 'ß' => Some(0xE1) case 'à' => Some(0x85) case 'á' => Some(0xA0) case 'â' => Some(0x83)
    case 'ä' => Some(0x84) case 'å' => Some(0x86) case 'æ' => Some(0x91) case 'ç' => Some(0x87)
    case 'è' => Some(0x8A) case 'é' => Some(0x82) case 'ê' => Some(0x88) case 'ë' => Some(0x89)
    case 'ì' => Some(0x8D) case 'í' => Some(0xA1) case 'î' => Some(0x8C) case 'ï' => Some(0x8B)
    case 'ñ' => Some(0xA4) case 'ò' => Some(0x95) case 'ó' => Some(0xA2) case 'ô' => Some(0x93)
    case 'ö' => Some(0x94) case '÷' => Some(0xF6) case 'ù' => Some(0x97) case 'ú' => Some(0xA3)
    case 'û' => Some(0x96) case 'ü' => Some(0x81) case 'ÿ' => Some(0x98)
    case _ => None
  }

  function FromGreek(c: char): Option<VgaChar> {
    match c
    case 'ƒ' => Some(0x9F) case 'Γ' => Some(0xE2) case 'Θ' => Some(0xE9) case 'Σ' => Some(0xE4)
    case 'Φ' => Some(0xE8) case 'Ω' => Some(0xEA) case 'α' => Some(0xE0) case 'δ' => Some(0xEB)
    case 'ε' => Some(0xEE) case 'π' => Some(0xE3) case 'σ' => Some(0xE5) case 'τ' => Some(0xE7)
    case 'φ' => Some(0xED)
    case _ => None
  }

  function FromPunctuation(c: char): Option<VgaChar> {
    match c
    case '\U{2022}' => Some(0x07) case '‼' => Some(0x13) case 'ⁿ' => Some(0xFC) case '₧' => Some(0x9E)
    case '←' => Some(0x1B) case '↑' => Some(0x18) case '→' => Some(0x1A) case '↓' => Some(0x19)
    case '↔' => Some(0x1D) case '↕' => Some(0x12) case '↨' => Some(0x17) case '\U{2219}' => Some(0xF9)
    case '√' => Some(0xFB) case '∞' => Some(0xEC) case '∟' => Some(0x1C) case '∩' => Some(0xEF)
    case '≈' => Some(0xF7) case '≡' => Some(0xF0) case '≤' => Some(0xF3) case '≥' => Some(0xF2)
    case '⌂' => Some(0x7F) case '⌐' => Some(0xA9) case '⌠' => Some(0xF4) case '⌡' => Some(0xF5)
    case _ => None
  }

  function FromBox(c: char): Option<VgaChar> {
    match c
    case '─' => Some(0xC4) case '│' => Some(0xB3) case '┌' => Some(0xDA) case '┐' => Some(0xBF)
    case '└' => Some(0xC0) case '┘' => Some(0xD9) case '├' => Some(0xC3) case '┤' => Some(0xB4)
    case '┬' => Some(0xC2) case '┴' => Some(0xC1) case '┼' => Some(0xC5) case '═' => Some(0xCD)
    case '║' => Some(0xBA) case '╒' => Some(0xD5) case '╓' => Some(0xD6) case '╔' => Some(0xC9)
    case '╕' => Some(0xB8) case '╖' => Some(0xB7) case '╗' => Some(0xBB) case '╘' => Some(0xD4)
    case '╙' => Some(0xD3) case '╚' => Some(0xC8) case '╛' => Some(0xBE) case '╜' => Some(0xBD)
    case '╝' => Some(0xBC) case '╞' => Some(0xC6) case '╟' => Some(0xC7) case '╠' => Some(0xCC)
    case '╡' => Some(0xB5) case '╢' => Some(0xB6) case '╣' => Some(0xB9) case '╤' => Some(0xD1)
    case '╥' => Some(0xD2) case '╦' => Some(0xCB) case '╧' => Some(0xCF) case '╨' => Some(0xD0)
    case '╩' => Some(0xCA) case '╪' => Some(0xD8) case '╫' => Some(0xD7) case '╬' => Some(0xCE)
    case _ => None
  }

  function FromShapes(c: char): Option<VgaChar> {
    match c
    case '▀' => Some(0xDF) case '▄' => Some(0xDC) case '█' => Some(0xDB) case '▌' => Some(0xDD)
    case '▐' => Some(0xDE) case '░' => Some(0xB0) case '▒' => Some(0xB1) case '▓' => Some(0xB2)
    case '■' => Some(0xFE) case '▬' => Some(0x16) case '▲' => Some(0x1E) case '►' => Some(0x10)
    case '▼' => Some(0x1F) case '◄' => Some(0x11) case '○' => Some(0x09) case '◘' => Some(0x08)
    case '◙' => Some(0x0A) case '☺' => Some(0x01) case '☻' => Some(0x02) case '☼' => Some(0x0F)
    case '♀' => Some(0x0C) case '♂' => Some(0x0B) case '♠' => Some(0x06) case '♣' => Some(0x05)
    case '♥' => Some(0x03) case '♦' => Some(0x04) case '♪' => Some(0x0D) case '♫' => Some(0x0E)
    case _ => None
  }

  /** The round trip through the control glyphs. */
  lemma ControlGlyphsRoundTrip(v: VgaChar)
    requires v < 0x20
    ensures FromChar(AsChar(v)) == Some(v)
  {
  }

  /** The round trip through the house and accented letters. */
  lemma AccentGlyphsRoundTrip(v: VgaChar)
    requires 0x7F <= v < 0xA0
    ensures FromChar(AsChar(v)) == Some(v)
  {
  }

  /** The round trip through the punctuation, shade and first box-drawing glyphs. */
  lemma PunctuationGlyphsRoundTrip(v: VgaChar)
    requires 0xA0 <= v < 0xC0
    ensures FromChar(AsChar(v)) == Some(v)
  {
  }

  /** The round trip through the box-drawing and block glyphs. */
  lemma BoxGlyphsRoundTrip(v: VgaChar)
    requires 0xC0 <= v < 0xE0
    ensures FromChar(AsChar(v)) == Some(v)
  {
  }

  /** The round trip through the Greek and mathematical glyphs. */
  lemma MathGlyphsRoundTrip(v: VgaChar)
    requires 0xE0 <= v < 0xFF
    ensures FromChar(AsChar(v)) == Some(v)
  {
  }

  /**
   * Every byte but 0xFF shows a character that maps back to it; 0xFF shows '\0', which
   * maps to nothing.
   */
  lemma {:induction false} FromCharAsChar(v: VgaChar)
    ensures v < 0xFF ==> FromChar(AsChar(v)) == Some(v)
    ensures v == 0xFF ==> AsChar(v) == '\0' && FromChar(AsChar(v)) == None
  {
    if v < 0x20 {
      ControlGlyphsRoundTrip(v);
    } else if 0x7F <= v < 0xA0 {
      AccentGlyphsRoundTrip(v);
    } else if 0xA0 <= v < 0xC0 {
      PunctuationGlyphsRoundTrip(v);
    } else if 0xC0 <= v < 0xE0 {
      BoxGlyphsRoundTrip(v);
    } else if 0xE0 <= v < 0xFF {
      MathGlyphsRoundTrip(v);
    }
  }

  /** The other way round, Latin-1 characters below U+00C0. */
  lemma Latin1LowRoundTrip(c: char)
    requires '\U{0080}' <= c < '\U{00C0}' && FromChar(c).Some?
    ensures AsChar(FromChar(c).value) == c
  {
  }

  /** Latin-1 characters from U+00C0. */
  lemma Latin1HighRoundTrip(c: char)
    requires '\U{00C0}' <= c < '\U{0100}' && FromChar(c).Some?
    ensures AsChar(FromChar(c).value) == c
  {
  }

  /** Greek letters and the florin sign. */
  lemma GreekRoundTrip(c: char)
    requires '\U{0100}' <= c < '\U{2000}' && FromChar(c).Some?
    ensures AsChar(FromChar(c).value) == c
  {
  }

  /** General punctuation, arrows and mathematical operators. */
  lemma PunctuationRoundTrip(c: char)
    requires '\U{2000}' <= c < '\U{2500}' && FromChar(c).Some?
    ensures AsChar(FromChar(c).value) == c
  {
  }

  /** Single box drawing, up to U+2550. */
  lemma SingleBoxRoundTrip(c: char)
    requires '\U{2500}' <= c < '\U{2550}' && FromChar(c).Some?
    ensures AsChar(FromChar(c).value) == c
  {
  }

  /** Double box drawing, from U+2550. */
  lemma DoubleBoxRoundTrip(c: char)
    requires '\U{2550}' <= c < '\U{2580}' && FromChar(c).Some?
    ensures AsChar(FromChar(c).value) == c
  {
  }

  /** Blocks, geometric shapes and miscellaneous symbols. */
  lemma ShapesRoundTrip(c: char)
    requires '\U{2580}' <= c && FromChar(c).Some?
    ensures AsChar(FromChar(c).value) == c
  {
  }

  /** Whatever `from_char` maps a character to shows that character again. */
  lemma {:induction false} AsCharFromChar(c: char)
    requires FromChar(c).Some?
    ensures AsChar(FromChar(c).value) == c && FromChar(c).value < 0xFF
  {
    if c < '\U{0080}' {
    } else if c < '\U{00C0}' {
      Latin1LowRoundTrip(c);
    } else if c < '\U{0100}' {
      Latin1HighRoundTrip(c);
    } else if c < '\U{2000}' {
      GreekRoundTrip(c);
    } else if c < '\U{2500}' {
      PunctuationRoundTrip(c);
    } else if c < '\U{2550}' {
      SingleBoxRoundTrip(c);
    } else if c < '\U{2580}' {
      DoubleBoxRoundTrip(c);
    } else {
      ShapesRoundTrip(c);
    }
  }

  /**
   * `putc` on the cells as values: in bounds, cell `y * WIDTH + x` becomes the packed
   * character; out of bounds, nothing changes.
   */
  function Put(cells: seq<bv16>, c: Byte, x: nat, y: nat, fg: Color, bg: Color): seq<bv16>
    requires |cells| == CELLS
  {
    if x < WIDTH && y < HEIGHT then cells[y * WIDTH + x := PackCell(c, fg, bg)] else cells
  }

  /**
   * `putc` touches at most one cell, the one at column `x` of row `y`, which then decodes
   * to the character and colours written; it touches none when out of bounds.
   */
  lemma PutWritesOneCell(cells: seq<bv16>, c: Byte, x: nat, y: nat, fg: Color, bg: Color)
    requires |cells| == CELLS
    ensures var r := Put(cells, c, x, y, fg, bg);
            && |r| == CELLS
            && (forall i | 0 <= i < CELLS && !(x < WIDTH && y < HEIGHT && i == y * WIDTH + x) :: r[i] == cells[i])
            && (x < WIDTH && y < HEIGHT ==>
                  && r[y * WIDTH + x] & 0xFF == c as bv16
                  && (r[y * WIDTH + x] >> 8) & 0xF == ColorCode(fg) as bv16
                  && r[y * WIDTH + x] >> 12 == ColorCode(bg) as bv16)
  {
    CellDecodes(c, fg, bg);
  }

  /** `VgaBuffer`: the 2000 cells of text-mode video memory at 0xB8000. */
  class VgaBuffer {
    const cells: array<bv16>

    ghost predicate Valid()
      reads this
    {
      cells.Length == CELLS
    }

    /** `VgaBuffer::new`; what the video memory holds at that point is `initial`. */
    constructor (initial: seq<bv16>)
      requires |initial| == CELLS
      ensures Valid() && cells[..] == initial && fresh(cells)
    {
      cells := new bv16[CELLS](i requires 0 <= i < CELLS reads {} => initial[i]);
    }

    /** `putc_unchecked`: the caller guarantees the coordinates are on the screen. */
    method PutcUnchecked(c: VgaChar, x: nat, y: nat, fg: Color, bg: Color)
      requires Valid() && x < WIDTH && y < HEIGHT
      modifies cells
      ensures cells[..] == Put(old(cells[..]), c, x, y, fg, bg)
    {
      var offset := y * WIDTH + x;
      cells[offset] := PackCell(c, fg, bg);
    }

    /** `putc`: fails silently out of bounds. */
    method Putc(c: VgaChar, x: nat, y: nat, fg: Color, bg: Color)
      requires Valid()
      modifies cells
      ensures cells[..] == Put(old(cells[..]), c, x, y, fg, bg)
    {
      if x < WIDTH && y < HEIGHT {
        PutcUnchecked(c, x, y, fg, bg);
      }
    }
  }
}
