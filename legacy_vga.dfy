/**
 * The first VGA driver, `src/vga.rs`. Its buffer, colours and `putc` are those of the
 * current driver (module `Vga`); only its character conversion differs: it knows printable
 * ASCII and nothing else.
 */
module LegacyVga {
  import opened Wrappers
  import Vga

  /** `VgaChar::SPACE`. */
  const SPACE: Vga.VgaChar := 0x20

  /** `char::is_ascii_graphic`: '!' to '~'. */
  predicate IsAsciiGraphic(c: char) {
    '!' <= c <= '~'
  }

  /** `VgaChar::from_char`: graphic ASCII keeps its code, a space is `SPACE`, all else fails. */
  function FromChar(c: char): Option<Vga.VgaChar> {
    if IsAsciiGraphic(c) then Some(c as int)
    else if c == ' ' then Some(SPACE)
    else None
  }

  /**
   * Exactly the printable ASCII characters, space included, convert, each to its own code;
   * the converted byte is never 0.
   */
  lemma FromCharIsPrintableAscii(c: char)
    ensures FromChar(c).Some? <==> ' ' <= c <= '~'
    ensures FromChar(c).Some? ==> FromChar(c).value == c as int && FromChar(c).value != 0
  {
  }

  /**
   * The current table extends this one: where the first driver converts a character, the
   * current one converts it to the same byte.
   */
  lemma CurrentTableExtendsLegacy(c: char)
    requires FromChar(c).Some?
    ensures Vga.FromChar(c) == FromChar(c)
    ensures Vga.AsChar(FromChar(c).value) == c
  {
  }
}
