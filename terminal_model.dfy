/**
 * The terminal of `src/terminal/mod.rs` as values: the screen, the output cursor, the
 * command line and its cursor, the keyboard layout and the queue of scancodes, and what
 * each operation makes of them. The `Terminals` module proves its methods against these.
 *
 * The screen is the 80x25 VGA buffer. Output goes to row 23 (`HEIGHT - 2`) and scrolls
 * up; row 24 (`HEIGHT - 1`) shows the command line.
 */
module TerminalModel {
  import opened Wrappers
  import opened Vga
  import opened KeyModifiers
  import opened QwertyLayout

  /** `CLEAR_VALUE`: a blank cell, white on black. */
  const CLEAR_VALUE: bv16 := 0x0F00

  /** `b' '`. */
  const SPACE_BYTE: Byte := 0x20

  /** The row output is written to, `HEIGHT - 2`. */
  const OUTPUT_ROW: nat := 23

  /** The first cell of the command-line row, `WIDTH * (HEIGHT - 1)`. */
  const CMDLINE_START: nat := 1920

  /** The capacity of the scancode queue, `ArrayVec<u8, 8>`. */
  const QUEUE_CAPACITY: nat := 8

  /** `n` blank cells. */
  function Blank(n: nat): (r: seq<bv16>)
    ensures |r| == n && forall i | 0 <= i < n :: r[i] == CLEAR_VALUE
  {
    seq(n, _ => CLEAR_VALUE)
  }

  /**
   * `scroll_once`: rows 1-23 move up to rows 0-22 (`copy_within`) and row 23 is blanked;
   * the command-line row stays.
   */
  function Scrolled(cells: seq<bv16>): (r: seq<bv16>)
    requires |cells| == CELLS
    ensures |r| == CELLS
  {
    cells[WIDTH..CMDLINE_START] + Blank(WIDTH) + cells[CMDLINE_START..]
  }

  /** Row by row: each cell takes the one a row below, row 23 is blank, row 24 is kept. */
  lemma ScrollMovesRowsUp(cells: seq<bv16>)
    requires |cells| == CELLS
    ensures var r := Scrolled(cells);
            && (forall i | 0 <= i < OUTPUT_ROW * WIDTH :: r[i] == cells[i + WIDTH])
            && (forall i | OUTPUT_ROW * WIDTH <= i < CMDLINE_START :: r[i] == CLEAR_VALUE)
            && (forall i | CMDLINE_START <= i < CELLS :: r[i] == cells[i])
  {
  }

  /** A byte of the command line can be shown: `VgaChar::from_char(c as char)` succeeds. */
  predicate Displayable(b: Byte) {
    Vga.FromChar(b as char).Some?
  }

  /**
   * `VgaChar::from_char(c as char).expect(..)` in `refresh_cmdline`: the glyph byte that
   * shows `b`, which turns back into `b` on screen.
   */
  function Glyph(b: Byte): (v: VgaChar)
    requires Displayable(b)
    ensures Vga.AsChar(v) == b as char
  {
    AsCharFromChar(b as char);
    Vga.FromChar(b as char).value
  }

  /** The cell `refresh_cmdline` draws for a byte of the command line: its glyph, white on black. */
  function CmdlineCell(b: Byte): bv16
    requires Displayable(b)
  {
    PackCell(Glyph(b), White, Black)
  }

  /**
   * The command-line row after `refresh_cmdline`: the characters of `text`, white on black,
   * then blanks.
   */
  function CmdlineRow(text: seq<Byte>): (r: seq<bv16>)
    requires |text| <= WIDTH && forall i | 0 <= i < |text| :: Displayable(text[i])
    ensures |r| == WIDTH
  {
    seq(WIDTH, i requires 0 <= i < WIDTH && (i < |text| ==> Displayable(text[i])) =>
      if i < |text| then CmdlineCell(text[i]) else CLEAR_VALUE)
  }

  /**
   * The row shows the text: each cell holds its byte's glyph (which `Glyph` shows is that
   * byte on screen) in white, and the rest is blank.
   */
  lemma CmdlineRowShowsText(text: seq<Byte>, i: nat)
    requires |text| <= WIDTH && forall j | 0 <= j < |text| :: Displayable(text[j])
    requires i < WIDTH
    ensures i < |text| ==>
              && CmdlineRow(text)[i] & 0xFF == Glyph(text[i]) as bv16
              && (CmdlineRow(text)[i] >> 8) & 0xF == ColorCode(White) as bv16
    ensures i >= |text| ==> CmdlineRow(text)[i] == CLEAR_VALUE
  {
    if i < |text| {
      var v := Glyph(text[i]);
      assert CmdlineRow(text)[i] == CmdlineCell(text[i]) == PackCell(v, White, Black);
      CellDecodes(v, White, Black);
    }
  }

  /** The whole state of a `Terminal`. */
  datatype Term = Term(
    cells: seq<bv16>,      // the VGA buffer
    cursor: nat,           // the output column, 0 to WIDTH
    foreground: Color,
    text: seq<Byte>,       // `cmdline`
    lineCursor: nat,       // `cmdline_cursor`
    keyboard: Keyboard,    // `layout`
    queue: seq<Byte>)      // `scancode_buffer`

  /**
   * What the terminal keeps true: the cursor is at most WIDTH (the comment on the `cursor`
   * field), the command line fits its row and can be shown, its cursor lies within it,
   * and the queue fits.
   */
  predicate Valid(t: Term) {
    && |t.cells| == CELLS
    && t.cursor <= WIDTH
    && |t.text| <= WIDTH
    && (forall i | 0 <= i < |t.text| :: Displayable(t.text[i]))
    && t.lineCursor <= |t.text|
    && |t.queue| <= QUEUE_CAPACITY
  }

  /**
   * The last row shows the command line. `Terminal::new` does not draw it, so this holds
   * from the first edit of the line on.
   */
  predicate Shows(t: Term)
    requires Valid(t)
  {
    t.cells[CMDLINE_START..] == CmdlineRow(t.text)
  }

  /** `Terminal::new`: everything empty, white text, on whatever the screen holds. */
  function New(cells: seq<bv16>): Term {
    Term(cells, 0, White, [], 0, Keyboard(EMPTY, Neutral, false, false), [])
  }

  /** The screen shown after a full redraw of an empty command line is blank. */
  lemma EmptyCmdlineRowIsBlank()
    ensures CmdlineRow([]) == Blank(WIDTH)
  {
  }

  /** `scroll_once` on the terminal. */
  function ScrollOnce(t: Term): Term
    requires |t.cells| == CELLS
  {
    t.(cells := Scrolled(t.cells))
  }

  /**
   * `insert_linefeed`: the cursor goes to WIDTH, so that the next character starts a new
   * line; a line already pending is committed by scrolling first.
   */
  function InsertLinefeed(t: Term): Term
    requires |t.cells| == CELLS
  {
    var t' := if t.cursor == WIDTH then ScrollOnce(t) else t;
    t'.(cursor := WIDTH)
  }

  /**
   * `write_vga_char`: a pending line is committed (scroll, column 0), then the character
   * goes to the output row at the cursor, in the foreground colour, and the cursor moves.
   */
  function WriteVgaChar(t: Term, c: VgaChar): Term
    requires |t.cells| == CELLS
  {
    var t' := if t.cursor == WIDTH then ScrollOnce(t).(cursor := 0) else t;
    t'.(cells := Put(t'.cells, c, t'.cursor, OUTPUT_ROW, t.foreground, Black), cursor := t'.cursor + 1)
  }

  /**
   * Output never touches the command-line row and keeps the cursor in [0, WIDTH]; a
   * character lands in the output row at the column the cursor names (0 after a pending
   * line), decodes to that character in the foreground colour, and the cursor is just
   * past it.
   */
  lemma WriteVgaCharLandsOnOutputRow(t: Term, c: VgaChar)
    requires Valid(t)
    ensures var col := if t.cursor == WIDTH then 0 else t.cursor;
            var before := if t.cursor == WIDTH then Scrolled(t.cells) else t.cells;
            var t' := WriteVgaChar(t, c);
            && Valid(t') && 1 <= t'.cursor == col + 1 <= WIDTH
            && t'.cells[CMDLINE_START..] == t.cells[CMDLINE_START..]
            && t'.cells[OUTPUT_ROW * WIDTH + col] & 0xFF == c as bv16
            && (t'.cells[OUTPUT_ROW * WIDTH + col] >> 8) & 0xF == ColorCode(t.foreground) as bv16
            && (forall i | 0 <= i < CELLS && i != OUTPUT_ROW * WIDTH + col :: t'.cells[i] == before[i])
            && t'.text == t.text && t'.lineCursor == t.lineCursor
  {
    var col := if t.cursor == WIDTH then 0 else t.cursor;
    var before := if t.cursor == WIDTH then Scrolled(t.cells) else t.cells;
    PutWritesOneCell(before, c, col, OUTPUT_ROW, t.foreground, Black);
    assert WriteVgaChar(t, c).cells[CMDLINE_START..] == before[CMDLINE_START..];
    assert before[CMDLINE_START..] == t.cells[CMDLINE_START..];
  }

  /**
   * A line feed writes nothing: it scrolls exactly when a line was already pending, and
   * leaves the cursor at WIDTH.
   */
  lemma LinefeedOnlyScrolls(t: Term)
    requires Valid(t)
    ensures var t' := InsertLinefeed(t);
            && Valid(t') && t'.cursor == WIDTH
            && t'.cells == (if t.cursor == WIDTH then Scrolled(t.cells) else t.cells)
            && t'.cells[CMDLINE_START..] == t.cells[CMDLINE_START..]
  {
    assert Scrolled(t.cells)[CMDLINE_START..] == t.cells[CMDLINE_START..];
  }

  /** `write_char` of `core::fmt::Write`: `false` is `fmt::Error` (no glyph), with no change. */
  function WriteChar(t: Term, c: char): (Term, bool)
    requires |t.cells| == CELLS
  {
    if c == '\n' then (InsertLinefeed(t), true)
    else match Vga.FromChar(c)
      case None => (t, false)
      case Some(v) => (WriteVgaChar(t, v), true)
  }

  /** `write_str`: the characters in order, stopping at the first that has no glyph. */
  function WriteStr(t: Term, s: string): (Term, bool)
    requires |t.cells| == CELLS
    decreases |s|
  {
    if s == [] then (t, true)
    else
      var (t', ok) := WriteChar(t, s[0]);
      if !ok then (t', false) else WriteStr(t', s[1..])
  }

  /**
   * Writing keeps the terminal valid whether or not it stops early, leaves the command
   * line and its row alone, and fails exactly when a character of `s` other than a line
   * feed has no glyph.
   */
  lemma {:induction false} WriteStrKeepsValid(t: Term, s: string)
    requires Valid(t)
    ensures Valid(WriteStr(t, s).0)
    ensures WriteStr(t, s).0.cells[CMDLINE_START..] == t.cells[CMDLINE_START..]
    ensures WriteStr(t, s).0.text == t.text && WriteStr(t, s).0.lineCursor == t.lineCursor
    ensures WriteStr(t, s).1 <==> forall i | 0 <= i < |s| :: s[i] == '\n' || Vga.FromChar(s[i]).Some?
    decreases |s|
  {
    if s != [] {
      var c := s[0];
      if c == '\n' {
        LinefeedOnlyScrolls(t);
      } else if Vga.FromChar(c).Some? {
        WriteVgaCharLandsOnOutputRow(t, Vga.FromChar(c).value);
      }
      var (t', ok) := WriteChar(t, c);
      if ok {
        WriteStrKeepsValid(t', s[1..]);
        assert forall i | 1 <= i < |s| :: s[i] == s[1..][i - 1];
      }
    }
  }

  /** The length of `s` without its trailing spaces. */
  function TrimmedLength(s: seq<Byte>): (n: nat)
    ensures n <= |s| && (n == 0 || s[n - 1] != SPACE_BYTE)
    ensures forall i | n <= i < |s| :: s[i] == SPACE_BYTE
  {
    if |s| == 0 then 0
    else if s[|s| - 1] == SPACE_BYTE then TrimmedLength(s[..|s| - 1])
    else |s|
  }

  /** The start of the run of non-spaces that ends at `e`: just past the space before it, or 0. */
  function WordStart(s: seq<Byte>, e: nat): (r: nat)
    requires e <= |s|
    ensures r <= e && (r == 0 || s[r - 1] == SPACE_BYTE)
    ensures forall i | r <= i < e :: s[i] != SPACE_BYTE
  {
    if e == 0 then 0
    else if s[e - 1] == SPACE_BYTE then e
    else WordStart(s, e - 1)
  }

  /** The trimmed length is the only length with nothing but spaces after it and a non-space at its end. */
  lemma TrimmedLengthIsUnique(s: seq<Byte>, n: nat)
    requires n <= |s| && (n == 0 || s[n - 1] != SPACE_BYTE)
    requires forall i | n <= i < |s| :: s[i] == SPACE_BYTE
    ensures TrimmedLength(s) == n
  {
  }

  /** A word start is determined by the end: just after the nearest space before it, or 0. */
  lemma WordStartIsUnique(s: seq<Byte>, e: nat, r: nat)
    requires r <= e <= |s| && (r == 0 || s[r - 1] == SPACE_BYTE)
    requires forall i | r <= i < e :: s[i] != SPACE_BYTE
    ensures WordStart(s, e) == r
  {
  }

  /**
   * `find_start_of_last_word`: where the last word of `s` starts, skipping trailing spaces;
   * 0 when there is no word.
   */
  function LastWordStart(s: seq<Byte>): nat {
    WordStart(s, TrimmedLength(s))
  }

  /**
   * What `find_start_of_last_word` finds: `s[r..]` is one word followed by spaces only, and
   * `r` is at the start of the text or just after a space. It is before the end of any
   * non-empty `s`, so a word deletion always removes something.
   */
  lemma LastWordStartIsTheLastWord(s: seq<Byte>)
    ensures var r, n := LastWordStart(s), TrimmedLength(s);
            && r <= n <= |s|
            && (r == 0 || s[r - 1] == SPACE_BYTE)
            && (forall i | r <= i < n :: s[i] != SPACE_BYTE)
            && (forall i | n <= i < |s| :: s[i] == SPACE_BYTE)
            && (|s| > 0 ==> r < |s|)
  {
  }

  /** `type_in`: `false` when the line is full; otherwise `c` goes in at the cursor. */
  function TypeIn(t: Term, c: Byte): (Term, bool)
    requires Valid(t) && Displayable(c)
  {
    if |t.text| == WIDTH then (t, false)
    else
      var text := t.text[..t.lineCursor] + [c] + t.text[t.lineCursor..];
      assert forall i | 0 <= i < |text| :: Displayable(text[i]) by {
        assert forall i | 0 <= i < |text| :: text[i] == c || text[i] in t.text;
      }
      (t.(text := text, lineCursor := t.lineCursor + 1,
          cells := t.cells[..CMDLINE_START] + CmdlineRow(text)), true)
  }

  /**
   * `type_out`: at the start of the line nothing happens; otherwise the byte before the
   * cursor, or with `bulk` the word before it and the spaces after that word, is removed
   * and the cursor moves to where the removed part began.
   */
  function TypeOut(t: Term, bulk: bool): Term
    requires Valid(t)
  {
    if t.lineCursor == 0 then t
    else
      var cur := t.lineCursor;
      var start := if bulk then LastWordStart(t.text[..cur]) else cur - 1;
      var text := t.text[..start] + t.text[cur..];
      assert forall i | 0 <= i < |text| :: text[i] in t.text;
      t.(text := text, lineCursor := start, cells := t.cells[..CMDLINE_START] + CmdlineRow(text))
  }

  /** `clear_cmdline`: the command line and its row are emptied. */
  function ClearCmdline(t: Term): Term
    requires |t.cells| == CELLS
  {
    t.(text := [], lineCursor := 0, cells := t.cells[..CMDLINE_START] + Blank(WIDTH))
  }

  /** `reset` as written (lines 56-61): `cmdline_cursor` is not reset. */
  function ResetAsWritten(t: Term): Term {
    t.(text := [], cursor := 0, cells := Blank(CELLS))
  }

  /** `reset` with the command-line cursor going back to 0 with the line it points into. */
  function Reset(t: Term): Term {
    t.(text := [], lineCursor := 0, cursor := 0, cells := Blank(CELLS))
  }

  /**
   * As written, a reset with text typed (here "ab", cursor after it) leaves the cursor
   * beyond the now empty line; the next `type_in` then passes `try_insert` an index past
   * the length, whose assertion panics.
   */
  lemma ResetAsWrittenStrandsCursor()
    ensures var t := New(Blank(CELLS)).(text := [0x61, 0x62], lineCursor := 2,
                                        cells := Blank(CMDLINE_START) + CmdlineRow([0x61, 0x62]));
            && Valid(t) && Shows(t)
            && !Valid(ResetAsWritten(t))
            && ResetAsWritten(t).lineCursor > |ResetAsWritten(t).text|
  {
    var text: seq<Byte> := [0x61, 0x62];
    assert Displayable(0x61) && Displayable(0x62);
    var t := New(Blank(CELLS)).(text := text, lineCursor := 2,
                                cells := Blank(CMDLINE_START) + CmdlineRow(text));
    assert t.cells[CMDLINE_START..] == CmdlineRow(text);
  }

  /**
   * With the cursor reset too, `reset` leaves a valid, blank terminal whose empty command
   * line is shown.
   */
  lemma ResetKeepsValid(t: Term)
    requires Valid(t)
    ensures Valid(Reset(t)) && Shows(Reset(t))
    ensures Reset(t).cells == Blank(CELLS) && Reset(t).text == [] && Reset(t).cursor == 0
  {
    assert Blank(CELLS)[CMDLINE_START..] == CmdlineRow([]);
  }

  /** Typing in keeps the terminal valid: the line fits, the cursor stays in it, the row shows it. */
  lemma TypeInKeepsValid(t: Term, c: Byte)
    requires Valid(t) && Displayable(c)
    ensures Valid(TypeIn(t, c).0) && (TypeIn(t, c).1 || Shows(t) ==> Shows(TypeIn(t, c).0))
  {
    if |t.text| < WIDTH {
      var text := t.text[..t.lineCursor] + [c] + t.text[t.lineCursor..];
      assert (t.cells[..CMDLINE_START] + CmdlineRow(text))[CMDLINE_START..] == CmdlineRow(text);
    }
  }

  /** Erasing keeps the terminal valid. */
  lemma TypeOutKeepsValid(t: Term, bulk: bool)
    requires Valid(t)
    ensures Valid(TypeOut(t, bulk)) && (t.lineCursor > 0 || Shows(t) ==> Shows(TypeOut(t, bulk)))
  {
    if t.lineCursor > 0 {
      var cur := t.lineCursor;
      LastWordStartIsTheLastWord(t.text[..cur]);
      var start := if bulk then LastWordStart(t.text[..cur]) else cur - 1;
      var text := t.text[..start] + t.text[cur..];
      assert (t.cells[..CMDLINE_START] + CmdlineRow(text))[CMDLINE_START..] == CmdlineRow(text);
    }
  }

  /** Clearing the command line keeps the terminal valid, with an empty line shown as blanks. */
  lemma ClearCmdlineKeepsValid(t: Term)
    requires Valid(t)
    ensures Valid(ClearCmdline(t)) && Shows(ClearCmdline(t))
    ensures ClearCmdline(t).cells[..CMDLINE_START] == t.cells[..CMDLINE_START]
  {
    assert (t.cells[..CMDLINE_START] + Blank(WIDTH))[CMDLINE_START..] == CmdlineRow([]);
  }

  /**
   * Typing a character and erasing it with backspace gives back the line and its cursor,
   * and the screen too once the line was shown; typing into a full line changes nothing.
   */
  lemma TypeInThenTypeOut(t: Term, c: Byte)
    requires Valid(t) && Displayable(c)
    ensures var (t', ok) := TypeIn(t, c);
            && (ok <==> |t.text| < WIDTH)
            && (!ok ==> t' == t)
            && (ok ==> t'.text[t.lineCursor] == c && t'.lineCursor == t.lineCursor + 1)
            && (ok ==> TypeOut(t', false) == t.(cells := t.cells[..CMDLINE_START] + CmdlineRow(t.text)))
            && (ok && Shows(t) ==> TypeOut(t', false) == t)
  {
    var (t', ok) := TypeIn(t, c);
    if ok {
      TypeInKeepsValid(t, c);
      var cur := t.lineCursor;
      var text := t.text[..cur] + [c] + t.text[cur..];
      assert text[..cur] + text[cur + 1..] == t.text;
      if Shows(t) {
        assert t.cells[..CMDLINE_START] + CmdlineRow(t.text) == t.cells;
      }
    }
  }

  /**
   * Backspace removes exactly one byte before the cursor; a word deletion removes the last
   * word before the cursor and the spaces after it, at least one byte. At the start of
   * the line neither changes anything.
   */
  lemma TypeOutRemovesBeforeCursor(t: Term, bulk: bool)
    requires Valid(t)
    ensures var t' := TypeOut(t, bulk);
            && (t.lineCursor == 0 ==> t' == t)
            && (t.lineCursor > 0 ==>
                  && t'.lineCursor < t.lineCursor
                  && (!bulk ==> t'.lineCursor == t.lineCursor - 1)
                  && (bulk ==> t'.lineCursor == LastWordStart(t.text[..t.lineCursor]))
                  && t'.text == t.text[..t'.lineCursor] + t.text[t.lineCursor..])
  {
    if t.lineCursor > 0 {
      LastWordStartIsTheLastWord(t.text[..t.lineCursor]);
    }
  }

  /** `buffer_scancode`: `false`, and no change, when 8 codes are already queued. */
  function BufferScancode(t: Term, sc: Byte): (Term, bool) {
    if |t.queue| == QUEUE_CAPACITY then (t, false) else (t.(queue := t.queue + [sc]), true)
  }

  /** A character the layout produces, other than the control characters, can be typed in. */
  lemma LayoutCharactersAreDisplayable(k: Keyboard, sc: Scancode)
    requires Step(k, sc).1.Some?
    ensures var c := Step(k, sc).1.value;
            c == 8 as char || c == '\n' || c == '\t' || (' ' <= c <= '~' && Displayable(c as int))
  {
    if IsControlCode(k.state, sc) {
      if ModifierKey(k.state, sc).Some? {
        ModifierKeysSetTheirFlag(k, sc);
      }
      assert false;
    }
    CharacterKeysKeepModifiers(k, sc);
    KeyCharIsAscii(k.state, k.modifiers, sc);
  }

  /**
   * `take_scancode` with the default `ReadLine`, whose `submit` and `auto_complete` do
   * nothing: the layout digests the code; backspace erases (a word with CONTROL), CONTROL-L
   * resets, CONTROL-C and Enter clear the command line, tab does nothing, and any other
   * character is typed in.
   */
  function TakeScancode(t: Term, sc: Byte): (t': Term)
    requires Valid(t)
    ensures Valid(t') && (Shows(t) ==> Shows(t'))
    ensures t'.queue == t.queue && t'.cursor <= WIDTH
  {
    var (k, r) := Step(t.keyboard, sc);
    var t1 := t.(keyboard := k);
    TypeOutKeepsValid(t1, HasControl(k.modifiers));
    ClearCmdlineKeepsValid(t1);
    if r.None? then t1
    else
      var c := r.value;
      var control := HasControl(k.modifiers);
      if c == 8 as char then TypeOut(t1, control)
      else if (c == 'l' || c == 'L') && control then (ResetKeepsValid(t1); Reset(t1))
      else if (c == 'c' || c == 'C') && control then ClearCmdline(t1)
      else if c == '\n' then ClearCmdline(t1)
      else if c == '\t' then t1
      else
        LayoutCharactersAreDisplayable(t.keyboard, sc);
        TypeInKeepsValid(t1, c as int);
        TypeIn(t1, c as int).0
  }

  /** The codes of `codes` taken in order. */
  function TakeAll(t: Term, codes: seq<Byte>): (t': Term)
    requires Valid(t)
    ensures Valid(t') && (Shows(t) ==> Shows(t')) && t'.queue == t.queue
    decreases |codes|
  {
    if codes == [] then t else TakeAll(TakeScancode(t, codes[0]), codes[1..])
  }

  /** `take_buffered_scancodes`: every queued code is taken in order, then the queue is emptied. */
  function TakeBufferedScancodes(t: Term): (t': Term)
    requires Valid(t)
    ensures Valid(t') && t'.queue == [] && (Shows(t) ==> Shows(t'))
  {
    TakeAll(t, t.queue).(queue := [])
  }
}
