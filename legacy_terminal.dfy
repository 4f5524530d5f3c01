/**
 * The older `Terminal` of `src/terminal.rs`: output only, with a command line kept in a
 * fixed `[u8; 80]` array that nothing but `reset` changes. Its writes are those of the
 * newer terminal: `WriteByteAgrees` shows a byte goes where `insert_linefeed` or
 * `write_vga_char` of `src/terminal/mod.rs` put it.
 *
 * `write_char` and `refresh_cmdline` hand a `u8` to `putc`, which takes a `VgaChar`, a
 * non-zero byte: here `write_char` takes a `VgaChar`, and the bytes of the command line
 * in use are non-zero.
 */
module LegacyTerminals {
  import opened Vga
  import TerminalModel
  import Terminals

  /**
   * `write_char` on the screen and the cursor: a pending line is committed (scroll, column
   * 0); then a line feed only leaves a new line pending, and any other byte is drawn on
   * the output row at the cursor, which moves on.
   */
  function WriteByte(cells: seq<bv16>, cursor: nat, fg: Color, c: VgaChar): (seq<bv16>, nat)
    requires |cells| == CELLS
  {
    var (cells', cur) := if cursor == WIDTH then (TerminalModel.Scrolled(cells), 0) else (cells, cursor);
    if c == 0x0A then (cells', WIDTH) else (Put(cells', c, cur, TerminalModel.OUTPUT_ROW, fg, Black), cur + 1)
  }

  /** `write_bytes`: the bytes written one after the other. */
  function Written(cells: seq<bv16>, cursor: nat, fg: Color, s: seq<VgaChar>): (r: (seq<bv16>, nat))
    requires |cells| == CELLS
    ensures |r.0| == CELLS
    ensures cursor <= WIDTH ==> r.1 <= WIDTH
    decreases |s|
  {
    if s == [] then (cells, cursor)
    else
      var (cells', cursor') := WriteByte(cells, cursor, fg, s[0]);
      Written(cells', cursor', fg, s[1..])
  }

  /**
   * The older `write_char` does what the newer terminal does for the same byte: a line
   * feed is `insert_linefeed` (the cursor reset to 0 just before is overwritten), any
   * other byte is `write_vga_char`.
   */
  lemma WriteByteAgrees(t: TerminalModel.Term, c: VgaChar)
    requires TerminalModel.Valid(t)
    ensures var t' := if c == 0x0A then TerminalModel.InsertLinefeed(t) else TerminalModel.WriteVgaChar(t, c);
            WriteByte(t.cells, t.cursor, t.foreground, c) == (t'.cells, t'.cursor)
  {
  }

  /**
   * The cursor stays in [0, WIDTH] whatever is written, and the command-line row is never
   * touched by writing.
   */
  lemma {:induction false} WriteBytesKeepsCursorAndCmdline(cells: seq<bv16>, cursor: nat, fg: Color, s: seq<VgaChar>)
    requires |cells| == CELLS && cursor <= WIDTH
    ensures var (cells', cursor') := Written(cells, cursor, fg, s);
            cursor' <= WIDTH && cells'[TerminalModel.CMDLINE_START..] == cells[TerminalModel.CMDLINE_START..]
    decreases |s|
  {
    if s != [] {
      var t := TerminalModel.New(cells).(cursor := cursor, foreground := fg);
      WriteByteAgrees(t, s[0]);
      if s[0] == 0x0A {
        TerminalModel.LinefeedOnlyScrolls(t);
      } else {
        TerminalModel.WriteVgaCharLandsOnOutputRow(t, s[0]);
      }
      var (cells', cursor') := WriteByte(cells, cursor, fg, s[0]);
      WriteBytesKeepsCursorAndCmdline(cells', cursor', fg, s[1..]);
    }
  }

  class Terminal {
    const screen: VgaBuffer
    /** The column the next character goes to; WIDTH means a line feed is pending. */
    var cursor: nat
    var foreground: Color
    /** The command line; only its first `cmdlineLen` bytes are in use. */
    const cmdline: array<Byte>
    var cmdlineLen: nat
    /** The user's cursor within the command line; only the hardware cursor reads it. */
    var cmdlineCursor: nat

    /**
     * The cursor is at most WIDTH, and the bytes of the command line in use fit the row and
     * are characters `putc` accepts.
     */
    ghost predicate Valid()
      reads this, screen, cmdline
    {
      && screen.Valid() && cmdline.Length == WIDTH && cursor <= WIDTH && cmdlineLen <= WIDTH
      && forall i | 0 <= i < cmdlineLen :: cmdline[i] != 0
    }

    /** `Terminal::new`: an empty command line of zero bytes, white text, the screen as it is. */
    constructor (screen: VgaBuffer)
      requires screen.Valid()
      ensures Valid() && this.screen == screen && fresh(cmdline)
      ensures cursor == 0 && foreground == White && cmdlineLen == 0 && cmdlineCursor == 0
      ensures cmdline[..] == seq(WIDTH, _ => 0)
    {
      this.screen := screen;
      cursor := 0;
      foreground := White;
      cmdline := new Byte[WIDTH](_ => 0);
      cmdlineLen := 0;
      cmdlineCursor := 0;
    }

    /** `clear`: everything above the command-line row is blanked. */
    method Clear()
      requires Valid()
      modifies screen.cells
      ensures screen.cells[..] == TerminalModel.Blank(TerminalModel.CMDLINE_START) + old(screen.cells[TerminalModel.CMDLINE_START..])
    {
      Terminals.Fill(screen.cells, 0, TerminalModel.CMDLINE_START);
    }

    /** `scroll_once`, the same as the newer terminal's. */
    method ScrollOnce()
      requires Valid()
      modifies screen.cells
      ensures screen.cells[..] == TerminalModel.Scrolled(old(screen.cells[..]))
    {
      var i := 0;
      while i < TerminalModel.OUTPUT_ROW * WIDTH
        invariant 0 <= i <= TerminalModel.OUTPUT_ROW * WIDTH
        invariant forall j | 0 <= j < i :: screen.cells[j] == old(screen.cells[j + WIDTH])
        invariant forall j | i <= j < CELLS :: screen.cells[j] == old(screen.cells[j])
      {
        screen.cells[i] := screen.cells[i + WIDTH];
        i := i + 1;
      }
      Terminals.Fill(screen.cells, TerminalModel.OUTPUT_ROW * WIDTH, TerminalModel.CMDLINE_START);
      TerminalModel.ScrollMovesRowsUp(old(screen.cells[..]));
      assert screen.cells[..] == TerminalModel.Scrolled(old(screen.cells[..]));
    }

    /**
     * `refresh_cmdline` as written: the bytes in use are drawn on the last row, and then the
     * whole row is blanked, so the row always ends up blank.
     */
    method RefreshCmdline()
      requires Valid()
      modifies screen.cells
      ensures screen.cells[..] == old(screen.cells[..TerminalModel.CMDLINE_START]) + TerminalModel.Blank(WIDTH)
    {
      var i := 0;
      while i < cmdlineLen
        invariant 0 <= i <= cmdlineLen && Valid()
        invariant screen.cells[..TerminalModel.CMDLINE_START] == old(screen.cells[..TerminalModel.CMDLINE_START])
      {
        ghost var before := screen.cells[..];
        screen.Putc(cmdline[i], i, HEIGHT - 1, White, Black);
        assert screen.cells[..TerminalModel.CMDLINE_START] == before[..TerminalModel.CMDLINE_START];
        i := i + 1;
      }
      Terminals.Fill(screen.cells, TerminalModel.CMDLINE_START, CELLS);
    }

    /** `reset`: the line is emptied, the cursor goes home, and the whole screen is blanked. */
    method Reset()
      requires Valid()
      modifies this, screen.cells
      ensures Valid() && screen.cells[..] == TerminalModel.Blank(CELLS)
      ensures cmdlineLen == 0 && cursor == 0
      ensures foreground == old(foreground) && cmdlineCursor == old(cmdlineCursor)
    {
      cmdlineLen := 0;
      cursor := 0;
      Clear();
      RefreshCmdline();
      assert screen.cells[..] == TerminalModel.Blank(CELLS);
    }

    /** `write_char`. */
    method WriteChar(c: VgaChar)
      requires Valid()
      modifies this, screen.cells
      ensures Valid() && foreground == old(foreground) && cmdlineLen == old(cmdlineLen)
      ensures cmdlineCursor == old(cmdlineCursor)
      ensures (screen.cells[..], cursor) == WriteByte(old(screen.cells[..]), old(cursor), foreground, c)
    {
      if cursor == WIDTH {
        cursor := 0;
        ScrollOnce();
      }
      if c == 0x0A {
        cursor := WIDTH;
        return;
      }
      screen.Putc(c, cursor, TerminalModel.OUTPUT_ROW, foreground, Black);
      cursor := cursor + 1;
    }

    /** `write_bytes`: `write_char` on each byte in turn. */
    method WriteBytes(s: seq<VgaChar>)
      requires Valid()
      modifies this, screen.cells
      ensures Valid() && foreground == old(foreground) && cmdlineLen == old(cmdlineLen)
      ensures cmdlineCursor == old(cmdlineCursor)
      ensures (screen.cells[..], cursor) == Written(old(screen.cells[..]), old(cursor), foreground, s)
    {
      var k := 0;
      while k < |s|
        invariant Valid() && 0 <= k <= |s| && foreground == old(foreground) && cmdlineLen == old(cmdlineLen)
        invariant cmdlineCursor == old(cmdlineCursor)
        invariant Written(screen.cells[..], cursor, foreground, s[k..])
               == Written(old(screen.cells[..]), old(cursor), foreground, s)
      {
        assert s[k..][0] == s[k] && s[k..][1..] == s[k + 1..];
        WriteChar(s[k]);
        k := k + 1;
      }
    }

    /** `set_color`: the colour of what is written from now on. */
    method SetColor(color: Color)
      requires Valid()
      modifies this
      ensures Valid() && foreground == color
      ensures cursor == old(cursor) && cmdlineLen == old(cmdlineLen) && cmdlineCursor == old(cmdlineCursor)
    {
      foreground := color;
    }
  }
}
