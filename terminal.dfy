/**
 * `Terminal` of `src/terminal/mod.rs`: the VGA screen, the output cursor and colour, the
 * command line with its cursor, the queue of scancodes and the keyboard layout, updated in
 * place. Each method is proved to do what the matching function of `TerminalModel` says.
 */
module Terminals {
  import opened Wrappers
  import opened Vga
  import opened KeyModifiers
  import opened QwertyLayout
  import opened ArrayVecs
  import TerminalModel

  /** `buffer_mut()[from..to].fill(CLEAR_VALUE)`. */
  method Fill(a: array<bv16>, from: nat, to: nat)
    requires from <= to <= a.Length
    modifies a
    ensures a[..] == old(a[..])[..from] + TerminalModel.Blank(to - from) + old(a[..])[to..]
  {
    var k := from;
    while k < to
      invariant from <= k <= to
      invariant forall j | 0 <= j < a.Length :: a[j] == if from <= j < k then TerminalModel.CLEAR_VALUE else old(a[j])
    {
      a[k] := TerminalModel.CLEAR_VALUE;
      k := k + 1;
    }
  }

  /**
   * The drawing of `refresh_cmdline`: each byte of `text` is put on the last row as its
   * glyph, white on black, and the rest of the row is blanked.
   */
  method DrawCmdline(screen: VgaBuffer, text: seq<Byte>)
    requires screen.Valid() && |text| <= WIDTH
    requires forall i | 0 <= i < |text| :: TerminalModel.Displayable(text[i])
    modifies screen.cells
    ensures screen.cells[..] == old(screen.cells[..])[..TerminalModel.CMDLINE_START] + TerminalModel.CmdlineRow(text)
  {
    ghost var row := TerminalModel.CmdlineRow(text);
    var x := 0;
    while x < |text|
      invariant 0 <= x <= |text|
      invariant forall j | 0 <= j < TerminalModel.CMDLINE_START :: screen.cells[j] == old(screen.cells[j])
      invariant forall j | 0 <= j < x :: screen.cells[TerminalModel.CMDLINE_START + j] == row[j]
      invariant forall j | TerminalModel.CMDLINE_START + x <= j < CELLS :: screen.cells[j] == old(screen.cells[j])
    {
      screen.Putc(TerminalModel.Glyph(text[x]), x, HEIGHT - 1, White, Black);
      x := x + 1;
    }
    Fill(screen.cells, TerminalModel.CMDLINE_START + |text|, CELLS);
    assert screen.cells[..] == old(screen.cells[..])[..TerminalModel.CMDLINE_START] + row;
  }

  /**
   * `find_start_of_last_word`: walk back over the trailing spaces to the last byte of the
   * last word, then back over the word to the space before it.
   */
  method FindStartOfLastWord(s: seq<Byte>) returns (r: nat)
    ensures r == TerminalModel.LastWordStart(s)
  {
    var i: nat := |s|;
    // Skip the trailing spaces.
    while i > 0
      invariant i <= |s|
      invariant forall j | i <= j < |s| :: s[j] == TerminalModel.SPACE_BYTE
    {
      i := i - 1;
      if s[i] != TerminalModel.SPACE_BYTE {
        break;
      }
    }
    ghost var n := if i < |s| && s[i] != TerminalModel.SPACE_BYTE then i + 1 else 0;
    TerminalModel.TrimmedLengthIsUnique(s, n);
    // Skip the last word.
    while i > 0
      invariant i <= n <= |s| && (i < n || n == 0)
      invariant forall j | i <= j < n :: s[j] != TerminalModel.SPACE_BYTE
    {
      i := i - 1;
      if s[i] == TerminalModel.SPACE_BYTE {
        TerminalModel.WordStartIsUnique(s, n, i + 1);
        return i + 1;
      }
    }
    TerminalModel.WordStartIsUnique(s, n, i);
    return i;
  }

  class Terminal {
    /** The VGA buffer written on. */
    const screen: VgaBuffer
    /** The column the next character goes to; WIDTH means a line feed is pending. */
    var cursor: nat
    var foreground: Color
    /** The command line, at most WIDTH bytes. */
    const cmdline: ArrayVec<Byte>
    /** The position of the user's cursor within the command line. */
    var cmdlineCursor: nat
    /** The bounded queue of scancodes received from the keyboard. */
    const scancodes: ArrayVec<Byte>
    const layout: Qwerty

    /** The parts are valid, sized as declared, and the two vectors are distinct. */
    ghost predicate Wellformed()
      reads this, screen, cmdline, scancodes
    {
      && screen.Valid() && cmdline.Valid() && scancodes.Valid()
      && cmdline.Capacity() == WIDTH && scancodes.Capacity() == TerminalModel.QUEUE_CAPACITY
      && cmdline != scancodes && cmdline.data != scancodes.data
    }

    /** The state as a `TerminalModel.Term`. */
    ghost function State(): TerminalModel.Term
      reads this, screen, screen.cells, cmdline, cmdline.data, scancodes, scancodes.data, layout
      requires Wellformed()
    {
      TerminalModel.Term(screen.cells[..], cursor, foreground, cmdline.Contents(), cmdlineCursor,
                         layout.Contents(), scancodes.Contents())
    }

    ghost predicate Valid()
      reads this, screen, screen.cells, cmdline, cmdline.data, scancodes, scancodes.data, layout
    {
      Wellformed() && TerminalModel.Valid(State())
    }

    /** `Terminal::new`: an empty terminal over `screen`, which is not redrawn. */
    constructor (screen: VgaBuffer)
      requires screen.Valid()
      ensures Valid() && State() == TerminalModel.New(screen.cells[..])
      ensures fresh(cmdline) && fresh(cmdline.data) && fresh(scancodes) && fresh(scancodes.data) && fresh(layout)
    {
      this.screen := screen;
      cursor := 0;
      foreground := White;
      cmdline := new ArrayVec<Byte>(WIDTH, 0);
      cmdlineCursor := 0;
      scancodes := new ArrayVec<Byte>(TerminalModel.QUEUE_CAPACITY, 0);
      layout := new Qwerty();
    }

    /** `reset`, with the command-line cursor reset along with the line. */
    method Reset()
      requires Valid()
      modifies this, screen.cells, cmdline
      ensures Valid() && State() == TerminalModel.Reset(old(State()))
    {
      cmdline.Clear();
      cmdlineCursor := 0;
      cursor := 0;
      Fill(screen.cells, 0, CELLS);
    }

    /** `clear_cmdline`. */
    method ClearCmdline()
      requires Valid()
      modifies this, screen.cells, cmdline
      ensures Valid() && State() == TerminalModel.ClearCmdline(old(State()))
    {
      cmdline.Clear();
      cmdlineCursor := 0;
      Fill(screen.cells, TerminalModel.CMDLINE_START, CELLS);
    }

    /** `scroll_once`: `copy_within` front to back, then the output row is blanked. */
    method ScrollOnce()
      requires Valid()
      modifies screen.cells
      ensures Valid() && State() == TerminalModel.ScrollOnce(old(State()))
    {
      var i := 0;
      while i < TerminalModel.OUTPUT_ROW * WIDTH
        invariant 0 <= i <= TerminalModel.OUTPUT_ROW * WIDTH
        invariant forall j | 0 <= j < i :: screen.cells[j] == old(screen.cells[j + WIDTH])
        invariant forall j | i <= j < CELLS :: screen.cells[j] == old(screen.cells[j])
      {
        screen.cells[i] := screen.cells[i + WIDTH];
        i := i + 1;
      }
      Fill(screen.cells, TerminalModel.OUTPUT_ROW * WIDTH, TerminalModel.CMDLINE_START);
      TerminalModel.ScrollMovesRowsUp(old(screen.cells[..]));
      assert screen.cells[..] == TerminalModel.Scrolled(old(screen.cells[..]));
    }

    /** `insert_linefeed`. */
    method InsertLinefeed()
      requires Valid()
      modifies this, screen.cells
      ensures Valid() && State() == TerminalModel.InsertLinefeed(old(State()))
    {
      if cursor == WIDTH {
        ScrollOnce();
      }
      cursor := WIDTH;
    }

    /** `write_vga_char`. */
    method WriteVgaChar(c: VgaChar)
      requires Valid()
      modifies this, screen.cells
      ensures Valid() && State() == TerminalModel.WriteVgaChar(old(State()), c)
    {
      if cursor == WIDTH {
        cursor := 0;
        ScrollOnce();
      }
      screen.Putc(c, cursor, TerminalModel.OUTPUT_ROW, foreground, Black);
      cursor := cursor + 1;
    }

    /** `set_color`: the colour of what is written from now on. */
    method SetColor(color: Color)
      requires Valid()
      modifies this
      ensures Valid() && State() == old(State()).(foreground := color)
    {
      foreground := color;
    }

    /** `refresh_cmdline`: the line is drawn on the last row, white on black, the rest blanked. */
    method RefreshCmdline()
      requires Valid()
      modifies screen.cells
      ensures Valid()
      ensures State() == old(State()).(cells := old(screen.cells[..])[..TerminalModel.CMDLINE_START]
                                               + TerminalModel.CmdlineRow(cmdline.Contents()))
    {
      DrawCmdline(screen, cmdline.Contents());
    }

    /** `type_in`: `false` when the line is full. */
    method TypeIn(c: Byte) returns (ok: bool)
      requires Valid() && TerminalModel.Displayable(c)
      modifies this, screen.cells, cmdline, cmdline.data
      ensures Valid() && (State(), ok) == TerminalModel.TypeIn(old(State()), c)
    {
      var r := cmdline.TryInsert(cmdlineCursor, c);
      if r.Err? {
        return false;
      }
      cmdlineCursor := cmdlineCursor + 1;
      TerminalModel.TypeInKeepsValid(old(State()), c);
      RefreshCmdline();
      return true;
    }

    /** `type_out`: erase before the cursor, a whole word when `bulk`. */
    method TypeOut(bulk: bool)
      requires Valid()
      modifies this, screen.cells, cmdline, cmdline.data
      ensures Valid() && State() == TerminalModel.TypeOut(old(State()), bulk)
    {
      var cur := cmdlineCursor;
      if cur == 0 {
        return;
      }
      var start;
      if bulk {
        start := FindStartOfLastWord(cmdline.Contents()[..cur]);
        TerminalModel.LastWordStartIsTheLastWord(cmdline.Contents()[..cur]);
      } else {
        start := cur - 1;
      }
      TerminalModel.TypeOutKeepsValid(State(), bulk);
      RemoveBeforeCursor(start);
      RefreshCmdline();
    }

    /**
     * The first half of `type_out`: `remove_range(start..cur)` and the cursor moved back by
     * as many bytes; the row is not redrawn yet.
     */
    method RemoveBeforeCursor(start: nat)
      requires Valid() && start < cmdlineCursor
      modifies this, cmdline, cmdline.data
      ensures Wellformed() && cmdline.Contents() == old(cmdline.Contents()[..start] + cmdline.Contents()[cmdlineCursor..])
      ensures State() == old(State()).(text := cmdline.Contents(), lineCursor := start)
    {
      var cur := cmdlineCursor;
      cmdline.RemoveRange(Included(start), Excluded(cur));
      cmdlineCursor := cmdlineCursor - (cur - start);
    }

    /** `buffer_scancode`: `false` when the queue is full. */
    method BufferScancode(sc: Byte) returns (ok: bool)
      requires Valid()
      modifies scancodes, scancodes.data
      ensures Valid() && (State(), ok) == TerminalModel.BufferScancode(old(State()), sc)
    {
      var r := scancodes.TryPush(sc);
      ok := r.Ok?;
    }

    /** `take_scancode`, with the default `ReadLine` callbacks, which do nothing. */
    method TakeScancode(sc: Byte)
      requires Valid()
      modifies this, screen.cells, cmdline, cmdline.data, layout
      ensures Valid() && State() == TerminalModel.TakeScancode(old(State()), sc)
    {
      var r := layout.Advance(sc);
      if r.None? {
        return;
      }
      var c := r.value;
      var control := HasControl(layout.modifiers);
      if c == 8 as char {
        TypeOut(control);
      } else if (c == 'l' || c == 'L') && control {
        Reset();
      } else if (c == 'c' || c == 'C') && control {
        ClearCmdline();
      } else if c == '\n' {
        ClearCmdline();
      } else if c == '\t' {
      } else {
        TerminalModel.LayoutCharactersAreDisplayable(old(layout.Contents()), sc);
        var _ := TypeIn(c as int);
      }
    }

    /** `take_buffered_scancodes`: the queue in order, then emptied. */
    method TakeBufferedScancodes()
      requires Valid()
      modifies this, screen.cells, cmdline, cmdline.data, layout, scancodes
      ensures Valid() && State() == TerminalModel.TakeBufferedScancodes(old(State()))
    {
      ghost var queue := scancodes.Contents();
      var i := 0;
      while i < scancodes.len
        invariant Valid() && scancodes.Contents() == queue && 0 <= i <= |queue|
        invariant TerminalModel.TakeAll(State(), queue[i..]) == TerminalModel.TakeAll(old(State()), queue)
      {
        var sc := scancodes.data[i];
        assert queue[i..] == [sc] + queue[i + 1..];
        TakeScancode(sc);
        i := i + 1;
      }
      scancodes.Clear();
    }

    /** `write_char` of `fmt::Write`: `false` is `fmt::Error`, a character without a glyph. */
    method WriteChar(c: char) returns (ok: bool)
      requires Valid()
      modifies this, screen.cells
      ensures Valid() && (State(), ok) == TerminalModel.WriteChar(old(State()), c)
    {
      if c == '\n' {
        InsertLinefeed();
        return true;
      }
      var v := Vga.FromChar(c);
      if v.None? {
        return false;
      }
      WriteVgaChar(v.value);
      return true;
    }

    /** `write_str`: `try_for_each` over the characters, stopping at the first error. */
    method WriteStr(s: string) returns (ok: bool)
      requires Valid()
      modifies this, screen.cells
      ensures Valid() && (State(), ok) == TerminalModel.WriteStr(old(State()), s)
    {
      var k := 0;
      while k < |s|
        invariant Valid() && 0 <= k <= |s|
        invariant TerminalModel.WriteStr(State(), s[k..]) == TerminalModel.WriteStr(old(State()), s)
      {
        assert s[k..][0] == s[k] && s[k..][1..] == s[k + 1..];
        ok := WriteChar(s[k]);
        if !ok {
          return;
        }
        k := k + 1;
      }
      return true;
    }
  }
}
