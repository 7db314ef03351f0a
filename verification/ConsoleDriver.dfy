/** The console driver writing in place to the 80 by 25 video memory, proved to show the window of
    `ConsoleSpec`'s document. */
module ConsoleDriver {
  import CS = ConsoleSpec

  class ConsoleDriver {
    const vga: array<int>
    var x: nat
    var y: nat

    ghost var doc: CS.Doc  // what was written since the screen was last cleared

    /** The screen shows the end of the document, and the cursor is on it. */
    ghost predicate Valid()
      reads this, vga
    {
      && CS.WellFormed(doc) && vga.Length == CS.SCREEN
      && vga[..] == CS.Window(doc)
      && x == doc.x < CS.WIDTH && y == CS.CursorY(doc) < CS.HEIGHT
    }

    /** The screen part of `console_driver_init`. */
    constructor ()
      ensures Valid() && fresh(vga) && doc == CS.EMPTY
    {
      vga := new int[CS.SCREEN](_ => CS.BLANK);
      x, y := 0, 0;
      doc := CS.EMPTY;
    }

    /** Clear screen, the command 0x01. */
    method ClearScreen()
      requires Valid()
      modifies this, vga
      ensures Valid() && doc == CS.EMPTY
    {
      for i := 0 to CS.SCREEN
        modifies vga
        invariant forall k :: 0 <= k < i ==> vga[k] == CS.BLANK
      {
        vga[i] := CS.BLANK;
      }
      x, y := 0, 0;
      doc := CS.EMPTY;
    }

    /** `console_clear_line`. */
    method ClearLine(row: nat)
      requires vga.Length == CS.SCREEN && row < CS.HEIGHT
      modifies vga
      ensures forall k :: 0 <= k < vga.Length ==>
        vga[k] == if row * CS.WIDTH <= k < row * CS.WIDTH + CS.WIDTH then CS.BLANK else old(vga[k])
    {
      var line := row * CS.WIDTH;
      for i := 0 to CS.WIDTH
        invariant forall k :: 0 <= k < vga.Length ==> vga[k] == if line <= k < line + i then CS.BLANK else old(vga[k])
      {
        vga[line + i] := CS.BLANK;
      }
    }

    /** `console_scroll_up`. */
    method ScrollUp()
      requires vga.Length == CS.SCREEN
      modifies `x, `y, vga
      ensures vga[..] == CS.Scrolled(old(vga[..])) && x == 0 && y == CS.HEIGHT - 1
    {
      for i := 0 to CS.WIDTH * (CS.HEIGHT - 1)
        invariant forall k :: 0 <= k < i ==> vga[k] == old(vga[k + CS.WIDTH])
        invariant forall k :: i <= k < vga.Length ==> vga[k] == old(vga[k])
      {
        vga[i] := vga[i + CS.WIDTH];
      }
      ClearLine(CS.HEIGHT - 1);
      y := CS.HEIGHT - 1;
      x := 0;
    }

    /** The cursor to the start of the next row, scrolling if there is none. */
    method NewLine()
      requires Valid()
      modifies this, vga
      ensures Valid() && doc == CS.NewLine(old(doc))
    {
      hide CS.Window, CS.Scrolled, CS.CursorY;
      CS.NewLineShows(doc);
      doc := CS.NewLine(doc);
      x := 0;
      y := y + 1;
      if y >= CS.HEIGHT {
        ScrollUp();
      }
    }

    /** The cell under the cursor. */
    method Write(cell: int)
      requires Valid()
      modifies `doc, vga
      ensures Valid() && doc == CS.Set(old(doc), cell)
    {
      hide CS.Window;
      CS.SetShows(doc, cell);
      vga[y * CS.WIDTH + x] := cell;
      doc := CS.Set(doc, cell);
      assert vga[..] == old(vga[..])[y * CS.WIDTH + x := cell];
    }

    method MoveTo(column: nat)
      requires Valid() && column < CS.WIDTH
      modifies `x, `doc
      ensures Valid() && doc == old(doc).(x := column)
    {
      x := column;
      doc := doc.(x := column);
      assert CS.Window(doc) == CS.Window(old(doc)) by {
        forall k: nat | k < CS.SCREEN ensures CS.Visible(doc, k) == CS.Visible(old(doc), k) {
        }
      }
    }

    /** `console_put_char`. */
    method PutChar(c: nat)
      requires Valid()
      modifies this, vga
      ensures Valid() && doc == CS.Put(old(doc), c)
      decreases c == CS.TAB
    {
      hide CS.Window, CS.WellFormed, CS.CursorY, CS.Set, CS.NewLine;
      if c == CS.CARRIAGE_RETURN {
        MoveTo(0);
      } else if c == CS.LINE_FEED {
        NewLine();
      } else if c == CS.TAB {
        for i := 0 to 4
          invariant Valid() && doc == CS.Spaces(old(doc), i)
        {
          PutChar(CS.SPACE);
        }
      } else if c == CS.BACKSPACE {
        if x > 0 {
          MoveTo(x - 1);
          Write(CS.BLANK);
        }
      } else if 32 <= c <= 126 {
        Write(CS.Cell(c));
        if x + 1 >= CS.WIDTH {
          NewLine();
        } else {
          MoveTo(x + 1);
        }
      }
    }

    /** The write branch of `console_driver_handle_message`, which leaves out the last byte. */
    method WriteMessage(data: seq<nat>)
      requires Valid()
      modifies this, vga
      ensures Valid() && doc == CS.Show(old(doc), data)
    {
      hide CS.Window, CS.WellFormed, CS.CursorY, CS.Put;
      if |data| > 0 {
        for i := 0 to |data| - 1
          invariant Valid() && doc == CS.PutAll(old(doc), data[..i])
        {
          PutChar(data[i]);
          assert data[..i + 1][..i] == data[..i];
        }
      }
    }
  }
}
