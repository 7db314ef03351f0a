/** Console output as an unbounded document of 80 columns, and the part of it that is on the screen. */
module ConsoleSpec {
  const WIDTH: nat := 80
  const HEIGHT: nat := 25
  const SCREEN: nat := 2000
  const TAB: nat := 9
  const LINE_FEED: nat := 10
  const CARRIAGE_RETURN: nat := 13
  const BACKSPACE: nat := 8
  const SPACE: nat := 32

  /** A character in light grey on black, as the video memory holds it. */
  function Cell(c: nat): int {
    0x0700 + c
  }

  const BLANK: int := Cell(SPACE)

  function Blanks(n: nat): (s: seq<int>)
    ensures |s| == n && forall i :: 0 <= i < n ==> s[i] == BLANK
  {
    seq(n, _ => BLANK)
  }

  /** All lines written so far; the cursor is in column `x` of the last one. */
  datatype Doc = Doc(lines: seq<seq<int>>, x: nat)

  predicate WellFormed(d: Doc) {
    && |d.lines| > 0 && d.x < WIDTH
    && forall i :: 0 <= i < |d.lines| ==> |d.lines[i]| == WIDTH
  }

  const EMPTY := Doc([Blanks(WIDTH)], 0)

  // ----- writing

  predicate Printable(b: nat) {
    32 <= b <= 126
  }

  function Row(d: Doc): nat
    requires WellFormed(d)
  {
    |d.lines| - 1
  }

  /** The cell under the cursor. */
  function Set(d: Doc, cell: int): (d': Doc)
    requires WellFormed(d)
    ensures WellFormed(d') && Row(d') == Row(d) && d'.x == d.x
  {
    d.(lines := d.lines[Row(d) := d.lines[Row(d)][d.x := cell]])
  }

  function NewLine(d: Doc): (d': Doc)
    requires WellFormed(d)
    ensures WellFormed(d')
  {
    Doc(d.lines + [Blanks(WIDTH)], 0)
  }

  /** Any byte but a tab. */
  function PutPlain(d: Doc, b: nat): (d': Doc)
    requires WellFormed(d)
    ensures WellFormed(d')
  {
    if b == CARRIAGE_RETURN then d.(x := 0)
    else if b == LINE_FEED then NewLine(d)
    else if b == BACKSPACE then if d.x > 0 then Set(d.(x := d.x - 1), BLANK) else d
    else if Printable(b) then
      var d' := Set(d, Cell(b));
      if d.x + 1 < WIDTH then d'.(x := d.x + 1) else NewLine(d')
    else d
  }

  function Spaces(d: Doc, n: nat): (d': Doc)
    requires WellFormed(d)
    ensures WellFormed(d')
  {
    if n == 0 then d else PutPlain(Spaces(d, n - 1), SPACE)
  }

  /** A tab is four spaces. */
  function Put(d: Doc, b: nat): (d': Doc)
    requires WellFormed(d)
    ensures WellFormed(d')
  {
    if b == TAB then Spaces(d, 4) else PutPlain(d, b)
  }

  function PutAll(d: Doc, s: seq<nat>): (d': Doc)
    requires WellFormed(d)
    ensures WellFormed(d')
  {
    if s == [] then d else Put(PutAll(d, s[..|s| - 1]), s[|s| - 1])
  }

  /** Putting two texts one after the other. */
  lemma {:induction false} PutAllConcat(d: Doc, a: seq<nat>, b: seq<nat>)
    requires WellFormed(d)
    ensures PutAll(PutAll(d, a), b) == PutAll(d, a + b)
    decreases |b|
  {
    hide Put;
    if b == [] {
      assert a + b == a;
    } else {
      var n := |b| - 1;
      assert (a + b)[..|a + b| - 1] == a + b[..n] && (a + b)[|a + b| - 1] == b[n];
      PutAllConcat(d, a, b[..n]);
    }
  }

  // ----- messages

  /** A write message shows all its bytes but the last. */
  function Show(d: Doc, m: seq<nat>): (d': Doc)
    requires WellFormed(d)
    ensures WellFormed(d')
  {
    PutAll(d, if m == [] then [] else m[..|m| - 1])
  }

  /** The byte does nothing where the cursor is. */
  predicate Ignored(d: Doc, b: nat) {
    (b < 32 || b > 126) && b != 10 && b != 9 && (b == 13 || b == 8 ==> d.x == 0)
  }

  lemma IgnoredIff(d: Doc, b: nat)
    requires WellFormed(d)
    ensures Put(d, b) == d <==> Ignored(d, b)
  {
    if b == TAB {
      PutMoves(d, SPACE);
      PutMoves(Spaces(d, 1), SPACE);
      PutMoves(Spaces(d, 2), SPACE);
      PutMoves(Spaces(d, 3), SPACE);
      assert Spaces(d, 0) == d;
    } else if Printable(b) {
      PutMoves(d, b);
    } else if b == LINE_FEED {
      assert |Put(d, b).lines| == |d.lines| + 1;
    }
  }

  /** How far the cursor has come. */
  function Offset(d: Doc): nat
    requires WellFormed(d)
  {
    Row(d) * WIDTH + d.x
  }

  lemma PutMoves(d: Doc, b: nat)
    requires WellFormed(d) && Printable(b)
    ensures Offset(PutPlain(d, b)) == Offset(d) + 1
  {
  }

  /** Whether a text may be cut after `a` into two messages, whatever follows: exactly when the last byte
      of `a`, which is not shown, would do nothing there. */
  lemma CutShowsIff(d: Doc, a: seq<nat>)
    requires WellFormed(d)
    ensures (forall b :: Show(Show(d, a), b) == Show(d, a + b))
      <==> (a == [] || Ignored(Show(d, a), a[|a| - 1]))
  {
    hide Put, Ignored;
    if a == [] {
      forall b ensures Show(Show(d, a), b) == Show(d, a + b) {
        assert a + b == b;
      }
    } else {
      var d', last := Show(d, a), a[|a| - 1];
      IgnoredIff(d', last);
      if Put(d', last) == d' {
        forall b ensures Show(d', b) == Show(d, a + b) {
          CutAt(d, a, b);
        }
      } else {
        CutAt(d, a, [0]);
        assert Show(d', [0]) != Show(d, a + [0]);
      }
    }
  }

  lemma CutAt(d: Doc, a: seq<nat>, b: seq<nat>)
    requires WellFormed(d) && a != []
    ensures b == [] ==> Show(d, a + b) == Show(d, a) && Show(Show(d, a), b) == Show(d, a)
    ensures b != [] ==> Show(d, a + b) == PutAll(Put(Show(d, a), a[|a| - 1]), b[..|b| - 1])
  {
    hide Put;
    if b == [] {
      assert a + b == a;
    } else {
      assert (a + b)[..|a + b| - 1] == a + b[..|b| - 1];
      PutAllConcat(d, a, b[..|b| - 1]);
    }
  }

  /** Printable text fills the document row by row. */
  lemma {:induction false} TextFillsRows(s: seq<nat>)
    requires forall i :: 0 <= i < |s| ==> Printable(s[i])
    ensures var d := PutAll(EMPTY, s);
      && Row(d) == |s| / WIDTH && d.x == |s| % WIDTH
      && (forall i :: 0 <= i < |s| ==> d.lines[i / WIDTH][i % WIDTH] == 0x0700 + s[i])
  {
    if s != [] {
      var n := |s| - 1;
      var d, d' := PutAll(EMPTY, s[..n]), PutAll(EMPTY, s);
      TextFillsRows(s[..n]);
      assert d'.lines[n / WIDTH][n % WIDTH] == Cell(s[n]);
      forall i | 0 <= i < n ensures d'.lines[i / WIDTH][i % WIDTH] == Cell(s[i]) {
        assert s[..n][i] == s[i] && d.lines[i / WIDTH][i % WIDTH] == Cell(s[i]);
        assert i / WIDTH == n / WIDTH ==> i % WIDTH != n % WIDTH;
      }
    }
  }

  predicate AllPrintable(s: seq<nat>) {
    forall i :: 0 <= i < |s| ==> Printable(s[i])
  }

  /** Text that fits the rest of the row goes there, over what was there, and changes nothing else. */
  lemma {:induction false} TextStaysInRow(d: Doc, s: seq<nat>)
    requires WellFormed(d) && AllPrintable(s) && d.x + |s| < 80
    ensures var d' := PutAll(d, s); var row, row' := d.lines[Row(d)], d'.lines[Row(d')];
      && d'.x == d.x + |s| && |d'.lines| == |d.lines| && d' == d.(x := d'.x, lines := d.lines[Row(d) := row'])
      && (forall j :: 0 <= j < 80 ==> row'[j] == if d.x <= j < d.x + |s| then Cell(s[j - d.x]) else row[j])
  {
    if s == [] {
      assert d.lines[Row(d) := d.lines[Row(d)]] == d.lines;
    } else {
      var n := |s| - 1;
      TextStaysInRow(d, s[..n]);
      assert forall j :: 0 <= j < n ==> s[..n][j] == s[j];
    }
  }

  /** Lines of text with a line feed (10) between them. */
  function Lined(lines: seq<seq<nat>>): seq<nat> {
    if lines == [] then []
    else if |lines| == 1 then lines[0]
    else Lined(lines[..|lines| - 1]) + [10] + lines[|lines| - 1]
  }

  /** The `i`-th row of the document is the line, and blank behind it. */
  predicate RowShows(d: Doc, i: nat, line: seq<nat>)
    requires WellFormed(d) && i < |d.lines|
  {
    forall j :: 0 <= j < 80 ==> d.lines[i][j] == 0x0700 + if j < |line| then line[j] else 32
  }

  /** Each line of a text is in a row of its own, from the first column on. */
  lemma {:induction false} LinesFillRows(lines: seq<seq<nat>>)
    requires lines != [] && forall i :: 0 <= i < |lines| ==> AllPrintable(lines[i]) && |lines[i]| < 80
    ensures var d := PutAll(EMPTY, Lined(lines));
      && |d.lines| == |lines| && d.x == |lines[|lines| - 1]|
      && (forall i :: 0 <= i < |lines| ==> RowShows(d, i, lines[i]))
  {
    var n := |lines| - 1;
    if n == 0 {
      TextStaysInRow(EMPTY, lines[0]);
    } else {
      var front := lines[..n];
      LinesFillRows(front);
      var d := PutAll(EMPTY, Lined(front));
      var d1 := Put(d, 10);
      PutAllConcat(EMPTY, Lined(front), [10]);
      PutAllConcat(EMPTY, Lined(front) + [10], lines[n]);
      PutOne(d, 10);
      TextStaysInRow(d1, lines[n]);
      var d' := PutAll(EMPTY, Lined(lines));
      forall i | 0 <= i < |lines| ensures RowShows(d', i, lines[i]) {
        assert i < n ==> RowShows(d, i, front[i]) && d'.lines[i] == d.lines[i];
      }
    }
  }

  lemma PutOne(d: Doc, b: nat)
    requires WellFormed(d)
    ensures PutAll(d, [b]) == Put(d, b)
  {
    assert [b][..0] == [];
  }

  /** After a carriage return (13), text goes over the row from its first column on. */
  lemma ReturnOverwrites(d: Doc, s: seq<nat>)
    requires WellFormed(d) && AllPrintable(s) && |s| < 80
    ensures var d' := PutAll(Put(d, 13), s);
      && d'.x == |s| && |d'.lines| == |d.lines|
      && (forall j :: 0 <= j < 80 ==> d'.lines[Row(d)][j] == if j < |s| then Cell(s[j]) else d.lines[Row(d)][j])
  {
    TextStaysInRow(Put(d, 13), s);
  }

  /** A tab (9) is four spaces. */
  lemma TabIsFourSpaces(d: Doc)
    requires WellFormed(d)
    ensures Put(d, 9) == PutAll(d, [32, 32, 32, 32])
  {
    var four: seq<nat> := [32, 32, 32, 32];
    assert four[..3] == [32, 32, 32] && four[..3][..2] == [32, 32] && four[..3][..2][..1] == [32];
    assert PutAll(d, []) == d == Spaces(d, 0);
    assert PutAll(d, [32]) == Spaces(d, 1) by { PutOne(d, 32); }
    assert PutAll(d, [32, 32]) == Spaces(d, 2);
    assert PutAll(d, [32, 32, 32]) == Spaces(d, 3);
  }

  /** A backspace takes back a character exactly when it did not fill the row. */
  lemma BackspaceUndoesIff(d: Doc, b: nat)
    requires WellFormed(d) && Printable(b) && d.lines[Row(d)][d.x] == BLANK
    ensures Put(Put(d, b), BACKSPACE) == d <==> d.x + 1 < WIDTH
  {
    var d1 := Set(d, Cell(b));
    var line := d.lines[Row(d)];
    assert line[d.x := Cell(b)][d.x := BLANK] == line;
    assert d.lines[Row(d) := line] == d.lines;
    if d.x + 1 < WIDTH {
      assert d1.lines[Row(d) := line] == d.lines;
    } else {
      assert |Put(Put(d, b), BACKSPACE).lines| == |d.lines| + 1;
    }
  }

  // ----- the window

  function Top(d: Doc): nat
    requires WellFormed(d)
  {
    if Row(d) < HEIGHT then 0 else Row(d) - (HEIGHT - 1)
  }

  function CursorY(d: Doc): (y: nat)
    requires WellFormed(d)
    ensures y < HEIGHT
  {
    Row(d) - Top(d)
  }

  /** The screen cell at `k`: below the last line all is blank. */
  function Visible(d: Doc, k: nat): int
    requires WellFormed(d)
  {
    if Top(d) + k / WIDTH < |d.lines| then d.lines[Top(d) + k / WIDTH][k % WIDTH] else BLANK
  }

  function Window(d: Doc): (w: seq<int>)
    requires WellFormed(d)
    ensures |w| == SCREEN
  {
    seq(SCREEN, k requires 0 <= k < SCREEN => Visible(d, k))
  }

  function Scrolled(s: seq<int>): seq<int>
    requires |s| == SCREEN
  {
    s[WIDTH..] + Blanks(WIDTH)
  }

  lemma SetShows(d: Doc, cell: int)
    requires WellFormed(d)
    ensures CursorY(d) * WIDTH + d.x < SCREEN
    ensures Window(Set(d, cell)) == Window(d)[CursorY(d) * WIDTH + d.x := cell]
  {
    var p := CursorY(d) * WIDTH + d.x;
    forall k: nat | k < SCREEN ensures Visible(Set(d, cell), k) == if k == p then cell else Visible(d, k) {
      assert k == p <==> k / WIDTH == CursorY(d) && k % WIDTH == d.x;
    }
  }

  /** A new line scrolls the screen when the cursor is in its last row, and changes nothing else. */
  lemma NewLineShows(d: Doc)
    requires WellFormed(d)
    ensures CursorY(d) + 1 < HEIGHT ==> CursorY(NewLine(d)) == CursorY(d) + 1 && Window(NewLine(d)) == Window(d)
    ensures CursorY(d) + 1 == HEIGHT ==> CursorY(NewLine(d)) == HEIGHT - 1 && Window(NewLine(d)) == Scrolled(Window(d))
  {
    var d' := NewLine(d);
    if CursorY(d) + 1 < HEIGHT {
      forall k: nat | k < SCREEN ensures Visible(d', k) == Visible(d, k) {
      }
    } else {
      forall k: nat | k < SCREEN ensures Visible(d', k) == if k + WIDTH < SCREEN then Visible(d, k + WIDTH) else BLANK {
        assert (k + WIDTH) / WIDTH == k / WIDTH + 1 && (k + WIDTH) % WIDTH == k % WIDTH;
      }
    }
  }
}
