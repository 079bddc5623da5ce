/** The kernel terminal: pixels that agree with the text grid (system/kernel/Terminal.c). */
module Terminal {
  import opened FrameBuffer
  import opened Options
  import opened TextGrid
  import opened Arithmetic

  const DEFAULT_COLOUR: Colour := Colour(0xAA, 0xAA, 0xAA)

  // ----- Rendering a grid -----

  function CellInk(font: Font, cell: Cell, dx: nat, dy: nat): Colour
    requires dx < FONT_PX_X
  {
    match cell
    case Blank => BLACK
    case Glyph(c, colour) => if Enabled(font, c, dx, dy) then colour else BLACK
  }

  function CellIndex(cols: nat, rows: nat, x: nat, y: nat): (i: nat)
    requires x < cols * FONT_PX_X && y < rows * FONT_PX_Y
    ensures i < cols * rows
  {
    MulMonotone(y / FONT_PX_Y + 1, rows, cols);
    y / FONT_PX_Y * cols + x / FONT_PX_X
  }

  /** The colour of pixel (x, y) of the rendered grid; outside the grid everything is black. */
  function Ink(font: Font, cells: seq<Cell>, cols: nat, rows: nat, x: nat, y: nat): Colour
    requires |cells| == cols * rows
  {
    if x < cols * FONT_PX_X && y < rows * FONT_PX_Y then
      CellInk(font, cells[CellIndex(cols, rows, x, y)], x % FONT_PX_X, y % FONT_PX_Y)
    else BLACK
  }

  predicate InCell(cx: nat, cy: nat, x: int, y: int) {
    cx * FONT_PX_X <= x < cx * FONT_PX_X + FONT_PX_X && cy * FONT_PX_Y <= y < cy * FONT_PX_Y + FONT_PX_Y
  }

  lemma CellOfPixel(cols: nat, rows: nat, cx: nat, cy: nat, x: nat, y: nat)
    requires cx < cols && cy < rows && x < cols * FONT_PX_X && y < rows * FONT_PX_Y
    ensures CellIndex(cols, rows, x, y) == cy * cols + cx <==> InCell(cx, cy, x, y)
  {
    if CellIndex(cols, rows, x, y) == cy * cols + cx {
      IndexInjective(cols, x / FONT_PX_X, y / FONT_PX_Y, cx, cy);
    }
  }

  /** Drawing over a blank cell gives the rendering of the new grid. */
  lemma DrawInk(font: Font, cells: seq<Cell>, cols: nat, rows: nat, cx: nat, cy: nat, c: char, colour: Colour, x: nat,
                y: nat)
    requires |cells| == cols * rows && cx < cols && cy < rows && cy * cols + cx < |cells|
    requires cells[cy * cols + cx] == Blank
    ensures Ink(font, cells[cy * cols + cx := Glyph(c, colour)], cols, rows, x, y)
         == if InCell(cx, cy, x, y) && Enabled(font, c, x - cx * FONT_PX_X, y - cy * FONT_PX_Y) then colour
            else Ink(font, cells, cols, rows, x, y)
  {
    if x < cols * FONT_PX_X && y < rows * FONT_PX_Y { CellOfPixel(cols, rows, cx, cy, x, y); }
  }

  lemma EraseInk(font: Font, cells: seq<Cell>, cols: nat, rows: nat, cx: nat, cy: nat, x: nat, y: nat)
    requires |cells| == cols * rows && cx < cols && cy < rows && cy * cols + cx < |cells|
    ensures Ink(font, cells[cy * cols + cx := Blank], cols, rows, x, y)
         == if InCell(cx, cy, x, y) then BLACK else Ink(font, cells, cols, rows, x, y)
  {
    if x < cols * FONT_PX_X && y < rows * FONT_PX_Y { CellOfPixel(cols, rows, cx, cy, x, y); }
  }

  lemma ScrollInk(font: Font, cells: seq<Cell>, cols: nat, rows: nat, x: nat, y: nat)
    requires |cells| == cols * rows && 0 < rows && cols <= |cells|
    ensures |cells[cols..] + Blanks(cols)| == cols * rows
    ensures Ink(font, cells[cols..] + Blanks(cols), cols, rows, x, y)
         == if y < (rows - 1) * FONT_PX_Y then Ink(font, cells, cols, rows, x, y + FONT_PX_Y)
            else if y < rows * FONT_PX_Y then BLACK
            else Ink(font, cells, cols, rows, x, y)
  {
    if x < cols * FONT_PX_X && y < rows * FONT_PX_Y {
      LastRow(cols, rows);
      var i := CellIndex(cols, rows, x, y);
      if y < (rows - 1) * FONT_PX_Y {
        assert (y + FONT_PX_Y) / FONT_PX_Y == y / FONT_PX_Y + 1;
        assert CellIndex(cols, rows, x, y + FONT_PX_Y) == i + cols;
      } else {
        assert y / FONT_PX_Y == rows - 1;
        assert i >= (rows - 1) * cols;
      }
    }
  }

  // ----- The terminal -----

  class Terminal {
    const fb: Screen
    const font: Font
    var Position: nat
    var TextColour: Colour
    var TextColourInit: bool
    ghost var Cells: seq<Cell>

    function Columns(): nat { fb.Width / FONT_PX_X }

    function Rows(): nat { fb.Height / FONT_PX_Y }

    ghost function Text(): Text
      reads this
    {
      TextGrid.Text(Cells, Position)
    }

    /** Every pixel of the framebuffer shows the rendering of the grid. */
    ghost predicate Shows(cells: seq<Cell>)
      requires fb.Valid() && |cells| == Columns() * Rows()
      reads fb.Base
    {
      forall x: nat, y: nat :: fb.In(x, y) ==> fb.At(x, y).Rgb() == Ink(font, cells, Columns(), Rows(), x, y)
    }

    ghost predicate Valid()
      reads this, fb.Base
    {
      && fb.Valid() && 2 <= Columns() && 1 <= Rows()
      && Inv(Text(), Columns(), Rows()) && Shows(Cells)
    }

    ghost function Colour(): FrameBuffer.Colour
      reads this
    {
      if TextColourInit then TextColour else DEFAULT_COLOUR
    }

    constructor (screen: Screen, f: Font)
      ensures fb == screen && font == f && Position == 0 && !TextColourInit
    {
      fb, font := screen, f;
      Position, TextColour, TextColourInit := 0, BLACK, false;
      Cells := [];
    }

    /** Erases the screen; afterwards the terminal is valid whatever was on the screen. */
    method TerminalClear()
      requires fb.Valid() && 2 <= Columns() && 1 <= Rows()
      modifies this`Position, this`Cells, fb.Base
      ensures Valid() && Text() == TextGrid.Text(Blanks(Columns() * Rows()), 0)
    {
      for X := 0 to fb.Width
        invariant forall x, y :: fb.In(x, y) && x < X ==> fb.At(x, y).Rgb() == BLACK
      {
        for Y := 0 to fb.Height
          invariant forall x, y :: fb.In(x, y) && (x < X || (x == X && y < Y)) ==> fb.At(x, y).Rgb() == BLACK
        {
          IndexBound(fb.Width, fb.Height, X, Y);
          fb.SetPixel(X, Y, fb.Base[Y * fb.Width + X].(Red := 0, Green := 0, Blue := 0));
        }
      }
      Position := 0;
      Cells := Blanks(Columns() * Rows());
    }

    /** The drawing loop, over a blank cell. */
    method DrawCell(c: char, CharacterXIndex: nat, CharacterYIndex: nat)
      requires fb.Valid() && |Cells| == Columns() * Rows() && Shows(Cells)
      requires CharacterXIndex < Columns() && CharacterYIndex < Rows()
      requires CharacterYIndex * Columns() + CharacterXIndex < |Cells|
      requires Cells[CharacterYIndex * Columns() + CharacterXIndex] == Blank
      modifies this`Cells, fb.Base
      ensures Cells == old(Cells)[CharacterYIndex * Columns() + CharacterXIndex := Glyph(c, TextColour)]
      ensures Shows(Cells)
    {
      var CharacterYPos := CharacterYIndex * FONT_PX_Y;
      var CharacterXPos := CharacterXIndex * FONT_PX_X;
      fb.DrawGlyph(font, c, CharacterXPos, CharacterYPos, TextColour);
      ghost var p := CharacterYIndex * Columns() + CharacterXIndex;
      Cells := Cells[p := Glyph(c, TextColour)];
      forall x: nat, y: nat | fb.In(x, y) ensures fb.At(x, y).Rgb() == Ink(font, Cells, Columns(), Rows(), x, y) {
        DrawInk(font, old(Cells), Columns(), Rows(), CharacterXIndex, CharacterYIndex, c, TextColour, x, y);
      }
    }

    method EraseCell(CharacterXIndex: nat, CharacterYIndex: nat)
      requires fb.Valid() && |Cells| == Columns() * Rows() && Shows(Cells)
      requires CharacterXIndex < Columns() && CharacterYIndex < Rows()
      requires CharacterYIndex * Columns() + CharacterXIndex < |Cells|
      modifies this`Cells, fb.Base
      ensures Cells == old(Cells)[CharacterYIndex * Columns() + CharacterXIndex := Blank]
      ensures Shows(Cells)
    {
      var CharacterYPos := CharacterYIndex * FONT_PX_Y;
      var CharacterXPos := CharacterXIndex * FONT_PX_X;
      fb.FillRect(CharacterXPos, CharacterYPos, FONT_PX_X, FONT_PX_Y, Pixel(0, 0, 0, 0xFF));
      ghost var p := CharacterYIndex * Columns() + CharacterXIndex;
      Cells := Cells[p := Blank];
      forall x: nat, y: nat | fb.In(x, y) ensures fb.At(x, y).Rgb() == Ink(font, Cells, Columns(), Rows(), x, y) {
        EraseInk(font, old(Cells), Columns(), Rows(), CharacterXIndex, CharacterYIndex, x, y);
      }
    }

    method Scroll()
      requires fb.Valid() && |Cells| == Columns() * Rows() && Shows(Cells) && 1 <= Rows() && Columns() <= |Cells|
      modifies this`Cells, fb.Base
      ensures Cells == old(Cells)[Columns()..] + Blanks(Columns()) && |Cells| == Columns() * Rows()
      ensures Shows(Cells)
    {
      fb.ScrollUp(Rows());
      Cells := Cells[Columns()..] + Blanks(Columns());
      LastRow(Columns(), Rows());
      forall x: nat, y: nat | fb.In(x, y) ensures fb.At(x, y).Rgb() == Ink(font, Cells, Columns(), Rows(), x, y) {
        ScrollInk(font, old(Cells), Columns(), Rows(), x, y);
      }
    }

    method TerminalPutChar(Char: char)
      requires Valid() && Char as int < 128 && (Char == BACKSPACE ==> Position > 0)
      modifies this`Position, this`TextColour, this`TextColourInit, this`Cells, fb.Base
      ensures Valid() && TextColourInit && TextColour == old(Colour())
      ensures TextColour == if old(TextColourInit) then old(TextColour) else FrameBuffer.Colour(0xAA, 0xAA, 0xAA)
      ensures Put(old(Text()), Columns(), Rows(), TextColour, Char) == Some(Text())
      decreases Char == '\t', true
    {
      if !TextColourInit {
        TextColour := DEFAULT_COLOUR;
        TextColourInit := true;
      }
      var Capacity := Columns() * Rows();
      var CharacterYIndex := Position / Columns();
      var CharacterXIndex := Position % Columns();

      if Char == BACKSPACE {
        PutIsValid(Text(), Columns(), Rows(), TextColour, Char);
        BackUp();
        return;
      }
      if Char == '\t' {
        PutTab();
        return;
      }
      PutIsValid(Text(), Columns(), Rows(), TextColour, Char);
      PutPlain(Char, CharacterXIndex, CharacterYIndex);
    }

    method PutTab()
      requires Valid() && TextColourInit
      modifies this`Position, this`TextColour, this`TextColourInit, this`Cells, fb.Base
      ensures Valid() && TextColourInit && TextColour == old(TextColour)
      ensures Put(old(Text()), Columns(), Rows(), TextColour, '\t') == Some(Text())
      decreases true, false
    {
      TerminalPutChar(' ');
      TerminalPutChar(' ');
      TerminalPutChar(' ');
      TerminalPutChar(' ');
    }

    method BackUp()
      requires Valid() && Position > 0
      modifies this`Position, this`Cells, fb.Base
      ensures Valid() && Text() == PutValid(old(Text()), Columns(), Rows(), TextColour, BACKSPACE)
    {
      PutOneInv(Text(), Columns(), Rows(), TextColour, BACKSPACE);
      Position := Position - 1;
      CellOfPosition(Position, Columns(), Rows());
      EraseCell(Position % Columns(), Position / Columns());
    }

    /** Makes room: afterwards the cell at (x', y') is the blank cell at the cursor. */
    method ScrollIfFull(Char: char, x: nat, y: nat) returns (x': nat, y': nat, NextPosition: nat)
      requires Valid() && x == Position % Columns() && y == Position / Columns()
      modifies this`Position, this`Cells, fb.Base
      ensures MadeRoom(old(Text()), Columns(), Rows(), Char, Text(), NextPosition)
      ensures x' < Columns() && y' < Rows() && y' * Columns() + x' == Position
      ensures |Cells| == Columns() * Rows() && Position < |Cells| && Cells[Position] == Blank && Shows(Cells)
    {
      x', y', NextPosition := x, y, Position + 1;
      if Char == '\n' {
        NextPosition := (y + 1) * Columns();
      }
      CellOfPosition(Position, Columns(), Rows());
      if NextPosition >= Columns() * Rows() {
        LastRow(Columns(), Rows());
        Scroll();
        y' := Rows() - 1;
        x' := 0;
        Position := y' * Columns();
        NextPosition := if Char == '\n' then Position else Position + 1;
      }
    }

    /** TerminalPutChar for everything but backspace and tab: scroll if needed, draw, advance. */
    method PutPlain(Char: char, x: nat, y: nat)
      requires Valid() && Char != BACKSPACE && Char != '\t'
      requires x == Position % Columns() && y == Position / Columns()
      modifies this`Position, this`Cells, fb.Base
      ensures Valid() && Text() == PutValid(old(Text()), Columns(), Rows(), TextColour, Char)
    {
      ghost var t := Text();
      var CharacterXIndex, CharacterYIndex, NextPosition := ScrollIfFull(Char, x, y);
      PutAfterRoom(t, Columns(), Rows(), TextColour, Char, Text(), NextPosition);
      if Char != '\n' && Char != '\r' && Char != '\t' {
        DrawCell(Char, CharacterXIndex, CharacterYIndex);
      }
      Position := NextPosition;
    }

    static lemma CellOfPosition(p: nat, cols: nat, rows: nat)
      requires 0 < cols && p < cols * rows
      ensures p / cols < rows && p % cols < cols && p / cols * cols + p % cols == p
    {
      if p / cols >= rows { MulMonotone(rows, p / cols, cols); }
    }

    /** The string is what precedes its terminating zero. */
    method TerminalPutString(String: string)
      requires Valid() && forall i :: 0 <= i < |String| ==> 0 < String[i] as int < 128
      requires PutAll(Text(), Columns(), Rows(), Colour(), String).Some?
      modifies this`Position, this`TextColour, this`TextColourInit, this`Cells, fb.Base
      ensures Valid() && Colour() == old(Colour())
      ensures PutAll(old(Text()), Columns(), Rows(), Colour(), String) == Some(Text())
    {
      for i := 0 to |String|
        invariant Valid() && Colour() == old(Colour())
        invariant PutAll(old(Text()), Columns(), Rows(), Colour(), String)
               == PutAll(Text(), Columns(), Rows(), Colour(), String[i..])
      {
        assert String[i..][0] == String[i] && String[i..][1..] == String[i + 1..];
        TerminalPutChar(String[i]);
      }
    }
  }

  /** On a valid terminal every cell is eight by sixteen pixels. Those of a glyph that the font's row
      byte has a digit 1 for, counted from the left, have its colour; all others are black. */
  lemma CellPixels(term: Terminal, i: nat, dx: nat, dy: nat, x: nat, y: nat)
    requires term.Valid() && i < (term.fb.Width / 8) * (term.fb.Height / 16) && dx < 8 && dy < 16
    requires x == i % (term.fb.Width / 8) * 8 + dx && y == i / (term.fb.Width / 8) * 16 + dy
    ensures |term.Cells| == (term.fb.Width / 8) * (term.fb.Height / 16)
    ensures x < term.fb.Width && y < term.fb.Height && y * term.fb.Width + x < term.fb.Base.Length
    ensures var p := term.fb.Base[y * term.fb.Width + x];
      match term.Cells[i]
      case Blank => p.Red == 0 && p.Green == 0 && p.Blue == 0
      case Glyph(c, colour) =>
        if term.font(c, dy) as int / [128, 64, 32, 16, 8, 4, 2, 1][dx] % 2 == 1
        then p.Red == colour.Red && p.Green == colour.Green && p.Blue == colour.Blue
        else p.Red == 0 && p.Green == 0 && p.Blue == 0
  {
    var cols, rows := term.Columns(), term.Rows();
    Terminal.CellOfPosition(i, cols, rows);
    PixelInCell(cols, rows, i, dx, dy);
    assert term.fb.In(x, y);
    IndexBound(term.fb.Width, term.fb.Height, x, y);
    assert term.fb.At(x, y).Rgb() == Ink(term.font, term.Cells, cols, rows, x, y);
    assert Ink(term.font, term.Cells, cols, rows, x, y) == CellInk(term.font, term.Cells[i], dx, dy);
  }

  lemma PixelInCell(cols: nat, rows: nat, i: nat, dx: nat, dy: nat)
    requires 0 < cols && i < cols * rows && i / cols < rows && i % cols < cols && dx < 8 && dy < 16
    ensures var x, y := i % cols * 8 + dx, i / cols * 16 + dy;
      && x < cols * 8 && y < rows * 16 && x % 8 == dx && y % 16 == dy && CellIndex(cols, rows, x, y) == i
  {
  }

  /** The rest of the screen is black. */
  lemma BorderIsBlack(term: Terminal, x: nat, y: nat)
    requires term.Valid() && x < term.fb.Width && y < term.fb.Height
    requires x >= term.fb.Width / 8 * 8 || y >= term.fb.Height / 16 * 16
    ensures y * term.fb.Width + x < term.fb.Base.Length
    ensures var p := term.fb.Base[y * term.fb.Width + x]; p.Red == 0 && p.Green == 0 && p.Blue == 0
  {
    IndexBound(term.fb.Width, term.fb.Height, x, y);
    assert term.fb.In(x, y);
    assert term.fb.At(x, y).Rgb() == Ink(term.font, term.Cells, term.Columns(), term.Rows(), x, y);
  }
}
