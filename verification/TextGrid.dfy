/** The text terminal as a grid of character cells: what each character does to the
    text and the cursor (system/kernel/Terminal.c). */
module TextGrid {
  import opened FrameBuffer
  import opened Options
  import opened Arithmetic

  const BACKSPACE: char := '\U{08}'

  datatype Cell = Blank | Glyph(c: char, colour: Colour)

  /** The cells in reading order and the position of the cursor. */
  datatype Text = Text(cells: seq<Cell>, pos: nat)

  function Blanks(n: nat): (s: seq<Cell>)
    ensures |s| == n && forall i :: 0 <= i < n ==> s[i] == Blank
  {
    seq(n, _ => Blank)
  }

  predicate Drawn(c: char) { c != '\n' && c != '\r' && c != '\t' && c != BACKSPACE }

  /** One character other than a tab. */
  function PutOne(t: Text, cols: nat, rows: nat, colour: Colour, c: char): Text
    requires 0 < cols && 0 < rows && |t.cells| == cols * rows && t.pos < cols * rows
    requires c == BACKSPACE ==> t.pos > 0
  {
    if c == BACKSPACE then Text(t.cells[t.pos - 1 := Blank], t.pos - 1)
    else
      var next := if c == '\n' then (t.pos / cols + 1) * cols else t.pos + 1;
      if next < cols * rows then
        Text(if Drawn(c) then t.cells[t.pos := Glyph(c, colour)] else t.cells, next)
      else
        LastRow(cols, rows);
        var cells := t.cells[cols..] + Blanks(cols);
        var first := (rows - 1) * cols;
        if c == '\n' then Text(cells, first)
        else Text(if Drawn(c) then cells[first := Glyph(c, colour)] else cells, first + 1)
  }

  lemma LastRow(cols: nat, rows: nat)
    requires 0 < rows
    ensures (rows - 1) * cols + cols == cols * rows && 0 <= (rows - 1) * cols
  {
  }

  /** The cursor is on the screen, and every cell from the cursor on is blank. Drawing never
      erases, so the rendering of a glyph is right only because its cell was blank. */
  ghost predicate Inv(t: Text, cols: nat, rows: nat) {
    && |t.cells| == cols * rows && t.pos < cols * rows
    && forall i :: t.pos <= i < |t.cells| ==> t.cells[i] == Blank
  }

  lemma PutOneInv(t: Text, cols: nat, rows: nat, colour: Colour, c: char)
    requires 2 <= cols && 1 <= rows && Inv(t, cols, rows) && (c == BACKSPACE ==> t.pos > 0)
    ensures Inv(PutOne(t, cols, rows, colour, c), cols, rows)
  {
    LastRow(cols, rows);
    if c == '\n' { NextRow(t.pos, cols); }
  }

  lemma NextRow(p: nat, cols: nat)
    requires 0 < cols
    ensures p < (p / cols + 1) * cols <= p + cols
  {
    assert p == p / cols * cols + p % cols;
  }

  function PutValid(t: Text, cols: nat, rows: nat, colour: Colour, c: char): (r: Text)
    requires 2 <= cols && 1 <= rows && Inv(t, cols, rows) && (c == BACKSPACE ==> t.pos > 0)
    ensures Inv(r, cols, rows)
  {
    PutOneInv(t, cols, rows, colour, c);
    PutOne(t, cols, rows, colour, c)
  }

  /** What the step before drawing does: next to t, the text is mid and the cursor will go to next. */
  ghost predicate MadeRoom(t: Text, cols: nat, rows: nat, c: char, mid: Text, next: nat)
    requires 0 < cols && 0 < rows && |t.cells| == cols * rows
  {
    LastRow(cols, rows);
    var n := if c == '\n' then (t.pos / cols + 1) * cols else t.pos + 1;
    if n < cols * rows then mid == t && next == n
    else
      && mid == Text(t.cells[cols..] + Blanks(cols), (rows - 1) * cols)
      && next == if c == '\n' then mid.pos else mid.pos + 1
  }

  lemma PutAfterRoom(t: Text, cols: nat, rows: nat, colour: Colour, c: char, mid: Text, next: nat)
    requires 2 <= cols && 1 <= rows && Inv(t, cols, rows) && c != BACKSPACE && mid.pos < |mid.cells|
    requires MadeRoom(t, cols, rows, c, mid, next)
    ensures PutValid(t, cols, rows, colour, c)
         == Text(if Drawn(c) then mid.cells[mid.pos := Glyph(c, colour)] else mid.cells, next)
  {
  }

  /** The text after one character; None when a backspace meets position 0. */
  function Put(t: Text, cols: nat, rows: nat, colour: Colour, c: char): (r: Option<Text>)
    requires 2 <= cols && 1 <= rows && Inv(t, cols, rows)
    ensures r.Some? ==> Inv(r.value, cols, rows)
    ensures r.None? <==> c == BACKSPACE && t.pos == 0
  {
    if c == BACKSPACE && t.pos == 0 then None
    else if c != '\t' then Some(PutValid(t, cols, rows, colour, c))
    else
      var t1 := PutValid(t, cols, rows, colour, ' ');
      var t2 := PutValid(t1, cols, rows, colour, ' ');
      var t3 := PutValid(t2, cols, rows, colour, ' ');
      Some(PutValid(t3, cols, rows, colour, ' '))
  }

  lemma PutIsValid(t: Text, cols: nat, rows: nat, colour: Colour, c: char)
    requires 2 <= cols && 1 <= rows && Inv(t, cols, rows) && c != '\t' && (c == BACKSPACE ==> t.pos > 0)
    ensures Put(t, cols, rows, colour, c) == Some(PutValid(t, cols, rows, colour, c))
  {
  }

  function PutAll(t: Text, cols: nat, rows: nat, colour: Colour, s: string): (r: Option<Text>)
    requires 2 <= cols && 1 <= rows && Inv(t, cols, rows)
    ensures r.Some? ==> Inv(r.value, cols, rows)
    decreases |s|
  {
    if s == [] then Some(t)
    else
      var r := Put(t, cols, rows, colour, s[0]);
      if r.None? then None else PutAll(r.value, cols, rows, colour, s[1..])
  }

  /** What a character other than a tab does while the text need not move up: a printed one fills the
      cell at the cursor, a carriage return only advances, a newline goes to the start of the next row,
      and a backspace blanks the cell before the cursor. */
  lemma PutInPlace(t: Text, cols: nat, rows: nat, colour: Colour, c: char)
    requires 2 <= cols && 1 <= rows && Inv(t, cols, rows) && c != '\t'
    requires c != '\n' ==> t.pos + 1 < cols * rows
    requires c == '\n' ==> (t.pos / cols + 1) * cols < cols * rows
    requires c == '\U{08}' ==> t.pos > 0
    ensures var r := Put(t, cols, rows, colour, c);
      && r.Some?
      && (c == '\U{08}' ==> r.value == Text(t.cells[t.pos - 1 := Blank], t.pos - 1))
      && (c == '\r' ==> r.value == Text(t.cells, t.pos + 1))
      && (c == '\n' ==> r.value.cells == t.cells && r.value.pos % cols == 0 && r.value.pos / cols == t.pos / cols + 1)
      && (c !in {'\U{08}', '\r', '\n'} ==> r.value == Text(t.cells[t.pos := Glyph(c, colour)], t.pos + 1))
  {
    if c == '\n' { DivMod(t.pos / cols + 1, 0, cols); }
  }

  /** At the end of the screen every row moves up by one, the last becomes blank, and the character goes
      to its start. */
  lemma PutScrolls(t: Text, cols: nat, rows: nat, colour: Colour, c: char, i: nat)
    requires 2 <= cols && 1 <= rows && Inv(t, cols, rows) && c != '\t' && c != '\U{08}' && i < cols * rows
    requires c != '\n' ==> t.pos + 1 >= cols * rows
    requires c == '\n' ==> (t.pos / cols + 1) * cols >= cols * rows
    ensures var r := Put(t, cols, rows, colour, c);
      && r.Some?
      && r.value.pos == (rows - 1) * cols + (if c == '\n' then 0 else 1)
      && |r.value.cells| == cols * rows
      && r.value.cells[i] == if i == (rows - 1) * cols && c !in {'\n', '\r'} then Glyph(c, colour)
                             else if i < (rows - 1) * cols then t.cells[i + cols] else Blank
  {
    LastRow(cols, rows);
  }

  /** A tab is four spaces, four cells wide. */
  lemma TabIsFourCells(t: Text, cols: nat, rows: nat, colour: Colour, i: nat)
    requires 2 <= cols && 1 <= rows && Inv(t, cols, rows) && i < cols * rows
    ensures Put(t, cols, rows, colour, '\t') == PutAll(t, cols, rows, colour, "    ")
    ensures t.pos + 4 < cols * rows ==>
      var r := Put(t, cols, rows, colour, '\t');
      && r.Some? && r.value.pos == t.pos + 4
      && r.value.cells[i] == if t.pos <= i < t.pos + 4 then Glyph(' ', colour) else t.cells[i]
  {
    assert "    "[1..] == "   " && "   "[1..] == "  " && "  "[1..] == " " && " "[1..] == "";
    var t1 := PutValid(t, cols, rows, colour, ' ');
    var t2 := PutValid(t1, cols, rows, colour, ' ');
    var t3 := PutValid(t2, cols, rows, colour, ' ');
    assert PutAll(t3, cols, rows, colour, " ") == Put(t3, cols, rows, colour, ' ');
    assert PutAll(t2, cols, rows, colour, "  ") == PutAll(t3, cols, rows, colour, " ");
    assert PutAll(t1, cols, rows, colour, "   ") == PutAll(t2, cols, rows, colour, "  ");
  }

  /** The last cell of the screen is never drawn. */
  lemma LastCellStaysBlank(t: Text, cols: nat, rows: nat)
    requires Inv(t, cols, rows) && 0 < cols * rows
    ensures t.cells[cols * rows - 1] == Blank
  {
  }

  /** Backspace undoes a character that did not scroll: cells and cursor. */
  lemma BackspaceUndoes(t: Text, cols: nat, rows: nat, colour: Colour, c: char)
    requires 2 <= cols && 1 <= rows && Inv(t, cols, rows) && c != BACKSPACE && c != '\t' && c != '\n'
    requires t.pos + 1 < cols * rows
    ensures Put(PutOne(t, cols, rows, colour, c), cols, rows, colour, BACKSPACE) == Some(t)
  {
    var u := PutOne(t, cols, rows, colour, c);
    assert u.cells[t.pos := Blank] == t.cells;
  }

  /** Away from the bottom of the screen, backspace undoes a character exactly when it is not a
      tab, and a newline only from the last column. */
  lemma BackspaceUndoesIff(t: Text, cols: nat, rows: nat, colour: Colour, c: char)
    requires 2 <= cols && 1 <= rows && Inv(t, cols, rows) && c != BACKSPACE && t.pos + 4 < cols * rows
    requires (t.pos / cols + 1) * cols < cols * rows
    ensures Put(Put(t, cols, rows, colour, c).value, cols, rows, colour, BACKSPACE) == Some(t)
       <==> c != '\t' && (c == '\n' ==> t.pos % cols == cols - 1)
  {
    if c == '\t' {
    } else if c == '\n' {
      assert t.pos == t.pos / cols * cols + t.pos % cols;
      NextRow(t.pos, cols);
      var p := (t.pos / cols + 1) * cols;
      assert t.cells[p - 1 := Blank] == t.cells;
    } else {
      BackspaceUndoes(t, cols, rows, colour, c);
    }
  }

  /** After a scroll backspace only restores the blank: the text has moved up a row for good. */
  lemma BackspaceAfterScroll(t: Text, cols: nat, rows: nat, colour: Colour, c: char)
    requires 2 <= cols && 1 <= rows && Inv(t, cols, rows) && Drawn(c) && t.pos + 1 == cols * rows
    ensures Put(PutOne(t, cols, rows, colour, c), cols, rows, colour, BACKSPACE)
         == Some(Text(t.cells[cols..] + Blanks(cols), (rows - 1) * cols))
  {
    LastRow(cols, rows);
    var u := t.cells[cols..] + Blanks(cols);
    var p := (rows - 1) * cols;
    assert u[p := Glyph(c, colour)][p := Blank] == u;
  }

  lemma {:induction false} PutAllConcat(t: Text, cols: nat, rows: nat, colour: Colour, a: string, b: string)
    requires 2 <= cols && 1 <= rows && Inv(t, cols, rows)
    ensures var r := PutAll(t, cols, rows, colour, a);
      PutAll(t, cols, rows, colour, a + b) == if r.None? then None else PutAll(r.value, cols, rows, colour, b)
    decreases |a|
  {
    if a == [] {
      assert a + b == b;
    } else {
      assert (a + b)[1..] == a[1..] + b;
      var r := Put(t, cols, rows, colour, a[0]);
      if r.Some? { PutAllConcat(r.value, cols, rows, colour, a[1..], b); }
    }
  }
}
