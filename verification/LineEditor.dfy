/** The kernel's line editor: the line being typed, its buffer and its echo on the screen
    (system/kernel/Input.c). */
module LineEditor {
  import opened EventQueue
  import opened Options
  import opened TextGrid
  import opened Terminal
  import FrameBuffer
  import Keyboard

  const SCANCODE_KEY_C: nat := 0x06

  /** The state of a line after some input. */
  datatype Line = Editing(text: string) | Entered(text: string) | TooLong(text: string)

  predicate IsInterrupt(e: Event) { e.ScanCode == SCANCODE_KEY_C && e.Control }

  function EditStep(text: string, e: Event, Size: nat): Line {
    if e.ASCII == '\n' then Entered(text)
    else if e.ASCII == BACKSPACE then Editing(if text == [] then [] else text[..|text| - 1])
    else if IsInterrupt(e) then Editing([])
    else if |text| < Size then Editing(text + [e.ASCII])
    else TooLong(text)
  }

  /** What a key does to a line of at least two characters: only C with Control empties it, Enter enters
      it, backspace takes the last character, and anything else is added or, on a full line, rejects it. */
  lemma WhatKeysDo(text: string, e: Event, Size: nat)
    requires |text| >= 2
    ensures EditStep(text, e, Size) == Editing("") <==>
      e.ScanCode == 0x06 && e.Control && e.ASCII != '\n' && e.ASCII != '\U{08}'
    ensures EditStep(text, e, Size) == Entered(text) <==> e.ASCII == '\n'
    ensures EditStep(text, e, Size) == Editing(text[..|text| - 1]) <==> e.ASCII == '\U{08}'
    ensures EditStep(text, e, Size) == Editing(text + [e.ASCII]) <==>
      e.ASCII != '\n' && e.ASCII != '\U{08}' && !(e.ScanCode == 0x06 && e.Control) && |text| < Size
    ensures EditStep(text, e, Size) == TooLong(text) <==>
      e.ASCII != '\n' && e.ASCII != '\U{08}' && !(e.ScanCode == 0x06 && e.Control) && |text| >= Size
  {
    assert |text + [e.ASCII]| == |text| + 1;
  }

  /** The line typed by a sequence of character events. */
  function LineOf(text: string, events: seq<Event>, Size: nat): Line
    decreases |events|
  {
    if events == [] then Editing(text)
    else
      match EditStep(text, events[0], Size)
      case Editing(t) => LineOf(t, events[1..], Size)
      case done => done
  }

  lemma {:induction false} LineOfAppend(text: string, events: seq<Event>, e: Event, Size: nat)
    ensures LineOf(text, events + [e], Size)
         == match LineOf(text, events, Size)
            case Editing(t) => EditStep(t, e, Size)
            case done => done
    decreases |events|
  {
    if events == [] {
      assert [e][1..] == [] && [] + [e] == [e];
    } else {
      assert (events + [e])[0] == events[0] && (events + [e])[1..] == events[1..] + [e];
      match EditStep(text, events[0], Size)
      case Editing(t) => LineOfAppend(t, events[1..], e, Size);
      case _ =>
    }
  }

  /** The line after the first i events. */
  function LineAt(events: seq<Event>, i: nat, Size: nat): Line
    requires i <= |events|
  {
    LineOf("", events[..i], Size)
  }

  lemma LineAtStep(events: seq<Event>, i: nat, Size: nat)
    requires i < |events|
    ensures LineAt(events, i + 1, Size)
         == match LineAt(events, i, Size)
            case Editing(t) => EditStep(t, events[i], Size)
            case done => done
  {
    assert events[..i + 1] == events[..i] + [events[i]];
    LineOfAppend("", events[..i], events[i], Size);
  }

  /** Once a line is entered or rejected nothing more is read. */
  lemma {:induction false} LineStays(events: seq<Event>, i: nat, j: nat, Size: nat)
    requires i <= j <= |events| && !LineAt(events, i, Size).Editing?
    ensures LineAt(events, j, Size) == LineAt(events, i, Size)
    decreases j
  {
    if i < j {
      LineStays(events, i, j - 1, Size);
      LineAtStep(events, j - 1, Size);
    }
  }

  // ----- What is written to the buffer -----

  /** The slot a character event writes; None if it writes none. */
  function SlotWritten(line: Line, e: Event, Size: nat): Option<nat> {
    match line
    case Editing(text) =>
      if e.ASCII == '\n' then None
      else if e.ASCII == BACKSPACE then if text == [] then None else Some(|text|)
      else if IsInterrupt(e) || |text| >= Size then None
      else Some(|text|)
    case _ => None
  }

  /** Event i is a backspace on a line of Size characters. */
  ghost predicate FullBackspace(events: seq<Event>, i: nat, Size: nat)
    requires i < |events|
  {
    var line := LineAt(events, i, Size);
    line.Editing? && |line.text| == Size > 0 && events[i].ASCII == BACKSPACE
  }

  ghost predicate NoFullBackspace(events: seq<Event>, n: nat, Size: nat)
    requires n <= |events|
  {
    forall i :: 0 <= i < n ==> !FullBackspace(events, i, Size)
  }

  ghost predicate WritesInside(events: seq<Event>, Size: nat, length: nat) {
    forall i :: 0 <= i < |events| ==>
      var w := SlotWritten(LineAt(events, i, Size), events[i], Size); w.Some? ==> w.value < length
  }

  lemma {:induction false} LineFits(events: seq<Event>, i: nat, Size: nat)
    requires i <= |events|
    ensures |LineAt(events, i, Size).text| <= Size
    decreases i
  {
    if i > 0 {
      LineFits(events, i - 1, Size);
      LineAtStep(events, i - 1, Size);
    }
  }

  /** Every write stays inside a buffer of exactly Size slots if and only if no backspace meets a full
      line; with one more slot, always. */
  lemma WritesInsideIff(events: seq<Event>, Size: nat, length: nat)
    requires Size <= length
    ensures WritesInside(events, Size, length) <==> (Size == length ==> NoFullBackspace(events, |events|, Size))
  {
    forall i | 0 <= i < |events|
      ensures var w := SlotWritten(LineAt(events, i, Size), events[i], Size);
        (w.Some? && w.value >= length) <==> Size == length && FullBackspace(events, i, Size)
    {
      LineFits(events, i, Size);
    }
  }

  /** It happens: Size characters and a backspace, in the buffer the shell passes. */
  lemma FullLineThenBackspace(c: Event, back: Event, Size: nat)
    requires Size > 0 && back.ASCII == BACKSPACE && Plain(c.ASCII) && !IsInterrupt(c)
    ensures var events := seq(Size, _ => c) + [back];
      FullBackspace(events, Size, Size) && !WritesInside(events, Size, Size)
  {
    var events := seq(Size, _ => c) + [back];
    FullLine(events, c, Size, Size);
    WritesInsideIff(events, Size, Size);
  }

  lemma {:induction false} FullLine(events: seq<Event>, c: Event, n: nat, Size: nat)
    requires n <= Size <= |events| && Plain(c.ASCII) && !IsInterrupt(c) && forall i :: 0 <= i < n ==> events[i] == c
    ensures LineAt(events, n, Size).Editing? && |LineAt(events, n, Size).text| == n
    decreases n
  {
    if n > 0 {
      FullLine(events, c, n - 1, Size);
      LineAtStep(events, n - 1, Size);
    }
  }

  // ----- The removed character -----

  /** What the slot after the text holds: a backspace leaves the character it removes. */
  function Residue(events: seq<Event>, i: nat, Size: nat): char
    requires i <= |events|
  {
    if i == 0 then '\0'
    else
      var before := Residue(events, i - 1, Size);
      match LineAt(events, i - 1, Size)
      case Editing(text) =>
        var e := events[i - 1];
        if e.ASCII == '\n' then before
        else if e.ASCII == BACKSPACE then if text == [] then before else text[|text| - 1]
        else if IsInterrupt(e) || |text| < Size then '\0'
        else before
      case _ => before
  }

  /** The last event that changed the line was a backspace. */
  predicate EndsInBackspace(events: seq<Event>, i: nat, Size: nat)
    requires i <= |events|
  {
    if i == 0 then false
    else
      match LineAt(events, i - 1, Size)
      case Editing(text) =>
        var e := events[i - 1];
        if e.ASCII == '\n' || (e.ASCII == BACKSPACE && text == []) then EndsInBackspace(events, i - 1, Size)
        else if e.ASCII == BACKSPACE then true
        else if IsInterrupt(e) || |text| < Size then false
        else EndsInBackspace(events, i - 1, Size)
      case _ => EndsInBackspace(events, i - 1, Size)
  }

  lemma {:induction false} LineIsPlain(events: seq<Event>, i: nat, Size: nat)
    requires i <= |events| && PlainEvents(events)
    ensures PlainText(LineAt(events, i, Size).text)
    decreases i
  {
    if i > 0 {
      LineIsPlain(events, i - 1, Size);
      LineAtStep(events, i - 1, Size);
    }
  }

  lemma {:induction false} ResidueIff(events: seq<Event>, i: nat, Size: nat)
    requires i <= |events| && PlainEvents(events)
    ensures Residue(events, i, Size) != '\0' <==> EndsInBackspace(events, i, Size)
    decreases i
  {
    if i > 0 {
      ResidueIff(events, i - 1, Size);
      LineIsPlain(events, i - 1, Size);
    }
  }

  /** What the shell reads: the buffer up to its first zero. */
  function CString(buffer: seq<char>): string {
    if buffer == [] || buffer[0] == '\0' then [] else [buffer[0]] + CString(buffer[1..])
  }

  lemma {:induction false} CStringOf(buffer: seq<char>, text: string)
    requires PlainText(text) && text <= buffer
    ensures CString(buffer) == text + CString(buffer[|text|..])
    decreases |text|
  {
    if text == [] {
      assert buffer[0..] == buffer;
    } else {
      assert buffer[0] == text[0] && text[1..] <= buffer[1..];
      CStringOf(buffer[1..], text[1..]);
      assert buffer[1..][|text| - 1..] == buffer[|text|..];
    }
  }

  /** The length that InputReadLine returns. */
  function Returned(line: Line): nat { if line.TooLong? then 0 else |line.text| }

  /** The line the shell takes from the returned length and its buffer; it ignores a line of length 0. */
  function ShellLine(length: nat, buffer: seq<char>): Option<string> {
    if length == 0 then None else Some(CString(buffer))
  }

  /** The text, the slot after it, and zeros up to Size. */
  predicate Holds(buffer: seq<char>, text: string, residue: char, Size: nat) {
    && |text| <= Size <= |buffer| && buffer[..|text|] == text
    && forall k :: |text| <= k < Size ==> buffer[k] == if k == |text| then residue else '\0'
  }

  lemma CStringInside(buffer: seq<char>, text: string)
    requires PlainText(text) && text <= buffer && |text| < |buffer|
    ensures CString(buffer) == text <==> buffer[|text|] == '\0'
  {
    CStringOf(buffer, text);
    var rest := buffer[|text|..];
    assert rest[0] == buffer[|text|];
    assert CString(rest) == [] <==> rest[0] == '\0';
    assert |text + CString(rest)| == |text| + |CString(rest)|;
    if CString(rest) == [] { assert text + [] == text; }
  }

  /** The shell takes the line that was typed, if any, exactly when nothing was typed or the last
      effective edit was not a backspace. */
  lemma ShellSeesLineIff(buffer: seq<char>, events: seq<Event>, Size: nat)
    requires PlainEvents(events)
    requires var text := LineOf("", events, Size).text;
      |text| < Size && Holds(buffer, text, Residue(events, |events|, Size), Size)
    ensures var line := LineOf("", events, Size);
      ShellLine(Returned(line), buffer) == (if Returned(line) == 0 then None else Some(line.text))
      <==> Returned(line) == 0 || !EndsInBackspace(events, |events|, Size)
  {
    var text := LineOf("", events, Size).text;
    assert events[..|events|] == events;
    LineIsPlain(events, |events|, Size);
    ResidueIff(events, |events|, Size);
    CStringInside(buffer, text);
  }

  /** It happens: two characters, a backspace and Enter. The line is the first character, and the
      shell takes both. */
  lemma ShellTakesErased(buffer: seq<char>, a: Event, b: Event, back: Event, enter: Event, Size: nat)
    requires Plain(a.ASCII) && !IsInterrupt(a) && Plain(b.ASCII) && !IsInterrupt(b) && Size > 2
    requires back.ASCII == BACKSPACE && enter.ASCII == '\n'
    requires Holds(buffer, [a.ASCII], Residue([a, b, back, enter], 4, Size), Size)
    ensures LineOf("", [a, b, back, enter], Size) == Entered([a.ASCII])
    ensures ShellLine(1, buffer) == Some([a.ASCII, b.ASCII])
  {
    var events := [a, b, back, enter];
    LineAtStep(events, 0, Size);
    LineAtStep(events, 1, Size);
    LineAtStep(events, 2, Size);
    LineAtStep(events, 3, Size);
    assert events[..4] == events && [a.ASCII] + [b.ASCII] == [a.ASCII, b.ASCII];
    assert Residue(events, 3, Size) == b.ASCII;
    assert buffer[..1] == [a.ASCII] && buffer[0] == buffer[..1][0] && buffer[1] == b.ASCII && buffer[2] == '\0';
    assert [a.ASCII, b.ASCII] <= buffer;
    CStringInside(buffer, [a.ASCII, b.ASCII]);
  }

  /** A character is left behind the text only if the text does not end at the last slot. */
  lemma {:induction false} ResidueHasRoom(events: seq<Event>, i: nat, Size: nat)
    requires i <= |events| && NoFullBackspace(events, i, Size)
    ensures Residue(events, i, Size) != '\0' ==> |LineAt(events, i, Size).text| + 1 < Size
    decreases i
  {
    if i > 0 {
      ResidueHasRoom(events, i - 1, Size);
      LineFits(events, i - 1, Size);
      LineAtStep(events, i - 1, Size);
      assert !FullBackspace(events, i - 1, Size);
    }
  }

  /** What the shell reads ends inside its buffer of Size slots exactly when the line is shorter than
      the buffer, provided that no write has left it. */
  lemma TerminatedIff(buffer: seq<char>, events: seq<Event>, Size: nat)
    requires PlainEvents(events) && NoFullBackspace(events, |events|, Size) && |buffer| == Size
    requires Holds(buffer, LineOf("", events, Size).text, Residue(events, |events|, Size), Size)
    ensures '\0' in buffer <==> |LineOf("", events, Size).text| < Size
  {
    var text := LineOf("", events, Size).text;
    assert events[..|events|] == events;
    LineIsPlain(events, |events|, Size);
    ResidueHasRoom(events, |events|, Size);
    if |text| < Size {
      assert buffer[Size - 1] == '\0';
    } else {
      assert buffer == text;
    }
  }

  /** A character that occupies one cell and can be erased again. */
  predicate Plain(c: char) { c != '\n' && c != '\r' && c != '\t' && c != BACKSPACE && 0 < c as int < 128 }

  predicate PlainText(s: string) { forall i :: 0 <= i < |s| ==> Plain(s[i]) }

  /** What the keyboard delivers, apart from tab. */
  predicate PlainEvents(events: seq<Event>) {
    forall i :: 0 <= i < |events| ==> Plain(events[i].ASCII) || events[i].ASCII == '\n' || events[i].ASCII == BACKSPACE
  }

  /** Every character of the keyboard other than tab is one the editor can echo and erase. */
  lemma KeyboardIsPlain(code: nat, shift: bool, caps: bool)
    ensures var c := Keyboard.InputScancodeToASCII(code, shift, caps);
      c == '\0' || c == '\t' || c == '\n' || c == BACKSPACE || Plain(c)
  {
    Keyboard.AsciiIffPrintable(code, shift, caps);
  }

  // ----- Echoing -----

  lemma {:induction false} EchoFits(t: Text, cols: nat, rows: nat, colour: FrameBuffer.Colour, s: string)
    requires 2 <= cols && 1 <= rows && Inv(t, cols, rows) && PlainText(s) && t.pos + |s| < cols * rows
    ensures PutAll(t, cols, rows, colour, s).Some?
    ensures var u := PutAll(t, cols, rows, colour, s).value;
      u.pos == t.pos + |s| && forall i :: 0 <= i < |u.cells| ==>
        u.cells[i] == if t.pos <= i < t.pos + |s| then Glyph(s[i - t.pos], colour) else t.cells[i]
    decreases |s|
  {
    if s != [] {
      var u := Put(t, cols, rows, colour, s[0]).value;
      EchoFits(u, cols, rows, colour, s[1..]);
    }
  }

  /** Backspace takes the last echoed character off the screen. */
  lemma EchoUndone(t: Text, cols: nat, rows: nat, colour: FrameBuffer.Colour, s: string, c: char)
    requires 2 <= cols && 1 <= rows && Inv(t, cols, rows) && PlainText(s) && Plain(c) && t.pos + |s| + 1 < cols * rows
    ensures PutAll(t, cols, rows, colour, s + [c]).Some? && PutAll(t, cols, rows, colour, s).Some?
    ensures PutAll(t, cols, rows, colour, s + [c]).value.pos > 0
    ensures Put(PutAll(t, cols, rows, colour, s + [c]).value, cols, rows, colour, BACKSPACE)
         == PutAll(t, cols, rows, colour, s)
  {
    EchoFits(t, cols, rows, colour, s);
    var u := PutAll(t, cols, rows, colour, s).value;
    PutAllConcat(t, cols, rows, colour, s, [c]);
    assert PutAll(u, cols, rows, colour, [c]) == Put(u, cols, rows, colour, c) by {
      assert [c][1..] == [];
    }
    BackspaceUndoes(u, cols, rows, colour, c);
  }

  /** The screen shows the string s echoed from the text t, in one colour. */
  ghost predicate Echoes(term: Terminal, t: Text, colour: FrameBuffer.Colour, s: string)
    reads term, term.fb.Base
  {
    && term.Valid() && term.Colour() == colour
    && Inv(t, term.Columns(), term.Rows())
    && PutAll(t, term.Columns(), term.Rows(), colour, s) == Some(term.Text())
  }

  method Echo(term: Terminal, c: char, ghost t: Text, ghost colour: FrameBuffer.Colour, ghost s: string)
    requires Echoes(term, t, colour, s) && c != BACKSPACE && 0 < c as int < 128
    modifies term`Position, term`TextColour, term`TextColourInit, term`Cells, term.fb.Base
    ensures Echoes(term, t, colour, s + [c])
  {
    ghost var u := term.Text();
    term.TerminalPutChar(c);
    PutAllConcat(t, term.Columns(), term.Rows(), colour, s, [c]);
    assert [c][1..] == [];
    assert PutAll(u, term.Columns(), term.Rows(), colour, [c]) == Put(u, term.Columns(), term.Rows(), colour, c);
  }

  /** The line still fits on the screen with one more character. */
  ghost predicate Fits(term: Terminal, t: Text, n: nat) {
    t.pos + n < term.Columns() * term.Rows()
  }

  method Erase(term: Terminal, ghost t: Text, ghost colour: FrameBuffer.Colour, ghost s: string, ghost c: char)
    requires Echoes(term, t, colour, s + [c]) && PlainText(s) && Plain(c) && Fits(term, t, |s| + 1)
    modifies term`Position, term`TextColour, term`TextColourInit, term`Cells, term.fb.Base
    ensures Echoes(term, t, colour, s) && term.Position == old(term.Position) - 1
  {
    EchoUndone(t, term.Columns(), term.Rows(), colour, s, c);
    term.TerminalPutChar(BACKSPACE);
  }

  /** The Ctrl-C loop: erase until the cursor is back at its position after the prompt. */
  method EraseLine(term: Terminal, StartPosition: nat, ghost t: Text, ghost colour: FrameBuffer.Colour, ghost s: string)
    requires Echoes(term, t, colour, s) && PlainText(s) && s != [] && Fits(term, t, |s|)
    requires StartPosition == t.pos + 1
    modifies term`Position, term`TextColour, term`TextColourInit, term`Cells, term.fb.Base
    ensures Echoes(term, t, colour, s[..1])
  {
    EchoFits(t, term.Columns(), term.Rows(), colour, s);
    ghost var n := |s|;
    assert s[..n] == s;
    while term.Position != StartPosition
      invariant 1 <= n <= |s| && term.Position == t.pos + n && Echoes(term, t, colour, s[..n])
      decreases n
    {
      assert s[..n] == s[..n - 1] + [s[n - 1]];
      Erase(term, t, colour, s[..n - 1], s[n - 1]);
      n := n - 1;
    }
  }

  const TOO_LONG: string := "\t[err: prompt too long]\n"

  method EchoString(term: Terminal, m: string, ghost t: Text, ghost colour: FrameBuffer.Colour, ghost s: string)
    requires Echoes(term, t, colour, s) && forall i :: 0 <= i < |m| ==> m[i] != BACKSPACE && 0 < m[i] as int < 128
    modifies term`Position, term`TextColour, term`TextColourInit, term`Cells, term.fb.Base
    ensures Echoes(term, t, colour, s + m)
  {
    assert s + m[..0] == s;
    for i := 0 to |m|
      invariant Echoes(term, t, colour, s + m[..i])
    {
      assert s + m[..i + 1] == (s + m[..i]) + [m[i]];
      Echo(term, m[i], t, colour, s + m[..i]);
    }
    assert m[..|m|] == m;
  }

  method ZeroBuffer(OutBuffer: array<char>, Size: nat)
    requires Size <= OutBuffer.Length
    modifies OutBuffer
    ensures forall i :: 0 <= i < OutBuffer.Length ==> OutBuffer[i] == if i < Size then '\0' else old(OutBuffer[i])
  {
    for i := 0 to Size
      invariant forall k :: 0 <= k < OutBuffer.Length ==> OutBuffer[k] == if k < i then '\0' else old(OutBuffer[k])
    {
      OutBuffer[i] := '\0';
    }
  }

  /** The screen while a line is edited, with room for a text of n characters: the text and the
      prompt's underscore. */
  ghost predicate Shows(term: Terminal, t: Text, colour: FrameBuffer.Colour, text: string, n: nat)
    reads term, term.fb.Base
  {
    Echoes(term, t, colour, text + "_") && PlainText(text) && |text| <= n && Fits(term, t, n + 2)
  }

  /** Backspace on a line that is not empty. */
  method DeleteLast(term: Terminal, ghost t: Text, ghost colour: FrameBuffer.Colour, ghost text: string, ghost n: nat)
    requires Shows(term, t, colour, text, n) && text != []
    modifies term`Position, term`TextColour, term`TextColourInit, term`Cells, term.fb.Base
    ensures Shows(term, t, colour, text[..|text| - 1], n)
  {
    ghost var k := |text| - 1;
    Erase(term, t, colour, text, '_');
    assert text == text[..k] + [text[k]];
    Erase(term, t, colour, text[..k], text[k]);
    Echo(term, '_', t, colour, text[..k]);
  }

  /** Ctrl-C: the whole line goes, the prompt stays. */
  method ClearLine(term: Terminal, StartPosition: nat, ghost t: Text, ghost colour: FrameBuffer.Colour,
                   ghost text: string, ghost n: nat)
    requires Shows(term, t, colour, text, n) && StartPosition == t.pos + 1
    modifies term`Position, term`TextColour, term`TextColourInit, term`Cells, term.fb.Base
    ensures Shows(term, t, colour, "", n)
  {
    ghost var s := text + "_";
    EraseLine(term, StartPosition, t, colour, s);
    assert s[..1] == [] + [s[0]];
    Erase(term, t, colour, [], s[0]);
    Echo(term, '_', t, colour, []);
    assert [] + ['_'] == "" + "_";
  }

  /** A character at the end of the line. */
  method Append(term: Terminal, c: char, ghost t: Text, ghost colour: FrameBuffer.Colour, ghost text: string,
                ghost n: nat)
    requires Shows(term, t, colour, text, n) && Plain(c) && |text| < n
    modifies term`Position, term`TextColour, term`TextColourInit, term`Cells, term.fb.Base
    ensures Shows(term, t, colour, text + [c], n)
  {
    Erase(term, t, colour, text, '_');
    Echo(term, c, t, colour, text);
    Echo(term, '_', t, colour, text + [c]);
  }

  method Finish(term: Terminal, ghost t: Text, ghost colour: FrameBuffer.Colour, ghost text: string, ghost n: nat)
    requires Shows(term, t, colour, text, n)
    modifies term`Position, term`TextColour, term`TextColourInit, term`Cells, term.fb.Base
    ensures Echoes(term, t, colour, text + "\n")
  {
    Erase(term, t, colour, text, '_');
    Echo(term, '\n', t, colour, text);
  }

  /** A character too many. */
  method Reject(term: Terminal, ghost t: Text, ghost colour: FrameBuffer.Colour, ghost text: string, ghost n: nat)
    requires Shows(term, t, colour, text, n)
    modifies term`Position, term`TextColour, term`TextColourInit, term`Cells, term.fb.Base
    ensures Echoes(term, t, colour, text + "_" + TOO_LONG)
  {
    TooLongPrintable(TOO_LONG);
    EchoString(term, TOO_LONG, t, colour, text + "_");
  }

  lemma TooLongPrintable(m: string)
    requires m == TOO_LONG
    ensures forall i :: 0 <= i < |m| ==> m[i] != BACKSPACE && 0 < m[i] as int < 128
  {
  }

  /** The prompt on an empty line. */
  method Prompt(term: Terminal, ghost n: nat)
    requires term.Valid() && Fits(term, term.Text(), n + 2)
    modifies term`Position, term`TextColour, term`TextColourInit, term`Cells, term.fb.Base
    ensures Shows(term, old(term.Text()), old(term.Colour()), "", n) && term.Position == old(term.Position) + 1
  {
    ghost var t, colour := term.Text(), term.Colour();
    assert Echoes(term, t, colour, "");
    Echo(term, '_', t, colour, "");
    EchoFits(t, term.Columns(), term.Rows(), colour, "_");
    assert "" + ['_'] == "" + "_" == "_";
  }

  /** What the screen shows for a line, by how the line ended. */
  function Display(line: Line): string {
    match line
    case Editing(text) => text + "_"
    case Entered(text) => text + "\n"
    case TooLong(text) => text + "_" + TOO_LONG
  }

  lemma Displays(text: string)
    ensures Display(Editing(text)) == text + "_" && Display(Entered(text)) == text + "\n"
    ensures Display(TooLong(text)) == text + "_\t[err: prompt too long]\n"
  {
    assert text + "_" + TOO_LONG == text + ("_" + TOO_LONG);
    assert "_" + TOO_LONG == "_\t[err: prompt too long]\n";
  }

  /** No line on the way is longer than n characters. */
  ghost predicate Bounded(events: seq<Event>, Size: nat, n: nat) {
    forall i :: 0 <= i <= |events| && LineAt(events, i, Size).Editing? ==> |LineAt(events, i, Size).text| <= n
  }

  /** The buffer while a line is edited. */
  ghost predicate Buffers(OutBuffer: array<char>, text: string, residue: char, Size: nat)
    reads OutBuffer
  {
    Holds(OutBuffer[..], text, residue, Size)
  }

  method RemoveLast(OutBuffer: array<char>, Index: nat, ghost text: string, ghost residue: char, ghost Size: nat)
    requires Buffers(OutBuffer, text, residue, Size) && Index == |text| > 0 && Index < OutBuffer.Length
    modifies OutBuffer
    ensures Buffers(OutBuffer, text[..Index - 1], text[Index - 1], Size)
    ensures forall k :: Size <= k < OutBuffer.Length ==> OutBuffer[k] == if k == Index then '\0' else old(OutBuffer[k])
  {
    OutBuffer[Index] := '\0';
  }

  method StoreNext(OutBuffer: array<char>, Index: nat, c: char, ghost text: string, ghost residue: char,
                   ghost Size: nat)
    requires Buffers(OutBuffer, text, residue, Size) && Index == |text| < Size
    modifies OutBuffer
    ensures Buffers(OutBuffer, text + [c], '\0', Size)
    ensures forall k :: Size <= k < OutBuffer.Length ==> OutBuffer[k] == old(OutBuffer[k])
  {
    OutBuffer[Index] := c;
    assert OutBuffer[..Index + 1] == text + [c];
  }

  /** The slots after the first Size: the one that a backspace on a full line zeroes, and the rest. */
  ghost predicate Beyond(now: seq<char>, before: seq<char>, events: seq<Event>, i: nat, Size: nat)
    requires i <= |events| && |now| == |before|
  {
    forall k :: Size <= k < |now| ==>
      now[k] == if k == Size && !NoFullBackspace(events, i, Size) then '\0' else before[k]
  }

  /** The residue after an edit. */
  function ResidueStep(text: string, residue: char, e: Event): char {
    if e.ASCII != BACKSPACE then '\0' else if text == [] then residue else text[|text| - 1]
  }

  /** The branches of the loop that go on reading. */
  method Edit(term: Terminal, OutBuffer: array<char>, StartPosition: nat, Index: nat, e: Event, Size: nat,
              ghost t: Text, ghost colour: FrameBuffer.Colour, ghost text: string, ghost residue: char, ghost n: nat)
    returns (Index': nat)
    requires Shows(term, t, colour, text, n) && StartPosition == t.pos + 1
    requires Buffers(OutBuffer, text, residue, Size) && Index == |text| && term.fb.Base as object != OutBuffer
    requires EditStep(text, e, Size).Editing? && |EditStep(text, e, Size).text| <= n
    requires e.ASCII == BACKSPACE || Plain(e.ASCII)
    requires e.ASCII == BACKSPACE && text != [] ==> Index < OutBuffer.Length
    modifies term`Position, term`TextColour, term`TextColourInit, term`Cells, term.fb.Base, OutBuffer
    ensures var text' := EditStep(text, e, Size).text;
      && Shows(term, t, colour, text', n) && Index' == |text'|
      && Buffers(OutBuffer, text', ResidueStep(text, residue, e), Size)
    ensures forall k :: Size <= k < OutBuffer.Length ==>
      OutBuffer[k] == if k == Index && e.ASCII == BACKSPACE && text != [] then '\0' else old(OutBuffer[k])
  {
    Index' := Index;
    if e.ASCII == BACKSPACE {
      if Index > 0 {
        RemoveLast(OutBuffer, Index, text, residue, Size);
        Index' := Index - 1;
        DeleteLast(term, t, colour, text, n);
      }
    } else if IsInterrupt(e) {
      ZeroBuffer(OutBuffer, Size);
      ClearLine(term, StartPosition, t, colour, text, n);
      Index' := 0;
    } else {
      StoreNext(OutBuffer, Index, e.ASCII, text, residue, Size);
      Index' := Index + 1;
      Append(term, e.ASCII, t, colour, text, n);
    }
  }

  /** What holds at the head of the loop: the screen, the buffer and the slots behind it agree with
      the line after i events. */
  ghost predicate Reading(term: Terminal, OutBuffer: array<char>, t: Text, colour: FrameBuffer.Colour, n: nat,
                          before: seq<char>, events: seq<Event>, i: nat, Size: nat, text: string)
    requires i <= |events| && |before| == OutBuffer.Length
    reads term, term.fb.Base, OutBuffer
  {
    && Shows(term, t, colour, text, n) && LineAt(events, i, Size) == Editing(text)
    && Buffers(OutBuffer, text, Residue(events, i, Size), Size)
    && Beyond(OutBuffer[..], before, events, i, Size)
  }

  method EditEvent(term: Terminal, OutBuffer: array<char>, StartPosition: nat, Index: nat, Size: nat,
                   events: seq<Event>,
                   i: nat, ghost t: Text, ghost colour: FrameBuffer.Colour, ghost n: nat, ghost before: seq<char>,
                   ghost text: string)
    returns (Index': nat)
    requires i < |events| && |before| == OutBuffer.Length && term.fb.Base as object != OutBuffer
    requires Reading(term, OutBuffer, t, colour, n, before, events, i, Size, text)
    requires StartPosition == t.pos + 1 && Index == |text| && PlainEvents(events) && Bounded(events, Size, n)
    requires EditStep(text, events[i], Size).Editing?
    requires Size == OutBuffer.Length ==> NoFullBackspace(events, |events|, Size)
    modifies term`Position, term`TextColour, term`TextColourInit, term`Cells, term.fb.Base, OutBuffer
    ensures var text' := EditStep(text, events[i], Size).text;
      Reading(term, OutBuffer, t, colour, n, before, events, i + 1, Size, text') && Index' == |text'|
  {
    ghost var residue, now := Residue(events, i, Size), OutBuffer[..];
    LineAtStep(events, i, Size);
    assert Size == OutBuffer.Length ==> !FullBackspace(events, i, Size);
    Index' := Edit(term, OutBuffer, StartPosition, Index, events[i], Size, t, colour, text, residue, n);
    assert Residue(events, i + 1, Size) == ResidueStep(text, residue, events[i]);
    BeyondEdit(now, OutBuffer[..], before, events, i, Size, text);
  }

  lemma BeyondEdit(now: seq<char>, after: seq<char>, before: seq<char>, events: seq<Event>, i: nat, Size: nat,
                   text: string)
    requires i < |events| && |now| == |before| == |after| && Beyond(now, before, events, i, Size)
    requires LineAt(events, i, Size) == Editing(text) && |text| <= Size
    requires forall k :: Size <= k < |now| ==>
      after[k] == if k == |text| && events[i].ASCII == BACKSPACE && text != [] then '\0' else now[k]
    ensures Beyond(after, before, events, i + 1, Size)
  {
    BeyondStep(now, before, events, i, Size);
  }

  /** InputReadLine over the character events delivered to it; Editing means that it is still
      waiting. Writing stays inside the buffer by WritesInsideIff; n is the room for the line on the
      screen, counted from the prompt. */
  method InputReadLine(term: Terminal, OutBuffer: array<char>, Size: nat, events: seq<Event>, ghost n: nat)
    returns (line: Line, length: nat)
    requires term.Valid() && PlainEvents(events)
    requires Size <= OutBuffer.Length && (Size == OutBuffer.Length ==> NoFullBackspace(events, |events|, Size))
    requires Bounded(events, Size, n) && Fits(term, term.Text(), n + 2)
    requires term.fb.Base as object != OutBuffer
    modifies term`Position, term`TextColour, term`TextColourInit, term`Cells, term.fb.Base, OutBuffer
    ensures line == LineOf("", events, Size)
    ensures !line.TooLong? ==> length == |line.text| <= Size
    ensures !line.TooLong? ==> Buffers(OutBuffer, line.text, Residue(events, |events|, Size), Size)
    ensures line.TooLong? ==> length == 0
    ensures Beyond(OutBuffer[..], old(OutBuffer[..]), events, |events|, Size)
    ensures Echoes(term, old(term.Text()), old(term.Colour()), Display(line))
  {
    ghost var t, colour, before := term.Text(), term.Colour(), OutBuffer[..];
    ZeroBuffer(OutBuffer, Size);
    Prompt(term, n);
    var Index := 0;
    var StartPosition := term.Position;
    ghost var text := "";
    for i := 0 to |events|
      invariant Reading(term, OutBuffer, t, colour, n, before, events, i, Size, text)
      invariant StartPosition == t.pos + 1 && Index == |text|
    {
      var e := events[i];
      if e.ASCII == '\n' {
        Finish(term, t, colour, text, n);
        Stopped(OutBuffer[..], before, events, i, Size, text);
        return Entered(OutBuffer[..Index]), Index;
      } else if e.ASCII == BACKSPACE || IsInterrupt(e) || Index < Size {
        Index := EditEvent(term, OutBuffer, StartPosition, Index, Size, events, i, t, colour, n, before, text);
        text := EditStep(text, e, Size).text;
      } else {
        Reject(term, t, colour, text, n);
        Stopped(OutBuffer[..], before, events, i, Size, text);
        return TooLong(OutBuffer[..Index]), 0;
      }
    }
    assert events[..|events|] == events;
    return Editing(OutBuffer[..Index]), Index;
  }

  /** Only a backspace on a full line changes what is expected beyond the first Size slots. */
  lemma BeyondStep(now: seq<char>, before: seq<char>, events: seq<Event>, i: nat, Size: nat)
    requires i < |events| && |now| == |before| && Beyond(now, before, events, i, Size)
    ensures !FullBackspace(events, i, Size) ==> Beyond(now, before, events, i + 1, Size)
    ensures NoFullBackspace(events, i + 1, Size)
       <==> NoFullBackspace(events, i, Size) && !FullBackspace(events, i, Size)
  {
  }

  /** After the last event that is read, nothing counts. */
  lemma Stopped(now: seq<char>, before: seq<char>, events: seq<Event>, i: nat, Size: nat, text: string)
    requires i < |events| && |now| == |before| && Beyond(now, before, events, i, Size)
    requires LineAt(events, i, Size) == Editing(text) && !EditStep(text, events[i], Size).Editing?
    ensures Beyond(now, before, events, |events|, Size)
    ensures LineOf("", events, Size) == EditStep(text, events[i], Size)
    ensures Residue(events, |events|, Size) == Residue(events, i, Size)
  {
    LineAtStep(events, i, Size);
    BeyondStep(now, before, events, i, Size);
    assert events[..|events|] == events;
    LineStays(events, i + 1, |events|, Size);
    forall j | i + 1 <= j < |events| ensures !FullBackspace(events, j, Size) { LineStays(events, i + 1, j, Size); }
    ResidueStays(events, i + 1, |events|, Size);
  }

  lemma {:induction false} ResidueStays(events: seq<Event>, i: nat, j: nat, Size: nat)
    requires i <= j <= |events| && !LineAt(events, i, Size).Editing?
    ensures Residue(events, j, Size) == Residue(events, i, Size)
    decreases j
  {
    if i < j {
      ResidueStays(events, i, j - 1, Size);
      LineStays(events, i, j - 1, Size);
    }
  }
}
