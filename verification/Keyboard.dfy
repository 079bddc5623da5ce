/** From full-state keyboard reports to press and release events (system/kernel/Input.c). */
module Keyboard {
  import opened EventQueue
  import opened Options

  const SCANCODE_KEY_CAPSLOCK: nat := 0x39
  const SCANCODE_KEY_DELETE: nat := 0x4C
  const SCANCODE_KEY_CONTROL: nat := 0xE0
  const SCANCODE_KEY_SHIFT: nat := 0xE1
  const SCANCODE_KEY_ALT: nat := 0xE2
  const SCANCODE_KEY_COUNT: nat := 0xE3
  const SCANCODES_PER_EVENT: nat := 6

  datatype Report = Report(
    LeftCtrl: bool, LeftShift: bool, LeftAlt: bool, RightCtrl: bool, RightShift: bool, RightAlt: bool,
    KeyCode: seq<nat>)
  {
    predicate Valid() { |KeyCode| == SCANCODES_PER_EVENT && forall i :: 0 <= i < |KeyCode| ==> KeyCode[i] < 256 }
  }

  // ----- Characters -----

  const LETTERS: string := "abcdefghijklmnopqrstuvwxyz"
  const CAPITALS: string := "ABCDEFGHIJKLMNOPQRSTUVWXYZ"
  const DIGITS: string := "1234567890"
  const SHIFTED_DIGITS: string := "!@#$%^&*()"
  const SYMBOLS: string := "-=[]\\"
  const SHIFTED_SYMBOLS: string := "_+{}|"
  const PUNCTUATION: string := ";'`,./"
  const SHIFTED_PUNCTUATION: string := ":\"~<>?"

  /** Shift picks the symbol of a key; shift and caps lock together pick the case of a letter. */
  function InputScancodeToASCII(Code: nat, Shift: bool, CapsLock: bool): char {
    if 0x04 <= Code <= 0x1D then if Shift != CapsLock then CAPITALS[Code - 0x04] else LETTERS[Code - 0x04]
    else if 0x1E <= Code <= 0x27 then if Shift then SHIFTED_DIGITS[Code - 0x1E] else DIGITS[Code - 0x1E]
    else if 0x2D <= Code <= 0x31 then if Shift then SHIFTED_SYMBOLS[Code - 0x2D] else SYMBOLS[Code - 0x2D]
    else if 0x33 <= Code <= 0x38 then if Shift then SHIFTED_PUNCTUATION[Code - 0x33] else PUNCTUATION[Code - 0x33]
    else if Code == 0x2C then ' '
    else if Code == 0x28 then '\n'
    else if Code == 0x2B then '\t'
    else if Code == 0x2A then '\U{08}'
    else '\0'
  }

  /** The keys that type a visible character or a space. */
  predicate InputScancodeIsASCII(code: nat) {
    0x04 <= code <= 0x1D || 0x1E <= code <= 0x27 || 0x2D <= code <= 0x31 || 0x33 <= code <= 0x38 || code == 0x2C
  }

  /** Exactly the ASCII keys give printable characters, whatever the modifiers. */
  lemma AsciiIffPrintable(code: nat, shift: bool, caps: bool)
    ensures InputScancodeIsASCII(code) <==> 32 <= InputScancodeToASCII(code, shift, caps) as int < 127
  {
    if 0x04 <= code <= 0x1D {
      assert forall i :: 0 <= i < 26 ==> LETTERS[i] as int == 97 + i && CAPITALS[i] as int == 65 + i;
    }
  }

  /** The letters in alphabetical order from key 0x04 on, capitals when exactly one of shift and caps
      lock is on. On no other key does caps lock matter. */
  lemma LettersAndCaps(code: nat, shift: bool, caps: bool)
    ensures 0x04 <= code <= 0x1D ==>
      InputScancodeToASCII(code, shift, caps) as int == (if shift != caps then 65 else 97) + (code - 4)
    ensures !(0x04 <= code <= 0x1D) ==>
      InputScancodeToASCII(code, shift, caps) == InputScancodeToASCII(code, shift, !caps)
  {
    assert forall i :: 0 <= i < 26 ==> LETTERS[i] as int == 97 + i && CAPITALS[i] as int == 65 + i;
  }

  /** The other keys: the characters on their caps, without and with shift. */
  lemma KeyCaps(caps: bool, i: nat)
    ensures i < 10 ==>
      && InputScancodeToASCII(0x1E + i, false, caps) == "1234567890"[i]
      && InputScancodeToASCII(0x1E + i, true, caps) == "!@#$%^&*()"[i]
    ensures i < 5 ==>
      && InputScancodeToASCII(0x2D + i, false, caps) == "-=[]\\"[i]
      && InputScancodeToASCII(0x2D + i, true, caps) == "_+{}|"[i]
    ensures i < 6 ==>
      && InputScancodeToASCII(0x33 + i, false, caps) == ";'`,./"[i]
      && InputScancodeToASCII(0x33 + i, true, caps) == ":\"~<>?"[i]
  {
  }

  /** Enter, backspace, tab and space do not depend on the modifiers, and all remaining keys type nothing. */
  lemma OtherKeys(code: nat, shift: bool, caps: bool)
    ensures InputScancodeToASCII(code, shift, caps) == '\n' <==> code == 0x28
    ensures InputScancodeToASCII(code, shift, caps) == '\U{08}' <==> code == 0x2A
    ensures InputScancodeToASCII(code, shift, caps) == '\t' <==> code == 0x2B
    ensures InputScancodeToASCII(code, shift, caps) == ' ' <==> code == 0x2C
    ensures InputScancodeToASCII(code, shift, caps) == '\0' <==>
      !(0x04 <= code <= 0x28 || 0x2A <= code <= 0x31 || 0x33 <= code <= 0x38)
  {
    AsciiIffPrintable(code, shift, caps);
  }

  /** The key that types a character which is no letter, and whether with shift. */
  function KeyTyping(c: char): Option<(nat, bool)> {
    match c
    case '1' => Some((0x1E, false)) case '!' => Some((0x1E, true))
    case '2' => Some((0x1F, false)) case '@' => Some((0x1F, true))
    case '3' => Some((0x20, false)) case '#' => Some((0x20, true))
    case '4' => Some((0x21, false)) case '$' => Some((0x21, true))
    case '5' => Some((0x22, false)) case '%' => Some((0x22, true))
    case '6' => Some((0x23, false)) case '^' => Some((0x23, true))
    case '7' => Some((0x24, false)) case '&' => Some((0x24, true))
    case '8' => Some((0x25, false)) case '*' => Some((0x25, true))
    case '9' => Some((0x26, false)) case '(' => Some((0x26, true))
    case '0' => Some((0x27, false)) case ')' => Some((0x27, true))
    case '-' => Some((0x2D, false)) case '_' => Some((0x2D, true))
    case '=' => Some((0x2E, false)) case '+' => Some((0x2E, true))
    case '[' => Some((0x2F, false)) case '{' => Some((0x2F, true))
    case ']' => Some((0x30, false)) case '}' => Some((0x30, true))
    case '\\' => Some((0x31, false)) case '|' => Some((0x31, true))
    case ';' => Some((0x33, false)) case ':' => Some((0x33, true))
    case '\'' => Some((0x34, false)) case '"' => Some((0x34, true))
    case '`' => Some((0x35, false)) case '~' => Some((0x35, true))
    case ',' => Some((0x36, false)) case '<' => Some((0x36, true))
    case '.' => Some((0x37, false)) case '>' => Some((0x37, true))
    case '/' => Some((0x38, false)) case '?' => Some((0x38, true))
    case _ => None
  }

  /** The keyboard and that table are inverse to each other. */
  lemma KeyTypingInverse(code: nat, shift: bool, caps: bool, c: char)
    requires 33 <= c as int < 127 && !('a' <= c <= 'z') && !('A' <= c <= 'Z')
    ensures InputScancodeToASCII(code, shift, caps) == c <==> KeyTyping(c) == Some((code, shift))
  {
    if 0x04 <= code <= 0x1D {
      LettersAndCaps(code, shift, caps);
    } else if 0x1E <= code <= 0x27 {
      DigitKeys(code, shift, caps, c);
    } else {
      SymbolKeys(code, shift, caps, c);
    }
  }

  lemma DigitKeys(code: nat, shift: bool, caps: bool, c: char)
    ensures 0x1E <= code <= 0x27 ==>
      (InputScancodeToASCII(code, shift, caps) == c <==> KeyTyping(c) == Some((code, shift)))
  {
  }

  lemma SymbolKeys(code: nat, shift: bool, caps: bool, c: char)
    ensures 0x2D <= code <= 0x31 || 0x33 <= code <= 0x38 ==>
      (InputScancodeToASCII(code, shift, caps) == c <==> KeyTyping(c) == Some((code, shift)))
  {
  }

  // ----- What a report says -----

  /** A key code counts if no zero precedes it in the report. */
  ghost predicate Listed(r: Report, n: nat, code: nat)
    requires r.Valid() && n <= SCANCODES_PER_EVENT
  {
    exists i :: 0 <= i < n && r.KeyCode[i] == code && forall j :: 0 <= j <= i ==> r.KeyCode[j] != SCANCODE_KEY_NONE
  }

  ghost predicate ReportsDown(r: Report, code: nat)
    requires r.Valid()
  {
    if code == SCANCODE_KEY_SHIFT then r.LeftShift || r.RightShift
    else if code == SCANCODE_KEY_ALT then r.LeftAlt || r.RightAlt
    else if code == SCANCODE_KEY_CONTROL then r.LeftCtrl || r.RightCtrl
    else Listed(r, SCANCODES_PER_EVENT, code)
  }

  /** A modifier is down when the report has it on either side; any other key when it is in the list
      before the first zero. */
  lemma DownMeans(r: Report, code: nat)
    requires r.Valid()
    ensures code == 0xE0 ==> (ReportsDown(r, code) <==> r.LeftCtrl || r.RightCtrl)
    ensures code == 0xE1 ==> (ReportsDown(r, code) <==> r.LeftShift || r.RightShift)
    ensures code == 0xE2 ==> (ReportsDown(r, code) <==> r.LeftAlt || r.RightAlt)
    ensures !(0xE0 <= code <= 0xE2) ==>
      (ReportsDown(r, code) <==> exists i :: 0 <= i < 6 && r.KeyCode[i] == code && 0 !in r.KeyCode[..i + 1])
  {
    if ReportsDown(r, code) && !(0xE0 <= code <= 0xE2) {
      var i :| 0 <= i < 6 && r.KeyCode[i] == code && forall j :: 0 <= j <= i ==> r.KeyCode[j] != SCANCODE_KEY_NONE;
      assert 0 !in r.KeyCode[..i + 1];
    }
    if !(0xE0 <= code <= 0xE2) {
      if i :| 0 <= i < 6 && r.KeyCode[i] == code && 0 !in r.KeyCode[..i + 1] {
        forall j | 0 <= j <= i ensures r.KeyCode[j] != SCANCODE_KEY_NONE {
          assert r.KeyCode[..i + 1][j] == r.KeyCode[j];
        }
        assert Listed(r, 6, code);
      }
    }
  }

  // ----- Histories -----

  /** The press (true) and release (false) events of one key, in order. */
  function EdgesOf(log: seq<(nat, bool)>, code: nat): seq<bool> {
    if log == [] then []
    else EdgesOf(log[..|log| - 1], code) + (if log[|log| - 1].0 == code then [log[|log| - 1].1] else [])
  }

  /** Press, release, press, release, ... */
  ghost predicate Alternates(s: seq<bool>) {
    forall i :: 0 <= i < |s| ==> (s[i] <==> i % 2 == 0)
  }

  function Presses(s: seq<bool>): nat {
    if s == [] then 0 else Presses(s[..|s| - 1]) + if s[|s| - 1] then 1 else 0
  }

  /** Presses minus releases is the key's state. */
  lemma {:induction false} AlternatingBalance(s: seq<bool>)
    requires Alternates(s)
    ensures Presses(s) - (|s| - Presses(s)) == |s| % 2
  {
    if s != [] { AlternatingBalance(s[..|s| - 1]); }
  }

  lemma EdgeAppended(log: seq<(nat, bool)>, code: nat, pressed: bool, c: nat)
    ensures EdgesOf(log + [(code, pressed)], c) == EdgesOf(log, c) + (if c == code then [pressed] else [])
  {
    var l := log + [(code, pressed)];
    assert l[..|l| - 1] == log;
  }

  lemma CapsPresses(log: seq<(nat, bool)>, code: nat, pressed: bool)
    ensures Presses(EdgesOf(log + [(code, pressed)], SCANCODE_KEY_CAPSLOCK))
         == Presses(EdgesOf(log, SCANCODE_KEY_CAPSLOCK)) + if code == SCANCODE_KEY_CAPSLOCK && pressed then 1 else 0
  {
    EdgeAppended(log, code, pressed, SCANCODE_KEY_CAPSLOCK);
    var s := EdgesOf(log, SCANCODE_KEY_CAPSLOCK);
    assert (s + [pressed])[..|s|] == s && s + [] == s;
  }

  lemma CapsFlips(log: seq<(nat, bool)>, code: nat, pressed: bool)
    ensures Presses(EdgesOf(log + [(code, pressed)], SCANCODE_KEY_CAPSLOCK)) % 2 == 1
       <==> (Presses(EdgesOf(log, SCANCODE_KEY_CAPSLOCK)) % 2 == 1) != (code == SCANCODE_KEY_CAPSLOCK && pressed)
  {
    CapsPresses(log, code, pressed);
    OddSuccessor(Presses(EdgesOf(log, SCANCODE_KEY_CAPSLOCK)));
  }

  lemma OddSuccessor(n: nat)
    ensures (n + 1) % 2 == 1 <==> n % 2 != 1
  {
  }

  /** The edges a report causes, in scan code order. */
  function Edges(was: seq<bool>, now: seq<bool>, n: nat): seq<(nat, bool)>
    requires n <= |was| && n <= |now|
    decreases |was|, n
  {
    if n == 0 then []
    else Edges(was, now, n - 1) + (if was[n - 1] == now[n - 1] then [] else [(n - 1, now[n - 1])])
  }

  /** The events for the edges of one kind; they all carry the tick and modifiers of the report. */
  function Events(was: seq<bool>, now: seq<bool>, n: nat, pressed: bool, tick: nat, caps: bool): seq<Event>
    requires n <= |was| && n <= |now| && SCANCODE_KEY_COUNT <= |now|
    decreases |was|, n
  {
    if n == 0 then []
    else
      Events(was, now, n - 1, pressed, tick, caps)
      + (if was[n - 1] != now[n - 1] && now[n - 1] == pressed then [EventFor(n - 1, now, tick, caps)] else [])
  }

  function EventFor(code: nat, now: seq<bool>, tick: nat, caps: bool): Event
    requires SCANCODE_KEY_COUNT <= |now|
  {
    Event(tick, code, InputScancodeToASCII(code, now[SCANCODE_KEY_SHIFT], caps),
          now[SCANCODE_KEY_SHIFT], now[SCANCODE_KEY_ALT], now[SCANCODE_KEY_CONTROL])
  }

  /** The events are those of keys whose flag has changed to the given value, with the tick, the modifiers
      and the character of the report. */
  lemma {:induction false} EventsAre(was: seq<bool>, now: seq<bool>, n: nat, pressed: bool, tick: nat, caps: bool,
                                     i: nat)
    requires n <= 0xE3 <= |was| && 0xE3 <= |now| && i < |Events(was, now, n, pressed, tick, caps)|
    ensures var e := Events(was, now, n, pressed, tick, caps)[i];
      && e.ScanCode < n && was[e.ScanCode] != now[e.ScanCode] && now[e.ScanCode] == pressed
      && e.TickCount == tick && e.ASCII == InputScancodeToASCII(e.ScanCode, now[0xE1], caps)
      && e.Control == now[0xE0] && e.Shift == now[0xE1] && e.Alt == now[0xE2]
  {
    if i < |Events(was, now, n - 1, pressed, tick, caps)| {
      EventsAre(was, now, n - 1, pressed, tick, caps, i);
    }
  }

  /** They come in the order of the keys. */
  lemma {:induction false} EventsAscend(was: seq<bool>, now: seq<bool>, n: nat, pressed: bool, tick: nat, caps: bool,
                                        i: nat, j: nat)
    requires n <= 0xE3 <= |was| && 0xE3 <= |now| && i < j < |Events(was, now, n, pressed, tick, caps)|
    ensures var es := Events(was, now, n, pressed, tick, caps); es[i].ScanCode < es[j].ScanCode
  {
    if j < |Events(was, now, n - 1, pressed, tick, caps)| {
      EventsAscend(was, now, n - 1, pressed, tick, caps, i, j);
    } else {
      EventsAre(was, now, n - 1, pressed, tick, caps, i);
    }
  }

  /** Every such key has its event. */
  lemma {:induction false} EventsComplete(was: seq<bool>, now: seq<bool>, n: nat, pressed: bool, tick: nat, caps: bool,
                                          c: nat)
    requires n <= 0xE3 <= |was| && 0xE3 <= |now| && c < n && was[c] != now[c] && now[c] == pressed
    ensures exists e :: e in Events(was, now, n, pressed, tick, caps) && e.ScanCode == c
  {
    var es := Events(was, now, n, pressed, tick, caps);
    if c < n - 1 {
      EventsComplete(was, now, n - 1, pressed, tick, caps, c);
      var e :| e in Events(was, now, n - 1, pressed, tick, caps) && e.ScanCode == c;
      assert e in es;
    } else {
      assert es[|es| - 1] in es;
    }
  }

  /** A report flips caps lock exactly when it presses its key. */
  lemma {:induction false} CapsAfter(log: seq<(nat, bool)>, was: seq<bool>, now: seq<bool>, n: nat)
    requires n <= 0xE3 <= |was| && 0xE3 <= |now|
    ensures Presses(EdgesOf(log + Edges(was, now, n), SCANCODE_KEY_CAPSLOCK))
         == Presses(EdgesOf(log, SCANCODE_KEY_CAPSLOCK)) + if n > 0x39 && !was[0x39] && now[0x39] then 1 else 0
  {
    if n == 0 {
      assert log + [] == log;
    } else {
      CapsAfter(log, was, now, n - 1);
      var l := log + Edges(was, now, n - 1);
      if was[n - 1] != now[n - 1] {
        assert log + Edges(was, now, n) == l + [(n - 1, now[n - 1])];
        CapsPresses(l, n - 1, now[n - 1]);
      } else {
        assert log + Edges(was, now, n) == l;
      }
    }
  }

  lemma CapsFlipped(log: seq<(nat, bool)>, was: seq<bool>, now: seq<bool>, before: bool, after: bool)
    requires 0xE3 <= |was| && 0xE3 <= |now|
    requires before <==> Presses(EdgesOf(log, SCANCODE_KEY_CAPSLOCK)) % 2 == 1
    requires after <==>
      Presses(EdgesOf(log + Edges(was, now, SCANCODE_KEY_COUNT), SCANCODE_KEY_CAPSLOCK)) % 2 == 1
    ensures after == (before != (!was[0x39] && now[0x39]))
  {
    CapsAfter(log, was, now, SCANCODE_KEY_COUNT);
    OddSuccessor(Presses(EdgesOf(log, SCANCODE_KEY_CAPSLOCK)));
  }

  // ----- A press that is never delivered -----

  const A: nat := 0x04
  const B: nat := 0x05

  /** Two keys at once, on a keyboard with nothing pressed. */
  function TwoKeys(): Report { Report(false, false, false, false, false, false, [A, B, 0, 0, 0, 0]) }

  lemma {:induction false} TwoKeyEvents(was: seq<bool>, now: seq<bool>, n: nat, tick: nat, caps: bool)
    requires |was| == 256 && |now| == 256 && n <= SCANCODE_KEY_COUNT
    requires forall c :: 0 <= c < SCANCODE_KEY_COUNT ==> !was[c] && (now[c] <==> c == A || c == B)
    ensures Events(was, now, n, true, tick, caps)
         == if n <= A then [] else if n <= B then [EventFor(A, now, tick, caps)]
            else [EventFor(A, now, tick, caps), EventFor(B, now, tick, caps)]
  {
    if n > 0 {
      TwoKeyEvents(was, now, n - 1, tick, caps);
    }
  }

  lemma TwoKeysDown(c: nat)
    requires TwoKeys().Valid()
    ensures ReportsDown(TwoKeys(), c) <==> c == A || c == B
  {
    var r := TwoKeys();
    assert r.KeyCode[0] == A && r.KeyCode[1] == B && r.KeyCode[2] == 0;
    assert c != A && c != B ==> forall i :: 0 <= i < SCANCODES_PER_EVENT && r.KeyCode[i] == c ==> i >= 2;
  }

  /** Both presses are pushed with the tick of the report, and whatever the subscriber has seen before
      it, a drain delivers the second one alone. */
  lemma TwoKeysLoseOne(was: seq<bool>, now: seq<bool>, tick: nat, caps: bool, queue: seq<Event>, start: Subscriber,
                       t: seq<Subscriber>)
    requires |was| == 256 && |now| == 256 && TwoKeys().Valid()
    requires forall c :: 0 <= c < SCANCODE_KEY_COUNT ==> !was[c] && (now[c] <==> ReportsDown(TwoKeys(), c))
    requires Ring(queue, Events(was, now, SCANCODE_KEY_COUNT, true, tick, caps))
    requires start.LastTickCount < tick && IsDrain(queue, start, t) && Exhausted(queue, LastOf(start, t))
    ensures EventFor(A, now, tick, caps) in queue && !DeliveredIn(t, EventFor(A, now, tick, caps))
    ensures DeliveredIn(t, EventFor(B, now, tick, caps))
  {
    var log := Events(was, now, SCANCODE_KEY_COUNT, true, tick, caps);
    forall c: nat | c < SCANCODE_KEY_COUNT ensures now[c] <==> c == A || c == B { TwoKeysDown(c); }
    TwoKeyEvents(was, now, SCANCODE_KEY_COUNT, tick, caps);
    SecondOfTwo(queue, log[0], log[1], start, t);
  }

  /** Of two events with one tick, alone in the ring, the later one is delivered and the other is not. */
  lemma SecondOfTwo(queue: seq<Event>, a: Event, b: Event, start: Subscriber, t: seq<Subscriber>)
    requires Ring(queue, [a, b]) && a != b && a.TickCount == b.TickCount && start.LastTickCount < a.TickCount
    requires a.ScanCode != SCANCODE_KEY_NONE && b.ScanCode != SCANCODE_KEY_NONE
    requires IsDrain(queue, start, t) && Exhausted(queue, LastOf(start, t))
    ensures a in queue && !DeliveredIn(t, a) && DeliveredIn(t, b)
  {
    assert queue[0 % INPUT_EVENT_RINGBUFFER_SIZE] == [a, b][0] && queue[1 % INPUT_EVENT_RINGBUFFER_SIZE] == [a, b][1];
    assert a == queue[0] && b == queue[1] && a in queue;
    assert forall j :: 2 <= j < INPUT_EVENT_RINGBUFFER_SIZE ==> queue[j] == NO_EVENT;
    assert Eligible(a, start.LastTickCount) && t != [];
    assert Polled(queue, start, true, t[0]);
    var j: nat :| Chosen(queue, start.LastTickCount, j) && t[0].LastEvent == queue[j];
    assert Eligible(queue[0], start.LastTickCount) && Eligible(queue[1], start.LastTickCount);
    assert j == 1;
    forall i | 0 <= i < |t| ensures t[i].LastEvent != a {
      if t[i].LastEvent == a { SameTickDeliversOne(queue, start, t, 0, i); }
    }
  }

  class InputState {
    const KeysDown: array<bool>                // gInputKeysDown
    const PressedQueue: array<Event>
    const ReleasedQueue: array<Event>
    var CapsLock: bool
    var PressedIndex: nat
    var ReleasedIndex: nat

    ghost var Log: seq<(nat, bool)>            // every edge so far: scan code, press or release
    ghost var Pressed: seq<Event>              // every event pushed
    ghost var Released: seq<Event>

    ghost predicate Shape()
      reads this`PressedIndex, this`ReleasedIndex, this`Pressed, this`Released
    {
      && KeysDown.Length == 256
      && PressedQueue.Length == INPUT_EVENT_RINGBUFFER_SIZE && ReleasedQueue.Length == INPUT_EVENT_RINGBUFFER_SIZE
      && PressedQueue != ReleasedQueue
      && PressedIndex == |Pressed| % INPUT_EVENT_RINGBUFFER_SIZE
      && ReleasedIndex == |Released| % INPUT_EVENT_RINGBUFFER_SIZE
    }

    /** Key c's edges alternate, and the last one agrees with the flag. */
    ghost predicate Agrees(c: nat, down: bool)
      reads this`Log
    {
      Alternates(EdgesOf(Log, c)) && (down <==> |EdgesOf(Log, c)| % 2 == 1)
    }

    ghost predicate Queues()
      requires Shape()
      reads this`PressedIndex, this`ReleasedIndex, this`Pressed, this`Released, PressedQueue, ReleasedQueue
    {
      Ring(PressedQueue[..], Pressed) && Ring(ReleasedQueue[..], Released) && RealKeys(Pressed)
    }

    /** Caps lock is on after an odd number of presses of its key. */
    ghost predicate CapsParity()
      reads this`CapsLock, this`Log
    {
      CapsLock <==> Presses(EdgesOf(Log, SCANCODE_KEY_CAPSLOCK)) % 2 == 1
    }

    ghost predicate Valid()
      reads this, KeysDown, PressedQueue, ReleasedQueue
    {
      && Shape() && Queues() && CapsParity()
      && (forall c :: 0 <= c < SCANCODE_KEY_COUNT ==> Agrees(c, KeysDown[c]))
    }

    constructor ()
      ensures Valid() && Log == [] && Pressed == [] && Released == [] && !CapsLock
    {
      KeysDown := new bool[256](_ => false);
      PressedQueue := new Event[INPUT_EVENT_RINGBUFFER_SIZE](_ => NO_EVENT);
      ReleasedQueue := new Event[INPUT_EVENT_RINGBUFFER_SIZE](_ => NO_EVENT);
      CapsLock, PressedIndex, ReleasedIndex := false, 0, 0;
      Log, Pressed, Released := [], [], [];
    }

    /** The first loops of InputPushKeyboardEvent: the flags follow the report. */
    method ReadReport(r: Report)
      requires KeysDown.Length == 256 && r.Valid()
      modifies KeysDown
      ensures forall c :: 0 <= c < SCANCODE_KEY_COUNT ==> (KeysDown[c] <==> ReportsDown(r, c))
    {
      for ScanCode := 0 to SCANCODE_KEY_COUNT
        invariant forall c :: 0 <= c < ScanCode ==> !KeysDown[c]
      {
        KeysDown[ScanCode] := false;
      }
      var i := 0;
      while i < SCANCODES_PER_EVENT
        invariant i <= SCANCODES_PER_EVENT
        invariant forall c :: 0 <= c < SCANCODE_KEY_COUNT ==> (KeysDown[c] <==> Listed(r, i, c))
        invariant forall j :: 0 <= j < i ==> r.KeyCode[j] != SCANCODE_KEY_NONE
      {
        var PressedScanCode := r.KeyCode[i];
        if PressedScanCode == SCANCODE_KEY_NONE {
          assert forall c :: 0 <= c < SCANCODE_KEY_COUNT ==> (Listed(r, i, c) <==> Listed(r, SCANCODES_PER_EVENT, c));
          break;
        }
        KeysDown[PressedScanCode] := true;
        i := i + 1;
      }
      KeysDown[SCANCODE_KEY_SHIFT] := r.LeftShift || r.RightShift;
      KeysDown[SCANCODE_KEY_ALT] := r.LeftAlt || r.RightAlt;
      KeysDown[SCANCODE_KEY_CONTROL] := r.LeftCtrl || r.RightCtrl;
    }

    method PushPressed(e: Event)
      requires Shape() && Queues() && e.ScanCode != SCANCODE_KEY_NONE && e.TickCount < USIZE
      modifies this`PressedIndex, this`Pressed, PressedQueue
      ensures Shape() && Queues() && Pressed == old(Pressed) + [e]
    {
      RingPush(PressedQueue[..], Pressed, e);
      ghost var q := PressedQueue[..][PressedIndex := e];
      PressedQueue[PressedIndex] := e;
      assert PressedQueue[..] == q;
      PressedIndex := (PressedIndex + 1) % INPUT_EVENT_RINGBUFFER_SIZE;
      Pressed := Pressed + [e];
    }

    method PushReleased(e: Event)
      requires Shape() && Queues()
      modifies this`ReleasedIndex, this`Released, ReleasedQueue
      ensures Shape() && Queues() && Released == old(Released) + [e]
    {
      RingPush(ReleasedQueue[..], Released, e);
      ghost var q := ReleasedQueue[..][ReleasedIndex := e];
      ReleasedQueue[ReleasedIndex] := e;
      assert ReleasedQueue[..] == q;
      ReleasedIndex := (ReleasedIndex + 1) % INPUT_EVENT_RINGBUFFER_SIZE;
      Released := Released + [e];
    }

    /** Records an edge; caps lock follows the presses of its key. */
    method LogEdge(code: nat, pressed: bool)
      requires CapsParity()
      modifies this`Log, this`CapsLock
      ensures CapsParity() && Log == old(Log) + [(code, pressed)]
      ensures CapsLock == if code == SCANCODE_KEY_CAPSLOCK && pressed then !old(CapsLock) else old(CapsLock)
    {
      CapsFlips(Log, code, pressed);
      Log := Log + [(code, pressed)];
      if pressed && code == SCANCODE_KEY_CAPSLOCK {
        CapsLock := !CapsLock;
      }
    }

    /** One iteration of the event loop. */
    method PushEdge(ScanCode: nat, was: bool, Tick: nat, ghost caps: bool)
      requires Shape() && Queues() && CapsParity() && ScanCode < SCANCODE_KEY_COUNT && Tick < USIZE
      requires !KeysDown[SCANCODE_KEY_NONE]
      requires CapsLock == caps || SCANCODE_KEY_CAPSLOCK < ScanCode
      modifies this`PressedIndex, this`ReleasedIndex, this`CapsLock, this`Log, this`Pressed
      modifies this`Released, PressedQueue, ReleasedQueue
      ensures Shape() && Queues() && CapsParity()
      ensures ScanCode < SCANCODE_KEY_CAPSLOCK ==> CapsLock == old(CapsLock)
      ensures var now := KeysDown[..];
        && Log == old(Log) + (if was == now[ScanCode] then [] else [(ScanCode, now[ScanCode])])
        && Pressed == old(Pressed) + (if !was && now[ScanCode] then [EventFor(ScanCode, now, Tick, caps)] else [])
        && Released == old(Released) + (if was && !now[ScanCode] then [EventFor(ScanCode, now, Tick, caps)] else [])
    {
      if ScanCode >= SCANCODE_KEY_CAPSLOCK { LettersAndCaps(ScanCode, KeysDown[SCANCODE_KEY_SHIFT], caps); }
      var e := Event(Tick, ScanCode, InputScancodeToASCII(ScanCode, KeysDown[SCANCODE_KEY_SHIFT], CapsLock),
                     KeysDown[SCANCODE_KEY_SHIFT], KeysDown[SCANCODE_KEY_ALT], KeysDown[SCANCODE_KEY_CONTROL]);
      if KeysDown[ScanCode] && !was {
        PushPressed(e);
        LogEdge(ScanCode, true);
      }
      if !KeysDown[ScanCode] && was {
        PushReleased(e);
        LogEdge(ScanCode, false);
      }
    }

    /** An iteration brings its own key up to date and no other. */
    method PushAgreeing(ScanCode: nat, was: bool, Tick: nat, ghost caps: bool)
      requires Shape() && Queues() && CapsParity() && ScanCode < SCANCODE_KEY_COUNT && Tick < USIZE
      requires !KeysDown[SCANCODE_KEY_NONE]
      requires CapsLock == caps || SCANCODE_KEY_CAPSLOCK < ScanCode
      requires Agrees(ScanCode, was)
      modifies this`PressedIndex, this`ReleasedIndex, this`CapsLock, this`Log, this`Pressed
      modifies this`Released, PressedQueue, ReleasedQueue
      ensures Shape() && Queues() && CapsParity()
      ensures ScanCode < SCANCODE_KEY_CAPSLOCK ==> CapsLock == old(CapsLock)
      ensures Agrees(ScanCode, KeysDown[ScanCode])
      ensures forall c: nat :: c != ScanCode ==> EdgesOf(Log, c) == EdgesOf(old(Log), c)
      ensures var now := KeysDown[..];
        && Log == old(Log) + (if was == now[ScanCode] then [] else [(ScanCode, now[ScanCode])])
        && Pressed == old(Pressed) + (if !was && now[ScanCode] then [EventFor(ScanCode, now, Tick, caps)] else [])
        && Released == old(Released) + (if was && !now[ScanCode] then [EventFor(ScanCode, now, Tick, caps)] else [])
    {
      ghost var log := Log;
      PushEdge(ScanCode, was, Tick, caps);
      if was != KeysDown[ScanCode] {
        forall c: nat { EdgeAppended(log, ScanCode, !was, c); }
      } else {
        assert Log == log;
      }
    }

    /** The event loop: one edge for every key whose flag changed. */
    method PushEdges(OldKeysDown: array<bool>, Tick: nat)
      requires Shape() && Queues() && CapsParity() && OldKeysDown.Length == 256 && Tick < USIZE
      requires !KeysDown[SCANCODE_KEY_NONE]
      requires forall c :: 0 <= c < SCANCODE_KEY_COUNT ==> Agrees(c, OldKeysDown[c])
      modifies this`PressedIndex, this`ReleasedIndex, this`CapsLock, this`Log, this`Pressed
      modifies this`Released, PressedQueue, ReleasedQueue
      ensures Shape() && Queues() && CapsParity()
      ensures forall c :: 0 <= c < SCANCODE_KEY_COUNT ==> Agrees(c, KeysDown[c])
      ensures Log == old(Log) + Edges(OldKeysDown[..], KeysDown[..], SCANCODE_KEY_COUNT)
      ensures Pressed
           == old(Pressed) + Events(OldKeysDown[..], KeysDown[..], SCANCODE_KEY_COUNT, true, Tick, old(CapsLock))
      ensures Released
           == old(Released) + Events(OldKeysDown[..], KeysDown[..], SCANCODE_KEY_COUNT, false, Tick, old(CapsLock))
    {
      ghost var was, now, caps := OldKeysDown[..], KeysDown[..], CapsLock;
      ghost var l, p, r := Log, Pressed, Released;
      assert l + [] == l && p + [] == p && r + [] == r;
      var ScanCode := 0;
      while ScanCode < SCANCODE_KEY_COUNT
        invariant ScanCode <= SCANCODE_KEY_COUNT && now == KeysDown[..] && was == OldKeysDown[..]
        invariant Shape() && Pushing(was, now, ScanCode, Tick, caps, l, p, r)
      {
        PushNext(ScanCode, OldKeysDown[ScanCode], Tick, caps, was, now, l, p, r);
        ScanCode := ScanCode + 1;
      }
    }

    /** What holds when the first n keys have been looked at. */
    ghost predicate Pushing(was: seq<bool>, now: seq<bool>, n: nat, Tick: nat, caps: bool,
                            l: seq<(nat, bool)>, p: seq<Event>, r: seq<Event>)
      requires n <= SCANCODE_KEY_COUNT <= |was| && SCANCODE_KEY_COUNT <= |now| && Shape()
      reads this`PressedIndex, this`ReleasedIndex, this`CapsLock, this`Log, this`Pressed, this`Released
      reads PressedQueue, ReleasedQueue
    {
      && Queues() && CapsParity() && (CapsLock == caps || SCANCODE_KEY_CAPSLOCK < n)
      && CaughtUp(was, now, n) && Log == l + Edges(was, now, n)
      && Pressed == p + Events(was, now, n, true, Tick, caps)
      && Released == r + Events(was, now, n, false, Tick, caps)
    }

    method PushNext(n: nat, old_flag: bool, Tick: nat, ghost caps: bool, ghost was: seq<bool>, ghost now: seq<bool>,
                    ghost l: seq<(nat, bool)>, ghost p: seq<Event>, ghost r: seq<Event>)
      requires Shape() && n < SCANCODE_KEY_COUNT && Tick < USIZE && !KeysDown[SCANCODE_KEY_NONE]
      requires |was| == 256 && old_flag == was[n] && now == KeysDown[..]
      requires Pushing(was, now, n, Tick, caps, l, p, r)
      modifies this`PressedIndex, this`ReleasedIndex, this`CapsLock, this`Log, this`Pressed
      modifies this`Released, PressedQueue, ReleasedQueue
      ensures Shape() && Pushing(was, now, n + 1, Tick, caps, l, p, r)
    {
      EventStep(was, now, n, Tick, caps, p, r, l);
      assert Agrees(n, old_flag);
      PushAgreeing(n, old_flag, Tick, caps);
    }

    /** The first n keys agree with their new flags, the others with their old ones. */
    ghost predicate CaughtUp(was: seq<bool>, now: seq<bool>, n: nat)
      requires SCANCODE_KEY_COUNT <= |was| && SCANCODE_KEY_COUNT <= |now|
      reads this`Log
    {
      forall c :: 0 <= c < SCANCODE_KEY_COUNT ==> Agrees(c, if c < n then now[c] else was[c])
    }

    static lemma EventStep(was: seq<bool>, now: seq<bool>, n: nat, tick: nat, caps: bool, p: seq<Event>,
                           r: seq<Event>, l: seq<(nat, bool)>)
      requires n < SCANCODE_KEY_COUNT <= |was| && SCANCODE_KEY_COUNT <= |now|
      ensures l + Edges(was, now, n + 1) == l + Edges(was, now, n) + (if was[n] == now[n] then [] else [(n, now[n])])
      ensures p + Events(was, now, n + 1, true, tick, caps)
           == p + Events(was, now, n, true, tick, caps)
              + (if !was[n] && now[n] then [EventFor(n, now, tick, caps)] else [])
      ensures r + Events(was, now, n + 1, false, tick, caps)
           == r + Events(was, now, n, false, tick, caps)
              + (if was[n] && !now[n] then [EventFor(n, now, tick, caps)] else [])
    {
    }

    /** InputPushKeyboardEvent; Reset reports Ctrl+Alt+Delete, which stops the machine. */
    method InputPushKeyboardEvent(r: Report, TickCount: nat) returns (Reset: bool)
      requires Valid() && r.Valid() && TickCount < 0x1_0000_0000_0000_0000
      modifies this, KeysDown, PressedQueue, ReleasedQueue
      ensures Valid()
      ensures forall c :: 0 <= c < SCANCODE_KEY_COUNT ==> (KeysDown[c] <==> ReportsDown(r, c))
      ensures Log == old(Log) + Edges(old(KeysDown[..]), KeysDown[..], SCANCODE_KEY_COUNT)
      ensures Pressed == old(Pressed)
                       + Events(old(KeysDown[..]), KeysDown[..], SCANCODE_KEY_COUNT, true, TickCount, old(CapsLock))
      ensures Released == old(Released)
                        + Events(old(KeysDown[..]), KeysDown[..], SCANCODE_KEY_COUNT, false, TickCount, old(CapsLock))
      ensures CapsLock == (old(CapsLock) != (!old(KeysDown[0x39]) && KeysDown[0x39]))
      ensures Reset <==> KeysDown[0xE0] && KeysDown[0xE2] && KeysDown[0x4C]
    {
      var OldKeysDown :=
        new bool[256](i requires 0 <= i < 256 && KeysDown.Length == 256 reads this, KeysDown => KeysDown[i]);
      assert OldKeysDown[..] == KeysDown[..];
      ghost var log, was := Log, KeysDown[..];
      ReadReport(r);
      PushEdges(OldKeysDown, TickCount);
      CapsFlipped(log, was, KeysDown[..], old(CapsLock), CapsLock);
      Reset := KeysDown[SCANCODE_KEY_CONTROL] && KeysDown[SCANCODE_KEY_ALT] && KeysDown[SCANCODE_KEY_DELETE];
    }
  }
}
