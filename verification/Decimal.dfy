/** Decimal text: the bootloader's integer printers (bootloader/uefiboot_libc.c) and the
    kernel library's parser (system/elf_libc.c). */
module Decimal {
  import opened Arithmetic

  const I64_LIMIT: int := 0x8000_0000_0000_0000
  const NUL: char := '\0'

  function DigitChar(d: nat): (c: char)
    requires d < 10
    ensures IsDigit(c) && DigitValue(c) == d && c == "0123456789"[d]
  {
    '0' + d as char
  }

  predicate IsDigit(c: char) { '0' <= c <= '9' }

  function DigitValue(c: char): (d: nat)
    requires IsDigit(c)
    ensures d < 10 && c == "0123456789"[d]
  {
    c as nat - '0' as nat
  }

  // ----- What is printed -----

  /** The digits of n, least significant first; none for 0. */
  function Reversed(n: nat): (s: string)
    ensures forall i :: 0 <= i < |s| ==> IsDigit(s[i])
    ensures n > 0 ==> s != []
  {
    if n == 0 then [] else [DigitChar(n % 10)] + Reversed(n / 10)
  }

  function Mirror(s: string): (r: string)
    ensures |r| == |s| && forall i :: 0 <= i < |s| ==> r[i] == s[|s| - 1 - i]
  {
    if s == [] then [] else Mirror(s[1..]) + [s[0]]
  }

  function Magnitude(v: int): nat { if v < 0 then -v else v }

  function Text(v: int): string {
    if v == 0 then "0" else Mirror(Reversed(Magnitude(v)) + (if v < 0 then "-" else ""))
  }

  function Power10(k: nat): (p: nat)
    ensures p > 0
  {
    if k == 0 then 1 else 10 * Power10(k - 1)
  }

  /** Character i is the digit for 10^i. */
  lemma {:induction false} DigitAt(n: nat, i: nat)
    requires i < |Reversed(n)|
    ensures Reversed(n)[i] == "0123456789"[n / Power10(i) % 10]
    ensures Power10(0) == 1 && Power10(i + 1) == 10 * Power10(i)
    decreases i
  {
    if i > 0 {
      DigitAt(n / 10, i - 1);
      DivDiv(n, 10, Power10(i - 1));
    }
  }

  lemma {:induction false} DigitCount(n: nat, k: nat)
    requires n < Power10(k)
    ensures |Reversed(n)| <= k
  {
    if n > 0 { DigitCount(n / 10, k - 1); }
  }

  /** A 64-bit number needs 19 digits, a 32-bit number 10. */
  lemma DigitBounds(n: nat)
    ensures n <= I64_LIMIT ==> |Reversed(n)| <= 19
    ensures n <= 0x8000_0000 ==> |Reversed(n)| <= 10
  {
    assert Power10(10) == 10_000_000_000 by { assert Power10(5) == 100_000; }
    assert Power10(19) == 10_000_000_000_000_000_000 by {
      assert Power10(15) == 1_000_000_000_000_000;
    }
    if n <= I64_LIMIT { DigitCount(n, 19); }
    if n <= 0x8000_0000 { DigitCount(n, 10); }
  }

  // ----- What is parsed -----

  predicate IsSpace(c: char) { c in {' ', '\t', '\n', '\r', '\U{0B}', '\U{0C}'} }

  /** The value of the digits at the start of s, after the value acc of the digits before it. */
  function DigitsFrom(s: string, acc: nat): nat {
    if s == [] || !IsDigit(s[0]) then acc else DigitsFrom(s[1..], acc * 10 + DigitValue(s[0]))
  }

  function AfterSpaces(s: string): string {
    if s == [] || !IsSpace(s[0]) then s else AfterSpaces(s[1..])
  }

  function Unsigned(s: string): string {
    var t := AfterSpaces(s);
    if t != [] && (t[0] == '-' || t[0] == '+') then t[1..] else t
  }

  function Sign(s: string): int {
    var t := AfterSpaces(s);
    if t != [] && t[0] == '-' then -1 else 1
  }

  function Parse(s: string): int { DigitsFrom(Unsigned(s), 0) * Sign(s) }

  /** The accumulator of the parser is an i64: the digits must stay below 2^63 on the way. */
  predicate Representable(s: string) { DigitsFrom(Unsigned(s), 0) < I64_LIMIT }

  lemma {:induction false} DigitsGrow(s: string, acc: nat)
    ensures acc <= DigitsFrom(s, acc)
  {
    if s != [] && IsDigit(s[0]) { DigitsGrow(s[1..], acc * 10 + DigitValue(s[0])); }
  }

  // ----- The round trip -----

  predicate AllDigits(s: string) { forall i :: 0 <= i < |s| ==> IsDigit(s[i]) }

  lemma {:induction false} DigitsConcat(a: string, b: string, acc: nat)
    requires AllDigits(a)
    ensures DigitsFrom(a + b, acc) == DigitsFrom(b, DigitsFrom(a, acc))
  {
    if a == [] {
      assert a + b == b;
    } else {
      assert (a + b)[1..] == a[1..] + b;
      DigitsConcat(a[1..], b, acc * 10 + DigitValue(a[0]));
    }
  }

  /** Reading the mirrored digits gives the number back. */
  lemma {:induction false} DigitsInverse(n: nat)
    ensures AllDigits(Mirror(Reversed(n))) && DigitsFrom(Mirror(Reversed(n)), 0) == n
  {
    if n > 0 {
      var d := DigitChar(n % 10);
      var r := Reversed(n);
      assert r[1..] == Reversed(n / 10);
      DigitsInverse(n / 10);
      DigitsConcat(Mirror(Reversed(n / 10)), [d], 0);
      assert [d][1..] == [];
      assert DigitsFrom([d], n / 10) == n / 10 * 10 + n % 10;
    }
  }

  /** Optional sign and digits, up to the terminator. */
  lemma ParseSigned(m: string, negative: bool)
    requires AllDigits(m) && m != []
    ensures var s := (if negative then ['-'] + m else m) + [NUL];
      DigitsFrom(Unsigned(s), 0) == DigitsFrom(m, 0) && Sign(s) == if negative then -1 else 1
  {
    var s := (if negative then ['-'] + m else m) + [NUL];
    DigitsConcat(m, [NUL], 0);
    assert IsDigit(m[0]) && !IsDigit(NUL);
    if negative {
      assert s[0] == '-' && s[1..] == m + [NUL];
    } else {
      assert s[0] == m[0];
    }
  }

  /** A minus sign if need be, then the digits, the highest first. */
  lemma TextShape(v: int)
    ensures Text(0) == "0"
    ensures v != 0 ==>
      var m := Mirror(Reversed(if v < 0 then -v else v)); Text(v) == if v < 0 then ['-'] + m else m
  {
    var r := Reversed(Magnitude(v));
    if v < 0 { MirrorAppend(r, '-'); } else { assert r + "" == r; }
  }

  /** The value of a digit more. */
  lemma DigitsAppend(m: string, d: nat)
    requires AllDigits(m) && d < 10
    ensures DigitsFrom("", 0) == 0
    ensures DigitsFrom(m + ["0123456789"[d]], 0) == 10 * DigitsFrom(m, 0) + d
  {
    var c := DigitChar(d);
    DigitsConcat(m, [c], 0);
    assert [c][1..] == [];
  }

  /** Blanks, a sign, digits, and whatever follows: every string is of this form. */
  lemma ParseText(blanks: string, sign: string, m: string, rest: string)
    requires forall i :: 0 <= i < |blanks| ==> blanks[i] in {' ', '\t', '\n', '\r', '\U{0B}', '\U{0C}'}
    requires sign in {"", "-", "+"} && (forall i :: 0 <= i < |m| ==> '0' <= m[i] <= '9')
    requires rest != [] ==> !('0' <= rest[0] <= '9')
    requires rest != [] && sign == "" && m == [] ==>
      rest[0] !in {' ', '\t', '\n', '\r', '\U{0B}', '\U{0C}', '-', '+'}
    ensures Parse(blanks + (sign + (m + rest))) == DigitsFrom(m, 0) * (if sign == "-" then -1 else 1)
  {
    var t := sign + (m + rest);
    SplitSign(sign, m, rest, t);
    AfterBlanks(blanks, t);
    DigitsConcat(m, rest, 0);
    assert DigitsFrom(rest, DigitsFrom(m, 0)) == DigitsFrom(m, 0);
    assert Unsigned(blanks + t) == m + rest;
    assert Sign(blanks + t) == if sign == "-" then -1 else 1;
  }

  lemma SplitSign(sign: string, m: string, rest: string, t: string)
    requires t == sign + (m + rest) && sign in {"", "-", "+"} && (forall i :: 0 <= i < |m| ==> '0' <= m[i] <= '9')
    requires rest != [] && sign == "" && m == [] ==>
      rest[0] !in {' ', '\t', '\n', '\r', '\U{0B}', '\U{0C}', '-', '+'}
    ensures t != [] ==> !IsSpace(t[0])
    ensures (if t != [] && (t[0] == '-' || t[0] == '+') then t[1..] else t) == m + rest
    ensures t != [] && t[0] == '-' <==> sign == "-"
  {
    if sign == "" {
      assert t == m + rest;
      if m != [] { assert t[0] == m[0]; } else { assert m + rest == rest; }
    } else {
      assert t[0] == sign[0] && t[1..] == m + rest;
    }
  }

  lemma {:induction false} AfterBlanks(blanks: string, t: string)
    requires forall i :: 0 <= i < |blanks| ==> IsSpace(blanks[i])
    requires t != [] ==> !IsSpace(t[0])
    ensures AfterSpaces(blanks + t) == t
    decreases |blanks|
  {
    if blanks == [] {
      assert blanks + t == t;
    } else {
      assert (blanks + t)[0] == blanks[0] && (blanks + t)[1..] == blanks[1..] + t;
      AfterBlanks(blanks[1..], t);
    }
  }

  /** Parsing a printed number gives it back; the parser's i64 suffices for it exactly when
      it is above the smallest one. */
  lemma RoundTrip(v: int)
    requires -I64_LIMIT <= v < I64_LIMIT
    ensures Parse(Text(v) + [NUL]) == v
    ensures Representable(Text(v) + [NUL]) <==> v > -I64_LIMIT
  {
    if v == 0 {
      ZeroRoundTrip();
    } else {
      TextShape(v);
      SignedRoundTrip(Magnitude(v), v < 0);
    }
  }

  lemma ZeroRoundTrip()
    ensures Parse("0" + [NUL]) == 0 && Representable("0" + [NUL])
  {
    ParseSigned("0", false);
    assert "0"[1..] == [];
  }

  lemma SignedRoundTrip(n: nat, negative: bool)
    requires n > 0
    ensures var m := Mirror(Reversed(n)); var s := (if negative then ['-'] + m else m) + [NUL];
      Parse(s) == (if negative then -(n as int) else n) && (Representable(s) <==> n < I64_LIMIT)
  {
    DigitsInverse(n);
    ParseSigned(Mirror(Reversed(n)), negative);
  }

  lemma {:induction false} MirrorAppend(s: string, c: char)
    ensures Mirror(s + [c]) == [c] + Mirror(s)
  {
    if s != [] {
      assert (s + [c])[1..] == s[1..] + [c];
      MirrorAppend(s[1..], c);
    } else {
      assert [c][1..] == [];
    }
  }

  // ----- The printers -----

  /** int32_to_string and int64_to_string: eight static buffers used in turn. */
  class Printer {
    const buffers: seq<array<char>>
    const Slots: nat    // 12 or 22
    const Limit: int    // the values printed lie in [-Limit, Limit)
    var buffer_index: nat

    ghost predicate Valid()
      reads this
    {
      && |buffers| == 8 && buffer_index < 8
      && (forall i :: 0 <= i < 8 ==> buffers[i].Length == Slots)
      && (forall i, j :: 0 <= i < j < 8 ==> buffers[i] != buffers[j])
      && ((Slots == 12 && Limit == 0x8000_0000) || (Slots == 22 && Limit == I64_LIMIT))
    }

    constructor (bufs: seq<array<char>>, wide: bool)
      requires |bufs| == 8 && (forall i :: 0 <= i < 8 ==> bufs[i].Length == if wide then 22 else 12)
      requires forall i, j :: 0 <= i < j < 8 ==> bufs[i] != bufs[j]
      ensures Valid() && buffers == bufs && buffer_index == 0
    {
      buffers, buffer_index := bufs, 0;
      Slots := if wide then 22 else 12;
      Limit := if wide then I64_LIMIT else 0x8000_0000;
    }

    /** The text and its terminator fit the buffer, and the last seven results stay intact. */
    method ToString(value: int) returns (buffer: array<char>)
      requires Valid() && -Limit <= value < Limit
      modifies this`buffer_index, buffers[buffer_index]
      ensures Valid() && buffer == buffers[old(buffer_index)] && buffer_index == (old(buffer_index) + 1) % 8
      ensures |Text(value)| < Slots && buffer[..|Text(value)| + 1] == Text(value) + [NUL]
    {
      buffer := buffers[buffer_index];
      buffer_index := (buffer_index + 1) % 8;
      if value == 0 {
        buffer[0], buffer[1] := '0', NUL;
        assert buffer[..2] == "0" + [NUL];
        return;
      }
      PrintNonZero(buffer, value);
    }

    method PrintNonZero(buffer: array<char>, value: int)
      requires Valid() && -Limit <= value < Limit && value != 0 && buffer.Length == Slots
      modifies buffer
      ensures |Text(value)| < Slots && buffer[..|Text(value)| + 1] == Text(value) + [NUL]
    {
      var num := UnsignedMagnitude(value, Limit);
      DigitBounds(num);
      var i := WriteDigits(buffer, num);
      FinishText(buffer, i, value < 0);
    }
  }

  /** The complement plus one of the value taken as an unsigned number of the same width; for a
      negative value the increment does not wrap. */
  function UnsignedMagnitude(value: int, limit: int): (num: nat)
    requires 0 < limit && -limit <= value < limit
    ensures num == Magnitude(value)
  {
    if value < 0 then
      var u := value + 2 * limit;
      var inverted := 2 * limit - 1 - u;
      inverted + 1
    else value
  }

  lemma OneDigit(prefix: string, num: nat, all: string)
    requires num > 0 && prefix + Reversed(num) == all
    ensures |prefix| < |all| && prefix + [DigitChar(num % 10)] + Reversed(num / 10) == all
  {
  }

  method WriteDigits(buffer: array<char>, n: nat) returns (i: nat)
    requires |Reversed(n)| <= buffer.Length
    modifies buffer
    ensures i == |Reversed(n)| && buffer[..i] == Reversed(n)
  {
    i := 0;
    var num := n;
    while num > 0
      invariant i <= |Reversed(n)| && buffer[..i] + Reversed(num) == Reversed(n)
      decreases num
    {
      ghost var prefix := buffer[..i];
      OneDigit(prefix, num, Reversed(n));
      buffer[i] := DigitChar(num % 10);
      assert buffer[..i + 1] == prefix + [DigitChar(num % 10)];
      i := i + 1;
      num := num / 10;
    }
  }

  /** The sign goes last, the whole is turned around and terminated. */
  method FinishText(buffer: array<char>, n: nat, negative: bool)
    requires n + 2 <= buffer.Length
    modifies buffer
    ensures var t := Mirror(old(buffer[..n]) + (if negative then "-" else ""));
      |t| < buffer.Length && buffer[..|t| + 1] == t + [NUL]
  {
    var i := AppendSign(buffer, n, negative);
    ReverseInPlace(buffer, i);
    Terminate(buffer, i);
  }

  method AppendSign(buffer: array<char>, n: nat, negative: bool) returns (i: nat)
    requires n < buffer.Length
    modifies buffer
    ensures i <= n + 1 && buffer[..i] == old(buffer[..n]) + (if negative then "-" else "")
  {
    i := n;
    if negative {
      buffer[i] := '-';
      i := i + 1;
    }
  }

  method Terminate(buffer: array<char>, i: nat)
    requires i < buffer.Length
    modifies buffer
    ensures buffer[..i + 1] == old(buffer[..i]) + [NUL]
  {
    buffer[i] := NUL;
  }

  /** The swap loop. */
  method ReverseInPlace(buffer: array<char>, n: nat)
    requires n <= buffer.Length
    modifies buffer
    ensures buffer[..n] == Mirror(old(buffer[..n]))
  {
    var start, end := 0, n - 1;
    while start < end
      invariant 0 <= start <= n && end == n - 1 - start && start <= end + 2
      invariant forall k :: 0 <= k < n && (k < start || end < k) ==> buffer[k] == old(buffer[n - 1 - k])
      invariant forall k :: start <= k <= end ==> buffer[k] == old(buffer[k])
    {
      var temp := buffer[start];
      buffer[start] := buffer[end];
      buffer[end] := temp;
      start := start + 1;
      end := end - 1;
    }
  }

  // ----- The parser -----

  /** The pointer walks up to the terminator; a result outside i64 would overflow. */
  method StringToInt64(String: array?<char>) returns (result: int)
    requires String != null ==> String.Length > 0 && String[String.Length - 1] == NUL && Representable(String[..])
    ensures result == if String == null then 0 else Parse(String[..])
  {
    if String == null { return 0; }
    var sign := 1;
    var p := SkipSpaces(String);
    ghost var s := String[..];
    if String[p] == '-' {
      sign := -1;
      p := p + 1;
    } else if String[p] == '+' {
      p := p + 1;
    }
    SignOf(s, p, sign);
    result := ReadDigits(String, p);
    result := result * sign;
  }

  lemma SignOf(s: string, p: nat, sign: int)
    requires p <= |s| && AfterSpaces(s) != []
    requires var t := AfterSpaces(s);
      s[p..] == (if t[0] == '-' || t[0] == '+' then t[1..] else t) && sign == if t[0] == '-' then -1 else 1
    ensures Unsigned(s) == s[p..] && Sign(s) == sign
  {
  }

  method SkipSpaces(String: array<char>) returns (p: nat)
    requires String.Length > 0 && String[String.Length - 1] == NUL
    ensures p < String.Length && AfterSpaces(String[..]) == String[p..]
  {
    p := 0;
    ghost var s := String[..];
    while IsSpace(String[p])
      invariant p < String.Length && AfterSpaces(s) == AfterSpaces(s[p..])
      decreases String.Length - p
    {
      assert s[p..][1..] == s[p + 1..];
      p := p + 1;
    }
  }

  method ReadDigits(String: array<char>, start: nat) returns (result: int)
    requires start < String.Length && String[String.Length - 1] == NUL && DigitsFrom(String[start..], 0) < I64_LIMIT
    ensures result == DigitsFrom(String[start..], 0)
  {
    var p := start;
    result := 0;
    ghost var s := String[..];
    while IsDigit(String[p])
      invariant start <= p < String.Length && 0 <= result < I64_LIMIT
      invariant DigitsFrom(s[p..], result) == DigitsFrom(s[start..], 0)
      decreases String.Length - p
    {
      DigitsGrow(s[p + 1..], result * 10 + DigitValue(String[p]));
      assert s[p..][1..] == s[p + 1..];
      result := result * 10 + DigitValue(String[p]);
      p := p + 1;
    }
  }
}
