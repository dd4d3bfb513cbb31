/** Decimal text as it crosses the sysfs boundary: printf into a fixed buffer, the kernel's
    strict parsers, and the lenient C and Rust parsers on the other side. */
module Decimal {

  const NUL: char := 0 as char
  const TWO_TO_31: int := 0x8000_0000
  const TWO_TO_32: int := 0x1_0000_0000

  datatype Parsed<+T> = Value(value: T) | Invalid

  predicate IsDigit(c: char) {
    '0' <= c <= '9'
  }

  function Digits(n: nat): (s: string)
    ensures |s| > 0 && forall i :: 0 <= i < |s| ==> IsDigit(s[i])
  {
    if n < 10 then [('0' as int + n) as char]
    else Digits(n / 10) + [('0' as int + n % 10) as char]
  }

  /** printf's %d and %u. */
  function Format(v: int): string {
    if v < 0 then "-" + Digits(-v) else Digits(v)
  }

  /** snprintf into `buffer`: truncated text, a NUL, and whatever the buffer held after it. */
  function Snprintf(buffer: string, text: string): (r: string)
    requires |buffer| > 0
    ensures |r| == |buffer|
  {
    var n := if |text| < |buffer| then |text| else |buffer| - 1;
    text[..n] + [NUL] + buffer[n + 1..]
  }

  /** The C string at the start of a byte buffer. */
  function CString(s: string): string {
    if s == [] || s[0] == NUL then [] else [s[0]] + CString(s[1..])
  }

  /** Reads the leading digits of `s` on top of `acc`; returns the number and the rest. */
  function Scan(s: string, acc: nat): (nat, string) {
    if s == [] || !IsDigit(s[0]) then (acc, s)
    else Scan(s[1..], 10 * acc + (s[0] as int - '0' as int))
  }

  /** The kernel's kstrtou32 in base 10: optional '+', at least one digit, optional newline. */
  function Kstrtou32(buf: string): (r: Parsed<int>)
    ensures r.Value? ==> 0 <= r.value < TWO_TO_32
  {
    var s := CString(buf);
    var t := if s != [] && s[0] == '+' then s[1..] else s;
    if t == [] || !IsDigit(t[0]) then Invalid
    else
      var (v, rest) := Scan(t, 0);
      if v < TWO_TO_32 && (rest == [] || rest == ['\n']) then Value(v) else Invalid
  }

  /** The kernel's kstrtobool: decided by the first character, or two for on/off. */
  function Kstrtobool(buf: string): Parsed<bool> {
    var s := CString(buf);
    if s == [] then Invalid
    else if s[0] in "yY1" then Value(true)
    else if s[0] in "nN0" then Value(false)
    else if s[0] in "oO" && |s| > 1 then
      if s[1] in "nN" then Value(true) else if s[1] in "fF" then Value(false) else Invalid
    else Invalid
  }

  function SkipSpace(s: string): string {
    if s != [] && s[0] in " \t\n\r" then SkipSpace(s[1..]) else s
  }

  /** C's atoi on values an int can hold. */
  function Atoi(buf: string): int {
    var s := SkipSpace(CString(buf));
    if s != [] && s[0] == '-' then 0 - Scan(s[1..], 0).0
    else if s != [] && s[0] == '+' then Scan(s[1..], 0).0
    else Scan(s, 0).0
  }

  /** read() of at most 19 bytes into a zeroed 20-byte buffer. */
  function ReadInto20(text: string): string {
    var n := if |text| < 20 then |text| else 19;
    text[..n] + seq(20 - n, _ => NUL)
  }

  function TrimEnd(s: string): string {
    if s != [] && s[|s| - 1] in " \t\n\r" then TrimEnd(s[..|s| - 1]) else s
  }

  /** Rust's str::trim().parse::<u32>() on text without leading blanks. */
  function TrimParseU32(s: string): Parsed<int> {
    var t := TrimEnd(s);
    if t == [] || !IsDigit(t[0]) then Invalid
    else
      var (v, rest) := Scan(t, 0);
      if rest == [] && v < TWO_TO_32 then Value(v) else Invalid
  }

  lemma {:induction false} ScanDigits(n: nat, tail: string)
    ensures Scan(Digits(n) + tail, 0) == Scan(tail, n)
  {
    if n < 10 {
      assert (Digits(n) + tail)[1..] == tail;
    } else {
      var last := [('0' as int + n % 10) as char];
      assert Digits(n) + tail == Digits(n / 10) + (last + tail);
      ScanDigits(n / 10, last + tail);
      assert (last + tail)[1..] == tail;
    }
  }

  function Pow10(k: nat): nat {
    if k == 0 then 1 else 10 * Pow10(k - 1)
  }

  lemma {:induction false} DigitsShort(n: nat, k: nat)
    requires k > 0 && n < Pow10(k)
    ensures |Digits(n)| <= k
  {
    if n < 10 {
    } else {
      assert k > 1 by { assert Pow10(1) == 10; }
      DigitsShort(n / 10, k - 1);
    }
  }

  lemma {:induction false} CStringSplits(text: string, rest: string)
    requires NUL !in text
    ensures CString(text + rest) == text + CString(rest)
  {
    if text == [] {
      assert text + rest == rest;
    } else {
      assert (text + rest)[1..] == text[1..] + rest;
      CStringSplits(text[1..], rest);
    }
  }

  lemma CStringPrefix(text: string, tail: string)
    requires NUL !in text && tail != [] && tail[0] == NUL
    ensures CString(text + tail) == text
  {
    CStringSplits(text, tail);
  }

  lemma {:induction false} WholeCString(s: string)
    requires NUL !in s
    ensures CString(s) == s
  {
    CStringSplits(s, []);
    assert s + [] == s;
  }

  lemma FormatFits(f: int)
    requires -TWO_TO_31 < f < TWO_TO_31
    ensures 0 < |Format(f)| <= 11 && NUL !in Format(f)
  {
    var n: nat := if f < 0 then -f else f;
    assert Pow10(10) == 100_0000_0000;
    DigitsShort(n, 10);
  }

  lemma ScanWhole(n: nat)
    ensures Scan(Digits(n), 0) == (n, [])
    ensures Scan(Digits(n) + ['\n'], 0) == (n, ['\n'])
  {
    ScanDigits(n, []);
    ScanDigits(n, ['\n']);
    assert Digits(n) + [] == Digits(n);
  }

  /** The text of a number ends in its last digit, after the text of the rest. */
  lemma LastDigit(n: nat, d: nat)
    requires d < 10 && n > 0
    ensures Format(10 * n + d) == Format(n) + ["0123456789"[d]]
    ensures Format(d) == ["0123456789"[d]] && Format(0 - n) == "-" + Format(n)
  {
    assert (10 * n + d) / 10 == n && (10 * n + d) % 10 == d;
    assert forall k: nat :: k < 10 ==> "0123456789"[k] as int == '0' as int + k;
  }

  lemma {:induction false} ScanStops(n: nat, rest: string)
    requires rest == [] || !IsDigit(rest[0])
    ensures Scan(Digits(n) + rest, 0) == (n, rest)
  {
    ScanDigits(n, rest);
  }

  function Prefix(yes: bool, c: char): string {
    if yes then [c] else []
  }

  /** What frequency_store takes: a decimal number with an optional plus and an optional newline,
      up to the NUL, below 2^32. */
  lemma {:induction false} DecimalIsParsed(n: nat, plus: bool, newline: bool, tail: string)
    requires tail == [] || tail[0] == NUL
    ensures Kstrtou32(Prefix(plus, '+') + Digits(n) + Prefix(newline, '\n') + tail) ==
            if n < TWO_TO_32 then Value(n) else Invalid
  {
    var number := Digits(n) + Prefix(newline, '\n');
    var text := Prefix(plus, '+') + number;
    assert Prefix(plus, '+') + Digits(n) + Prefix(newline, '\n') + tail == text + tail;
    assert NUL !in Digits(n);
    CStringSplits(text, tail);
    assert CString(tail) == [] && text + [] == text;
    ScanStops(n, Prefix(newline, '\n'));
    assert number[0] == Digits(n)[0];
    if plus {
      assert text[1..] == number;
    } else {
      assert text == number;
    }
  }

  /** And what it does not take: a number followed by anything else. */
  lemma {:induction false} GarbageIsRefused(n: nat, c: char, rest: string)
    requires !IsDigit(c) && c != NUL && !(c == '\n' && (rest == [] || rest[0] == NUL))
    ensures Kstrtou32(Digits(n) + [c] + rest) == Invalid
  {
    var text := Digits(n) + [c];
    var after := CString(rest);
    CStringSplits(text, rest);
    ScanStops(n, [c] + after);
    assert text + after == Digits(n) + ([c] + after);
  }

  /** manual_mode shown by the driver and written by the daemon reads back as itself. */
  lemma ModeIsParsed(mode: bool, rest: string)
    ensures Kstrtobool((if mode then "1" else "0") + rest) == Value(mode)
  {
    var s := (if mode then "1" else "0") + rest;
    assert CString(s) == [s[0]] + CString(s[1..]);
  }

  /** What the daemon writes: all 20 bytes of its buffer, garbage included. The driver parses
      back exactly the number printed, and it does so exactly for the non-negative ones. */
  lemma StoredIsPrinted(buffer: string, f: int)
    requires |buffer| == 20 && -TWO_TO_31 < f < TWO_TO_31
    ensures Kstrtou32(Snprintf(buffer, Format(f))) == if f >= 0 then Value(f) else Invalid
  {
    FormatFits(f);
    var n := |Format(f)|;
    CStringPrefix(Format(f), [NUL] + buffer[n + 1..]);
    assert Snprintf(buffer, Format(f)) == Format(f) + ([NUL] + buffer[n + 1..]);
    if f >= 0 { ScanWhole(f); }
  }

  /** sysfs show functions and the daemon's reads: the shown number comes back through atoi. */
  lemma ReadIsShown(f: int)
    requires -TWO_TO_31 < f < TWO_TO_31
    ensures Atoi(ReadInto20(Format(f) + ['\n'])) == f
  {
    FormatFits(f);
    var text := Format(f) + ['\n'];
    var zeros := seq(20 - |text|, _ => NUL);
    assert ReadInto20(text) == text + zeros;
    CStringPrefix(text, zeros);
    assert SkipSpace(text) == text;
    if f < 0 {
      assert text[1..] == Digits(-f) + ['\n'];
      ScanWhole(-f);
    } else {
      ScanWhole(f);
    }
  }

  /** The interrupt counter's text comes back through Rust's trim and parse. */
  lemma ParsedIsShown(f: nat)
    requires f < TWO_TO_31
    ensures TrimParseU32(Format(f) + ['\n']) == Value(f)
  {
    var text := Digits(f) + ['\n'];
    assert text[..|text| - 1] == Digits(f);
    assert TrimEnd(text) == TrimEnd(Digits(f)) == Digits(f);
    ScanWhole(f);
  }

  /** A negative count (a wrapped counter) never parses as a u32. */
  lemma NegativeIsInvalid(f: int)
    requires f < 0
    ensures TrimParseU32(Format(f) + ['\n']) == Invalid
  {
    var text := Format(f) + ['\n'];
    assert text[..|text| - 1] == Format(f);
    assert TrimEnd(text) == TrimEnd(Format(f)) == Format(f);
  }
}
