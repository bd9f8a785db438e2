// kern/lib/printfmt.c: printnum and the escape state machine of vprintfmt. Characters go to a sink that
// collects them; variadic arguments are a stream read through a cursor.
module Printfmt {
  import opened Words

  type u64 = x: int | 0 <= x < 0x1_0000_0000_0000_0000

  // A C string: its only NUL is the last character.
  predicate CString(s: string) {
    |s| > 0 && s[|s| - 1] == '\0' && forall k :: 0 <= k < |s| - 1 ==> s[k] != '\0'
  }

  type Plain = s: string | '\0' !in s

  // A variadic argument: its raw value, and the string at that address when it is read as a pointer.
  datatype Text = Null | At(chars: Plain)
  datatype Arg = Arg(value: u64, text: Text)
  type Args = nat -> Arg

  function Rep(c: char, n: int): (s: string)
    ensures |s| == Max(n, 0) && forall k :: 0 <= k < |s| ==> s[k] == c
  { seq(Max(n, 0), _ => c) }

  lemma RepStep(c: char, n: nat)
    ensures Rep(c, n) + [c] == Rep(c, n + 1)
  {
  }

  /* ----- printnum ----- */

  function DigitChar(d: int): char
    requires 0 <= d < 16
  { "0123456789abcdef"[d] }

  function Digits(num: nat, base: int): (s: string)
    requires 2 <= base <= 16
    ensures |s| > 0
    decreases num
  { (if num >= base then Digits(num / base, base) else []) + [DigitChar(num % base)] }

  // A number right-aligned in a field of the given width.
  function Number(num: nat, base: int, width: int, padc: char): string
    requires 2 <= base <= 16
  { Rep(padc, width - |Digits(num, base)|) + Digits(num, base) }

  lemma PadMoves(num: nat, base: int, width: int, padc: char)
    requires 2 <= base <= 16 && num >= base
    ensures Number(num, base, width, padc) == Number(num / base, base, width - 1, padc) + [DigitChar(num % base)]
  {
  }

  lemma PadHere(num: nat, base: int, width: int, padc: char)
    requires 2 <= base <= 16 && num < base
    ensures Number(num, base, width, padc) == Rep(padc, width - 1) + [DigitChar(num % base)]
  {
  }

  // The field is as wide as asked for, and wider only when the digits need it.
  lemma {:induction false} NumberWidth(num: nat, base: int, width: int, padc: char)
    requires 2 <= base <= 16
    ensures |Number(num, base, width, padc)| == if width > |Digits(num, base)| then width else |Digits(num, base)|
  {
  }

  // Every digit is a lower-case one, and stands for the remainder it was made of.
  lemma {:induction false} DigitsLower(num: nat, base: int)
    requires 2 <= base <= 16
    ensures forall k :: 0 <= k < |Digits(num, base)| ==>
      '0' <= Digits(num, base)[k] <= '9' || 'a' <= Digits(num, base)[k] <= 'f'
    ensures var c := Digits(num, base)[|Digits(num, base)| - 1]; var d := num % base;
      c == if d < 10 then '0' + d as char else 'a' + (d - 10) as char
    decreases num
  {
    hide Digits, DigitChar;
    LastDigit(num, base);
    LowerDigit(num % base);
    if num >= base {
      SmallerNumber(num, base);
      DigitsLower(num / base, base);
    }
  }

  lemma {:induction false} LastDigit(num: nat, base: int)
    requires 2 <= base <= 16
    ensures Digits(num, base) == (if num >= base then Digits(num / base, base) else "") + [DigitChar(num % base)]
  {
    hide DigitChar;
  }

  lemma SmallerNumber(num: nat, base: int)
    requires 2 <= base <= num
    ensures 0 <= num / base < num
  {
  }

  lemma LowerDigit(d: int)
    requires 0 <= d < 16
    ensures DigitChar(d) == if d < 10 then '0' + d as char else 'a' + (d - 10) as char
  {
  }

  // A number in its field: pad characters, as many as are missing, and then the digits.
  lemma {:induction false} NumberMeans(num: nat, base: int, width: int, padc: char)
    requires 2 <= base <= 16
    ensures var r, n := Number(num, base, width, padc), |Digits(num, base)|;
      && |r| == (if width > n then width else n) && r[|r| - n..] == Digits(num, base)
      && forall k :: 0 <= k < |r| - n ==> r[k] == padc
  {
    hide Digits;
  }

  /* ----- one conversion ----- */

  // process_precision: the first number of an escape is the width, the second the precision.
  datatype Flags = Flags(padc: char, width: int, precision: int, lflag: nat, alt: bool) {
    function Settle(n: int): Flags { if width < 0 then this.(width := n, precision := -1) else this.(precision := n) }
  }

  const FRESH := Flags(' ', -1, -1, 0, false)

  function Unsigned(v: u64, lflag: nat): nat { if lflag >= 2 then v else v % 0x1_0000_0000 }

  function Signed(v: u64, lflag: nat): int {
    if lflag < 2 then ToI32(v) else if v < 0x8000_0000_0000_0000 then v else v - 0x1_0000_0000_0000_0000
  }

  function SignedNumber(v: int, width: int, padc: char): string {
    if v < 0 then "-" + Number(-v, 10, width, padc) else Number(v, 10, width, padc)
  }

  // The part of a string that a precision admits; a negative precision admits all of it.
  function Admitted(t: Plain, precision: int): Plain {
    if precision < 0 || |t| <= precision then t else t[..precision]
  }

  function Visible(c: char, alt: bool): char { if alt && (c < ' ' || c > '~') then '?' else c }

  function Mask(t: string, alt: bool): (r: string)
    ensures |r| == |t| && forall k :: 0 <= k < |t| ==> r[k] == Visible(t[k], alt)
  { seq(|t|, k requires 0 <= k < |t| => Visible(t[k], alt)) }

  // A string in its field: padded on the left with the pad character, or on the right with spaces.
  function TextField(t: Plain, f: Flags): string {
    var shown := Mask(Admitted(t, f.precision), f.alt);
    if f.padc != '-' then Rep(f.padc, f.width - |shown|) + shown else shown + Rep(' ', f.width - |shown|)
  }

  // Never narrower than asked for, never longer than the precision admits unless the width demands it.
  lemma TextWidth(t: Plain, f: Flags)
    ensures |TextField(t, f)| == Max(f.width, if f.precision < 0 then |t| else Min(|t|, f.precision))
  {
  }

  predicate Known(c: char) {
    c == 'c' || c == 's' || c == 'd' || c == 'u' || c == 'o' || c == 'p' || c == 'x' || c == '%'
  }

  function Pointee(a: Arg): Plain { if a.text.Null? then "(null)" else a.text.chars }

  function Convert(f: Flags, c: char, a: Arg): string
    requires Known(c)
  {
    match c
    case 'c' => [(a.value % 0x100) as char]
    case 's' => TextField(Pointee(a), f)
    case 'd' => SignedNumber(Signed(a.value, f.lflag), f.width, f.padc)
    case 'u' => Number(Unsigned(a.value, f.lflag), 10, f.width, f.padc)
    case 'o' => Number(Unsigned(a.value, f.lflag), 8, f.width, f.padc)
    case 'p' => "0x" + Number(a.value % 0x1_0000_0000, 16, f.width, f.padc)
    case 'x' => Number(Unsigned(a.value, f.lflag), 16, f.width, f.padc)
    case _ => "%"
  }

  // A string field: the part of the string the precision admits, character for character, behind pad
  // characters or, left-justified, before spaces; with the alternate flag exactly the characters that are not
  // printable ASCII appear as '?'.
  ghost predicate TextReads(r: string, t: string, f: Flags) {
    var n := if f.precision < 0 || |t| <= f.precision then |t| else f.precision;
    var pad := if f.width > n then f.width - n else 0;
    var left := if f.padc == '-' then 0 else pad;
    && |r| == n + pad
    && (forall k :: left <= k < left + n ==> r[k] == if f.alt && !(' ' <= t[k - left] <= '~') then '?' else t[k - left])
    && (forall k :: 0 <= k < left ==> r[k] == f.padc)
    && (forall k :: left + n <= k < n + pad ==> r[k] == ' ')
  }

  // A null pointer prints as (null).
  lemma TextMeans(f: Flags, a: Arg)
    ensures TextReads(Convert(f, 's', a), if a.text.Null? then "(null)" else a.text.chars, f)
  {
    hide TextReads, TextField, Convert;
    ConvertText(f, a);
    FieldReads(Pointee(a), f);
  }

  lemma FieldReads(t: Plain, f: Flags)
    ensures TextReads(TextField(t, f), t, f)
  {
    var n := if f.precision < 0 || |t| <= f.precision then |t| else f.precision;
    AdmittedIs(t, f, n);
    TextIs(t, f);
    hide Mask, Admitted, TextField;
  }

  lemma ConvertText(f: Flags, a: Arg)
    ensures Convert(f, 's', a) == TextField(Pointee(a), f)
    ensures Pointee(a) == if a.text.Null? then "(null)" else a.text.chars
  {
    hide TextField;
  }

  lemma AdmittedIs(t: Plain, f: Flags, n: int)
    requires n == if f.precision < 0 || |t| <= f.precision then |t| else f.precision
    ensures var shown := Mask(Admitted(t, f.precision), f.alt);
      |shown| == n && forall k :: 0 <= k < n ==> shown[k] == if f.alt && !(' ' <= t[k] <= '~') then '?' else t[k]
  {
  }

  lemma TextIs(t: Plain, f: Flags)
    ensures var shown := Mask(Admitted(t, f.precision), f.alt); var pad := Max(f.width - |shown|, 0);
      TextField(t, f) == if f.padc != '-' then Rep(f.padc, pad) + shown else shown + Rep(' ', pad)
  {
    hide Mask, Admitted;
  }

  // The other conversions.
  lemma ConversionsMean(f: Flags, a: Arg)
    ensures Convert(f, 'c', a) == [(a.value % 0x100) as char]
    ensures var v := if f.lflag >= 2 then a.value else a.value % 0x1_0000_0000;
      && Convert(f, 'u', a) == Number(v, 10, f.width, f.padc)
      && Convert(f, 'o', a) == Number(v, 8, f.width, f.padc)
      && Convert(f, 'x', a) == Number(v, 16, f.width, f.padc)
    ensures Convert(f, 'p', a) == "0x" + Number(a.value % 0x1_0000_0000, 16, f.width, f.padc)
    ensures f.lflag >= 2 && a.value >= 0x8000_0000_0000_0000 ==>
      Convert(f, 'd', a) == "-" + Number(0x1_0000_0000_0000_0000 - a.value, 10, f.width, f.padc)
    ensures f.lflag >= 2 && a.value < 0x8000_0000_0000_0000 ==>
      Convert(f, 'd', a) == Number(a.value, 10, f.width, f.padc)
    ensures var v := a.value % 0x1_0000_0000;
      && (f.lflag < 2 && v >= 0x8000_0000 ==>
          Convert(f, 'd', a) == "-" + Number(0x1_0000_0000 - v, 10, f.width, f.padc))
      && (f.lflag < 2 && v < 0x8000_0000 ==> Convert(f, 'd', a) == Number(v, 10, f.width, f.padc))
  {
    hide Number, ToI32;
    LowHalf(a.value);
  }

  lemma LowHalf(v: u64)
    ensures ToI32(v) == var w := v % 0x1_0000_0000; if w < 0x8000_0000 then w else w - 0x1_0000_0000
  {
    var q, w := v / 0x1_0000_0000, v % 0x1_0000_0000;
    assert v + 0x8000_0000 == 0x1_0000_0000 * q + (w + 0x8000_0000);
  }

  /* ----- the escape state machine ----- */

  predicate IsDigit(c: char) { '0' <= c <= '9' }

  predicate IsFlag(c: char) { c == '-' || IsDigit(c) || c == '*' || c == '.' || c == '#' || c == 'l' }

  function NumEnd(s: string, i: nat): (j: nat)
    requires CString(s) && i < |s|
    ensures i <= j < |s| && !IsDigit(s[j]) && forall k :: i <= k < j ==> IsDigit(s[k])
    decreases |s| - i
  { if IsDigit(s[i]) then NumEnd(s, i + 1) else i }

  function Numeral(s: string): int {
    if s == "" then 0 else Numeral(s[..|s| - 1]) * 10 + (s[|s| - 1] as int - '0' as int)
  }

  datatype Escape = Escape(flags: Flags, conv: char, next: nat, cursor: nat)

  // One pass through the switch at a flag, digit or star: the next position, flags and argument number.
  function Step(s: string, i: nat, f: Flags, args: Args, k: nat): (r: (nat, Flags, nat))
    requires CString(s) && i < |s| && IsFlag(s[i])
    ensures i < r.0 < |s| && k <= r.2 && forall j :: i <= j < r.0 ==> IsFlag(s[j])
  {
    var c := s[i];
    if c == '-' then (i + 1, f.(padc := '-'), k)
    else if c == '0' then (i + 1, f.(padc := '0'), k)
    else if IsDigit(c) then var j := NumEnd(s, i + 1); (j, f.Settle(Numeral(s[i..j])), k)
    else if c == '*' then (i + 1, f.Settle(ToI32(args(k).value)), k + 1)
    else if c == '.' then (i + 1, f.(width := Max(f.width, 0)), k)
    else if c == '#' then (i + 1, f.(alt := true), k)
    else (i + 1, f.(lflag := f.lflag + 1), k)
  }

  // From the character after the % (or after a flag) to the conversion character.
  function Reswitch(s: string, i: nat, f: Flags, args: Args, k: nat): (e: Escape)
    requires CString(s) && i < |s|
    ensures i < e.next <= |s| && e.conv == s[e.next - 1] && !IsFlag(e.conv) && k <= e.cursor
    ensures forall j :: i <= j < e.next - 1 ==> IsFlag(s[j])
    decreases |s| - i
  {
    hide Step, IsFlag, CString;
    if IsFlag(s[i]) then var (j, g, m) := Step(s, i, f, args, k); Reswitch(s, j, g, args, m)
    else Escape(f, s[i], i + 1, k)
  }

  // What vprintfmt prints from position i on, with arguments from number k on.
  function Fmt(s: string, i: nat, args: Args, k: nat): string
    requires CString(s) && i < |s|
    decreases |s| - i
  {
    if s[i] == '\0' then ""
    else if s[i] != '%' then [s[i]] + Fmt(s, i + 1, args, k)
    else
      var e := Reswitch(s, i + 1, FRESH, args, k);
      if !Known(e.conv) then "%" + Fmt(s, i + 1, args, e.cursor)
      else
        var cursor := if e.conv == '%' then e.cursor else e.cursor + 1;
        Convert(e.flags, e.conv, args(e.cursor)) + Fmt(s, e.next, args, cursor)
  }

  lemma FmtChar(o: string, s: string, i: nat, args: Args, k: nat)
    requires CString(s) && i < |s| && s[i] != '%'
    ensures s[i] == '\0' ==> o + Fmt(s, i, args, k) == o
    ensures s[i] != '\0' ==> i + 1 < |s| && o + Fmt(s, i, args, k) == (o + [s[i]]) + Fmt(s, i + 1, args, k)
  {
  }

  lemma FmtEscape(s: string, i: nat, args: Args, k: nat)
    requires CString(s) && i + 1 < |s| && s[i] == '%'
    ensures var e := Reswitch(s, i + 1, FRESH, args, k);
      Fmt(s, i, args, k) ==
        if !Known(e.conv) then "%" + Fmt(s, i + 1, args, e.cursor)
        else if e.conv == '%' then "%" + Fmt(s, e.next, args, e.cursor)
        else Convert(e.flags, e.conv, args(e.cursor)) + Fmt(s, e.next, args, e.cursor + 1)
  {
    hide Reswitch;
  }

  // Text without a % is copied.
  lemma {:induction false} FmtText(s: string, i: nat, j: nat, args: Args, k: nat)
    requires CString(s) && i <= j < |s| && forall n :: i <= n < j ==> s[n] != '%'
    ensures Fmt(s, i, args, k) == s[i..j] + Fmt(s, j, args, k)
    decreases j - i
  {
    hide Fmt;
    if i < j {
      FmtText(s, i + 1, j, args, k);
      FmtChar([], s, i, args, k);
      assert [] + Fmt(s, i, args, k) == Fmt(s, i, args, k);
      assert s[i..j] + Fmt(s, j, args, k) == [s[i]] + (s[i + 1..j] + Fmt(s, j, args, k));
    } else {
      assert s[i..i] + Fmt(s, i, args, k) == Fmt(s, i, args, k);
    }
  }

  // An escape that ends in a character which is no conversion, the terminating NUL included, is printed
  // as it stands, and formatting goes on at that character; arguments its stars took stay taken.
  lemma FmtUnknown(s: string, i: nat, args: Args, k: nat)
    requires CString(s) && i + 1 < |s| && s[i] == '%' && !Known(Reswitch(s, i + 1, FRESH, args, k).conv)
    ensures var e := Reswitch(s, i + 1, FRESH, args, k);
      i < e.next - 1 && Fmt(s, i, args, k) == s[i..e.next - 1] + Fmt(s, e.next - 1, args, e.cursor)
  {
    hide Convert, Reswitch, Fmt;
    var e := Reswitch(s, i + 1, FRESH, args, k);
    FmtEscape(s, i, args, k);
    assert forall n :: i + 1 <= n < e.next - 1 ==> s[n] != '%';
    FmtText(s, i + 1, e.next - 1, args, e.cursor);
    assert s[i..e.next - 1] == "%" + s[i + 1..e.next - 1];
  }

  class Sink {
    var out: string

    constructor ()
      ensures out == ""
    { out := ""; }

    method Putch(c: char)
      modifies this
      ensures out == old(out) + [c]
    { out := out + [c]; }

    // Prints the more significant digits first, by recursion; the innermost call pads.
    method Printnum(num: nat, base: int, width: int, padc: char)
      requires 2 <= base <= 16
      modifies this
      ensures out == old(out) + Number(num, base, width, padc)
      decreases num
    {
      hide DigitChar, Digits, Number, Rep;
      if num >= base {
        Printnum(num / base, base, width - 1, padc);
        PadMoves(num, base, width, padc);
      } else {
        var _ := PutPad(padc, width - 1);
        PadHere(num, base, width, padc);
      }
      Putch(DigitChar(num % base));
    }

    // strnlen(p, precision), the precision cast to an unsigned size
    static method Strnlen(p: string, precision: int) returns (n: nat)
      requires CString(p)
      ensures n == |Admitted(p[..|p| - 1], precision)|
    {
      n := 0;
      while (precision < 0 || n < precision) && p[n] != '\0'
        invariant 0 <= n <= |p| - 1 && (precision >= 0 ==> n <= precision)
        decreases |p| - n
      {
        n := n + 1;
      }
    }

    method PrintText(p: string, f: Flags)
      requires CString(p)
      modifies this
      ensures out == old(out) + TextField(p[..|p| - 1], f)
    {
      hide Rep, Mask, Admitted;
      var width := f.width;
      if width > 0 && f.padc != '-' {
        var n := Strnlen(p, f.precision);
        width := PutPad(f.padc, width - n);
      }
      width := PutShown(p, f, width);
      width := PutPad(' ', width);
    }

    // The characters themselves; each one uses up a column.
    method PutShown(p: string, f: Flags, width0: int) returns (width: int)
      requires CString(p)
      modifies this
      ensures var shown := Mask(Admitted(p[..|p| - 1], f.precision), f.alt);
        out == old(out) + shown && width == width0 - |shown|
    {
      hide Mask;
      ghost var shown := Mask(Admitted(p[..|p| - 1], f.precision), f.alt);
      ghost var o := out;
      var precision := f.precision;
      width := width0;
      var j := 0;
      var ch := p[0];
      while ch != '\0' && (precision < 0 || precision - 1 >= 0)
        invariant 0 <= j <= |shown| && j < |p| && ch == p[j] && width == width0 - j && out == o + shown[..j]
        invariant f.precision < 0 ==> precision == f.precision
        invariant f.precision >= 0 ==> precision == f.precision - j
        decreases |p| - j
      {
        precision := if precision < 0 then precision else precision - 1;
        Putch(if f.alt && (ch < ' ' || ch > '~') then '?' else ch);
        j, ch, width := j + 1, p[j + 1], width - 1;
      }
      assert shown[..j] == shown;
    }

    // for (; width > 0; width--) putch(c)
    method PutPad(c: char, n: int) returns (left: int)
      modifies this
      ensures out == old(out) + Rep(c, n) && left == Min(n, 0)
    {
      ghost var o := out;
      left := n;
      while left > 0
        invariant left <= n && (n >= 0 ==> left >= 0) && (n < 0 ==> left == n) && out == o + Rep(c, n - Max(left, 0))
      {
        RepStep(c, n - left);
        Putch(c);
        left := left - 1;
      }
    }

    static method TakeFlag(s: string, i0: nat, f0: Flags, args: Args, k0: nat) returns (i: nat, f: Flags, k: nat)
      requires CString(s) && i0 < |s| && IsFlag(s[i0])
      ensures (i, f, k) == Step(s, i0, f0, args, k0)
    {
      hide NumEnd, Numeral, ToI32;
      var Flags(padc, width, precision, lflag, alt) := f0;
      i, k := i0 + 1, k0;
      var ch := s[i0];
      if ch == '-' {
        padc := '-';
      } else if ch == '0' {
        padc := '0';
      } else if IsDigit(ch) {
        precision, i := ReadNumber(s, i0);
        if width < 0 {
          width, precision := precision, -1;
        }
      } else if ch == '*' {
        precision := ToI32(args(k).value);
        k := k + 1;
        if width < 0 {
          width, precision := precision, -1;
        }
      } else if ch == '.' {
        if width < 0 {
          width := 0;
        }
      } else if ch == '#' {
        alt := true;
      } else {
        lflag := lflag + 1;
      }
      f := Flags(padc, width, precision, lflag, alt);
    }

    // reswitch: flags, width and precision, up to the conversion character.
    static method ReadEscape(s: string, start: nat, args: Args, k0: nat) returns (e: Escape)
      requires CString(s) && start < |s|
      ensures e == Reswitch(s, start, FRESH, args, k0)
    {
      hide Step, IsFlag;
      var i, f, k := start, FRESH, k0;
      while IsFlag(s[i])
        invariant start <= i < |s| && Reswitch(s, i, f, args, k) == Reswitch(s, start, FRESH, args, k0)
        decreases |s| - i
      {
        i, f, k := TakeFlag(s, i, f, args, k);
      }
      e := Escape(f, s[i], i + 1, k);
    }

    // Everything after a %; an unrecognised escape walks the cursor back to just after that %.
    method PutEscape(s: string, start: nat, args: Args, k0: nat) returns (i: nat, k: nat)
      requires CString(s) && 0 < start < |s| && s[start - 1] == '%'
      modifies this
      ensures start <= i < |s| && out + Fmt(s, i, args, k) == old(out) + Fmt(s, start - 1, args, k0)
    {
      hide Convert, Reswitch, Fmt;
      ghost var o := out;
      var e := ReadEscape(s, start, args, k0);
      FmtEscape(s, start - 1, args, k0);
      i, k := e.next, e.cursor;
      if !Known(e.conv) {
        Putch('%');
        i := i - 1;
        while s[i - 1] != '%'
          invariant start <= i <= e.next - 1
          decreases i
        {
          i := i - 1;
        }
      } else if e.conv == '%' {
        Putch(e.conv);
      } else {
        PutConversion(e.flags, e.conv, args(k));
        k := k + 1;
      }
      assert out + Fmt(s, i, args, k) == o + (out[|o|..] + Fmt(s, i, args, k));
    }

    // Reads of s stay inside the string and its NUL, also while the cursor walks back; it terminates on
    // every format.
    method Vprintfmt(s: string, args: Args)
      requires CString(s)
      modifies this
      ensures out == old(out) + Fmt(s, 0, args, 0)
    {
      hide Fmt;
      ghost var all := out + Fmt(s, 0, args, 0);
      var i, k := 0, 0;
      while true
        invariant 0 <= i < |s| && 0 <= k && out + Fmt(s, i, args, k) == all
        decreases |s| - i
      {
        var ch := s[i];
        i := i + 1;
        while ch != '%'
          invariant 0 < i <= |s| && ch == s[i - 1] && out + Fmt(s, i - 1, args, k) == all
          decreases |s| - i
        {
          FmtChar(out, s, i - 1, args, k);
          if ch == '\0' {
            return;
          }
          Putch(ch);
          ch := s[i];
          i := i + 1;
        }
        i, k := PutEscape(s, i, args, k);
      }
    }

    // The digits of a width or precision, the first one already read at i.
    static method ReadNumber(s: string, i: nat) returns (n: int, j: nat)
      requires CString(s) && i < |s| && IsDigit(s[i])
      ensures j == NumEnd(s, i + 1) && n == Numeral(s[i..j])
    {
      n, j := 0, i;
      var ch := s[i];
      while true
        invariant i <= j < |s| - 1 && ch == s[j] && IsDigit(ch) && NumEnd(s, i + 1) == NumEnd(s, j + 1)
        invariant n == Numeral(s[i..j])
        decreases |s| - j
      {
        n := n * 10 + ch as int - '0' as int;
        j := j + 1;
        assert s[i..j][..j - 1 - i] == s[i..j - 1];
        ch := s[j];
        if ch < '0' || ch > '9' {
          return;
        }
      }
    }

    method PutConversion(f: Flags, c: char, a: Arg)
      requires Known(c) && c != '%'
      modifies this
      ensures out == old(out) + Convert(f, c, a)
    {
      hide TextField, Number, Signed, Unsigned;
      match c
      case 'c' => Putch((a.value % 0x100) as char);
      case 's' =>
        var p := Pointee(a) + ['\0'];
        assert p[..|p| - 1] == Pointee(a);
        PrintText(p, f);
      case 'd' =>
        var num := Signed(a.value, f.lflag);
        if num < 0 {
          Putch('-');
          num := -num;
        }
        Printnum(num, 10, f.width, f.padc);
      case 'u' => Printnum(Unsigned(a.value, f.lflag), 10, f.width, f.padc);
      case 'o' => Printnum(Unsigned(a.value, f.lflag), 8, f.width, f.padc);
      case 'p' =>
        Putch('0');
        Putch('x');
        Printnum(a.value % 0x1_0000_0000, 16, f.width, f.padc);
      case _ => Printnum(Unsigned(a.value, f.lflag), 16, f.width, f.padc);
    }
  }
}
