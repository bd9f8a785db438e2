// What printfmt.c prints, strtol reads back: numbers, signed fields, and whole formats.
module FormatParse {
  import opened Words
  import opened Printfmt
  import opened Strtol

  /* ----- printing and parsing back ----- */

  lemma BaseChar(c: char, base: int)
    requires InBase(c, base) && base <= 16
    ensures !IsBlank(c) && c != '+' && c != '-' && c != 'x' && c != '\0'
  {
  }

  // A string of blanks up to i, a sign up to d, and digits up to its NUL.
  lemma {:induction false} ParseAt(s: string, i: nat, d: nat, base: int)
    requires CString(s) && i <= d < |s| - 1 && 2 <= base <= 16
    requires (forall k :: 0 <= k < i ==> IsBlank(s[k])) && !IsBlank(s[i]) && Signless(s, i) == d
    requires forall k :: d <= k < |s| - 1 ==> InBase(s[k], base)
    ensures var v := Value(s[d..|s| - 1], base); Parse(s, base) == (ToI32(if s[i] == '-' then -v else v), |s| - 1)
  {
    assert DigitOf('\0') == -1;
    BaseChar(s[d], base);
    if d + 1 < |s| - 1 {
      BaseChar(s[d + 1], base);
    }
    hide Accumulate, Value, ToI32, IsBlank, DigitOf;
    assert SkipBlanks(s, 0) == i;
    assert DigitsEnd(s, d, base) == |s| - 1;
    AccumulateWraps(s[d..|s| - 1], base);
    NegWraps(Value(s[d..|s| - 1], base));
  }

  // Blanks, a sign, and digits up to the end of the string.
  lemma {:induction false} ParseField(blanks: nat, sign: string, ds: string, base: int)
    requires (sign == "" || sign == "-") && 2 <= base <= 16
    requires |ds| > 0 && forall k :: 0 <= k < |ds| ==> InBase(ds[k], base)
    ensures var s := Rep(' ', blanks) + sign + ds + "\0";
      CString(s) && Parse(s, base) == (ToI32(if sign == "-" then -Value(ds, base) else Value(ds, base)), |s| - 1)
  {
    var s := Rep(' ', blanks) + sign + ds + "\0";
    var d := blanks + |sign|;
    hide Value, ToI32, InBase, Parse;
    SpacedChars(blanks, sign, ds, base);
    BaseChar(ds[0], base);
    assert s[d] == ds[0] && s[d..|s| - 1] == ds;
    ParseAt(s, blanks, d, base);
  }

  lemma SpacedChars(blanks: nat, sign: string, ds: string, base: int)
    requires (sign == "" || sign == "-") && 2 <= base <= 16
    requires |ds| > 0 && forall k :: 0 <= k < |ds| ==> InBase(ds[k], base)
    ensures var s := Rep(' ', blanks) + sign + ds + "\0";
      CString(s) && forall k :: blanks + |sign| <= k < |s| - 1 ==> InBase(s[k], base)
  {
  }

  // strtol after printnum, padded with spaces or zeros: all is consumed, and the value is the number cut
  // to a 32-bit long.
  lemma ParseNumber(num: nat, base: int, width: int, padc: char)
    requires 2 <= base <= 16 && (padc == ' ' || padc == '0')
    ensures var s := Number(num, base, width, padc); CString(s + "\0") && Parse(s + "\0", base) == (ToI32(num), |s|)
  {
    hide Digits, Parse, Value, ToI32, InBase, Rep, Number, CString;
    var ds := Digits(num, base);
    var n := Max(width - |ds|, 0);
    DigitsValue(num, base);
    NumberField(num, base, width, padc);
    if padc == ' ' {
      ParseField(n, "", ds, base);
      assert Rep(' ', n) + "" + ds == Rep(' ', n) + ds;
    } else {
      ParseZeros(n, ds, base);
    }
  }

  lemma {:induction false} NumberField(num: nat, base: int, width: int, padc: char)
    requires 2 <= base <= 16
    ensures var ds := Digits(num, base); Number(num, base, width, padc) == Rep(padc, Max(width - |ds|, 0)) + ds
  {
  }

  lemma {:induction false} ParseZeros(n: nat, ds: string, base: int)
    requires 2 <= base <= 16 && |ds| > 0 && forall k :: 0 <= k < |ds| ==> InBase(ds[k], base)
    ensures var s := Rep('0', n) + ds; CString(s + "\0") && Parse(s + "\0", base) == (ToI32(Value(ds, base)), |s|)
  {
    hide Parse, Value, ToI32, InBase;
    ZerosInBase(n, ds, base);
    LeadingZeros(n, ds, base);
    ParseField(0, "", Rep('0', n) + ds, base);
    assert Rep(' ', 0) + "" + (Rep('0', n) + ds) == Rep('0', n) + ds;
  }

  // So the number comes back exactly when it is below 2^31.
  lemma RoundTrip(num: nat, base: int, width: int, padc: char)
    requires 2 <= base <= 16 && (padc == ' ' || padc == '0')
    ensures var s := Number(num, base, width, padc);
      CString(s + "\0") && (Parse(s + "\0", base) == (num, |s|) <==> num < 0x8000_0000)
  {
    WrapParts(num);
    WrapSmall(num);
    hide Parse, Number, ToI32;
    ParseNumber(num, base, width, padc);
  }

  lemma ZerosInBase(n: nat, ds: string, base: int)
    requires 2 <= base && forall k :: 0 <= k < |ds| ==> InBase(ds[k], base)
    ensures var zs := Rep('0', n) + ds; forall k :: 0 <= k < |zs| ==> InBase(zs[k], base)
  {
  }

  lemma WrapSmall(v: int)
    requires -0x8000_0000 <= v
    ensures v < 0x8000_0000 ==> ToI32(v) == v
  {
  }

  /* ----- signed fields ----- */

  // A minus sign with no digit behind it: strtol yields zero and stops after the sign.
  lemma ParseStops(s: string)
    requires CString(s) && |s| > 2 && s[0] == '-' && !InBase(s[1], 10)
    ensures Parse(s, 10) == (0, 1)
  {
  }

  lemma {:induction false} SignedDigits(v: int, n: nat, sign: string)
    requires sign == (if v < 0 then "-" else "")
    ensures var ds := Digits(if v < 0 then -v else v, 10); var s := sign + (Rep('0', n) + ds);
      CString(s + "\0") && Parse(s + "\0", 10) == (ToI32(v), |s|)
  {
    hide Digits, Parse, Value, ToI32, InBase, Rep, CString;
    var ds := Digits(if v < 0 then -v else v, 10);
    DigitsValue(if v < 0 then -v else v, 10);
    ZerosInBase(n, ds, 10);
    LeadingZeros(n, ds, 10);
    ParseField(0, sign, Rep('0', n) + ds, 10);
    assert Rep(' ', 0) + sign + (Rep('0', n) + ds) == sign + (Rep('0', n) + ds);
  }

  // Padding characters in front of the digits of v.
  function Padding(v: int, width: int): nat { Max(width - |Digits(if v < 0 then -v else v, 10)|, 0) }

  lemma {:induction false} SignedField(v: int, width: int, padc: char)
    ensures var ds := Digits(if v < 0 then -v else v, 10);
      SignedNumber(v, width, padc) == (if v < 0 then "-" else "") + (Rep(padc, Padding(v, width)) + ds)
  {
  }

  // Which padded %d fields strtol reads back: all that are not padded, all padded with zeros, and the
  // non-negative ones padded with spaces. %-d pads on the left with minus signs, which only "-0" survives.
  predicate Readable(v: int, width: int, padc: char) {
    Padding(v, width) == 0 || padc == '0' || (padc == ' ' && v >= 0)
      || (padc == '-' && v == 0 && Padding(v, width) == 1)
  }

  lemma SignedRoundTrip(v: int, width: int, padc: char)
    requires -0x8000_0000 <= v < 0x8000_0000 && (padc == ' ' || padc == '0' || padc == '-')
    ensures var s := SignedNumber(v, width, padc);
      CString(s + "\0") && (Parse(s + "\0", 10) == (v, |s|) <==> Readable(v, width, padc))
  {
    WrapSmall(v);
    hide Digits, Parse, ToI32, Number, Rep, CString, SignedNumber, InBase;
    var n := Padding(v, width);
    var ds := Digits(if v < 0 then -v else v, 10);
    SignedField(v, width, padc);
    if n == 0 || padc == '0' {
      SamePad(padc, '0', n);
      SignedDigits(v, n, if v < 0 then "-" else "");
    } else if v >= 0 && padc == ' ' {
      ParseNumber(v, 10, width, ' ');
      NumberField(v, 10, width, ' ');
      assert "" + (Rep(' ', n) + ds) == Rep(' ', n) + ds;
    } else if v >= 0 && n == 1 {
      MinusPad(v, ds);
    } else {
      Unreadable(v, n, padc);
    }
  }

  lemma SamePad(c: char, d: char, n: nat)
    requires n == 0 || c == d
    ensures Rep(c, n) == Rep(d, n)
  {
  }

  lemma {:induction false} MinusPad(v: int, ds: string)
    requires 0 <= v < 0x8000_0000 && ds == Digits(v, 10)
    ensures var s := "" + (Rep('-', 1) + ds); CString(s + "\0") && (Parse(s + "\0", 10) == (v, |s|) <==> v == 0)
  {
    hide Digits, Parse, ToI32, Rep, CString, InBase, Value;
    WrapSmall(-v);
    assert "" + (Rep('-', 1) + ds) == Rep(' ', 0) + "-" + ds;
    DigitsValue(v, 10);
    ParseField(0, "-", ds, 10);
  }

  // A sign followed by a space or by another minus sign.
  lemma Unreadable(v: int, n: nat, padc: char)
    requires n > 0 && (padc == ' ' || padc == '-') && (v < 0 || (padc == '-' && n > 1))
    ensures var s := (if v < 0 then "-" else "") + (Rep(padc, n) + Digits(if v < 0 then -v else v, 10));
      CString(s + "\0") && Parse(s + "\0", 10) == (0, 1) && |s| > 1
  {
    var ds := Digits(if v < 0 then -v else v, 10);
    var s := (if v < 0 then "-" else "") + (Rep(padc, n) + ds);
    hide Digits, Parse, Value;
    DigitsValue(if v < 0 then -v else v, 10);
    forall k | 0 <= k < |ds|
      ensures ds[k] != '\0'
    {
      BaseChar(ds[k], 10);
    }
    ParseStops(s + "\0");
  }

  /* ----- whole formats ----- */

  function WidthDigits(width: nat): string { if width == 0 then "" else Digits(width, 10) }

  // An escape with an optional zero flag and an optional width.
  function FieldSpec(zero: bool, width: nat, conv: char): string {
    "%" + (if zero then "0" else "") + WidthDigits(width) + [conv]
  }

  function FieldFlags(zero: bool, width: nat): Flags {
    Flags(if zero then '0' else ' ', if width == 0 then -1 else width, -1, 0, false)
  }

  lemma {:induction false} NumeralValue(ds: string)
    requires forall k :: 0 <= k < |ds| ==> InBase(ds[k], 10)
    ensures Numeral(ds) == Value(ds, 10)
  {
    if ds != "" {
      assert InBase(ds[|ds| - 1], 10);
      NumeralValue(ds[..|ds| - 1]);
    }
  }

  lemma ZeroStep(s: string, i: nat, f: Flags, args: Args, k: nat)
    requires CString(s) && i < |s| && s[i] == '0'
    ensures i + 1 < |s| && Reswitch(s, i, f, args, k) == Reswitch(s, i + 1, f.(padc := '0'), args, k)
  {
  }

  lemma {:induction false} NumberStep(s: string, i: nat, n: nat, f: Flags, args: Args, k: nat)
    requires CString(s) && n > 0
    requires var j := i + |Digits(n, 10)|; j < |s| && s[i..j] == Digits(n, 10) && !IsDigit(s[j])
    ensures Reswitch(s, i, f, args, k) == Reswitch(s, i + |Digits(n, 10)|, f.Settle(n), args, k)
  {
    hide Digits, Value, Numeral, Reswitch, NumEnd, InBase;
    var ds := Digits(n, 10);
    var j := i + |ds|;
    DigitsValue(n, 10);
    NumeralValue(ds);
    forall m | i <= m < j
      ensures IsDigit(s[m])
    {
      assert s[m] == ds[m - i];
      TenDigit(ds[m - i]);
    }
    TenDigit(ds[0]);
    assert s[i] == ds[0];
    assert NumEnd(s, i + 1) == j;
    OneStep(s, i, f, args, k);
  }

  lemma TenDigit(c: char)
    requires InBase(c, 10)
    ensures IsDigit(c)
  {
  }

  lemma {:induction false} OneStep(s: string, i: nat, f: Flags, args: Args, k: nat)
    requires CString(s) && i < |s| && IsFlag(s[i])
    ensures var (j, g, m) := Step(s, i, f, args, k); Reswitch(s, i, f, args, k) == Reswitch(s, j, g, args, m)
  {
    hide Step, IsFlag;
  }

  // An optional zero, an optional width, and a conversion character, read from position i.
  lemma {:induction false} FieldSteps(s: string, i: nat, zero: bool, width: nat, args: Args, k: nat)
    requires var z := if zero then i + 1 else i; var j := z + |WidthDigits(width)|;
      CString(s) && j < |s| && (zero ==> s[i] == '0') && s[z..j] == WidthDigits(width) && !IsFlag(s[j])
    ensures var z := if zero then i + 1 else i; var j := z + |WidthDigits(width)|;
      Reswitch(s, i, FRESH, args, k) == Escape(FieldFlags(zero, width), s[j], j + 1, k)
  {
    hide Digits, Step, Reswitch, CString;
    var z := if zero then i + 1 else i;
    var f := FRESH.(padc := if zero then '0' else ' ');
    if zero {
      ZeroStep(s, i, FRESH, args, k);
    }
    if width > 0 {
      NumberStep(s, z, width, f, args, k);
    }
    LastStep(s, z + |WidthDigits(width)|, FieldFlags(zero, width), args, k);
  }

  lemma FieldChars(pre: string, zero: bool, width: nat, conv: char, post: string)
    ensures var spec := FieldSpec(zero, width, conv); var s := pre + spec + post;
      var z := if zero then |pre| + 2 else |pre| + 1; var j := z + |WidthDigits(width)|;
      && |spec| > 1 && j == |pre| + |spec| - 1
      && s[|pre|] == '%' && (zero ==> s[|pre| + 1] == '0') && s[z..j] == WidthDigits(width) && s[j] == conv
      && s[..|pre|] == pre
  {
    hide Digits;
    var zs := if zero then "0" else "";
    var s := pre + FieldSpec(zero, width, conv) + post;
    assert s == pre + ("%" + zs) + WidthDigits(width) + ([conv] + post);
  }

  lemma {:induction false} LastStep(s: string, i: nat, f: Flags, args: Args, k: nat)
    requires CString(s) && i < |s| && !IsFlag(s[i])
    ensures Reswitch(s, i, f, args, k) == Escape(f, s[i], i + 1, k)
  {
  }

  // Text, one numeric escape, and whatever follows: the text is copied, the escape prints its argument,
  // and formatting resumes right behind it with the next argument.
  lemma {:induction false} FmtField(pre: string, zero: bool, width: nat, conv: char, post: string, args: Args)
    requires CString(post) && '%' !in pre && '\0' !in pre && (conv == 'd' || conv == 'u' || conv == 'o' || conv == 'x')
    ensures var spec := FieldSpec(zero, width, conv); var s := pre + spec + post;
      && CString(s)
      && Fmt(s, 0, args, 0)
        == pre + Convert(FieldFlags(zero, width), conv, args(0)) + Fmt(s, |pre| + |spec|, args, 1)
  {
    hide Digits, Convert, Fmt, FieldSpec, Reswitch, WidthDigits, CString;
    var spec := FieldSpec(zero, width, conv);
    var s := pre + spec + post;
    FieldHere(pre, zero, width, conv, post, args);
    SpecString(pre, zero, width, conv, post);
    FmtText(s, 0, |pre|, args, 0);
    assert s[0..|pre|] == pre;
    Regroup(pre, Convert(FieldFlags(zero, width), conv, args(0)), Fmt(s, |pre| + |spec|, args, 1));
  }

  lemma {:induction false} FieldHere(pre: string, zero: bool, width: nat, conv: char, post: string, args: Args)
    requires CString(post) && '%' !in pre && '\0' !in pre && (conv == 'd' || conv == 'u' || conv == 'o' || conv == 'x')
    ensures var spec := FieldSpec(zero, width, conv); var s := pre + spec + post;
      && CString(s) && |pre| < |s|
      && Fmt(s, |pre|, args, 0)
        == Convert(FieldFlags(zero, width), conv, args(0)) + Fmt(s, |pre| + |spec|, args, 1)
  {
    hide Digits, Convert, Fmt, FieldSpec, Reswitch, WidthDigits, CString;
    var spec := FieldSpec(zero, width, conv);
    var s := pre + spec + post;
    FieldChars(pre, zero, width, conv, post);
    SpecString(pre, zero, width, conv, post);
    FieldSteps(s, |pre| + 1, zero, width, args, 0);
    FieldResumes(s, |pre|, zero, width, conv, |pre| + |spec|, args);
  }

  lemma Regroup(a: string, b: string, c: string)
    ensures a + (b + c) == a + b + c
  {
  }

  lemma {:induction false} FieldResumes(s: string, i: nat, zero: bool, width: nat, conv: char, j: nat, args: Args)
    requires CString(s) && i + 1 < |s| && s[i] == '%' && (conv == 'd' || conv == 'u' || conv == 'o' || conv == 'x')
    requires j < |s| && Reswitch(s, i + 1, FRESH, args, 0) == Escape(FieldFlags(zero, width), conv, j, 0)
    ensures Fmt(s, i, args, 0) == Convert(FieldFlags(zero, width), conv, args(0)) + Fmt(s, j, args, 1)
  {
    hide Convert, Fmt, Reswitch;
    FmtEscape(s, i, args, 0);
  }

  lemma SpecString(pre: string, zero: bool, width: nat, conv: char, post: string)
    requires CString(post) && '%' !in pre && '\0' !in pre && conv != '\0'
    ensures var s := pre + FieldSpec(zero, width, conv) + post;
      CString(s) && |pre| + |FieldSpec(zero, width, conv)| < |s| && forall n :: 0 <= n < |pre| ==> s[n] != '%'
  {
    hide Digits, FieldSpec;
    SpecPlain(zero, width, conv);
    var spec := FieldSpec(zero, width, conv);
    var s := pre + spec + post;
    forall n | 0 <= n < |s| - 1
      ensures s[n] != '\0' && (n < |pre| ==> s[n] != '%')
    {
      assert s[n] == if n < |pre| then pre[n]
        else if n < |pre| + |spec| then spec[n - |pre|]
        else post[n - |pre| - |spec|];
    }
  }

  lemma SpecPlain(zero: bool, width: nat, conv: char)
    requires conv != '\0'
    ensures var spec := FieldSpec(zero, width, conv); spec[0] == '%' && '\0' !in spec && |spec| > 1
  {
    hide Digits, Value, InBase;
    if width > 0 {
      DigitsValue(width, 10);
      forall k | 0 <= k < |Digits(width, 10)|
        ensures Digits(width, 10)[k] != '\0'
      {
        BaseChar(Digits(width, 10)[k], 10);
      }
    }
  }

  // From the kernel's format to the user's parser: an unsigned argument below 2^31, printed through %u, %o
  // or %x with any width and either padding, is read back by strtol in the same base.
  lemma FormatThenParse(zero: bool, width: nat, conv: char, args: Args)
    requires conv == 'u' || conv == 'o' || conv == 'x'
    ensures var s := FieldSpec(zero, width, conv) + "\0";
      CString(s) && (var text := Fmt(s, 0, args, 0); var num := args(0).value % 0x1_0000_0000;
        var base := if conv == 'u' then 10 else if conv == 'o' then 8 else 16;
        CString(text + "\0") && (Parse(text + "\0", base) == (num, |text|) <==> num < 0x8000_0000))
  {
    hide FieldSpec, Parse, Number, Fmt, CString, Reswitch;
    var spec := FieldSpec(zero, width, conv);
    NulString();
    FmtField("", zero, width, conv, "\0", args);
    assert "" + spec + "\0" == spec + "\0";
    FmtNothing(spec + "\0", |spec|, args, 1);
    var num := args(0).value % 0x1_0000_0000;
    var base := if conv == 'u' then 10 else if conv == 'o' then 8 else 16;
    var f := FieldFlags(zero, width);
    RoundTrip(num, base, f.width, f.padc);
    var text := Number(num, base, f.width, f.padc);
    assert "" + text + "" == text;
  }

  lemma NulString()
    ensures CString("\0")
  {
  }

  lemma {:induction false} FmtNothing(s: string, i: nat, args: Args, k: nat)
    requires CString(s) && i < |s| && s[i] == '\0'
    ensures Fmt(s, i, args, k) == ""
  {
  }

  // The same for %d and a 32-bit signed argument.
  lemma SignedFormatThenParse(zero: bool, width: nat, args: Args)
    ensures var s := FieldSpec(zero, width, 'd') + "\0"; var f := FieldFlags(zero, width);
      CString(s) && (var text := Fmt(s, 0, args, 0); var v := ToI32(args(0).value);
        CString(text + "\0") && (Parse(text + "\0", 10) == (v, |text|) <==> Readable(v, f.width, f.padc)))
  {
    hide FieldSpec, Parse, SignedNumber, Fmt, CString, Reswitch, Readable, ToI32;
    var spec := FieldSpec(zero, width, 'd');
    NulString();
    FmtField("", zero, width, 'd', "\0", args);
    assert "" + spec + "\0" == spec + "\0";
    FmtNothing(spec + "\0", |spec|, args, 1);
    var v := ToI32(args(0).value);
    WrapParts(args(0).value);
    var f := FieldFlags(zero, width);
    SignedRoundTrip(v, f.width, f.padc);
    var text := SignedNumber(v, f.width, f.padc);
    assert "" + text + "" == text;
  }

  // strtol accepts the prefix %p writes, also when it is asked to guess the base; the padding comes behind
  // the prefix, so only zeros are digits there.
  lemma PointerRoundTrip(f: Flags, a: Arg, base: int)
    requires (base == 16 || base == 0) && (f.padc == ' ' || f.padc == '0' || f.padc == '-')
    ensures var num := a.value % 0x1_0000_0000; var s := Convert(f, 'p', a);
      CString(s + "\0")
      && (Parse(s + "\0", base) == (num, |s|) <==> num < 0x8000_0000 && (f.padc == '0' || f.width <= |Digits(num, 16)|))
  {
    hide Digits, Number, Rep, CString, Parse, ToI32, Value, InBase;
    var num := a.value % 0x1_0000_0000;
    var ds := Digits(num, 16);
    var n := Max(f.width - |ds|, 0);
    NumberField(num, 16, f.width, f.padc);
    DigitsValue(num, 16);
    WrapParts(num);
    WrapSmall(num);
    if n == 0 || f.padc == '0' {
      SamePad(f.padc, '0', n);
      ZerosInBase(n, ds, 16);
      LeadingZeros(n, ds, 16);
      ParseHex(Rep('0', n) + ds, base);
    } else {
      HexStops(f.padc, n, ds, base);
    }
  }

  lemma {:induction false} ParseHex(ds: string, base: int)
    requires (base == 16 || base == 0) && forall k :: 0 <= k < |ds| ==> InBase(ds[k], 16)
    ensures var s := "0x" + ds; CString(s + "\0") && Parse(s + "\0", base) == (ToI32(Value(ds, 16)), |s|)
  {
    var s := "0x" + ds + "\0";
    hide Accumulate, Value, ToI32, InBase, DigitOf;
    forall k | 0 <= k < |ds|
      ensures ds[k] != '\0'
    {
      BaseChar(ds[k], 16);
    }
    HexString(ds);
    assert SkipBlanks(s, 0) == 0;
    forall k | 2 <= k < |s| - 1
      ensures InBase(s[k], 16)
    {
      assert s[k] == ds[k - 2];
    }
    NulDigit();
    assert DigitsEnd(s, 2, 16) == |s| - 1;
    assert s[2..|s| - 1] == ds;
    AccumulateWraps(ds, 16);
  }

  lemma NulDigit()
    ensures !InBase('\0', 16)
  {
  }

  lemma HexString(ds: string)
    requires forall k :: 0 <= k < |ds| ==> ds[k] != '\0'
    ensures CString("0x" + ds + "\0")
  {
  }

  lemma HexStops(padc: char, n: nat, ds: string, base: int)
    requires (base == 16 || base == 0) && (padc == ' ' || padc == '-') && n > 0 && |ds| > 0
    requires forall k :: 0 <= k < |ds| ==> InBase(ds[k], 16)
    ensures var s := "0x" + (Rep(padc, n) + ds); CString(s + "\0") && Parse(s + "\0", base).1 == 2 && |s| > 2
  {
    var s := "0x" + (Rep(padc, n) + ds) + "\0";
    hide Accumulate, InBase;
    PaddedString(padc, n, ds);
    HexString(Rep(padc, n) + ds);
    assert SkipBlanks(s, 0) == 0;
    assert s[2] == padc && !InBase(padc, 16) by { PadNoDigit(padc); }
  }

  lemma PadNoDigit(c: char)
    requires c == ' ' || c == '-'
    ensures !InBase(c, 16)
  {
  }

  lemma PaddedString(padc: char, n: nat, ds: string)
    requires padc != '\0' && forall k :: 0 <= k < |ds| ==> InBase(ds[k], 16)
    ensures var p := Rep(padc, n) + ds; forall k :: 0 <= k < |p| ==> p[k] != '\0'
  {
    hide InBase;
    forall k | 0 <= k < |ds|
      ensures ds[k] != '\0'
    {
      BaseChar(ds[k], 16);
    }
  }
}
