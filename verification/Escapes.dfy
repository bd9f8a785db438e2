// A whole escape of vprintfmt: justification, zero padding, the alternate flag, width and precision as numbers
// or as arguments, length letters, and the conversion.
module Escapes {
  import opened Words
  import opened Printfmt
  import opened Strtol
  import opened FormatParse

  // A width or a precision: not there, a number that does not begin with 0, or the next argument.
  datatype Amount = Unset | Given(n: nat) | Star {
    function Spelled(): string { match this case Unset => "" case Given(n) => Digits(n, 10) case Star => "*" }
    function Taken(): nat { if this.Star? then 1 else 0 }
    predicate Spellable() { this.Given? ==> n > 0 }
  }

  // The argument is read as a 32-bit int.
  function AmountOf(a: Amount, args: Args, k: nat): int {
    match a
    case Unset => -1
    case Given(n) => n
    case Star =>
      var v := args(k).value % 0x1_0000_0000; if v < 0x8000_0000 then v else v - 0x1_0000_0000
  }

  function Opt(on: bool, c: char): string { if on then [c] else "" }

  function PrecisionText(a: Amount): string { if a.Unset? then "" else "." + a.Spelled() }

  function Spec(left: bool, zero: bool, alt: bool, width: Amount, precision: Amount, ls: nat, conv: char): string {
    "%" + (Opt(left, '-') + (Opt(zero, '0') + (Opt(alt, '#')
        + (width.Spelled() + (PrecisionText(precision) + (Rep('l', ls) + [conv]))))))
  }

  // What it asks for: a zero flag overrides a minus, a precision makes a missing or negative width 0.
  function Asked(left: bool, zero: bool, alt: bool, width: Amount, precision: Amount, ls: nat, args: Args,
      k: nat): Flags {
    var w := AmountOf(width, args, k);
    Flags(
      if zero then '0' else if left then '-' else ' ',
      if precision.Unset? || w > 0 then w else 0,
      if precision.Unset? then -1 else AmountOf(precision, args, k + width.Taken()),
      ls, alt)
  }

  /* ----- piece by piece ----- */

  // What is left of the format at position i.
  ghost predicate Ahead(s: string, i: nat, r: string) { i < |s| && s[i..] == r }

  lemma Drop(s: string, i: nat, piece: string, rest: string)
    requires Ahead(s, i, piece + rest) && rest != ""
    ensures i + |piece| < |s| && Ahead(s, i + |piece|, rest) && s[i + |piece|] == rest[0]
    ensures s[i..i + |piece|] == piece && (piece != "" ==> s[i] == piece[0])
  {
    var j := i + |piece|;
    assert |s| == i + |piece| + |rest|;
    assert s[j..] == s[i..][|piece|..];
    assert s[i..j] == s[i..][..|piece|];
    assert s[j] == s[j..][0];
    assert s[i] == s[i..][0];
  }

  lemma {:induction false} OptStep(s: string, i: nat, on: bool, c: char, rest: string, f: Flags, args: Args, k: nat)
    requires CString(s) && Ahead(s, i, Opt(on, c) + rest) && rest != "" && (c == '-' || c == '0' || c == '#')
    ensures var j := i + |Opt(on, c)|; i <= j < |s| && Ahead(s, j, rest)
    ensures var g := if !on then f else if c == '#' then f.(alt := true) else f.(padc := c);
      Reswitch(s, i, f, args, k) == Reswitch(s, i + |Opt(on, c)|, g, args, k)
  {
    hide Reswitch, CString, Ahead;
    Drop(s, i, Opt(on, c), rest);
    if on {
      OneStep(s, i, f, args, k);
    }
  }

  lemma {:induction false} DotStep(s: string, i: nat, rest: string, f: Flags, args: Args, k: nat)
    requires CString(s) && Ahead(s, i, "." + rest) && rest != ""
    ensures i + 1 < |s| && Ahead(s, i + 1, rest)
    ensures Reswitch(s, i, f, args, k) == Reswitch(s, i + 1, f.(width := if f.width > 0 then f.width else 0), args, k)
  {
    hide Reswitch, CString, Ahead;
    Drop(s, i, ".", rest);
    OneStep(s, i, f, args, k);
  }

  lemma {:induction false} LStep(s: string, i: nat, rest: string, f: Flags, args: Args, k: nat)
    requires CString(s) && Ahead(s, i, "l" + rest) && rest != ""
    ensures i + 1 < |s| && Ahead(s, i + 1, rest)
    ensures Reswitch(s, i, f, args, k) == Reswitch(s, i + 1, f.(lflag := f.lflag + 1), args, k)
  {
    hide Reswitch, CString, Ahead;
    Drop(s, i, "l", rest);
    OneStep(s, i, f, args, k);
  }

  lemma {:induction false} LsStep(s: string, i: nat, ls: nat, rest: string, f: Flags, args: Args, k: nat)
    requires CString(s) && Ahead(s, i, Rep('l', ls) + rest) && rest != ""
    ensures i + ls < |s| && Ahead(s, i + ls, rest)
    ensures Reswitch(s, i, f, args, k) == Reswitch(s, i + ls, f.(lflag := f.lflag + ls), args, k)
    decreases ls
  {
    hide *;
    LsCons(ls, rest);
    if ls > 0 {
      LStep(s, i, Rep('l', ls - 1) + rest, f, args, k);
      LsStep(s, i + 1, ls - 1, rest, f.(lflag := f.lflag + 1), args, k);
    } else {
      Drop(s, i, "", rest);
    }
  }

  lemma LsCons(ls: nat, rest: string)
    ensures if ls > 0 then Rep('l', ls) + rest == "l" + (Rep('l', ls - 1) + rest) else Rep('l', ls) + rest == "" + rest
  {
    if ls > 0 {
      assert Rep('l', ls) == "l" + Rep('l', ls - 1);
    }
  }

  lemma {:induction false} AmountStep(s: string, i: nat, a: Amount, rest: string, f: Flags, args: Args, k: nat)
    requires CString(s) && Ahead(s, i, a.Spelled() + rest) && rest != "" && !IsDigit(rest[0]) && a.Spellable()
    ensures var j := i + |a.Spelled()|; i <= j < |s| && Ahead(s, j, rest)
    ensures var g := if a.Unset? then f else f.Settle(AmountOf(a, args, k));
      Reswitch(s, i, f, args, k) == Reswitch(s, i + |a.Spelled()|, g, args, k + a.Taken())
  {
    hide Reswitch, Digits, CString, Ahead;
    Drop(s, i, a.Spelled(), rest);
    match a
    case Unset =>
    case Star =>
      LowHalf(args(k).value);
      hide ToI32;
      OneStep(s, i, f, args, k);
    case Given(n) =>
      NumberStep(s, i, n, f, args, k);
  }

  lemma {:induction false} PrecisionStep(s: string, i: nat, a: Amount, rest: string, f: Flags, args: Args, k: nat)
    requires CString(s) && Ahead(s, i, PrecisionText(a) + rest) && rest != "" && !IsDigit(rest[0]) && a.Spellable()
    ensures var j := i + |PrecisionText(a)|; i <= j < |s| && Ahead(s, j, rest)
    ensures Reswitch(s, i, f, args, k)
      == Reswitch(s, i + |PrecisionText(a)|, Precise(f, a, args, k), args, k + a.Taken())
  {
    hide Reswitch, Digits, Amount.Spelled, CString, AmountOf, PrecisionText, Ahead;
    PrecisionIs(a, rest);
    if a.Unset? {
      Drop(s, i, "", rest);
    } else {
      DotStep(s, i, a.Spelled() + rest, f, args, k);
      AmountStep(s, i + 1, a, rest, f.(width := if f.width > 0 then f.width else 0), args, k);
    }
  }

  // A dot makes the width 0 unless it is positive.
  function Precise(f: Flags, a: Amount, args: Args, k: nat): Flags {
    if a.Unset? then f else f.(width := if f.width > 0 then f.width else 0, precision := AmountOf(a, args, k))
  }

  lemma PrecisionIs(a: Amount, rest: string)
    ensures if a.Unset? then PrecisionText(a) == "" else
      PrecisionText(a) + rest == "." + (a.Spelled() + rest) && |PrecisionText(a)| == 1 + |a.Spelled()|
  {
    hide Amount.Spelled;
    if !a.Unset? {
      Regroup(".", a.Spelled(), rest);
    }
  }

  /* ----- together ----- */

  // The characters that belong to an escape without ending it.
  predicate Inner(c: char) { '0' <= c <= '9' || c == '-' || c == '*' || c == '.' || c == '#' || c == 'l' }

  predicate Conversion(c: char) {
    c == 'c' || c == 's' || c == 'd' || c == 'u' || c == 'o' || c == 'x' || c == 'p'
  }

  lemma {:induction false} FlagsRead(s: string, i: nat, left: bool, zero: bool, alt: bool, rest: string,
      args: Args, k: nat)
    requires CString(s) && rest != "" && Ahead(s, i, Opt(left, '-') + (Opt(zero, '0') + (Opt(alt, '#') + rest)))
    ensures var j := i + |Opt(left, '-')| + |Opt(zero, '0')| + |Opt(alt, '#')|;
      && i <= j < |s| && Ahead(s, j, rest)
      && Reswitch(s, i, FRESH, args, k)
         == Reswitch(s, j, FRESH.(padc := if zero then '0' else if left then '-' else ' ', alt := alt), args, k)
  {
    hide Reswitch, CString, Opt, Ahead;
    var r2 := Opt(alt, '#') + rest;
    OptStep(s, i, left, '-', Opt(zero, '0') + r2, FRESH, args, k);
    var i1 := i + |Opt(left, '-')|;
    var f1 := FRESH.(padc := if left then '-' else ' ');
    OptStep(s, i1, zero, '0', r2, f1, args, k);
    var i2 := i1 + |Opt(zero, '0')|;
    var f2 := f1.(padc := if zero then '0' else f1.padc);
    OptStep(s, i2, alt, '#', rest, f2, args, k);
  }

  lemma {:induction false} AmountsRead(s: string, i: nat, width: Amount, precision: Amount, rest: string, f: Flags,
      args: Args, k: nat)
    requires CString(s) && rest != "" && !IsDigit(rest[0]) && width.Spellable() && precision.Spellable()
    requires Ahead(s, i, width.Spelled() + (PrecisionText(precision) + rest)) && f.width == -1 && f.precision == -1
    ensures var j := i + |width.Spelled()| + |PrecisionText(precision)|; var m := k + width.Taken();
      && i <= j < |s| && Ahead(s, j, rest)
      && Reswitch(s, i, f, args, k)
         == Reswitch(s, j, Precise(f.(width := AmountOf(width, args, k)), precision, args, m), args,
                     m + precision.Taken())
  {
    hide Reswitch, CString, AmountOf, Amount.Spelled, Precise, Ahead, PrecisionText;
    RestDigits(precision, rest);
    UnsetWidth(width, args, k);
    AmountStep(s, i, width, PrecisionText(precision) + rest, f, args, k);
    PrecisionStep(s, i + |width.Spelled()|, precision, rest, f.(width := AmountOf(width, args, k)), args,
                  k + width.Taken());
  }

  lemma {:induction false} TailRead(s: string, i: nat, ls: nat, conv: char, post: string, f: Flags, args: Args, k: nat)
    requires CString(s) && !IsFlag(conv) && Ahead(s, i, Rep('l', ls) + ([conv] + post))
    ensures i + ls < |s| && Ahead(s, i + ls, [conv] + post)
    ensures Reswitch(s, i, f, args, k) == Escape(f.(lflag := f.lflag + ls), conv, i + ls + 1, k)
  {
    hide Reswitch, CString, Rep;
    LsStep(s, i, ls, [conv] + post, f, args, k);
    assert s[i + ls] == s[i + ls..][0];
    hide Ahead;
    LastStep(s, i + ls, f.(lflag := f.lflag + ls), args, k);
  }

  lemma {:induction false} SpecRead(s: string, i: nat, left: bool, zero: bool, alt: bool, width: Amount,
      precision: Amount, ls: nat, conv: char, post: string, args: Args, k: nat)
    requires CString(s) && !IsFlag(conv) && width.Spellable() && precision.Spellable()
    requires Ahead(s, i, Spec(left, zero, alt, width, precision, ls, conv) + post)
    ensures var j := i + |Spec(left, zero, alt, width, precision, ls, conv)|;
      && i + 1 < j <= |s| && s[i] == '%' && Ahead(s, j - 1, [conv] + post)
      && Reswitch(s, i + 1, FRESH, args, k)
         == Escape(Asked(left, zero, alt, width, precision, ls, args, k), conv, j,
                   k + width.Taken() + precision.Taken())
  {
    hide Reswitch, Amount.Spelled, AmountOf, Rep, PrecisionText, CString, Opt, Spec, Ahead;
    Unnest(left, zero, alt, width, precision, ls, conv, post);
    LettersDigits(ls, conv, post);
    var r5 := Rep('l', ls) + ([conv] + post);
    var r3 := width.Spelled() + (PrecisionText(precision) + r5);
    var r0 := Opt(left, '-') + (Opt(zero, '0') + (Opt(alt, '#') + r3));
    Drop(s, i, "%", r0);
    FlagsRead(s, i + 1, left, zero, alt, r3, args, k);
    var i3 := i + 1 + |Opt(left, '-')| + |Opt(zero, '0')| + |Opt(alt, '#')|;
    var f3 := FRESH.(padc := if zero then '0' else if left then '-' else ' ', alt := alt);
    AmountsRead(s, i3, width, precision, r5, f3, args, k);
    var f5 := Precise(f3.(width := AmountOf(width, args, k)), precision, args, k + width.Taken());
    TailRead(s, i3 + |width.Spelled()| + |PrecisionText(precision)|, ls, conv, post, f5, args,
             k + width.Taken() + precision.Taken());
  }

  lemma UnsetWidth(a: Amount, args: Args, k: nat)
    ensures a.Unset? ==> AmountOf(a, args, k) == -1
  {
  }

  lemma Unnest(left: bool, zero: bool, alt: bool, width: Amount, precision: Amount, ls: nat, conv: char, post: string)
    ensures var spec := Spec(left, zero, alt, width, precision, ls, conv);
      && spec + post == "%" + (Opt(left, '-') + (Opt(zero, '0') + (Opt(alt, '#')
        + (width.Spelled() + (PrecisionText(precision) + (Rep('l', ls) + ([conv] + post)))))))
      && |spec| == 1 + |Opt(left, '-')| + |Opt(zero, '0')| + |Opt(alt, '#')| + |width.Spelled()|
                 + |PrecisionText(precision)| + ls + 1
  {
    hide Amount.Spelled, Rep, PrecisionText;
    RepLength(ls);
    var a, b, c := Opt(left, '-'), Opt(zero, '0'), Opt(alt, '#');
    var d, e, g := width.Spelled(), PrecisionText(precision), Rep('l', ls);
    assert (g + [conv]) + post == g + ([conv] + post);
    assert (e + (g + [conv])) + post == e + (g + ([conv] + post));
    assert (d + (e + (g + [conv]))) + post == d + (e + (g + ([conv] + post)));
    assert (c + (d + (e + (g + [conv])))) + post == c + (d + (e + (g + ([conv] + post))));
    assert (b + (c + (d + (e + (g + [conv]))))) + post == b + (c + (d + (e + (g + ([conv] + post)))));
    assert (a + (b + (c + (d + (e + (g + [conv])))))) + post == a + (b + (c + (d + (e + (g + ([conv] + post))))));
  }

  lemma RepLength(ls: nat)
    ensures |Rep('l', ls)| == ls
  {
  }

  // No piece behind a number starts with a digit.
  lemma RestDigits(precision: Amount, rest: string)
    requires rest != "" && !IsDigit(rest[0])
    ensures var r := PrecisionText(precision) + rest; r != "" && !IsDigit(r[0])
  {
    hide Amount.Spelled;
  }

  lemma LettersDigits(ls: nat, conv: char, post: string)
    requires !IsFlag(conv)
    ensures var r := Rep('l', ls) + ([conv] + post); r != "" && !IsDigit(r[0])
  {
  }

  lemma {:induction false} SpecPrints(s: string, i: nat, left: bool, zero: bool, alt: bool, width: Amount,
      precision: Amount, ls: nat, conv: char, post: string, args: Args)
    requires CString(s) && post != "" && Conversion(conv) && width.Spellable() && precision.Spellable()
    requires Ahead(s, i, Spec(left, zero, alt, width, precision, ls, conv) + post)
    ensures var j := i + |Spec(left, zero, alt, width, precision, ls, conv)|;
      var k := width.Taken() + precision.Taken();
      && i < j < |s|
      && Fmt(s, i, args, 0) == Convert(Asked(left, zero, alt, width, precision, ls, args, 0), conv, args(k))
                               + Fmt(s, j, args, k + 1)
  {
    hide Fmt, Reswitch, Spec, Asked, Convert, CString, Ahead, Amount.Taken;
    SpecRead(s, i, left, zero, alt, width, precision, ls, conv, post, args, 0);
    Drop(s, i + |Spec(left, zero, alt, width, precision, ls, conv)| - 1, [conv], post);
    FmtEscape(s, i, args, 0);
  }

  lemma {:induction false} TextFirst(pre: string, rest: string, args: Args)
    requires CString(pre + rest) && rest != "" && '%' !in pre
    ensures Ahead(pre + rest, |pre|, rest) && Fmt(pre + rest, 0, args, 0) == pre + Fmt(pre + rest, |pre|, args, 0)
  {
    hide Fmt, CString;
    var s := pre + rest;
    forall n | 0 <= n < |pre|
      ensures s[n] != '%'
    {
      assert s[n] == pre[n];
    }
    FmtText(s, 0, |pre|, args, 0);
    assert s[0..|pre|] == pre;
  }

  // Anywhere in a format: the text before the escape is copied, the escape prints its argument as asked, and
  // formatting resumes behind it with the argument after those that were taken.
  lemma {:induction false} EscapeMeans(pre: string, left: bool, zero: bool, alt: bool, width: Amount,
      precision: Amount, ls: nat, conv: char, post: string, args: Args)
    requires CString(pre + (Spec(left, zero, alt, width, precision, ls, conv) + post)) && post != "" && '%' !in pre
    requires Conversion(conv) && width.Spellable() && precision.Spellable()
    ensures var spec := Spec(left, zero, alt, width, precision, ls, conv);
      var s := pre + (spec + post);
      var k := width.Taken() + precision.Taken();
      Fmt(s, 0, args, 0) == pre + (Convert(Asked(left, zero, alt, width, precision, ls, args, 0), conv, args(k))
                                   + Fmt(s, |pre| + |spec|, args, k + 1))
  {
    hide Fmt, Spec, Asked, Convert, CString, Ahead, Amount.Taken;
    var spec := Spec(left, zero, alt, width, precision, ls, conv);
    TextFirst(pre, spec + post, args);
    SpecPrints(pre + (spec + post), |pre|, left, zero, alt, width, precision, ls, conv, post, args);
  }

  lemma {:induction false} UnknownPrints(s: string, i: nat, left: bool, zero: bool, alt: bool, width: Amount,
      precision: Amount, ls: nat, conv: char, post: string, args: Args)
    requires CString(s) && width.Spellable() && precision.Spellable()
    requires !Inner(conv) && !Conversion(conv) && conv != '%'
    requires Ahead(s, i, Spec(left, zero, alt, width, precision, ls, conv) + post)
    ensures var j := i + |Spec(left, zero, alt, width, precision, ls, conv)| - 1;
      && i < j < |s| && Ahead(s, j, [conv] + post)
      && Fmt(s, i, args, 0) == s[i..j] + Fmt(s, j, args, width.Taken() + precision.Taken())
  {
    hide Fmt, Reswitch, Spec, Asked, CString, Ahead, Amount.Taken;
    SpecRead(s, i, left, zero, alt, width, precision, ls, conv, post, args, 0);
    FmtUnknown(s, i, args, 0);
  }

  lemma SpecStarts(left: bool, zero: bool, alt: bool, width: Amount, precision: Amount, ls: nat, conv: char)
    ensures Spec(left, zero, alt, width, precision, ls, conv) != ""
  {
    hide Amount.Spelled, PrecisionText, Rep, Opt;
  }

  lemma Joined(s: string, pre: string, j: int, rest: string, s0: string, t0: string)
    requires s == pre + rest && |pre| <= j < |s| && s0 == pre + (s[|pre|..j] + t0)
    ensures s0 == s[..j] + t0
  {
    assert s[..j] == pre + s[|pre|..j];
  }

  // An escape that ends in any other character, the terminating NUL included, is printed as it stands, without
  // that character, where formatting goes on; the arguments it took stay taken.
  lemma {:induction false} UnknownMeans(pre: string, left: bool, zero: bool, alt: bool, width: Amount,
      precision: Amount, ls: nat, conv: char, post: string, args: Args)
    requires CString(pre + (Spec(left, zero, alt, width, precision, ls, conv) + post)) && '%' !in pre
    requires !Inner(conv) && !Conversion(conv) && conv != '%' && width.Spellable() && precision.Spellable()
    ensures var s := pre + (Spec(left, zero, alt, width, precision, ls, conv) + post);
      var j := |pre| + |Spec(left, zero, alt, width, precision, ls, conv)| - 1;
      && |pre| < j < |s| && Fmt(s, 0, args, 0) == s[..j] + Fmt(s, j, args, width.Taken() + precision.Taken())
  {
    hide Fmt, Spec, CString, Ahead, Amount.Taken;
    var spec := Spec(left, zero, alt, width, precision, ls, conv);
    var s := pre + (spec + post);
    var j := |pre| + |spec| - 1;
    SpecStarts(left, zero, alt, width, precision, ls, conv);
    TextFirst(pre, spec + post, args);
    UnknownPrints(s, |pre|, left, zero, alt, width, precision, ls, conv, post, args);
    Joined(s, pre, j, spec + post, Fmt(s, 0, args, 0), Fmt(s, j, args, width.Taken() + precision.Taken()));
  }

  // "%%" prints one percent sign and takes no argument.
  lemma {:induction false} PercentMeans(pre: string, post: string, args: Args)
    requires CString(pre + ("%%" + post)) && post != "" && '%' !in pre
    ensures var s := pre + ("%%" + post); Fmt(s, 0, args, 0) == pre + ("%" + Fmt(s, |pre| + 2, args, 0))
  {
    hide Fmt, Reswitch, CString, Ahead;
    var s := pre + ("%%" + post);
    TextFirst(pre, "%%" + post, args);
    assert "%%" + post == "%" + ("%" + post);
    Drop(s, |pre|, "%", "%" + post);
    LastStep(s, |pre| + 1, FRESH, args, 0);
    FmtEscape(s, |pre|, args, 0);
  }
}
