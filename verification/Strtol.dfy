// user/lib/string.c: strtol, the parser on the other side of printnum. A C long has 32 bits here, and
// arithmetic on it wraps.
module Strtol {
  import opened Words
  import opened Printfmt

  function DigitOf(c: char): int {
    if '0' <= c <= '9' then c as int - '0' as int
    else if 'a' <= c <= 'z' then c as int - 'a' as int + 10
    else if 'A' <= c <= 'Z' then c as int - 'A' as int + 10
    else -1
  }

  predicate InBase(c: char, base: int) { 0 <= DigitOf(c) < base }

  predicate IsBlank(c: char) { c == ' ' || c == '\t' }

  function SkipBlanks(s: string, i: nat): (j: nat)
    requires CString(s) && i < |s|
    ensures i <= j < |s| && !IsBlank(s[j]) && forall k :: i <= k < j ==> IsBlank(s[k])
    decreases |s| - i
  { if IsBlank(s[i]) then SkipBlanks(s, i + 1) else i }

  function DigitsEnd(s: string, i: nat, base: int): (j: nat)
    requires CString(s) && i < |s|
    ensures i <= j < |s| && !InBase(s[j], base) && forall k :: i <= k < j ==> InBase(s[k], base)
    decreases |s| - i
  { if InBase(s[i], base) then DigitsEnd(s, i + 1, base) else i }

  // val * base + dig, digit after digit, in a 32-bit long
  function Accumulate(ds: string, base: int): int {
    if ds == "" then 0 else ToI32(Accumulate(ds[..|ds| - 1], base) * base + DigitOf(ds[|ds| - 1]))
  }

  function BasePrefix(s: string, i: nat, base: int): (r: (int, nat))
    requires CString(s) && i < |s|
    ensures r.1 < |s|
  {
    if (base == 0 || base == 16) && s[i] == '0' && s[i + 1] == 'x' then (16, i + 2)
    else if base == 0 && s[i] == '0' then (8, i + 1)
    else if base == 0 then (10, i)
    else (base, i)
  }

  function Signless(s: string, i: nat): (j: nat)
    requires CString(s) && i < |s|
    ensures j < |s|
  { if s[i] == '+' || s[i] == '-' then i + 1 else i }

  // The value and the index of the first character not consumed.
  function Parse(s: string, base: int): (int, nat)
    requires CString(s)
  {
    var i := SkipBlanks(s, 0);
    var (b, d) := BasePrefix(s, Signless(s, i), base);
    var e := DigitsEnd(s, d, b);
    var val := Accumulate(s[d..e], b);
    (if s[i] == '-' then ToI32(-val) else val, e)
  }

  lemma {:induction false} AccumulateStart(ds: string, base: int)
    requires ds == ""
    ensures Accumulate(ds, base) == 0
  {
  }

  lemma {:induction false} AccumulateStep(s: string, d: nat, i: nat, base: int)
    requires d <= i < |s|
    ensures Accumulate(s[d..i + 1], base) == ToI32(Accumulate(s[d..i], base) * base + DigitOf(s[i]))
  {
    hide ToI32, DigitOf;
    assert s[d..i + 1][..i - d] == s[d..i];
  }

  method StrtolDigits(s: string, d: nat, base: int) returns (val: int, i: nat)
    requires CString(s) && d < |s|
    ensures i == DigitsEnd(s, d, base) && val == Accumulate(s[d..i], base)
  {
    hide ToI32, Accumulate;
    assert Accumulate(s[d..d], base) == 0 by { AccumulateStart(s[d..d], base); }
    i, val := d, 0;
    while true
      invariant d <= i < |s| && DigitsEnd(s, d, base) == DigitsEnd(s, i, base) && val == Accumulate(s[d..i], base)
      decreases |s| - i
    {
      var dig;
      if s[i] >= '0' && s[i] <= '9' {
        dig := s[i] as int - '0' as int;
      } else if s[i] >= 'a' && s[i] <= 'z' {
        dig := s[i] as int - 'a' as int + 10;
      } else if s[i] >= 'A' && s[i] <= 'Z' {
        dig := s[i] as int - 'A' as int + 10;
      } else {
        break;
      }
      if dig >= base {
        break;
      }
      AccumulateStep(s, d, i, base);
      i, val := i + 1, ToI32(val * base + dig);
    }
  }

  method Strtol(s: string, base0: int) returns (val: int, end: nat)
    requires CString(s)
    ensures (val, end) == Parse(s, base0)
  {
    hide ToI32, Accumulate, DigitsEnd, SkipBlanks;
    var neg, base := false, base0;
    var i := PastBlanks(s);
    if s[i] == '+' {
      i := i + 1;
    } else if s[i] == '-' {
      i, neg := i + 1, true;
    }
    if (base == 0 || base == 16) && s[i] == '0' && s[i + 1] == 'x' {
      i, base := i + 2, 16;
    } else if base == 0 && s[i] == '0' {
      i, base := i + 1, 8;
    } else if base == 0 {
      base := 10;
    }
    val, end := StrtolDigits(s, i, base);
    if neg {
      val := ToI32(-val);
    }
  }

  method PastBlanks(s: string) returns (i: nat)
    requires CString(s)
    ensures i == SkipBlanks(s, 0)
  {
    i := 0;
    while s[i] == ' ' || s[i] == '\t'
      invariant i < |s| && SkipBlanks(s, 0) == SkipBlanks(s, i)
      decreases |s| - i
    {
      i := i + 1;
    }
  }

  /* ----- positional notation ----- */

  // The value a digit string stands for, unbounded.
  function Value(ds: string, base: int): int {
    if ds == "" then 0 else Value(ds[..|ds| - 1], base) * base + DigitOf(ds[|ds| - 1])
  }

  lemma DigitRead(d: int, base: int)
    requires 0 <= d < base <= 16
    ensures DigitOf(DigitChar(d)) == d && InBase(DigitChar(d), base) && (d > 0 ==> DigitChar(d) != '0')
    ensures (d < 10 ==> IsDigit(DigitChar(d)))
  {
  }

  lemma {:induction false} ValueSnoc(ds: string, c: char, base: int)
    ensures Value(ds + [c], base) == Value(ds, base) * base + DigitOf(c)
  {
  }

  // Digits writes a number down: every character is a digit of the base, the value is the number, and
  // the first digit is zero only for zero.
  lemma {:induction false} DigitsValue(num: nat, base: int)
    requires 2 <= base <= 16
    ensures Value(Digits(num, base), base) == num
    ensures forall k :: 0 <= k < |Digits(num, base)| ==> InBase(Digits(num, base)[k], base)
    ensures num > 0 ==> Digits(num, base)[0] != '0'
    decreases num
  {
    hide Value, InBase, DigitOf, DigitChar;
    var last := num % base;
    DigitRead(last, base);
    DivMod(num, base);
    hide Digits;
    if num >= base {
      DigitsValue(num / base, base);
      ValueSnoc(Digits(num / base, base), DigitChar(last), base);
      DigitsMore(num, base);
    } else {
      ValueSnoc("", DigitChar(last), base);
      EmptyValue(base);
      DigitsLast(num, base);
    }
  }

  lemma {:induction false} DigitsMore(num: nat, base: int)
    requires 2 <= base <= 16 && num >= base
    ensures Digits(num, base) == Digits(num / base, base) + [DigitChar(num % base)]
  {
  }

  lemma {:induction false} DigitsLast(num: nat, base: int)
    requires 2 <= base <= 16 && num < base
    ensures Digits(num, base) == "" + [DigitChar(num)]
  {
    hide DigitChar;
  }

  lemma DivMod(num: nat, base: int)
    requires 2 <= base
    ensures num / base * base + num % base == num && (num >= base ==> num / base > 0)
    ensures (num < base ==> num % base == num)
    ensures num / base <= num && (num > 0 ==> num / base < num)
  {
    DivModOf(num, base, num / base, num % base);
  }

  lemma DivModOf(num: nat, base: int, q: int, r: int)
    requires 2 <= base && num == base * q + r && 0 <= r < base
    ensures q * base + r == num && (num >= base ==> q > 0) && (num < base ==> r == num)
    ensures q <= num && (num > 0 ==> q < num)
  {
    Scale(base, q, 0);
    Scale(base, 1, q);
    Scale(base, q, -1);
    if q > 0 {
      Scale(q, 2, base);
    }
  }

  lemma {:induction false} EmptyValue(base: int)
    ensures Value("", base) == 0
  {
  }

  /* ----- wrap-around ----- */

  lemma WrapUnique(x: int, y: int, n: int)
    requires x == y + 0x1_0000_0000 * n
    ensures ToI32(x) == ToI32(y)
  {
    var q := (y + 0x8000_0000) / 0x1_0000_0000;
    var r := (y + 0x8000_0000) % 0x1_0000_0000;
    assert x + 0x8000_0000 == 0x1_0000_0000 * (q + n) + r;
  }

  lemma WrapParts(x: int)
    ensures ToI32(x) == x - 0x1_0000_0000 * ((x + 0x8000_0000) / 0x1_0000_0000)
    ensures -0x8000_0000 <= ToI32(x) < 0x8000_0000
  {
  }

  lemma WrapStep(a: int, base: int, d: int)
    ensures ToI32(ToI32(a) * base + d) == ToI32(a * base + d)
  {
    WrapParts(a);
    var q := (a + 0x8000_0000) / 0x1_0000_0000;
    hide ToI32;
    assert ToI32(a) * base == a * base - 0x1_0000_0000 * (q * base);
    WrapUnique(ToI32(a) * base + d, a * base + d, -(q * base));
  }

  // Wrapping at every digit is the same as wrapping once at the end.
  lemma {:induction false} AccumulateWraps(ds: string, base: int)
    ensures Accumulate(ds, base) == ToI32(Value(ds, base))
  {
    if ds != "" {
      hide ToI32;
      AccumulateWraps(ds[..|ds| - 1], base);
      WrapStep(Value(ds[..|ds| - 1], base), base, DigitOf(ds[|ds| - 1]));
    }
  }

  lemma {:induction false} LeadingZeros(n: nat, ds: string, base: int)
    ensures Value(Rep('0', n) + ds, base) == Value(ds, base)
    decreases n + |ds|
  {
    var zs := Rep('0', n) + ds;
    if ds != "" {
      assert zs[..|zs| - 1] == Rep('0', n) + ds[..|ds| - 1];
      LeadingZeros(n, ds[..|ds| - 1], base);
    } else if n > 0 {
      assert zs[..|zs| - 1] == Rep('0', n - 1) + "";
      LeadingZeros(n - 1, "", base);
    }
  }

  /* ----- what is read ----- */

  // The end pointer, and the value as a 32-bit long: the one that differs by a multiple of 2^32.
  ghost predicate Reads(s: string, base: int, v: int, end: nat)
    requires CString(s)
  {
    var (r, e) := Parse(s, base);
    e == end && -0x8000_0000 <= r < 0x8000_0000 && (r - v) % 0x1_0000_0000 == 0
  }

  predicate Blanks(s: string) { forall k :: 0 <= k < |s| ==> s[k] == ' ' || s[k] == '\t' }

  predicate Sign(s: string) { s == "" || s == "+" || s == "-" }

  predicate DigitsOf(ds: string, base: int) { forall k :: 0 <= k < |ds| ==> InBase(ds[k], base) }

  function Signed32(sign: string, v: int): int { if sign == "-" then -v else v }

  // 0-9, a-z and A-Z stand for 0 to 35, and nothing else is a digit.
  lemma DigitMeans(c: char)
    ensures '0' <= c <= '9' ==> 0 <= DigitOf(c) < 10 && c == '0' + DigitOf(c) as char
    ensures 'a' <= c <= 'z' ==> 10 <= DigitOf(c) < 36 && c == 'a' + (DigitOf(c) - 10) as char
    ensures 'A' <= c <= 'Z' ==> 10 <= DigitOf(c) < 36 && c == 'A' + (DigitOf(c) - 10) as char
    ensures !('0' <= c <= '9' || 'a' <= c <= 'z' || 'A' <= c <= 'Z') ==> DigitOf(c) < 0
  {
  }

  lemma DigitPlain(c: char, base: int)
    requires InBase(c, base)
    ensures !IsBlank(c) && c != '+' && c != '-' && c != '\0' && (base <= 16 ==> c != 'x')
  {
  }

  lemma WrapReads(x: int, v: int)
    requires x == ToI32(v)
    ensures -0x8000_0000 <= x < 0x8000_0000 && (x - v) % 0x1_0000_0000 == 0
  {
    WrapParts(v);
    var q := (v + 0x8000_0000) / 0x1_0000_0000;
    hide ToI32;
    assert x - v == 0x1_0000_0000 * -q;
    Multiple(-q);
  }

  lemma Multiple(q: int)
    ensures (0x1_0000_0000 * q) % 0x1_0000_0000 == 0
  {
  }

  lemma NegWraps(v: int)
    ensures ToI32(-ToI32(v)) == ToI32(-v)
  {
    WrapParts(v);
    var q := (v + 0x8000_0000) / 0x1_0000_0000;
    hide ToI32;
    WrapUnique(-ToI32(v), -v, q);
  }

  // Blanks up to i, a sign up to d, a prefix up to p, and digits up to e.
  lemma {:induction false} ReadsAt(s: string, i: nat, d: nat, p: nat, e: nat, base: int, b: int)
    requires CString(s) && i <= d <= p <= e < |s|
    requires (forall k :: 0 <= k < i ==> IsBlank(s[k])) && !IsBlank(s[i]) && Signless(s, i) == d
    requires BasePrefix(s, d, base) == (b, p) && DigitsOf(s[p..e], b) && !InBase(s[e], b)
    ensures var v := Value(s[p..e], b); Reads(s, base, if s[i] == '-' then -v else v, e)
  {
    hide Accumulate, Value, ToI32, IsBlank, DigitOf, InBase, CString, BasePrefix, Signless;
    assert SkipBlanks(s, 0) == i;
    forall k | p <= k < e
      ensures InBase(s[k], b)
    {
      assert s[k] == s[p..e][k - p];
    }
    assert DigitsEnd(s, p, b) == e;
    var v := Value(s[p..e], b);
    AccumulateWraps(s[p..e], b);
    NegWraps(v);
    WrapReads(ToI32(v), v);
    WrapReads(ToI32(-v), -v);
  }

  // The same on the pieces of the string.
  lemma {:induction false} ReadsPieces(blanks: string, sign: string, prefix: string, ds: string, rest: string,
      base: int, b: int)
    requires Blanks(blanks) && Sign(sign) && DigitsOf(ds, b) && rest != "" && !InBase(rest[0], b)
    requires var t := prefix + (ds + rest); !IsBlank(t[0]) && t[0] != '+' && t[0] != '-'
    requires var s := blanks + (sign + (prefix + (ds + rest)));
      CString(s) && BasePrefix(s, |blanks| + |sign|, base) == (b, |blanks| + |sign| + |prefix|)
    ensures var s := blanks + (sign + (prefix + (ds + rest)));
      Reads(s, base, Signed32(sign, Value(ds, b)), |s| - |rest|)
  {
    hide Value, InBase, BasePrefix, Reads, DigitsOf;
    var t := prefix + (ds + rest);
    var s := blanks + (sign + t);
    var i := |blanks|;
    var d := i + |sign|;
    var p := d + |prefix|;
    var e := p + |ds|;
    assert forall k :: 0 <= k < i ==> s[k] == blanks[k];
    assert s[d] == t[0] && (sign != "" ==> s[i] == sign[0]);
    assert s[e] == rest[0] && s[p..e] == ds;
    ReadsAt(s, i, d, p, e, base, b);
  }

  // Base 0 reads a leading 0 as octal,
  lemma {:induction false} ReadsOctal(blanks: string, sign: string, ds: string, rest: string)
    requires Blanks(blanks) && Sign(sign) && (forall k :: 0 <= k < |ds| ==> '0' <= ds[k] <= '7')
    requires CString(blanks + (sign + ("0" + (ds + rest)))) && rest != "" && !('0' <= rest[0] <= '7')
    requires ds == "" ==> rest[0] != 'x'
    ensures var s := blanks + (sign + ("0" + (ds + rest))); Reads(s, 0, Signed32(sign, Value(ds, 8)), |s| - |rest|)
  {
    hide Value, Reads;
    var t := ds + rest;
    var s := blanks + (sign + ("0" + t));
    var d := |blanks| + |sign|;
    assert s[d] == '0' && s[d + 1] == t[0];
    ReadsPieces(blanks, sign, "0", ds, rest, 0, 8);
  }

  // a leading 0x as hexadecimal, as base 16 does,
  lemma {:induction false} ReadsHex(blanks: string, sign: string, ds: string, rest: string, base: int)
    requires Blanks(blanks) && Sign(sign) && DigitsOf(ds, 16) && (base == 0 || base == 16)
    requires CString(blanks + (sign + ("0x" + (ds + rest)))) && rest != "" && !InBase(rest[0], 16)
    ensures var s := blanks + (sign + ("0x" + (ds + rest)));
      Reads(s, base, Signed32(sign, Value(ds, 16)), |s| - |rest|)
  {
    hide Value, Reads, InBase;
    var s := blanks + (sign + ("0x" + (ds + rest)));
    var d := |blanks| + |sign|;
    assert s[d] == '0' && s[d + 1] == 'x';
    ReadsPieces(blanks, sign, "0x", ds, rest, base, 16);
  }

  // and any other digit as decimal.
  lemma {:induction false} ReadsDecimal(blanks: string, sign: string, ds: string, rest: string)
    requires Blanks(blanks) && Sign(sign) && (forall k :: 0 <= k < |ds| ==> '0' <= ds[k] <= '9')
    requires CString(blanks + (sign + (ds + rest))) && ds != "" && ds[0] != '0'
    requires rest != "" && !('0' <= rest[0] <= '9')
    ensures var s := blanks + (sign + (ds + rest)); Reads(s, 0, Signed32(sign, Value(ds, 10)), |s| - |rest|)
  {
    hide Value, Reads;
    var t := ds + rest;
    var s := blanks + (sign + t);
    assert s[|blanks| + |sign|] == ds[0];
    assert "" + t == t;
    ReadsPieces(blanks, sign, "", ds, rest, 0, 10);
  }

  // A base that is given reads its own digits; base 16 takes an 0x for a prefix.
  lemma {:induction false} ReadsGiven(blanks: string, sign: string, ds: string, rest: string, base: int)
    requires Blanks(blanks) && Sign(sign) && DigitsOf(ds, base) && ds != "" && base != 0
    requires CString(blanks + (sign + (ds + rest))) && rest != "" && !InBase(rest[0], base)
    requires base == 16 && ds == "0" ==> rest[0] != 'x'
    ensures var s := blanks + (sign + (ds + rest)); Reads(s, base, Signed32(sign, Value(ds, base)), |s| - |rest|)
  {
    hide Value, Reads, InBase, Blanks, CString;
    var t := ds + rest;
    var s := blanks + (sign + t);
    DigitPlain(ds[0], base);
    NoPrefix(s, |blanks| + |sign|, ds, rest, base);
    assert "" + t == t;
    hide BasePrefix;
    ReadsPieces(blanks, sign, "", ds, rest, base, base);
  }

  lemma {:induction false} NoPrefix(s: string, d: nat, ds: string, rest: string, base: int)
    requires CString(s) && d < |s| && s[d..] == ds + rest && ds != "" && rest != "" && DigitsOf(ds, base) && base != 0
    requires base == 16 && ds == "0" ==> rest[0] != 'x'
    ensures BasePrefix(s, d, base) == (base, d)
  {
    hide InBase;
    if base == 16 && s[d] == '0' {
      assert s[d + 1] == s[d..][1] && s[d] == s[d..][0];
      if |ds| > 1 {
        DigitPlain(ds[1], base);
      } else {
        assert ds == "0";
      }
    }
  }

  // Without a digit of the base there is nothing to read: the value is 0, the end the place of the missing digit.
  lemma {:induction false} ReadsNothing(blanks: string, sign: string, rest: string, base: int)
    requires Blanks(blanks) && Sign(sign) && CString(blanks + (sign + rest)) && rest != ""
    requires rest[0] != ' ' && rest[0] != '\t' && rest[0] != '+' && rest[0] != '-'
    requires !InBase(rest[0], if base == 0 then 10 else base)
    ensures var s := blanks + (sign + rest); Parse(s, base) == (0, |blanks| + |sign|)
  {
    var s := blanks + (sign + rest);
    var i := |blanks|;
    var d := i + |sign|;
    assert forall k :: 0 <= k < i ==> s[k] == blanks[k];
    assert s[d] == rest[0] && (sign != "" ==> s[i] == sign[0]);
    assert SkipBlanks(s, 0) == i;
    NotZero(rest[0], base);
    assert s[d..d] == "";
    hide InBase;
  }

  lemma NotZero(c: char, base: int)
    requires !InBase(c, if base == 0 then 10 else base)
    ensures base == 0 || base == 16 ==> c != '0'
  {
  }
}
