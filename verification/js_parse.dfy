/** The string helpers the calculator applies to form fields:
    `String.prototype.split` on one separator character, the global
    `parseInt` (no radix argument) and `parseFloat`, following the
    StringToNumber-prefix rules of ECMAScript 2015 sections 18.2.4 and 18.2.5. */
module JsParse {
  import opened JsNumber

  // ---------------------------------------------------------------------------
  // Characters
  // ---------------------------------------------------------------------------

  /** StrWhiteSpaceChar: WhiteSpace (tab, vertical tab, form feed, space,
      no-break space, byte-order mark, the Zs category) or LineTerminator. */
  predicate IsWhiteSpace(c: char) {
    || c == '\t' || c == '\U{000B}' || c == '\U{000C}' || c == ' '
    || c == '\U{00A0}' || c == '\U{FEFF}'
    || c == '\U{1680}' || ('\U{2000}' <= c <= '\U{200A}')
    || c == '\U{202F}' || c == '\U{205F}' || c == '\U{3000}'
    || c == '\n' || c == '\r' || c == '\U{2028}' || c == '\U{2029}'
  }

  /** The digit value of `c` in radix 36 (`0`-`9`, then letters in either
      case); 36 for a character that is no digit at all. */
  function CharValue(c: char): (v: nat)
    ensures v <= 36
  {
    if '0' <= c <= '9' then (c - '0') as nat
    else if 'a' <= c <= 'z' then (c - 'a') as nat + 10
    else if 'A' <= c <= 'Z' then (c - 'A') as nat + 10
    else 36
  }

  predicate IsDigitIn(c: char, radix: nat) {
    CharValue(c) < radix
  }

  predicate IsDecimalDigit(c: char) {
    '0' <= c <= '9'
  }

  /** The decimal digit character for `d`. */
  function DigitChar(d: nat): (c: char)
    requires d < 10
    ensures IsDecimalDigit(c) && CharValue(c) == d
  {
    (d as int + '0' as int) as char
  }

  // ---------------------------------------------------------------------------
  // Digit strings
  // ---------------------------------------------------------------------------

  /** `s` without its leading white space. */
  function TrimStart(s: string): (r: string)
    ensures |r| <= |s| && r == s[|s| - |r|..]
    ensures forall i :: 0 <= i < |s| - |r| ==> IsWhiteSpace(s[i])
    ensures r == [] || !IsWhiteSpace(r[0])
  {
    if s != [] && IsWhiteSpace(s[0]) then TrimStart(s[1..]) else s
  }

  /** The length of the longest prefix of `s` made of radix-`radix` digits. */
  function DigitPrefixLength(s: string, radix: nat): (n: nat)
    ensures n <= |s|
    ensures forall i :: 0 <= i < n ==> IsDigitIn(s[i], radix)
    ensures n < |s| ==> !IsDigitIn(s[n], radix)
  {
    if s == [] || !IsDigitIn(s[0], radix) then 0
    else 1 + DigitPrefixLength(s[1..], radix)
  }

  /** The value of the digit string `ds`, most significant digit first. */
  function DigitsValue(ds: string, radix: nat): nat {
    if ds == [] then 0
    else DigitsValue(ds[..|ds| - 1], radix) * radix + CharValue(ds[|ds| - 1])
  }

  /** The canonical decimal spelling of `n`: no sign, no leading zero. */
  function Show(n: nat): (s: string)
    ensures |s| >= 1
    ensures forall i :: 0 <= i < |s| ==> IsDecimalDigit(s[i])
  {
    if n < 10 then [DigitChar(n)] else Show(n / 10) + [DigitChar(n % 10)]
  }

  function Pow10(k: nat): (p: real)
    ensures p >= 1.0
  {
    if k == 0 then 1.0 else 10.0 * Pow10(k - 1)
  }

  /** 10 raised to an exponent of either sign. */
  function Scale(e: int): (p: real)
    ensures p > 0.0
  {
    if e >= 0 then Pow10(e) else 1.0 / Pow10(-e)
  }

  // ---------------------------------------------------------------------------
  // parseInt, parseFloat
  // ---------------------------------------------------------------------------

  /** The text after an optional leading `+` or `-`. */
  function Unsigned(t: string): (u: string)
    ensures |u| <= |t|
  {
    if t != [] && (t[0] == '-' || t[0] == '+') then t[1..] else t
  }

  predicate IsNegative(t: string) {
    t != [] && t[0] == '-'
  }

  function Signed(negative: bool, magnitude: real): real {
    if negative then -magnitude else magnitude
  }

  predicate HasHexPrefix(u: string) {
    |u| >= 2 && u[0] == '0' && (u[1] == 'x' || u[1] == 'X')
  }

  /** `parseInt(s)`: skip white space, read a sign, read `0x`/`0X` as radix
      16 (otherwise radix 10), then the longest digit prefix; NaN when that
      prefix is empty. */
  function ParseInt(s: string): (r: Number)
    ensures r.Finite? ==> r.val == r.val.Floor as real
  {
    var t := TrimStart(s);
    var u := Unsigned(t);
    var radix := if HasHexPrefix(u) then 16 else 10;
    var body := if HasHexPrefix(u) then u[2..] else u;
    var n := DigitPrefixLength(body, radix);
    if n == 0 then NaN
    else
      var magnitude := DigitsValue(body[..n], radix);
      SignedWhole(IsNegative(t), magnitude);
      Finite(Signed(IsNegative(t), magnitude as real))
  }

  /** A signed natural is a whole number. */
  lemma SignedWhole(negative: bool, k: nat)
    ensures Signed(negative, k as real) == Signed(negative, k as real).Floor as real
  {
    if negative {
      assert Signed(negative, k as real) == (0 - k as int) as real;
    } else {
      assert Signed(negative, k as real) == k as real;
    }
  }

  /** The exponent of an ExponentPart at the head of `s` (`e` or `E`, an
      optional sign, at least one decimal digit), or 0 when none is there. */
  function ExponentOf(s: string): int {
    if |s| >= 2 && (s[0] == 'e' || s[0] == 'E') then
      var u := Unsigned(s[1..]);
      var k := DigitPrefixLength(u, 10);
      if k == 0 then 0
      else if IsNegative(s[1..]) then -(DigitsValue(u[..k], 10) as int)
      else DigitsValue(u[..k], 10) as int
    else 0
  }

  /** `parseFloat(s)`: skip white space, read a sign, then the longest
      prefix of the form `digits [. digits] [exponent]` or `. digits
      [exponent]`; NaN when no mantissa digit is there. */
  function ParseFloat(s: string): (r: Number)
    ensures r.Finite? && r.val < 0.0 ==> IsNegative(TrimStart(s))
    ensures NoDecimalDigit(s) ==> r == NaN
  {
    var t := TrimStart(s);
    NoDigitNoDecimal(s, Unsigned(t));
    match UnsignedDecimal(Unsigned(t))
    case NaN => NaN
    case Finite(m) => Finite(Signed(IsNegative(t), m))
  }

  /** The StrUnsignedDecimalLiteral prefix of `u`, or NaN without a digit. */
  function UnsignedDecimal(u: string): (r: Number)
    ensures r.Finite? ==> r.val >= 0.0
  {
    var i := DigitPrefixLength(u, 10);
    var afterInt := u[i..];
    if afterInt != [] && afterInt[0] == '.' then FractionTail(u[..i], afterInt[1..])
    else if i == 0 then NaN
    else Finite(Scaled(DigitsValue(u[..i], 10) as real, ExponentOf(afterInt)))
  }

  /** The value of `ints . fracSrc...`, where `ints` are the digits before
      the point and `fracSrc` is everything after it. */
  function FractionTail(ints: string, fracSrc: string): (r: Number)
    ensures r.Finite? ==> r.val >= 0.0
  {
    var f := DigitPrefixLength(fracSrc, 10);
    if ints == [] && f == 0 then NaN
    else Finite(Scaled(DecimalValue(ints, fracSrc[..f]), ExponentOf(fracSrc[f..])))
  }

  /** The mantissa `m` times ten to the exponent `e`. */
  function Scaled(m: real, e: int): (x: real)
    requires m >= 0.0
    ensures x >= 0.0
    ensures e == 0 ==> x == m
  {
    m * Scale(e)
  }

  /** The value of the decimal numeral `ints.fs`. */
  function DecimalValue(ints: string, fs: string): (x: real)
    ensures x >= 0.0
  {
    DigitsValue(ints, 10) as real + DigitsValue(fs, 10) as real / Pow10(|fs|)
  }

  predicate NoDecimalDigit(s: string) {
    forall i :: 0 <= i < |s| ==> !IsDecimalDigit(s[i])
  }

  /** Text with no decimal digit in it, after trimming and dropping a sign,
      holds no mantissa. */
  lemma NoDigitNoDecimal(s: string, u: string)
    requires u == Unsigned(TrimStart(s))
    ensures NoDecimalDigit(s) ==> UnsignedDecimal(u) == NaN
  {
    if NoDecimalDigit(s) {
      NoDigitSuffix(s, TrimStart(s));
      NoDigitSuffix(TrimStart(s), u);
      UnsignedDecimalNoDigit(u);
    }
  }

  /** A suffix of digit-free text is digit-free. */
  lemma NoDigitSuffix(s: string, u: string)
    requires NoDecimalDigit(s) && |u| <= |s| && u == s[|s| - |u|..]
    ensures NoDecimalDigit(u)
  {
    forall i | 0 <= i < |u|
      ensures !IsDecimalDigit(u[i])
    {
      assert u[i] == s[|s| - |u| + i];
    }
  }

  /** Digit-free text starts no mantissa, with or without a point. */
  lemma UnsignedDecimalNoDigit(u: string)
    requires NoDecimalDigit(u)
    ensures UnsignedDecimal(u) == NaN
  {
    if u != [] {
      assert !IsDigitIn(u[0], 10);
      if |u| >= 2 {
        assert !IsDigitIn(u[1], 10);
        assert u[1..][0] == u[1];
      }
    }
  }

  // ---------------------------------------------------------------------------
  // split
  // ---------------------------------------------------------------------------

  /** `s.split(sep)` for a one-character separator: the pieces between
      separators, always at least one (`"".split(sep)` is `[""]`). */
  function Split(s: string, sep: char): (parts: seq<string>)
    ensures |parts| >= 1
    ensures forall i :: 0 <= i < |parts| ==> sep !in parts[i]
  {
    if s == [] then [""]
    else
      var rest := Split(s[1..], sep);
      if s[0] == sep then [""] + rest
      else [[s[0]] + rest[0]] + rest[1..]
  }

  /** `parts.join(sep)`: the inverse of `Split`. */
  function Join(parts: seq<string>, sep: char): string
    requires |parts| >= 1
  {
    if |parts| == 1 then parts[0] else parts[0] + [sep] + Join(parts[1..], sep)
  }

  // ---------------------------------------------------------------------------
  // Lemmas
  // ---------------------------------------------------------------------------

  /** Splitting and re-joining on the same separator gives back the text. */
  lemma {:induction false} JoinSplit(s: string, sep: char)
    ensures Join(Split(s, sep), sep) == s
  {
    if s != [] {
      var rest := Split(s[1..], sep);
      JoinSplit(s[1..], sep);
      if s[0] == sep {
        assert Split(s, sep)[1..] == rest;
      } else {
        var parts := Split(s, sep);
        assert parts[1..] == rest[1..];
        if |rest| == 1 {
          assert s == [s[0]] + rest[0];
        } else {
          assert Join(rest, sep) == rest[0] + [sep] + Join(rest[1..], sep);
          assert s == [s[0]] + Join(rest, sep);
        }
      }
    }
  }

  /** Text without the separator is one piece. */
  lemma {:induction false} SplitWithoutSeparator(a: string, sep: char)
    requires sep !in a
    ensures Split(a, sep) == [a]
  {
    if a != [] {
      SplitWithoutSeparator(a[1..], sep);
      assert [a[0]] + a[1..] == a;
    }
  }

  /** `a + sep + rest` splits into `a` followed by the pieces of `rest`. */
  lemma {:induction false} SplitAtFirstSeparator(a: string, sep: char, rest: string)
    requires sep !in a
    ensures Split(a + [sep] + rest, sep) == [a] + Split(rest, sep)
  {
    if a == [] {
      assert [sep] + rest == a + [sep] + rest;
      assert ([sep] + rest)[1..] == rest;
    } else {
      SplitAtFirstSeparator(a[1..], sep, rest);
      assert (a + [sep] + rest)[1..] == a[1..] + [sep] + rest;
      assert [a[0]] + a[1..] == a;
    }
  }

  /** Every character of a decimal spelling reads back as the same digit. */
  lemma {:induction false} DigitsValueShow(n: nat)
    ensures DigitsValue(Show(n), 10) == n
  {
    if n >= 10 {
      DigitsValueShow(n / 10);
      var s := Show(n);
      assert s[..|s| - 1] == Show(n / 10);
    }
  }

  /** A string of decimal digits followed by something that is not one is
      read up to exactly its last digit. */
  lemma {:induction false} DigitPrefixOfDigits(ds: string, rest: string, radix: nat)
    requires forall i :: 0 <= i < |ds| ==> IsDigitIn(ds[i], radix)
    requires rest == [] || !IsDigitIn(rest[0], radix)
    ensures DigitPrefixLength(ds + rest, radix) == |ds|
  {
    if ds != [] {
      DigitPrefixOfDigits(ds[1..], rest, radix);
      assert (ds + rest)[1..] == ds[1..] + rest;
    }
  }

  /** A positive number's spelling does not start with `0`. */
  lemma {:induction false} ShowLeadingDigit(n: nat)
    requires n > 0
    ensures Show(n)[0] != '0'
  {
    if n >= 10 {
      ShowLeadingDigit(n / 10);
    }
  }

  predicate AllDigitsIn(ds: string, radix: nat) {
    forall i :: 0 <= i < |ds| ==> IsDigitIn(ds[i], radix)
  }

  lemma ShowDigits(n: nat)
    ensures AllDigitsIn(Show(n), 10)
  {
  }

  /** Text that starts with a decimal digit has no white space or sign to skip. */
  lemma DigitStart(s: string)
    requires s != [] && IsDigitIn(s[0], 10)
    ensures TrimStart(s) == s && Unsigned(s) == s && !IsNegative(s)
  {
    var c := s[0];
    assert IsDecimalDigit(c);
    DigitNotWhiteSpace(c);
  }

  lemma DigitNotWhiteSpace(c: char)
    requires IsDecimalDigit(c)
    ensures !IsWhiteSpace(c) && c != '-' && c != '+'
  {
  }

  /** A digit string followed by a non-digit, with no sign or hex prefix,
      is read by `parseInt` as its value. */
  lemma ParseIntDigits(ds: string, rest: string)
    requires ds != [] && AllDigitsIn(ds, 10)
    requires rest == [] || !IsDigitIn(rest[0], 10)
    requires !HasHexPrefix(ds + rest)
    ensures ParseInt(ds + rest) == OfInt(DigitsValue(ds, 10))
  {
    var s := ds + rest;
    assert s[0] == ds[0];
    DigitStart(s);
    DigitPrefixOfDigits(ds, rest, 10);
    assert s[..|ds|] == ds;
  }

  /** `parseInt` reads a canonical decimal spelling back as its value, when
      what follows cannot extend it (no digit, and no `x` after a lone `0`). */
  lemma ParseIntShow(n: nat, rest: string)
    requires rest == [] || !IsDecimalDigit(rest[0])
    requires n == 0 && rest != [] ==> rest[0] != 'x' && rest[0] != 'X'
    ensures ParseInt(Show(n) + rest) == OfInt(n)
  {
    var ds := Show(n);
    var s := ds + rest;
    ShowDigits(n);
    assert !HasHexPrefix(s) by {
      if |s| >= 2 {
        if n == 0 {
          assert s[1] == rest[0];
        } else {
          ShowLeadingDigit(n);
          assert s[0] == ds[0];
        }
      }
    }
    ParseIntDigits(ds, rest);
    DigitsValueShow(n);
  }

  /** A digit after one leading zero keeps its value. */
  lemma ZeroThenDigitValue(ds: string, d: nat)
    requires d < 10 && ds == ['0', DigitChar(d)]
    ensures DigitsValue(ds, 10) == d
  {
    var head := ds[..1];
    assert head == ['0'] && head[..0] == [];
    assert DigitsValue(head, 10) == 0;
  }

  /** A digit padded with one leading zero reads as the digit itself. */
  lemma ZeroPaddedDigit(d: nat)
    requires d < 10
    ensures ParseInt(['0', DigitChar(d)]) == OfInt(d)
  {
    var ds := ['0', DigitChar(d)];
    assert AllDigitsIn(ds, 10) by {
      assert IsDigitIn(ds[0], 10) && IsDigitIn(ds[1], 10);
    }
    assert ds + [] == ds;
    ParseIntDigits(ds, []);
    ZeroThenDigitValue(ds, d);
  }

  /** An `x` after a nonzero number ends it: `parseInt("10x")` is 10. */
  lemma ParseIntTenX()
    ensures ParseInt("10x") == OfInt(10)
  {
    var ten := Show(10);
    assert ten == "10";
    assert ten + "x" == "10x";
    ParseIntShow(10, "x");
  }

  /** Text that starts no fraction and carries no nonzero exponent adds
      nothing to the digits before it. */
  lemma UnsignedDecimalDigits(u: string, ds: string, rest: string)
    requires u == ds + rest && ds != [] && AllDigitsIn(ds, 10)
    requires rest == [] || (!IsDigitIn(rest[0], 10) && rest[0] != '.')
    requires ExponentOf(rest) == 0
    ensures UnsignedDecimal(u) == OfInt(DigitsValue(ds, 10))
  {
    DigitPrefixOfDigits(ds, rest, 10);
    assert u[..|ds|] == ds;
    assert u[|ds|..] == rest;
    assert Scale(0) == 1.0;
  }

  /** The mantissa `ds` followed by text that starts no fraction and carries
      no nonzero exponent is read by `parseFloat` as the value of `ds`. */
  lemma ParseFloatDigits(ds: string, rest: string)
    requires ds != [] && AllDigitsIn(ds, 10)
    requires rest == [] || (!IsDigitIn(rest[0], 10) && rest[0] != '.')
    requires ExponentOf(rest) == 0
    ensures ParseFloat(ds + rest) == OfInt(DigitsValue(ds, 10))
  {
    var s := ds + rest;
    assert s[0] == ds[0];
    DigitStart(s);
    UnsignedDecimalDigits(s, ds, rest);
    assert Signed(false, DigitsValue(ds, 10) as real) == DigitsValue(ds, 10) as real;
  }

  /** `parseFloat` reads a canonical decimal spelling back as its value,
      when what follows is no digit, no decimal point and no exponent other
      than zero (a bare `e`, as in "5ex", is no exponent at all). */
  lemma ParseFloatShow(n: nat, rest: string)
    requires rest == [] || (!IsDecimalDigit(rest[0]) && rest[0] != '.')
    requires ExponentOf(rest) == 0
    ensures ParseFloat(Show(n) + rest) == OfInt(n)
  {
    ShowDigits(n);
    ParseFloatDigits(Show(n), rest);
    DigitsValueShow(n);
  }

  /** An `e` without exponent digits is no exponent: `parseFloat("5ex")` is 5. */
  lemma ParseFloatBareE()
    ensures ParseFloat("5ex") == OfInt(5)
  {
    var five, rest := Show(5), "ex";
    assert five == "5";
    assert five + rest == "5ex";
    assert rest[1..] == "x";
    assert DigitPrefixLength(Unsigned(rest[1..]), 10) == 0;
    ParseFloatShow(5, rest);
  }

  /** A complete fraction `fs` after the point. */
  lemma FractionTailDigits(ints: string, fs: string)
    requires ints != [] && AllDigitsIn(fs, 10)
    ensures FractionTail(ints, fs) == Finite(DecimalValue(ints, fs))
  {
    DigitPrefixOfDigits(fs, [], 10);
    assert fs + [] == fs;
    var f := DigitPrefixLength(fs, 10);
    assert fs[..f] == fs;
    assert Scale(ExponentOf(fs[f..])) == 1.0;
  }

  /** Mantissa `ints.fs` with nothing after it. */
  lemma ParseFloatPointDigits(ints: string, fs: string)
    requires ints != [] && AllDigitsIn(ints, 10) && AllDigitsIn(fs, 10)
    ensures ParseFloat(ints + "." + fs) == Finite(DecimalValue(ints, fs))
  {
    var s := ints + "." + fs;
    assert s == ints + ("." + fs);
    assert s[0] == ints[0];
    DigitStart(s);
    DigitPrefixOfDigits(ints, "." + fs, 10);
    assert s[..|ints|] == ints;
    assert s[|ints|..] == "." + fs;
    assert ("." + fs)[1..] == fs;
    FractionTailDigits(ints, fs);
    assert UnsignedDecimal(s) == FractionTail(ints, fs);
  }

  /** A one-digit fraction is that many tenths. */
  lemma OneDigitFraction(ints: string, fs: string)
    requires |fs| == 1
    ensures DecimalValue(ints, fs) == DigitsValue(ints, 10) as real + DigitsValue(fs, 10) as real / 10.0
  {
    assert Pow10(1) == 10.0 by {
      assert Pow10(0) == 1.0;
    }
  }

  /** The numeral `ints.5` is `ints` and a half. */
  lemma HalfValue(ints: string, fs: string, n: nat)
    requires DigitsValue(ints, 10) == n && DigitsValue(fs, 10) == 5 && |fs| == 1
    ensures DecimalValue(ints, fs) == n as real + 0.5
  {
    OneDigitFraction(ints, fs);
  }

  /** `parseFloat` reads "n.5" as n and a half. */
  lemma ParseFloatHalf(n: nat)
    ensures ParseFloat(Show(n) + "." + Show(5)) == Finite(n as real + 0.5)
  {
    var ints, fs := Show(n), Show(5);
    assert DecimalValue(ints, fs) == n as real + 0.5 by {
      DigitsValueShow(n);
      DigitsValueShow(5);
      HalfValue(ints, fs, n);
    }
    ShowDigits(n);
    ShowDigits(5);
    ParseFloatPointDigits(ints, fs);
  }

  /** The power-throw distance 12.5 as typed into the form. */
  lemma ParseFloatTwelveAndAHalf()
    ensures ParseFloat("12.5") == Finite(12.5)
  {
    var twelve, five := Show(12), Show(5);
    assert twelve == "12";
    assert five == "5";
    assert twelve + "." + five == "12.5";
    ParseFloatHalf(12);
  }

  /** The power-throw distance 4.5 as typed into the form. */
  lemma ParseFloatFourAndAHalf()
    ensures ParseFloat("4.5") == Finite(4.5)
  {
    var four, five := Show(4), Show(5);
    assert four == "4";
    assert five == "5";
    assert four + "." + five == "4.5";
    ParseFloatHalf(4);
  }

  /** `parseInt("")` is NaN. */
  lemma EmptyParseIntIsNaN()
    ensures ParseInt("") == NaN
  {
    var e: string := [];
    assert TrimStart(e) == e;
    assert DigitPrefixLength(Unsigned(e), 10) == 0;
  }

  /** `parseFloat("")` is NaN. */
  lemma EmptyParseFloatIsNaN()
    ensures ParseFloat("") == NaN
  {
    var e: string := [];
    assert TrimStart(e) == e;
    assert DigitPrefixLength(Unsigned(e), 10) == 0;
    assert UnsignedDecimal(Unsigned(e)) == NaN;
  }
}
