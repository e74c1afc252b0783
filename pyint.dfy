/**
 * Python's `int(x)` on a str, in base 10, which the conversion scripts apply
 * to the Subscribers and Total Views cells, and `str(n)` for an int.
 */
module PythonInt {
  import opened Wrappers
  import opened Text

  /**
   * The characters int() skips at both ends of its argument. Among ASCII
   * characters these are only the C locale's spaces (tab, line feed,
   * vertical tab, form feed, carriage return and space); U+001C..U+001F,
   * for which str.isspace() holds, are not skipped. Non-ASCII characters
   * are skipped exactly when str.isspace() holds for them.
   */
  predicate IsPySpace(c: char) {
    ('\U{9}' <= c <= '\U{D}') || c == ' ' || c == '\U{85}' || c == '\U{A0}'
    || c == '\U{1680}' || ('\U{2000}' <= c <= '\U{200A}')
    || c == '\U{2028}' || c == '\U{2029}' || c == '\U{202F}' || c == '\U{205F}' || c == '\U{3000}'
  }

  predicate AllPySpace(s: string) {
    forall i :: 0 <= i < |s| ==> IsPySpace(s[i])
  }

  function LStrip(s: string): (t: string)
    ensures |t| <= |s| && t == s[|s| - |t|..]
    ensures t != [] ==> !IsPySpace(t[0])
    ensures AllPySpace(s[..|s| - |t|])
  {
    if s != [] && IsPySpace(s[0]) then
      var t := LStrip(s[1..]);
      assert t == s[|s| - |t|..];
      assert s[..|s| - |t|] == [s[0]] + s[1..][..|s| - 1 - |t|];
      assert forall i :: 0 < i < |s| - |t| ==> s[i] == s[1..][..|s| - 1 - |t|][i - 1];
      t
    else s
  }

  function RStrip(s: string): (t: string)
    ensures |t| <= |s| && t == s[..|t|]
    ensures t != [] ==> !IsPySpace(t[|t| - 1])
    ensures AllPySpace(s[|t|..])
  {
    if s != [] && IsPySpace(s[|s| - 1]) then
      var t := RStrip(s[..|s| - 1]);
      assert s[|t|..] == s[..|s| - 1][|t|..] + [s[|s| - 1]];
      t
    else s
  }

  /** The argument without the whitespace int() skips around it. */
  function Strip(s: string): string {
    RStrip(LStrip(s))
  }

  /** Digits, with single underscores allowed between two digits ("1_000"). */
  predicate DigitGroups(s: string) {
    && |s| >= 1 && IsDigit(s[0]) && IsDigit(s[|s| - 1])
    && DigitsOrUnderscores(s)
    && forall i :: 0 <= i < |s| - 1 && s[i] == '_' ==> IsDigit(s[i + 1])
  }

  predicate DigitsOrUnderscores(s: string) {
    forall i :: 0 <= i < |s| ==> IsDigit(s[i]) || s[i] == '_'
  }

  function DropUnderscores(s: string): (d: string)
    requires DigitsOrUnderscores(s)
    ensures AllDigits(d)
  {
    if s == [] then []
    else (if s[0] == '_' then [] else [s[0]]) + DropUnderscores(s[1..])
  }

  /**
   * CPython's default limit on the decimal digits int() reads and str()
   * writes (sys.int_info.default_max_str_digits); beyond it both raise
   * ValueError. Leading zeros count, underscores and the sign do not.
   */
  const MaxStrDigits: nat := 4300

  /** The value of an unsigned numeral, or None when int() rejects it. */
  function Numeral(s: string): (r: Option<nat>)
    ensures r.Some? <==> DigitGroups(s) && |DropUnderscores(s)| <= MaxStrDigits
  {
    if DigitGroups(s) && |DropUnderscores(s)| <= MaxStrDigits then
      Some(DigitsValue(DropUnderscores(s)))
    else None
  }

  /**
   * `int(s)`: None where Python raises ValueError. After the surrounding
   * whitespace, an optional sign and a numeral; nothing else.
   */
  function PyInt(s: string): (r: Option<int>)
    ensures AllPySpace(s) ==> r.None?
  {
    Signed(Strip(s))
  }

  /** An optional sign followed by a numeral. */
  function Signed(t: string): (r: Option<int>)
    ensures r.Some? ==> t != [] && (r.value < 0 ==> t[0] == '-')
  {
    if t == [] then None
    else if t[0] == '-' || t[0] == '+' then
      match Numeral(t[1..])
      case None => None
      case Some(v) => var w: int := v; Some(if t[0] == '-' then -w else w)
    else
      match Numeral(t)
      case None => None
      case Some(v) => Some(v)
  }

  /** The decimal digits of `n`, without leading zeros. */
  function Decimal(n: nat): (s: string)
    ensures |s| >= 1 && AllDigits(s)
    decreases n
  {
    if n < 10 then [DigitChar(n)] else Decimal(n / 10) + [DigitChar(n % 10)]
  }

  /** `str(n)` does not raise: `n` has at most MaxStrDigits decimal digits. */
  predicate StrFits(n: int) {
    |Decimal(if n < 0 then -n else n)| <= MaxStrDigits
  }

  /** `str(n)`. */
  function PyStr(n: int): (s: string)
    requires StrFits(n)
    ensures |s| >= 1 && (s[0] == '-' <==> n < 0)
  {
    if n < 0 then "-" + Decimal(-n) else Decimal(n)
  }

  lemma {:induction false} DecimalValue(n: nat)
    ensures DigitsValue(Decimal(n)) == n
    decreases n
  {
    if n >= 10 {
      DecimalValue(n / 10);
      var s := Decimal(n);
      assert s[..|s| - 1] == Decimal(n / 10);
    }
  }

  lemma {:induction false} DropNoUnderscores(s: string)
    requires AllDigits(s)
    ensures DropUnderscores(s) == s
  {
    if s != [] {
      DropNoUnderscores(s[1..]);
      assert [s[0]] + s[1..] == s;
    }
  }

  lemma {:induction false} LStripPadded(pre: string, y: string)
    requires AllPySpace(pre) && (y != [] ==> !IsPySpace(y[0]))
    ensures LStrip(pre + y) == y
  {
    if pre == [] {
      assert pre + y == y;
    } else {
      assert (pre + y)[0] == pre[0];
      assert (pre + y)[1..] == pre[1..] + y;
      LStripPadded(pre[1..], y);
    }
  }

  lemma {:induction false} RStripPadded(y: string, post: string)
    requires AllPySpace(post) && (y != [] ==> !IsPySpace(y[|y| - 1]))
    ensures RStrip(y + post) == y
    decreases |post|
  {
    if post == [] {
      assert y + post == y;
    } else {
      var s := y + post;
      assert s[|s| - 1] == post[|post| - 1];
      assert s[..|s| - 1] == y + post[..|post| - 1];
      RStripPadded(y, post[..|post| - 1]);
    }
  }

  /** Whitespace around a string whose ends are not whitespace is what Strip removes. */
  lemma StripPadded(pre: string, x: string, post: string)
    requires AllPySpace(pre) && AllPySpace(post)
    requires x != [] && !IsPySpace(x[0]) && !IsPySpace(x[|x| - 1])
    ensures Strip(pre + x + post) == x
  {
    assert pre + x + post == pre + (x + post);
    LStripPadded(pre, x + post);
    RStripPadded(x, post);
  }

  /**
   * `int(str(n)) == n`, also with whitespace around the numeral, as a CSV
   * cell written from an int reads back.
   */
  lemma PyIntStr(n: int, pre: string, post: string)
    requires StrFits(n)
    requires AllPySpace(pre) && AllPySpace(post)
    ensures PyInt(pre + PyStr(n) + post) == Some(n)
  {
    StripPadded(pre, PyStr(n), post);
    SignedStr(n);
  }

  lemma SignedStr(n: int)
    requires StrFits(n)
    ensures Signed(PyStr(n)) == Some(n)
  {
    var m := if n < 0 then -n else n;
    var d := Decimal(m);
    NumeralDecimal(m);
    if n < 0 {
      assert PyStr(n)[1..] == d;
    } else {
      assert PyStr(n) == d && IsDigit(d[0]);
    }
  }

  lemma NumeralDecimal(m: nat)
    requires |Decimal(m)| <= MaxStrDigits
    ensures Numeral(Decimal(m)) == Some(m)
  {
    var d := Decimal(m);
    DecimalValue(m);
    DropNoUnderscores(d);
    assert DigitGroups(d);
  }

  /** A numeral with a space inside is rejected, whatever surrounds it. */
  lemma PyIntRejectsInnerSpace(a: string, b: string)
    requires a != [] && b != [] && IsDigit(a[0]) && IsDigit(b[|b| - 1])
    ensures PyInt(a + " " + b) == None
  {
    var s := a + " " + b;
    StripDigitEnds(s);
    assert s[|a|] == ' ';
    assert !DigitsOrUnderscores(s);
  }

  /**
   * A numeral led by one of U+001C..U+001F is rejected: str.isspace() holds
   * for these separators, but int() does not skip them.
   */
  lemma PyIntRejectsSeparatorPad(c: char, a: string)
    requires '\U{1C}' <= c <= '\U{1F}'
    requires a != [] && IsDigit(a[|a| - 1])
    ensures PyInt([c] + a) == None
  {
    var s := [c] + a;
    assert s[0] == c && s[|s| - 1] == a[|a| - 1];
    assert !IsPySpace(c) && !IsDigit(c);
    DigitNotSpace(a[|a| - 1]);
    assert Strip(s) == s by {
      StripPadded("", s, "");
      assert "" + s + "" == s;
    }
    assert Numeral(s) == None;
    assert Signed(s) == None;
  }

  /** A numeral with two underscores in a row is rejected, whatever surrounds them. */
  lemma PyIntRejectsDoubleUnderscore(a: string, b: string)
    requires a != [] && b != [] && IsDigit(a[0]) && IsDigit(b[|b| - 1])
    ensures PyInt(a + "__" + b) == None
  {
    var s := a + "__" + b;
    StripDigitEnds(s);
    assert s[|a|] == '_' && s[|a| + 1] == '_';
  }

  /** A string that starts and ends with a digit is unsigned and has nothing to strip. */
  lemma StripDigitEnds(s: string)
    requires s != [] && IsDigit(s[0]) && IsDigit(s[|s| - 1])
    ensures PyInt(s).None? <==> !DigitGroups(s) || |DropUnderscores(s)| > MaxStrDigits
  {
    DigitNotSpace(s[0]);
    DigitNotSpace(s[|s| - 1]);
    assert Strip(s) == s by {
      StripPadded("", s, "");
      assert "" + s + "" == s;
    }
    UnsignedNumeral(s);
  }

  lemma DigitNotSpace(c: char)
    requires IsDigit(c)
    ensures !IsPySpace(c) && c != '-' && c != '+'
  {
  }

  lemma UnsignedNumeral(t: string)
    requires t != [] && t[0] != '-' && t[0] != '+'
    ensures Signed(t).None? <==> !DigitGroups(t) || |DropUnderscores(t)| > MaxStrDigits
  {
  }

  /** `s` is white space `pre`, an optional sign, digit groups `d` and white space `post`, in that order. */
  predicate IntText(s: string, pre: string, sign: string, d: string, post: string) {
    && s == pre + sign + d + post && AllPySpace(pre) && AllPySpace(post)
    && (sign == "" || sign == "+" || sign == "-") && DigitGroups(d)
  }

  /**
   * An optionally signed numeral with white space around it: int() gives
   * its value with the sign applied, unless it has more digits than the
   * limit allows.
   */
  lemma PyIntValue(s: string, pre: string, sign: string, d: string, post: string)
    requires IntText(s, pre, sign, d, post)
    ensures var v: int := DigitsValue(DropUnderscores(d));
      PyInt(s) == if |DropUnderscores(d)| <= MaxStrDigits then Some(if sign == "-" then -v else v) else None
  {
    StripSigned(pre, sign, d, post);
    SignedNumeral(sign, d);
  }

  /** White space around a signed numeral is all that Strip removes. */
  lemma StripSigned(pre: string, sign: string, d: string, post: string)
    requires AllPySpace(pre) && AllPySpace(post)
    requires sign == "" || sign == "+" || sign == "-"
    requires DigitGroups(d)
    ensures Strip(pre + sign + d + post) == sign + d
  {
    var x := sign + d;
    DigitNotSpace(d[0]);
    DigitNotSpace(d[|d| - 1]);
    assert x[0] == (if sign == "" then d[0] else sign[0]);
    assert x[|x| - 1] == d[|d| - 1];
    assert pre + sign + d + post == pre + x + post;
    StripPadded(pre, x, post);
  }

  lemma SignedNumeral(sign: string, d: string)
    requires sign == "" || sign == "+" || sign == "-"
    requires DigitGroups(d)
    ensures var v: int := DigitsValue(DropUnderscores(d));
      Signed(sign + d)
      == if |DropUnderscores(d)| <= MaxStrDigits then Some(if sign == "-" then -v else v) else None
  {
    var x := sign + d;
    DigitNotSpace(d[0]);
    if sign == "" {
      assert x == d;
      assert Signed(x) == Numeral(d);
    } else {
      assert x[0] == sign[0] && x[1..] == d;
    }
  }

  /** Every string int() accepts is an optionally signed numeral within the limit, with white space around it. */
  lemma PyIntShape(s: string)
    requires PyInt(s).Some?
    ensures exists pre, sign, d, post :: IntText(s, pre, sign, d, post) && |DropUnderscores(d)| <= MaxStrDigits
  {
    var pre, post := StripParts(s);
    var sign, d := SignedParts(Strip(s));
    IntTextOfParts(s, pre, Strip(s), post, sign, d);
  }

  lemma IntTextOfParts(s: string, pre: string, t: string, post: string, sign: string, d: string)
    requires s == pre + t + post && t == sign + d
    requires AllPySpace(pre) && AllPySpace(post)
    requires (sign == "" || sign == "+" || sign == "-") && DigitGroups(d)
    ensures IntText(s, pre, sign, d, post)
  {
    assert pre + t == pre + sign + d;
  }

  /** What Strip removes is white space at the two ends. */
  lemma StripParts(s: string) returns (pre: string, post: string)
    ensures s == pre + Strip(s) + post && AllPySpace(pre) && AllPySpace(post)
  {
    pre := LStripParts(s);
    post := RStripParts(LStrip(s));
    Regroup(s, pre, LStrip(s), Strip(s), post);
  }

  lemma Regroup(s: string, pre: string, l: string, t: string, post: string)
    requires s == pre + l && l == t + post
    ensures s == pre + t + post
  {
  }

  lemma LStripParts(s: string) returns (pre: string)
    ensures s == pre + LStrip(s) && AllPySpace(pre)
  {
    pre := s[..|s| - |LStrip(s)|];
  }

  lemma RStripParts(l: string) returns (post: string)
    ensures l == RStrip(l) + post && AllPySpace(post)
  {
    post := l[|RStrip(l)|..];
  }

  /** The sign and the numeral of a string Signed accepts. */
  lemma SignedParts(t: string) returns (sign: string, d: string)
    requires Signed(t).Some?
    ensures t == sign + d && (sign == "" || sign == "+" || sign == "-")
    ensures DigitGroups(d) && |DropUnderscores(d)| <= MaxStrDigits
  {
    if t[0] == '-' || t[0] == '+' {
      sign, d := t[..1], t[1..];
      assert Numeral(d).Some?;
    } else {
      sign, d := "", t;
      assert Numeral(d).Some?;
    }
  }
}
