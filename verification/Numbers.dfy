/** The JavaScript number readers the forms and the date helpers use:
    `parseInt(s)`, `parseFloat(s)` and `Number(s)`, with `NaN` modelled as
    `None`, plus decimal rendering of a count for display. Values are exact
    (`int` and `real`); IEEE rounding is not modelled. */
module Numbers {
  import opened Options
  import Strings

  predicate IsDigit(c: char) {
    '0' <= c <= '9'
  }

  predicate AllDigits(s: string) {
    forall i :: 0 <= i < |s| ==> IsDigit(s[i])
  }

  function DigitValue(c: char): nat
    requires IsDigit(c)
  {
    (c as int) - ('0' as int)
  }

  function DigitChar(d: nat): (c: char)
    requires d < 10
    ensures IsDigit(c) && DigitValue(c) == d
  {
    (('0' as int) + d) as char
  }

  /** The value of a string of decimal digits, most significant first;
      the empty string reads as 0. */
  function DigitsValue(s: string): nat
    requires AllDigits(s)
    decreases |s|
  {
    if |s| == 0 then 0
    else 10 * DigitsValue(s[..|s| - 1]) + DigitValue(s[|s| - 1])
  }

  /** Decimal rendering of a count, as a template literal prints it. */
  function NatToString(n: nat): (s: string)
    ensures |s| >= 1 && AllDigits(s)
    decreases n
  {
    if n < 10 then [DigitChar(n)]
    else NatToString(n / 10) + [DigitChar(n % 10)]
  }

  /** Reading back a rendered count gives the count. */
  lemma {:induction false} NatToStringRoundTrip(n: nat)
    ensures DigitsValue(NatToString(n)) == n
    decreases n
  {
    if n >= 10 {
      var s := NatToString(n);
      NatToStringRoundTrip(n / 10);
      assert s[..|s| - 1] == NatToString(n / 10);
    }
  }

  /** Length of the longest all-digit prefix. */
  function DigitRun(s: string): (n: nat)
    ensures n <= |s|
    ensures AllDigits(s[..n])
    ensures n < |s| ==> !IsDigit(s[n])
    decreases |s|
  {
    if |s| == 0 || !IsDigit(s[0]) then 0
    else
      var n := 1 + DigitRun(s[1..]);
      assert s[..n] == [s[0]] + s[1..][..n - 1];
      n
  }

  /** A digit string followed by something that is not a digit is read up to
      its end and no further. */
  lemma DigitRunOfPrefix(a: string, rest: string)
    requires AllDigits(a)
    requires |rest| == 0 || !IsDigit(rest[0])
    ensures DigitRun(a + rest) == |a|
    ensures (a + rest)[..|a|] == a
  {
    var s := a + rest;
    var n := DigitRun(s);
    assert forall i :: 0 <= i < |a| ==> s[i] == a[i];
    assert s[..|a|] == a;
  }

  /** No character of `s` is a digit. */
  predicate NoDigit(s: string) {
    forall i :: 0 <= i < |s| ==> !IsDigit(s[i])
  }

  /** The white space `parseInt` and `parseFloat` skip: JavaScript's
      StrWhiteSpaceChar, that is the WhiteSpace and LineTerminator code
      points (tab, vertical tab, form feed, space, no-break space, the
      byte-order mark, the Unicode space separators, line feed, carriage
      return and the line and paragraph separators). */
  predicate IsJsSpace(c: char) {
    || c == '\t' || c == '\n' || c == '\U{000B}' || c == '\U{000C}' || c == '\r' || c == ' '
    || c == '\U{00A0}' || c == '\U{1680}' || '\U{2000}' <= c <= '\U{200A}'
    || c == '\U{2028}' || c == '\U{2029}' || c == '\U{202F}' || c == '\U{205F}'
    || c == '\U{3000}' || c == '\U{FEFF}'
  }

  function TrimStart(s: string): (t: string)
    ensures |t| <= |s|
    ensures |t| == 0 || !IsJsSpace(t[0])
    decreases |s|
  {
    if |s| > 0 && IsJsSpace(s[0]) then TrimStart(s[1..]) else s
  }

  /** A non-empty digit string has no white space or sign to skip, and is
      read to its end. */
  lemma WholeDigits(s: string)
    requires AllDigits(s) && |s| > 0
    ensures TrimStart(s) == s && SplitSign(s) == (false, s)
    ensures DigitRun(s) == |s| && s[..|s|] == s
  {
    DigitRunOfPrefix(s, "");
    assert s + "" == s;
  }

  /** An optional leading sign: whether it is '-', and what follows it. */
  function SplitSign(t: string): (bool, string)
  {
    if |t| > 0 && (t[0] == '-' || t[0] == '+') then (t[0] == '-', t[1..]) else (false, t)
  }

  /** `parseInt(s)` in radix 10: optional white space, optional sign, then the
      longest digit prefix; `NaN` (None) when there is no digit there. */
  function ParseInt(s: string): (r: Option<int>)
    ensures AllDigits(s) && |s| > 0 ==> r == Some(DigitsValue(s))
  {
    assert AllDigits(s) && |s| > 0 ==>
      TrimStart(s) == s && SplitSign(s) == (false, s) && DigitRun(s) == |s| && s[..|s|] == s by {
      if AllDigits(s) && |s| > 0 {
        WholeDigits(s);
      }
    }
    var (neg, body) := SplitSign(TrimStart(s));
    var n := DigitRun(body);
    if n == 0 then None
    else Some(if neg then 0 - DigitsValue(body[..n]) else DigitsValue(body[..n]))
  }

  /** The value of the digits after a decimal point: "05" is 0.05. */
  function Fraction(d: string): real
    requires AllDigits(d)
    decreases |d|
  {
    if |d| == 0 then 0.0 else (DigitValue(d[0]) as real + Fraction(d[1..])) / 10.0
  }

  /** The value of a leading exponent part `e[+|-]digits`, or 0 when `s` does
      not start with a complete one (`parseFloat` then ignores it). */
  function ExponentOf(s: string): int
  {
    if |s| == 0 || (s[0] != 'e' && s[0] != 'E') then 0
    else
      var (neg, u) := SplitSign(s[1..]);
      var n := DigitRun(u);
      if n == 0 then 0
      else if neg then 0 - DigitsValue(u[..n]) else DigitsValue(u[..n])
  }

  /** `m` times ten to the power `e`. */
  function Scale(m: real, e: int): real
    decreases if e < 0 then -e else e
  {
    if e == 0 then m
    else if e > 0 then Scale(m * 10.0, e - 1)
    else Scale(m / 10.0, e + 1)
  }

  lemma ScaleZero(m: real)
    ensures Scale(m, 0) == m
  {
  }

  /** The unsigned part of `parseFloat`: the longest prefix of the form
      digits [ '.' digits ] [ exponent ] with at least one digit before the
      exponent; `NaN` (None) when there is none. */
  function ParseUnsignedFloat(body: string): Option<real>
  {
    var a := DigitRun(body);
    var frac := PointFraction(body[a..]);
    if a == 0 && |frac| == 0 then None
    else
      var m := DigitsValue(body[..a]) as real + Fraction(frac);
      Some(Scale(m, ExponentOf(AfterFraction(body[a..]))))
  }

  /** The digits after a leading decimal point ("" when there is no point). */
  function PointFraction(t: string): (d: string)
    ensures AllDigits(d)
  {
    if |t| > 0 && t[0] == '.' then t[1..][..DigitRun(t[1..])] else ""
  }

  /** What follows the decimal point and its digits. */
  function AfterFraction(t: string): string
  {
    if |t| > 0 && t[0] == '.' then t[1..][DigitRun(t[1..])..] else t
  }

  /** `parseFloat(s)`: optional white space, optional sign, then the unsigned
      number. */
  function ParseFloat(s: string): (r: Option<real>)
    ensures AllDigits(s) && |s| > 0 ==> r == Some(DigitsValue(s) as real)
  {
    assert AllDigits(s) && |s| > 0 ==>
      TrimStart(s) == s && SplitSign(s) == (false, s) && ParseUnsignedFloat(s) == Some(DigitsValue(s) as real) by {
      if AllDigits(s) && |s| > 0 {
        WholeDigits(s);
        UnsignedFloatWhole(s);
      }
    }
    var (neg, body) := SplitSign(TrimStart(s));
    match ParseUnsignedFloat(body)
    case None => None
    case Some(m) => Some(if neg then -m else m)
  }

  /** `parseFloat(s.replace(',', '.')) || 0`: the decimal-comma reading both
      forms apply to money fields; `NaN` becomes 0. */
  function ParseDecimalComma(s: string): (r: real)
    ensures ',' !in s ==> r == ParseFloat(s).GetOr(0.0)
    ensures ',' in s ==> var k := Strings.FirstIndex(s, ',');
      r == ParseFloat(s[..k] + "." + s[k + 1..]).GetOr(0.0)
  {
    var t := Strings.ReplaceFirst(s, ',', '.');
    assert ',' !in s ==> t == s by {
      Strings.ReplaceFirstSpec(s, ',', '.');
    }
    assert ',' in s ==> t == s[..Strings.FirstIndex(s, ',')] + "." + s[Strings.FirstIndex(s, ',') + 1..] by {
      Strings.ReplaceFirstSpec(s, ',', '.');
    }
    ParseFloat(t).GetOr(0.0)
  }

  /** `parseInt(s) || 0`. */
  function ParseIntOrZero(s: string): (r: int)
    ensures r != 0 ==> ParseInt(s) == Some(r)
    ensures AllDigits(s) && |s| > 0 ==> r == DigitsValue(s)
  {
    ParseInt(s).GetOr(0)
  }

  /** `Number(s)` on the pieces of a date string, restricted to what a date
      input produces: a digit string (the empty one included) reads as its
      value, and any other piece is taken as `NaN` (None). */
  function NumberOf(s: string): (r: Option<int>)
    ensures r.Some? <==> AllDigits(s)
    ensures r.Some? ==> r.value == DigitsValue(s)
  {
    if AllDigits(s) then Some(DigitsValue(s)) else None
  }

  // ---------------------------------------------------------------------
  // What the readers give on the inputs the forms see.

  /** `parseInt` reads a rendered count back, and stops at the first
      character that is not a digit ("12abc" and "12.7" read as 12). */
  lemma ParseIntReadsCount(n: nat, rest: string)
    requires |rest| == 0 || !IsDigit(rest[0])
    ensures ParseInt(NatToString(n) + rest) == Some(n)
    ensures ParseInt("-" + NatToString(n) + rest) == Some(0 - n)
  {
    var d := NatToString(n);
    var s := d + rest;
    assert ParseInt(s) == Some(n) && ParseInt("-" + s) == Some(0 - n) by {
      DigitRunOfPrefix(d, rest);
      NatToStringRoundTrip(n);
      ParseIntOfPrefix(s, d);
    }
    assert "-" + d + rest == "-" + s;
  }

  /** A string that starts with the digit run `d` reads as the value of `d`,
      with or without a minus sign in front. */
  lemma ParseIntOfPrefix(s: string, d: string)
    requires AllDigits(d) && |d| > 0 && DigitRun(s) == |d| && s[..|d|] == d
    ensures ParseInt(s) == Some(DigitsValue(d))
    ensures ParseInt("-" + s) == Some(0 - DigitsValue(d))
  {
    assert TrimStart(s) == s && SplitSign(s) == (false, s) by {
      assert s[0] == d[0];
    }
    var m := "-" + s;
    assert TrimStart(m) == m && SplitSign(m) == (true, s) by {
      assert m[1..] == s;
    }
  }

  /** Text with no digit at all is `NaN` for `parseInt`. */
  lemma ParseIntNoDigit(s: string)
    requires NoDigit(s)
    ensures ParseInt(s) == None
    ensures ParseIntOrZero(s) == 0
  {
    NoDigitTrimStart(s);
    var (neg, body) := SplitSign(TrimStart(s));
    assert NoDigit(body);
  }

  lemma PointFractionOf(b: string, rest: string)
    requires AllDigits(b)
    requires |rest| == 0 || !IsDigit(rest[0])
    ensures PointFraction("." + b + rest) == b
    ensures AfterFraction("." + b + rest) == rest
  {
    var t := "." + b + rest;
    assert t[1..] == b + rest;
    DigitRunOfPrefix(b, rest);
    assert (b + rest)[|b|..] == rest;
  }

  lemma UnsignedFloatOf(body: string, a: string, b: string)
    requires AllDigits(a) && AllDigits(b) && |a| + |b| > 0
    requires DigitRun(body) == |a| && body[..|a|] == a
    requires PointFraction(body[|a|..]) == b
    requires ExponentOf(AfterFraction(body[|a|..])) == 0
    ensures ParseUnsignedFloat(body) == Some(DigitsValue(a) as real + Fraction(b))
  {
    var n := DigitRun(body);
    var m := DigitsValue(body[..n]) as real + Fraction(PointFraction(body[n..]));
    assert m == DigitsValue(a) as real + Fraction(b);
    assert ParseUnsignedFloat(body) == Some(Scale(m, ExponentOf(AfterFraction(body[n..]))));
    ScaleZero(m);
  }

  lemma UnsignedFloatDecimal(a: string, b: string, rest: string)
    requires AllDigits(a) && AllDigits(b) && |a| + |b| > 0
    requires |rest| == 0 || (!IsDigit(rest[0]) && rest[0] != 'e' && rest[0] != 'E')
    ensures ParseUnsignedFloat(a + "." + b + rest) == Some(DigitsValue(a) as real + Fraction(b))
  {
    var t := "." + b + rest;
    var s := a + t;
    Strings.ConcatAssoc(a, ".", b, rest);
    assert DigitRun(s) == |a| && s[..|a|] == a by {
      DigitRunOfPrefix(a, t);
    }
    assert s[|a|..] == t;
    assert PointFraction(t) == b && AfterFraction(t) == rest by {
      PointFractionOf(b, rest);
    }
    assert ExponentOf(rest) == 0;
    UnsignedFloatOf(s, a, b);
  }

  /** Text that starts with a digit or a point carries no sign or white
      space for `parseFloat` to skip. */
  lemma ParseFloatUnsigned(s: string)
    requires |s| > 0 && (IsDigit(s[0]) || s[0] == '.')
    ensures ParseFloat(s) == ParseUnsignedFloat(s)
  {
    assert TrimStart(s) == s;
    assert SplitSign(s) == (false, s);
  }

  lemma ParseFloatDecimal(a: string, b: string, rest: string)
    requires AllDigits(a) && AllDigits(b) && |a| + |b| > 0
    requires |rest| == 0 || (!IsDigit(rest[0]) && rest[0] != 'e' && rest[0] != 'E')
    ensures ParseFloat(a + "." + b + rest) == Some(DigitsValue(a) as real + Fraction(b))
  {
    var s := a + "." + b + rest;
    assert |s| > 0 && (IsDigit(s[0]) || s[0] == '.') by {
      assert s[0] == (if |a| > 0 then a[0] else '.');
    }
    ParseFloatUnsigned(s);
    UnsignedFloatDecimal(a, b, rest);
  }

  /** Replacing the first `from` when it sits right after a `from`-free
      prefix. */
  lemma {:induction false} ReplaceFirstAfter(x: string, y: string, from: char, to: char)
    requires from !in x
    ensures Strings.ReplaceFirst(x + [from] + y, from, to) == x + [to] + y
    decreases |x|
  {
    if |x| > 0 {
      assert (x + [from] + y)[1..] == x[1..] + [from] + y;
      assert x[0] in x;
      ReplaceFirstAfter(x[1..], y, from, to);
      assert [x[0]] + (x[1..] + [to] + y) == x + [to] + y;
    } else {
      assert x + [from] + y == [from] + y;
    }
  }

  /** "12,50" reads as 12.5: the comma is the decimal separator. */
  lemma DecimalCommaValue(a: string, b: string)
    requires AllDigits(a) && AllDigits(b) && |a| + |b| > 0
    ensures ParseDecimalComma(a + "," + b) == DigitsValue(a) as real + Fraction(b)
  {
    assert ',' !in a by {
      assert forall i :: 0 <= i < |a| ==> IsDigit(a[i]);
    }
    ReplaceFirstAfter(a, b, ',', '.');
    assert a + "," + b == a + [','] + b;
    assert a + ['.'] + b == a + "." + b + "";
    ParseFloatDecimal(a, b, "");
  }

  lemma ParseFloatBeforeSecondPoint(a: string, b: string, c: string)
    requires AllDigits(a) && AllDigits(b) && |a| + |b| > 0
    ensures ParseFloat(a + "." + b + ("." + c)) == Some(DigitsValue(a) as real + Fraction(b))
  {
    ParseFloatDecimal(a, b, "." + c);
  }

  lemma ReplaceSecondSeparator(a: string, b: string, c: string)
    requires AllDigits(a) && AllDigits(b)
    ensures Strings.ReplaceFirst(a + "." + b + "," + c, ',', '.') == a + "." + b + ("." + c)
  {
    var x := a + "." + b;
    assert ',' !in x by {
      assert forall i :: 0 <= i < |x| ==> x[i] == '.' || IsDigit(x[i]);
    }
    ReplaceFirstAfter(x, c, ',', '.');
    assert a + "." + b + "," + c == x + [','] + c;
    assert x + ['.'] + c == a + "." + b + ("." + c);
  }

  /** "1.234,56" reads as 1.234: the comma becomes a second point, where
      `parseFloat` stops. */
  lemma DecimalCommaAfterPoint(a: string, b: string, c: string)
    requires AllDigits(a) && AllDigits(b) && |a| + |b| > 0
    ensures ParseDecimalComma(a + "." + b + "," + c) == DigitsValue(a) as real + Fraction(b)
  {
    ReplaceSecondSeparator(a, b, c);
    ParseFloatBeforeSecondPoint(a, b, c);
  }

  /** `parseFloat` applies the sign it skipped to the unsigned reading. */
  lemma ParseFloatOf(s: string, neg: bool, body: string, m: real)
    requires SplitSign(TrimStart(s)) == (neg, body)
    requires ParseUnsignedFloat(body) == Some(m)
    ensures ParseFloat(s) == Some(if neg then -m else m)
  {
  }

  /** An unsigned digit string reads as its value. */
  lemma UnsignedFloatWhole(a: string)
    requires AllDigits(a) && |a| > 0
    ensures ParseUnsignedFloat(a) == Some(DigitsValue(a) as real)
  {
    assert DigitRun(a) == |a| && a[..|a|] == a by {
      DigitRunOfPrefix(a, "");
      assert a + "" == a;
    }
    assert a[|a|..] == "";
    assert Fraction("") == 0.0;
    UnsignedFloatOf(a, a, "");
  }

  /** A whole number "123" reads as its value. */
  lemma DecimalCommaWhole(a: string)
    requires AllDigits(a) && |a| > 0
    ensures ParseDecimalComma(a) == DigitsValue(a) as real
  {
    assert ',' !in a by {
      assert forall i :: 0 <= i < |a| ==> IsDigit(a[i]);
    }
    assert Strings.ReplaceFirst(a, ',', '.') == a by {
      Strings.ReplaceFirstSpec(a, ',', '.');
    }
    UnsignedFloatWhole(a);
    ParseFloatUnsigned(a);
  }

  /** A leading minus sign negates whatever the rest reads as: the reading
      accepts negative amounts. */
  lemma DecimalCommaNegative(a: string)
    requires AllDigits(a) && |a| > 0
    ensures ParseDecimalComma("-" + a) == -(DigitsValue(a) as real)
  {
    var s := "-" + a;
    assert ',' !in s by {
      assert forall i :: 0 <= i < |a| ==> IsDigit(a[i]);
      assert forall i :: 1 <= i < |s| ==> s[i] == a[i - 1];
    }
    assert Strings.ReplaceFirst(s, ',', '.') == s by {
      Strings.ReplaceFirstSpec(s, ',', '.');
    }
    assert TrimStart(s) == s;
    assert SplitSign(s) == (true, a) by {
      assert s[1..] == a;
    }
    UnsignedFloatWhole(a);
    ParseFloatOf(s, true, a, DigitsValue(a) as real);
  }

  lemma {:induction false} NoDigitReplaceFirst(s: string, from: char, to: char)
    requires NoDigit(s) && !IsDigit(to)
    ensures NoDigit(Strings.ReplaceFirst(s, from, to))
    decreases |s|
  {
    if |s| > 0 && s[0] != from {
      NoDigitReplaceFirst(s[1..], from, to);
    }
  }

  lemma {:induction false} NoDigitTrimStart(s: string)
    requires NoDigit(s)
    ensures NoDigit(TrimStart(s))
    decreases |s|
  {
    if |s| > 0 && IsJsSpace(s[0]) {
      NoDigitTrimStart(s[1..]);
    }
  }

  /** Text with no digit, the empty string included, reads as 0. */
  lemma DecimalCommaNoDigit(s: string)
    requires NoDigit(s)
    ensures ParseDecimalComma(s) == 0.0
  {
    var r := Strings.ReplaceFirst(s, ',', '.');
    NoDigitReplaceFirst(s, ',', '.');
    NoDigitTrimStart(r);
    var (neg, body) := SplitSign(TrimStart(r));
    assert NoDigit(body);
    assert DigitRun(body) == 0;
    if |body| > 0 {
      assert NoDigit(body[1..]);
      assert DigitRun(body[1..]) == 0;
    }
    assert ParseUnsignedFloat(body) == None;
  }

  lemma DecimalCommaExample()
    ensures ParseDecimalComma("12,50") == 12.5
  {
    assert AllDigits("12") && DigitsValue("12") == 12;
    assert AllDigits("50") && DigitsValue("50") == 50;
    assert Fraction("50") == 0.5 by {
      assert "50"[1..] == "0" && "0"[1..] == "";
    }
    assert "12,50" == "12" + "," + "50";
    DecimalCommaValue("12", "50");
  }

  lemma DecimalCommaThousandsExample()
    ensures ParseDecimalComma("1.234,56") == 1.234
  {
    assert AllDigits("1") && DigitsValue("1") == 1;
    assert AllDigits("234") && DigitsValue("234") == 234;
    assert Fraction("234") == 0.234 by {
      assert "234"[1..] == "34" && "34"[1..] == "4" && "4"[1..] == "";
    }
    assert "1.234,56" == "1" + "." + "234" + "," + "56";
    DecimalCommaAfterPoint("1", "234", "56");
  }

  lemma DecimalCommaEmptyExample()
    ensures ParseDecimalComma("") == 0.0
    ensures ParseDecimalComma("abc") == 0.0
  {
    DecimalCommaNoDigit("");
    DecimalCommaNoDigit("abc");
  }
}
