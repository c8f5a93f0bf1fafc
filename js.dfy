/** JavaScript values as the admin and home pages see them after `JSON.parse`.
    A number is held as an integer in the unit of the field it sits in (tenths for
    a rating, whole units for a year or a platform flag), and `NaN` is a value of
    its own. */
module Js {
  import opened Common
  import opened Catalog

  datatype Value =
    | Undefined
    | Null
    | NaN
    | Bool(b: bool)
    | Number(n: int)
    | Str(s: string)
    | List(items: seq<Value>)

  /** A dataset cell as the value `JSON.parse` gives for it. */
  function OfField(f: Field): (v: Value)
    ensures f.Num? ==> v == Number(f.n)
    ensures f.Text? ==> v == Str(f.s)
    ensures f.Absent? ==> v == Undefined
    ensures f.Null? ==> v == Value.Null
  {
    match f
    case Absent => Undefined
    case Null => Value.Null
    case Num(n) => Number(n)
    case Text(s) => Str(s)
  }

  /** `Boolean(v)`: `undefined`, `null`, `NaN`, `false`, `0` and `""` are falsy. */
  predicate Truthy(v: Value) {
    match v
    case Undefined => false
    case Null => false
    case NaN => false
    case Bool(b) => b
    case Number(n) => n != 0
    case Str(s) => s != ""
    case List(_) => true
  }

  /** `parseInt(v)` of a whole-unit field: a number is kept, a string is read by
      `IntPrefix`, anything else is `NaN`. */
  function ParseInt(v: Value): (r: Value)
    ensures r.Number? || r.NaN?
    ensures v.Number? ==> r == v
    ensures v.Str? ==> (r.Number? <==> IntPrefix(v.s).Some?)
    ensures v.Str? && r.Number? ==> IntPrefix(v.s) == Some(r.n)
    ensures !v.Number? && !v.Str? ==> r == NaN
  {
    match v
    case Number(_) => v
    case Str(s) => if IntPrefix(s).Some? then Number(IntPrefix(s).value) else NaN
    case _ => NaN
  }

  /** `parseFloat(v)` of a rating, in tenths: a number is kept, a string is read
      by `FloatPrefix`, anything else is `NaN`. */
  function ParseFloat(v: Value): (r: Value)
    ensures r.Number? || r.NaN?
    ensures v.Number? ==> r == v
    ensures v.Str? ==> (r.Number? <==> FloatPrefix(v.s).Some?)
    ensures v.Str? && r.Number? ==> FloatPrefix(v.s) == Some(r.n)
    ensures !v.Number? && !v.Str? ==> r == NaN
  {
    match v
    case Number(_) => v
    case Str(s) => if FloatPrefix(s).Some? then Number(FloatPrefix(s).value) else NaN
    case _ => NaN
  }

  // ---------------------------------------------------------------- reading a numeric prefix

  /** The run of decimal digits at the head of `s`. */
  function LeadingDigits(s: string): (d: string)
    ensures AllDigits(d) && IsPrefix(d, s)
    ensures |d| == |s| || !IsDigit(s[|d|])
    ensures s != [] && IsDigit(s[0]) ==> d != [] && d[0] == s[0]
  {
    if s != [] && IsDigit(s[0]) then
      var d := [s[0]] + LeadingDigits(s[1..]);
      assert s[..|d|] == [s[0]] + s[1..][..|d| - 1];
      d
    else []
  }

  /** The text after an optional leading '+' or '-'. */
  function Unsigned(t: string): string {
    if t != [] && (t[0] == '+' || t[0] == '-') then t[1..] else t
  }

  predicate Negative(t: string) { t != [] && t[0] == '-' }

  /** `n`, negated when `neg`. */
  function Signed(neg: bool, n: nat): int { if neg then -(n as int) else n }

  /** What `parseInt` reads from a string (radix 10): leading white space is
      skipped, an optional sign is taken, then the longest run of decimal digits;
      whatever follows is ignored. None (`NaN`) when no digit comes first. */
  function IntPrefix(s: string): (r: Option<int>)
  {
    var t := TrimStart(JavaScript, s);
    var d := LeadingDigits(Unsigned(t));
    if d == [] then None else Some(Signed(Negative(t), DigitsValue(d)))
  }

  /** The first decimal digit of a `parseFloat` numeral: the digits after a '.'
      that directly follows the whole digits. */
  function Decimals(after: string): (f: string)
    ensures AllDigits(f)
  {
    if after != [] && after[0] == '.' then LeadingDigits(after[1..]) else []
  }

  /** Whole digits `w` and decimal digits `f` as tenths, the first decimal kept. */
  function Tenths(w: string, f: string): nat
    requires AllDigits(w) && AllDigits(f)
  {
    10 * DigitsValue(w) + (if f == [] then 0 else f[0] as int - '0' as int)
  }

  /** What `parseFloat` reads from a string, in tenths: leading white space, an
      optional sign, the whole digits, then '.' and the decimal digits, of which
      the first is kept; whatever follows is ignored. None (`NaN`) when neither
      part has a digit. */
  function FloatPrefix(s: string): (r: Option<int>)
  {
    var t := TrimStart(JavaScript, s);
    var u := Unsigned(t);
    var w := LeadingDigits(u);
    var f := Decimals(u[|w|..]);
    if w == [] && f == [] then None else Some(Signed(Negative(t), Tenths(w, f)))
  }

  /** The sign text of `neg`. */
  function SignText(neg: bool): string { if neg then "-" else "" }

  /** Leading white space is dropped up to the first other character. */
  lemma {:induction false} TrimStartPast(pre: string, x: string)
    requires AllSpace(JavaScript, pre)
    requires x == [] || !IsSpace(JavaScript, x[0])
    ensures TrimStart(JavaScript, pre + x) == x
    decreases |pre|
  {
    if pre == [] {
      assert pre + x == x;
    } else {
      assert (pre + x)[0] == pre[0];
      assert (pre + x)[1..] == pre[1..] + x;
      assert AllSpace(JavaScript, pre[1..]) by {
        forall i | 0 <= i < |pre[1..]| ensures IsSpace(JavaScript, pre[1..][i]) {
          assert pre[1..][i] == pre[i + 1];
        }
      }
      TrimStartPast(pre[1..], x);
    }
  }

  /** The digit run of digits followed by a non-digit is those digits. */
  lemma {:induction false} LeadingDigitsOf(a: string, b: string)
    requires AllDigits(a)
    requires b == [] || !IsDigit(b[0])
    ensures LeadingDigits(a + b) == a
    decreases |a|
  {
    if a == [] {
      assert a + b == b;
    } else {
      assert (a + b)[0] == a[0];
      assert (a + b)[1..] == a[1..] + b;
      assert AllDigits(a[1..]) by {
        forall i | 0 <= i < |a[1..]| ensures IsDigit(a[1..][i]) { assert a[1..][i] == a[i + 1]; }
      }
      LeadingDigitsOf(a[1..], b);
      assert a == [a[0]] + a[1..];
    }
  }

  /** White space, a sign and a text starting with a digit: the space is skipped,
      the sign read, and the rest is the unsigned text. */
  lemma SignedText(pre: string, neg: bool, body: string)
    requires AllSpace(JavaScript, pre)
    requires body != [] && IsDigit(body[0])
    ensures var t := TrimStart(JavaScript, pre + SignText(neg) + body);
      t == SignText(neg) + body && Negative(t) == neg && Unsigned(t) == body
  {
    var x := SignText(neg) + body;
    assert pre + SignText(neg) + body == pre + x;
    assert x[0] == (if neg then '-' else body[0]);
    TrimStartPast(pre, x);
    if neg { assert x[1..] == body; } else { assert x == body; }
  }

  /** `parseInt` of white space, an optional '-', digits and any text not starting
      with a digit reads the digits, negated after '-'. */
  lemma IntPrefixReads(pre: string, neg: bool, a: string, rest: string)
    requires AllSpace(JavaScript, pre)
    requires a != [] && AllDigits(a)
    requires rest == [] || !IsDigit(rest[0])
    ensures IntPrefix(pre + SignText(neg) + (a + rest)) == Some(Signed(neg, DigitsValue(a)))
  {
    assert (a + rest)[0] == a[0];
    SignedText(pre, neg, a + rest);
    LeadingDigitsOf(a, rest);
  }

  /** The parts `FloatPrefix` takes apart, for a string with whole digits `a`. */
  lemma FloatPrefixAfter(pre: string, neg: bool, a: string, tail: string)
    requires AllSpace(JavaScript, pre)
    requires a != [] && AllDigits(a)
    requires tail == [] || !IsDigit(tail[0])
    ensures FloatPrefix(pre + SignText(neg) + (a + tail)) == Some(Signed(neg, Tenths(a, Decimals(tail))))
  {
    assert (a + tail)[0] == a[0];
    SignedText(pre, neg, a + tail);
    LeadingDigitsOf(a, tail);
    assert (a + tail)[|a|..] == tail;
  }

  /** `parseFloat` of white space, an optional '-' and digits `a`, followed by
      text that starts with neither a digit nor '.', reads `a` points. */
  lemma FloatPrefixWhole(pre: string, neg: bool, a: string, rest: string)
    requires AllSpace(JavaScript, pre)
    requires a != [] && AllDigits(a)
    requires rest == [] || (!IsDigit(rest[0]) && rest[0] != '.')
    ensures FloatPrefix(pre + SignText(neg) + (a + rest)) == Some(Signed(neg, 10 * DigitsValue(a)))
  {
    FloatPrefixAfter(pre, neg, a, rest);
  }

  /** `parseFloat` of white space, an optional '-', digits `a`, '.', a digit `d`
      and any further text reads `a` points and `d` tenths. */
  lemma FloatPrefixDecimal(pre: string, neg: bool, a: string, d: nat, rest: string)
    requires AllSpace(JavaScript, pre)
    requires a != [] && AllDigits(a) && d < 10
    ensures FloatPrefix(pre + SignText(neg) + (a + ("." + [DigitChar(d)] + rest))) ==
      Some(Signed(neg, 10 * DigitsValue(a) + d))
  {
    var tail := "." + [DigitChar(d)] + rest;
    assert tail[0] == '.';
    FloatPrefixAfter(pre, neg, a, tail);
    DecimalsFirst(d, rest);
    TenthsOfFirst(neg, a, Decimals(tail), d);
  }

  lemma TenthsOfFirst(neg: bool, a: string, f: string, d: nat)
    requires AllDigits(a) && AllDigits(f)
    requires f != [] && f[0] as int - '0' as int == d
    ensures Signed(neg, Tenths(a, f)) == Signed(neg, 10 * DigitsValue(a) + d)
  {
  }

  /** The decimals after '.' start with the digit written there. */
  lemma DecimalsFirst(d: nat, rest: string)
    requires d < 10
    ensures var f := Decimals("." + [DigitChar(d)] + rest);
      f != [] && f[0] as int - '0' as int == d
  {
    var tail := "." + [DigitChar(d)] + rest;
    assert tail[0] == '.';
    assert tail[1..] == [DigitChar(d)] + rest;
  }

  /** Where the pandas reading of a plain digit string succeeds, `parseInt` reads
      the same number. */
  lemma IntPrefixAgrees(s: string)
    requires ParseWhole(s).Some?
    ensures IntPrefix(s) == ParseWhole(s)
  {
    IntPrefixReads("", false, s, "");
    assert "" + SignText(false) + (s + "") == s;
  }

  /** `parseInt` reads nothing from text that starts with a letter. */
  lemma NoLeadingDigit()
    ensures IntPrefix("N/A") == None
  {
    assert !IsSpace(JavaScript, 'N') && !IsDigit('N');
    assert TrimStart(JavaScript, "N/A") == "N/A";
  }

  lemma DigitsOf2020()
    ensures AllDigits("2020") && DigitsValue("2020") == 2020
  {
    assert "2020"[..3] == "202" && "202"[..2] == "20" && "20"[..1] == "2" && "2"[..0] == "";
  }

  /** `parseInt` stops at the '.' of "2020.0". */
  lemma TrailingDecimalsIgnored()
    ensures IntPrefix("2020.0") == Some(2020)
  {
    assert "" + SignText(false) + ("2020" + ".0") == "2020.0";
    DigitsOf2020();
    IntPrefixReads("", false, "2020", ".0");
  }

  /** `parseInt` skips the space of " 2020". */
  lemma LeadingSpaceSkipped()
    ensures IntPrefix(" 2020") == Some(2020)
  {
    assert " " + SignText(false) + ("2020" + "") == " 2020";
    DigitsOf2020();
    IntPrefixReads(" ", false, "2020", "");
  }

  /** `parseFloat` reads "8.5/10" as 8.5, in tenths. */
  lemma RatingBeforeSlash()
    ensures FloatPrefix("8.5/10") == Some(85)
  {
    assert DigitChar(5) == '5';
    assert "" + SignText(false) + ("8" + ("." + [DigitChar(5)] + "/10")) == "8.5/10";
    assert DigitsValue("8") == 8;
    FloatPrefixDecimal("", false, "8", 5, "/10");
  }

  /** `parseFloat` reads " 7" as 7, in tenths. */
  lemma SpacedWholeRating()
    ensures FloatPrefix(" 7") == Some(70)
  {
    assert " " + SignText(false) + ("7" + "") == " 7";
    assert DigitsValue("7") == 7;
    FloatPrefixWhole(" ", false, "7", "");
  }

  /** `(v || '')` where the result is used as a string. */
  function TextOf(v: Value): (s: string)
    ensures v.Str? ==> s == v.s
    ensures !Truthy(v) ==> s == ""
  {
    if v.Str? then v.s else ""
  }

  /** `(v || 0)` of a whole-unit field, as a relational operator or `-` sees it:
      a string is read by `Number`. */
  function WholeOrZero(v: Value): (n: int)
    ensures !Truthy(v) ==> n == 0
    ensures v.Number? ==> n == v.n
    ensures v.Str? ==> n == NumberWhole(v.s).GetOr(0)
  {
    match v
    case Number(n) => n
    case Str(s) => NumberWhole(s).GetOr(0)
    case _ => 0
  }

  /** `(v || 0)` of a rating, in tenths, as a relational operator sees it: a
      string is read by `Number`. */
  function TenthsOrZero(v: Value): (n: int)
    ensures !Truthy(v) ==> n == 0
    ensures v.Number? ==> n == v.n
    ensures v.Str? ==> n == NumberTenths(v.s).GetOr(0)
  {
    match v
    case Number(n) => n
    case Str(s) => NumberTenths(s).GetOr(0)
    case _ => 0
  }

  // ---------------------------------------------------------------- Number()

  /** A decimal numeral: its sign, whole digits and decimal digits. */
  datatype Numeral = Numeral(neg: bool, whole: string, decimals: string)

  /** The numeral that `Number` reads from trimmed text: an optional sign, then
      digits, '.' and digits, with a digit on at least one side of the '.'; the
      empty text is 0. None (`NaN`) for anything else. */
  function NumeralOf(t: string): (r: Option<Numeral>)
    ensures r.Some? ==> AllDigits(r.value.whole) && AllDigits(r.value.decimals)
  {
    if t == [] then Some(Numeral(false, "", ""))
    else
      var u := Unsigned(t);
      var w := LeadingDigits(u);
      var after := u[|w|..];
      if after == [] then
        if w == [] then None else Some(Numeral(Negative(t), w, ""))
      else if after[0] == '.' && AllDigits(after[1..]) && (w != [] || |after| > 1) then
        Some(Numeral(Negative(t), w, after[1..]))
      else None
  }

  predicate AllZeros(s: string) {
    forall i :: 0 <= i < |s| ==> s[i] == '0'
  }

  /** `Number(s)` of a whole-unit value: the text is trimmed of white space at
      both ends and read as a numeral. None when it is not one (`NaN`), and when
      it has a non-zero decimal, which a whole number cannot hold. */
  function NumberWhole(s: string): (r: Option<int>)
  {
    var p := NumeralOf(Trim(JavaScript, s));
    if p.Some? && AllZeros(p.value.decimals) then Some(Signed(p.value.neg, DigitsValue(p.value.whole)))
    else None
  }

  /** `Number(s)` of a rating, in tenths, the first decimal kept. None when the
      trimmed text is not a numeral (`NaN`). */
  function NumberTenths(s: string): (r: Option<int>)
  {
    var p := NumeralOf(Trim(JavaScript, s));
    if p.Some? then Some(Signed(p.value.neg, Tenths(p.value.whole, p.value.decimals))) else None
  }

  /** Trailing white space is dropped back to the last other character. */
  lemma {:induction false} TrimEndPast(x: string, post: string)
    requires AllSpace(JavaScript, post)
    requires x == [] || !IsSpace(JavaScript, x[|x| - 1])
    ensures TrimEnd(JavaScript, x + post) == x
    decreases |post|
  {
    if post == [] {
      assert x + post == x;
    } else {
      var s := x + post;
      assert s[|s| - 1] == post[|post| - 1];
      assert s[..|s| - 1] == x + post[..|post| - 1];
      var q := post[..|post| - 1];
      assert AllSpace(JavaScript, q) by {
        forall i | 0 <= i < |q| ensures IsSpace(JavaScript, q[i]) {
          assert q[i] == post[i];
        }
      }
      TrimEndPast(x, post[..|post| - 1]);
    }
  }

  /** White space around a text that starts and ends with other characters is
      trimmed away, leaving the text. */
  lemma TrimAround(pre: string, x: string, post: string)
    requires AllSpace(JavaScript, pre) && AllSpace(JavaScript, post)
    requires x != [] && !IsSpace(JavaScript, x[0]) && !IsSpace(JavaScript, x[|x| - 1])
    ensures Trim(JavaScript, pre + x + post) == x
  {
    assert pre + x + post == pre + (x + post);
    assert (x + post)[0] == x[0];
    TrimStartPast(pre, x + post);
    TrimEndPast(x, post);
  }

  /** The numeral of a sign, whole digits `a` and a tail that is empty or '.'
      followed by digits. */
  lemma NumeralOfParts(sign: string, a: string, tail: string)
    requires sign == "" || sign == "+" || sign == "-"
    requires a != [] && AllDigits(a)
    requires tail == [] || (tail[0] == '.' && AllDigits(tail[1..]))
    ensures NumeralOf(sign + (a + tail)) ==
      Some(Numeral(sign == "-", a, if tail == [] then [] else tail[1..]))
  {
    var x := sign + (a + tail);
    assert (a + tail)[0] == a[0];
    assert x[0] == if sign == "" then a[0] else sign[0];
    assert Unsigned(x) == a + tail by {
      if sign != "" { assert x[1..] == a + tail; } else { assert x == a + tail; }
    }
    assert Negative(x) == (sign == "-");
    LeadingDigitsOf(a, tail);
    assert (a + tail)[|a|..] == tail;
  }

  /** `Number` of white space, an optional sign, digits `a`, optionally '.' and
      zeros, and white space, is the signed value of `a`. */
  lemma NumberWholeReads(pre: string, sign: string, a: string, tail: string, post: string)
    requires AllSpace(JavaScript, pre) && AllSpace(JavaScript, post)
    requires sign == "" || sign == "+" || sign == "-"
    requires a != [] && AllDigits(a)
    requires tail == [] || (tail[0] == '.' && AllZeros(tail[1..]))
    ensures NumberWhole(pre + (sign + (a + tail)) + post) == Some(Signed(sign == "-", DigitsValue(a)))
  {
    var x := sign + (a + tail);
    if tail != [] {
      var z := tail[1..];
      assert AllDigits(z) by {
        forall i | 0 <= i < |z| ensures IsDigit(z[i]) { assert z[i] == '0'; }
      }
    }
    NumeralEnds(sign, a, tail);
    TrimAround(pre, x, post);
    NumeralOfParts(sign, a, tail);
  }

  /** `Number` of white space, an optional sign, digits `a`, optionally '.' and
      digits, and white space, is the signed value in tenths. */
  lemma NumberTenthsReads(pre: string, sign: string, a: string, tail: string, post: string)
    requires AllSpace(JavaScript, pre) && AllSpace(JavaScript, post)
    requires sign == "" || sign == "+" || sign == "-"
    requires a != [] && AllDigits(a)
    requires tail == [] || (tail[0] == '.' && AllDigits(tail[1..]))
    ensures NumberTenths(pre + (sign + (a + tail)) + post) ==
      Some(Signed(sign == "-", Tenths(a, if tail == [] then [] else tail[1..])))
  {
    NumeralEnds(sign, a, tail);
    TrimAround(pre, sign + (a + tail), post);
    NumeralOfParts(sign, a, tail);
  }

  /** A numeral starts with a sign or a digit and ends with a digit or '.', so
      neither end is white space. */
  lemma NumeralEnds(sign: string, a: string, tail: string)
    requires sign == "" || sign == "+" || sign == "-"
    requires a != [] && AllDigits(a)
    requires tail == [] || (tail[0] == '.' && AllDigits(tail[1..]))
    ensures var x := sign + (a + tail);
      x != [] && !IsSpace(JavaScript, x[0]) && !IsSpace(JavaScript, x[|x| - 1])
  {
    var x := sign + (a + tail);
    assert (a + tail)[0] == a[0];
    assert x[0] == if sign == "" then a[0] else sign[0];
    if tail == [] {
      assert x[|x| - 1] == a[|a| - 1];
    } else if |tail| == 1 {
      assert x[|x| - 1] == '.';
    } else {
      assert x[|x| - 1] == tail[1..][|tail| - 2];
    }
  }

  /** Blank text is the number 0. */
  lemma BlankIsZero(s: string)
    requires AllSpace(JavaScript, s)
    ensures NumberWhole(s) == Some(0) && NumberTenths(s) == Some(0)
  {
    TrimEmptyIffBlank(JavaScript, s);
  }

  /** Where the pandas reading of a plain digit string succeeds, `Number` reads
      the same number. */
  lemma NumberWholeAgrees(s: string)
    requires ParseWhole(s).Some?
    ensures NumberWhole(s) == ParseWhole(s)
  {
    NumberWholeReads("", "", s, "", "");
    assert "" + ("" + (s + "")) + "" == s;
  }

  /** `Number` reads " 2020", "2020 ", "+2020" and "2020.0" all as 2020. */
  lemma YearSpellings()
    ensures NumberWhole(" 2020") == Some(2020)
    ensures NumberWhole("2020 ") == Some(2020)
    ensures NumberWhole("+2020") == Some(2020)
    ensures NumberWhole("2020.0") == Some(2020)
  {
    SpacedYear();
    PaddedYear();
    PlusYear();
    PointZeroYear();
  }

  lemma SpacedYear()
    ensures NumberWhole(" 2020") == Some(2020)
  {
    assert " " + ("" + ("2020" + "")) + "" == " 2020";
    DigitsOf2020();
    NumberWholeReads(" ", "", "2020", "", "");
  }

  lemma PaddedYear()
    ensures NumberWhole("2020 ") == Some(2020)
  {
    assert "" + ("" + ("2020" + "")) + " " == "2020 ";
    DigitsOf2020();
    NumberWholeReads("", "", "2020", "", " ");
  }

  lemma PlusYear()
    ensures NumberWhole("+2020") == Some(2020)
  {
    assert "" + ("+" + ("2020" + "")) + "" == "+2020";
    DigitsOf2020();
    NumberWholeReads("", "+", "2020", "", "");
  }

  lemma PointZeroYear()
    ensures NumberWhole("2020.0") == Some(2020)
  {
    assert "" + ("" + ("2020" + ".0")) + "" == "2020.0";
    assert AllZeros(".0"[1..]);
    DigitsOf2020();
    NumberWholeReads("", "", "2020", ".0", "");
  }
}
