/** String and value helpers shared by the backend and the front-end pages.
    Strings are sequences of characters; case mapping covers ASCII letters only. */
module Common {

  datatype Option<+T> = None | Some(value: T) {
    function GetOr(default: T): T {
      match this
      case Some(v) => v
      case None => default
    }
  }

  /** `s || d` in JavaScript for an optional string: a missing or empty string
      falls back to `d`. */
  function OrDefault(s: Option<string>, d: string): (r: string)
    ensures s.Some? && s.value != "" ==> r == s.value
    ensures (s.None? || s.value == "") ==> r == d
  {
    if s.Some? && s.value != "" then s.value else d
  }

  /** `n || 0` in JavaScript for an optional number (NaN, null and undefined are None). */
  function OrZero(n: Option<int>): (r: int)
    ensures n.Some? ==> r == n.value
    ensures n.None? ==> r == 0
  {
    if n.Some? then n.value else 0
  }

  // ---------------------------------------------------------------- characters

  predicate IsUpper(c: char) { 'A' <= c <= 'Z' }

  function LowerChar(c: char): (d: char)
    ensures !IsUpper(d)
    ensures IsUpper(c) ==> d as int == c as int + 32
    ensures !IsUpper(c) ==> d == c
  {
    if IsUpper(c) then (c as int + 32) as char else c
  }

  /** `str.lower()` / `toLowerCase()` restricted to ASCII letters. */
  function Lower(s: string): (r: string)
    ensures |r| == |s|
    ensures forall i :: 0 <= i < |s| ==> r[i] == LowerChar(s[i])
  {
    seq(|s|, i requires 0 <= i < |s| => LowerChar(s[i]))
  }

  lemma LowerIdempotent(s: string)
    ensures Lower(Lower(s)) == Lower(s)
  {
  }

  /** Whose notion of white space a string operation follows. */
  datatype Lang = Python | JavaScript

  /** White space as Python's `str.isspace` (behind `split()` and `strip()`) and
      JavaScript's `\s` and `trim()` see it: both take the control characters tab
      to carriage return, the space separators and the line and paragraph
      separators; Python adds the information separators U+001C-U+001F and
      U+0085, JavaScript adds the byte-order mark U+FEFF. */
  predicate IsSpace(lang: Lang, c: char) {
    c == ' ' || '\t' <= c <= '\r' || c == '\U{00A0}' || c == '\U{1680}' ||
    '\U{2000}' <= c <= '\U{200A}' || c == '\U{2028}' || c == '\U{2029}' ||
    c == '\U{202F}' || c == '\U{205F}' || c == '\U{3000}' ||
    (lang == Python && ('\U{001C}' <= c <= '\U{001F}' || c == '\U{0085}')) ||
    (lang == JavaScript && c == '\U{FEFF}')
  }

  predicate IsDigit(c: char) { '0' <= c <= '9' }

  // ---------------------------------------------------------------- substrings

  predicate IsPrefix(p: string, s: string) {
    |p| <= |s| && s[..|p|] == p
  }

  /** `p in s` (Python) and `s.includes(p)` (JavaScript). */
  predicate Contains(s: string, p: string) {
    exists i :: 0 <= i <= |s| - |p| && OccursAt(s, p, i)
  }

  /** `p` occurs in `s` starting at position `i`. */
  predicate OccursAt(s: string, p: string, i: int) {
    0 <= i <= |s| - |p| && s[i..i + |p|] == p
  }

  lemma ContainsAt(s: string, p: string, i: int)
    requires OccursAt(s, p, i)
    ensures Contains(s, p)
  {
  }

  lemma ContainsEmpty(s: string)
    ensures Contains(s, "")
  {
    assert OccursAt(s, "", 0);
  }

  /** Python's `str.replace(pat, rep)`: every non-overlapping occurrence of `pat`,
      scanning from the left, is replaced by `rep`. */
  function ReplaceAll(s: string, pat: string, rep: string): string
    requires pat != ""
    decreases |s|
  {
    if |s| < |pat| then s
    else if s[..|pat|] == pat then rep + ReplaceAll(s[|pat|..], pat, rep)
    else [s[0]] + ReplaceAll(s[1..], pat, rep)
  }

  /** Replacing a pattern that does not occur leaves the string as it is. */
  lemma {:induction false} ReplaceAllAbsent(s: string, pat: string, rep: string)
    requires pat != ""
    requires !Contains(s, pat)
    ensures ReplaceAll(s, pat, rep) == s
    decreases |s|
  {
    if |s| >= |pat| {
      NotAtHead(s, pat);
      NotInTail(s, pat);
      ReplaceAllAbsent(s[1..], pat, rep);
      assert [s[0]] + s[1..] == s;
    }
  }

  lemma NotAtHead(s: string, pat: string)
    requires |s| >= |pat| && !Contains(s, pat)
    ensures s[..|pat|] != pat
  {
    assert s[0..|pat|] == s[..|pat|];
    assert !OccursAt(s, pat, 0);
  }

  lemma NotInTail(s: string, pat: string)
    requires s != [] && !Contains(s, pat)
    ensures !Contains(s[1..], pat)
  {
    if Contains(s[1..], pat) {
      var i :| 0 <= i <= |s[1..]| - |pat| && OccursAt(s[1..], pat, i);
      assert s[1..][i..i + |pat|] == s[i + 1..i + 1 + |pat|];
      assert OccursAt(s, pat, i + 1);
    }
  }

  /** `q` placed `d` characters after the start of `rep` (before it when `d` is
      negative) disagrees with `rep` somewhere on their overlap. */
  predicate MismatchAt(q: string, rep: string, d: int) {
    exists x :: (if d > 0 then d else 0) <= x < (if |rep| < d + |q| then |rep| else d + |q|) &&
                0 <= x - d < |q| && rep[x] != q[x - d]
  }

  /** No occurrence of `q` can overlap an inserted `rep`: at every offset where
      the two overlap they disagree. */
  predicate Apart(q: string, rep: string) {
    forall d :: -|q| < d < |rep| ==> MismatchAt(q, rep, d)
  }

  /** Two strings of at least two characters are apart when they cannot share
      their first two characters across an overlap: each time `q` has `rep`'s
      first character, the next characters differ, and each time `rep` has `q`'s
      first character after its own start, the next characters differ. */
  lemma ApartByPairs(q: string, rep: string)
    requires |q| >= 2 && |rep| >= 2
    requires forall e :: 0 <= e < |q| && q[e] == rep[0] ==> e + 1 < |q| && q[e + 1] != rep[1]
    requires forall d :: 1 <= d < |rep| && rep[d] == q[0] ==> d + 1 < |rep| && rep[d + 1] != q[1]
    ensures Apart(q, rep)
  {
    forall d | -|q| < d < |rep| ensures MismatchAt(q, rep, d) {
      if d <= 0 {
        if rep[0] != q[-d] {
          assert 0 <= 0 - d < |q| && rep[0] != q[0 - d];
        } else {
          assert 1 <= 1 - d < |q| && rep[1] != q[1 - d];
        }
      } else {
        if rep[d] != q[0] {
          assert rep[d] != q[d - d];
        } else {
          assert rep[d + 1] != q[d + 1 - d];
        }
      }
    }
  }

  /** The first occurrence of `pat` in `s`. */
  lemma {:induction false} FirstOccurrence(s: string, pat: string) returns (m: nat)
    requires Contains(s, pat)
    ensures OccursAt(s, pat, m) && forall i :: 0 <= i < m ==> !OccursAt(s, pat, i)
    decreases |s|
  {
    if OccursAt(s, pat, 0) {
      m := 0;
    } else {
      var i :| 0 <= i <= |s| - |pat| && OccursAt(s, pat, i);
      assert s[1..][i - 1..i - 1 + |pat|] == s[i..i + |pat|];
      ContainsAt(s[1..], pat, i - 1);
      var m' := FirstOccurrence(s[1..], pat);
      m := m' + 1;
      assert s[m..m + |pat|] == s[1..][m'..m' + |pat|];
      forall j | 0 < j < m ensures !OccursAt(s, pat, j) {
        assert !OccursAt(s[1..], pat, j - 1);
        if j <= |s| - |pat| {
          assert s[1..][j - 1..j - 1 + |pat|] == s[j..j + |pat|];
        }
      }
    }
  }

  /** Up to the first occurrence of `pat` the text is copied; the occurrence
      becomes `rep`; the rest is replaced in turn. */
  lemma {:induction false} ReplaceAllSplit(s: string, pat: string, rep: string, m: nat)
    requires pat != ""
    requires OccursAt(s, pat, m) && forall i :: 0 <= i < m ==> !OccursAt(s, pat, i)
    ensures ReplaceAll(s, pat, rep) == s[..m] + rep + ReplaceAll(s[m + |pat|..], pat, rep)
    decreases m
  {
    if m == 0 {
      ReplaceAllHit(s, pat, rep);
      assert s[..0] == [];
    } else {
      var t := s[1..];
      assert !OccursAt(s, pat, 0);
      ReplaceAllSkip(s, pat, rep);
      ShiftFirst(s, pat, m);
      ReplaceAllSplit(t, pat, rep, m - 1);
      assert t[m - 1 + |pat|..] == s[m + |pat|..];
      ConsSplit(s, m, rep, ReplaceAll(s, pat, rep), ReplaceAll(t, pat, rep), ReplaceAll(s[m + |pat|..], pat, rep));
    }
  }

  /** Sequence bookkeeping for the inductive step of `ReplaceAllSplit`. */
  lemma ConsSplit(s: string, m: nat, rep: string, whole: string, tail: string, x: string)
    requires 0 < m <= |s|
    requires whole == [s[0]] + tail && tail == s[1..][..m - 1] + rep + x
    ensures whole == s[..m] + rep + x
  {
    assert [s[0]] + s[1..][..m - 1] == s[..m];
  }

  /** Where `pat` starts the text, it is replaced and the rest follows. */
  lemma ReplaceAllHit(s: string, pat: string, rep: string)
    requires pat != "" && OccursAt(s, pat, 0)
    ensures ReplaceAll(s, pat, rep) == rep + ReplaceAll(s[|pat|..], pat, rep)
  {
    assert s[..|pat|] == s[0..|pat|];
  }

  /** Where `pat` does not start the text, its first character is copied. */
  lemma ReplaceAllSkip(s: string, pat: string, rep: string)
    requires pat != "" && |s| >= |pat| && !OccursAt(s, pat, 0)
    ensures ReplaceAll(s, pat, rep) == [s[0]] + ReplaceAll(s[1..], pat, rep)
  {
    assert s[..|pat|] == s[0..|pat|] != pat;
  }

  /** Dropping the first character moves a first occurrence one place left. */
  lemma ShiftFirst(s: string, pat: string, m: nat)
    requires m > 0 && OccursAt(s, pat, m) && forall i :: 0 <= i < m ==> !OccursAt(s, pat, i)
    ensures OccursAt(s[1..], pat, m - 1) && forall i :: 0 <= i < m - 1 ==> !OccursAt(s[1..], pat, i)
  {
    assert s[1..][m - 1..m - 1 + |pat|] == s[m..m + |pat|];
    forall i | 0 <= i < m - 1 ensures !OccursAt(s[1..], pat, i) {
      assert !OccursAt(s, pat, i + 1);
      if i <= |s[1..]| - |pat| {
        assert s[i + 1..i + 1 + |pat|] == s[1..][i..i + |pat|];
      }
    }
  }

  /** Putting `rep` between two texts without `q` creates no `q` when `rep` is
      apart from `q`: an occurrence would lie in one of the texts or overlap
      `rep`. */
  lemma SpliceAvoids(a: string, rep: string, t: string, q: string)
    requires q != "" && !Contains(a, q) && !Contains(t, q) && Apart(q, rep)
    ensures !Contains(a + rep + t, q)
  {
    var r := a + rep + t;
    forall i | 0 <= i <= |r| - |q| ensures !OccursAt(r, q, i) {
      if i + |q| <= |a| {
        assert !OccursAt(a, q, i);
        assert r[i..i + |q|] == a[i..i + |q|];
      } else if i >= |a| + |rep| {
        RightAvoids(a + rep, t, q, i);
      } else {
        OverlapAvoids(a, rep, t, q, i);
      }
    }
  }

  /** An occurrence lying wholly in the right part would be one in `t`. */
  lemma RightAvoids(b: string, t: string, q: string, i: int)
    requires !Contains(t, q) && |b| <= i <= |b| + |t| - |q|
    ensures !OccursAt(b + t, q, i)
  {
    var j := i - |b|;
    assert !OccursAt(t, q, j);
    assert (b + t)[i..i + |q|] == t[j..j + |q|];
  }

  /** An occurrence overlapping `rep` would agree with it on the overlap. */
  lemma OverlapAvoids(a: string, rep: string, t: string, q: string, i: int)
    requires Apart(q, rep) && |a| - |q| < i < |a| + |rep| && 0 <= i <= |a| + |rep| + |t| - |q|
    ensures !OccursAt(a + rep + t, q, i)
  {
    var r := a + rep + t;
    var m := |a|;
    var d := i - m;
    assert MismatchAt(q, rep, d);
    var x :| (if d > 0 then d else 0) <= x < (if |rep| < d + |q| then |rep| else d + |q|) &&
             0 <= x - d < |q| && rep[x] != q[x - d];
    assert r[m + x] == rep[x];
    assert r[i..i + |q|][x - d] == r[m + x];
  }

  /** The text before the first `pat` holds no `q` when `q` is `pat` or absent. */
  lemma BeforeFirstAvoids(s: string, pat: string, q: string, m: nat)
    requires q != "" && m <= |s|
    requires forall i :: 0 <= i < m ==> !OccursAt(s, pat, i)
    requires q == pat || !Contains(s, q)
    ensures !Contains(s[..m], q)
  {
    var a := s[..m];
    forall i | 0 <= i <= |a| - |q| ensures !OccursAt(a, q, i) {
      assert a[i..i + |q|] == s[i..i + |q|];
      assert !OccursAt(s, q, i);
    }
  }

  /** A suffix of a text without `q` has no `q`. */
  lemma SliceAvoids(s: string, q: string, k: nat)
    requires k <= |s| && !Contains(s, q)
    ensures !Contains(s[k..], q)
  {
    var rest := s[k..];
    forall i | 0 <= i <= |rest| - |q| ensures !OccursAt(rest, q, i) {
      assert rest[i..i + |q|] == s[k + i..k + i + |q|];
      assert !OccursAt(s, q, k + i);
    }
  }

  /** Replacing `pat` by a `rep` that is apart from `q` leaves no `q`, provided
      there was none before or `q` is `pat` itself: the text before the first
      `pat` holds no `pat`, and the rest is handled in turn. */
  lemma {:induction false} ReplaceAllAvoids(s: string, pat: string, rep: string, q: string)
    requires pat != "" && rep != "" && q != ""
    requires q == pat || !Contains(s, q)
    requires Apart(q, rep)
    ensures !Contains(ReplaceAll(s, pat, rep), q)
    decreases |s|
  {
    if !Contains(s, pat) {
      ReplaceAllAbsent(s, pat, rep);
    } else {
      var m := FirstOccurrence(s, pat);
      ReplaceAllSplit(s, pat, rep, m);
      var a, rest := s[..m], s[m + |pat|..];
      BeforeFirstAvoids(s, pat, q, m);
      if q != pat {
        SliceAvoids(s, q, m + |pat|);
      }
      ReplaceAllAvoids(rest, pat, rep, q);
      SpliceAvoids(a, rep, ReplaceAll(rest, pat, rep), q);
    }
  }

  /** JavaScript's `s.replace(pat, rep)` with a string pattern: only the FIRST
      occurrence is replaced. */
  function ReplaceFirst(s: string, pat: string, rep: string): string
    requires pat != ""
    decreases |s|
  {
    if |s| < |pat| then s
    else if s[..|pat|] == pat then rep + s[|pat|..]
    else [s[0]] + ReplaceFirst(s[1..], pat, rep)
  }

  lemma {:induction false} ReplaceFirstAbsent(s: string, pat: string, rep: string)
    requires pat != ""
    requires !Contains(s, pat)
    ensures ReplaceFirst(s, pat, rep) == s
    decreases |s|
  {
    if |s| >= |pat| {
      NotAtHead(s, pat);
      NotInTail(s, pat);
      ReplaceFirstAbsent(s[1..], pat, rep);
      assert [s[0]] + s[1..] == s;
    }
  }

  /** When `pat` occurs, the replacement text `rep` occurs in the result. */
  lemma {:induction false} ReplaceFirstPresent(s: string, pat: string, rep: string)
    requires pat != ""
    requires Contains(s, pat)
    ensures Contains(ReplaceFirst(s, pat, rep), rep)
    decreases |s|
  {
    var i :| 0 <= i <= |s| - |pat| && OccursAt(s, pat, i);
    if s[..|pat|] == pat {
      assert (rep + s[|pat|..])[0..|rep|] == rep;
      ContainsAt(rep + s[|pat|..], rep, 0);
    } else {
      assert s[0..|pat|] == s[..|pat|];
      assert i != 0;
      assert s[1..][i - 1..i - 1 + |pat|] == s[i..i + |pat|];
      ContainsAt(s[1..], pat, i - 1);
      ReplaceFirstPresent(s[1..], pat, rep);
      ConsContains(s[0], ReplaceFirst(s[1..], pat, rep), rep);
    }
  }

  /** A character in front keeps every occurrence. */
  lemma ConsContains(c: char, r: string, p: string)
    requires Contains(r, p)
    ensures Contains([c] + r, p)
  {
    var j :| 0 <= j <= |r| - |p| && OccursAt(r, p, j);
    assert ([c] + r)[j + 1..j + 1 + |p|] == r[j..j + |p|];
    ContainsAt([c] + r, p, j + 1);
  }

  // ---------------------------------------------------------------- whitespace

  function TrimStart(lang: Lang, s: string): (r: string)
    ensures r == "" || !IsSpace(lang, r[0])
    ensures |r| <= |s| && r == s[|s| - |r|..]
    decreases |s|
  {
    if s != [] && IsSpace(lang, s[0]) then
      var r := TrimStart(lang, s[1..]);
      assert s[1..][|s| - 1 - |r|..] == s[|s| - |r|..];
      r
    else s
  }

  function TrimEnd(lang: Lang, s: string): (r: string)
    ensures r == "" || !IsSpace(lang, r[|r| - 1])
    ensures IsPrefix(r, s)
    decreases |s|
  {
    if s != [] && IsSpace(lang, s[|s| - 1]) then TrimEnd(lang, s[..|s| - 1]) else s
  }

  /** `str.strip()` / `String.prototype.trim()`: leading and trailing whitespace removed. */
  function Trim(lang: Lang, s: string): (r: string)
    ensures r == "" || (!IsSpace(lang, r[0]) && !IsSpace(lang, r[|r| - 1]))
    ensures exists i, j :: 0 <= i <= j <= |s| && r == s[i..j]
  {
    var t := TrimStart(lang, s);
    var r := TrimEnd(lang, t);
    var i := |s| - |t|;
    assert r == t[..|r|] == s[i..i + |r|];
    assert r != "" ==> r[0] == t[0];
    r
  }

  predicate AllSpace(lang: Lang, s: string) {
    forall i :: 0 <= i < |s| ==> IsSpace(lang, s[i])
  }

  /** A string trims to the empty string exactly when it is blank. */
  lemma {:induction false} TrimEmptyIffBlank(lang: Lang, s: string)
    ensures Trim(lang, s) == "" <==> AllSpace(lang, s)
  {
    TrimStartBlank(lang, s);
    var t := TrimStart(lang, s);
    if t != "" {
      TrimEndNonEmpty(lang, t);
    }
  }

  lemma {:induction false} TrimStartBlank(lang: Lang, s: string)
    ensures TrimStart(lang, s) == "" <==> AllSpace(lang, s)
    decreases |s|
  {
    if s != [] && IsSpace(lang, s[0]) {
      assert TrimStart(lang, s) == TrimStart(lang, s[1..]);
      TrimStartBlank(lang, s[1..]);
      assert AllSpace(lang, s) <==> AllSpace(lang, s[1..]) by {
        if AllSpace(lang, s[1..]) {
          forall i | 0 <= i < |s| ensures IsSpace(lang, s[i]) {
            if i > 0 { assert s[i] == s[1..][i - 1]; }
          }
        }
      }
    } else {
      assert TrimStart(lang, s) == s;
      if s != [] {
        assert !IsSpace(lang, s[0]);
      }
    }
  }

  lemma TrimEndNonEmpty(lang: Lang, t: string)
    requires t != "" && !IsSpace(lang, t[0])
    ensures TrimEnd(lang, t) != ""
    decreases |t|
  {
    if IsSpace(lang, t[|t| - 1]) {
      TrimEndNonEmpty(lang, t[..|t| - 1]);
    }
  }

  /** `sep.join(parts)`. */
  function Join(parts: seq<string>, sep: string): (r: string)
    ensures parts == [] ==> r == ""
    ensures |parts| == 1 ==> r == parts[0]
  {
    if parts == [] then ""
    else if |parts| == 1 then parts[0]
    else parts[0] + sep + Join(parts[1..], sep)
  }

  lemma JoinCons(x: string, rest: seq<string>, sep: string)
    requires rest != []
    ensures Join([x] + rest, sep) == x + sep + Join(rest, sep)
  {
    assert ([x] + rest)[1..] == rest;
  }

  /** Number of whitespace-separated words, as Python's `len(s.split())` counts them. */
  function WordCount(s: string): nat
    decreases |s|
  {
    if s == [] then 0
    else if IsSpace(Python, s[0]) then WordCount(s[1..])
    else if |s| == 1 || IsSpace(Python, s[1]) then 1 + WordCount(s[1..])
    else WordCount(s[1..])
  }

  // ---------------------------------------------------------------- numerals

  function DigitChar(d: nat): (c: char)
    requires d < 10
    ensures IsDigit(c)
  {
    ('0' as int + d) as char
  }

  /** Decimal notation of a natural number (`${n}` in a template literal). */
  function NatToString(n: nat): (r: string)
    ensures r != ""
    ensures forall i :: 0 <= i < |r| ==> IsDigit(r[i])
  {
    if n < 10 then [DigitChar(n)] else NatToString(n / 10) + [DigitChar(n % 10)]
  }

  /** `str(n)` of a whole number: its decimal notation, with a minus sign when negative. */
  function IntToString(n: int): (r: string)
    ensures n >= 0 ==> r == NatToString(n)
    ensures n < 0 ==> r == "-" + NatToString(-n)
  {
    if n >= 0 then NatToString(n) else "-" + NatToString(-n)
  }

  /** Distinct numbers have distinct decimal notations. */
  lemma {:induction false} NatToStringInjective(m: nat, n: nat)
    requires NatToString(m) == NatToString(n)
    ensures m == n
    decreases m + n
  {
    var a, b := NatToString(m), NatToString(n);
    assert a[|a| - 1] == b[|b| - 1];
    assert m % 10 == n % 10;
    if m >= 10 && n >= 10 {
      assert NatToString(m / 10) == a[..|a| - 1];
      assert NatToString(n / 10) == b[..|b| - 1];
      NatToStringInjective(m / 10, n / 10);
    }
  }

  // ---------------------------------------------------------------- averages

  function Sum(vs: seq<int>): int {
    if vs == [] then 0 else vs[0] + Sum(vs[1..])
  }

  /** `(sum / n).toFixed(1)` on tenths: the quotient rounded half up to a whole tenth. */
  function RoundedMean(sum: int, n: nat): int
    requires n > 0
  {
    (2 * sum + n) / (2 * n)
  }

  /** The rounded mean is the nearest whole tenth to `sum / n`, a tie going up:
      `r - 1/2 <= sum / n < r + 1/2`. */
  lemma RoundedMeanNearest(sum: int, n: nat)
    requires n > 0
    ensures var r := RoundedMean(sum, n);
      2 * n * r - n <= 2 * sum < 2 * n * r + n
  {
    var r := RoundedMean(sum, n);
    var d := 2 * n;
    assert d * r <= 2 * sum + n < d * r + d;
  }

  /** Only one whole number lies that near the mean, so that number is the
      rounded mean. */
  lemma RoundedMeanUnique(sum: int, n: nat, r: int)
    requires n > 0
    requires 2 * n * r - n <= 2 * sum < 2 * n * r + n
    ensures r == RoundedMean(sum, n)
  {
    var q := RoundedMean(sum, n);
    RoundedMeanNearest(sum, n);
    if r < q {
      MulMonotoneInt(r + 1, q, 2 * n);
      assert false;
    } else if r > q {
      MulMonotoneInt(q + 1, r, 2 * n);
      assert false;
    }
  }

  /** The greatest of the values. */
  function Max(vs: seq<int>): (m: int)
    requires vs != []
    ensures m in vs && forall v :: v in vs ==> v <= m
  {
    if |vs| == 1 then vs[0]
    else
      var rest := Max(vs[1..]);
      assert forall v :: v in vs ==> v == vs[0] || v in vs[1..];
      if vs[0] >= rest then vs[0] else rest
  }

  /** The least of the values. */
  function Min(vs: seq<int>): (m: int)
    requires vs != []
    ensures m in vs && forall v :: v in vs ==> m <= v
  {
    if |vs| == 1 then vs[0]
    else
      var rest := Min(vs[1..]);
      assert forall v :: v in vs ==> v == vs[0] || v in vs[1..];
      if vs[0] <= rest then vs[0] else rest
  }

  /** The sum lies between n times the minimum and n times the maximum. */
  lemma {:induction false} SumBounds(vs: seq<int>, lo: int, hi: int)
    requires forall v :: v in vs ==> lo <= v <= hi
    ensures |vs| * lo <= Sum(vs) <= |vs| * hi
  {
    if vs != [] {
      var t := vs[1..];
      assert vs[0] in vs;
      assert forall v :: v in t ==> v in vs;
      SumBounds(t, lo, hi);
      SumStep(|t|, vs[0], Sum(t), lo, hi);
    }
  }

  lemma SumStep(n: nat, x: int, sum: int, lo: int, hi: int)
    requires n * lo <= sum <= n * hi && lo <= x <= hi
    ensures (n + 1) * lo <= x + sum <= (n + 1) * hi
  {
    assert (n + 1) * lo == n * lo + lo;
    assert (n + 1) * hi == n * hi + hi;
  }

  /** A rounded mean of values between `lo` and `hi` is between them too. */
  lemma RoundedMeanBetween(sum: int, n: nat, lo: int, hi: int)
    requires n > 0 && n * lo <= sum <= n * hi
    ensures lo <= RoundedMean(sum, n) <= hi
  {
    var q := RoundedMean(sum, n);
    var d := 2 * n;
    assert d * q <= 2 * sum + n < d * q + d;
    assert d * lo <= 2 * sum + n;
    assert 2 * sum + n < d * (hi + 1) by {
      assert 2 * sum <= d * hi;
      assert d * (hi + 1) == d * hi + d;
    }
    if q < lo {
      MulMonotoneInt(q + 1, lo, d);
      assert false;
    }
    if q > hi {
      MulMonotoneInt(hi + 1, q, d);
      assert false;
    }
  }

  lemma MulMonotoneInt(a: int, b: int, c: nat)
    requires a <= b
    ensures a * c <= b * c
  {
    assert b * c - a * c == (b - a) * c;
  }
}
