/** The catalog the recommender builds at start-up: the primary records taken as
    they are, the supplementary (new-release) records mapped into the same schema,
    the two concatenated, and the columns the engine compares coerced to numbers.

    Ratings are held in tenths of a point (7.5 is 75); a textual rating keeps its
    first decimal only, which leaves every comparison with a one-decimal threshold
    unchanged. */
module Catalog {
  import opened Common

  /** A value read from a JSON record: a missing key, `null`, a number (in tenths
      for ratings, whole otherwise) or a string. */
  datatype Field = Absent | Null | Num(n: int) | Text(s: string)

  /** An input file: not present, present but failing to load, or its records. */
  datatype Source<T> = Missing | Unreadable | Loaded(records: seq<T>)

  /** A record of the primary table, in the table's own schema. */
  datatype RawRow = RawRow(
    title: Field, year: Field, kind: Field, imdb: Field,
    genres: Field, directors: Field,
    netflix: Field, hulu: Field, primeVideo: Field, disneyPlus: Field)

  /** A record of the supplementary file. */
  datatype NewRecord = NewRecord(title: Field, year: Field, kind: Field, imdbRating: Field, platform: Field)

  /** A catalog row once the engine has prepared it. */
  datatype CatalogRow = CatalogRow(
    title: Field, year: int, kind: Field, imdb: int,
    genres: string, directors: Field,
    netflix: int, hulu: int, primeVideo: int, disneyPlus: int)

  /** The platform columns, in the order the engine lists them. */
  const Platforms: seq<string> := ["Netflix", "Hulu", "Prime Video", "Disney+"]

  // ---------------------------------------------------------------- schema mapping

  /** `item.get(key)`: a missing key reads as `None`. */
  function Get(f: Field): (g: Field)
    ensures g != Absent
    ensures f != Absent ==> g == f
  {
    if f.Absent? then Null else f
  }

  /** `1 if item.get("platform") == name else 0`. */
  function PlatformFlag(platform: Field, name: string): (flag: int)
    ensures flag == 1 <==> platform == Text(name)
    ensures flag == 0 <==> platform != Text(name)
  {
    if platform == Text(name) then 1 else 0
  }

  /** One supplementary record in the primary schema, or None when
      `item.get("type", "Movie").lower()` raises because the type is not a string. */
  function NormalizeNew(item: NewRecord): (r: Option<RawRow>)
    ensures r.None? <==> item.kind.Null? || item.kind.Num?
    ensures r.Some? ==>
      r.value.title == Get(item.title) && r.value.year == Get(item.year) &&
      r.value.kind == (if item.kind.Absent? then Text("movie") else Text(Lower(item.kind.s))) &&
      r.value.imdb == (if item.imdbRating.Absent? then Num(0) else item.imdbRating) &&
      r.value.genres == Text("Drama") && r.value.directors == Text("Unknown")
    ensures r.Some? ==>
      r.value.netflix == Num(PlatformFlag(item.platform, "Netflix")) &&
      r.value.hulu == Num(PlatformFlag(item.platform, "Hulu")) &&
      r.value.primeVideo == Num(PlatformFlag(item.platform, "Prime Video")) &&
      r.value.disneyPlus == Num(PlatformFlag(item.platform, "Disney+"))
  {
    var kind :=
      match item.kind
      case Absent => Some("movie")
      case Text(s) => Some(Lower(s))
      case _ => None;
    if kind.None? then None
    else
      Some(RawRow(
        Get(item.title), Get(item.year), Text(kind.value),
        if item.imdbRating.Absent? then Num(0) else item.imdbRating,
        Text("Drama"), Text("Unknown"),
        Num(PlatformFlag(item.platform, "Netflix")), Num(PlatformFlag(item.platform, "Hulu")),
        Num(PlatformFlag(item.platform, "Prime Video")), Num(PlatformFlag(item.platform, "Disney+"))))
  }

  /** The whole supplementary file mapped record by record; None as soon as one
      record cannot be mapped. */
  function NormalizeAll(items: seq<NewRecord>): (r: Option<seq<RawRow>>)
    ensures r.Some? <==> forall k :: 0 <= k < |items| ==> NormalizeNew(items[k]).Some?
    ensures r.Some? ==> |r.value| == |items|
    ensures r.Some? ==> forall k :: 0 <= k < |items| ==> r.value[k] == NormalizeNew(items[k]).value
  {
    if items == [] then Some([])
    else
      var init := NormalizeAll(items[..|items| - 1]);
      var last := NormalizeNew(items[|items| - 1]);
      if init.None? || last.None? then
        None
      else Some(init.value + [last.value])
  }

  // ---------------------------------------------------------------- numeric coercion

  predicate AllDigits(s: string) {
    forall i :: 0 <= i < |s| ==> IsDigit(s[i])
  }

  function DigitsValue(s: string): (n: nat)
    requires AllDigits(s)
  {
    if s == [] then 0 else 10 * DigitsValue(s[..|s| - 1]) + (s[|s| - 1] as int - '0' as int)
  }

  /** A string of the form digits, or digits '.' digits, in tenths (the first
      decimal kept); None for anything else. */
  function ParseTenths(s: string): (r: Option<int>)
    ensures r.Some? ==> r.value >= 0
  {
    if s != [] && AllDigits(s) then Some(10 * DigitsValue(s))
    else
      var dot := DotIndex(s);
      if 0 < dot < |s| - 1 && AllDigits(s[..dot]) && AllDigits(s[dot + 1..]) then
        Some(10 * DigitsValue(s[..dot]) + (s[dot + 1] as int - '0' as int))
      else None
  }

  /** Position of the first '.', or |s| when there is none. */
  function DotIndex(s: string): (k: nat)
    ensures k <= |s|
    ensures k < |s| ==> s[k] == '.'
    ensures forall i :: 0 <= i < k ==> s[i] != '.'
  {
    if s == [] then 0 else if s[0] == '.' then 0 else 1 + DotIndex(s[1..])
  }

  /** A string of digits as a whole number; None for anything else. */
  function ParseWhole(s: string): (r: Option<int>)
    ensures r.Some? <==> s != [] && AllDigits(s)
  {
    if s != [] && AllDigits(s) then Some(DigitsValue(s)) else None
  }

  /** `pd.to_numeric(column, errors='coerce').fillna(0)` on a rating. */
  function RatingValue(f: Field): (v: int)
    ensures f.Num? ==> v == f.n
    ensures (f.Absent? || f.Null?) ==> v == 0
    ensures f.Text? && ParseTenths(f.s).None? ==> v == 0
  {
    match f
    case Num(n) => n
    case Text(s) => ParseTenths(s).GetOr(0)
    case _ => 0
  }

  /** `pd.to_numeric(column, errors='coerce').fillna(0)` on a year or a platform flag. */
  function WholeValue(f: Field): (v: int)
    ensures f.Num? ==> v == f.n
    ensures (f.Absent? || f.Null?) ==> v == 0
    ensures f.Text? && ParseWhole(f.s).None? ==> v == 0
  {
    match f
    case Num(n) => n
    case Text(s) => ParseWhole(s).GetOr(0)
    case _ => 0
  }

  /** The genre text of a cell after `df['Genres'].fillna('')`, as `str` (in
      `format_list`) and `get_dummies` (which applies `astype(str)`) read it: a
      missing or null cell is "", a number keeps its decimal notation. */
  function GenresText(f: Field): (g: string)
    ensures f.Text? ==> g == f.s
    ensures f.Absent? || f.Null? ==> g == ""
    ensures f.Num? ==> g == IntToString(f.n) && g != ""
  {
    match f
    case Text(s) => s
    case Num(n) => IntToString(n)
    case _ => ""
  }

  /** A row with the genre, rating, platform and year columns coerced. */
  function Coerce(r: RawRow): (c: CatalogRow)
    ensures c.title == r.title && c.kind == r.kind && c.directors == r.directors
    ensures c.genres == GenresText(r.genres) && c.imdb == RatingValue(r.imdb) && c.year == WholeValue(r.year)
    ensures c.netflix == WholeValue(r.netflix) && c.hulu == WholeValue(r.hulu)
    ensures c.primeVideo == WholeValue(r.primeVideo) && c.disneyPlus == WholeValue(r.disneyPlus)
  {
    CatalogRow(r.title, WholeValue(r.year), r.kind, RatingValue(r.imdb),
               GenresText(r.genres), r.directors,
               WholeValue(r.netflix), WholeValue(r.hulu), WholeValue(r.primeVideo), WholeValue(r.disneyPlus))
  }

  /** A column that no record has: reading it raises `KeyError`. The platform
      columns are exempt, the engine adds them as zeros. */
  predicate ColumnAbsent(rows: seq<RawRow>, column: RawRow -> Field) {
    forall k :: 0 <= k < |rows| ==> column(rows[k]).Absent?
  }

  /** Reading `Genres`, `IMDb` or `Year` fails because no record has it. */
  predicate MissingColumn(rows: seq<RawRow>) {
    ColumnAbsent(rows, (r: RawRow) => r.genres) ||
    ColumnAbsent(rows, (r: RawRow) => r.imdb) ||
    ColumnAbsent(rows, (r: RawRow) => r.year)
  }

  /** A genre text with no genre in it: `get_dummies(sep=',')` splits it into
      empty pieces only, and drops those. */
  predicate NoGenreTag(g: string) {
    forall i :: 0 <= i < |g| ==> g[i] == ','
  }

  /** `normalize(genre_matrix)` raises because the multi-hot matrix has no column,
      no row naming any genre; or `.str` raises because every Genres cell is a
      number, which makes the column numeric. */
  predicate VectorisationFails(rows: seq<RawRow>) {
    (forall k :: 0 <= k < |rows| ==> NoGenreTag(GenresText(rows[k].genres))) ||
    (forall k :: 0 <= k < |rows| ==> rows[k].genres.Num?)
  }

  /** The two tables load, are not empty together, have every column the engine
      reads and vectorise: the only case in which `load_data` keeps its catalog. */
  predicate LoadSucceeds(primary: Source<RawRow>, supplementary: Source<NewRecord>) {
    primary.Loaded? && SupplementaryRows(supplementary).Some? &&
    var combined := primary.records + SupplementaryRows(supplementary).value;
    combined != [] && !MissingColumn(combined) && !VectorisationFails(combined)
  }

  /** The supplementary rows in the primary schema, or None when loading them fails
      (an unreadable file or a record that cannot be mapped). A missing file
      contributes nothing. */
  function SupplementaryRows(supplementary: Source<NewRecord>): (r: Option<seq<RawRow>>)
    ensures supplementary.Missing? ==> r == Some([])
    ensures supplementary.Unreadable? ==> r.None?
    ensures supplementary.Loaded? ==> r == NormalizeAll(supplementary.records)
  {
    match supplementary
    case Missing => Some([])
    case Unreadable => None
    case Loaded(items) => NormalizeAll(items)
  }

  /** The catalog `load_data` leaves in `self.df`: empty whenever the primary file
      is missing or unreadable, loading fails part-way (a record, a column or the
      vectorisation), or the two tables together are empty; otherwise the primary
      rows followed by the supplementary rows, each coerced. */
  function LoadCatalog(primary: Source<RawRow>, supplementary: Source<NewRecord>): (df: seq<CatalogRow>)
    ensures !primary.Loaded? ==> df == []
    ensures primary.Loaded? && SupplementaryRows(supplementary).None? ==> df == []
    ensures df != [] <==> LoadSucceeds(primary, supplementary)
    ensures df != [] ==>
      var combined := primary.records + SupplementaryRows(supplementary).value;
      |df| == |combined| && forall k :: 0 <= k < |df| ==> df[k] == Coerce(combined[k])
  {
    match primary
    case Missing => []
    case Unreadable => []
    case Loaded(main) =>
      var extra := SupplementaryRows(supplementary);
      if extra.None? then []
      else
        var combined := main + extra.value;
        if combined == [] || MissingColumn(combined) || VectorisationFails(combined) then []
        else CoerceAll(combined)
  }

  function CoerceAll(rows: seq<RawRow>): (df: seq<CatalogRow>)
    ensures |df| == |rows| && forall k :: 0 <= k < |rows| ==> df[k] == Coerce(rows[k])
  {
    seq(|rows|, k requires 0 <= k < |rows| => Coerce(rows[k]))
  }

  /** When loading succeeds, the catalog is the primary rows, in their order,
      followed by the supplementary rows, in theirs: its length is the sum of the
      two and position `|main| + k` holds the k-th supplementary record. */
  lemma ConcatenationOrder(main: seq<RawRow>, items: seq<NewRecord>)
    requires NormalizeAll(items).Some?
    requires !MissingColumn(main + NormalizeAll(items).value)
    requires !VectorisationFails(main + NormalizeAll(items).value)
    requires main + NormalizeAll(items).value != []
    ensures var df := LoadCatalog(Loaded(main), Loaded(items));
      |df| == |main| + |items| &&
      (forall k :: 0 <= k < |main| ==> df[k] == Coerce(main[k])) &&
      (forall k :: 0 <= k < |items| ==> df[|main| + k] == Coerce(NormalizeNew(items[k]).value))
  {
    var combined := main + NormalizeAll(items).value;
    var df := LoadCatalog(Loaded(main), Loaded(items));
    assert df == seq(|combined|, k requires 0 <= k < |combined| => Coerce(combined[k]));
    forall k | 0 <= k < |items| ensures df[|main| + k] == Coerce(NormalizeNew(items[k]).value) {
      assert combined[|main| + k] == NormalizeAll(items).value[k];
    }
  }

  /** A supplementary record becomes a row with genre "Drama", director "Unknown",
      its platform's flag set and every other flag clear: at most one flag is 1,
      and exactly one when the record names one of the four platforms. */
  lemma NewRowDefaults(item: NewRecord)
    requires NormalizeNew(item).Some?
    ensures var c := Coerce(NormalizeNew(item).value);
      c.genres == "Drama" && c.directors == Text("Unknown") &&
      c.netflix + c.hulu + c.primeVideo + c.disneyPlus <= 1 &&
      (c.netflix + c.hulu + c.primeVideo + c.disneyPlus == 1 <==>
         exists p :: p in Platforms && item.platform == Text(p)) &&
      c.imdb == (if item.imdbRating.Absent? then 0 else RatingValue(item.imdbRating))
  {
    var c := Coerce(NormalizeNew(item).value);
    if c.netflix + c.hulu + c.primeVideo + c.disneyPlus == 1 {
      var p := if c.netflix == 1 then "Netflix" else if c.hulu == 1 then "Hulu"
               else if c.primeVideo == 1 then "Prime Video" else "Disney+";
      assert p in Platforms && item.platform == Text(p);
    }
  }

  /** A rating or year that is missing, null or not numeric text becomes 0, and so
      does a platform flag whose column is missing. */
  lemma NonNumericBecomesZero(r: RawRow)
    requires r.imdb.Absent? || r.imdb.Null? || (r.imdb.Text? && ParseTenths(r.imdb.s).None?)
    requires r.year.Absent? || r.year.Null? || (r.year.Text? && ParseWhole(r.year.s).None?)
    requires r.netflix.Absent?
    ensures Coerce(r).imdb == 0 && Coerce(r).year == 0 && Coerce(r).netflix == 0
  {
  }

  /** The decimal notation of a number consists of digits that read back as it. */
  lemma {:induction false} DigitsOfNat(n: nat)
    ensures AllDigits(NatToString(n)) && DigitsValue(NatToString(n)) == n
    decreases n
  {
    var s := NatToString(n);
    if n >= 10 {
      DigitsOfNat(n / 10);
      assert s[..|s| - 1] == NatToString(n / 10);
    }
  }

  /** A whole number written in decimal is read back exactly. */
  lemma ParseWholeRoundTrip(n: nat)
    ensures ParseWhole(NatToString(n)) == Some(n)
  {
    DigitsOfNat(n);
  }

  /** A rating written as a whole number is that many points; one written with
      decimals is its whole part and first decimal, in tenths, whatever further
      decimals follow. */
  lemma ParseTenthsRoundTrip(w: nat, d: nat, rest: string)
    requires d < 10 && AllDigits(rest)
    ensures ParseTenths(NatToString(w)) == Some(10 * w)
    ensures ParseTenths(NatToString(w) + "." + [DigitChar(d)] + rest) == Some(10 * w + d)
  {
    var a := NatToString(w);
    DigitsOfNat(w);
    var tail := [DigitChar(d)] + rest;
    assert AllDigits(tail) by {
      forall i | 0 <= i < |tail| ensures IsDigit(tail[i]) {
        if i > 0 { assert tail[i] == rest[i - 1]; }
      }
    }
    var s := a + "." + tail;
    assert s == a + ("." + tail);
    assert s == NatToString(w) + "." + [DigitChar(d)] + rest;
    DotAfterDigits(a, "." + tail);
    DotThenDigits(a, tail, s);
    assert tail[0] as int - '0' as int == d;
  }

  lemma DotThenDigits(a: string, tail: string, s: string)
    requires a != [] && AllDigits(a) && tail != [] && AllDigits(tail)
    requires s == a + "." + tail && DotIndex(s) == |a|
    ensures ParseTenths(s) == Some(10 * DigitsValue(a) + (tail[0] as int - '0' as int))
  {
    assert s[|a|] == '.' && !IsDigit(s[|a|]);
    assert s[..|a|] == a;
    assert s[|a| + 1..] == tail;
  }

  /** Digits contain no '.', so the first '.' comes after them. */
  lemma {:induction false} DotAfterDigits(a: string, b: string)
    requires AllDigits(a)
    ensures DotIndex(a + b) == |a| + DotIndex(b)
    decreases |a|
  {
    if a != [] {
      assert (a + b)[0] == a[0] && IsDigit(a[0]);
      assert (a + b)[1..] == a[1..] + b;
      assert AllDigits(a[1..]) by {
        forall i | 0 <= i < |a[1..]| ensures IsDigit(a[1..][i]) { assert a[1..][i] == a[i + 1]; }
      }
      DotAfterDigits(a[1..], b);
      assert DotIndex(a + b) == 1 + DotIndex((a + b)[1..]);
    } else {
      assert a + b == b;
    }
  }

  /** Textual ratings parse as expected: "8.5" is 85 tenths and "7" is 70. */
  lemma RatingExamples()
    ensures RatingValue(Text("8.5")) == 85
    ensures RatingValue(Text("7")) == 70
  {
    assert DigitsValue("8") == 8;
    assert DotIndex("8.5") == 1;
    assert "8.5"[..1] == "8" && "8.5"[2..] == "5";
    assert DigitsValue("7") == 7;
  }

  /** A rating that is not a number reads as 0. */
  lemma UnratedExample()
    ensures RatingValue(Text("N/A")) == 0
  {
    assert !IsDigit("N/A"[0]);
    assert DotIndex("N/A") == 3;
  }

  /** A textual year is read in full. */
  lemma YearExample()
    ensures WholeValue(Text("2024")) == 2024
  {
    assert DigitsValue("2") == 2 && DigitsValue("20") == 20 && DigitsValue("202") == 202;
    assert "2024"[..3] == "202" && "202"[..2] == "20" && "20"[..1] == "2";
  }
}
