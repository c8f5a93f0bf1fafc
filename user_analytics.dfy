/** The dataset dashboard: the year options, the four filters, the title search
    over the filtered rows, the table pages, the KPI cards and two of the charts.
    Ratings are held in tenths of a point, as in the catalog. */
module UserAnalytics {
  import opened Common
  import opened Seqs
  import opened Catalog
  import Paging
  import Js

  const ItemsPerPage: nat := 10

  /** A record of the dataset file, with the columns the dashboard reads. */
  datatype Item = Item(
    title: Field, year: Field, imdb: Field, kind: Field,
    netflix: Field, hulu: Field, primeVideo: Field, disneyPlus: Field)

  /** The filter panel: the year option, the platform option, the rating range
      (in tenths) and the type option. */
  datatype Filters = Filters(year: string, platform: string, minImdb: int, maxImdb: int, kind: string)

  const DefaultFilters: Filters := Filters("All Years", "All Platforms", 0, 100, "All")

  // ---------------------------------------------------------------- cell reading

  /** `parseFloat(item.IMDb) || 0`, in tenths. */
  function Rating(item: Item): (r: int)
    ensures item.imdb.Num? ==> r == item.imdb.n
    ensures item.imdb.Text? ==> r == Js.FloatPrefix(item.imdb.s).GetOr(0)
    ensures item.imdb.Absent? || item.imdb.Null? ==> r == 0
  {
    Js.TenthsOrZero(Js.ParseFloat(Js.OfField(item.imdb)))
  }

  /** `parseInt(value)`, None standing for NaN. */
  function ParsedYear(f: Field): (y: Option<int>)
    ensures f.Num? ==> y == Some(f.n)
    ensures f.Text? ==> y == Js.IntPrefix(f.s)
    ensures f.Absent? || f.Null? ==> y.None?
  {
    var v := Js.ParseInt(Js.OfField(f));
    if v.Number? then Some(v.n) else None
  }

  /** A year cell read as JavaScript reads it: white space, then digits, then
      anything not starting with a digit (".0", " min", nothing) is the year those
      digits write, so "2020.0" and " 2020" are 2020. */
  lemma ParsedYearReadsPrefix(pre: string, digits: string, rest: string)
    requires AllSpace(JavaScript, pre)
    requires digits != [] && AllDigits(digits)
    requires rest == [] || !IsDigit(rest[0])
    ensures ParsedYear(Text(pre + digits + rest)) == Some(DigitsValue(digits))
  {
    var text := pre + digits + rest;
    assert Js.SignText(false) == "";
    assert pre + Js.SignText(false) + (digits + rest) == text;
    Js.IntPrefixReads(pre, false, digits, rest);
    assert Js.IntPrefix(text) == Some(DigitsValue(digits));
  }

  /** `(value || '')` of a text cell. */
  function TextOr(f: Field): (s: string)
    ensures f.Text? ==> s == f.s
    ensures !f.Text? ==> s == ""
  {
    Js.TextOf(Js.OfField(f))
  }

  /** `(item.Type || '').toLowerCase()`. */
  function ItemType(item: Item): string {
    Lower(TextOr(item.kind))
  }

  /** `item[name]` for the platform option `name`; any other name reads as undefined. */
  function PlatformField(item: Item, name: string): (f: Field)
    ensures name !in Platforms ==> f == Absent
  {
    if name == "Netflix" then item.netflix
    else if name == "Hulu" then item.hulu
    else if name == "Prime Video" then item.primeVideo
    else if name == "Disney+" then item.disneyPlus
    else Absent
  }

  // ---------------------------------------------------------------- filters

  const SeriesTypes: seq<string> := ["series", "tv show", "tv-show"]

  predicate YearOk(item: Item, f: Filters) {
    f.year == "All Years" || (ParsedYear(item.year).Some? && ParsedYear(item.year) == Js.IntPrefix(f.year))
  }

  predicate RatingOk(item: Item, f: Filters) {
    f.minImdb <= Rating(item) <= f.maxImdb
  }

  predicate TypeOk(item: Item, f: Filters) {
    f.kind == "All" ||
    (var chosen := Lower(f.kind);
     if chosen == "series/tv show" then ItemType(item) in SeriesTypes else ItemType(item) == chosen)
  }

  predicate PlatformOk(item: Item, f: Filters) {
    f.platform == "All Platforms" || PlatformField(item, f.platform) == Num(1)
  }

  predicate Passes(item: Item, f: Filters) {
    YearOk(item, f) && RatingOk(item, f) && TypeOk(item, f) && PlatformOk(item, f)
  }

  /** `filteredData`: the rows that pass every filter, in dataset order. */
  function FilteredData(data: seq<Item>, f: Filters): (r: seq<Item>)
    ensures IsSubsequence(r, data)
    ensures forall item :: item in r <==> item in data && Passes(item, f)
  {
    Filter(data, KeptBy(f))
  }

  function KeptBy(f: Filters): Item -> bool {
    (item: Item) => Passes(item, f)
  }

  /** A row is kept exactly when each filter that is set holds of it: the year
      parses to the chosen year, the rating lies in the closed range, the type
      matches and the chosen platform's flag is 1. */
  lemma FilterIsConjunction(data: seq<Item>, f: Filters, item: Item)
    requires item in data
    ensures item in FilteredData(data, f) <==>
      (f.year != "All Years" ==> ParsedYear(item.year).Some? && ParsedYear(item.year) == Js.IntPrefix(f.year)) &&
      f.minImdb <= Rating(item) && Rating(item) <= f.maxImdb &&
      (f.kind != "All" && Lower(f.kind) != "series/tv show" ==> ItemType(item) == Lower(f.kind)) &&
      (f.kind != "All" && Lower(f.kind) == "series/tv show" ==> ItemType(item) in SeriesTypes) &&
      (f.platform != "All Platforms" ==> PlatformField(item, f.platform) == Num(1))
  {
  }

  /** A rating that does not parse counts as 0 against the range. */
  lemma UnparsableRatingIsZero(item: Item, f: Filters)
    requires item.imdb.Absent? || item.imdb.Null? || (item.imdb.Text? && Js.FloatPrefix(item.imdb.s).None?)
    ensures RatingOk(item, f) <==> f.minImdb <= 0 <= f.maxImdb
  {
  }

  /** The "series/tv show" choice accepts exactly the types series, tv show and
      tv-show, in any letter case. */
  lemma SeriesChoice(item: Item, f: Filters)
    requires f.kind != "All" && Lower(f.kind) == "series/tv show"
    ensures TypeOk(item, f) <==>
      ItemType(item) == "series" || ItemType(item) == "tv show" || ItemType(item) == "tv-show"
  {
  }

  /** A year option that is not a number keeps no row. */
  lemma UnparsableYearKeepsNothing(data: seq<Item>, f: Filters)
    requires f.year != "All Years" && Js.IntPrefix(f.year).None?
    ensures FilteredData(data, f) == []
  {
    FilterNone(data, KeptBy(f));
  }

  /** With the initial filters the only constraint left is the 0-10 rating range. */
  lemma DefaultFiltersKeepRated(data: seq<Item>, item: Item)
    ensures item in FilteredData(data, DefaultFilters) <==> item in data && 0 <= Rating(item) <= 100
  {
  }

  // ---------------------------------------------------------------- year options

  /** `item.Year` is truthy: a non-zero number or a non-empty string. */
  predicate TruthyYear(f: Field) {
    (f.Num? && f.n != 0) || (f.Text? && f.s != "")
  }

  function YearsOf(data: seq<Item>): (ys: seq<Field>)
    ensures |ys| == |data| && forall k :: 0 <= k < |data| ==> ys[k] == data[k].year
  {
    seq(|data|, k requires 0 <= k < |data| => data[k].year)
  }

  function Same(f: Field): Field { f }

  /** A year as `b - a` sees it: a number is itself, text is read by `Number`
      (white space trimmed, a sign, decimals), and what is not a whole number
      counts as 0. */
  function YearNumber(f: Field): (n: int)
    ensures f.Num? ==> n == f.n
    ensures f.Text? ==> n == Js.NumberWhole(f.s).GetOr(0)
  {
    Js.WholeOrZero(Js.OfField(f))
  }

  function YearRank(f: Field): Rank { [YearNumber(f)] }

  /** `availableYears`: each truthy year once, newest first. The number 2021 and
      the string "2021" are two members of the set. */
  function AvailableYears(data: seq<Item>): (years: seq<Field>)
    ensures forall y :: y in years <==> TruthyYear(y) && exists k :: 0 <= k < |data| && data[k].year == y
    ensures Distinct(years)
    ensures forall i, j :: 0 <= i < j < |years| ==> YearNumber(years[i]) >= YearNumber(years[j])
  {
    var all := Filter(YearsOf(data), TruthyYear);
    var once := KeepFirst(all, Same);
    var years := SortBy(once, YearRank, true);
    YearOptionsOrdered(data, all, once, years);
    years
  }

  lemma YearOptionsOrdered(data: seq<Item>, all: seq<Field>, once: seq<Field>, years: seq<Field>)
    requires all == Filter(YearsOf(data), TruthyYear)
    requires once == KeepFirst(all, Same)
    requires years == SortBy(once, YearRank, true)
    ensures forall y :: y in years <==> TruthyYear(y) && exists k :: 0 <= k < |data| && data[k].year == y
    ensures Distinct(years)
    ensures forall i, j :: 0 <= i < j < |years| ==> YearNumber(years[i]) >= YearNumber(years[j])
  {
    forall y ensures y in years <==> TruthyYear(y) && exists k :: 0 <= k < |data| && data[k].year == y {
      assert y in years <==> y in multiset(once);
      assert y in once <==> y in KeysOf(once, Same);
      assert y in all <==> y in KeysOf(all, Same);
      if y in YearsOf(data) {
        var k :| 0 <= k < |data| && YearsOf(data)[k] == y;
      }
      if exists k :: 0 <= k < |data| && data[k].year == y {
        var k :| 0 <= k < |data| && data[k].year == y;
        assert YearsOf(data)[k] == y;
      }
    }
    assert Distinct(once) by {
      forall i, j | 0 <= i < j < |once| ensures once[i] != once[j] {
        assert Same(once[i]) != Same(once[j]);
      }
    }
    PermutationDistinct(once, years);
    forall i, j | 0 <= i < j < |years| ensures YearNumber(years[i]) >= YearNumber(years[j]) {
      assert !Precedes(YearRank(years[j]), YearRank(years[i]), true);
      RankLessSingleton(YearNumber(years[i]), YearNumber(years[j]));
    }
  }

  // ---------------------------------------------------------------- table

  /** `(item.Title || '').toLowerCase()`. */
  function TitleText(item: Item): string {
    Lower(TextOr(item.title))
  }

  /** `tableData`: the filtered rows whose title contains the search term, ignoring case. */
  function TableData(filtered: seq<Item>, term: string): (rows: seq<Item>)
    ensures term == "" ==> rows == filtered
    ensures IsSubsequence(rows, filtered)
    ensures forall item :: item in rows <==> item in filtered && Contains(TitleText(item), Lower(term))
  {
    if term == "" then
      assert forall item :: Contains(TitleText(item), Lower(term)) by {
        forall item ensures Contains(TitleText(item), Lower(term)) {
          ContainsEmpty(TitleText(item));
        }
      }
      SubsequenceReflexive(filtered);
      filtered
    else
      Filter(filtered, (item: Item) => Contains(TitleText(item), Lower(term)))
  }

  /** `paginatedData`: at most ten rows, starting at row (page - 1) * 10. */
  function PageRows(rows: seq<Item>, page: int): (r: seq<Item>)
    ensures |r| <= ItemsPerPage
    ensures page >= 1 ==> forall i :: 0 <= i < |r| ==>
      (page - 1) * ItemsPerPage + i < |rows| && r[i] == rows[(page - 1) * ItemsPerPage + i]
    ensures page >= 1 && page * ItemsPerPage <= |rows| ==> |r| == ItemsPerPage
  {
    Paging.Page(rows, page, ItemsPerPage)
  }

  /** `totalPages`: the pages needed for every row, ceil(n / 10). */
  function TotalPages(rows: seq<Item>): (n: nat)
    ensures |rows| <= n * ItemsPerPage < |rows| + ItemsPerPage
  {
    Paging.PageCount(|rows|, ItemsPerPage)
  }

  // ---------------------------------------------------------------- KPI cards

  datatype Kpis = Kpis(total: nat, totalMovies: nat, totalSeries: nat, avgImdb: int, maxImdb: int, minImdb: int)

  predicate IsMovie(item: Item) { ItemType(item) == "movie" }

  predicate IsSeries(item: Item) { ItemType(item) == "series" || ItemType(item) == "tv show" }

  /** The positive ratings of the rows, in row order. */
  function PositiveRatings(rows: seq<Item>): (vs: seq<int>)
    ensures forall v :: v in vs ==> v > 0
    ensures |vs| <= |rows|
  {
    if rows == [] then []
    else (if Rating(rows[0]) > 0 then [Rating(rows[0])] else []) + PositiveRatings(rows[1..])
  }

  /** `kpis`. */
  function KpisOf(filtered: seq<Item>): (k: Kpis)
    ensures k.total == |filtered|
    ensures k.totalMovies + k.totalSeries <= k.total
    ensures k.totalMovies == |Filter(filtered, IsMovie)| && k.totalSeries == |Filter(filtered, IsSeries)|
    ensures PositiveRatings(filtered) == [] ==> k.avgImdb == 0 && k.maxImdb == 0 && k.minImdb == 0
    ensures var vs := PositiveRatings(filtered);
      vs != [] ==>
        k.maxImdb in vs && k.minImdb in vs &&
        (forall v :: v in vs ==> k.minImdb <= v <= k.maxImdb) &&
        0 < k.minImdb <= k.avgImdb <= k.maxImdb &&
        k.avgImdb == RoundedMean(Sum(vs), |vs|)
  {
    var vs := PositiveRatings(filtered);
    CountDisjoint(filtered, IsMovie, IsSeries);
    if vs == [] then Kpis(|filtered|, Count(filtered, IsMovie), Count(filtered, IsSeries), 0, 0, 0)
    else
      var hi, lo := Max(vs), Min(vs);
      SumBounds(vs, lo, hi);
      RoundedMeanBetween(Sum(vs), |vs|, lo, hi);
      Kpis(|filtered|, Count(filtered, IsMovie), Count(filtered, IsSeries), RoundedMean(Sum(vs), |vs|), hi, lo)
  }

  // ---------------------------------------------------------------- charts

  /** The rating band of `imdbChartData`: 0-4, 4-6, 6-7, 7-8, 8-9 and 9-10. */
  function BandOf(rating: int): (b: nat)
    ensures b < 6
    ensures b == 0 <==> rating < 40
    ensures b == 1 <==> 40 <= rating < 60
    ensures b == 2 <==> 60 <= rating < 70
    ensures b == 3 <==> 70 <= rating < 80
    ensures b == 4 <==> 80 <= rating < 90
    ensures b == 5 <==> rating >= 90
  {
    if rating < 40 then 0
    else if rating < 60 then 1
    else if rating < 70 then 2
    else if rating < 80 then 3
    else if rating < 90 then 4
    else 5
  }

  const BandNames: seq<string> := ["0-4", "4-6", "6-7", "7-8", "8-9", "9-10"]

  /** Number of rows whose rating falls in band `b`. */
  function BandCount(rows: seq<Item>, b: nat): nat {
    if rows == [] then 0
    else BandCount(rows[..|rows| - 1], b) + (if BandOf(Rating(rows[|rows| - 1])) == b then 1 else 0)
  }

  datatype RangeCount = RangeCount(range: string, count: nat)

  /** `imdbChartData`: one counter per band, each row adding one to its band. */
  method ImdbChartData(filtered: seq<Item>) returns (chart: seq<RangeCount>)
    ensures |chart| == 6
    ensures forall b :: 0 <= b < 6 ==> chart[b] == RangeCount(BandNames[b], BandCount(filtered, b))
    ensures chart[0].count + chart[1].count + chart[2].count + chart[3].count + chart[4].count + chart[5].count == |filtered|
  {
    var buckets := new nat[6](_ => 0);
    var i := 0;
    while i < |filtered|
      invariant 0 <= i <= |filtered|
      invariant forall b :: 0 <= b < 6 ==> buckets[b] == BandCount(filtered[..i], b)
    {
      var b := BandOf(Rating(filtered[i]));
      buckets[b] := buckets[b] + 1;
      assert filtered[..i + 1][..i] == filtered[..i];
      i := i + 1;
    }
    assert filtered[..i] == filtered;
    chart := [RangeCount(BandNames[0], buckets[0]), RangeCount(BandNames[1], buckets[1]),
              RangeCount(BandNames[2], buckets[2]), RangeCount(BandNames[3], buckets[3]),
              RangeCount(BandNames[4], buckets[4]), RangeCount(BandNames[5], buckets[5])];
    BandsCoverAll(filtered);
  }

  /** Every row falls in exactly one band, so the six counts add up to the rows. */
  lemma {:induction false} BandsCoverAll(rows: seq<Item>)
    ensures BandCount(rows, 0) + BandCount(rows, 1) + BandCount(rows, 2) +
            BandCount(rows, 3) + BandCount(rows, 4) + BandCount(rows, 5) == |rows|
  {
    if rows != [] {
      BandsCoverAll(rows[..|rows| - 1]);
    }
  }

  const ChartPlatforms: seq<string> := ["Netflix", "Prime Video", "Disney+", "Hulu"]

  datatype PlatformBar = PlatformBar(name: string, fullName: string, count: nat, fill: string)

  /** The short bar label of a platform. */
  function ShortName(p: string): string {
    if p == "Prime Video" then "Prime" else if p == "Disney+" then "Disney" else p
  }

  function BrandColor(p: string): string {
    if p == "Netflix" then "#e60a15"
    else if p == "Prime Video" then "#3b82f6"
    else if p == "Disney+" then "#0ea5e9"
    else "#22c55e"
  }

  predicate OnPlatform(p: string, item: Item) {
    PlatformField(item, p) == Num(1)
  }

  /** Number of rows flagged 1 for platform `p`. */
  function PlatformCount(rows: seq<Item>, p: string): (n: nat)
    ensures n <= |rows|
  {
    Count(rows, OnPlatformOf(p))
  }

  function OnPlatformOf(p: string): Item -> bool {
    (item: Item) => OnPlatform(p, item)
  }

  /** `platformChartData`: one bar per platform, counting the rows flagged 1 for it. */
  function PlatformChartData(filtered: seq<Item>): (bars: seq<PlatformBar>)
    ensures |bars| == |ChartPlatforms|
    ensures forall k :: 0 <= k < |bars| ==>
      bars[k].fullName == ChartPlatforms[k] && bars[k].count == PlatformCount(filtered, ChartPlatforms[k])
  {
    seq(|ChartPlatforms|, k requires 0 <= k < |ChartPlatforms| =>
      var p := ChartPlatforms[k];
      PlatformBar(ShortName(p), p, PlatformCount(filtered, p), BrandColor(p)))
  }

  /** With no platform filter set, the rows counted for a platform are the rows
      that choosing that platform in the filter keeps. */
  lemma PlatformCountMatchesFilter(data: seq<Item>, f: Filters, p: string)
    requires f.platform == "All Platforms" && p in ChartPlatforms
    ensures PlatformCount(FilteredData(data, f), p) == |FilteredData(data, f.(platform := p))|
  {
    var g := f.(platform := p);
    forall x | x in data ensures KeptBy(g)(x) == (KeptBy(f)(x) && OnPlatformOf(p)(x)) {
      assert PlatformOk(x, f);
      assert PlatformOk(x, g) == OnPlatform(p, x);
    }
    FilterFilter(data, KeptBy(f), OnPlatformOf(p), KeptBy(g));
  }

  // ---------------------------------------------------------------- table state

  /** The dashboard's table state: the dataset, the filters, the search term and
      the current page. */
  class Dashboard {
    var data: seq<Item>
    var filters: Filters
    var searchTerm: string
    var currentPage: int

    constructor (data: seq<Item>)
      ensures this.data == data && filters == DefaultFilters && searchTerm == "" && currentPage == 1
    {
      this.data := data;
      filters := DefaultFilters;
      searchTerm := "";
      currentPage := 1;
    }

    function Rows(): seq<Item>
      reads this
    {
      TableData(FilteredData(data, filters), searchTerm)
    }

    function PageCount(): nat
      reads this
    {
      TotalPages(Rows())
    }

    /** The rows the table shows. */
    function Visible(): (r: seq<Item>)
      reads this
      ensures |r| <= ItemsPerPage
    {
      PageRows(Rows(), currentPage)
    }

    /** Typing in the search box: the term changes and the table returns to page 1. */
    method SetSearchTerm(term: string)
      modifies this
      ensures searchTerm == term && currentPage == 1
      ensures data == old(data) && filters == old(filters)
    {
      searchTerm := term;
      currentPage := 1;
    }

    /** Changing a filter leaves the page number as it was. */
    method SetFilters(f: Filters)
      modifies this
      ensures filters == f
      ensures data == old(data) && searchTerm == old(searchTerm) && currentPage == old(currentPage)
    {
      filters := f;
    }

    /** The Previous button: `Math.max(prev - 1, 1)`. */
    method PrevPage()
      modifies this
      ensures currentPage == Paging.Prev(old(currentPage))
      ensures 1 <= old(currentPage) <= PageCount() ==> 1 <= currentPage <= PageCount()
      ensures data == old(data) && filters == old(filters) && searchTerm == old(searchTerm)
    {
      if 1 <= currentPage <= PageCount() {
        Paging.ButtonsKeepRange(currentPage, PageCount());
      }
      currentPage := Paging.Prev(currentPage);
    }

    /** The Next button: `Math.min(prev + 1, totalPages)`. */
    method NextPage()
      modifies this
      ensures currentPage == Paging.Next(old(currentPage), PageCount())
      ensures 1 <= old(currentPage) <= PageCount() ==> 1 <= currentPage <= PageCount()
      ensures data == old(data) && filters == old(filters) && searchTerm == old(searchTerm)
    {
      if 1 <= currentPage <= PageCount() {
        Paging.ButtonsKeepRange(currentPage, PageCount());
      }
      currentPage := Paging.Next(currentPage, PageCount());
    }
  }
}
