/** The movie analytics admin page over the bundled movie list: the five
    single-choice filters, the sortable table (sorted on a copy, then
    de-duplicated by cleaned title), the KPI cards and the top-ten chart by
    box-office collection. Ratings are in tenths; collections in whole units. */
module MoviesAnalytics {
  import opened Common
  import opened Seqs
  import opened TrendingMovies

  // ---------------------------------------------------------------- titles

  /** `cleanTitle`: '' for a missing or empty title; otherwise one trailing
      whitespace-plus-digit suffix removed (`/\s\d$/`). */
  function CleanTitle(title: Option<string>): (t: string)
    ensures title.None? || title == Some("") ==> t == ""
    ensures title.Some? && DigitSuffix(title.value) ==> t == title.value[..|title.value| - 2]
    ensures title.Some? && !DigitSuffix(title.value) ==> t == title.value
  {
    if title.None? || title.value == "" then ""
    else if DigitSuffix(title.value) then title.value[..|title.value| - 2]
    else title.value
  }

  /** The text ends in one whitespace character followed by one digit. */
  predicate DigitSuffix(s: string) {
    |s| >= 2 && IsSpace(JavaScript, s[|s| - 2]) && IsDigit(s[|s| - 1])
  }

  /** Only a single digit is removed: "Movie 12" stays, "Movie 2" loses its suffix,
      and only one suffix goes. */
  lemma CleanTitleExamples()
    ensures CleanTitle(Some("Movie 12")) == "Movie 12"
    ensures CleanTitle(Some("Movie 2")) == "Movie"
    ensures CleanTitle(Some("Movie 1 2")) == "Movie 1"
  {
    assert !IsSpace(JavaScript, "Movie 12"[6]);
    assert "Movie 2"[..5] == "Movie";
    assert "Movie 1 2"[..7] == "Movie 1";
  }

  function TitleKey(m: Movie): string {
    CleanTitle(Some(m.title))
  }

  // ---------------------------------------------------------------- filters

  datatype Choices = Choices(releaseYear: string, industry: string, category: string, platform: string, status: string)

  const AllChoices: Choices := Choices("All", "All", "All", "All", "All")

  predicate Chosen(choice: string, value: string) {
    choice == "All" || value == choice
  }

  predicate Selected(c: Choices, m: Movie) {
    Chosen(c.releaseYear, NatToString(m.releaseYear)) && Chosen(c.industry, m.industry) &&
    Chosen(c.category, m.category) && Chosen(c.platform, m.platform) && Chosen(c.status, m.status)
  }

  function SelectedBy(c: Choices): Movie -> bool {
    (m: Movie) => Selected(c, m)
  }

  /** `filteredData`. */
  function FilteredData(movies: seq<Movie>, c: Choices): (r: seq<Movie>)
    ensures IsSubsequence(r, movies)
    ensures forall m :: m in r <==> m in movies && Selected(c, m)
  {
    Filter(movies, SelectedBy(c))
  }

  /** With every filter at "All" the whole list is kept. */
  lemma AllChoicesKeepAll(movies: seq<Movie>)
    ensures FilteredData(movies, AllChoices) == movies
  {
    FilterAll(movies, SelectedBy(AllChoices));
  }

  // ---------------------------------------------------------------- sorting

  datatype Column = TitleCol | IndustryCol | CategoryCol | ReleaseYearCol | ImdbCol | CollectionCol | PlatformCol | StatusCol

  datatype Direction = Asc | Desc

  datatype SortConfig = SortConfig(key: Column, direction: Direction)

  const InitialSort: SortConfig := SortConfig(ImdbCol, Desc)

  /** The value compared for a column; a null rating reads as -1 (-10 tenths) and a
      null collection as -1. */
  function ColumnRank(col: Column, m: Movie): Rank {
    match col
    case TitleCol => StringRank(m.title)
    case IndustryCol => StringRank(m.industry)
    case CategoryCol => StringRank(m.category)
    case ReleaseYearCol => [m.releaseYear]
    case ImdbCol => [m.imdbRating.GetOr(-10)]
    case CollectionCol => [m.collection.GetOr(-1)]
    case PlatformCol => StringRank(m.platform)
    case StatusCol => StringRank(m.status)
  }

  function ColumnKey(col: Column): Movie -> Rank {
    (m: Movie) => ColumnRank(col, m)
  }

  /** `sortedData`: a sorted copy of the filtered rows. */
  function SortedData(filtered: seq<Movie>, cfg: SortConfig): (r: seq<Movie>)
    ensures multiset(r) == multiset(filtered)
    ensures Ordered(r, ColumnKey(cfg.key), cfg.direction == Desc)
  {
    SortBy(filtered, ColumnKey(cfg.key), cfg.direction == Desc)
  }

  /** Sorted by rating in the initial direction, a rated movie comes before every
      unrated one, and ratings do not increase down the table. */
  lemma InitialSortByRating(filtered: seq<Movie>)
    ensures var r := SortedData(filtered, InitialSort);
      forall i, j :: 0 <= i < j < |r| ==> r[i].imdbRating.GetOr(-10) >= r[j].imdbRating.GetOr(-10)
  {
    var r := SortedData(filtered, InitialSort);
    forall i, j | 0 <= i < j < |r| ensures r[i].imdbRating.GetOr(-10) >= r[j].imdbRating.GetOr(-10) {
      RankLessSingleton(r[i].imdbRating.GetOr(-10), r[j].imdbRating.GetOr(-10));
    }
  }

  /** `requestSort(key)`. */
  function RequestSort(cfg: SortConfig, key: Column): (next: SortConfig)
    ensures next.key == key
    ensures next.direction == Asc <==> cfg.key == key && cfg.direction == Desc
  {
    if cfg.key == key && cfg.direction == Desc then SortConfig(key, Asc) else SortConfig(key, Desc)
  }

  /** Clicking the same header twice from descending comes back to descending. */
  lemma RequestSortCycle(cfg: SortConfig, key: Column)
    requires cfg.key == key && cfg.direction == Desc
    ensures RequestSort(RequestSort(cfg, key), key) == cfg
  {
  }

  // ---------------------------------------------------------------- de-duplication

  /** `deduplicatedData`: the `seen` set of cleaned titles drives the filter. */
  method Deduplicate(sorted: seq<Movie>) returns (r: seq<Movie>)
    ensures r == KeepFirst(sorted, TitleKey)
  {
    var seen: set<string> := {};
    r := [];
    var i := 0;
    while i < |sorted|
      invariant 0 <= i <= |sorted|
      invariant r == KeepFirst(sorted[..i], TitleKey)
      invariant seen == KeysOf(sorted[..i], TitleKey)
    {
      var title := CleanTitle(Some(sorted[i].title));
      assert sorted[..i + 1] == sorted[..i] + [sorted[i]];
      KeepFirstStep(sorted[..i], sorted[i], TitleKey);
      if title !in seen {
        seen := seen + {title};
        r := r + [sorted[i]];
      }
      i := i + 1;
    }
    assert sorted[..i] == sorted;
  }

  /** De-duplication keeps order, leaves no two rows with the same cleaned title,
      keeps every cleaned title, and keeps exactly the first row of each. */
  lemma DeduplicateKeepsFirst(sorted: seq<Movie>, m: Movie)
    ensures IsSubsequence(KeepFirst(sorted, TitleKey), sorted)
    ensures forall i, j :: 0 <= i < j < |KeepFirst(sorted, TitleKey)| ==>
      TitleKey(KeepFirst(sorted, TitleKey)[i]) != TitleKey(KeepFirst(sorted, TitleKey)[j])
    ensures KeysOf(KeepFirst(sorted, TitleKey), TitleKey) == KeysOf(sorted, TitleKey)
    ensures m in KeepFirst(sorted, TitleKey) <==> exists i :: FirstOfKey(sorted, TitleKey, m, i)
  {
    KeepFirstMembership(sorted, TitleKey, m);
  }

  // ---------------------------------------------------------------- KPI cards

  datatype Kpis = Kpis(totalMovies: nat, releasedCount: nat, upcomingCount: nat, avgRating: Option<int>, totalCollection: int)

  predicate Released(m: Movie) { m.status == "released" }
  predicate Upcoming(m: Movie) { m.status == "upcoming" }

  /** The ratings of the released, rated movies, in order. */
  function ReleasedRatings(rows: seq<Movie>): (vs: seq<int>)
    ensures |vs| == |Filter(rows, RatedRelease)|
  {
    if rows == [] then []
    else (if RatedRelease(rows[0]) then [rows[0].imdbRating.value] else []) + ReleasedRatings(rows[1..])
  }

  predicate RatedRelease(m: Movie) { Released(m) && m.imdbRating.Some? }

  /** The collections of the released movies that have one. */
  function ReleasedCollections(rows: seq<Movie>): seq<int> {
    if rows == [] then []
    else (if Released(rows[0]) && rows[0].collection.Some? then [rows[0].collection.value] else [])
         + ReleasedCollections(rows[1..])
  }

  /** `kpis`: the released and upcoming counts never exceed the total, and the
      average is "N/A" (None) exactly when no released movie has a rating; otherwise
      it is their mean rounded to a tenth (see `RoundedMeanNearest`), which lies
      between the lowest and highest such rating. */
  function KpisOf(filtered: seq<Movie>): (k: Kpis)
    ensures k.totalMovies == |filtered|
    ensures k.releasedCount == Count(filtered, Released) && k.upcomingCount == Count(filtered, Upcoming)
    ensures k.releasedCount + k.upcomingCount <= k.totalMovies
    ensures k.avgRating.None? <==> forall m :: m in filtered ==> !RatedRelease(m)
    ensures k.avgRating.Some? ==>
      var vs := ReleasedRatings(filtered);
      vs != [] && Min(vs) <= k.avgRating.value <= Max(vs) && k.avgRating.value == RoundedMean(Sum(vs), |vs|)
    ensures k.totalCollection == Sum(ReleasedCollections(filtered))
  {
    CountDisjoint(filtered, Released, Upcoming);
    var vs := ReleasedRatings(filtered);
    NoRatedReleaseIffEmpty(filtered);
    Kpis(|filtered|, Count(filtered, Released), Count(filtered, Upcoming), Average(vs), Sum(ReleasedCollections(filtered)))
  }

  /** The rounded mean of the ratings, None when there are none. */
  function Average(vs: seq<int>): (avg: Option<int>)
    ensures avg.None? <==> vs == []
    ensures avg.Some? ==> Min(vs) <= avg.value <= Max(vs)
    ensures avg.Some? ==> avg.value == RoundedMean(Sum(vs), |vs|)
  {
    if vs == [] then None
    else
      SumBounds(vs, Min(vs), Max(vs));
      RoundedMeanBetween(Sum(vs), |vs|, Min(vs), Max(vs));
      Some(RoundedMean(Sum(vs), |vs|))
  }

  lemma NoRatedReleaseIffEmpty(rows: seq<Movie>)
    ensures Filter(rows, RatedRelease) == [] <==> forall m :: m in rows ==> !RatedRelease(m)
  {
    if forall m :: m in rows ==> !RatedRelease(m) {
      FilterNone(rows, RatedRelease);
    }
  }

  // ---------------------------------------------------------------- top ten

  datatype Bar = Bar(name: string, collection: int)

  const TopCount: nat := 10

  predicate HasCollection(m: Movie) { m.collection.Some? }

  function ByCollection(m: Movie): Rank {
    [m.collection.GetOr(0)]
  }

  /** A title longer than 15 characters shows its first 12 and "...". */
  function ShortTitle(t: string): (s: string)
    ensures |s| <= 15
    ensures |t| <= 15 ==> s == t
  {
    if |t| > 15 then t[..12] + "..." else t
  }

  /** The movies behind the chart: those with a collection, largest first, at most ten. */
  function TopMovies(filtered: seq<Movie>): (r: seq<Movie>)
    ensures |r| == if |Filter(filtered, HasCollection)| < TopCount then |Filter(filtered, HasCollection)| else TopCount
    ensures forall m :: m in r ==> m in filtered && m.collection.Some?
    ensures forall i, j :: 0 <= i < j < |r| ==> r[i].collection.value >= r[j].collection.value
    ensures forall m, k :: m in filtered && m.collection.Some? && m !in r && 0 <= k < |r| ==>
      r[k].collection.value >= m.collection.value
    ensures multiset(r) <= multiset(Filter(filtered, HasCollection))
  {
    var with := Filter(filtered, HasCollection);
    var sorted := SortBy(with, ByCollection, true);
    var r := Take(sorted, TopCount);
    TopMoviesFacts(filtered, with, sorted, r);
    r
  }

  lemma TopMoviesFacts(filtered: seq<Movie>, with: seq<Movie>, sorted: seq<Movie>, r: seq<Movie>)
    requires with == Filter(filtered, HasCollection)
    requires sorted == SortBy(with, ByCollection, true)
    requires r == Take(sorted, TopCount)
    ensures |r| == if |Filter(filtered, HasCollection)| < TopCount then |Filter(filtered, HasCollection)| else TopCount
    ensures forall m :: m in r ==> m in filtered && m.collection.Some?
    ensures forall i, j :: 0 <= i < j < |r| ==> r[i].collection.value >= r[j].collection.value
    ensures forall m, k :: m in filtered && m.collection.Some? && m !in r && 0 <= k < |r| ==>
      r[k].collection.value >= m.collection.value
    ensures multiset(r) <= multiset(Filter(filtered, HasCollection))
  {
    TopMembers(filtered, with, sorted, r);
    TopOrdered(filtered, with, sorted, r);
    TopIsBest(filtered, with, sorted, r);
    TakeSubMultiset(sorted, TopCount);
  }

  lemma TopMembers(filtered: seq<Movie>, with: seq<Movie>, sorted: seq<Movie>, r: seq<Movie>)
    requires with == Filter(filtered, HasCollection)
    requires sorted == SortBy(with, ByCollection, true)
    requires r == Take(sorted, TopCount)
    ensures forall m :: m in r ==> m in filtered && m.collection.Some?
  {
    forall m | m in r ensures m in filtered && m.collection.Some? {
      var k :| 0 <= k < |r| && r[k] == m;
      assert sorted[k] == m;
      assert m in multiset(with);
    }
  }

  lemma TopOrdered(filtered: seq<Movie>, with: seq<Movie>, sorted: seq<Movie>, r: seq<Movie>)
    requires with == Filter(filtered, HasCollection)
    requires sorted == SortBy(with, ByCollection, true)
    requires r == Take(sorted, TopCount)
    requires forall m :: m in r ==> m in filtered && m.collection.Some?
    ensures forall i, j :: 0 <= i < j < |r| ==> r[i].collection.value >= r[j].collection.value
  {
    forall i, j | 0 <= i < j < |r| ensures r[i].collection.value >= r[j].collection.value {
      assert r[i] == sorted[i] && r[j] == sorted[j];
      assert r[i] in r && r[j] in r;
      RankLessSingleton(r[i].collection.GetOr(0), r[j].collection.GetOr(0));
    }
  }

  lemma TopIsBest(filtered: seq<Movie>, with: seq<Movie>, sorted: seq<Movie>, r: seq<Movie>)
    requires with == Filter(filtered, HasCollection)
    requires sorted == SortBy(with, ByCollection, true)
    requires r == Take(sorted, TopCount)
    requires forall m :: m in r ==> m in filtered && m.collection.Some?
    ensures forall m, k :: m in filtered && m.collection.Some? && m !in r && 0 <= k < |r| ==>
      r[k].collection.value >= m.collection.value
  {
    forall m, k | m in filtered && m.collection.Some? && m !in r && 0 <= k < |r|
      ensures r[k].collection.value >= m.collection.value
    {
      assert m in multiset(sorted);
      var p :| 0 <= p < |sorted| && sorted[p] == m;
      assert p >= |r|;
      assert r[k] == sorted[k];
      assert r[k] in r;
      RankLessSingleton(r[k].collection.GetOr(0), m.collection.GetOr(0));
    }
  }

  /** `topMoviesByCollection`: the chart bars. */
  function TopMoviesByCollection(filtered: seq<Movie>): (bars: seq<Bar>)
    ensures |bars| == |TopMovies(filtered)|
    ensures |bars| == if |Filter(filtered, HasCollection)| < TopCount then |Filter(filtered, HasCollection)| else TopCount
    ensures forall k :: 0 <= k < |bars| ==>
      bars[k] == Bar(ShortTitle(TopMovies(filtered)[k].title), TopMovies(filtered)[k].collection.value)
    ensures forall i, j :: 0 <= i < j < |bars| ==> bars[i].collection >= bars[j].collection
  {
    BarsOf(TopMovies(filtered))
  }

  /** One bar per movie, its shortened title and its collection. */
  function BarsOf(top: seq<Movie>): (bars: seq<Bar>)
    requires forall m :: m in top ==> m.collection.Some?
    ensures |bars| == |top|
    ensures forall k :: 0 <= k < |bars| ==> bars[k] == Bar(ShortTitle(top[k].title), top[k].collection.value)
  {
    assert forall k :: 0 <= k < |top| ==> top[k] in top;
    seq(|top|, k requires 0 <= k < |top| => Bar(ShortTitle(top[k].title), top[k].collection.value))
  }
}
