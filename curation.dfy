/** The curated home-page lists of the recommender: three buckets of catalog
    rows, each a threshold filter, a sort by one column in descending order and
    the first ten rows, formatted for the client. */
module Curation {
  import opened Common
  import opened Seqs
  import opened Catalog
  import Ranking

  const BucketSize: nat := 10

  /** Trending now: released in 2024 or later and rated at least 7.5. */
  predicate TrendingQualifies(r: CatalogRow) { r.year >= 2024 && r.imdb >= 75 }

  /** All-time top rated: rated at least 8.5. */
  predicate TopRatedQualifies(r: CatalogRow) { r.imdb >= 85 }

  /** New on Netflix: on Netflix, released in 2022 or later and rated at least 7.0. */
  predicate NetflixQualifies(r: CatalogRow) { r.netflix == 1 && r.year >= 2022 && r.imdb >= 70 }

  function ByRating(r: CatalogRow): Rank { [r.imdb] }

  function ByYear(r: CatalogRow): Rank { [r.year] }

  /** `df[mask].sort_values(by=column, ascending=False).head(10)`. */
  function Bucket(df: seq<CatalogRow>, qualifies: CatalogRow -> bool, key: CatalogRow -> Rank): seq<CatalogRow> {
    Take(SortBy(Filter(df, qualifies), key, true), BucketSize)
  }

  /** A bucket holds at most ten rows, each a catalog row that meets the threshold,
      in non-increasing order of the sort column; it holds ten whenever ten rows
      qualify, a qualifying row left out ranks no higher than any row kept, and
      no row appears more often than it qualifies. */
  lemma BucketIsTop(df: seq<CatalogRow>, qualifies: CatalogRow -> bool, key: CatalogRow -> Rank)
    ensures var b := Bucket(df, qualifies, key);
      |b| == (if |Filter(df, qualifies)| < BucketSize then |Filter(df, qualifies)| else BucketSize) &&
      (forall r :: r in b ==> r in df && qualifies(r)) &&
      (forall i, j :: 0 <= i < j < |b| ==> !RankLess(key(b[i]), key(b[j]))) &&
      (forall r, k :: r in df && qualifies(r) && r !in b && 0 <= k < |b| ==> !RankLess(key(b[k]), key(r))) &&
      multiset(b) <= multiset(Filter(df, qualifies))
  {
    var f := Filter(df, qualifies);
    var sorted := SortBy(f, key, true);
    var b := Bucket(df, qualifies, key);
    TakeSubMultiset(sorted, BucketSize);
    forall r | r in b ensures r in df && qualifies(r) {
      var k :| 0 <= k < |b| && b[k] == r;
      assert sorted[k] == r;
      assert r in multiset(f);
    }
    forall i, j | 0 <= i < j < |b| ensures !RankLess(key(b[i]), key(b[j])) {
      assert b[i] == sorted[i] && b[j] == sorted[j];
    }
    forall r, k | r in df && qualifies(r) && r !in b && 0 <= k < |b| ensures !RankLess(key(b[k]), key(r)) {
      assert r in multiset(sorted);
      var m :| 0 <= m < |sorted| && sorted[m] == r;
      assert m >= |b|;
      assert b[k] == sorted[k];
    }
  }

  // ---------------------------------------------------------------- formatting

  datatype CuratedItem = CuratedItem(
    title: Field, year: int, imdb: int, platforms: seq<string>, genres: seq<string>, directors: string)

  /** `s.split(sep)` for a one-character separator: the pieces between separators,
      an empty string giving one empty piece. */
  function Split(s: string, sep: char): (parts: seq<string>)
    ensures |parts| >= 1
    ensures forall k :: 0 <= k < |parts| ==> sep !in parts[k]
    decreases |s|
  {
    var i := IndexOf(s, sep);
    if i == |s| then [s] else [s[..i]] + Split(s[i + 1..], sep)
  }

  /** Position of the first `c`, or |s| when there is none. */
  function IndexOf(s: string, c: char): (k: nat)
    ensures k <= |s|
    ensures k < |s| ==> s[k] == c
    ensures forall i :: 0 <= i < k ==> s[i] != c
  {
    if s == [] then 0 else if s[0] == c then 0 else 1 + IndexOf(s[1..], c)
  }

  /** Joining the pieces with the separator gives back the original text. */
  lemma {:induction false} SplitJoin(s: string, sep: char)
    ensures Join(Split(s, sep), [sep]) == s
    decreases |s|
  {
    var i := IndexOf(s, sep);
    if i < |s| {
      var rest := Split(s[i + 1..], sep);
      SplitJoin(s[i + 1..], sep);
      assert Split(s, sep) == [s[..i]] + rest;
      JoinCons(s[..i], rest, [sep]);
      assert s == s[..i] + [sep] + s[i + 1..];
    } else {
      assert Split(s, sep) == [s];
    }
  }

  /** Some catalog row has a Directors cell, so the frame has that column. */
  predicate DirectorsColumn(df: seq<CatalogRow>) {
    exists k :: 0 <= k < |df| && !df[k].directors.Absent?
  }

  /** `str(row.get(column, ''))` of a catalog cell: `None` prints as "None"; a
      missing cell prints as "nan" when the frame has the column (the cell is
      `NaN`) and as "" when it does not (`get` falls back to ''). */
  function FieldText(f: Field, column: bool): (t: string)
    ensures f.Text? ==> t == f.s
    ensures f.Null? ==> t == "None"
    ensures f.Absent? && column ==> t == "nan"
    ensures f.Absent? && !column ==> t == ""
    ensures f.Num? ==> t == IntToString(f.n)
  {
    match f
    case Text(s) => s
    case Null => "None"
    case Absent => if column then "nan" else ""
    case Num(n) => IntToString(n)
  }

  /** One row as `format_list` reports it, `directors` telling whether the frame
      has a Directors column. */
  function FormatRow(r: CatalogRow, directors: bool): (item: CuratedItem)
    ensures item.title == r.title && item.year == r.year && item.imdb == r.imdb
    ensures item.platforms == Ranking.AvailablePlatforms(r)
    ensures item.genres == Split(r.genres, ',') && item.directors == FieldText(r.directors, directors)
  {
    CuratedItem(r.title, r.year, r.imdb, Ranking.AvailablePlatforms(r), Split(r.genres, ','), FieldText(r.directors, directors))
  }

  /** `format_list`: the rows formatted one by one, in order. */
  method FormatList(rows: seq<CatalogRow>, directors: bool) returns (results: seq<CuratedItem>)
    ensures |results| == |rows|
    ensures forall k :: 0 <= k < |rows| ==> results[k] == FormatRow(rows[k], directors)
  {
    results := [];
    var i := 0;
    while i < |rows|
      invariant 0 <= i <= |rows|
      invariant |results| == i
      invariant forall k :: 0 <= k < i ==> results[k] == FormatRow(rows[k], directors)
    {
      results := results + [FormatRow(rows[i], directors)];
      i := i + 1;
    }
  }

  function FormatAll(rows: seq<CatalogRow>, directors: bool): (items: seq<CuratedItem>)
    ensures |items| == |rows|
    ensures forall k :: 0 <= k < |rows| ==> items[k] == FormatRow(rows[k], directors)
  {
    seq(|rows|, k requires 0 <= k < |rows| => FormatRow(rows[k], directors))
  }

  /** `get_curated_content()`: `{}` for an empty catalog, otherwise the three lists. */
  datatype Curated = NoCatalog | Buckets(trendingNow: seq<CuratedItem>, topRated: seq<CuratedItem>, netflixNew: seq<CuratedItem>)

  function CuratedContent(df: seq<CatalogRow>): (c: Curated)
    ensures c.NoCatalog? <==> df == []
  {
    if df == [] then NoCatalog
    else Buckets(
      FormatAll(Bucket(df, TrendingQualifies, ByRating), DirectorsColumn(df)),
      FormatAll(Bucket(df, TopRatedQualifies, ByRating), DirectorsColumn(df)),
      FormatAll(Bucket(df, NetflixQualifies, ByYear), DirectorsColumn(df)))
  }

  /** Every reported item meets its bucket's threshold, each bucket holds at most
      ten items, and each is in non-increasing order of its sort column. */
  lemma CuratedThresholds(df: seq<CatalogRow>)
    requires df != []
    ensures var c := CuratedContent(df);
      |c.trendingNow| <= BucketSize && |c.topRated| <= BucketSize && |c.netflixNew| <= BucketSize &&
      (forall it :: it in c.trendingNow ==> it.year >= 2024 && it.imdb >= 75) &&
      (forall it :: it in c.topRated ==> it.imdb >= 85) &&
      (forall it :: it in c.netflixNew ==> "Netflix" in it.platforms && it.year >= 2022 && it.imdb >= 70) &&
      (forall i, j :: 0 <= i < j < |c.trendingNow| ==> c.trendingNow[i].imdb >= c.trendingNow[j].imdb) &&
      (forall i, j :: 0 <= i < j < |c.topRated| ==> c.topRated[i].imdb >= c.topRated[j].imdb) &&
      (forall i, j :: 0 <= i < j < |c.netflixNew| ==> c.netflixNew[i].year >= c.netflixNew[j].year)
  {
    TrendingFacts(df);
    TopRatedFacts(df);
    NetflixFacts(df);
  }

  lemma TrendingFacts(df: seq<CatalogRow>)
    ensures var c := FormatAll(Bucket(df, TrendingQualifies, ByRating), DirectorsColumn(df));
      |c| <= BucketSize &&
      (forall it :: it in c ==> it.year >= 2024 && it.imdb >= 75) &&
      (forall i, j :: 0 <= i < j < |c| ==> c[i].imdb >= c[j].imdb)
  {
    var t := Bucket(df, TrendingQualifies, ByRating);
    var directors := DirectorsColumn(df);
    var c := FormatAll(t, directors);
    BucketIsTop(df, TrendingQualifies, ByRating);
    forall it | it in c ensures it.year >= 2024 && it.imdb >= 75 {
      var k :| 0 <= k < |t| && c[k] == it;
      assert t[k] in t && TrendingQualifies(t[k]);
      assert it == FormatRow(t[k], directors);
    }
    forall i, j | 0 <= i < j < |t| ensures c[i].imdb >= c[j].imdb {
      RankLessSingleton(t[i].imdb, t[j].imdb);
    }
  }

  lemma TopRatedFacts(df: seq<CatalogRow>)
    ensures var c := FormatAll(Bucket(df, TopRatedQualifies, ByRating), DirectorsColumn(df));
      |c| <= BucketSize &&
      (forall it :: it in c ==> it.imdb >= 85) &&
      (forall i, j :: 0 <= i < j < |c| ==> c[i].imdb >= c[j].imdb)
  {
    var t := Bucket(df, TopRatedQualifies, ByRating);
    var directors := DirectorsColumn(df);
    var c := FormatAll(t, directors);
    BucketIsTop(df, TopRatedQualifies, ByRating);
    forall it | it in c ensures it.imdb >= 85 {
      var k :| 0 <= k < |t| && c[k] == it;
      assert t[k] in t && TopRatedQualifies(t[k]);
      assert it == FormatRow(t[k], directors);
    }
    forall i, j | 0 <= i < j < |t| ensures c[i].imdb >= c[j].imdb {
      RankLessSingleton(t[i].imdb, t[j].imdb);
    }
  }

  lemma NetflixFacts(df: seq<CatalogRow>)
    ensures var c := FormatAll(Bucket(df, NetflixQualifies, ByYear), DirectorsColumn(df));
      |c| <= BucketSize &&
      (forall it :: it in c ==> "Netflix" in it.platforms && it.year >= 2022 && it.imdb >= 70) &&
      (forall i, j :: 0 <= i < j < |c| ==> c[i].year >= c[j].year)
  {
    var t := Bucket(df, NetflixQualifies, ByYear);
    var directors := DirectorsColumn(df);
    var c := FormatAll(t, directors);
    BucketIsTop(df, NetflixQualifies, ByYear);
    forall it | it in c ensures "Netflix" in it.platforms && it.year >= 2022 && it.imdb >= 70 {
      var k :| 0 <= k < |t| && c[k] == it;
      assert t[k] in t && NetflixQualifies(t[k]);
      assert it == FormatRow(t[k], directors);
    }
    forall i, j | 0 <= i < j < |t| ensures c[i].year >= c[j].year {
      RankLessSingleton(t[i].year, t[j].year);
    }
  }
}
