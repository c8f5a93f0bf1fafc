/** What `get_recommendations` returns, stated over the catalog and the
    similarity matrix: the matched title, the order of the candidates and the
    recommendations built from them. */
module Ranking {
  import opened Common
  import opened Seqs
  import opened Catalog

  /** The similarity matrix: `size` rows and columns, indexed by catalog position.
      The engine builds it from the feature vectors; the model takes the score
      function as given. */
  datatype Similarity = Similarity(size: nat, score: (nat, nat) -> int)

  datatype Recommendation = Recommendation(
    title: Field, platform: string, imdbRating: int, releaseYear: int, similarityScore: int)

  // ---------------------------------------------------------------- title lookup

  /** `df['Title'].str.lower() == title.lower()`; a title that is not a string never matches. */
  predicate ExactMatch(row: CatalogRow, title: string) {
    row.title.Text? && Lower(row.title.s) == Lower(title)
  }

  /** `df['Title'].str.contains(title, case=False, na=False)`, read as a plain substring. */
  predicate SubstringMatch(row: CatalogRow, title: string) {
    row.title.Text? && Contains(Lower(row.title.s), Lower(title))
  }

  /** The position of the first row satisfying `p`. */
  function FirstIndex(df: seq<CatalogRow>, p: CatalogRow -> bool): (r: Option<nat>)
    ensures r.Some? ==> r.value < |df| && p(df[r.value]) &&
                        forall j :: 0 <= j < r.value ==> !p(df[j])
    ensures r.None? ==> forall j :: 0 <= j < |df| ==> !p(df[j])
  {
    if df == [] then None
    else if p(df[0]) then Some(0)
    else
      var r := FirstIndex(df[1..], p);
      if r.None? then None else Some(r.value + 1)
  }

  /** The matched row: the first exact match if there is one, otherwise the first
      substring match. */
  function MatchIndex(df: seq<CatalogRow>, title: string): (r: Option<nat>)
    ensures r.Some? ==> r.value < |df|
  {
    var exact := FirstIndex(df, (row: CatalogRow) => ExactMatch(row, title));
    if exact.Some? then exact else FirstIndex(df, (row: CatalogRow) => SubstringMatch(row, title))
  }

  /** An exact match wins over any substring match, the first one in catalog order
      is used, and there is no match only when no row matches either way. */
  lemma MatchPrecedence(df: seq<CatalogRow>, title: string)
    ensures var r := MatchIndex(df, title);
      ((exists j :: 0 <= j < |df| && ExactMatch(df[j], title)) ==>
         r.Some? && ExactMatch(df[r.value], title) && forall j :: 0 <= j < r.value ==> !ExactMatch(df[j], title)) &&
      ((forall j :: 0 <= j < |df| ==> !ExactMatch(df[j], title)) ==>
         (r.Some? <==> exists j :: 0 <= j < |df| && SubstringMatch(df[j], title))) &&
      (r.Some? && !ExactMatch(df[r.value], title) ==>
         SubstringMatch(df[r.value], title) && forall j :: 0 <= j < r.value ==> !SubstringMatch(df[j], title))
  {
  }

  /** An exact match is also a substring match, so a title found at all is found
      by the fallback. */
  lemma ExactIsSubstring(row: CatalogRow, title: string)
    requires ExactMatch(row, title)
    ensures SubstringMatch(row, title)
  {
    assert OccursAt(Lower(row.title.s), Lower(title), 0);
  }

  // ---------------------------------------------------------------- candidate order

  /** `0, 1, ..., n-1`. */
  function Range(n: nat): (r: seq<nat>)
    ensures |r| == n
    ensures forall i :: 0 <= i < n ==> r[i] == i
  {
    seq(n, i requires 0 <= i < n => i)
  }

  /** `sorted(enumerate(similarity[idx]), key=score, reverse=True)`, as positions:
      a stable sort by descending score. */
  function Ranked(sim: Similarity, idx: nat): (r: seq<nat>)
    ensures multiset(r) == multiset(Range(sim.size))
    ensures |r| == sim.size
    ensures Ordered(r, (j: nat) => [sim.score(idx, j)], true)
  {
    SortBy(Range(sim.size), (j: nat) => [sim.score(idx, j)], true)
  }

  /** The positions the loop keeps: the ranked ones without `idx`, stopping once
      `limit` are kept. */
  function TopIndices(ranked: seq<nat>, idx: nat, limit: int): (r: seq<nat>)
    ensures |r| <= |ranked| && (limit <= 0 ==> r == [])
    ensures limit > 0 ==> |r| <= limit
    ensures idx !in r
  {
    var kept := Filter(ranked, (j: nat) => j != idx);
    var r := Take(kept, limit);
    TakeMembers(kept, limit);
    r
  }

  /** The positions `get_recommendations` reports for the matched row `idx`. */
  function Candidates(sim: Similarity, idx: nat, limit: int): seq<nat> {
    TopIndices(Ranked(sim, idx), idx, limit)
  }

  // ---------------------------------------------------------------- result rows

  /** `", ".join` of the platforms whose flag is 1, or "None". */
  function PlatformLabel(row: CatalogRow): (text: string)
    ensures text == "None" <==>
      row.netflix != 1 && row.hulu != 1 && row.primeVideo != 1 && row.disneyPlus != 1
  {
    var names := AvailablePlatforms(row);
    if names == [] then "None" else Join(names, ", ")
  }

  /** The platforms with flag 1, in the order Netflix, Hulu, Prime Video, Disney+. */
  function AvailablePlatforms(row: CatalogRow): (names: seq<string>)
    ensures forall p :: p in names ==> p in Platforms
    ensures "Netflix" in names <==> row.netflix == 1
    ensures "Hulu" in names <==> row.hulu == 1
    ensures "Prime Video" in names <==> row.primeVideo == 1
    ensures "Disney+" in names <==> row.disneyPlus == 1
  {
    (if row.netflix == 1 then ["Netflix"] else []) +
    (if row.hulu == 1 then ["Hulu"] else []) +
    (if row.primeVideo == 1 then ["Prime Video"] else []) +
    (if row.disneyPlus == 1 then ["Disney+"] else [])
  }

  /** The reported fields of one candidate row. */
  function RecommendationFor(row: CatalogRow, score: int): (r: Recommendation)
    ensures r.title == row.title && r.imdbRating == row.imdb && r.releaseYear == row.year
    ensures r.similarityScore == score && r.platform == PlatformLabel(row)
  {
    Recommendation(row.title, PlatformLabel(row), row.imdb, row.year, score)
  }

  /** The recommendations built from candidate positions `ids` of the row `idx`. */
  function RecommendationsFor(df: seq<CatalogRow>, sim: Similarity, idx: nat, ids: seq<nat>): (r: seq<Recommendation>)
    requires forall k :: 0 <= k < |ids| ==> ids[k] < |df|
    ensures |r| == |ids|
    ensures forall k :: 0 <= k < |ids| ==> r[k] == RecommendationFor(df[ids[k]], sim.score(idx, ids[k]))
  {
    seq(|ids|, k requires 0 <= k < |ids| => RecommendationFor(df[ids[k]], sim.score(idx, ids[k])))
  }

  /** The matrix is aligned with the catalog whenever the catalog is not empty. */
  predicate Aligned(df: seq<CatalogRow>, sim: Option<Similarity>) {
    |df| > 0 && sim.Some? ==> sim.value.size == |df|
  }

  lemma CandidatesInRange(sim: Similarity, idx: nat, limit: int)
    ensures forall k :: 0 <= k < |Candidates(sim, idx, limit)| ==> Candidates(sim, idx, limit)[k] < sim.size
  {
    var ranked := Ranked(sim, idx);
    var f := Filter(ranked, (j: nat) => j != idx);
    var c := Candidates(sim, idx, limit);
    forall k | 0 <= k < |c| ensures c[k] < sim.size {
      var j := c[k];
      assert f[k] == j;
      assert j in ranked;
      assert j in multiset(Range(sim.size));
    }
  }

  /** `get_recommendations(title, limit)`: nothing without a catalog, a matrix or
      a matching title; otherwise the recommendations for the matched row. */
  function Recommend(df: seq<CatalogRow>, sim: Option<Similarity>, title: string, limit: int): (r: seq<Recommendation>)
    requires Aligned(df, sim)
    ensures df == [] || sim.None? || MatchIndex(df, title).None? ==> r == []
    ensures df != [] && sim.Some? && MatchIndex(df, title).Some? ==>
      r == TopRecommendations(df, sim.value, MatchIndex(df, title).value, limit)
    ensures limit <= 0 ==> r == []
    ensures limit > 0 ==> |r| <= limit
    ensures df != [] ==> |r| < |df|
  {
    if df == [] || sim.None? then []
    else
      var m := MatchIndex(df, title);
      if m.None? then []
      else
        CandidatesShorter(sim.value, m.value, limit);
        TopRecommendations(df, sim.value, m.value, limit)
  }

  /** The recommendations for the matched row `idx`: one per candidate, carrying
      that row's fields and its score, in order of non-increasing score; equal
      scores keep catalog order, and a row left out (other than `idx`) scores no
      higher than any row reported. */
  function TopRecommendations(df: seq<CatalogRow>, sim: Similarity, idx: nat, limit: int): (r: seq<Recommendation>)
    requires sim.size == |df|
    ensures |r| == |Candidates(sim, idx, limit)|
    ensures forall k :: 0 <= k < |r| ==>
      Candidates(sim, idx, limit)[k] < |df| &&
      r[k] == RecommendationFor(df[Candidates(sim, idx, limit)[k]], sim.score(idx, Candidates(sim, idx, limit)[k]))
    ensures forall i, j :: 0 <= i < j < |r| ==> r[i].similarityScore >= r[j].similarityScore
    ensures forall other: nat :: other < |df| && other != idx && other !in Candidates(sim, idx, limit) ==>
      forall k :: 0 <= k < |r| ==> sim.score(idx, other) <= r[k].similarityScore
  {
    CandidatesInRange(sim, idx, limit);
    CandidatesOrdered(sim, idx, limit);
    var c := Candidates(sim, idx, limit);
    var r := RecommendationsFor(df, sim, idx, c);
    forall other: nat | other < |df| && other != idx && other !in c
      ensures forall k :: 0 <= k < |r| ==> sim.score(idx, other) <= r[k].similarityScore
    {
      CandidatesAreTop(sim, idx, limit, other);
    }
    r
  }

  /** The query row itself is dropped, so at most `size - 1` candidates remain. */
  lemma CandidatesShorter(sim: Similarity, idx: nat, limit: int)
    requires idx < sim.size
    ensures |Candidates(sim, idx, limit)| < sim.size
  {
    var ranked := Ranked(sim, idx);
    assert Range(sim.size)[idx] == idx;
    assert idx in multiset(ranked);
    assert idx in ranked;
    assert !(idx in Filter(ranked, (j: nat) => j != idx));
    FilterDropsOne(ranked, (j: nat) => j != idx, idx);
  }

  // ---------------------------------------------------------------- properties

  /** The candidates never include the query row, are distinct catalog positions,
      and come in order of non-increasing score; equal scores keep catalog order
      because the sort is stable. */
  lemma CandidatesOrdered(sim: Similarity, idx: nat, limit: int)
    ensures var c := Candidates(sim, idx, limit);
      idx !in c &&
      (forall i, j :: 0 <= i < j < |c| ==> sim.score(idx, c[i]) >= sim.score(idx, c[j])) &&
      (forall i, j :: 0 <= i < j < |c| && sim.score(idx, c[i]) == sim.score(idx, c[j]) ==> c[i] < c[j])
  {
    var key := (j: nat) => [sim.score(idx, j)];
    var ranked := Ranked(sim, idx);
    SortByStable(Range(sim.size), key, true, (j: nat) => j as int);
    var f := Filter(ranked, (j: nat) => j != idx);
    var c := Candidates(sim, idx, limit);
    forall i, j | 0 <= i < j < |c| ensures sim.score(idx, c[i]) >= sim.score(idx, c[j]) &&
                                           (sim.score(idx, c[i]) == sim.score(idx, c[j]) ==> c[i] < c[j]) {
      var a, b := SubsequencePositions(f, ranked, i, j);
      assert c[i] == f[i] == ranked[a] && c[j] == f[j] == ranked[b];
      assert !Precedes(key(ranked[b]), key(ranked[a]), true);
      RankLessSingleton(sim.score(idx, c[i]), sim.score(idx, c[j]));
    }
  }

  /** Nothing better is skipped: a row that is not the query and not among the
      candidates scores no higher than any candidate, and when fewer than `limit`
      candidates are returned every other row is among them. */
  lemma CandidatesAreTop(sim: Similarity, idx: nat, limit: int, other: nat)
    requires other < sim.size && other != idx && other !in Candidates(sim, idx, limit)
    ensures limit > 0 ==> |Candidates(sim, idx, limit)| == limit
    ensures forall k :: 0 <= k < |Candidates(sim, idx, limit)| ==>
      sim.score(idx, other) <= sim.score(idx, Candidates(sim, idx, limit)[k])
  {
    var ranked := Ranked(sim, idx);
    var f := Filter(ranked, (j: nat) => j != idx);
    var c := Candidates(sim, idx, limit);
    assert Range(sim.size)[other] == other;
    assert other in multiset(ranked);
    assert other in f;
    var m :| 0 <= m < |f| && f[m] == other;
    assert forall i :: 0 <= i < |c| ==> c[i] in c && f[i] == c[i] != other;
    assert m >= |c|;
    forall k | 0 <= k < |c| ensures sim.score(idx, other) <= sim.score(idx, c[k]) {
      assert c[k] == f[k];
      LaterScoresNoHigher(sim, idx, f, k, m);
    }
  }

  /** Along any subsequence of the ranking, a later position scores no higher. */
  lemma LaterScoresNoHigher(sim: Similarity, idx: nat, f: seq<nat>, k: int, m: int)
    requires IsSubsequence(f, Ranked(sim, idx)) && 0 <= k < m < |f|
    ensures sim.score(idx, f[m]) <= sim.score(idx, f[k])
  {
    var key := (j: nat) => [sim.score(idx, j)];
    var ranked := Ranked(sim, idx);
    var a, b := SubsequencePositions(f, ranked, k, m);
    assert !Precedes(key(ranked[b]), key(ranked[a]), true);
    RankLessSingleton(sim.score(idx, f[k]), sim.score(idx, f[m]));
  }
}
