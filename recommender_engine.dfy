/** The recommendation engine object: the catalog and the similarity matrix it
    keeps in its fields, the load step that sets them, and the two queries. */
module RecommenderEngine {
  import opened Common
  import opened Seqs
  import opened Catalog
  import opened Ranking
  import opened Curation

  /** The similarity matrix of a catalog, from a score between two rows (the
      cosine of their weighted feature vectors in the engine). */
  function SimilarityOf(df: seq<CatalogRow>, pairScore: (CatalogRow, CatalogRow) -> int): (sim: Similarity)
    ensures sim.size == |df|
    ensures forall i: nat, j: nat :: i < |df| && j < |df| ==> sim.score(i, j) == pairScore(df[i], df[j])
  {
    Similarity(|df|, (i: nat, j: nat) => if i < |df| && j < |df| then pairScore(df[i], df[j]) else 0)
  }

  /** A symmetric score between rows gives a symmetric matrix. */
  lemma SimilaritySymmetric(df: seq<CatalogRow>, pairScore: (CatalogRow, CatalogRow) -> int, i: nat, j: nat)
    requires forall a, b :: pairScore(a, b) == pairScore(b, a)
    ensures SimilarityOf(df, pairScore).score(i, j) == SimilarityOf(df, pairScore).score(j, i)
  {
  }

  class Recommender {
    var df: seq<CatalogRow>
    var similarity: Option<Similarity>

    /** The matrix is indexed by catalog position: whenever there is a catalog there
        is a matrix of its size. */
    ghost predicate Valid()
      reads this
    {
      Aligned(df, similarity)
    }

    /** `Recommender()`: no catalog and no matrix, then `load_data()`. */
    constructor (primary: Source<RawRow>, supplementary: Source<NewRecord>,
                 pairScore: (CatalogRow, CatalogRow) -> int)
      ensures Valid()
      ensures df == LoadCatalog(primary, supplementary)
      ensures df != [] ==> similarity == Some(SimilarityOf(df, pairScore))
      ensures df == [] ==> similarity.None?
    {
      df := [];
      similarity := None;
      new;
      LoadData(primary, supplementary, pairScore);
    }

    /** `load_data()`: the catalog is rebuilt from the two files; the matrix is
        replaced only when a non-empty catalog was built, and kept otherwise. */
    method LoadData(primary: Source<RawRow>, supplementary: Source<NewRecord>,
                    pairScore: (CatalogRow, CatalogRow) -> int)
      modifies this
      ensures Valid()
      ensures df == LoadCatalog(primary, supplementary)
      ensures df != [] ==> similarity == Some(SimilarityOf(df, pairScore))
      ensures df == [] ==> similarity == old(similarity)
    {
      if !primary.Loaded? {
        df := [];
        return;
      }
      var extra: Option<seq<RawRow>> := Some([]);
      if supplementary.Unreadable? {
        df := [];
        return;
      } else if supplementary.Loaded? {
        extra := NormalizeRecords(supplementary.records);
        if extra.None? {
          df := [];
          return;
        }
      }
      assert extra == SupplementaryRows(supplementary);
      var combined := primary.records + extra.value;
      if combined == [] || MissingColumn(combined) || VectorisationFails(combined) {
        df := [];
        return;
      }
      var rows := CoerceRows(combined);
      df := rows;
      similarity := Some(SimilarityOf(rows, pairScore));
    }

    /** `get_recommendations(title, limit)`: nothing without a catalog, a matrix or
        a matching title; otherwise the best-scoring other rows. */
    method GetRecommendations(title: string, limit: int) returns (recs: seq<Recommendation>)
      requires Valid()
      ensures recs == Recommend(df, similarity, title, limit)
    {
      if df == [] || similarity.None? {
        return [];
      }
      var m := MatchIndex(df, title);
      if m.None? {
        return [];
      }
      recs := CollectTop(df, similarity.value, m.value, limit);
    }

    /** `get_curated_content()`. */
    method GetCuratedContent() returns (c: Curated)
      ensures c == CuratedContent(df)
    {
      if df == [] {
        return NoCatalog;
      }
      var directors := DirectorsColumn(df);
      var trending := FormatList(Bucket(df, TrendingQualifies, ByRating), directors);
      var topRated := FormatList(Bucket(df, TopRatedQualifies, ByRating), directors);
      var netflix := FormatList(Bucket(df, NetflixQualifies, ByYear), directors);
      assert trending == FormatAll(Bucket(df, TrendingQualifies, ByRating), directors);
      assert topRated == FormatAll(Bucket(df, TopRatedQualifies, ByRating), directors);
      assert netflix == FormatAll(Bucket(df, NetflixQualifies, ByYear), directors);
      c := Buckets(trending, topRated, netflix);
    }
  }

  /** The loop of `get_recommendations`: walks the ranked positions, skipping the
      matched row and stopping once `limit` recommendations are collected. */
  method CollectTop(df: seq<CatalogRow>, sim: Similarity, idx: nat, limit: int) returns (recs: seq<Recommendation>)
    requires sim.size == |df|
    ensures recs == TopRecommendations(df, sim, idx, limit)
  {
    var ranked := Ranked(sim, idx);
    RankedInRange(sim, idx);
    var p := (j: nat) => j != idx;
    recs := [];
    ghost var kept: seq<nat> := [];
    var k := 0;
    while k < |ranked|
      invariant 0 <= k <= |ranked|
      invariant kept == Filter(ranked[..k], p)
      invariant |kept| <= if limit <= 0 then 0 else limit
      invariant forall n :: 0 <= n < |kept| ==> kept[n] < |df|
      invariant recs == RecommendationsFor(df, sim, idx, kept)
    {
      var i := ranked[k];
      FilterStep(ranked, k, p);
      if i == idx {
        k := k + 1;
        continue;
      }
      if |recs| >= limit {
        break;
      }
      RecommendationsAppend(df, sim, idx, kept, i);
      recs := recs + [RecommendationFor(df[i], sim.score(idx, i))];
      kept := kept + [i];
      k := k + 1;
    }
    FilterSplit(ranked, k, p);
    TakeOfPrefix(kept, Filter(ranked[k..], p), limit, k == |ranked|);
    assert Candidates(sim, idx, limit) == kept;
  }

  /** The supplementary records mapped one by one, stopping at the first that
      cannot be mapped. */
  method NormalizeRecords(items: seq<NewRecord>) returns (r: Option<seq<RawRow>>)
    ensures r == NormalizeAll(items)
  {
    var normalized: seq<RawRow> := [];
    var i := 0;
    while i < |items|
      invariant 0 <= i <= |items|
      invariant NormalizeAll(items[..i]) == Some(normalized)
    {
      var entry := NormalizeNew(items[i]);
      if entry.None? {
        assert items[..i + 1][i] == items[i];
        assert NormalizeAll(items).None?;
        return None;
      }
      assert items[..i + 1][..i] == items[..i];
      normalized := normalized + [entry.value];
      i := i + 1;
    }
    assert items[..|items|] == items;
    return Some(normalized);
  }

  /** The numeric columns coerced row by row. */
  method CoerceRows(combined: seq<RawRow>) returns (rows: seq<CatalogRow>)
    ensures rows == CoerceAll(combined)
  {
    rows := [];
    var k := 0;
    while k < |combined|
      invariant 0 <= k <= |combined|
      invariant |rows| == k
      invariant forall m :: 0 <= m < k ==> rows[m] == Coerce(combined[m])
    {
      rows := rows + [Coerce(combined[k])];
      k := k + 1;
    }
  }

  /** One more position examined: the kept list grows by it exactly when it passes. */
  lemma FilterStep(ranked: seq<nat>, k: int, p: nat -> bool)
    requires 0 <= k < |ranked|
    ensures Filter(ranked[..k + 1], p) == Filter(ranked[..k], p) + (if p(ranked[k]) then [ranked[k]] else [])
  {
    assert ranked[..k + 1] == ranked[..k] + [ranked[k]];
    FilterAppend(ranked[..k], [ranked[k]], p);
  }

  lemma FilterSplit(ranked: seq<nat>, k: int, p: nat -> bool)
    requires 0 <= k <= |ranked|
    ensures Filter(ranked, p) == Filter(ranked[..k], p) + Filter(ranked[k..], p)
    ensures k == |ranked| ==> Filter(ranked[k..], p) == []
  {
    assert ranked == ranked[..k] + ranked[k..];
    FilterAppend(ranked[..k], ranked[k..], p);
  }

  lemma RecommendationsAppend(df: seq<CatalogRow>, sim: Similarity, idx: nat, ids: seq<nat>, i: nat)
    requires forall n :: 0 <= n < |ids| ==> ids[n] < |df|
    requires i < |df|
    ensures forall n :: 0 <= n < |ids + [i]| ==> (ids + [i])[n] < |df|
    ensures RecommendationsFor(df, sim, idx, ids + [i]) ==
            RecommendationsFor(df, sim, idx, ids) + [RecommendationFor(df[i], sim.score(idx, i))]
  {
    var ids' := ids + [i];
    assert forall n :: 0 <= n < |ids'| ==> ids'[n] < |df| by {
      forall n | 0 <= n < |ids'| ensures ids'[n] < |df| {
        if n < |ids| { assert ids'[n] == ids[n]; }
      }
    }
  }

  lemma RankedInRange(sim: Similarity, idx: nat)
    ensures forall k :: 0 <= k < |Ranked(sim, idx)| ==> Ranked(sim, idx)[k] < sim.size
  {
    var ranked := Ranked(sim, idx);
    forall k | 0 <= k < |ranked| ensures ranked[k] < sim.size {
      assert ranked[k] in multiset(Range(sim.size));
    }
  }

  /** The loop's result is the first `limit` kept positions: either it ran to the
      end with at most `limit` kept, or it stopped with exactly that many. */
  lemma TakeOfPrefix(a: seq<nat>, b: seq<nat>, limit: int, atEnd: bool)
    requires |a| <= (if limit <= 0 then 0 else limit)
    requires atEnd ==> b == []
    requires !atEnd ==> |a| >= limit
    ensures Take(a + b, limit) == a
  {
    if atEnd {
      assert a + b == a;
    } else if limit > 0 {
      assert (a + b)[..limit] == a;
    }
  }
}
