/** The trending-movies panel: the release-year choice and three multi-select
    facets, the results ordered by rating and then by box-office collection, the
    first hundred cards, and the list of upcoming 2026 releases. */
module TrendingMovies {
  import opened Common
  import opened Seqs

  /** A record of the bundled movie list; a missing rating or collection is None. */
  datatype Movie = Movie(
    movieId: string, title: string, releaseYear: nat, industry: string, category: string,
    platform: string, imdbRating: Option<int>, collection: Option<int>, status: string)

  /** The filter state: "All" or a year, and the chosen values of each facet. */
  datatype Facets = Facets(releaseYear: string, industry: seq<string>, category: seq<string>, platform: seq<string>)

  datatype Facet = Industry | Category | Platform

  const NoFacets: Facets := Facets("All", [], [], [])

  const MaxCards: nat := 100
  const MaxUpcoming: nat := 8

  // ---------------------------------------------------------------- toggling

  function Differs(v: string): string -> bool {
    (x: string) => x != v
  }

  /** The chosen values after clicking `value`: removed when chosen, appended when not. */
  function Toggle(current: seq<string>, value: string): (updated: seq<string>)
    ensures value in current ==> value !in updated && forall x :: x in updated <==> x in current && x != value
    ensures value !in current ==> updated == current + [value]
  {
    if value in current then Filter(current, Differs(value)) else current + [value]
  }

  /** Clicking a value that was not chosen twice gives back the same list. */
  lemma ToggleTwice(current: seq<string>, value: string)
    requires value !in current
    ensures Toggle(Toggle(current, value), value) == current
  {
    var once := current + [value];
    assert value in once;
    FilterAppend(current, [value], Differs(value));
    FilterAll(current, Differs(value));
    assert Filter([value], Differs(value)) == [] by {
      assert [value][1..] == [];
    }
  }

  /** `toggleFilter(type, value)`: only the named facet changes. */
  function ToggleFilter(f: Facets, facet: Facet, value: string): (g: Facets)
    ensures g.releaseYear == f.releaseYear
    ensures g.industry == (if facet == Industry then Toggle(f.industry, value) else f.industry)
    ensures g.category == (if facet == Category then Toggle(f.category, value) else f.category)
    ensures g.platform == (if facet == Platform then Toggle(f.platform, value) else f.platform)
  {
    match facet
    case Industry => f.(industry := Toggle(f.industry, value))
    case Category => f.(category := Toggle(f.category, value))
    case Platform => f.(platform := Toggle(f.platform, value))
  }

  // ---------------------------------------------------------------- filtering

  /** An empty selection places no constraint; otherwise the value must be chosen. */
  predicate FacetOk(chosen: seq<string>, value: string) {
    |chosen| == 0 || value in chosen
  }

  predicate Matches(f: Facets, m: Movie) {
    (f.releaseYear == "All" || NatToString(m.releaseYear) == f.releaseYear) &&
    FacetOk(f.industry, m.industry) && FacetOk(f.category, m.category) && FacetOk(f.platform, m.platform)
  }

  function MatchesFacets(f: Facets): Movie -> bool {
    (m: Movie) => Matches(f, m)
  }

  /** `imdb_rating || 0` then `total_collection_crore || 0`. */
  function SortKey(m: Movie): Rank {
    [m.imdbRating.GetOr(0), m.collection.GetOr(0)]
  }

  /** `filteredMovies`: the matching movies, best rated first, ties by larger collection. */
  function FilteredMovies(movies: seq<Movie>, f: Facets): (r: seq<Movie>)
    ensures multiset(r) == multiset(Filter(movies, MatchesFacets(f)))
    ensures forall m :: m in r <==> m in movies && Matches(f, m)
    ensures forall i, j :: 0 <= i < j < |r| ==>
      r[i].imdbRating.GetOr(0) > r[j].imdbRating.GetOr(0) ||
      (r[i].imdbRating.GetOr(0) == r[j].imdbRating.GetOr(0) && r[i].collection.GetOr(0) >= r[j].collection.GetOr(0))
  {
    var kept := Filter(movies, MatchesFacets(f));
    var r := SortBy(kept, SortKey, true);
    assert forall m :: m in r <==> m in multiset(kept);
    forall i, j | 0 <= i < j < |r|
      ensures r[i].imdbRating.GetOr(0) > r[j].imdbRating.GetOr(0) ||
        (r[i].imdbRating.GetOr(0) == r[j].imdbRating.GetOr(0) && r[i].collection.GetOr(0) >= r[j].collection.GetOr(0))
    {
      RankLessPair(r[i].imdbRating.GetOr(0), r[i].collection.GetOr(0), r[j].imdbRating.GetOr(0), r[j].collection.GetOr(0));
    }
    r
  }

  /** With no year and no facet chosen, every movie is listed. */
  lemma NoFacetsKeepAll(movies: seq<Movie>)
    ensures multiset(FilteredMovies(movies, NoFacets)) == multiset(movies)
  {
    FilterAll(movies, MatchesFacets(NoFacets));
  }

  /** A chosen year admits only movies released that year. That every such
      movie is kept, given the other facets, follows from `FilteredMovies`. */
  lemma YearChoice(movies: seq<Movie>, f: Facets, year: nat, m: Movie)
    requires f.releaseYear == NatToString(year) && m in FilteredMovies(movies, f)
    ensures m.releaseYear == year
  {
    assert f.releaseYear != "All" by {
      assert IsDigit(NatToString(year)[0]);
    }
    NatToStringInjective(m.releaseYear, year);
  }

  /** `filteredMovies.slice(0, 100)`: the cards rendered. */
  function Cards(movies: seq<Movie>, f: Facets): (cards: seq<Movie>)
    ensures |cards| <= MaxCards
    ensures forall m :: m in cards ==> m in movies && Matches(f, m)
    ensures |cards| == if |FilteredMovies(movies, f)| < MaxCards then |FilteredMovies(movies, f)| else MaxCards
    ensures forall i :: 0 <= i < |cards| ==> cards[i] == FilteredMovies(movies, f)[i]
  {
    var all := FilteredMovies(movies, f);
    var cards := Take(all, MaxCards);
    assert forall m :: m in cards ==> m in all;
    cards
  }

  // ---------------------------------------------------------------- upcoming

  predicate UpcomingIn2026(m: Movie) {
    m.releaseYear == 2026 && m.status == "upcoming"
  }

  /** `upcoming2026`: the first eight 2026 movies marked upcoming, in list order. */
  function Upcoming2026(movies: seq<Movie>): (r: seq<Movie>)
    ensures |r| <= MaxUpcoming
    ensures forall m :: m in r ==> m in movies && UpcomingIn2026(m)
    ensures IsSubsequence(r, movies)
    ensures |Filter(movies, UpcomingIn2026)| <= MaxUpcoming ==> r == Filter(movies, UpcomingIn2026)
    ensures |r| == if |Filter(movies, UpcomingIn2026)| < MaxUpcoming then |Filter(movies, UpcomingIn2026)| else MaxUpcoming
    ensures forall i :: 0 <= i < |r| ==> r[i] == Filter(movies, UpcomingIn2026)[i]
  {
    var all := Filter(movies, UpcomingIn2026);
    var r := Take(all, MaxUpcoming);
    assert forall m :: m in r ==> m in all;
    TakeSubsequence(all, MaxUpcoming);
    SubsequenceTransitive(r, all, movies);
    r
  }
}
