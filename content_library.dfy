/** The admin content library: the two catalogue files normalised into one list,
    the search box and filters that narrow it, the sort that reorders it in place,
    and the pages of 15 rows. */
module ContentLibrary {
  import opened Common
  import opened Seqs
  import opened Catalog
  import opened Js
  import Paging

  const PageLimit: nat := 15

  /** A record of the new-release file. */
  datatype NewItem = NewItem(title: Value, year: Value, imdbRating: Value, kind: Value, platform: Value)

  /** A record of the main catalogue file: the columns the page reads. */
  datatype FinalItem = FinalItem(
    title: Value, year: Value, imdb: Value, kind: Value,
    netflix: Value, primeVideo: Value, hulu: Value, disneyPlus: Value, isNew: Value)

  /** A row of the library. */
  datatype Item = Item(
    id: string, title: Value, year: Value, imdb: Value, kind: Value,
    netflix: Value, primeVideo: Value, hulu: Value, disneyPlus: Value, isNew: Value)

  /** The filter panel; `minRating` is in tenths of a point, like the ratings. */
  datatype Filters = Filters(kind: string, sort: string, order: string, platform: string, year: string, minRating: int)

  const DefaultFilters: Filters := Filters("all", "year", "desc", "all", "all", 0)

  // ---------------------------------------------------------------- normalisation

  /** `item.platform === name ? 1 : 0`. */
  function OneHot(platform: Value, name: string): (flag: Value)
    ensures flag == Number(1) || flag == Number(0)
    ensures flag == Number(1) <==> platform == Str(name)
  {
    if platform == Str(name) then Number(1) else Number(0)
  }

  /** `item[name]` for a platform column; any other name reads as `undefined`. */
  function PlatformOf(item: Item, name: string): (v: Value)
    ensures name !in Platforms ==> v == Undefined
  {
    if name == "Netflix" then item.netflix
    else if name == "Prime Video" then item.primeVideo
    else if name == "Hulu" then item.hulu
    else if name == "Disney+" then item.disneyPlus
    else Undefined
  }

  /** A new-release record at position `idx` as a library row. */
  function NormalizeNew(item: NewItem, idx: nat): Item {
    Item("new-" + NatToString(idx), item.title, item.year, item.imdbRating, item.kind,
         OneHot(item.platform, "Netflix"), OneHot(item.platform, "Prime Video"),
         OneHot(item.platform, "Hulu"), OneHot(item.platform, "Disney+"), Bool(true))
  }

  /** A catalogue record at position `idx` as a library row: its own columns, with
      the year and rating made numeric. */
  function NormalizeFinal(item: FinalItem, idx: nat): Item {
    Item("final-" + NatToString(idx), item.title, ParseInt(item.year), ParseFloat(item.imdb), item.kind,
         item.netflix, item.primeVideo, item.hulu, item.disneyPlus, item.isNew)
  }

  /** A new-release row is marked new, keeps the record's title, year, rating and
      type, and has exactly the flag of its `platform` set (none when that is not
      one of the four platforms). */
  lemma NewItemShape(item: NewItem, idx: nat)
    ensures var r := NormalizeNew(item, idx);
      r.id == "new-" + NatToString(idx) && r.isNew == Bool(true) &&
      r.title == item.title && r.year == item.year && r.imdb == item.imdbRating && r.kind == item.kind
    ensures var r := NormalizeNew(item, idx);
      forall p :: p in Platforms ==>
        (PlatformOf(r, p) == Number(1) <==> item.platform == Str(p)) &&
        (PlatformOf(r, p) == Number(0) <==> item.platform != Str(p))
    ensures var r := NormalizeNew(item, idx);
      |set p | p in Platforms && PlatformOf(r, p) == Number(1)| <= 1
  {
    var r := NormalizeNew(item, idx);
    var on := set p | p in Platforms && PlatformOf(r, p) == Number(1);
    if item.platform.Str? && item.platform.s in Platforms {
      assert on == {item.platform.s};
    } else {
      assert on == {};
    }
  }

  /** A catalogue row keeps the record's other columns, and its year and rating are
      numbers or `NaN`; a numeric year or rating is unchanged. */
  lemma FinalItemShape(item: FinalItem, idx: nat)
    ensures var r := NormalizeFinal(item, idx);
      r.id == "final-" + NatToString(idx) &&
      (r.year.Number? || r.year.NaN?) && (r.imdb.Number? || r.imdb.NaN?) &&
      (item.year.Number? ==> r.year == item.year) && (item.imdb.Number? ==> r.imdb == item.imdb) &&
      r.title == item.title && r.kind == item.kind && r.isNew == item.isNew &&
      r.netflix == item.netflix && r.primeVideo == item.primeVideo &&
      r.hulu == item.hulu && r.disneyPlus == item.disneyPlus
  {
  }

  function NormalizeNewAll(items: seq<NewItem>): (r: seq<Item>)
    ensures |r| == |items|
    ensures forall k :: 0 <= k < |items| ==> r[k] == NormalizeNew(items[k], k)
  {
    seq(|items|, k requires 0 <= k < |items| => NormalizeNew(items[k], k))
  }

  function NormalizeFinalAll(items: seq<FinalItem>): (r: seq<Item>)
    ensures |r| == |items|
    ensures forall k :: 0 <= k < |items| ==> r[k] == NormalizeFinal(items[k], k)
  {
    seq(|items|, k requires 0 <= k < |items| => NormalizeFinal(items[k], k))
  }

  /** `combined`: the new releases first, then the catalogue. */
  function Combined(newData: seq<NewItem>, finalData: seq<FinalItem>): seq<Item> {
    NormalizeNewAll(newData) + NormalizeFinalAll(finalData)
  }

  /** Every new-release row comes before every catalogue row, each in file order. */
  lemma CombinedOrder(newData: seq<NewItem>, finalData: seq<FinalItem>)
    ensures var c := Combined(newData, finalData);
      |c| == |newData| + |finalData| &&
      (forall k :: 0 <= k < |newData| ==> c[k] == NormalizeNew(newData[k], k)) &&
      (forall k :: 0 <= k < |finalData| ==> c[|newData| + k] == NormalizeFinal(finalData[k], k))
  {
    var a, b := NormalizeNewAll(newData), NormalizeFinalAll(finalData);
    var c := a + b;
    forall k | 0 <= k < |newData| ensures c[k] == NormalizeNew(newData[k], k) {
      assert c[k] == a[k];
    }
    forall k | 0 <= k < |finalData| ensures c[|newData| + k] == NormalizeFinal(finalData[k], k) {
      assert c[|newData| + k] == b[k];
    }
  }

  lemma PrefixedInjective(prefix: string, a: nat, b: nat)
    requires prefix + NatToString(a) == prefix + NatToString(b)
    ensures a == b
  {
    assert (prefix + NatToString(a))[|prefix|..] == NatToString(a);
    assert (prefix + NatToString(b))[|prefix|..] == NatToString(b);
    NatToStringInjective(a, b);
  }

  /** No two rows of the combined list share an id. */
  lemma CombinedIdsDistinct(newData: seq<NewItem>, finalData: seq<FinalItem>)
    ensures var c := Combined(newData, finalData);
      forall i, j :: 0 <= i < j < |c| ==> c[i].id != c[j].id
  {
    var c := Combined(newData, finalData);
    var n := |newData|;
    forall i, j | 0 <= i < j < |c| ensures c[i].id != c[j].id {
      if j < n {
        if c[i].id == c[j].id { PrefixedInjective("new-", i, j); }
      } else if i >= n {
        if c[i].id == c[j].id { PrefixedInjective("final-", i - n, j - n); }
      } else {
        assert c[i].id[0] == 'n' && c[j].id[0] == 'f';
      }
    }
  }

  // ---------------------------------------------------------------- filtering

  /** The title contains the search term, both lowercased. */
  predicate SearchOk(item: Item, term: string) {
    Contains(Lower(TextOf(item.title)), Lower(term))
  }

  predicate TypeOk(item: Item, kind: string) {
    Lower(TextOf(item.kind)) == Lower(kind)
  }

  /** `item[platform] === 1`. */
  predicate PlatformOk(item: Item, platform: string) {
    PlatformOf(item, platform) == Number(1)
  }

  /** `item.Year === parseInt(year)`: never true when the choice does not parse. */
  predicate YearOk(item: Item, year: string) {
    ParseInt(Str(year)).Number? && item.year == ParseInt(Str(year))
  }

  /** `(item.IMDb || 0) >= minRating`. */
  predicate RatingOk(item: Item, minRating: int) {
    TenthsOrZero(item.imdb) >= minRating
  }

  function SearchBy(term: string): Item -> bool { (item: Item) => SearchOk(item, term) }
  function TypeBy(kind: string): Item -> bool { (item: Item) => TypeOk(item, kind) }
  function PlatformBy(platform: string): Item -> bool { (item: Item) => PlatformOk(item, platform) }
  function YearBy(year: string): Item -> bool { (item: Item) => YearOk(item, year) }
  function RatingBy(minRating: int): Item -> bool { (item: Item) => RatingOk(item, minRating) }

  /** Whether any stage runs: a search term, a type, platform or year other than
      "all", or a positive minimum rating. */
  predicate Narrows(f: Filters, term: string) {
    term != "" || f.kind != "all" || f.platform != "all" || f.year != "all" || f.minRating > 0
  }

  /** The conditions of the stages that run. */
  predicate Admits(f: Filters, term: string, item: Item) {
    (term != "" ==> SearchOk(item, term)) &&
    (f.kind != "all" ==> TypeOk(item, f.kind)) &&
    (f.platform != "all" ==> PlatformOk(item, f.platform)) &&
    (f.year != "all" ==> YearOk(item, f.year)) &&
    (f.minRating > 0 ==> RatingOk(item, f.minRating))
  }

  /** One stage: `s.filter(p)` when `on`, otherwise `s` itself. */
  function Stage(s: seq<Item>, on: bool, p: Item -> bool): seq<Item> {
    if on then Filter(s, p) else s
  }

  /** The search and filter stages in page order, each applied only when set. */
  function Stages(content: seq<Item>, f: Filters, term: string): seq<Item> {
    var s1 := Stage(content, term != "", SearchBy(term));
    var s2 := Stage(s1, f.kind != "all", TypeBy(f.kind));
    var s3 := Stage(s2, f.platform != "all", PlatformBy(f.platform));
    var s4 := Stage(s3, f.year != "all", YearBy(f.year));
    Stage(s4, f.minRating > 0, RatingBy(f.minRating))
  }

  lemma StageNarrows(s: seq<Item>, on: bool, p: Item -> bool)
    ensures IsSubsequence(Stage(s, on, p), s)
    ensures forall x :: x in Stage(s, on, p) <==> x in s && (on ==> p(x))
  {
    if !on {
      SubsequenceReflexive(s);
    }
  }

  /** Each stage only narrows: the rows that remain are, in their order, rows of the
      content, and a row remains exactly when it meets every stage that runs. */
  lemma StagesNarrow(content: seq<Item>, f: Filters, term: string)
    ensures IsSubsequence(Stages(content, f, term), content)
    ensures |Stages(content, f, term)| <= |content|
    ensures forall x :: x in Stages(content, f, term) <==> x in content && Admits(f, term, x)
  {
    StagesSubsequence(content, f, term);
    SubsequenceLength(Stages(content, f, term), content);
    StagesMembership(content, f, term);
  }

  lemma StagesSubsequence(content: seq<Item>, f: Filters, term: string)
    ensures IsSubsequence(Stages(content, f, term), content)
  {
    var s1 := Stage(content, term != "", SearchBy(term));
    var s2 := Stage(s1, f.kind != "all", TypeBy(f.kind));
    var s3 := Stage(s2, f.platform != "all", PlatformBy(f.platform));
    var s4 := Stage(s3, f.year != "all", YearBy(f.year));
    StageNarrows(content, term != "", SearchBy(term));
    StageNarrows(s1, f.kind != "all", TypeBy(f.kind));
    StageNarrows(s2, f.platform != "all", PlatformBy(f.platform));
    StageNarrows(s3, f.year != "all", YearBy(f.year));
    StageNarrows(s4, f.minRating > 0, RatingBy(f.minRating));
    SubsequenceTransitive(s2, s1, content);
    SubsequenceTransitive(s3, s2, content);
    SubsequenceTransitive(s4, s3, content);
    SubsequenceTransitive(Stages(content, f, term), s4, content);
  }

  lemma StagesMembership(content: seq<Item>, f: Filters, term: string)
    ensures forall x :: x in Stages(content, f, term) <==> x in content && Admits(f, term, x)
  {
    var s1 := Stage(content, term != "", SearchBy(term));
    var s2 := Stage(s1, f.kind != "all", TypeBy(f.kind));
    var s3 := Stage(s2, f.platform != "all", PlatformBy(f.platform));
    var s4 := Stage(s3, f.year != "all", YearBy(f.year));
    forall x ensures x in Stages(content, f, term) <==> x in content && Admits(f, term, x) {
      StageMember(content, term != "", SearchBy(term), x);
      StageMember(s1, f.kind != "all", TypeBy(f.kind), x);
      StageMember(s2, f.platform != "all", PlatformBy(f.platform), x);
      StageMember(s3, f.year != "all", YearBy(f.year), x);
      StageMember(s4, f.minRating > 0, RatingBy(f.minRating), x);
    }
  }

  lemma StageMember(s: seq<Item>, on: bool, p: Item -> bool, x: Item)
    ensures x in Stage(s, on, p) <==> x in s && (on ==> p(x))
  {
    StageNarrows(s, on, p);
  }

  /** With no search term, every choice "all" and a minimum rating of 0, nothing is
      filtered out. */
  lemma NoStageKeepsAll(content: seq<Item>, f: Filters)
    requires !Narrows(f, "")
    ensures Stages(content, f, "") == content
  {
  }

  // ---------------------------------------------------------------- sorting

  function YearKey(item: Item): Rank { [WholeOrZero(item.year)] }
  function ImdbKey(item: Item): Rank { [TenthsOrZero(item.imdb)] }
  function TitleKey(item: Item): Rank { StringRank(TextOf(item.title)) }

  /** The compared value for `filters.sort`: the year, the rating, or else the title. */
  function SortKey(sort: string): Item -> Rank {
    if sort == "year" then YearKey else if sort == "imdb" then ImdbKey else TitleKey
  }

  /** Any order other than "asc" sorts in descending order. */
  predicate Descending(f: Filters) { f.order != "asc" }

  /** `filteredContent` as a sequence. */
  function FilteredRows(content: seq<Item>, f: Filters, term: string): seq<Item> {
    SortBy(Stages(content, f, term), SortKey(f.sort), Descending(f))
  }

  /** The sorted rows are the filtered rows reordered, and are non-increasing in the
      chosen key for "desc" (non-decreasing for "asc"); ties stay in some order. */
  lemma FilteredRowsSorted(content: seq<Item>, f: Filters, term: string)
    ensures var r := FilteredRows(content, f, term);
      multiset(r) == multiset(Stages(content, f, term)) &&
      forall i, j :: 0 <= i < j < |r| ==>
        !Precedes(SortKey(f.sort)(r[j]), SortKey(f.sort)(r[i]), Descending(f))
  {
  }

  /** Sorting by year in descending order puts later years first. */
  lemma NewestFirst(content: seq<Item>, f: Filters, term: string)
    requires f.sort == "year" && f.order == "desc"
    ensures var r := FilteredRows(content, f, term);
      forall i, j :: 0 <= i < j < |r| ==> WholeOrZero(r[i].year) >= WholeOrZero(r[j].year)
  {
    var r := FilteredRows(content, f, term);
    forall i, j | 0 <= i < j < |r| ensures WholeOrZero(r[i].year) >= WholeOrZero(r[j].year) {
      assert !Precedes(YearKey(r[j]), YearKey(r[i]), true);
      RankLessSingleton(WholeOrZero(r[i].year), WholeOrZero(r[j].year));
    }
  }

  /** Sorting by rating in descending order puts higher ratings first. */
  lemma BestRatedFirst(content: seq<Item>, f: Filters, term: string)
    requires f.sort == "imdb" && f.order == "desc"
    ensures var r := FilteredRows(content, f, term);
      forall i, j :: 0 <= i < j < |r| ==> TenthsOrZero(r[i].imdb) >= TenthsOrZero(r[j].imdb)
  {
    var r := FilteredRows(content, f, term);
    forall i, j | 0 <= i < j < |r| ensures TenthsOrZero(r[i].imdb) >= TenthsOrZero(r[j].imdb) {
      assert !Precedes(ImdbKey(r[j]), ImdbKey(r[i]), true);
      RankLessSingleton(TenthsOrZero(r[i].imdb), TenthsOrZero(r[j].imdb));
    }
  }

  /** `Array.prototype.filter`: a new array of the kept elements. */
  method FilterArray(a: array<Item>, p: Item -> bool) returns (b: array<Item>)
    ensures fresh(b)
    ensures b[..] == Filter(a[..], p)
  {
    var kept := Filter(a[..], p);
    b := new Item[|kept|](k requires 0 <= k < |kept| => kept[k]);
  }

  /** One stage on arrays: a new array when it runs, the same array otherwise. */
  method ApplyStage(a: array<Item>, on: bool, p: Item -> bool) returns (b: array<Item>)
    ensures b[..] == Stage(a[..], on, p)
    ensures on ==> fresh(b)
    ensures !on ==> b == a
  {
    b := a;
    if on {
      b := FilterArray(a, p);
    }
  }

  /** The five stages on arrays: a new array when any of them runs, the same
      array when none does. */
  method ApplyStages(content: array<Item>, f: Filters, term: string) returns (result: array<Item>)
    ensures result[..] == Stages(content[..], f, term)
    ensures Narrows(f, term) ==> fresh(result)
    ensures !Narrows(f, term) ==> result == content
  {
    var r1 := ApplyStage(content, term != "", SearchBy(term));
    var r2 := ApplyStage(r1, f.kind != "all", TypeBy(f.kind));
    var r3 := ApplyStage(r2, f.platform != "all", PlatformBy(f.platform));
    var r4 := ApplyStage(r3, f.year != "all", YearBy(f.year));
    result := ApplyStage(r4, f.minRating > 0, RatingBy(f.minRating));
  }

  /** `Array.prototype.sort`: the same array, reordered. */
  method SortInPlace(a: array<Item>, key: Item -> Rank, desc: bool)
    modifies a
    ensures a[..] == SortBy(old(a[..]), key, desc)
  {
    var sorted := SortBy(a[..], key, desc);
    var i := 0;
    while i < a.Length
      invariant 0 <= i <= a.Length
      invariant forall k :: 0 <= k < i ==> a[k] == sorted[k]
    {
      a[i] := sorted[i];
      i := i + 1;
    }
    assert a[..] == sorted;
  }

  /** `paginatedData`: page `page` of 15 rows. */
  function PageRows(rows: seq<Item>, page: int): (r: seq<Item>)
    ensures |r| <= PageLimit
    ensures page >= 1 ==> forall i :: 0 <= i < |r| ==> (page - 1) * PageLimit + i < |rows| && r[i] == rows[(page - 1) * PageLimit + i]
  {
    Paging.Page(rows, page, PageLimit)
  }

  /** `totalPages`: every row is on one of them, and the last one is not empty. */
  function TotalPages(n: nat): (pages: nat)
    ensures n == 0 ==> pages == 0
    ensures n > 0 ==> (pages - 1) * PageLimit < n <= pages * PageLimit
  {
    Paging.PageCount(n, PageLimit)
  }

  // ---------------------------------------------------------------- year options

  function YearsOf(content: seq<Item>): (ys: seq<Value>)
    ensures |ys| == |content| && forall k :: 0 <= k < |content| ==> ys[k] == content[k].year
  {
    seq(|content|, k requires 0 <= k < |content| => content[k].year)
  }

  function Same(v: Value): Value { v }

  function YearRank(v: Value): Rank { [WholeOrZero(v)] }

  /** `years`: the truthy years of the content, each once, latest first. */
  function YearOptions(content: seq<Item>): seq<Value> {
    SortBy(KeepFirst(Filter(YearsOf(content), Truthy), Same), YearRank, true)
  }

  /** The year options are exactly the truthy years of the content, none twice, and
      in non-increasing numeric order. */
  lemma YearOptionsFacts(content: seq<Item>)
    ensures var ys := YearOptions(content);
      (forall y :: y in ys <==> Truthy(y) && exists k :: 0 <= k < |content| && content[k].year == y) &&
      Distinct(ys) &&
      forall i, j :: 0 <= i < j < |ys| ==> WholeOrZero(ys[i]) >= WholeOrZero(ys[j])
  {
    var all := Filter(YearsOf(content), Truthy);
    var once := KeepFirst(all, Same);
    var ys := SortBy(once, YearRank, true);
    forall y ensures y in ys <==> Truthy(y) && exists k :: 0 <= k < |content| && content[k].year == y {
      assert y in ys <==> y in multiset(once);
      assert y in once <==> y in KeysOf(once, Same);
      assert y in all <==> y in KeysOf(all, Same);
      if y in YearsOf(content) {
        var k :| 0 <= k < |content| && YearsOf(content)[k] == y;
      }
      if exists k :: 0 <= k < |content| && content[k].year == y {
        var k :| 0 <= k < |content| && content[k].year == y;
        assert YearsOf(content)[k] == y;
      }
    }
    assert Distinct(once) by {
      forall i, j | 0 <= i < j < |once| ensures once[i] != once[j] {
        assert Same(once[i]) != Same(once[j]);
      }
    }
    PermutationDistinct(once, ys);
    forall i, j | 0 <= i < j < |ys| ensures WholeOrZero(ys[i]) >= WholeOrZero(ys[j]) {
      assert !Precedes(YearRank(ys[j]), YearRank(ys[i]), true);
      RankLessSingleton(WholeOrZero(ys[i]), WholeOrZero(ys[j]));
    }
  }

  // ---------------------------------------------------------------- the page

  class ContentPage {
    var content: array<Item>
    var filters: Filters
    var searchTerm: string
    var page: int

    constructor ()
      ensures content.Length == 0 && filters == DefaultFilters && searchTerm == "" && page == 1
    {
      content := new Item[0];
      filters := DefaultFilters;
      searchTerm := "";
      page := 1;
    }

    /** The data load: on success the content becomes the combined list (a new
        array); when either file fails, the content stays as it was. */
    method Load(loaded: Option<(seq<NewItem>, seq<FinalItem>)>)
      modifies this
      ensures loaded.Some? ==> fresh(content) && content[..] == Combined(loaded.value.0, loaded.value.1)
      ensures loaded.None? ==> content == old(content)
      ensures filters == old(filters) && searchTerm == old(searchTerm) && page == old(page)
    {
      if loaded.Some? {
        var combined := Combined(loaded.value.0, loaded.value.1);
        content := new Item[|combined|](k requires 0 <= k < |combined| => combined[k]);
      }
    }

    function Rows(): seq<Item>
      reads this, content
    {
      FilteredRows(content[..], filters, searchTerm)
    }

    function PageCount(): nat
      reads this, content
    {
      TotalPages(|Stages(content[..], filters, searchTerm)|)
    }

    /** `filteredContent`. When a stage runs, the result is a new array and the
        content is left alone; when none runs, the result IS the content array,
        and the sort reorders the content itself. */
    method FilteredContent() returns (result: array<Item>)
      modifies content
      ensures result[..] == FilteredRows(old(content[..]), filters, searchTerm)
      ensures Narrows(filters, searchTerm) ==> fresh(result) && content[..] == old(content[..])
      ensures !Narrows(filters, searchTerm) ==> result == content
    {
      result := ApplyStages(content, filters, searchTerm);
      SortInPlace(result, SortKey(filters.sort), Descending(filters));
    }

    /** Typing in the search box: the term changes and the table returns to page 1. */
    method SetSearchTerm(term: string)
      modifies this
      ensures searchTerm == term && page == 1
      ensures content == old(content) && filters == old(filters)
    {
      searchTerm := term;
      page := 1;
    }

    /** A filter or sort control: the page number is left as it was. */
    method SetFilters(f: Filters)
      modifies this
      ensures filters == f
      ensures content == old(content) && searchTerm == old(searchTerm) && page == old(page)
    {
      filters := f;
    }

    /** The order button: "asc" becomes "desc", anything else becomes "asc". */
    method ToggleOrder()
      modifies this
      ensures filters == old(filters).(order := if old(filters).order == "asc" then "desc" else "asc")
      ensures content == old(content) && searchTerm == old(searchTerm) && page == old(page)
    {
      filters := filters.(order := if filters.order == "asc" then "desc" else "asc");
    }

    /** The Previous button, disabled on page 1. */
    method PrevPage()
      modifies this
      ensures page == if old(page) == 1 then 1 else old(page) - 1
      ensures 1 <= old(page) ==> 1 <= page <= old(page)
      ensures content == old(content) && filters == old(filters) && searchTerm == old(searchTerm)
    {
      if page != 1 {
        page := page - 1;
      }
    }

    /** The Next button, disabled from the last page on. */
    method NextPage()
      modifies this
      ensures page == if old(page) >= PageCount() then old(page) else old(page) + 1
      ensures old(page) < PageCount() ==> page <= PageCount()
      ensures content == old(content) && filters == old(filters) && searchTerm == old(searchTerm)
    {
      if page < PageCount() {
        page := page + 1;
      }
    }
  }
}
