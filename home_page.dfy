/** The home page: the trailer URL rewrite behind the play buttons, the curated
    rows fetched from the API with the hand-picked titles laid over them, and the
    choice of backdrop image for each card. A JavaScript object is a map from key
    to value, and `{...a, ...b}` is the map union `a + b` (right side wins). */
module HomePage {
  import opened Common
  import opened Seqs
  import opened Js

  type Obj = map<string, Value>

  // ---------------------------------------------------------------- trailers

  const WatchPart: string := "watch?v="
  const EmbedPart: string := "embed/"

  /** `s.replace('watch?v=', 'embed/')`: the first occurrence only. */
  function ToEmbed(s: string): string {
    ReplaceFirst(s, WatchPart, EmbedPart)
  }

  /** The URL `handlePlay` settles on before its final check: the given embed URL,
      or else the movie's `trailerUrl`, else its `trailer`, with a watch link made
      an embed link. A missing URL is the empty string. */
  function ChosenUrl(embedUrl: string, trailerUrl: string, trailer: string): string {
    if embedUrl != "" then embedUrl
    else
      var original := if trailerUrl != "" then trailerUrl else trailer;
      if Contains(original, WatchPart) then ToEmbed(original) else original
  }

  /** `finalEmbed`: the chosen URL, rewritten once more when it holds no "embed/". */
  function FinalEmbed(embedUrl: string, trailerUrl: string, trailer: string): string {
    var chosen := ChosenUrl(embedUrl, trailerUrl, trailer);
    if !Contains(chosen, EmbedPart) then ToEmbed(chosen) else chosen
  }

  /** The URL the player gets: the first URL of the three that is not empty; when
      that holds a watch link or an embed link the result holds an embed link, and
      when it holds neither it is passed through unchanged. */
  lemma FinalEmbedFacts(embedUrl: string, trailerUrl: string, trailer: string)
    ensures var source := if embedUrl != "" then embedUrl else if trailerUrl != "" then trailerUrl else trailer;
      var r := FinalEmbed(embedUrl, trailerUrl, trailer);
      ((Contains(source, WatchPart) || Contains(source, EmbedPart)) ==> Contains(r, EmbedPart)) &&
      (!Contains(source, WatchPart) && !Contains(source, EmbedPart) ==> r == source) &&
      (embedUrl != "" && Contains(embedUrl, EmbedPart) ==> r == embedUrl)
  {
    var source := if embedUrl != "" then embedUrl else if trailerUrl != "" then trailerUrl else trailer;
    var chosen := ChosenUrl(embedUrl, trailerUrl, trailer);
    if !Contains(source, WatchPart) {
      assert chosen == source;
      if !Contains(source, EmbedPart) {
        ReplaceFirstAbsent(source, WatchPart, EmbedPart);
      }
    } else if embedUrl == "" {
      ReplaceFirstPresent(source, WatchPart, EmbedPart);
      assert Contains(chosen, EmbedPart);
    } else if !Contains(chosen, EmbedPart) {
      ReplaceFirstPresent(chosen, WatchPart, EmbedPart);
    }
  }

  /** A movie trailer that is a watch link has its first "watch?v=" replaced by
      "embed/", and nothing else changes. */
  lemma WatchLinkRewritten(trailerUrl: string, trailer: string, k: nat)
    requires trailerUrl != "" && k + |WatchPart| <= |trailerUrl|
    requires OccursAt(trailerUrl, WatchPart, k)
    requires forall i :: 0 <= i < k ==> !OccursAt(trailerUrl, WatchPart, i)
    ensures FinalEmbed("", trailerUrl, trailer) == trailerUrl[..k] + EmbedPart + trailerUrl[k + |WatchPart|..]
  {
    ContainsAt(trailerUrl, WatchPart, k);
    ReplaceFirstSkip(trailerUrl, WatchPart, EmbedPart, k);
    var r := trailerUrl[..k] + EmbedPart + trailerUrl[k + |WatchPart|..];
    assert r[k..k + |EmbedPart|] == EmbedPart;
    ContainsAt(r, EmbedPart, k);
  }

  /** When the first occurrence of `pat` is at `k`, the text before it is kept. */
  lemma {:induction false} ReplaceFirstSkip(s: string, pat: string, rep: string, k: nat)
    requires pat != "" && k + |pat| <= |s|
    requires forall i :: 0 <= i < k ==> !OccursAt(s, pat, i)
    requires OccursAt(s, pat, k)
    ensures ReplaceFirst(s, pat, rep) == s[..k] + rep + s[k + |pat|..]
    decreases k
  {
    if k == 0 {
      assert s[..|pat|] == pat;
    } else {
      ShiftedOccurrence(s, pat, k);
      ReplaceFirstSkip(s[1..], pat, rep, k - 1);
      assert ReplaceFirst(s, pat, rep) == [s[0]] + ReplaceFirst(s[1..], pat, rep);
      ConsAround(s, k, |pat|, rep);
    }
  }

  /** Dropping the first character moves every occurrence one place left. */
  lemma ShiftedOccurrence(s: string, pat: string, k: nat)
    requires 0 < k && k + |pat| <= |s|
    requires forall i :: 0 <= i < k ==> !OccursAt(s, pat, i)
    requires OccursAt(s, pat, k)
    ensures s[..|pat|] != pat
    ensures forall i :: 0 <= i < k - 1 ==> !OccursAt(s[1..], pat, i)
    ensures OccursAt(s[1..], pat, k - 1)
  {
    assert !OccursAt(s, pat, 0);
    assert s[0..|pat|] == s[..|pat|];
    forall i | 0 <= i < k - 1 ensures !OccursAt(s[1..], pat, i) {
      assert s[1..][i..i + |pat|] == s[i + 1..i + 1 + |pat|];
      assert !OccursAt(s, pat, i + 1);
    }
    assert s[1..][k - 1..k - 1 + |pat|] == s[k..k + |pat|];
  }

  lemma ConsAround(s: string, k: nat, n: nat, rep: string)
    requires 0 < k && k + n <= |s|
    ensures [s[0]] + (s[1..][..k - 1] + rep + s[1..][k - 1 + n..]) == s[..k] + rep + s[k + n..]
  {
    assert [s[0]] + s[1..][..k - 1] == s[..k];
    assert s[1..][k - 1 + n..] == s[k + n..];
  }

  /** `movie.trailerUrl` or `movie.trailer` as text; a missing one is empty. */
  function UrlField(movie: Obj, key: string): string {
    if key in movie then TextOf(movie[key]) else ""
  }

  /** The object `handlePlay` opens the player with: `{id, ...movie, trailerUrl,
      withAudio}`. */
  function PlayRequest(id: Value, movie: Obj, embedUrl: string, withAudio: bool): (t: Obj) {
    map["id" := id] + movie +
    map["trailerUrl" := Str(FinalEmbed(embedUrl, UrlField(movie, "trailerUrl"), UrlField(movie, "trailer"))),
        "withAudio" := Bool(withAudio)]
  }

  /** The player gets the rewritten URL and the audio choice; the movie's own id,
      when it has one, wins over the `id` argument; every other field of the movie
      is passed on. */
  lemma PlayRequestFields(id: Value, movie: Obj, embedUrl: string, withAudio: bool)
    ensures var t := PlayRequest(id, movie, embedUrl, withAudio);
      t.Keys == movie.Keys + {"id", "trailerUrl", "withAudio"} &&
      t["trailerUrl"] == Str(FinalEmbed(embedUrl, UrlField(movie, "trailerUrl"), UrlField(movie, "trailer"))) &&
      t["withAudio"] == Bool(withAudio) &&
      t["id"] == (if "id" in movie then movie["id"] else id) &&
      forall k :: k in movie && k !in {"id", "trailerUrl", "withAudio"} ==> t[k] == movie[k]
  {
  }

  // ---------------------------------------------------------------- curated rows

  function Strings(ss: seq<string>): (v: Value)
    ensures v.List? && |v.items| == |ss|
  {
    List(seq(|ss|, i requires 0 <= i < |ss| => Str(ss[i])))
  }

  /** A hand-picked card; the rating is in tenths. */
  function Card(title: string, year: int, imdb: int, genres: seq<string>): Obj {
    map["title" := Str(title), "year" := Number(year), "imdb" := Number(imdb), "genres" := Strings(genres)]
  }

  function TrendingCard(title: string, year: int, imdb: int, genres: seq<string>, platforms: seq<string>): Obj {
    Card(title, year, imdb, genres)["platforms" := Strings(platforms)]
  }

  /** The hand-picked trending row. */
  const ManualTrending: seq<Obj> := [
    TrendingCard("Stranger Things", 2025, 87, ["Sci-Fi", "Horror"], ["Netflix"]),
    TrendingCard("John Wick", 2014, 74, ["Action", "Thriller"], ["Peacock"]),
    TrendingCard("Cobra Kai", 2018, 85, ["Action", "Comedy"], ["Netflix"]),
    TrendingCard("Avengers", 2012, 80, ["Action", "Sci-Fi"], ["Disney+"]),
    TrendingCard("Money Heist", 2017, 82, ["Crime", "Drama"], ["Netflix"])
  ]

  /** The hand-picked Hall of Fame row. */
  const ManualTopRated: seq<Obj> := [
    Card("Final Destination", 2000, 67, ["Horror", "Thriller"]),
    Card("ChinnaKesavaReddy", 2002, 68, ["Action", "Drama"]),
    Card("Suits", 2011, 84, ["Drama", "Comedy"]),
    Card("Friends", 1994, 89, ["Comedy", "Romance"]),
    Card("wednesday", 2022, 81, ["Fantasy", "Comedy"]),
    Card("Young Seldhon", 2017, 76, ["Comedy"])
  ]

  /** The rows the page shows. */
  datatype Curated = Curated(trendingNow: seq<Obj>, topRated: seq<Obj>, netflixNew: seq<Obj>)

  /** The rows of the API's answer; a key it does not send is `None`. */
  datatype ApiData = ApiData(trendingNow: Option<seq<Obj>>, topRated: Option<seq<Obj>>, netflixNew: Option<seq<Obj>>)

  const Fallback: Curated := Curated(ManualTrending, ManualTopRated, [])

  function ListOr(v: Option<seq<Obj>>): seq<Obj> {
    if v.Some? then v.value else []
  }

  /** The hand-picked cards laid over the API's row, position by position: where
      both have an item, the fields of the hand-picked one win; past the end of
      either, the other one's item stands alone. */
  function Overlay(api: seq<Obj>, manual: seq<Obj>): seq<Obj> {
    var n := if |api| < |manual| then |manual| else |api|;
    seq(n, k requires 0 <= k < n =>
      if k < |api| && k < |manual| then api[k] + manual[k]
      else if k < |api| then api[k]
      else manual[k])
  }

  /** The overlay is as long as the longer row; a hand-picked card's fields always
      show, the API's other fields are kept, items past the hand-picked ones are the
      API's unchanged, and gaps are filled by the hand-picked cards. */
  lemma OverlayFacts(api: seq<Obj>, manual: seq<Obj>)
    ensures var r := Overlay(api, manual);
      |r| >= |api| && |r| >= |manual| && (|r| == |api| || |r| == |manual|) &&
      (forall k :: |manual| <= k < |api| ==> r[k] == api[k]) &&
      (forall k :: |api| <= k < |manual| ==> r[k] == manual[k]) &&
      (forall k, key :: 0 <= k < |manual| && key in manual[k] ==> key in r[k] && r[k][key] == manual[k][key]) &&
      (forall k, key :: 0 <= k < |api| && key in api[k] && (k >= |manual| || key !in manual[k]) ==>
         key in r[k] && r[k][key] == api[k][key])
  {
  }

  /** `fetchCurated`'s merge of one row: the API's items mapped with the
      hand-picked fields spread over the first ones, then, when the API sent fewer
      items than were picked, a pass that fills every missing position with the
      hand-picked card and spreads it again over the present ones. */
  method MergeRow(api: seq<Obj>, manual: seq<Obj>) returns (merged: seq<Obj>)
    ensures merged == Overlay(api, manual)
  {
    merged := seq(|api|, k requires 0 <= k < |api| => if k < |manual| then api[k] + manual[k] else api[k]);
    if |merged| < |manual| {
      var i := 0;
      while i < |manual|
        invariant 0 <= i <= |manual|
        invariant |merged| == if i < |api| then |api| else i
        invariant forall k :: 0 <= k < |merged| ==> merged[k] == if k < |api| then api[k] + manual[k] else manual[k]
      {
        if i >= |merged| {
          merged := merged + [manual[i]];
        } else {
          assert merged[i] + manual[i] == merged[i];
          merged := merged[i := merged[i] + manual[i]];
        }
        i := i + 1;
      }
    }
  }

  /** `fetchCurated`: the API's rows with the hand-picked cards laid over them, or
      the hand-picked rows when the request fails or the answer is not OK. */
  method FetchCurated(response: Option<ApiData>) returns (c: Curated)
    ensures response.None? ==> c == Fallback
    ensures response.Some? ==>
      c == Curated(Overlay(ListOr(response.value.trendingNow), ManualTrending),
                   Overlay(ListOr(response.value.topRated), ManualTopRated),
                   ListOr(response.value.netflixNew))
  {
    if response.None? {
      return Fallback;
    }
    var data := response.value;
    var trending := MergeRow(ListOr(data.trendingNow), ManualTrending);
    var topRated := MergeRow(ListOr(data.topRated), ManualTopRated);
    c := Curated(trending, topRated, ListOr(data.netflixNew));
  }

  // ---------------------------------------------------------------- cards

  const TrendingShown: nat := 5
  const TopRatedShown: nat := 6

  /** `(curatedData.trending_now || []).slice(0, 5)`. */
  function TrendingCards(c: Curated): (cards: seq<Obj>)
    ensures |cards| == if |c.trendingNow| < TrendingShown then |c.trendingNow| else TrendingShown
    ensures forall i :: 0 <= i < |cards| ==> cards[i] == c.trendingNow[i]
    ensures IsSubsequence(cards, c.trendingNow)
  {
    TakeSubsequence(c.trendingNow, TrendingShown);
    Take(c.trendingNow, TrendingShown)
  }

  /** `(curatedData.top_rated || []).slice(0, 6)`. */
  function TopRatedCards(c: Curated): (cards: seq<Obj>)
    ensures |cards| == if |c.topRated| < TopRatedShown then |c.topRated| else TopRatedShown
    ensures forall i :: 0 <= i < |cards| ==> cards[i] == c.topRated[i]
    ensures IsSubsequence(cards, c.topRated)
  {
    TakeSubsequence(c.topRated, TopRatedShown);
    Take(c.topRated, TopRatedShown)
  }

  lemma CardTitle(title: string, year: int, imdb: int, genres: seq<string>, platforms: seq<string>)
    ensures "title" in Card(title, year, imdb, genres) && Card(title, year, imdb, genres)["title"] == Str(title)
    ensures var t := TrendingCard(title, year, imdb, genres, platforms); "title" in t && t["title"] == Str(title)
  {
  }

  /** Every hand-picked card has a title. */
  lemma ManualTitles()
    ensures forall k :: 0 <= k < |ManualTrending| ==> "title" in ManualTrending[k]
    ensures forall k :: 0 <= k < |ManualTopRated| ==> "title" in ManualTopRated[k]
  {
    CardTitle("Stranger Things", 2025, 87, ["Sci-Fi", "Horror"], ["Netflix"]);
    CardTitle("John Wick", 2014, 74, ["Action", "Thriller"], ["Peacock"]);
    CardTitle("Cobra Kai", 2018, 85, ["Action", "Comedy"], ["Netflix"]);
    CardTitle("Avengers", 2012, 80, ["Action", "Sci-Fi"], ["Disney+"]);
    CardTitle("Money Heist", 2017, 82, ["Crime", "Drama"], ["Netflix"]);
    CardTitle("Final Destination", 2000, 67, ["Horror", "Thriller"], []);
    CardTitle("ChinnaKesavaReddy", 2002, 68, ["Action", "Drama"], []);
    CardTitle("Suits", 2011, 84, ["Drama", "Comedy"], []);
    CardTitle("Friends", 1994, 89, ["Comedy", "Romance"], []);
    CardTitle("wednesday", 2022, 81, ["Fantasy", "Comedy"], []);
    CardTitle("Young Seldhon", 2017, 76, ["Comedy"], []);
  }

  /** The first `|manual|` cards of a row that is `manual` itself or laid over by
      `manual` carry its titles. */
  lemma ShownTitles(row: seq<Obj>, api: seq<Obj>, manual: seq<Obj>, fetched: bool)
    requires forall k :: 0 <= k < |manual| ==> "title" in manual[k]
    requires row == if fetched then Overlay(api, manual) else manual
    ensures var cards := Take(row, |manual|);
      |cards| == |manual| &&
      forall k :: 0 <= k < |manual| ==> "title" in cards[k] && cards[k]["title"] == manual[k]["title"]
  {
    if fetched {
      OverlayFacts(api, manual);
    }
  }

  /** Whatever the API sends, or when it fails, the page shows exactly five
      trending and six Hall of Fame cards, carrying the hand-picked titles in
      the hand-picked order. */
  lemma HandPickedTitlesShown(response: Option<ApiData>, c: Curated)
    requires response.None? ==> c == Fallback
    requires response.Some? ==>
      c == Curated(Overlay(ListOr(response.value.trendingNow), ManualTrending),
                   Overlay(ListOr(response.value.topRated), ManualTopRated),
                   ListOr(response.value.netflixNew))
    ensures |TrendingCards(c)| == TrendingShown && |TopRatedCards(c)| == TopRatedShown
    ensures forall k :: 0 <= k < TrendingShown ==>
      "title" in ManualTrending[k] && "title" in TrendingCards(c)[k] &&
      TrendingCards(c)[k]["title"] == ManualTrending[k]["title"]
    ensures forall k :: 0 <= k < TopRatedShown ==>
      "title" in ManualTopRated[k] && "title" in TopRatedCards(c)[k] &&
      TopRatedCards(c)[k]["title"] == ManualTopRated[k]["title"]
  {
    ManualTitles();
    var trendingApi := if response.Some? then ListOr(response.value.trendingNow) else [];
    var topApi := if response.Some? then ListOr(response.value.topRated) else [];
    assert c.trendingNow == if response.Some? then Overlay(trendingApi, ManualTrending) else ManualTrending;
    assert c.topRated == if response.Some? then Overlay(topApi, ManualTopRated) else ManualTopRated;
    ShownTitles(c.trendingNow, trendingApi, ManualTrending, response.Some?);
    ShownTitles(c.topRated, topApi, ManualTopRated, response.Some?);
    assert TrendingCards(c) == Take(c.trendingNow, |ManualTrending|);
    assert TopRatedCards(c) == Take(c.topRated, |ManualTopRated|);
  }

  // ---------------------------------------------------------------- backdrops

  const Backdrops: seq<string> := [
    "https://pbs.twimg.com/media/DKi5oicVYAM6C2q.jpg",
    "https://img.airtel.tv/unsafe/fit-in/500x0/filters:format(webp)/https://xstreamcp-assets-msp.streamready.in/assets/HOTSTAR_DTH/SERIES/690e107c287dfd4cb48198c1/images/PORTRAIT/1734497809655-v?o=production",
    "https://media.posterstore.com/site_images/68631cf30b074212f55c844b_472608644_WB0074-8.jpg?auto=compress%2Cformat&fit=max&w=3840",
    "https://images-cdn.ubuy.ae/64efda27ec49f86e4c6ce257-wednesday-tv-show-poster-wednesday.jpg",
    "https://m.media-amazon.com/images/I/81c8B0UbFtL._AC_UF1000,1000_QL80_.jpg",
    "https://encrypted-tbn0.gstatic.com/images?q=tbn:ANd9GcTnqWOZ99fTgmHd3uMpq_P6Y9didPr3IDK2aQ&s"
  ]

  const CustomTrendingImages: seq<string> := [
    "https://deadline.com/wp-content/uploads/2025/11/Stranger-Things-5_33a02d.jpg?w=1024",
    "https://www.tallengestore.com/cdn/shop/products/JohnWick-KeanuReeves-HollywoodEnglishActionMoviePoster-1_769183ab-298c-43d8-82ce-45b958ca2426.jpg?v=1649071596",
    "https://m.media-amazon.com/images/M/MV5BYjA3NDkwNzktNjJkYi00ODNhLWFhYzQtYzk5NjU4MDM0OWZmXkEyXkFqcGc@._V1_.jpg",
    "https://resizing.flixster.com/CXOXbOpLNL1NNkXTQu-4Rgvcszs=/ems.cHJkLWVtcy1hc3NldHMvbW92aWVzLzM0NGRkMDM2LWVjNDQtNGZlMC04NGM3LWZkMzQ2Njg1OTUyNi53ZWJw",
    "https://m.media-amazon.com/images/M/MV5BZjkxZWJiNTUtYjQwYS00MTBlLTgwODQtM2FkNWMyMjMwOGZiXkEyXkFqcGc@._V1_FMjpg_UX1000_.jpg"
  ]

  const CustomTopRatedImages: seq<string> := ["", "", "", "", "", ""]

  /** `images[index] && images[index].trim() !== ""`. */
  predicate HasCustom(images: seq<string>, index: nat) {
    index < |images| && images[index] != "" && Trim(JavaScript, images[index]) != ""
  }

  /** `getBackdrop(index, type)`. */
  function Backdrop(index: nat, kind: string): string {
    if kind == "trending" && HasCustom(CustomTrendingImages, index) then CustomTrendingImages[index]
    else if kind == "top_rated" && HasCustom(CustomTopRatedImages, index) then CustomTopRatedImages[index]
    else
      var offset := if kind == "top_rated" then 5 else 0;
      Backdrops[(index + offset) % |Backdrops|]
  }

  lemma BackdropsNonEmpty(k: nat)
    requires k < |Backdrops|
    ensures Backdrops[k] != ""
  {
    if k == 0 {
      assert Backdrops[0] == "https://pbs.twimg.com/media/DKi5oicVYAM6C2q.jpg";
    } else if k == 1 {
      assert Backdrops[1] == "https://img.airtel.tv/unsafe/fit-in/500x0/filters:format(webp)/https://xstreamcp-assets-msp.streamready.in/assets/HOTSTAR_DTH/SERIES/690e107c287dfd4cb48198c1/images/PORTRAIT/1734497809655-v?o=production";
    } else if k == 2 {
      assert Backdrops[2] == "https://media.posterstore.com/site_images/68631cf30b074212f55c844b_472608644_WB0074-8.jpg?auto=compress%2Cformat&fit=max&w=3840";
    } else if k == 3 {
      assert Backdrops[3] == "https://images-cdn.ubuy.ae/64efda27ec49f86e4c6ce257-wednesday-tv-show-poster-wednesday.jpg";
    } else if k == 4 {
      assert Backdrops[4] == "https://m.media-amazon.com/images/I/81c8B0UbFtL._AC_UF1000,1000_QL80_.jpg";
    } else {
      assert Backdrops[5] == "https://encrypted-tbn0.gstatic.com/images?q=tbn:ANd9GcTnqWOZ99fTgmHd3uMpq_P6Y9didPr3IDK2aQ&s";
    }
  }

  /** Each custom trending image is a URL, not blank. */
  lemma CustomTrendingNotBlank(k: nat)
    requires k < |CustomTrendingImages|
    ensures HasCustom(CustomTrendingImages, k)
  {
    var u := CustomTrendingImages[k];
    if k == 0 {
      assert u == "https://deadline.com/wp-content/uploads/2025/11/Stranger-Things-5_33a02d.jpg?w=1024";
      assert !IsSpace(JavaScript, u[|u| - 1]);
    } else if k == 1 {
      assert u == "https://www.tallengestore.com/cdn/shop/products/JohnWick-KeanuReeves-HollywoodEnglishActionMoviePoster-1_769183ab-298c-43d8-82ce-45b958ca2426.jpg?v=1649071596";
      assert !IsSpace(JavaScript, u[|u| - 1]);
    } else if k == 2 {
      assert u == "https://m.media-amazon.com/images/M/MV5BYjA3NDkwNzktNjJkYi00ODNhLWFhYzQtYzk5NjU4MDM0OWZmXkEyXkFqcGc@._V1_.jpg";
      assert !IsSpace(JavaScript, u[|u| - 1]);
    } else if k == 3 {
      assert u == "https://resizing.flixster.com/CXOXbOpLNL1NNkXTQu-4Rgvcszs=/ems.cHJkLWVtcy1hc3NldHMvbW92aWVzLzM0NGRkMDM2LWVjNDQtNGZlMC04NGM3LWZkMzQ2Njg1OTUyNi53ZWJw";
      assert !IsSpace(JavaScript, u[|u| - 1]);
    } else {
      assert u == "https://m.media-amazon.com/images/M/MV5BZjkxZWJiNTUtYjQwYS00MTBlLTgwODQtM2FkNWMyMjMwOGZiXkEyXkFqcGc@._V1_FMjpg_UX1000_.jpg";
      assert !IsSpace(JavaScript, u[|u| - 1]);
    }
    NotBlank(u);
  }

  lemma NotBlank(s: string)
    requires s != "" && !IsSpace(JavaScript, s[|s| - 1])
    ensures Trim(JavaScript, s) != ""
  {
    TrimEmptyIffBlank(JavaScript, s);
  }

  /** The first five trending cards get their own image; every other trending card
      and every card of another row gets the default backdrops in turn, the Hall
      of Fame row starting five places on; the image is never empty. */
  lemma BackdropChoice(index: nat, kind: string)
    ensures kind == "trending" && index < |CustomTrendingImages| ==> Backdrop(index, kind) == CustomTrendingImages[index]
    ensures kind == "trending" && index >= |CustomTrendingImages| ==> Backdrop(index, kind) == Backdrops[index % 6]
    ensures kind == "top_rated" ==> Backdrop(index, kind) == Backdrops[(index + 5) % 6]
    ensures kind != "trending" && kind != "top_rated" ==> Backdrop(index, kind) == Backdrops[index % 6]
    ensures Backdrop(index, kind) != ""
  {
    if kind == "trending" {
      if index < |CustomTrendingImages| {
        CustomTrendingNotBlank(index);
      } else {
        BackdropsNonEmpty(index % 6);
      }
    } else if kind == "top_rated" {
      assert !HasCustom(CustomTopRatedImages, index) by {
        if index < |CustomTopRatedImages| {
          assert CustomTopRatedImages[index] == "";
        }
      }
      BackdropsNonEmpty((index + 5) % 6);
    } else {
      BackdropsNonEmpty(index % 6);
    }
  }
}
