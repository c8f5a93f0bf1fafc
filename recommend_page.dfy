/** The "Recommended for you" page: a title search against the recommendation
    endpoint and client-side pages of five results. */
module RecommendPage {
  import opened Common
  import Paging

  const ResultsPerPage: nat := 5

  datatype Recommendation = Recommendation(title: string, platform: string, similarityScore: int)

  /** What the fetch produced: a response whose status and JSON body were read, or
      an exception (network failure, unreadable body) with its message. */
  datatype Response =
    | Answered(ok: bool, detail: Option<string>, error: Option<string>, items: seq<Recommendation>)
    | Thrown(message: string)

  /** The message shown when the search fails, or None when the results are used. */
  function FailureOf(r: Response): (m: Option<string>)
    ensures r.Thrown? ==> m == Some(r.message)
    ensures r.Answered? && !r.ok ==> m == Some(OrDefault(r.detail, "Failed to fetch recommendations."))
    ensures r.Answered? && r.ok ==> (m.None? <==> r.error.None? || r.error.value == "")
    ensures r.Answered? && r.ok && m.Some? ==> m.value == r.error.value
  {
    match r
    case Thrown(msg) => Some(msg)
    case Answered(ok, detail, error, _) =>
      if !ok then Some(OrDefault(detail, "Failed to fetch recommendations."))
      else if error.Some? && error.value != "" then error
      else None
  }

  class RecommendPage {
    var title: string
    var recommendations: seq<Recommendation>
    var loading: bool
    var error: string
    var currentPage: int

    constructor ()
      ensures title == "" && recommendations == [] && !loading && error == "" && currentPage == 1
    {
      title := "";
      recommendations := [];
      loading := false;
      error := "";
      currentPage := 1;
    }

    /** The first half of `handleSearch`: a blank title (`title.trim()` empty, that
        is, all whitespace by `TrimEmptyIffBlank`) sends nothing; otherwise the
        previous results, the error and the page are reset and a request goes out. */
    method StartSearch() returns (sent: bool)
      modifies this
      ensures sent <==> !AllSpace(JavaScript, old(title))
      ensures !sent ==> recommendations == old(recommendations) && loading == old(loading) &&
                        error == old(error) && currentPage == old(currentPage)
      ensures sent ==> loading && error == "" && recommendations == [] && currentPage == 1
      ensures title == old(title)
    {
      sent := !AllSpace(JavaScript, title);
      if sent {
        loading := true;
        error := "";
        recommendations := [];
        currentPage := 1;
      }
    }

    /** The second half of `handleSearch`: the response either fills the results or
        sets the error, and loading ends either way. */
    method FinishSearch(r: Response)
      modifies this
      ensures !loading
      ensures FailureOf(r).Some? ==> error == FailureOf(r).value && recommendations == old(recommendations)
      ensures FailureOf(r).None? ==> recommendations == r.items && error == old(error)
      ensures title == old(title) && currentPage == old(currentPage)
    {
      var failure := FailureOf(r);
      if failure.Some? {
        error := failure.value;
      } else {
        recommendations := r.items;
      }
      loading := false;
    }

    /** The results of the current page: `slice((page-1)*5, page*5)`. */
    function CurrentResults(): (r: seq<Recommendation>)
      reads this
      ensures |r| <= ResultsPerPage
      ensures currentPage >= 1 ==> forall i :: 0 <= i < |r| ==>
        (currentPage - 1) * ResultsPerPage + i < |recommendations| &&
        r[i] == recommendations[(currentPage - 1) * ResultsPerPage + i]
    {
      Paging.Page(recommendations, currentPage, ResultsPerPage)
    }

    function TotalPages(): (n: nat)
      reads this
      ensures |recommendations| == 0 ==> n == 0
      ensures |recommendations| > 0 ==> (n - 1) * ResultsPerPage < |recommendations| <= n * ResultsPerPage
    {
      Paging.PageCount(|recommendations|, ResultsPerPage)
    }

    method PrevPage()
      modifies this
      ensures currentPage == Paging.Prev(old(currentPage))
      ensures 1 <= old(currentPage) <= TotalPages() ==> 1 <= currentPage <= TotalPages()
      ensures title == old(title) && recommendations == old(recommendations)
      ensures loading == old(loading) && error == old(error)
    {
      if 1 <= currentPage <= TotalPages() {
        Paging.ButtonsKeepRange(currentPage, TotalPages());
      }
      currentPage := Paging.Prev(currentPage);
    }

    method NextPage()
      modifies this
      ensures currentPage == Paging.Next(old(currentPage), TotalPages())
      ensures 1 <= old(currentPage) <= TotalPages() ==> 1 <= currentPage <= TotalPages()
      ensures title == old(title) && recommendations == old(recommendations)
      ensures loading == old(loading) && error == old(error)
    {
      if 1 <= currentPage <= TotalPages() {
        Paging.ButtonsKeepRange(currentPage, TotalPages());
      }
      currentPage := Paging.Next(currentPage, TotalPages());
    }
  }

  /** Paging through the results from page 1 shows every result exactly where the
      page number and the offset say. */
  lemma EveryResultReachable(recs: seq<Recommendation>, i: int)
    requires 0 <= i < |recs|
    ensures 1 <= i / ResultsPerPage + 1 <= Paging.PageCount(|recs|, ResultsPerPage)
    ensures Paging.Page(recs, i / ResultsPerPage + 1, ResultsPerPage)[i % ResultsPerPage] == recs[i]
  {
    Paging.ItemOnPage(recs, ResultsPerPage, i);
  }
}
