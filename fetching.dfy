/** The page-fetch transitions of the data hook (src/hooks/useMoviesTable.ts),
    on values. The network call is an outcome argument: the request either
    succeeds with one page of results or fails; a request aborted because the
    pagination changed also ends in the failure branch. */
module Fetching {
  import opened MovieTypes

  /** The pagination cursor: zero-based page index and page size. */
  datatype Pagination = Pagination(pageIndex: nat, pageSize: nat)

  const InitialPagination: Pagination := Pagination(0, 10)

  /** The search term that is fixed in the request path. */
  const SearchTerm: string := "man"

  /** What one fetch asks the remote endpoint for. There is no page-size field:
      the page size is never sent. */
  datatype PageRequest = PageRequest(search: string, page: int)

  /** The request for a cursor: the fixed search term and the one-based page number. */
  function RequestFor(p: Pagination): (req: PageRequest)
    ensures req.search == SearchTerm
    ensures req.page == p.pageIndex + 1
    ensures req.page >= 1
  {
    PageRequest(SearchTerm, p.pageIndex + 1)
  }

  /** Two cursors lead to the same request exactly when their page indices agree:
      the page size has no influence on what is fetched. */
  lemma SameRequestIffSamePage(p: Pagination, q: Pagination)
    ensures RequestFor(p) == RequestFor(q) <==> p.pageIndex == q.pageIndex
  {
  }

  /** The effect re-runs (one new fetch, the previous one aborted) exactly when
      the page index or the page size changed. */
  function EffectReruns(before: Pagination, after: Pagination): (rerun: bool)
    ensures rerun <==> before.pageIndex != after.pageIndex || before.pageSize != after.pageSize
    ensures !rerun ==> RequestFor(before) == RequestFor(after)
  {
    before != after
  }

  /** The result of one awaited request. */
  datatype FetchOutcome = Success(response: MovieApiResponse) | Failure

  /** The part of the hook's state a fetch reads and writes. */
  datatype FetchState = FetchState(data: seq<Movie>, rowCount: int, isError: bool, isLoading: bool, isRefetching: bool)

  const InitialFetchState: FetchState := FetchState([], 0, false, false, false)

  /** Fetch start: `isLoading` when there are no rows yet, `isRefetching`
      otherwise. The other flag keeps its value and an earlier error stays set. */
  function FetchStarted(s: FetchState): (r: FetchState)
    ensures r.data == s.data && r.rowCount == s.rowCount
    ensures r.isError == s.isError
    ensures r.isLoading == (s.isLoading || s.data == [])
    ensures r.isRefetching == (s.isRefetching || s.data != [])
    ensures (r.isLoading != s.isLoading) ==> r.isRefetching == s.isRefetching
  {
    if |s.data| == 0 then s.(isLoading := true) else s.(isRefetching := true)
  }

  /** Fetch end. A success replaces rows and count and clears all three flags;
      a failure sets the error flag and returns before the loading flags are
      cleared, so it changes nothing else. */
  function FetchSettled(s: FetchState, outcome: FetchOutcome): (r: FetchState)
    ensures outcome.Success? ==>
      r.data == outcome.response.Search && r.rowCount == outcome.response.totalResults
      && !r.isError && !r.isLoading && !r.isRefetching
    ensures outcome.Failure? ==>
      r.isError && r.data == s.data && r.rowCount == s.rowCount
      && r.isLoading == s.isLoading && r.isRefetching == s.isRefetching
  {
    match outcome
    case Success(response) =>
      s.(data := response.Search, rowCount := response.totalResults)
       .(isError := false, isLoading := false, isRefetching := false)
    case Failure =>
      s.(isError := true)
  }

  /** One run of the effect: start, await, settle. */
  function Fetched(s: FetchState, outcome: FetchOutcome): (r: FetchState)
  {
    FetchSettled(FetchStarted(s), outcome)
  }

  /** The state after a series of effect runs, one per outcome, in order. */
  function AfterFetches(s: FetchState, outcomes: seq<FetchOutcome>): (r: FetchState)
    decreases |outcomes|
  {
    if outcomes == [] then s else AfterFetches(Fetched(s, outcomes[0]), outcomes[1..])
  }

  /** Running one more fetch after a series is the same as extending the series. */
  lemma {:induction false} AfterFetchesSnoc(s: FetchState, outcomes: seq<FetchOutcome>, last: FetchOutcome)
    ensures AfterFetches(s, outcomes + [last]) == Fetched(AfterFetches(s, outcomes), last)
    decreases |outcomes|
  {
    if outcomes == [] {
      assert [] + [last] == [last];
    } else {
      assert (outcomes + [last])[1..] == outcomes[1..] + [last];
      AfterFetchesSnoc(Fetched(s, outcomes[0]), outcomes[1..], last);
    }
  }

  /** After at least one fetch the error flag says exactly whether the last one
      failed: nothing but a later success clears it, and a start never does. */
  lemma {:induction false} ErrorFlagFollowsLastOutcome(s: FetchState, outcomes: seq<FetchOutcome>)
    requires |outcomes| > 0
    ensures AfterFetches(s, outcomes).isError <==> outcomes[|outcomes| - 1].Failure?
  {
    var init := outcomes[..|outcomes| - 1];
    assert outcomes == init + [outcomes[|outcomes| - 1]];
    AfterFetchesSnoc(s, init, outcomes[|outcomes| - 1]);
  }

  /** The most recent successful page wins, whatever came before it. */
  lemma {:induction false} LastSuccessWins(s: FetchState, outcomes: seq<FetchOutcome>, response: MovieApiResponse)
    ensures AfterFetches(s, outcomes + [Success(response)])
         == FetchState(response.Search, response.totalResults, false, false, false)
  {
    AfterFetchesSnoc(s, outcomes, Success(response));
  }

  /** A series of failures keeps rows and count, sets the error flag, and leaves
      whichever loading flag the first start raised stuck on. */
  lemma {:induction false} FailuresLeaveFlagsStuck(s: FetchState, outcomes: seq<FetchOutcome>)
    requires forall i :: 0 <= i < |outcomes| ==> outcomes[i].Failure?
    ensures AfterFetches(s, outcomes).data == s.data
    ensures AfterFetches(s, outcomes).rowCount == s.rowCount
    ensures AfterFetches(s, outcomes).isError == (s.isError || |outcomes| > 0)
    ensures AfterFetches(s, outcomes).isLoading == (s.isLoading || (|outcomes| > 0 && s.data == []))
    ensures AfterFetches(s, outcomes).isRefetching == (s.isRefetching || (|outcomes| > 0 && s.data != []))
    decreases |outcomes|
  {
    if outcomes != [] {
      assert outcomes[0].Failure?;
      var rest := outcomes[1..];
      assert forall i :: 0 <= i < |rest| ==> rest[i].Failure? by {
        forall i | 0 <= i < |rest| ensures rest[i].Failure? {
          assert rest[i] == outcomes[i + 1];
        }
      }
      FailuresLeaveFlagsStuck(Fetched(s, outcomes[0]), rest);
    }
  }

  /** A failed first load leaves the spinner on over an empty table. */
  lemma FailedFirstLoadStaysLoading()
    ensures Fetched(InitialFetchState, Failure) == FetchState([], 0, true, true, false)
  {
  }

  /** Both loading flags can be on at once: a failed first load leaves `isLoading`
      on, a locally created row makes the collection non-empty, and the next
      start raises `isRefetching` as well. */
  lemma BothLoadingFlagsReachable(m: Movie)
    ensures var s := FetchStarted(Fetched(InitialFetchState, Failure).(data := [m]));
            s.isLoading && s.isRefetching
  {
  }

  /** The first page of the search for "man": one row with 256 results in all. */
  lemma ManOfSteelFirstPage()
    ensures var man := Movie("Man of Steel", "2013", "tt0770828", "movie", "http://...");
            var s := Fetched(InitialFetchState, Success(MovieApiResponse([man], 256, true)));
            RequestFor(InitialPagination).page == 1
            && |s.data| == 1 && s.data[0].imdbID == "tt0770828" && s.rowCount == 256
            && !s.isError && !s.isLoading && !s.isRefetching
  {
  }
}
