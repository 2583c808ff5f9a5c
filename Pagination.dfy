/**
 * The nearby-search pagination loop as a function of the replies the upstream
 * gives, one reply per request: pages are collected in order, a quota reply
 * repeats the same request, a continuation token turns the next request into
 * a bare page request, and every other outcome ends the search.
 */
module Pagination {
  import opened Wrappers
  import opened Config
  import opened Places

  /** The query parameters of one nearby-search request. */
  datatype Params =
    | Nearby(location: GridPoint, radius: int, key: string, placeType: Option<string>, keyword: Option<string>)
    | NextPage(pageToken: string, key: string)

  /** Why the loop ended. `OutOfResponses` is the model's own: the stub upstream had no reply left. */
  datatype Stop = NoResults | StatusError(status: Option<string>) | LastPage | TransportFailure | OutOfResponses

  /** What one search did: the results it returns, the requests it sent, and why it stopped. */
  datatype SearchRun = SearchRun(results: seq<RawPlace>, sent: seq<Params>, stop: Stop)

  /** The first request: location, radius and key, plus the type or keyword filter when it is truthy. */
  function InitialParams(location: GridPoint, searchType: Option<string>, keyword: Option<string>, key: string): Params {
    Nearby(location, SearchRadius, key,
           if Truthy(searchType) then searchType else None,
           if Truthy(keyword) then keyword else None)
  }

  predicate IsQuota(r: SearchResponse) {
    r.SearchReply? && r.status == Some("OVER_QUERY_LIMIT")
  }

  predicate IsOk(r: SearchResponse) {
    r.SearchReply? && r.status == Some("OK")
  }

  /** The replies after which the loop issues another request. */
  predicate Continues(r: SearchResponse) {
    IsQuota(r) || (IsOk(r) && Truthy(r.nextPageToken))
  }

  /** The request that follows `r`: the same one after a quota reply, otherwise the page request for the token. */
  function NextParams(p: Params, r: SearchResponse, key: string): Params
    requires Continues(r)
  {
    if IsQuota(r) then p else NextPage(r.nextPageToken.value, key)
  }

  /** How a reply that does not continue the loop ends it. */
  function StopFor(r: SearchResponse): Stop
    requires !Continues(r)
  {
    match r
    case SearchTransportError => TransportFailure
    case SearchReply(status, _, _) =>
      if status == Some("ZERO_RESULTS") then NoResults
      else if status != Some("OK") then StatusError(status)
      else LastPage
  }

  /** The results a reply contributes: those of an OK page, nothing otherwise. */
  function PageResults(r: SearchResponse): seq<RawPlace> {
    if IsOk(r) then r.results else []
  }

  /** The results of the replies `rs`, page after page. */
  function Collected(rs: seq<SearchResponse>): seq<RawPlace> {
    if rs == [] then [] else PageResults(rs[0]) + Collected(rs[1..])
  }

  /** The search that starts with request `p` against the replies `upstream`. */
  function Paginate(p: Params, key: string, upstream: seq<SearchResponse>): SearchRun
    decreases |upstream|
  {
    if upstream == [] then
      SearchRun([], [], OutOfResponses)
    else if Continues(upstream[0]) then
      var rest := Paginate(NextParams(p, upstream[0], key), key, upstream[1..]);
      SearchRun(PageResults(upstream[0]) + rest.results, [p] + rest.sent, rest.stop)
    else
      SearchRun(PageResults(upstream[0]), [p], StopFor(upstream[0]))
  }

  /** The search `run` preceded by requests `sent` that gathered `results`. */
  function After(results: seq<RawPlace>, sent: seq<Params>, run: SearchRun): SearchRun {
    SearchRun(results + run.results, sent + run.sent, run.stop)
  }

  /** One step of the search at position `i` of the upstream replies. */
  lemma PaginateAt(p: Params, key: string, upstream: seq<SearchResponse>, i: nat)
    requires i < |upstream|
    ensures Paginate(p, key, upstream[i..]) ==
      if Continues(upstream[i])
      then After(PageResults(upstream[i]), [p], Paginate(NextParams(p, upstream[i], key), key, upstream[i + 1..]))
      else SearchRun(PageResults(upstream[i]), [p], StopFor(upstream[i]))
  {
    assert upstream[i..][0] == upstream[i] && upstream[i..][1..] == upstream[i + 1..];
  }

  lemma AfterAfter(r1: seq<RawPlace>, s1: seq<Params>, r2: seq<RawPlace>, s2: seq<Params>, run: SearchRun)
    ensures After(r1, s1, After(r2, s2, run)) == After(r1 + r2, s1 + s2, run)
  {
    assert r1 + (r2 + run.results) == (r1 + r2) + run.results;
    assert s1 + (s2 + run.sent) == (s1 + s2) + run.sent;
  }

  /**
   * One request per reply consumed, never more than the upstream has. The
   * loop stops on its own exactly at the first reply that does not continue
   * it, and the stop reason is that reply's.
   */
  lemma {:induction false} PaginateStops(p: Params, key: string, upstream: seq<SearchResponse>)
    ensures var run := Paginate(p, key, upstream);
      && |run.sent| <= |upstream|
      && (upstream != [] ==> |run.sent| > 0)
      && (run.stop == OutOfResponses ==> |run.sent| == |upstream|)
      && (run.stop == OutOfResponses ==> upstream == [] || Continues(upstream[|upstream| - 1]))
      && (run.stop != OutOfResponses ==>
            |run.sent| > 0 && !Continues(upstream[|run.sent| - 1]) && run.stop == StopFor(upstream[|run.sent| - 1]))
      && (forall k :: 0 <= k < |run.sent| - 1 ==> Continues(upstream[k]))
    decreases |upstream|
  {
    if upstream != [] && Continues(upstream[0]) {
      PaginateStops(NextParams(p, upstream[0], key), key, upstream[1..]);
    }
  }

  /**
   * The first request is `p`; each later request follows from the one before
   * and the reply to it: a quota reply repeats it, a token gives the page
   * request `{pagetoken, key}`. Every reply but the last consumed continued the loop.
   */
  lemma {:induction false} PaginateRequests(p: Params, key: string, upstream: seq<SearchResponse>)
    ensures var run := Paginate(p, key, upstream);
      && (|run.sent| > 0 ==> run.sent[0] == p)
      && |run.sent| <= |upstream|
      && (forall k :: 0 <= k < |run.sent| - 1 ==>
            Continues(upstream[k]) && run.sent[k + 1] == NextParams(run.sent[k], upstream[k], key))
    decreases |upstream|
  {
    if upstream != [] && Continues(upstream[0]) {
      var next := NextParams(p, upstream[0], key);
      PaginateRequests(next, key, upstream[1..]);
      var rest := Paginate(next, key, upstream[1..]);
      var run := Paginate(p, key, upstream);
      forall k | 0 <= k < |run.sent| - 1
        ensures Continues(upstream[k]) && run.sent[k + 1] == NextParams(run.sent[k], upstream[k], key)
      {
        if k > 0 {
          assert upstream[k] == upstream[1..][k - 1];
          assert run.sent[k] == rest.sent[k - 1] && run.sent[k + 1] == rest.sent[k];
        }
      }
    }
  }

  /** The results are those of the OK pages among the replies consumed, in page order. */
  lemma {:induction false} PaginateResults(p: Params, key: string, upstream: seq<SearchResponse>)
    ensures var run := Paginate(p, key, upstream);
      |run.sent| <= |upstream| && run.results == Collected(upstream[..|run.sent|])
    decreases |upstream|
  {
    var run := Paginate(p, key, upstream);
    if upstream != [] {
      if Continues(upstream[0]) {
        var next := NextParams(p, upstream[0], key);
        PaginateResults(next, key, upstream[1..]);
        var rest := Paginate(next, key, upstream[1..]);
        assert upstream[..|run.sent|][1..] == upstream[1..][..|rest.sent|];
      } else {
        assert upstream[..1][1..] == [];
      }
    }
  }

  /**
   * Quota replies alone never end the search: every reply is consumed, the
   * same request is sent each time, and nothing is collected. Against a real
   * upstream that keeps refusing, the loop does not terminate.
   */
  lemma {:induction false} QuotaRetriesWithoutEnd(p: Params, key: string, upstream: seq<SearchResponse>)
    requires forall k :: 0 <= k < |upstream| ==> IsQuota(upstream[k])
    ensures var run := Paginate(p, key, upstream);
      && run.results == []
      && run.stop == OutOfResponses
      && |run.sent| == |upstream|
      && (forall k :: 0 <= k < |run.sent| ==> run.sent[k] == p)
    decreases |upstream|
  {
    if upstream != [] {
      assert IsQuota(upstream[0]);
      QuotaRetriesWithoutEnd(p, key, upstream[1..]);
    }
  }
}
