/**
 * `EdmontonCafeFetcher`: the object that runs the searches, keeps the dedup
 * store and counts the upstream calls. The store is an identifier-keyed map
 * plus the identifiers in insertion order (the order in which a Python dict
 * iterates); both are updated in place.
 */
module Fetcher {
  import opened Wrappers
  import opened Config
  import opened Places
  import opened Classifier
  import opened Pagination
  import opened Dedup
  import opened Enrich
  import opened Grid

  /** `order` lists each stored identifier exactly once, and every entry is well formed. */
  predicate StoreOk(found: map<string, Record>, order: seq<string>) {
    && (forall k :: 0 <= k < |order| ==> order[k] in found)
    && (forall id :: id in found ==> id in order)
    && (forall i, j :: 0 <= i < j < |order| ==> order[i] != order[j])
    && AllStoredOk(found)
  }

  /** Identifiers listed without repetition are as many as the set they make up. */
  lemma {:induction false} DistinctIdsSize(ids: seq<string>)
    requires forall i, j :: 0 <= i < j < |ids| ==> ids[i] != ids[j]
    ensures |(set id | id in ids)| == |ids|
  {
    if ids != [] {
      DistinctIdsSize(ids[1..]);
      assert (set id | id in ids) == {ids[0]} + (set id | id in ids[1..]);
      assert ids[0] !in (set id | id in ids[1..]);
    }
  }

  /** A well-formed store holds exactly as many entries as the order lists. */
  lemma StoreOkSize(found: map<string, Record>, order: seq<string>)
    requires StoreOk(found, order)
    ensures |found| == |order|
  {
    assert found.Keys == (set id | id in order);
    DistinctIdsSize(order);
  }

  class CafeFetcher {
    const apiKey: string
    var foundPlaces: map<string, Record>
    var order: seq<string>
    var apiCalls: nat

    /** The store invariant. */
    ghost predicate Valid()
      reads this
    {
      StoreOk(foundPlaces, order)
    }

    constructor (apiKey: string)
      ensures Valid()
      ensures this.apiKey == apiKey
      ensures foundPlaces == map[] && order == [] && apiCalls == 0
    {
      this.apiKey := apiKey;
      foundPlaces := map[];
      order := [];
      apiCalls := 0;
    }

    /**
     * `search_nearby` against the stub `upstream`, whose k-th element is the
     * reply to the k-th request. Returns the collected results, the requests
     * sent, and why the loop ended; counts one call per request.
     */
    method SearchNearby(location: GridPoint, searchType: Option<string>, keyword: Option<string>,
                        upstream: seq<SearchResponse>)
      returns (allResults: seq<RawPlace>, sent: seq<Params>, stop: Stop)
      modifies this`apiCalls
      ensures SearchRun(allResults, sent, stop)
              == Paginate(InitialParams(location, searchType, keyword, apiKey), apiKey, upstream)
      ensures apiCalls == old(apiCalls) + |sent|
    {
      var params := InitialParams(location, searchType, keyword, apiKey);
      ghost var first := params;
      allResults, sent, stop := [], [], OutOfResponses;
      var i := 0;
      assert upstream[0..] == upstream;
      while i < |upstream|
        invariant 0 <= i <= |upstream|
        invariant apiCalls == old(apiCalls) + |sent|
        invariant Paginate(first, apiKey, upstream) == After(allResults, sent, Paginate(params, apiKey, upstream[i..]))
      {
        PaginateAt(params, apiKey, upstream, i);
        ghost var resultsBefore, sentBefore, paramsBefore := allResults, sent, params;
        apiCalls := apiCalls + 1;
        sent := sent + [params];
        var response := upstream[i];
        i := i + 1;
        match response {
          case SearchTransportError =>
            stop := TransportFailure;
            break;
          case SearchReply(status, results, nextPageToken) =>
            if status == Some("ZERO_RESULTS") {
              stop := NoResults;
              break;
            }
            if status != Some("OK") && status != Some("ZERO_RESULTS") {
              if status == Some("OVER_QUERY_LIMIT") {
                AfterAfter(resultsBefore, sentBefore, [], [paramsBefore], Paginate(params, apiKey, upstream[i..]));
                assert resultsBefore + [] == allResults;
                continue;
              }
              stop := StatusError(status);
              break;
            }
            allResults := allResults + results;
            if !Truthy(nextPageToken) {
              stop := LastPage;
              break;
            }
            params := NextPage(nextPageToken.value, apiKey);
            AfterAfter(resultsBefore, sentBefore, results, [paramsBefore], Paginate(params, apiKey, upstream[i..]));
        }
      }
    }

    /** `get_place_details`: one counted call, answered by `lookup`. */
    method GetPlaceDetails(placeId: string, lookup: string -> DetailsResponse) returns (details: Details)
      modifies this`apiCalls
      ensures details == DetailsOf(lookup(placeId))
      ensures apiCalls == old(apiCalls) + 1
    {
      apiCalls := apiCalls + 1;
      var response := lookup(placeId);
      match response {
        case DetailsTransportError =>
          details := NoDetails;
        case DetailsReply(status, result) =>
          if status == Some("OK") {
            details := result.GetOr(NoDetails);
          } else {
            details := NoDetails;
          }
      }
    }

    /** `process_place`: store the result under its identifier unless one of the checks turns it away. */
    method ProcessPlace(place: RawPlace)
      requires Valid()
      modifies this`foundPlaces, this`order
      ensures Valid()
      ensures foundPlaces == Insert(old(foundPlaces), place)
      ensures order == if Accepts(old(foundPlaces).Keys, place) then old(order) + [place.placeId.value] else old(order)
    {
      if place.placeId.None? || place.placeId.value == "" {
        return;
      }
      var placeId := place.placeId.value;
      if placeId in foundPlaces {
        return;
      }
      if !TruthyCoordinate(place.lat) || !TruthyCoordinate(place.lng) {
        return;
      }
      if !IsInEdmontonArea(place.lat.value, place.lng.value) {
        return;
      }
      if !IsLikelyCafe(place) {
        return;
      }
      InsertKeepsStoredOk(foundPlaces, place);
      foundPlaces := foundPlaces[placeId := Project(place)];
      order := order + [placeId];
    }

    /** The batch in `search_all`: every result of one search offered to `process_place`, in order. */
    method ProcessAll(results: seq<RawPlace>)
      requires Valid()
      modifies this`foundPlaces, this`order
      ensures Valid()
      ensures foundPlaces == InsertAll(old(foundPlaces), results)
      ensures order == old(order) + AddedIds(old(foundPlaces), results)
    {
      var i := 0;
      while i < |results|
        invariant 0 <= i <= |results| && Valid()
        invariant InsertAll(old(foundPlaces), results) == InsertAll(foundPlaces, results[i..])
        invariant old(order) + AddedIds(old(foundPlaces), results) == order + AddedIds(foundPlaces, results[i..])
      {
        ghost var before, orderBefore := foundPlaces, order;
        ProcessPlace(results[i]);
        InsertAllProgress(old(foundPlaces), old(order), results, i, before, orderBefore, foundPlaces, order);
        i := i + 1;
      }
    }

    /**
     * `enrich_with_details`: one details call per stored identifier, in
     * insertion order; each non-empty result is merged into its entry, and an
     * empty one leaves the entry alone without stopping the batch.
     */
    method EnrichWithDetails(lookup: string -> DetailsResponse)
      requires Valid()
      modifies this`foundPlaces, this`apiCalls
      ensures Valid()
      ensures foundPlaces == Enriched(old(foundPlaces), lookup)
      ensures foundPlaces.Keys == old(foundPlaces).Keys
      ensures apiCalls == old(apiCalls) + |order|
      ensures apiCalls == old(apiCalls) + |old(foundPlaces)|
    {
      StoreOkSize(foundPlaces, order);
      var entries := EnrichEach(foundPlaces, order, lookup);
      EnrichedKeepsKeys(foundPlaces, lookup);
      AgreeOnAllIds(entries, Enriched(foundPlaces, lookup), order);
      EnrichedKeepsStoreOk(foundPlaces, order, lookup);
      foundPlaces := entries;
    }

    /**
     * The batch loop of `enrich_with_details` over the identifiers `ids`:
     * entry `ids[k]` becomes its merge with the details looked up for it,
     * every other entry stays, and each identifier costs one call.
     */
    method EnrichEach(entries: map<string, Record>, ids: seq<string>, lookup: string -> DetailsResponse)
      returns (result: map<string, Record>)
      requires forall k :: 0 <= k < |ids| ==> ids[k] in entries
      requires forall i, j :: 0 <= i < j < |ids| ==> ids[i] != ids[j]
      modifies this`apiCalls
      ensures result.Keys == entries.Keys
      ensures forall k :: 0 <= k < |ids| ==> result[ids[k]] == Merge(entries[ids[k]], DetailsOf(lookup(ids[k])))
      ensures forall id :: id in entries && id !in ids ==> result[id] == entries[id]
      ensures apiCalls == old(apiCalls) + |ids|
    {
      result := entries;
      var i := 0;
      while i < |ids|
        invariant 0 <= i <= |ids|
        invariant result.Keys == entries.Keys
        invariant forall k :: 0 <= k < i ==> result[ids[k]] == Merge(entries[ids[k]], DetailsOf(lookup(ids[k])))
        invariant forall k :: i <= k < |ids| ==> result[ids[k]] == entries[ids[k]]
        invariant forall id :: id in entries && id !in ids ==> result[id] == entries[id]
        invariant apiCalls == old(apiCalls) + i
      {
        var placeId := ids[i];
        var details := GetPlaceDetails(placeId, lookup);
        if !IsEmpty(details) {
          result := result[placeId := Merge(result[placeId], details)];
        }
        i := i + 1;
      }
    }
  }

  /** Every point of the grid over `EdmontonBounds`, whatever the positive step, passes the region test. */
  lemma ConfiguredGridInRegion(step: real)
    requires step > 0.0
    ensures forall k :: 0 <= k < |GridPoints(EdmontonBounds, step)| ==>
      IsInEdmontonArea(GridPoints(EdmontonBounds, step)[k].lat, GridPoints(EdmontonBounds, step)[k].lng)
  {
    GridShape(EdmontonBounds, step);
  }

  /** Two stores with the same keys that agree at every listed identifier, where every key is listed, are equal. */
  lemma AgreeOnAllIds(m1: map<string, Record>, m2: map<string, Record>, ids: seq<string>)
    requires m1.Keys == m2.Keys
    requires forall id :: id in m1 ==> id in ids
    requires forall k :: 0 <= k < |ids| ==> ids[k] in m1 && m1[ids[k]] == m2[ids[k]]
    ensures m1 == m2
  {
    forall id | id in m1
      ensures m1[id] == m2[id]
    {
      var k :| 0 <= k < |ids| && ids[k] == id;
    }
  }

  /** Enrichment keeps the keys and the base fields, so it keeps the store invariant. */
  lemma EnrichedKeepsStoreOk(found: map<string, Record>, order: seq<string>, lookup: string -> DetailsResponse)
    requires StoreOk(found, order)
    ensures StoreOk(Enriched(found, lookup), order)
  {
    EnrichedKeepsKeys(found, lookup);
    EnrichedKeepsBase(found, lookup);
  }
}
