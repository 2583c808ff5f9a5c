/**
 * The enricher: how one place-details reply becomes a details object, and
 * how a non-empty details object is merged into a stored record.
 */
module Enrich {
  import opened Wrappers
  import opened Text
  import opened Places

  /**
   * `get_place_details` seen from its reply: the `result` object of an OK
   * reply (`{}` when it has none), and `{}` for any other status or a transport failure.
   */
  function DetailsOf(resp: DetailsResponse): (d: Details)
    ensures !IsEmpty(d) ==> resp.DetailsReply? && resp.status == Some("OK") && resp.result == Some(d)
    ensures resp.DetailsReply? && resp.status == Some("OK") && resp.result.Some? ==> d == resp.result.value
  {
    match resp
    case DetailsTransportError => NoDetails
    case DetailsReply(status, result) =>
      if status == Some("OK") then result.GetOr(NoDetails) else NoDetails
  }

  /** The weekday lines of the opening hours, `[]` when either level is missing. */
  function WeekdayText(d: Details): seq<string> {
    match d.openingHours
    case None => []
    case Some(h) => h.weekdayText.GetOr([])
  }

  function OpenNow(d: Details): Option<bool> {
    match d.openingHours
    case None => None
    case Some(h) => h.openNow
  }

  function Overview(d: Details): string {
    match d.editorialSummary
    case None => ""
    case Some(e) => e.overview.GetOr("")
  }

  /** The stored record after merging details into it; an empty details object changes nothing. */
  function Merge(r: Record, d: Details): Record {
    if IsEmpty(d) then r
    else
      r.(enrichment := Some(Enrichment(
        formattedAddress := if d.formattedAddress.Some? then d.formattedAddress else r.base.address,
        phone := d.phone.GetOr(""),
        website := d.website.GetOr(""),
        hours := Join("; ", WeekdayText(d)),
        isOpenNow := OpenNow(d),
        description := Overview(d))))
  }

  /** The store after every entry has been merged with the details looked up for its identifier. */
  function Enriched(found: map<string, Record>, lookup: string -> DetailsResponse): map<string, Record> {
    map id | id in found :: Merge(found[id], DetailsOf(lookup(id)))
  }

  /** A failed lookup (non-OK status, transport error, or an empty result) leaves the record as it was. */
  lemma FailedLookupChangesNothing(r: Record, resp: DetailsResponse)
    requires resp.DetailsTransportError? || resp.status != Some("OK") || resp.result.None?
    ensures Merge(r, DetailsOf(resp)) == r
  {
  }

  /**
   * A non-empty details object never touches the base fields and sets every
   * enrichment field: phone, website and description default to "", the
   * hours are the weekday lines joined by "; ", and the formatted address
   * falls back to the stored address; `is_open_now` is copied from the opening
   * hours, and the description is the summary's overview, or "" without one.
   */
  lemma MergeFields(r: Record, d: Details)
    ensures Merge(r, d).base == r.base
    ensures !IsEmpty(d) ==>
      && Merge(r, d).enrichment.Some?
      && var e := Merge(r, d).enrichment.value;
      && (d.formattedAddress.Some? ==> e.formattedAddress == d.formattedAddress)
      && (d.formattedAddress.None? ==> e.formattedAddress == r.base.address)
      && (d.phone.None? ==> e.phone == "") && (d.phone.Some? ==> e.phone == d.phone.value)
      && (d.website.None? ==> e.website == "") && (d.website.Some? ==> e.website == d.website.value)
      && e.hours == Join("; ", WeekdayText(d))
      && (WeekdayText(d) == [] ==> e.hours == "")
      && (forall k :: 0 <= k < |WeekdayText(d)| ==> Contains(e.hours, WeekdayText(d)[k]))
      && (d.openingHours.None? ==> e.isOpenNow.None?)
      && (d.openingHours.Some? ==> e.isOpenNow == d.openingHours.value.openNow)
      && e.description == (if d.editorialSummary.Some? && d.editorialSummary.value.overview.Some?
                           then d.editorialSummary.value.overview.value else "")
  {
  }

  /** Merging the same details twice is merging them once. */
  lemma MergeIdempotent(r: Record, d: Details)
    ensures Merge(Merge(r, d), d) == Merge(r, d)
  {
  }

  /** A second non-empty merge replaces the first one's fields entirely. */
  lemma MergeOverwrites(r: Record, d1: Details, d2: Details)
    requires !IsEmpty(d2)
    ensures Merge(Merge(r, d1), d2) == Merge(r, d2)
  {
  }

  /** Enrichment neither adds nor removes keys. */
  lemma EnrichedKeepsKeys(found: map<string, Record>, lookup: string -> DetailsResponse)
    ensures Enriched(found, lookup).Keys == found.Keys
    ensures |Enriched(found, lookup)| == |found|
  {
    assert Enriched(found, lookup).Keys == found.Keys;
  }

  /** Enrichment keeps every base field. */
  lemma EnrichedKeepsBase(found: map<string, Record>, lookup: string -> DetailsResponse)
    ensures forall id :: id in found ==> Enriched(found, lookup)[id].base == found[id].base
  {
  }

  /**
   * Failures are isolated: an entry's outcome depends only on its own lookup,
   * so another entry's failed lookup does not change it, and an entry whose
   * own lookup fails is left as it was.
   */
  lemma EnrichedIsolation(found: map<string, Record>, lookup: string -> DetailsResponse, other: string -> DetailsResponse, id: string)
    requires id in found && lookup(id) == other(id)
    ensures Enriched(found, lookup)[id] == Enriched(found, other)[id]
    ensures IsEmpty(DetailsOf(lookup(id))) ==> Enriched(found, lookup)[id] == found[id]
  {
  }
}
