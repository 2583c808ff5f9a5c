/**
 * The records the fetcher reads and stores. Upstream JSON objects are modelled
 * as datatypes: a key the object may lack is an `Option`, and a list that
 * defaults to `[]` when missing is a plain sequence.
 */
module Places {
  import opened Wrappers

  /** A nearby-search result as it comes from the upstream API. */
  datatype RawPlace = RawPlace(
    placeId: Option<string>,
    name: Option<string>,
    types: seq<string>,
    lat: Option<real>,
    lng: Option<real>,
    vicinity: Option<string>,
    formattedAddress: Option<string>,
    rating: Option<real>,
    userRatingsTotal: Option<int>,
    businessStatus: Option<string>,
    priceLevel: Option<int>)

  /** The fields projected from a raw result when it is first accepted. */
  datatype BaseFields = BaseFields(
    placeId: string,
    name: Option<string>,
    address: Option<string>,
    lat: real,
    lng: real,
    types: string,
    rating: Option<real>,
    userRatingsTotal: Option<int>,
    businessStatus: Option<string>,
    priceLevel: Option<int>)

  /** The fields the enricher adds to a stored record. */
  datatype Enrichment = Enrichment(
    formattedAddress: Option<string>,
    phone: string,
    website: string,
    hours: string,
    isOpenNow: Option<bool>,
    description: string)

  /** A stored record: its base fields and, once enriched, the extra fields. */
  datatype Record = Record(base: BaseFields, enrichment: Option<Enrichment>)

  datatype OpeningHours = OpeningHours(weekdayText: Option<seq<string>>, openNow: Option<bool>)

  datatype EditorialSummary = EditorialSummary(overview: Option<string>)

  /**
   * A place-details result object. The five keys the merge reads are fields;
   * `otherKeys` names whatever other keys the object holds (name, geometry, ...),
   * which matter only for whether the object is empty.
   */
  datatype Details = Details(
    formattedAddress: Option<string>,
    phone: Option<string>,
    website: Option<string>,
    openingHours: Option<OpeningHours>,
    editorialSummary: Option<EditorialSummary>,
    otherKeys: set<string>)

  const NoDetails: Details := Details(None, None, None, None, None, {})

  /** Python's truthiness of the details dict: false exactly for `{}`. */
  predicate IsEmpty(d: Details) {
    d == NoDetails
  }

  /** One reply of the place-details endpoint, or a transport-level failure. */
  datatype DetailsResponse =
    | DetailsReply(status: Option<string>, result: Option<Details>)
    | DetailsTransportError

  /** One reply of the nearby-search endpoint, or a transport-level failure. */
  datatype SearchResponse =
    | SearchReply(status: Option<string>, results: seq<RawPlace>, nextPageToken: Option<string>)
    | SearchTransportError

  /** Python truthiness of an optional string: present and not empty. */
  predicate Truthy(s: Option<string>) {
    s.Some? && s.value != ""
  }
}
