/**
 * The dedup store's insert: which search results are kept, the record an
 * accepted result becomes, and the store it leaves behind. The store is the
 * map from place identifier to record; the first accepted result for an
 * identifier wins.
 */
module Dedup {
  import opened Wrappers
  import opened Text
  import opened Places
  import opened Classifier

  /** `place_id` is present and truthy. */
  predicate HasId(p: RawPlace) {
    Truthy(p.placeId)
  }

  /** A coordinate is truthy: present and not zero. */
  predicate TruthyCoordinate(x: Option<real>) {
    x.Some? && x.value != 0.0
  }

  /** The checks that do not depend on the store: coordinates, region, heuristic. */
  predicate Eligible(p: RawPlace) {
    && TruthyCoordinate(p.lat) && TruthyCoordinate(p.lng)
    && IsInEdmontonArea(p.lat.value, p.lng.value)
    && IsLikelyCafe(p)
  }

  /** The result is stored when its identifier is present and new and the other checks pass. */
  predicate Accepts(known: set<string>, p: RawPlace) {
    HasId(p) && p.placeId.value !in known && Eligible(p)
  }

  /** `vicinity or formatted_address`. */
  function Address(p: RawPlace): Option<string> {
    if Truthy(p.vicinity) then p.vicinity else p.formattedAddress
  }

  /** The record stored for an accepted result. */
  function Project(p: RawPlace): Record
    requires HasId(p) && TruthyCoordinate(p.lat) && TruthyCoordinate(p.lng)
  {
    Record(
      BaseFields(p.placeId.value, p.name, Address(p), p.lat.value, p.lng.value,
                 Join(", ", p.types), p.rating, p.userRatingsTotal, p.businessStatus, p.priceLevel),
      None)
  }

  /** The store after offering it one result. */
  function Insert(found: map<string, Record>, p: RawPlace): map<string, Record> {
    if Accepts(found.Keys, p) then found[p.placeId.value := Project(p)] else found
  }

  /** What every stored entry satisfies: keyed by its own truthy identifier, at truthy coordinates inside the region. */
  predicate StoredOk(id: string, r: Record) {
    && id != "" && r.base.placeId == id
    && r.base.lat != 0.0 && r.base.lng != 0.0
    && IsInEdmontonArea(r.base.lat, r.base.lng)
  }

  predicate AllStoredOk(found: map<string, Record>) {
    forall id :: id in found ==> StoredOk(id, found[id])
  }

  /** The store changes exactly when the result is accepted. */
  lemma InsertChangesIffAccepted(found: map<string, Record>, p: RawPlace)
    ensures Insert(found, p) != found <==> Accepts(found.Keys, p)
  {
    if Accepts(found.Keys, p) {
      assert p.placeId.value in Insert(found, p);
    }
  }

  /** Each reason to skip a result leaves the store as it was. */
  lemma InsertSkips(found: map<string, Record>, p: RawPlace)
    ensures !HasId(p) ==> Insert(found, p) == found
    ensures HasId(p) && p.placeId.value in found ==> Insert(found, p) == found
    ensures !TruthyCoordinate(p.lat) || !TruthyCoordinate(p.lng) ==> Insert(found, p) == found
    ensures p.lat.Some? && p.lng.Some? && !IsInEdmontonArea(p.lat.value, p.lng.value) ==> Insert(found, p) == found
    ensures !IsLikelyCafe(p) ==> Insert(found, p) == found
  {
  }

  /** First write wins: no entry already stored is ever changed or removed. */
  lemma InsertKeepsEntries(found: map<string, Record>, p: RawPlace)
    ensures found.Keys <= Insert(found, p).Keys
    ensures forall id :: id in found ==> Insert(found, p)[id] == found[id]
  {
  }

  /**
   * An accepted result adds exactly its own key; its record carries the
   * result's name, coordinates, rating, rating count, business status and
   * price level, the tags joined by ", ", the vicinity or else the formatted
   * address, and no enrichment yet.
   */
  lemma InsertAdds(found: map<string, Record>, p: RawPlace)
    requires Accepts(found.Keys, p)
    ensures var id := p.placeId.value; var m := Insert(found, p);
      && m.Keys == found.Keys + {id}
      && |m| == |found| + 1
      && m[id].base.placeId == id && m[id].base.name == p.name
      && m[id].base.lat == p.lat.value && m[id].base.lng == p.lng.value
      && m[id].base.rating == p.rating && m[id].base.userRatingsTotal == p.userRatingsTotal
      && m[id].base.businessStatus == p.businessStatus && m[id].base.priceLevel == p.priceLevel
      && m[id].base.types == Join(", ", p.types)
      && (forall k :: 0 <= k < |p.types| ==> Contains(m[id].base.types, p.types[k]))
      && (Truthy(p.vicinity) ==> m[id].base.address == p.vicinity)
      && (!Truthy(p.vicinity) ==> m[id].base.address == p.formattedAddress)
      && m[id].enrichment.None?
  {
    assert p.placeId.value !in found;
  }

  /** The store grows by at most one entry, and only by the result's own key. */
  lemma InsertGrowth(found: map<string, Record>, p: RawPlace)
    ensures |found| <= |Insert(found, p)| <= |found| + 1
    ensures forall id :: id in Insert(found, p) && id !in found ==> HasId(p) && id == p.placeId.value
  {
    if Accepts(found.Keys, p) {
      InsertAdds(found, p);
    }
  }

  /** Offering the same result twice is offering it once. */
  lemma InsertIdempotent(found: map<string, Record>, p: RawPlace)
    ensures Insert(Insert(found, p), p) == Insert(found, p)
  {
  }

  /** Every entry the store holds is well formed, before and after an insert. */
  lemma InsertKeepsStoredOk(found: map<string, Record>, p: RawPlace)
    requires AllStoredOk(found)
    ensures AllStoredOk(Insert(found, p))
  {
  }

  /** The store after offering it each result of a search, in order. */
  function InsertAll(found: map<string, Record>, ps: seq<RawPlace>): map<string, Record>
    decreases |ps|
  {
    if ps == [] then found else InsertAll(Insert(found, ps[0]), ps[1..])
  }

  /** The identifiers a batch adds to the store, in the order it adds them. */
  function AddedIds(found: map<string, Record>, ps: seq<RawPlace>): seq<string>
    decreases |ps|
  {
    if ps == [] then []
    else (if Accepts(found.Keys, ps[0]) then [ps[0].placeId.value] else []) + AddedIds(Insert(found, ps[0]), ps[1..])
  }

  /** One step of a batch at position `i`. */
  lemma InsertAllAt(found: map<string, Record>, ps: seq<RawPlace>, i: nat)
    requires i < |ps|
    ensures InsertAll(found, ps[i..]) == InsertAll(Insert(found, ps[i]), ps[i + 1..])
    ensures AddedIds(found, ps[i..]) ==
      (if Accepts(found.Keys, ps[i]) then [ps[i].placeId.value] else []) + AddedIds(Insert(found, ps[i]), ps[i + 1..])
  {
    assert ps[i..][0] == ps[i] && ps[i..][1..] == ps[i + 1..];
  }

  /** The identifiers a batch adds are new to the store, and they are exactly the keys it gains. */
  lemma {:induction false} AddedIdsAreNewKeys(found: map<string, Record>, ps: seq<RawPlace>)
    ensures forall id :: id in AddedIds(found, ps) ==> id !in found
    ensures forall id :: id in InsertAll(found, ps) <==> id in found || id in AddedIds(found, ps)
    decreases |ps|
  {
    if ps != [] {
      var next := Insert(found, ps[0]);
      AddedIdsAreNewKeys(next, ps[1..]);
      InsertGrowth(found, ps[0]);
    }
  }

  /**
   * A batch loop that has reached position `i` with store `before` and
   * order `orderBefore`, and then offers `ps[i]`, is still on course to end
   * with `InsertAll(found, ps)` and `order + AddedIds(found, ps)`.
   */
  lemma InsertAllProgress(found: map<string, Record>, order: seq<string>, ps: seq<RawPlace>, i: nat,
                          before: map<string, Record>, orderBefore: seq<string>,
                          after: map<string, Record>, orderAfter: seq<string>)
    requires i < |ps|
    requires InsertAll(found, ps) == InsertAll(before, ps[i..])
    requires order + AddedIds(found, ps) == orderBefore + AddedIds(before, ps[i..])
    requires after == Insert(before, ps[i])
    requires orderAfter == if Accepts(before.Keys, ps[i]) then orderBefore + [ps[i].placeId.value] else orderBefore
    ensures InsertAll(found, ps) == InsertAll(after, ps[i + 1..])
    ensures order + AddedIds(found, ps) == orderAfter + AddedIds(after, ps[i + 1..])
  {
    InsertAllAt(before, ps, i);
    var added := if Accepts(before.Keys, ps[i]) then [ps[i].placeId.value] else [];
    AppendRegroup(orderBefore, added, AddedIds(after, ps[i + 1..]));
  }

  lemma AppendRegroup<T>(a: seq<T>, b: seq<T>, c: seq<T>)
    ensures a + (b + c) == (a + b) + c
  {
  }

  /** First write wins across a whole batch: earlier entries survive unchanged. */
  lemma {:induction false} InsertAllKeepsEntries(found: map<string, Record>, ps: seq<RawPlace>)
    ensures found.Keys <= InsertAll(found, ps).Keys
    ensures forall id :: id in found ==> InsertAll(found, ps)[id] == found[id]
    ensures |InsertAll(found, ps)| <= |found| + |ps|
    decreases |ps|
  {
    if ps != [] {
      InsertGrowth(found, ps[0]);
      InsertAllKeepsEntries(Insert(found, ps[0]), ps[1..]);
    }
  }

  /** A result the store rejects is still rejected by any larger store. */
  lemma RejectionPersists(known: set<string>, more: set<string>, p: RawPlace)
    requires known <= more && !Accepts(known, p)
    ensures !Accepts(more, p)
  {
  }

  /** After a batch, every result of the batch is rejected by the store it produced. */
  lemma {:induction false} InsertAllSettles(found: map<string, Record>, ps: seq<RawPlace>)
    ensures forall k :: 0 <= k < |ps| ==> !Accepts(InsertAll(found, ps).Keys, ps[k])
    decreases |ps|
  {
    if ps != [] {
      var next := Insert(found, ps[0]);
      InsertAllSettles(next, ps[1..]);
      InsertAllKeepsEntries(next, ps[1..]);
      assert !Accepts(next.Keys, ps[0]);
      RejectionPersists(next.Keys, InsertAll(next, ps[1..]).Keys, ps[0]);
      forall k | 1 <= k < |ps|
        ensures !Accepts(InsertAll(found, ps).Keys, ps[k])
      {
        assert ps[k] == ps[1..][k - 1];
      }
    }
  }

  /** A batch whose every result the store already rejects leaves the store alone. */
  lemma {:induction false} InsertAllOfRejected(found: map<string, Record>, ps: seq<RawPlace>)
    requires forall k :: 0 <= k < |ps| ==> !Accepts(found.Keys, ps[k])
    ensures InsertAll(found, ps) == found
    decreases |ps|
  {
    if ps != [] {
      assert Insert(found, ps[0]) == found;
      assert forall k :: 0 <= k < |ps[1..]| ==> ps[1..][k] == ps[k + 1];
      InsertAllOfRejected(found, ps[1..]);
    }
  }

  /** Replaying a batch into the store it produced changes nothing. */
  lemma InsertAllIdempotent(found: map<string, Record>, ps: seq<RawPlace>)
    ensures InsertAll(InsertAll(found, ps), ps) == InsertAll(found, ps)
  {
    InsertAllSettles(found, ps);
    InsertAllOfRejected(InsertAll(found, ps), ps);
  }
}
