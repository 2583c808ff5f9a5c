/**
 * The two filters a search result must pass before it is stored: the region
 * test (the Edmonton box widened by a margin) and the cafe heuristic (an allow
 * rule on type tags or name keywords, vetoed by any deny keyword in the name).
 */
module Classifier {
  import opened Wrappers
  import opened Text
  import opened Config
  import opened Places

  const CafeTypes: seq<string> := ["cafe", "coffee_shop", "bakery", "restaurant", "food", "bar"]

  const CafeKeywords: seq<string> :=
    ["cafe", "coffee", "espresso", "latte", "cappuccino", "tea", "boba", "bubble",
     "bakery", "patisserie", "bistro", "beans", "brew", "roast", "starbucks",
     "tim hortons", "second cup", "good earth", "blenz"]

  const ExcludeKeywords: seq<string> :=
    ["gas station", "convenience store", "hotel", "hospital", "school",
     "university", "library", "gym", "bank", "car wash"]

  /** The box the region test accepts: 53.3..53.8 north, 113.8..113.2 west, ends included. */
  function IsInEdmontonArea(lat: real, lng: real): (r: bool)
    ensures r <==> 53.3 <= lat <= 53.8 && -113.8 <= lng <= -113.2
  {
    && EdmontonBounds.south - AreaMargin <= lat <= EdmontonBounds.north + AreaMargin
    && EdmontonBounds.west - AreaMargin <= lng <= EdmontonBounds.east + AreaMargin
  }

  /** The name the keyword tests look at: lower-cased, `""` when the name is missing. */
  function NameKey(p: RawPlace): string {
    Lower(p.name.GetOr(""))
  }

  /** Some tag of the place is on the allow-list of types. */
  predicate HasCafeType(types: seq<string>) {
    exists k :: 0 <= k < |CafeTypes| && CafeTypes[k] in types
  }

  predicate HasCafeKeyword(p: RawPlace) {
    ContainsAny(NameKey(p), CafeKeywords)
  }

  predicate IsExcluded(p: RawPlace) {
    ContainsAny(NameKey(p), ExcludeKeywords)
  }

  predicate IsLikelyCafe(p: RawPlace) {
    (HasCafeType(p.types) || HasCafeKeyword(p)) && !IsExcluded(p)
  }

  /**
   * The heuristic in terms of substring positions: accepted exactly when an
   * allowed type tag is present or an allow keyword occurs somewhere in the
   * lower-cased name, and no deny keyword occurs anywhere in it.
   */
  lemma LikelyCafeIff(p: RawPlace)
    ensures IsLikelyCafe(p) <==>
      && ((exists t :: t in CafeTypes && t in p.types)
          || (exists kw, i: nat :: kw in CafeKeywords && OccursAt(kw, NameKey(p), i)))
      && (forall kw, i: nat :: kw in ExcludeKeywords ==> !OccursAt(kw, NameKey(p), i))
  {
    var name := NameKey(p);
    assert (exists t :: t in CafeTypes && t in p.types) <==> HasCafeType(p.types) by {
      if t :| t in CafeTypes && t in p.types {
        var k :| 0 <= k < |CafeTypes| && CafeTypes[k] == t;
      }
    }
    assert HasCafeKeyword(p) <==> exists kw, i: nat :: kw in CafeKeywords && OccursAt(kw, name, i) by {
      if HasCafeKeyword(p) {
        var k :| 0 <= k < |CafeKeywords| && Contains(name, CafeKeywords[k]);
        var i: nat :| OccursAt(CafeKeywords[k], name, i);
      }
      if kw, i: nat :| kw in CafeKeywords && OccursAt(kw, name, i) {
        var k :| 0 <= k < |CafeKeywords| && CafeKeywords[k] == kw;
        assert Contains(name, CafeKeywords[k]);
      }
    }
    assert IsExcluded(p) <==> exists kw, i: nat :: kw in ExcludeKeywords && OccursAt(kw, name, i) by {
      if IsExcluded(p) {
        var k :| 0 <= k < |ExcludeKeywords| && Contains(name, ExcludeKeywords[k]);
        var i: nat :| OccursAt(ExcludeKeywords[k], name, i);
      }
      if kw, i: nat :| kw in ExcludeKeywords && OccursAt(kw, name, i) {
        var k :| 0 <= k < |ExcludeKeywords| && ExcludeKeywords[k] == kw;
        assert Contains(name, ExcludeKeywords[k]);
      }
    }
  }

  /** Deny wins: a deny keyword in the name rejects the place whatever its tags and allow keywords. */
  lemma DenyWins(p: RawPlace)
    requires IsExcluded(p)
    ensures !IsLikelyCafe(p)
  {
  }

  /** An accepted place matched at least one allow rule. */
  lemma AllowRequired(p: RawPlace)
    requires IsLikelyCafe(p)
    ensures HasCafeType(p.types) || HasCafeKeyword(p)
  {
  }

  /** Only the lower-cased name matters: names that agree after lower-casing get the same verdict. */
  lemma NameCaseIgnored(p: RawPlace, q: RawPlace)
    requires p.types == q.types
    requires Lower(p.name.GetOr("")) == Lower(q.name.GetOr(""))
    ensures IsLikelyCafe(p) == IsLikelyCafe(q)
  {
  }

  /** Lower-casing the stored name up front never changes the verdict. */
  lemma LowerCasedNameSameVerdict(p: RawPlace)
    ensures IsLikelyCafe(p) == IsLikelyCafe(p.(name := Some(NameKey(p))))
  {
    LowerIdempotent(p.name.GetOr(""));
  }

  /** The empty string contains no non-empty keyword. */
  lemma EmptyNameMatchesNothing(keywords: seq<string>)
    requires forall k :: 0 <= k < |keywords| ==> keywords[k] != ""
    ensures !ContainsAny("", keywords)
  {
    forall k | 0 <= k < |keywords|
      ensures !Contains("", keywords[k])
    {
      assert |keywords[k]| > 0;
    }
  }

  /** A missing name is the empty name: only the type tags can then admit the place. */
  lemma MissingNameUsesTypesOnly(p: RawPlace)
    requires p.name.None?
    ensures IsLikelyCafe(p) <==> HasCafeType(p.types)
  {
    assert NameKey(p) == "";
    EmptyNameMatchesNothing(CafeKeywords);
    EmptyNameMatchesNothing(ExcludeKeywords);
  }

  /** A keyword holding a character that the name lacks does not occur in the name. */
  lemma AbsentCharacter(haystack: string, needle: string, j: nat)
    requires j < |needle| && needle[j] !in haystack
    ensures !Contains(haystack, needle)
  {
  }

  /** `t` is `s` lower-cased, checked character by character. */
  lemma LowerOf(s: string, t: string)
    requires |s| == |t| && forall i :: 0 <= i < |s| ==> LowerChar(s[i]) == t[i]
    ensures Lower(s) == t
  {
  }

  /** A deny keyword found at a known position rejects the place. */
  lemma DeniedAt(p: RawPlace, k: nat, i: nat)
    requires k < |ExcludeKeywords| && OccursAt(ExcludeKeywords[k], NameKey(p), i)
    ensures !IsLikelyCafe(p)
  {
    assert Contains(NameKey(p), ExcludeKeywords[k]);
  }

  /**
   * Each deny keyword holds a character that "tim hortons" lacks, so none occurs in it.
   * The name comes in as a parameter, so that the solver meets the literal only through
   * the precondition. The same goes for the two example helpers below.
   */
  lemma NoDenyKeywordInTimHortons(name: string)
    requires name == "tim hortons"
    ensures !ContainsAny(name, ExcludeKeywords)
  {
    forall k | 0 <= k < |ExcludeKeywords|
      ensures !Contains(name, ExcludeKeywords[k])
    {
      var j := if k == 2 || k == 3 then 3 else if k == 4 then 1 else 0;
      AbsentCharacter(name, ExcludeKeywords[k], j);
    }
  }

  /** A place named "Tim Hortons" and tagged `cafe` is accepted. */
  lemma TimHortonsAccepted(p: RawPlace)
    requires p.name == Some("Tim Hortons") && p.types == ["cafe"]
    ensures IsLikelyCafe(p)
  {
    LowerOf(p.name.GetOr(""), "tim hortons");
    NoDenyKeywordInTimHortons(NameKey(p));
    assert CafeTypes[0] in p.types;
  }

  lemma HotelAtFour(name: string)
    requires name == "xyz hotel cafe"
    ensures OccursAt(ExcludeKeywords[2], name, 4)
  {
  }

  /** A place named "XYZ Hotel Cafe" is rejected although its name holds "cafe": "hotel" is a deny keyword. */
  lemma HotelCafeRejected(p: RawPlace)
    requires p.name == Some("XYZ Hotel Cafe")
    ensures !IsLikelyCafe(p)
  {
    LowerOf(p.name.GetOr(""), "xyz hotel cafe");
    HotelAtFour(NameKey(p));
    DeniedAt(p, 2, 4);
  }

  lemma GasStationAtFour(name: string)
    requires name == "abc gas station"
    ensures OccursAt(ExcludeKeywords[0], name, 4)
  {
  }

  /** A place named "ABC Gas Station" is rejected, whatever its tags. */
  lemma GasStationRejected(p: RawPlace)
    requires p.name == Some("ABC Gas Station")
    ensures !IsLikelyCafe(p)
  {
    LowerOf(p.name.GetOr(""), "abc gas station");
    GasStationAtFour(NameKey(p));
    DeniedAt(p, 0, 4);
  }

  /** The four corners of the unwidened box pass the region test. */
  lemma CornersAccepted()
    ensures IsInEdmontonArea(EdmontonBounds.south, EdmontonBounds.west)
    ensures IsInEdmontonArea(EdmontonBounds.south, EdmontonBounds.east)
    ensures IsInEdmontonArea(EdmontonBounds.north, EdmontonBounds.west)
    ensures IsInEdmontonArea(EdmontonBounds.north, EdmontonBounds.east)
  {
  }

  /** Half a margin outside an edge is accepted; two margins outside is rejected. */
  lemma MarginExamples(lng: real)
    requires EdmontonBounds.west <= lng <= EdmontonBounds.east
    ensures IsInEdmontonArea(EdmontonBounds.south - 0.05, lng)
    ensures !IsInEdmontonArea(EdmontonBounds.south - 0.2, lng)
    ensures !IsInEdmontonArea(EdmontonBounds.north + 0.2, lng)
  {
  }
}
