/** The search-results component (src/components/PropertySearchResults.tsx): the conjunctive filter
    over its catalogue, the random-distance ordering applied when a location was searched, and the
    favourites set. */
module PropertySearch {
  import opened Collections
  import opened Text
  import opened SearchCriteria

  /** A bedroom or bathroom count: a number, or a label such as "Shared" or "Office". */
  datatype RoomCount = Rooms(n: int) | Label(text: string)

  /** A catalogue record. Coordinates, images, features, contact and landlord details are carried by
      the source for display only and are not part of this record. */
  datatype Property = Property(
    id: int,
    title: string,
    location: string,
    price: string,
    period: string,
    kind: string,
    beds: RoomCount,
    baths: RoomCount,
    area: string,
    verified: bool,
    availability: string,
    emirate: string,
    distance: Option<real>)

  /** The component's hard-coded catalogue. */
  const AllProperties: seq<Property> := [
    Property(1, "Luxury 1BR Apartment in Dubai Marina with Sea View", "Dubai Marina", "AED 8,500", "/month",
             "apartment", Rooms(1), Rooms(1), "750 sq ft", true, "Available Now", "dubai", None),
    Property(2, "Modern 2BR Villa in Arabian Ranches with Garden", "Arabian Ranches", "AED 12,000", "/month",
             "villa", Rooms(2), Rooms(2), "1,800 sq ft", true, "Available from Aug 15", "dubai", None),
    Property(3, "Affordable Bedspace in Deira - Near Metro", "Deira", "AED 850", "/month",
             "bedspace", Label("Shared"), Label("Shared"), "Bed + Storage", true, "Available Now", "dubai", None),
    Property(4, "Executive Office Space in Business Bay", "Business Bay", "AED 8,000", "/month",
             "commercial", Label("Office"), Rooms(1), "800 sq ft", true, "Available Now", "dubai", None)
  ]

  // ----- the filter -----

  /** `parseInt(price.replace(/\D/g, ''))`, `None` standing for NaN. */
  function PriceValue(price: string): Option<nat>
  {
    NumberIn(price)
  }

  /** `range.split('-').map(p => parseInt(p.replace(/\D/g, '')))` destructured into `[min, max]`:
      `min` from the first part, `max` from the second (`None` when there is none or it is NaN). */
  function RangeBounds(range: string): (Option<nat>, Option<nat>)
  {
    var parts := Split(range, '-');
    (NumberIn(parts[0]), if |parts| > 1 then NumberIn(parts[1]) else None)
  }

  /** The negation of `propertyPrice < min || (max && propertyPrice > max)`, where every comparison
      with NaN is false and `max` is falsy when it is absent, NaN or 0. */
  predicate WithinRange(price: Option<nat>, range: string)
  {
    var (lo, hi) := RangeBounds(range);
    !(price.Some? && lo.Some? && price.value < lo.value)
    && !(price.Some? && hi.Some? && hi.value != 0 && price.value > hi.value)
  }

  predicate LocationMatches(p: Property, c: Criteria)
  {
    c.location == "" || Contains(Lower(p.location), Lower(c.location))
  }

  predicate KindMatches(p: Property, c: Criteria)
  {
    c.propertyType == "" || p.kind == c.propertyType
  }

  predicate EmirateMatches(p: Property, c: Criteria)
  {
    c.emirate == "" || c.emirate == "all" || p.emirate == c.emirate
  }

  predicate PriceMatches(p: Property, c: Criteria)
  {
    c.priceRange == "" || WithinRange(PriceValue(p.price), c.priceRange)
  }

  /** The predicate handed to `allProperties.filter`. Bedrooms, availability and the near-metro,
      mall and beach criteria are not consulted. */
  predicate Matches(p: Property, c: Criteria)
  {
    LocationMatches(p, c) && KindMatches(p, c) && EmirateMatches(p, c) && PriceMatches(p, c)
  }

  /** The filtered list: exactly the catalogue records that match, in catalogue order. */
  function FilterProperties(catalogue: seq<Property>, c: Criteria): (r: seq<Property>)
    ensures forall p :: p in r <==> p in catalogue && Matches(p, c)
  {
    Filter((p: Property) => Matches(p, c), catalogue)
  }

  /** The filter only removes records and keeps their relative order. */
  lemma FilterKeepsOrder(catalogue: seq<Property>, c: Criteria)
    ensures IsSubsequence(FilterProperties(catalogue, c), catalogue)
  {
    FilterIsSubsequence((p: Property) => Matches(p, c), catalogue);
  }

  /** Criteria that constrain nothing keep the whole catalogue in its order. */
  lemma UnconstrainedKeepsAll(catalogue: seq<Property>, c: Criteria)
    requires c.location == "" && c.propertyType == "" && c.priceRange == ""
    requires c.emirate == "" || c.emirate == "all"
    ensures FilterProperties(catalogue, c) == catalogue
  {
    FilterKeepsAll((p: Property) => Matches(p, c), catalogue);
  }

  /** A record that survives a location criterion contains it, lower-cased, as a substring of its
      lower-cased location; the converse containment is not enough. */
  lemma LocationIsOneWay(p: Property, c: Criteria)
    requires c.location != ""
    ensures Matches(p, c) ==> Contains(Lower(p.location), Lower(c.location))
    ensures |c.location| > |p.location| ==> !Matches(p, c)
  {
    if |c.location| > |p.location| {
      LongerNeverContained(Lower(p.location), Lower(c.location));
    }
  }

  /** Type and emirate criteria demand exact equality; '' and 'all' leave the emirate open. */
  lemma KindAndEmirate(p: Property, c: Criteria)
    ensures c.propertyType != "" && Matches(p, c) ==> p.kind == c.propertyType
    ensures c.emirate != "" && c.emirate != "all" && Matches(p, c) ==> p.emirate == c.emirate
    ensures c.emirate == "all" ==> EmirateMatches(p, c)
  {
  }

  /** The catalogue's first price reads as 8500: the separator and the currency are dropped.
      The price is a parameter fixed by the precondition, so that the verifier reasons through
      `DigitsAroundSeparator` instead of evaluating the functions on the literal. */
  lemma PriceDigitsExample(price: string)
    requires price == "AED 8,500"
    ensures PriceValue(price) == Some(8500)
  {
    assert price == "AED " + "8" + "," + "500";
    DigitsAroundSeparator("AED ", "8", ",", "500");
    assert "8" + "500" == "8500";
    PriceDecimal();
  }

  lemma PriceDecimal()
    ensures DecimalValue("8500") == 8500
  {
    assert "8500"[..3] == "850" && "850"[..2] == "85" && "85"[..1] == "8" && "8"[..0] == "";
  }

  /** A "min-max" range keeps a price exactly when min <= price <= max; an upper bound of 0 is
      ignored. */
  lemma {:induction false} RangeIsInclusive(lo: nat, hi: nat, price: nat)
    ensures var range := ShowNat(lo) + "-" + ShowNat(hi);
            RangeBounds(range) == (Some(lo), Some(hi))
            && (WithinRange(Some(price), range) <==> lo <= price && (hi == 0 || price <= hi))
  {
    var range := ShowNat(lo) + "-" + ShowNat(hi);
    var parts := [ShowNat(lo), ShowNat(hi)];
    assert '-' !in ShowNat(lo) by {
      assert forall i :: 0 <= i < |ShowNat(lo)| ==> IsDigit(ShowNat(lo)[i]);
    }
    assert '-' !in ShowNat(hi) by {
      assert forall i :: 0 <= i < |ShowNat(hi)| ==> IsDigit(ShowNat(hi)[i]);
    }
    assert parts[1..] == [ShowNat(hi)];
    assert Join(parts, '-') == range;
    SplitJoin(parts, '-');
    NumberInAfterPrefix("", lo);
    NumberInAfterPrefix("", hi);
    assert "" + ShowNat(lo) == ShowNat(lo) && "" + ShowNat(hi) == ShowNat(hi);
  }

  /** A range without '-' has no upper bound. */
  lemma {:induction false} RangeWithoutDash(range: string, price: nat)
    requires '-' !in range
    ensures RangeBounds(range) == (NumberIn(range), None)
    ensures WithinRange(Some(price), range) <==> NumberIn(range).None? || NumberIn(range).value <= price
  {
    SplitJoin([range], '-');
  }

  /** A record whose price has no digit (NaN) passes every range, and a bound that reads as NaN
      excludes nothing: with a NaN minimum ("-8000") only the maximum is tested, with a NaN
      maximum ("5000-") only the minimum, and with both NaN nothing is. */
  lemma NaNExcludesNothing(price: Option<nat>, range: string)
    ensures price.None? ==> WithinRange(price, range)
    ensures var (lo, hi) := RangeBounds(range);
            lo.None? && price.Some? ==>
              (WithinRange(price, range) <==> !(hi.Some? && hi.value != 0 && price.value > hi.value))
    ensures var (lo, hi) := RangeBounds(range);
            hi.None? && price.Some? ==> (WithinRange(price, range) <==> !(lo.Some? && price.value < lo.value))
    ensures RangeBounds(range).0.None? && RangeBounds(range).1.None? ==> WithinRange(price, range)
  {
  }

  /** "5000-10000" keeps 5000 and 10000 and drops 4999 and 10001. */
  lemma RangeBoundaryExample()
    ensures WithinRange(Some(5000), "5000-10000") && WithinRange(Some(10000), "5000-10000")
    ensures !WithinRange(Some(4999), "5000-10000") && !WithinRange(Some(10001), "5000-10000")
  {
    assert ShowNat(5000) == "5000" && ShowNat(10000) == "10000";
    assert ShowNat(5000) + "-" + ShowNat(10000) == "5000-10000";
    RangeIsInclusive(5000, 10000, 5000);
    RangeIsInclusive(5000, 10000, 10000);
    RangeIsInclusive(5000, 10000, 4999);
    RangeIsInclusive(5000, 10000, 10001);
  }

  // ----- the distance ordering -----

  /** The key `(p.distance || 0)` the comparator subtracts. */
  function DistanceKey(p: Property): real
  {
    match p.distance
    case Some(d) => d
    case None => 0.0
  }

  ghost predicate SortedByDistance(ps: seq<Property>)
  {
    forall i, j :: 0 <= i < j < |ps| ==> DistanceKey(ps[i]) <= DistanceKey(ps[j])
  }

  /** The ids of a list of records, in order. */
  function Ids(ps: seq<Property>): (r: seq<int>)
    ensures |r| == |ps| && forall i :: 0 <= i < |ps| ==> r[i] == ps[i].id
  {
    if ps == [] then [] else [ps[0].id] + Ids(ps[1..])
  }

  /** `filtered.map(p => ({...p, distance: Math.random() * 5 + 0.5}))`, the i-th call to
      `Math.random` returning `draws(i)`. */
  function AttachDistances(ps: seq<Property>, draws: nat -> real): (r: seq<Property>)
    ensures |r| == |ps|
    ensures forall i :: 0 <= i < |ps| ==> r[i] == ps[i].(distance := Some(draws(i) * 5.0 + 0.5))
  {
    seq(|ps|, i requires 0 <= i < |ps| => ps[i].(distance := Some(draws(i) * 5.0 + 0.5)))
  }

  /** With draws in [0, 1), every attached distance lies in [0.5, 5.5), and only `distance`
      changes. */
  lemma AttachedDistanceRange(ps: seq<Property>, draws: nat -> real)
    requires forall i: nat :: 0.0 <= draws(i) < 1.0
    ensures Ids(AttachDistances(ps, draws)) == Ids(ps)
    ensures forall i :: 0 <= i < |ps| ==> 0.5 <= DistanceKey(AttachDistances(ps, draws)[i]) < 5.5
    ensures forall i :: 0 <= i < |ps| ==> AttachDistances(ps, draws)[i].(distance := ps[i].distance) == ps[i]
  {
    assert forall i :: 0 <= i < |ps| ==> Ids(AttachDistances(ps, draws))[i] == Ids(ps)[i];
  }

  lemma SortedTail(ps: seq<Property>)
    requires ps != [] && SortedByDistance(ps)
    ensures SortedByDistance(ps[1..])
  {
    forall i, j | 0 <= i < j < |ps| - 1
      ensures DistanceKey(ps[1..][i]) <= DistanceKey(ps[1..][j])
    {
      assert ps[1..][i] == ps[i + 1] && ps[1..][j] == ps[j + 1];
    }
  }

  /** Inserts `p` before the first record whose key is not smaller, keeping the order sorted. */
  function InsertByDistance(p: Property, ps: seq<Property>): (r: seq<Property>)
    requires SortedByDistance(ps)
    ensures |r| == |ps| + 1
    ensures r[0] == p || (ps != [] && r[0] == ps[0])
    ensures SortedByDistance(r)
    ensures multiset(r) == multiset(ps) + multiset{p}
  {
    if ps == [] then [p]
    else if DistanceKey(p) <= DistanceKey(ps[0]) then [p] + ps
    else
      SortedTail(ps);
      var rest := InsertByDistance(p, ps[1..]);
      assert ps == [ps[0]] + ps[1..];
      LowerBoundKept(DistanceKey(ps[0]), p, ps[1..], rest);
      ConsSorted(ps[0], rest);
      [ps[0]] + rest
  }

  /** Every record of `rest`, a rearrangement of `tail` plus `p`, has a key of at least `k` when
      `p` and every record of `tail` do. */
  lemma LowerBoundKept(k: real, p: Property, tail: seq<Property>, rest: seq<Property>)
    requires multiset(rest) == multiset(tail) + multiset{p}
    requires k <= DistanceKey(p) && forall i :: 0 <= i < |tail| ==> k <= DistanceKey(tail[i])
    ensures forall j :: 0 <= j < |rest| ==> k <= DistanceKey(rest[j])
  {
    forall j | 0 <= j < |rest|
      ensures k <= DistanceKey(rest[j])
    {
      assert rest[j] in multiset(rest);
      if rest[j] != p {
        assert rest[j] in multiset(tail);
      }
    }
  }

  /** A record whose key is at most every key of a sorted list may go in front of it. */
  lemma ConsSorted(x: Property, rest: seq<Property>)
    requires SortedByDistance(rest)
    requires forall j :: 0 <= j < |rest| ==> DistanceKey(x) <= DistanceKey(rest[j])
    ensures SortedByDistance([x] + rest)
  {
    forall i, j | 0 <= i < j < |rest| + 1
      ensures DistanceKey(([x] + rest)[i]) <= DistanceKey(([x] + rest)[j])
    {
      if i > 0 {
        assert ([x] + rest)[i] == rest[i - 1];
      }
      assert ([x] + rest)[j] == rest[j - 1];
    }
  }

  lemma IdsConcat(a: seq<Property>, b: seq<Property>)
    ensures Ids(a + b) == Ids(a) + Ids(b)
  {
    assert forall i :: 0 <= i < |a + b| ==> Ids(a + b)[i] == (Ids(a) + Ids(b))[i];
  }

  /** Past a record whose key is smaller, insertion goes into the tail. */
  lemma InsertStep(p: Property, ps: seq<Property>)
    requires SortedByDistance(ps) && ps != [] && DistanceKey(p) > DistanceKey(ps[0])
    ensures InsertByDistance(p, ps) == [ps[0]] + InsertByDistance(p, ps[1..])
  {
  }

  /** Putting a record in front of a list whose ids are those of `ps[1..]` plus `id` gives the ids
      of `ps` plus `id`, when that record is `ps[0]`. */
  lemma ConsIds(rest: seq<Property>, ps: seq<Property>, id: int)
    requires ps != []
    requires multiset(Ids(rest)) == multiset(Ids(ps[1..])) + multiset{id}
    ensures multiset(Ids([ps[0]] + rest)) == multiset(Ids(ps)) + multiset{id}
  {
    IdsConcat([ps[0]], rest);
    IdsConcat([ps[0]], ps[1..]);
    assert [ps[0]] + ps[1..] == ps;
    assert Ids([ps[0]]) == [ps[0].id];
  }

  /** Inserting adds exactly the inserted record's id to the multiset of ids. */
  lemma {:induction false} InsertKeepsIds(p: Property, ps: seq<Property>)
    requires SortedByDistance(ps)
    ensures multiset(Ids(InsertByDistance(p, ps))) == multiset(Ids(ps)) + multiset{p.id}
  {
    if ps == [] {
      assert Ids([p]) == [p.id];
    } else if DistanceKey(p) <= DistanceKey(ps[0]) {
      IdsConcat([p], ps);
      assert Ids([p]) == [p.id];
    } else {
      SortedTail(ps);
      InsertKeepsIds(p, ps[1..]);
      InsertStep(p, ps);
      ConsIds(InsertByDistance(p, ps[1..]), ps, p.id);
    }
  }

  /** `.sort((a, b) => (a.distance || 0) - (b.distance || 0))`: ascending by distance and a
      permutation of the input. */
  function SortByDistance(ps: seq<Property>): (r: seq<Property>)
    ensures SortedByDistance(r)
    ensures multiset(r) == multiset(ps)
  {
    if ps == [] then []
    else
      var sorted := SortByDistance(ps[1..]);
      assert multiset(ps) == multiset{ps[0]} + multiset(ps[1..]) by {
        assert ps == [ps[0]] + ps[1..];
      }
      InsertByDistance(ps[0], sorted)
  }

  /** Sorting keeps the multiset of ids. */
  lemma {:induction false} SortKeepsIds(ps: seq<Property>)
    ensures multiset(Ids(SortByDistance(ps))) == multiset(Ids(ps))
  {
    if ps != [] {
      var sorted := SortByDistance(ps[1..]);
      SortKeepsIds(ps[1..]);
      InsertKeepsIds(ps[0], sorted);
      assert Ids(ps) == [ps[0].id] + Ids(ps[1..]);
    }
  }

  // ----- favourites -----

  /** `toggleFavorite(id)` on the favourites set: `id`'s membership flips and nothing else changes. */
  function Toggle(favorites: set<int>, id: int): (r: set<int>)
    ensures id in r <==> id !in favorites
    ensures forall other :: other != id ==> (other in r <==> other in favorites)
  {
    if id in favorites then favorites - {id} else favorites + {id}
  }

  /** Toggling twice restores the set. */
  lemma ToggleTwice(favorites: set<int>, id: int)
    ensures Toggle(Toggle(favorites, id), id) == favorites
  {
  }

  // ----- the component's state -----

  /** The component's state: the list on display and the favourite ids. */
  class SearchResultsView {
    var properties: seq<Property>
    var favorites: set<int>

    constructor ()
      ensures properties == [] && favorites == {}
    {
      properties := [];
      favorites := {};
    }

    /** The effect run when the criteria change. `draws` stands for the successive results of
        `Math.random`. */
    method ApplyCriteria(c: Criteria, draws: nat -> real)
      modifies this
      ensures favorites == old(favorites)
      ensures c.location == "" ==> properties == FilterProperties(AllProperties, c)
      ensures c.location != "" ==>
        && SortedByDistance(properties)
        && multiset(properties) == multiset(AttachDistances(FilterProperties(AllProperties, c), draws))
        && multiset(Ids(properties)) == multiset(Ids(FilterProperties(AllProperties, c)))
    {
      var filtered := FilterProperties(AllProperties, c);
      if c.location != "" {
        var attached := AttachDistances(filtered, draws);
        assert Ids(attached) == Ids(filtered) by {
          assert forall i :: 0 <= i < |filtered| ==> Ids(attached)[i] == Ids(filtered)[i];
        }
        SortKeepsIds(attached);
        filtered := SortByDistance(attached);
      }
      properties := filtered;
    }

    method ToggleFavorite(id: int)
      modifies this
      ensures favorites == Toggle(old(favorites), id)
      ensures properties == old(properties)
    {
      var updated := favorites;
      if id in updated {
        updated := updated - {id};
      } else {
        updated := updated + {id};
      }
      favorites := updated;
    }
  }

  /** Searching "marina" keeps only the Dubai Marina flat. */
  lemma MarinaExample()
    ensures FilterProperties(AllProperties, Criteria("marina", "", "", "", "", "", "", "", "", "rent"))
            == [AllProperties[0]]
  {
    var c := Criteria("marina", "", "", "", "", "", "", "", "", "rent");
    MarinaMatchesFirst(c);
    MarinaMissesSecond(c);
    LongerNeverContained(Lower("Deira"), Lower(c.location));
    MarinaMissesFourth(c);
    assert AllProperties == [AllProperties[0], AllProperties[1], AllProperties[2], AllProperties[3]];
  }

  lemma MarinaMatchesFirst(c: Criteria)
    requires c == Criteria("marina", "", "", "", "", "", "", "", "", "rent")
    ensures Matches(AllProperties[0], c)
  {
    assert Lower("marina") == "marina";
    assert Lower("Dubai Marina") == "dubai marina" && OccursAt("dubai marina", "marina", 6);
  }

  lemma MarinaMissesSecond(c: Criteria)
    requires c == Criteria("marina", "", "", "", "", "", "", "", "", "rent")
    ensures !Matches(AllProperties[1], c)
  {
    var loc := AllProperties[1].location;
    assert forall i :: 0 <= i < |loc| ==> LowerChar(loc[i]) != 'm';
    assert Lower(c.location)[0] == 'm';
    LowerLacksFirstChar(loc, Lower(c.location));
  }

  lemma MarinaMissesFourth(c: Criteria)
    requires c == Criteria("marina", "", "", "", "", "", "", "", "", "rent")
    ensures !Matches(AllProperties[3], c)
  {
    var loc := AllProperties[3].location;
    assert forall i :: 0 <= i < |loc| ==> LowerChar(loc[i]) != 'm';
    assert Lower(c.location)[0] == 'm';
    LowerLacksFirstChar(loc, Lower(c.location));
  }
}
