/** The location search box (src/components/GooglePlacesSearch.tsx): suggestions from a fixed list of
    UAE places, the recent-search list kept on selection, and the quick-suggestion buttons. */
module PlacesSearch {
  import opened Collections
  import opened Text

  /** A place: `place_id`, `name`, `formatted_address` and the coordinates of `geometry.location`. */
  datatype Location = Location(placeId: string, name: string, formattedAddress: string, lat: real, lng: real)

  /** The component's mock Places catalogue. */
  const MockUAELocations: seq<Location> := [
    Location("1", "Dubai Marina", "Dubai Marina, Dubai, UAE", 25.0772, 55.1392),
    Location("2", "Downtown Dubai", "Downtown Dubai, Dubai, UAE", 25.1972, 55.2744),
    Location("3", "Jumeirah Lake Towers", "JLT, Dubai, UAE", 25.0693, 55.1392),
    Location("4", "Business Bay", "Business Bay, Dubai, UAE", 25.1916, 55.2650),
    Location("5", "Deira", "Deira, Dubai, UAE", 25.2731, 55.3414),
    Location("6", "Abu Dhabi Marina", "Marina, Abu Dhabi, UAE", 24.4539, 54.3773),
    Location("7", "Sharjah City Centre", "Sharjah, UAE", 25.3373, 55.4209),
    Location("8", "Al Ain", "Al Ain, Abu Dhabi, UAE", 24.2070, 55.7456)
  ]

  // ----- suggestions -----

  /** `!query.trim()`: the query is empty or whitespace only. */
  predicate IsBlank(query: string)
  {
    Trim(query) == ""
  }

  /** A place is suggested when its lower-cased name or address includes the lower-cased query. */
  predicate Suggests(loc: Location, query: string)
  {
    Contains(Lower(loc.name), Lower(query)) || Contains(Lower(loc.formattedAddress), Lower(query))
  }

  /** `searchLocations(query)`: nothing for a blank query, otherwise exactly the catalogue places
      that match the query. */
  function Suggestions(catalogue: seq<Location>, query: string): (r: seq<Location>)
    ensures IsBlank(query) ==> r == []
    ensures !IsBlank(query) ==> forall loc :: loc in r <==> loc in catalogue && Suggests(loc, query)
  {
    if IsBlank(query) then [] else Filter((loc: Location) => Suggests(loc, query), catalogue)
  }

  /** A query made only of whitespace yields no suggestion, and a non-blank query keeps the
      catalogue order of what it finds. */
  lemma SuggestionsShape(catalogue: seq<Location>, query: string)
    ensures AllWhitespace(query) ==> Suggestions(catalogue, query) == []
    ensures IsSubsequence(Suggestions(catalogue, query), catalogue)
  {
    BlankIffAllWhitespace(query);
    if !IsBlank(query) {
      FilterIsSubsequence((loc: Location) => Suggests(loc, query), catalogue);
    }
  }

  // ----- the recent-search list -----

  /** `JSON.parse(stored || '[]')`: a missing entry reads as the empty list. */
  function StoredOrEmpty(stored: Option<seq<Location>>): (r: seq<Location>)
    ensures stored.None? ==> r == []
    ensures stored.Some? ==> r == stored.value
  {
    if stored.Some? then stored.value else []
  }

  /** The most-recent-first list is at most this long. */
  const RecentLimit: nat := 5

  /** Every entry of `recent` other than those with `loc`'s `place_id`. */
  function OthersThan(recent: seq<Location>, loc: Location): (r: seq<Location>)
    ensures forall x :: x in r <==> x in recent && x.placeId != loc.placeId
  {
    Filter((item: Location) => item.placeId != loc.placeId, recent)
  }

  /** `[location, ...recent.filter(item => item.place_id !== location.place_id)].slice(0, 5)`. */
  function RecentAfterSelect(recent: seq<Location>, loc: Location): (r: seq<Location>)
    ensures 1 <= |r| <= RecentLimit && r[0] == loc
    ensures forall i :: 1 <= i < |r| ==> r[i].placeId != loc.placeId && r[i] in recent
  {
    Take([loc] + OthersThan(recent, loc), RecentLimit)
  }

  /** A new place in front of a short list is simply prepended: nothing is dropped. */
  lemma RecentOfNewPlace(recent: seq<Location>, loc: Location)
    requires |recent| < RecentLimit
    requires forall x :: x in recent ==> x.placeId != loc.placeId
    ensures RecentAfterSelect(recent, loc) == [loc] + recent
  {
    FilterKeepsAll((item: Location) => item.placeId != loc.placeId, recent);
  }

  /** A new place in front of a list of four or more keeps the four most recent older entries
      and drops the rest. */
  lemma RecentOfNewPlaceCapped(recent: seq<Location>, loc: Location)
    requires |recent| >= RecentLimit - 1
    requires forall x :: x in recent ==> x.placeId != loc.placeId
    ensures RecentAfterSelect(recent, loc) == [loc] + recent[..RecentLimit - 1]
  {
    FilterKeepsAll((item: Location) => item.placeId != loc.placeId, recent);
    assert ([loc] + recent)[..RecentLimit] == [loc] + recent[..RecentLimit - 1];
  }

  /** Selecting a place already stored at index `k` (ids distinct) moves it to the front: the
      other entries keep their order, and the list is cut to five. */
  lemma RecentOfStoredPlace(recent: seq<Location>, loc: Location, k: nat)
    requires DistinctBy((x: Location) => x.placeId, recent)
    requires k < |recent| && recent[k].placeId == loc.placeId
    ensures RecentAfterSelect(recent, loc) == Take([loc] + recent[..k] + recent[k + 1..], RecentLimit)
  {
    var key := (x: Location) => x.placeId;
    forall i | 0 <= i < |recent| && i != k
      ensures recent[i].placeId != loc.placeId
    {
      if i < k {
        assert key(recent[i]) != key(recent[k]);
      } else {
        assert key(recent[k]) != key(recent[i]);
      }
    }
    OthersOfStoredPlace(recent, loc, k);
    assert [loc] + recent[..k] + recent[k + 1..] == [loc] + (recent[..k] + recent[k + 1..]);
  }

  /** When only entry `k` carries `loc`'s id, the entries other than `loc`'s are those before and
      after index `k`. */
  lemma OthersOfStoredPlace(recent: seq<Location>, loc: Location, k: nat)
    requires k < |recent| && recent[k].placeId == loc.placeId
    requires forall i :: 0 <= i < |recent| && i != k ==> recent[i].placeId != loc.placeId
    ensures OthersThan(recent, loc) == recent[..k] + recent[k + 1..]
  {
    FilterRemovesOne((item: Location) => item.placeId != loc.placeId, recent, k);
  }

  /** The entries kept behind the head are the older ones in their previous relative order. */
  lemma RecentKeepsOrder(recent: seq<Location>, loc: Location)
    ensures IsSubsequence(RecentAfterSelect(recent, loc)[1..], recent)
  {
    var others := OthersThan(recent, loc);
    var r := RecentAfterSelect(recent, loc);
    FilterIsSubsequence((item: Location) => item.placeId != loc.placeId, recent);
    assert r[1..] == others[..|r| - 1];
    PrefixOfSubsequence(others, recent, |r| - 1);
  }

  /** `place_id`s are distinct in the list after a selection whenever they were before. */
  lemma RecentKeepsIdsDistinct(recent: seq<Location>, loc: Location)
    requires DistinctBy((x: Location) => x.placeId, recent)
    ensures DistinctBy((x: Location) => x.placeId, RecentAfterSelect(recent, loc))
  {
    var key := (x: Location) => x.placeId;
    var others := OthersThan(recent, loc);
    FilterKeepsDistinct((item: Location) => item.placeId != loc.placeId, key, recent);
    var r := RecentAfterSelect(recent, loc);
    forall i, j | 0 <= i < j < |r| ensures key(r[i]) != key(r[j]) {
      if i > 0 {
        assert r[i] == others[i - 1] && r[j] == others[j - 1];
      }
    }
  }

  /** Selecting the same place twice in a row leaves the list as one selection does. */
  lemma {:induction false} RecentIdempotent(recent: seq<Location>, loc: Location)
    ensures RecentAfterSelect(RecentAfterSelect(recent, loc), loc) == RecentAfterSelect(recent, loc)
  {
    var f := (item: Location) => item.placeId != loc.placeId;
    var r := RecentAfterSelect(recent, loc);
    assert r == [loc] + r[1..];
    FilterConcat(f, [loc], r[1..]);
    assert Filter(f, [loc]) == [] by {
      assert [loc][1..] == [];
    }
    FilterKeepsAll(f, r[1..]);
    assert OthersThan(r, loc) == r[1..];
  }

  // ----- quick suggestions -----

  /** The labels of the quick-suggestion buttons. */
  const QuickLabels: seq<string> := ["Dubai Marina", "Downtown Dubai", "JLT", "Business Bay", "Deira", "Abu Dhabi"]

  /** `mockUAELocations.find(loc => loc.name.includes(area))`: case-sensitive, name only. */
  function FirstByName(catalogue: seq<Location>, area: string): (r: Option<Location>)
    ensures r.Some? ==> r.value in catalogue && Contains(r.value.name, area)
    ensures r.None? <==> forall i :: 0 <= i < |catalogue| ==> !Contains(catalogue[i].name, area)
    ensures r.Some? ==> exists i :: 0 <= i < |catalogue| && catalogue[i] == r.value
                                    && forall j :: 0 <= j < i ==> !Contains(catalogue[j].name, area)
  {
    Find((loc: Location) => Contains(loc.name, area), catalogue)
  }

  // The helper lemmas below take the button's label as a parameter `p` fixed by their
  // precondition rather than as a literal: on literal arguments the verifier evaluates `Contains`
  // eagerly over every name, which is far more costly than the character argument they make.

  /** The "JLT" button finds nothing: the abbreviation appears only in an address, and the lookup
      reads names only. */
  lemma QuickJltFindsNothing()
    ensures FirstByName(MockUAELocations, "JLT") == None
  {
    NoNameIncludes("JLT");
  }

  /** "Jumeirah Lake Towers" has its only 'J' in front, followed by 'u', not by "LT". */
  lemma JumeirahLacksJlt(p: string)
    requires p == "JLT"
    ensures !Contains(MockUAELocations[2].name, p)
  {
    var name := MockUAELocations[2].name;
    var rest := name[1..];
    assert forall k :: 0 <= k < |rest| ==> rest[k] != 'J';
    assert name[..|p|][1] == 'u';
    FirstCharOnlyAtStart(name, p);
  }

  /** No catalogue name includes "JLT": only "Jumeirah Lake Towers" has a 'J', and not followed
      by "LT". */
  lemma NoNameIncludes(p: string)
    requires p == "JLT"
    ensures forall i :: 0 <= i < |MockUAELocations| ==> !Contains(MockUAELocations[i].name, p)
  {
    var m := MockUAELocations;
    forall i | 0 <= i < |m| && i != 2
      ensures !Contains(m[i].name, p)
    {
      NameWithoutJ(i, p);
    }
    JumeirahLacksJlt(p);
  }

  /** The names other than the third have no 'J', so none of them includes "JLT". */
  lemma NameWithoutJ(i: int, p: string)
    requires 0 <= i < |MockUAELocations| && i != 2
    requires p == "JLT"
    ensures !Contains(MockUAELocations[i].name, p)
  {
    var name := MockUAELocations[i].name;
    assert forall k :: 0 <= k < |name| ==> name[k] != 'J';
    ContainedCharsOccur(name, p, 0);
  }

  /** What the six quick buttons do with the mock catalogue: "JLT" selects nothing, and
      "Abu Dhabi" selects "Abu Dhabi Marina". */
  lemma QuickButtons()
    ensures |QuickLabels| == 6
    ensures FirstByName(MockUAELocations, QuickLabels[2]) == None
    ensures FirstByName(MockUAELocations, QuickLabels[5]) == Some(MockUAELocations[5])
  {
    assert QuickLabels[2] == "JLT" && QuickLabels[5] == "Abu Dhabi";
    QuickJltFindsNothing();
    QuickAbuDhabi();
  }

  /** The "Abu Dhabi" button selects "Abu Dhabi Marina", the first name including it. */
  lemma QuickAbuDhabi()
    ensures FirstByName(MockUAELocations, "Abu Dhabi") == Some(MockUAELocations[5])
  {
    FirstNameIncludingAbuDhabi();
  }

  lemma FirstNameIncludingAbuDhabi()
    ensures forall i :: 0 <= i < 5 ==> !Contains(MockUAELocations[i].name, "Abu Dhabi")
    ensures Contains(MockUAELocations[5].name, "Abu Dhabi")
  {
    NamesBeforeAbuDhabi("Abu Dhabi");
    AbuDhabiMarinaIncludes("Abu Dhabi");
  }

  /** None of the first five names includes "Abu Dhabi": none of them has an 'A'. */
  lemma NamesBeforeAbuDhabi(p: string)
    requires p == "Abu Dhabi"
    ensures forall i :: 0 <= i < 5 ==> !Contains(MockUAELocations[i].name, p)
  {
    var m := MockUAELocations;
    forall i | 0 <= i < 5
      ensures !Contains(m[i].name, p)
    {
      var name := m[i].name;
      assert forall k :: 0 <= k < |name| ==> name[k] != 'A';
      ContainedCharsOccur(name, p, 0);
    }
  }

  /** The sixth name starts with "Abu Dhabi". */
  lemma AbuDhabiMarinaIncludes(p: string)
    requires p == "Abu Dhabi"
    ensures Contains(MockUAELocations[5].name, p)
  {
    var name := MockUAELocations[5].name;
    assert name == "Abu Dhabi Marina";
    assert name[..|p|] == p;
    assert OccursAt(name, p, 0);
  }

  // ----- the component's state -----

  /** The search box: the text field, the suggestion list, the selected place and the
      `recentSearches` entry of local storage (`None` while it has never been written). */
  class PlacesSearchBox {
    var searchTerm: string
    var suggestions: seq<Location>
    var selected: Option<Location>
    var recent: Option<seq<Location>>

    /** The stored recent list has at most five entries with distinct `place_id`s. */
    ghost predicate Valid()
      reads this
    {
      recent.Some? ==> |recent.value| <= RecentLimit && DistinctBy((x: Location) => x.placeId, recent.value)
    }

    constructor (stored: Option<seq<Location>>)
      ensures searchTerm == "" && suggestions == [] && selected.None? && recent == stored
      ensures Valid() <==> (stored.Some? ==> |stored.value| <= RecentLimit
                                             && DistinctBy((x: Location) => x.placeId, stored.value))
    {
      searchTerm := "";
      suggestions := [];
      selected := None;
      recent := stored;
    }

    /** `searchLocations(query)`, with the simulated delay taken as already elapsed. */
    method SearchLocations(query: string)
      modifies this
      ensures suggestions == Suggestions(MockUAELocations, query)
      ensures searchTerm == old(searchTerm) && selected == old(selected) && recent == old(recent)
    {
      if IsBlank(query) {
        suggestions := [];
      } else {
        suggestions := Filter((loc: Location) => Suggests(loc, query), MockUAELocations);
      }
    }

    /** `handleLocationSelect(location)`: selects it, shows its name, clears the suggestions, hands
        it on (the returned value) and stores the updated recent list. */
    method HandleLocationSelect(loc: Location) returns (forwarded: Location)
      modifies this
      ensures forwarded == loc
      ensures selected == Some(loc) && searchTerm == loc.name && suggestions == []
      ensures recent == Some(RecentAfterSelect(StoredOrEmpty(old(recent)), loc))
      ensures old(Valid()) ==> Valid()
    {
      if old(Valid()) && recent.Some? {
        RecentKeepsIdsDistinct(recent.value, loc);
      }
      var updated := RecentAfterSelect(StoredOrEmpty(recent), loc);
      selected := Some(loc);
      searchTerm := loc.name;
      suggestions := [];
      forwarded := loc;
      recent := Some(updated);
    }

    /** A quick-suggestion button: selects the first place whose name includes the button's text, or does
        nothing when there is none. */
    method QuickSuggestion(area: string) returns (forwarded: Option<Location>)
      modifies this
      ensures forwarded == FirstByName(MockUAELocations, area)
      ensures forwarded.None? ==>
        searchTerm == old(searchTerm) && suggestions == old(suggestions)
        && selected == old(selected) && recent == old(recent)
      ensures forwarded.Some? ==>
        selected == forwarded && searchTerm == forwarded.value.name && suggestions == []
        && recent == Some(RecentAfterSelect(StoredOrEmpty(old(recent)), forwarded.value))
      ensures old(Valid()) ==> Valid()
    {
      var found := FirstByName(MockUAELocations, area);
      forwarded := None;
      if found.Some? {
        var loc := HandleLocationSelect(found.value);
        forwarded := Some(loc);
      }
    }
  }
}
