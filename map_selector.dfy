/** The location picker of the listing wizard (src/components/GoogleMapSelector.tsx): a name filter over
    four fixed places and a selection handed back to the page. */
module MapSelector {
  import opened Collections
  import opened Text

  /** A place of the picker: `id`, `name` and its coordinates. */
  datatype MapLocation = MapLocation(id: int, name: string, lat: real, lng: real)

  /** `mockLocations`. */
  const MockLocations: seq<MapLocation> := [
    MapLocation(1, "Dubai Marina", 25.0772, 55.1392),
    MapLocation(2, "Downtown Dubai", 25.1972, 55.2744),
    MapLocation(3, "Jumeirah Lake Towers", 25.0693, 55.1392),
    MapLocation(4, "Business Bay", 25.1916, 55.2650)
  ]

  /** A place is shown when its lower-cased name includes the lower-cased search term. */
  predicate NameMatches(loc: MapLocation, term: string)
  {
    Contains(Lower(loc.name), Lower(term))
  }

  /** `mockLocations.filter(loc => loc.name.toLowerCase().includes(searchTerm.toLowerCase()))`. */
  function Shown(catalogue: seq<MapLocation>, term: string): (r: seq<MapLocation>)
    ensures forall loc :: loc in r <==> loc in catalogue && NameMatches(loc, term)
    ensures IsSubsequence(r, catalogue)
  {
    FilterIsSubsequence((loc: MapLocation) => NameMatches(loc, term), catalogue);
    Filter((loc: MapLocation) => NameMatches(loc, term), catalogue)
  }

  /** An empty search term shows every place, in order. */
  lemma EmptyTermShowsAll(catalogue: seq<MapLocation>)
    ensures Shown(catalogue, "") == catalogue
  {
    assert Lower("") == "";
    forall loc ensures NameMatches(loc, "") {
      ContainsEmpty(Lower(loc.name));
    }
    FilterKeepsAll((loc: MapLocation) => NameMatches(loc, ""), catalogue);
  }

  /** On the picker's own list an empty term shows all four places. */
  lemma EmptyTermShowsFour()
    ensures |Shown(MockLocations, "")| == 4
  {
    EmptyTermShowsAll(MockLocations);
  }

  /** Terms that differ only in ASCII letter case show the same places. */
  lemma CaseInsensitive(catalogue: seq<MapLocation>, t1: string, t2: string)
    requires Lower(t1) == Lower(t2)
    ensures Shown(catalogue, t1) == Shown(catalogue, t2)
  {
    FilterCongruent((loc: MapLocation) => NameMatches(loc, t1), (loc: MapLocation) => NameMatches(loc, t2), catalogue);
  }

  /** The picker's places have distinct ids, and so does every list it shows. */
  lemma ShownIdsDistinct(term: string)
    ensures DistinctBy((loc: MapLocation) => loc.id, MockLocations)
    ensures DistinctBy((loc: MapLocation) => loc.id, Shown(MockLocations, term))
  {
    var key := (loc: MapLocation) => loc.id;
    assert forall i :: 0 <= i < |MockLocations| ==> MockLocations[i].id == i + 1;
    FilterKeepsDistinct((loc: MapLocation) => NameMatches(loc, term), key, MockLocations);
  }

  /** Among places with distinct ids, at most one button is highlighted for a selected id. */
  lemma AtMostOneHighlighted(shown: seq<MapLocation>, selected: MapLocation, i: int, j: int)
    requires DistinctBy((loc: MapLocation) => loc.id, shown)
    requires 0 <= i < |shown| && 0 <= j < |shown|
    requires shown[i].id == selected.id && shown[j].id == selected.id
    ensures i == j
  {
    var key := (loc: MapLocation) => loc.id;
    assert key(shown[i]) == key(shown[j]);
  }

  /** The picker's state: the search field and the selected place. */
  class Picker {
    var searchTerm: string
    var selected: Option<MapLocation>

    constructor ()
      ensures searchTerm == "" && selected == None
    {
      searchTerm := "";
      selected := None;
    }

    /** The search field's `onChange`. */
    method SetSearchTerm(term: string)
      modifies this
      ensures searchTerm == term && selected == old(selected)
    {
      searchTerm := term;
    }

    /** The buttons on display. */
    function Buttons(): (r: seq<MapLocation>)
      reads this
      ensures forall loc :: loc in r <==> loc in MockLocations && NameMatches(loc, searchTerm)
    {
      Shown(MockLocations, searchTerm)
    }

    /** `selectedLocation?.id === location.id`: the button drawn highlighted. */
    predicate Highlighted(loc: MapLocation)
      reads this
    {
      selected.Some? && selected.value.id == loc.id
    }

    /** `handleLocationSelect(location)`: stores the place and hands the same place to the page
        (the returned value). */
    method HandleLocationSelect(loc: MapLocation) returns (forwarded: MapLocation)
      modifies this
      ensures selected == Some(loc) && forwarded == loc
      ensures searchTerm == old(searchTerm)
      ensures Highlighted(loc)
    {
      selected := Some(loc);
      forwarded := loc;
    }
  }
}
