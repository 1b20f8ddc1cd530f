/** The search-results page (src/pages/SearchResults.tsx): the criteria object it starts with, and
    how it rebuilds the criteria from the URL query parameters and the first saved search, field by
    field, with `url || saved || default`. */
module SearchCriteria {
  import opened Collections

  /** The criteria the page hands to the results component. */
  datatype Criteria = Criteria(
    location: string,
    propertyType: string,
    emirate: string,
    priceRange: string,
    bedrooms: string,
    availability: string,
    nearMetro: string,
    nearMall: string,
    nearBeach: string,
    tab: string)

  /** The ten fields, so that statements can range over all of them. */
  datatype Field = Location | PropertyType | Emirate | PriceRange | Bedrooms
                 | Availability | NearMetro | NearMall | NearBeach | Tab

  function FieldOf(c: Criteria, f: Field): string
  {
    match f
    case Location => c.location
    case PropertyType => c.propertyType
    case Emirate => c.emirate
    case PriceRange => c.priceRange
    case Bedrooms => c.bedrooms
    case Availability => c.availability
    case NearMetro => c.nearMetro
    case NearMall => c.nearMall
    case NearBeach => c.nearBeach
    case Tab => c.tab
  }

  /** The query-string key each field is read from. */
  function UrlKey(f: Field): string
  {
    match f
    case Location => "location"
    case PropertyType => "type"
    case Emirate => "emirate"
    case PriceRange => "price"
    case Bedrooms => "beds"
    case Availability => "availability"
    case NearMetro => "metro"
    case NearMall => "mall"
    case NearBeach => "beach"
    case Tab => "tab"
  }

  /** The key of a saved search's `criteria` object each field is read from (`location` and `tab`
      are read elsewhere in the saved search). */
  function SavedKey(f: Field): string
  {
    match f
    case Location => "location"
    case PropertyType => "propertyType"
    case Emirate => "emirate"
    case PriceRange => "priceRange"
    case Bedrooms => "bedrooms"
    case Availability => "availability"
    case NearMetro => "nearMetro"
    case NearMall => "nearMall"
    case NearBeach => "nearBeach"
    case Tab => "tab"
  }

  /** What a field falls back to when neither source gives a value. */
  function DefaultOf(f: Field): string
  {
    if f == Tab then "rent" else ""
  }

  /** The state before the effect runs. */
  const InitialCriteria: Criteria := Criteria("", "", "", "", "", "", "", "", "", "rent")

  lemma InitialIsDefaults()
    ensures forall f :: FieldOf(InitialCriteria, f) == DefaultOf(f)
  {
  }

  /** One entry of the stored search history: `location.name`, the `criteria` object (an absent
      object is the empty map) and `tab`; an absent member is `None`. */
  datatype SavedSearch = SavedSearch(locationName: Option<string>, criteria: map<string, string>, tab: Option<string>)

  /** The URL's query parameters, in order. */
  type QueryParams = seq<(string, string)>

  /** `URLSearchParams.get(key)`: the value of the first parameter named `key`, `None` for null. */
  function Get(params: QueryParams, key: string): (r: Option<string>)
    ensures r.Some? ==> exists i :: 0 <= i < |params| && params[i] == (key, r.value)
                                 && forall j :: 0 <= j < i ==> params[j].0 != key
    ensures r.None? ==> forall j :: 0 <= j < |params| ==> params[j].0 != key
  {
    match FirstMatch((kv: (string, string)) => kv.0 == key, params)
    case None => None
    case Some(i) => Some(params[i].1)
  }

  /** `JSON.parse(stored || '[]')[0]`: the first saved search, if the history exists and has one. */
  function FirstSaved(history: Option<seq<SavedSearch>>): (r: Option<SavedSearch>)
    ensures r.None? <==> history.None? || history.value == []
    ensures r.Some? ==> r.value == history.value[0]
  {
    if history.Some? && |history.value| > 0 then Some(history.value[0]) else None
  }

  /** `savedSearch?.location?.name`, `savedSearch?.criteria?.<key>` or `savedSearch?.tab`. */
  function SavedValue(saved: Option<SavedSearch>, f: Field): Option<string>
  {
    match saved
    case None => None
    case Some(s) =>
      match f
      case Location => s.locationName
      case Tab => s.tab
      case _ => if SavedKey(f) in s.criteria then Some(s.criteria[SavedKey(f)]) else None
  }

  /** A JavaScript string value that is truthy: present and non-empty. */
  predicate Truthy(v: Option<string>)
  {
    v.Some? && v.value != ""
  }

  /** `a || b || d` over strings that may be absent. */
  function OrElse(a: Option<string>, b: Option<string>, d: string): (r: string)
    ensures Truthy(a) ==> r == a.value
    ensures !Truthy(a) && Truthy(b) ==> r == b.value
    ensures !Truthy(a) && !Truthy(b) ==> r == d
  {
    if Truthy(a) then a.value else if Truthy(b) then b.value else d
  }

  function ResolveField(params: QueryParams, saved: Option<SavedSearch>, f: Field): string
  {
    OrElse(Get(params, UrlKey(f)), SavedValue(saved, f), DefaultOf(f))
  }

  /** The criteria the effect builds from the URL parameters and the stored history. */
  function Resolve(params: QueryParams, history: Option<seq<SavedSearch>>): (c: Criteria)
    ensures forall f :: FieldOf(c, f) == ResolveField(params, FirstSaved(history), f)
  {
    var saved := FirstSaved(history);
    Criteria(
      ResolveField(params, saved, Location),
      ResolveField(params, saved, PropertyType),
      ResolveField(params, saved, Emirate),
      ResolveField(params, saved, PriceRange),
      ResolveField(params, saved, Bedrooms),
      ResolveField(params, saved, Availability),
      ResolveField(params, saved, NearMetro),
      ResolveField(params, saved, NearMall),
      ResolveField(params, saved, NearBeach),
      ResolveField(params, saved, Tab))
  }

  /** Each field takes its URL parameter when that is a non-empty string; otherwise the non-empty
      value of the first saved search; otherwise its default ('' or, for `tab`, 'rent'). */
  lemma ResolutionOrder(params: QueryParams, history: Option<seq<SavedSearch>>, f: Field)
    ensures var url := Get(params, UrlKey(f));
            Truthy(url) ==> FieldOf(Resolve(params, history), f) == url.value
    ensures var url, saved := Get(params, UrlKey(f)), SavedValue(FirstSaved(history), f);
            !Truthy(url) && Truthy(saved) ==> FieldOf(Resolve(params, history), f) == saved.value
    ensures var url, saved := Get(params, UrlKey(f)), SavedValue(FirstSaved(history), f);
            !Truthy(url) && !Truthy(saved) ==> FieldOf(Resolve(params, history), f) == DefaultOf(f)
  {
    assert FieldOf(Resolve(params, history), f) == ResolveField(params, FirstSaved(history), f);
  }

  /** Only the first history entry is consulted. */
  lemma OnlyFirstEntryCounts(params: QueryParams, first: SavedSearch, older: seq<SavedSearch>)
    ensures Resolve(params, Some([first] + older)) == Resolve(params, Some([first]))
  {
  }

  /** With an absent or empty history the criteria depend on the URL parameters alone. */
  lemma NoHistoryUrlOnly(params: QueryParams, history: Option<seq<SavedSearch>>)
    requires history.None? || history.value == []
    ensures Resolve(params, history) == Resolve(params, None)
    ensures forall f :: FieldOf(Resolve(params, history), f) == OrElse(Get(params, UrlKey(f)), None, DefaultOf(f))
  {
  }

  /** With no parameters and no history the effect reproduces the initial state. */
  lemma NothingGivenIsInitial()
    ensures Resolve([], None) == InitialCriteria
  {
    assert forall f :: FieldOf(Resolve([], None), f) == DefaultOf(f);
  }

  /** Different fields are read from different URL keys. */
  lemma UrlKeysDistinct(f: Field, g: Field)
    requires f != g
    ensures UrlKey(f) != UrlKey(g)
  {
  }

  /** Putting a non-empty parameter for one field's key in front of the query sets that field and no
      other. */
  lemma {:induction false} OneParameterOneField(params: QueryParams, history: Option<seq<SavedSearch>>, f: Field, v: string)
    requires v != ""
    ensures FieldOf(Resolve([(UrlKey(f), v)] + params, history), f) == v
    ensures forall g :: g != f ==>
      FieldOf(Resolve([(UrlKey(f), v)] + params, history), g) == FieldOf(Resolve(params, history), g)
  {
    var q := [(UrlKey(f), v)] + params;
    assert q[1..] == params;
    assert Get(q, UrlKey(f)) == Some(v);
    forall g | g != f
      ensures Get(q, UrlKey(g)) == Get(params, UrlKey(g))
    {
      UrlKeysDistinct(f, g);
      GetPastOtherKey(params, (UrlKey(f), v), UrlKey(g));
    }
  }

  /** A parameter with another key in front of the query does not change what `get(key)` returns. */
  lemma GetPastOtherKey(params: QueryParams, first: (string, string), key: string)
    requires first.0 != key
    ensures Get([first] + params, key) == Get(params, key)
  {
    var q := [first] + params;
    assert forall j :: 1 <= j < |q| ==> q[j] == params[j - 1];
    match Get(params, key)
    case None =>
      assert forall j :: 0 <= j < |q| ==> q[j].0 != key;
    case Some(w) =>
      var i :| 0 <= i < |params| && params[i] == (key, w) && forall j :: 0 <= j < i ==> params[j].0 != key;
      assert q[i + 1] == (key, w);
  }
}
