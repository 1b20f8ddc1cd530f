# Property search front end: verified model of its logic

This project models, in Dafny, the small deterministic logic of a property-rental browsing front
end for the UAE. The rest of the application is presentational React; what it computes is listed
below.

- **Search results filter** (`PropertySearch`). A conjunctive predicate over a hard-coded catalogue:
  - a one-way, case-insensitive substring match on location;
  - an exact match on property type;
  - an emirate match where `''` and `'all'` leave the emirate open;
  - a price-range match. The price is the number formed by the digits of strings such as
    `"AED 8,500"`. The range is `"min-max"`, and an upper bound that is absent, NaN or zero is ignored.

  The module also models the random-distance ordering applied when a location was searched and the
  favourites set.
- **Location search box** (`PlacesSearch`). Suggestions come from a fixed list of eight places.
  The recent-search list is most-recent-first, de-duplicated by `place_id` and capped at five.
  The quick-suggestion buttons pick the first name that contains their label.
- **Listings grid** (`PropertyListings`). By listing mode ('rent', 'shared', 'commercial', 'buy',
  'daily', anything else), the grid either filters a fixed catalogue by type or rewrites the price
  and period of every listing.
- **Search criteria** (`SearchCriteria`). The results page starts from empty criteria with tab
  'rent'. It then rebuilds every field as "URL parameter, else first saved search, else default".
- **Listing wizard** (`ListingWizard`). A step counter clamped to 1..4, moved by Previous and Next,
  drives a four-circle progress indicator.
- **Map location picker** (`MapSelector`). A case-insensitive name filter over four places, and
  the selection it hands back to the page.
- **Mock map** (`MapView`). Markers are laid out at `30 + (15·i mod 60)` % and `40 + (10·i mod 40)` %.
  Each marker is labelled with its price minus `"AED "`, and a click selects a property.

`Collections` (filter, find, take, subsequence) and `Text` (ASCII `toLowerCase`, `includes`,
first-occurrence `replace`, `trim`, digit stripping with `parseInt`, one-character
`split`) model the JavaScript library calls these components rely on.

Where the component's state changes in place, the model is a class. This covers the search results
view, the search box, the wizard, the picker and the map panel. Each class has methods whose
`ensures` clauses give the new state in terms of the pure functions. The pure functions carry the
lemmas.

## Behaviour worth knowing

- Location matching is one-way. The criterion must be a substring of the property's location, not
  the reverse. There is no country or region alias table.
- There is no bedrooms, availability or near-metro/mall/beach filter. Those criteria are carried
  but never consulted.
- Distances are `Math.random() * 5 + 0.5`, not a haversine distance. The model takes the random
  draws as a parameter.
- 'daily' and 'buy' do no price arithmetic (no division by 30, no multiplication by 12). They only
  rewrite the text `/month` in the price and set the period. The catalogue's prices contain no
  `/month`, so on its own data only the period changes (`PropertyListings.CataloguePricesKept`).
- A price without digits (NaN) passes every range, because every comparison with NaN is false. It
  is not excluded.

## Model

| member | source | states |
|---|---|---|
| `Collections.Filter` | src/components/PropertySearchResults.tsx:187 | `Array.prototype.filter`: the result holds exactly the elements satisfying the predicate and is no longer than the input |
| `Collections.Take` | src/components/GooglePlacesSearch.tsx:112 | `slice(0, n)`: the first `min(n, length)` elements, unchanged |
| `Collections.FilterRemovesOne` | src/components/GooglePlacesSearch.tsx:112 | a filter rejecting only the element at index k returns the elements before and after it, in order |
| `Collections.Find` | src/components/GooglePlacesSearch.tsx:199 | `Array.prototype.find`: some element iff one satisfies the predicate, and then the first such element |
| `Text.Lower` | src/components/PropertySearchResults.tsx:189 | ASCII `toLowerCase`: same length, each upper-case letter mapped to lower case, every other character kept |
| `Text.Contains` | src/components/PropertySearchResults.tsx:189 | `includes`: true iff the pattern occurs at some index |
| `Text.BlankIffAllWhitespace` | src/components/GooglePlacesSearch.tsx:78 | `!query.trim()` holds iff the query is empty or all white space |
| `Text.NumberIn` | src/components/PropertySearchResults.tsx:205 | `parseInt(s.replace(/\D/g, ''))` is NaN iff `s` has no digit |
| `Text.NumberInAfterPrefix` | src/components/PropertySearchResults.tsx:205 | a number written after a digit-free prefix is read back exactly |
| `Text.Split` | src/components/PropertySearchResults.tsx:206 | `split('-')`: the separator-free pieces between separators, at least one |
| `Text.IndexOf` | src/components/GoogleMapComponent.tsx:84 | the first-occurrence search that `replace` and `includes` perform: the first index where the pattern occurs, none iff it occurs nowhere |
| `Text.TrimStart` | src/components/GooglePlacesSearch.tsx:78 | the suffix left after dropping leading white space: empty or starting with a non-space, with only white space dropped |
| `Text.Trim` | src/components/GooglePlacesSearch.tsx:78 | `trim()`: a contiguous slice of the input with only white space before and after it, empty or starting and ending with a non-space |
| `Text.JoinSplit` | src/components/PropertySearchResults.tsx:206 | joining the parts of `split('-')` with '-' gives back the range string |
| `Text.SplitJoin` | src/components/PropertySearchResults.tsx:206 | `split('-')` of dash-free parts joined by '-' gives back the parts |
| `Text.ReplaceFirst` | src/components/GoogleMapComponent.tsx:84 | string `replace`: only the first occurrence is replaced; without one the string is unchanged |
| `Text.ReplaceBySelf` | src/components/PropertyListings.tsx:80 | `replace('AED', 'AED')` is a no-op |
| `PropertySearch.Matches` | src/components/PropertySearchResults.tsx:187-213 | the filter's predicate: location, type, emirate and price tests, each skipped when its criterion is empty |
| `PropertySearch.RangeBounds` | src/components/PropertySearchResults.tsx:206 | `[min, max]`: the numbers in the parts before and after the first '-', max absent without a '-' |
| `PropertySearch.WithinRange` | src/components/PropertySearchResults.tsx:207-209 | the negation of `price < min or (max and price > max)` with NaN comparisons false and a zero max falsy |
| `PropertySearch.FilterProperties` | src/components/PropertySearchResults.tsx:187-213 | a record is kept iff it is in the catalogue and passes the location, type, emirate and price tests |
| `PropertySearch.FilterKeepsOrder` | src/components/PropertySearchResults.tsx:187 | the filtered list is a subsequence of the catalogue |
| `PropertySearch.UnconstrainedKeepsAll` | src/components/PropertySearchResults.tsx:189-212 | empty location, type and price, with emirate `''` or `'all'`, return the whole catalogue in order |
| `PropertySearch.LocationIsOneWay` | src/components/PropertySearchResults.tsx:189 | a survivor's lower-cased location contains the lower-cased criterion; a criterion longer than the location never matches |
| `PropertySearch.KindAndEmirate` | src/components/PropertySearchResults.tsx:194-201 | a non-empty type demands equality; an emirate other than `''`/`'all'` demands equality; `'all'` imposes nothing |
| `PropertySearch.PriceDigitsExample` | src/components/PropertySearchResults.tsx:205 | `"AED 8,500"` reads as 8500 |
| `Text.DigitsAroundSeparator` | src/components/PropertySearchResults.tsx:205 | stripping non-digits from a tag, a figure, a thousands separator and more digits leaves exactly the digits of the figure |
| `PropertySearch.RangeIsInclusive` | src/components/PropertySearchResults.tsx:206-209 | for `"min-max"` a price is kept iff min ≤ price and (max = 0 or price ≤ max) |
| `PropertySearch.RangeWithoutDash` | src/components/PropertySearchResults.tsx:206-207 | a range without '-' has no upper bound |
| `PropertySearch.NaNExcludesNothing` | src/components/PropertySearchResults.tsx:205-207 | a NaN price passes; a NaN min ("-8000") leaves only the max test, a NaN max ("5000-") only the min test, and two NaN bounds exclude nothing |
| `PropertySearch.RangeBoundaryExample` | src/components/PropertySearchResults.tsx:204-209 | "5000-10000" keeps 5000 and 10000 and drops 4999 and 10001 |
| `PropertySearch.AttachDistances` | src/components/PropertySearchResults.tsx:218-220 | same length; record i gets distance `draws(i) * 5 + 0.5`, every other field kept |
| `PropertySearch.AttachedDistanceRange` | src/components/PropertySearchResults.tsx:218-220 | with draws in [0, 1) every distance lies in [0.5, 5.5); ids and all other fields are unchanged |
| `PropertySearch.SortByDistance` | src/components/PropertySearchResults.tsx:221 | the result is sorted ascending by `distance` (absent counted as 0) and is a permutation of the input records |
| `PropertySearch.SortKeepsIds` | src/components/PropertySearchResults.tsx:221 | sorting keeps the multiset of ids: no property is lost or duplicated |
| `PropertySearch.Toggle` | src/components/PropertySearchResults.tsx:227-237 | `id`'s membership flips; every other id keeps its membership |
| `PropertySearch.ToggleTwice` | src/components/PropertySearchResults.tsx:227-237 | toggling the same id twice restores the set |
| `PropertySearch.MarinaExample` | src/components/PropertySearchResults.tsx:189 | searching "marina" keeps exactly the Dubai Marina flat |
| `PropertySearch.SearchResultsView.constructor` | src/components/PropertySearchResults.tsx:52-56 | no properties and no favourites at first |
| `PropertySearch.SearchResultsView.ApplyCriteria` | src/components/PropertySearchResults.tsx:185-225 | without a location the list is the filtered catalogue; with one it is the filtered records with distances attached, sorted by distance, same ids; favourites unchanged |
| `PropertySearch.SearchResultsView.ToggleFavorite` | src/components/PropertySearchResults.tsx:227-237 | the favourites become `Toggle(old, id)`; the list is unchanged |
| `PlacesSearch.Suggestions` | src/components/GooglePlacesSearch.tsx:77-94 | none for a blank query; otherwise exactly the places whose lower-cased name or address contains the lower-cased query |
| `PlacesSearch.SuggestionsShape` | src/components/GooglePlacesSearch.tsx:78-90 | a whitespace-only query gives nothing; suggestions keep catalogue order |
| `PlacesSearch.StoredOrEmpty` | src/components/GooglePlacesSearch.tsx:111 | a missing stored list reads as empty |
| `PlacesSearch.RecentAfterSelect` | src/components/GooglePlacesSearch.tsx:112 | 1 to 5 entries, the selected place first, no later entry with its `place_id`, every later entry from the old list (which ones: the next three rows) |
| `PlacesSearch.RecentOfNewPlace` | src/components/GooglePlacesSearch.tsx:112 | a new place in front of a list of fewer than five is simply prepended |
| `PlacesSearch.RecentOfNewPlaceCapped` | src/components/GooglePlacesSearch.tsx:112 | a new place in front of a list of four or more keeps exactly the four most recent older entries |
| `PlacesSearch.RecentOfStoredPlace` | src/components/GooglePlacesSearch.tsx:112 | re-selecting a stored place (ids distinct) moves it to the front, keeps the others in order and cuts to five |
| `PlacesSearch.OthersOfStoredPlace` | src/components/GooglePlacesSearch.tsx:112 | when only entry k has the place's id, the filter keeps the entries before and after k |
| `PlacesSearch.RecentKeepsOrder` | src/components/GooglePlacesSearch.tsx:112 | retained older entries keep their relative order |
| `PlacesSearch.RecentKeepsIdsDistinct` | src/components/GooglePlacesSearch.tsx:112 | distinct `place_id`s stay distinct |
| `PlacesSearch.RecentIdempotent` | src/components/GooglePlacesSearch.tsx:111-112 | selecting the same place twice gives the list of one selection |
| `PlacesSearch.FirstByName` | src/components/GooglePlacesSearch.tsx:199 | the first place whose name contains the label, case-sensitively; none iff no name contains it |
| `PlacesSearch.QuickJltFindsNothing` | src/components/GooglePlacesSearch.tsx:193-200 | the "JLT" button selects nothing: "JLT" occurs only in an address |
| `PlacesSearch.QuickButtons` | src/components/GooglePlacesSearch.tsx:193-200 | the six button labels, of which "JLT" selects nothing and "Abu Dhabi" selects "Abu Dhabi Marina" |
| `PlacesSearch.QuickAbuDhabi` | src/components/GooglePlacesSearch.tsx:193-200 | the "Abu Dhabi" button selects "Abu Dhabi Marina" |
| `PlacesSearch.PlacesSearchBox.constructor` | src/components/GooglePlacesSearch.tsx:20-23 | empty term, no suggestions, nothing selected, stored list as found; the box is valid iff the stored list is |
| `PlacesSearch.PlacesSearchBox.SearchLocations` | src/components/GooglePlacesSearch.tsx:77-94 | the suggestions become `Suggestions(catalogue, query)`; nothing else changes |
| `PlacesSearch.PlacesSearchBox.HandleLocationSelect` | src/components/GooglePlacesSearch.tsx:104-114 | selects the place, shows its name, clears suggestions, forwards the same place, stores `RecentAfterSelect` of the stored (or empty) list, keeps the list's bound and distinct ids |
| `PlacesSearch.PlacesSearchBox.QuickSuggestion` | src/components/GooglePlacesSearch.tsx:198-201 | selects `FirstByName(label)` as above, or changes nothing when there is none; keeps the list's bound and distinct ids |
| `PropertyListings.ForSale` | src/components/PropertyListings.tsx:80 | period becomes `''`; only price and period differ from the input |
| `PropertyListings.PerNight` | src/components/PropertyListings.tsx:86 | period becomes `'/night'`; only price and period differ from the input |
| `PropertyListings.ListingsFor` | src/components/PropertyListings.tsx:76-89 | 'rent', 'shared' and 'commercial' give exactly the catalogue items of their type set, in order; 'buy' and 'daily' rewrite every item; any other mode returns the catalogue |
| `PropertyListings.RewritesKeepListings` | src/components/PropertyListings.tsx:79-86 | 'buy' and 'daily' keep length, ids and order; only price and period change |
| `PropertyListings.FilterModesDisjoint` | src/components/PropertyListings.tsx:77-84 | the 'rent', 'shared' and 'commercial' results are pairwise disjoint |
| `PropertyListings.MonthlyPriceRewrites` | src/components/PropertyListings.tsx:79-86 | `amount + "/month"` becomes `amount + "/night"` ('daily') and `amount` ('buy') |
| `PropertyListings.PriceWithoutMonthKept` | src/components/PropertyListings.tsx:79-86 | a price without "/month" is left unchanged by both rewrites |
| `PropertyListings.PerNightIdempotent` | src/components/PropertyListings.tsx:86 | re-applying the 'daily' rewrite to a rewritten monthly listing changes nothing |
| `PropertyListings.CataloguePricesKept` | src/components/PropertyListings.tsx:12-86 | on the component's own catalogue 'buy' and 'daily' leave every price string as it was |
| `SearchCriteria.InitialIsDefaults` | src/pages/SearchResults.tsx:23-34 | before the effect every field is `''` and `tab` is 'rent' |
| `SearchCriteria.Get` | src/pages/SearchResults.tsx:38-51 | `URLSearchParams.get`: the value of the first parameter with that key, or null |
| `SearchCriteria.FirstSaved` | src/pages/SearchResults.tsx:39 | `JSON.parse(stored or '[]')[0]`: the first history entry, none when the history is absent or empty |
| `SearchCriteria.OrElse` | src/pages/SearchResults.tsx:42-51 | the `or` chain `a`, `b`, `d`: the first truthy of `a`, `b`, else `d` |
| `SearchCriteria.Resolve` | src/pages/SearchResults.tsx:41-52 | every field is resolved from its URL key, the first saved search and its default |
| `SearchCriteria.ResolutionOrder` | src/pages/SearchResults.tsx:42-51 | a non-empty URL value wins; else a non-empty saved value; else `''` (or 'rent' for `tab`) |
| `SearchCriteria.OnlyFirstEntryCounts` | src/pages/SearchResults.tsx:39 | only the first history entry is consulted |
| `SearchCriteria.NoHistoryUrlOnly` | src/pages/SearchResults.tsx:39-51 | with an absent or empty history the criteria depend on the URL alone |
| `SearchCriteria.NothingGivenIsInitial` | src/pages/SearchResults.tsx:23-52 | no parameters and no history reproduce the initial criteria |
| `SearchCriteria.UrlKeysDistinct` | src/pages/SearchResults.tsx:42-51 | distinct fields read distinct URL keys (type→propertyType, price→priceRange, beds→bedrooms, metro/mall/beach→near…) |
| `SearchCriteria.OneParameterOneField` | src/pages/SearchResults.tsx:42-51 | a non-empty parameter for one field's key sets that field and no other |
| `SearchCriteria.GetPastOtherKey` | src/pages/SearchResults.tsx:42-51 | a leading parameter under a different key does not change what `get(key)` returns |
| `ListingWizard.PreviousDisabled` | src/pages/ListProperty.tsx:282-283 | the Previous button is disabled exactly on the steps where clicking it would not move the wizard |
| `ListingWizard.PreviousStep` | src/pages/ListProperty.tsx:282 | `max(1, step - 1)`: stays in 1..4, a no-op at 1, one back otherwise |
| `ListingWizard.NextStep` | src/pages/ListProperty.tsx:288-290 | only below step 4, exactly one forward, stays in 1..4 |
| `ListingWizard.BackAndForth` | src/pages/ListProperty.tsx:282-290 | from step s ≥ 2, Previous then Next returns to s; Next then Previous always returns |
| `ListingWizard.CircleFilled` | src/pages/ListProperty.tsx:32 | circle n is drawn filled when `step >= n` |
| `ListingWizard.ConnectorFilled` | src/pages/ListProperty.tsx:42 | the connector after circle n is drawn filled when `step > n` |
| `ListingWizard.ProgressIndicator` | src/pages/ListProperty.tsx:25-47 | circle n is filled iff n ≤ step, exactly `step` circles are filled, connector n is filled iff circle n + 1 is |
| `ListingWizard.Run` | src/pages/ListProperty.tsx:279-299 | any sequence of clicks keeps the step in 1..4, moving at most one per click |
| `ListingWizard.Wizard.constructor` | src/pages/ListProperty.tsx:10 | the step starts at 1 |
| `ListingWizard.Wizard.Previous` | src/pages/ListProperty.tsx:280-286 | step becomes `PreviousStep(old step)`, unchanged at 1, and stays in range |
| `ListingWizard.Wizard.Next` | src/pages/ListProperty.tsx:288-294 | callable only below 4; step grows by exactly one and stays in range |
| `ListingWizard.Wizard.PublishShown` | src/pages/ListProperty.tsx:288-298 | Publish replaces Next exactly on step 4 |
| `MapSelector.Shown` | src/components/GoogleMapSelector.tsx:47-48 | exactly the places whose lower-cased name contains the lower-cased term, in catalogue order |
| `MapSelector.EmptyTermShowsAll` | src/components/GoogleMapSelector.tsx:48 | an empty term shows every place in order |
| `MapSelector.EmptyTermShowsFour` | src/components/GoogleMapSelector.tsx:11-16 | an empty term shows all four places |
| `MapSelector.CaseInsensitive` | src/components/GoogleMapSelector.tsx:48 | terms equal up to ASCII case show the same list |
| `MapSelector.ShownIdsDistinct` | src/components/GoogleMapSelector.tsx:11-16 | the four ids are distinct, and so are those of every shown list |
| `MapSelector.AtMostOneHighlighted` | src/components/GoogleMapSelector.tsx:52 | with distinct ids at most one button matches the selected id |
| `MapSelector.Picker.constructor` | src/components/GoogleMapSelector.tsx:7-8 | empty term, nothing selected |
| `MapSelector.Picker.SetSearchTerm` | src/components/GoogleMapSelector.tsx:32 | the term changes, the selection does not |
| `MapSelector.Picker.Buttons` | src/components/GoogleMapSelector.tsx:47-59 | the buttons are the places matching the current term |
| `MapSelector.Picker.Highlighted` | src/components/GoogleMapSelector.tsx:52 | `selectedLocation?.id === location.id`: highlighted iff a place is selected and has this id |
| `MapSelector.Picker.HandleLocationSelect` | src/components/GoogleMapSelector.tsx:18-21 | stores the place, forwards the identical place, highlights it |
| `MapView.MarkerLeft` | src/components/GoogleMapComponent.tsx:77 | equals `30 + 15·(i mod 4)`, so always 30, 45, 60 or 75 |
| `MapView.MarkerTop` | src/components/GoogleMapComponent.tsx:78 | equals `40 + 10·(i mod 4)`, so always 40, 50, 60 or 70 |
| `MapView.PositionsRepeatEveryFour` | src/components/GoogleMapComponent.tsx:77-78 | indices i and i + 4 get the same position |
| `MapView.SamePositionIff` | src/components/GoogleMapComponent.tsx:77-78 | two markers share a position iff their indices agree modulo 4 |
| `MapView.MarkerLabel` | src/components/GoogleMapComponent.tsx:84 | the price with its first "AED " cut out (the characters before and after that occurrence, four fewer), or unchanged without one |
| `MapView.LabelOfTaggedPrice` | src/components/GoogleMapComponent.tsx:84 | "AED " followed by an amount is labelled with the amount |
| `MapView.Markers` | src/components/GoogleMapComponent.tsx:72-84 | one marker per property, with its id, its label and the position of its index |
| `MapView.OneMarkerPerProperty` | src/components/GoogleMapComponent.tsx:72-84 | as many markers as properties (the footer's count), the same ids in order, all inside the layout box |
| `MapView.IsScaled` | src/components/GoogleMapComponent.tsx:82 | `selectedProperty?.id === property.id`: enlarged iff a property is selected and has this id |
| `MapView.AtMostOneScaled` | src/components/GoogleMapComponent.tsx:82 | with distinct ids at most one marker is enlarged |
| `MapView.MapPanel.constructor` | src/components/GoogleMapComponent.tsx:36 | nothing selected at first |
| `MapView.MapPanel.HandlePropertyClick` | src/components/GoogleMapComponent.tsx:46-48 | the clicked property becomes the selected one; exactly the markers with its id are enlarged |

## Left out

- Browser I/O is not modelled. `localStorage` reads and writes are replaced by a class field (the
  stored recent list) or a parameter (the search history), and JSON serialisation is left out.
  `navigator.geolocation`, the `setTimeout` debounce and fake delay, the `isLoading` flag,
  `window.open` contact links and `console.log` are left out.
- The React render cycle is not modelled. Each effect or handler is one method call.
- View-mode toggles, filter panels, the details modal and the wizard's form fields are
  presentational. So is the wizard's own `selectedLocation` state.
- The places of the search box (`PlacesSearch.Location`) and of the picker
  (`MapSelector.MapLocation`) carry latitude and longitude as opaque `real`s that are never computed
  with. The map's default centre is not modelled.
- `PropertySearch.Property` drops the records' coordinates, image, images, features, contact,
  nearby places, description, landlord and amenities; `PropertyListings.Listing` drops only the
  image. None of the dropped fields is consulted by the modelled logic.
- The map's "View Details" forwarding (`onPropertySelect`) is not modelled.
- `src/components/map/PropertyMarker.tsx` and `src/types/google-maps.d.ts` wrap an external map
  library and are not part of this model.
- `Text.Lower`: lower-cases ASCII letters only, not the full Unicode case mapping of `toLowerCase`.
- `Text.ReplaceFirst`: inserts the replacement literally. JavaScript's `replace` would expand `$&`,
  `$$`, `` $` `` and `$'` in it; every call site passes a replacement without `$`.
- `Text.DecimalValue`: reads a digit string as an exact unbounded integer. JavaScript's `parseInt`
  yields a double, rounded above 2^53 and Infinity past about 1e308. `PropertySearch.RangeIsInclusive`
  and the rest of the price filter therefore hold for the program only for figures below 2^53: the
  range "9007199254740993-0" has a minimum of 9007199254740992 in the program, which keeps a price
  "AED 9007199254740992" that the model drops.
- `SearchCriteria.Get`: the query string is taken as already decoded key-value pairs. The
  percent-escape and '+'-as-space decoding of `URLSearchParams` is not modelled.
- `PropertySearch.SortByDistance`: states sortedness and permutation but not stability. JavaScript's
  sort is stable, and the model inserts equal keys in input order, but no lemma states it.
- `PropertySearch.SearchResultsView.ApplyCriteria`: `Math.random` is a parameter giving the i-th
  draw. The model says nothing about its distribution.
- `ListingWizard.Wizard.Next`: requires `step < 4` because the button exists only then. The Publish
  button shown instead has no handler.
- `PropertySearch.FilterProperties`: the price filter is guarded by a truthy range string only. A
  range of JavaScript `undefined` is modelled as `''`.
