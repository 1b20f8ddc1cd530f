/** The mock map of the search results (src/components/GoogleMapComponent.tsx): one price marker per
    property, laid out by index on a fixed grid of percentages, and the property the user clicked. */
module MapView {
  import opened Collections
  import opened Text
  import PropertySearch

  type Property = PropertySearch.Property

  // ----- marker layout -----

  /** `30 + (index * 15) % 60`: the marker's left offset, in percent. */
  function MarkerLeft(index: nat): (r: int)
    ensures r == 30 + 15 * (index % 4)
    ensures r == 30 || r == 45 || r == 60 || r == 75
  {
    var q, k := index / 4, index % 4;
    assert index * 15 == 60 * q + 15 * k;
    30 + (index * 15) % 60
  }

  /** `40 + (index * 10) % 40`: the marker's top offset, in percent. */
  function MarkerTop(index: nat): (r: int)
    ensures r == 40 + 10 * (index % 4)
    ensures r == 40 || r == 50 || r == 60 || r == 70
  {
    var q, k := index / 4, index % 4;
    assert index * 10 == 40 * q + 10 * k;
    40 + (index * 10) % 40
  }

  /** The layout repeats every four markers: indices i and i + 4 share a position. */
  lemma PositionsRepeatEveryFour(i: nat)
    ensures MarkerLeft(i + 4) == MarkerLeft(i) && MarkerTop(i + 4) == MarkerTop(i)
  {
  }

  /** Two markers share a position exactly when their indices agree modulo 4, so from the fifth
      property on markers are drawn on top of earlier ones. */
  lemma SamePositionIff(i: nat, j: nat)
    ensures (MarkerLeft(i) == MarkerLeft(j) && MarkerTop(i) == MarkerTop(j)) <==> i % 4 == j % 4
  {
  }

  // ----- marker labels -----

  /** `price.replace('AED ', '')`: the first "AED " is dropped. */
  function MarkerLabel(price: string): (r: string)
    ensures !Contains(price, "AED ") ==> r == price
    ensures Contains(price, "AED ") ==> |r| + 4 == |price|
    ensures Contains(price, "AED ") ==>
      exists i :: OccursAt(price, "AED ", i) && r == price[..i] + price[i + 4..]
                  && forall j :: 0 <= j < i ==> !OccursAt(price, "AED ", j)
  {
    ReplaceFirst(price, "AED ", "")
  }

  /** A price written "AED " followed by an amount is labelled with the amount alone. */
  lemma LabelOfTaggedPrice(amount: string)
    ensures MarkerLabel("AED " + amount) == amount
  {
    DeleteLeading("AED ", amount);
  }

  /** A rendered marker: the property it stands for, its position and its label. */
  datatype Marker = Marker(id: int, left: int, top: int, caption: string)

  /** `properties.map((property, index) => <marker …/>)`. */
  function Markers(ps: seq<Property>): (r: seq<Marker>)
    ensures |r| == |ps|
    ensures forall i :: 0 <= i < |ps| ==>
      r[i].id == ps[i].id && r[i].caption == MarkerLabel(ps[i].price)
      && (r[i].left, r[i].top) == (MarkerLeft(i), MarkerTop(i))
  {
    seq(|ps|, i requires 0 <= i < |ps| => Marker(ps[i].id, MarkerLeft(i), MarkerTop(i), MarkerLabel(ps[i].price)))
  }

  /** Exactly one marker per property, in the properties' order, and the footer's count
      `properties.length` is the number of markers; every marker lies in the grid's box. */
  lemma OneMarkerPerProperty(ps: seq<Property>)
    ensures |Markers(ps)| == |ps|
    ensures PropertySearch.Ids(ps) == seq(|ps|, i requires 0 <= i < |ps| => Markers(ps)[i].id)
    ensures forall m :: m in Markers(ps) ==> 30 <= m.left <= 75 && 40 <= m.top <= 70
  {
    forall m | m in Markers(ps) ensures 30 <= m.left <= 75 && 40 <= m.top <= 70 {
      var i :| 0 <= i < |ps| && Markers(ps)[i] == m;
    }
  }

  // ----- selection -----

  /** `selectedProperty?.id === property.id`: the marker drawn enlarged. */
  predicate IsScaled(selected: Option<Property>, p: Property)
  {
    selected.Some? && selected.value.id == p.id
  }

  /** With distinct ids, at most one marker is enlarged. */
  lemma AtMostOneScaled(ps: seq<Property>, selected: Option<Property>, i: int, j: int)
    requires DistinctBy((p: Property) => p.id, ps)
    requires 0 <= i < |ps| && 0 <= j < |ps|
    requires IsScaled(selected, ps[i]) && IsScaled(selected, ps[j])
    ensures i == j
  {
    var key := (p: Property) => p.id;
    assert key(ps[i]) == key(ps[j]);
  }

  /** The map's state: the property whose card is open. */
  class MapPanel {
    var selected: Option<Property>

    constructor ()
      ensures selected == None
    {
      selected := None;
    }

    /** `handlePropertyClick(property)`. */
    method HandlePropertyClick(p: Property)
      modifies this
      ensures selected == Some(p)
      ensures forall q: Property :: IsScaled(selected, q) <==> q.id == p.id
    {
      selected := Some(p);
    }
  }
}
