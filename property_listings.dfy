/** The listings grid (src/components/PropertyListings.tsx): `getPropertiesForType` picks, by listing
    mode, either a type-filtered part of a fixed catalogue or the whole catalogue with its price and
    period rewritten. */
module PropertyListings {
  import opened Collections
  import opened Text
  import PropertySearch

  type RoomCount = PropertySearch.RoomCount

  /** A listing of the grid's catalogue. The image URL is left out. */
  datatype Listing = Listing(
    id: int,
    title: string,
    location: string,
    price: string,
    period: string,
    kind: string,
    beds: RoomCount,
    baths: RoomCount,
    area: string,
    features: seq<string>,
    verified: bool,
    contact: string)

  /** `baseProperties`. */
  const BaseProperties: seq<Listing> := [
    Listing(1, "Modern 1BR Apartment in Dubai Marina", "Dubai Marina", "AED 4,500", "/month", "Apartment",
            PropertySearch.Rooms(1), PropertySearch.Rooms(1), "650 sq ft",
            ["Furnished", "Balcony", "Gym Access"], true, "+971 XX XXX XXXX"),
    Listing(2, "Shared Bedspace in Deira", "Deira", "AED 800", "/month", "Bedspace",
            PropertySearch.Label("Shared"), PropertySearch.Label("Shared"), "Private bed",
            ["WiFi Included", "AC", "Near Metro"], true, "+971 XX XXX XXXX"),
    Listing(3, "Luxury Villa in Arabian Ranches", "Arabian Ranches", "AED 15,000", "/month", "Villa",
            PropertySearch.Rooms(4), PropertySearch.Rooms(3), "2,800 sq ft",
            ["Garden", "Maid's Room", "Pool Access"], true, "+971 XX XXX XXXX"),
    Listing(4, "Commercial Office in Business Bay", "Business Bay", "AED 120,000", "/year", "Commercial",
            PropertySearch.Label("Office"), PropertySearch.Rooms(2), "1,200 sq ft",
            ["Furnished", "Parking", "24/7 Security"], true, "+971 XX XXX XXXX")
  ]

  /** The types the 'rent' mode keeps. */
  const RentKinds: seq<string> := ["Apartment", "Villa", "Townhouse"]

  /** The types the 'shared' mode keeps. */
  const SharedKinds: seq<string> := ["Bedspace", "Partition"]

  predicate IsRentKind(p: Listing)
  {
    p.kind in RentKinds
  }

  predicate IsSharedKind(p: Listing)
  {
    p.kind in SharedKinds
  }

  predicate IsCommercialKind(p: Listing)
  {
    p.kind == "Commercial"
  }

  /** The 'buy' rewrite: `price.replace('AED', 'AED').replace('/month', '')` and an empty period. */
  function ForSale(p: Listing): (r: Listing)
    ensures r.period == ""
    ensures r.(price := p.price, period := p.period) == p
  {
    p.(price := ReplaceFirst(ReplaceFirst(p.price, "AED", "AED"), "/month", ""), period := "")
  }

  /** The 'daily' rewrite: `price.replace('/month', '/night')` and the period '/night'. */
  function PerNight(p: Listing): (r: Listing)
    ensures r.period == "/night"
    ensures r.(price := p.price, period := p.period) == p
  {
    p.(price := ReplaceFirst(p.price, "/month", "/night"), period := "/night")
  }

  /** `getPropertiesForType(mode)` over the catalogue `base`. */
  function ListingsFor(base: seq<Listing>, mode: string): (r: seq<Listing>)
    ensures mode == "rent" ==> forall p :: p in r <==> p in base && IsRentKind(p)
    ensures mode == "shared" ==> forall p :: p in r <==> p in base && IsSharedKind(p)
    ensures mode == "commercial" ==> forall p :: p in r <==> p in base && IsCommercialKind(p)
    ensures mode in {"rent", "shared", "commercial"} ==> IsSubsequence(r, base)
    ensures mode == "buy" ==> |r| == |base| && forall i :: 0 <= i < |base| ==> r[i] == ForSale(base[i])
    ensures mode == "daily" ==> |r| == |base| && forall i :: 0 <= i < |base| ==> r[i] == PerNight(base[i])
    ensures mode !in {"rent", "buy", "shared", "commercial", "daily"} ==> r == base
  {
    match mode
    case "rent" =>
      FilterIsSubsequence(IsRentKind, base);
      Filter(IsRentKind, base)
    case "buy" => seq(|base|, i requires 0 <= i < |base| => ForSale(base[i]))
    case "shared" =>
      FilterIsSubsequence(IsSharedKind, base);
      Filter(IsSharedKind, base)
    case "commercial" =>
      FilterIsSubsequence(IsCommercialKind, base);
      Filter(IsCommercialKind, base)
    case "daily" => seq(|base|, i requires 0 <= i < |base| => PerNight(base[i]))
    case _ => base
  }

  /** The ids of a list of listings, in order. */
  function Ids(ps: seq<Listing>): (r: seq<int>)
    ensures |r| == |ps| && forall i :: 0 <= i < |ps| ==> r[i] == ps[i].id
  {
    seq(|ps|, i requires 0 <= i < |ps| => ps[i].id)
  }

  /** 'buy' and 'daily' keep every listing: same length, same ids in the same order, and only the
      price and the period differ. */
  lemma RewritesKeepListings(base: seq<Listing>, mode: string)
    requires mode == "buy" || mode == "daily"
    ensures Ids(ListingsFor(base, mode)) == Ids(base)
    ensures forall i :: 0 <= i < |base| ==>
      ListingsFor(base, mode)[i].(price := base[i].price, period := base[i].period) == base[i]
  {
  }

  /** The three type-filtering modes never share a listing: their type sets are disjoint. */
  lemma FilterModesDisjoint(base: seq<Listing>)
    ensures forall p :: p in ListingsFor(base, "rent") ==> p !in ListingsFor(base, "shared")
    ensures forall p :: p in ListingsFor(base, "rent") ==> p !in ListingsFor(base, "commercial")
    ensures forall p :: p in ListingsFor(base, "shared") ==> p !in ListingsFor(base, "commercial")
  {
    forall p: Listing ensures !(IsRentKind(p) && IsSharedKind(p)) && !(IsRentKind(p) && IsCommercialKind(p))
                              && !(IsSharedKind(p) && IsCommercialKind(p))
    {
      assert RentKinds == ["Apartment", "Villa", "Townhouse"];
      assert SharedKinds == ["Bedspace", "Partition"];
    }
  }

  /** A monthly price written `amount + "/month"` (no '/' in the amount) becomes `amount + "/night"`
      in 'daily' mode and `amount` in 'buy' mode: the figure itself is never recomputed. */
  lemma {:induction false} MonthlyPriceRewrites(p: Listing, amount: string)
    requires p.price == amount + "/month" && '/' !in amount
    ensures PerNight(p).price == amount + "/night"
    ensures ForSale(p).price == amount
  {
    ReplaceAfterPrefix(amount, "/month", "", "/night");
    assert amount + "/month" + "" == p.price && amount + "/night" + "" == amount + "/night";
    ReplaceBySelf(p.price, "AED");
    ReplaceAfterPrefix(amount, "/month", "", "");
    assert amount + "" + "" == amount;
  }

  /** A price with no "/month" in it is left as it is by both rewrites. */
  lemma PriceWithoutMonthKept(p: Listing)
    requires !Contains(p.price, "/month")
    ensures PerNight(p).price == p.price && ForSale(p).price == p.price
  {
    ReplaceBySelf(p.price, "AED");
  }

  /** Re-applying the 'daily' rewrite to a rewritten monthly listing changes nothing. */
  lemma {:induction false} PerNightIdempotent(p: Listing, amount: string)
    requires p.price == amount + "/month" && '/' !in amount
    ensures PerNight(PerNight(p)) == PerNight(p)
  {
    MonthlyPriceRewrites(p, amount);
    var q := "/night";
    assert q[1..] == "night" && '/' !in q[1..];
    assert q[..6] != "/month" by {
      assert q[..6][1] == 'n';
    }
    AbsentAfterPrefix(amount, q, "/month");
  }

  /** The catalogue's prices carry no "/month" (the period is a separate field), so on the component's
      own data 'buy' and 'daily' change only the period. */
  lemma CataloguePricesKept(mode: string)
    requires mode == "buy" || mode == "daily"
    ensures forall i :: 0 <= i < |BaseProperties| ==>
      ListingsFor(BaseProperties, mode)[i].price == BaseProperties[i].price
  {
    NoSlashInPrices("/month");
    forall i | 0 <= i < |BaseProperties| {
      PriceWithoutMonthKept(BaseProperties[i]);
    }
  }

  /** No catalogue price includes `pat`, a pattern starting with '/'. */
  lemma NoSlashInPrices(pat: string)
    requires |pat| >= 1 && pat[0] == '/'
    ensures forall i :: 0 <= i < |BaseProperties| ==> !Contains(BaseProperties[i].price, pat)
  {
    forall i | 0 <= i < |BaseProperties|
      ensures !Contains(BaseProperties[i].price, pat)
    {
      assert '/' !in BaseProperties[i].price;
      ContainedCharsOccur(BaseProperties[i].price, pat, 0);
    }
  }
}
