/**
 * The aggregator node of the crawl graph: geocode the deduplicated places
 * that lack coordinates, keep those inside the map bounds, turn them into
 * restaurants, merge them after the seed places and map the ranking
 * oracle's recommendations back to places.
 */
module Aggregator {
  import opened Wrappers
  import opened Text
  import opened Crawl
  import opened Dedup
  import opened Geocode
  import opened Places
  import opened PlaceMapper

  /** The map rectangle of the request, if it has one. */
  datatype Bounds = Bounds(swLat: real, swLng: real, neLat: real, neLng: real)

  /** The geocoding cascade, fixed to its table, environment and services. */
  type Geocoder = string -> Option<GeocodeResult>

  /**
   * The query geocoding would send for a merged place, or None when the
   * place is not geocoded (it has both coordinates, or no name).
   */
  function GeocodeQuery(p: Raw, searchTerms: string): (q: Option<string>)
    ensures q.None? <==> (TruthyNum(p.lat) && TruthyNum(p.lng)) || p.name == ""
    ensures q.Some? && TruthyStr(p.address) ==> q.value == p.address.value
    ensures q.Some? && !TruthyStr(p.address) ==> q.value == searchTerms + " " + p.name
  {
    if TruthyNum(p.lat) && TruthyNum(p.lng) then None
    else if p.name == "" then None
    else Some(StrOr(p.address, searchTerms + " " + p.name))
  }

  /** Step 2 for one place: on a geocoder answer take its coordinates, keeping an existing address. */
  function Geocoded(g: Group, searchTerms: string, geocode: Geocoder): Group {
    match GeocodeQuery(g.place, searchTerms)
    case None => g
    case Some(q) =>
      match geocode(q)
      case None => g
      case Some(geo) =>
        g.(place := g.place.(lat := Some(geo.lat), lng := Some(geo.lng),
                             address := Some(StrOr(g.place.address, geo.address))))
  }

  /** The geocoder is called on a place iff it needs coordinates and has a name; a hit fills them. */
  lemma GeocodedMeaning(g: Group, searchTerms: string, geocode: Geocoder)
    ensures var r := Geocoded(g, searchTerms, geocode);
      r.sources == g.sources && r.place.name == g.place.name &&
      ((TruthyNum(g.place.lat) && TruthyNum(g.place.lng)) || g.place.name == "" ==> r == g) &&
      (GeocodeQuery(g.place, searchTerms).Some? && geocode(GeocodeQuery(g.place, searchTerms).value).Some? ==>
         var geo := geocode(GeocodeQuery(g.place, searchTerms).value).value;
         r.place.lat == Some(geo.lat) && r.place.lng == Some(geo.lng) &&
         r.place.address == Some(if TruthyStr(g.place.address) then g.place.address.value else geo.address))
  {
  }

  function GeocodeAll(groups: seq<Group>, searchTerms: string, geocode: Geocoder): (r: seq<Group>)
    ensures |r| == |groups|
    ensures forall i | 0 <= i < |groups| :: r[i] == Geocoded(groups[i], searchTerms, geocode)
  {
    seq(|groups|, i requires 0 <= i < |groups| => Geocoded(groups[i], searchTerms, geocode))
  }

  /** Step 3's test: both coordinates truthy and, with bounds, inside the closed rectangle. */
  predicate Kept(p: Raw, bounds: Option<Bounds>) {
    TruthyNum(p.lat) && TruthyNum(p.lng) &&
    (bounds.Some? ==>
      bounds.value.swLat <= p.lat.value <= bounds.value.neLat &&
      bounds.value.swLng <= p.lng.value <= bounds.value.neLng)
  }

  /** The places that pass step 3, in order; an empty result is not relaxed. */
  function InBounds(groups: seq<Group>, bounds: Option<Bounds>): (r: seq<Group>)
    ensures |r| <= |groups|
  {
    if groups == [] then []
    else if Kept(groups[0].place, bounds) then [groups[0]] + InBounds(groups[1..], bounds)
    else InBounds(groups[1..], bounds)
  }

  /** Exactly the places that pass the test survive, in their order. */
  lemma {:induction false} InBoundsMeaning(groups: seq<Group>, bounds: Option<Bounds>)
    ensures forall g :: g in InBounds(groups, bounds) <==> g in groups && Kept(g.place, bounds)
    ensures forall g | g in InBounds(groups, bounds) :: TruthyNum(g.place.lat) && TruthyNum(g.place.lng)
  {
    if groups != [] {
      InBoundsMeaning(groups[1..], bounds);
      assert groups == [groups[0]] + groups[1..];
    }
  }

  /** With bounds that contain no place, the result is empty: nothing falls back to the unfiltered list. */
  lemma {:induction false} NoRelaxation(groups: seq<Group>, bounds: Bounds)
    requires forall i | 0 <= i < |groups| :: !Kept(groups[i].place, Some(bounds))
    ensures InBounds(groups, Some(bounds)) == []
  {
    if groups != [] {
      assert forall i | 0 <= i < |groups[1..]| :: groups[1..][i] == groups[i + 1];
      NoRelaxation(groups[1..], bounds);
    }
  }

  /** The entries' source names joined by ", " (an absent name joins as ""). */
  function SourceList(sources: seq<SourceEntry>): string {
    Join(seq(|sources|, i requires 0 <= i < |sources| => StrOr(sources[i].source, "")), ", ")
  }

  /** `s.replace(/\s+/g, "_")`: every white-space run becomes one underscore. */
  function Underscored(s: string): (r: string)
    ensures NoSpace(r)
    ensures |r| <= |s|
    decreases |s|
  {
    if s == [] then []
    else if IsSpace(s[0]) then "_" + Underscored(s[SkipSpace(s, 0)..])
    else [s[0]] + Underscored(s[1..])
  }

  /** `crawled_<name>_<nonce>`; the random nonce is an input. */
  function CrawledId(name: string, nonce: string): (id: string)
    ensures StartsWith(id, "crawled_")
  {
    "crawled_" + Lower(Underscored(name)) + "_" + nonce
  }

  /** Step 6 for one kept place: a restaurant with defaults for what the crawl lacks. */
  function AsRestaurant(g: Group, nonce: string): (r: Place)
    requires TruthyNum(g.place.lat) && TruthyNum(g.place.lng)
    ensures r.name == g.place.name && r.lat == g.place.lat.value && r.lng == g.place.lng.value
    ensures r.body.Eatery? && r.body.kind == Restaurant && r.body.rank.None?
  {
    var p := g.place;
    var first := if g.sources == [] then None else Some(g.sources[0]);
    Place(CrawledId(p.name, nonce), p.name,
          StrOr(OrStr(p.snippet, p.description), SourceList(g.sources) + "에서 추천"),
          p.lat.value, p.lng.value,
          Eatery(Restaurant,
                 Dining(StrOr(p.category, "맛집"), "미정", "미정", "미정",
                        Some(if first.Some? && TruthyNum(first.value.rating) then first.value.rating.value else 0.0),
                        Some(if first.Some? && TruthyInt(first.value.reviewCount) then first.value.reviewCount.value else 0),
                        false, None, None),
                 None))
  }

  /** The oracle's answer: the ids of the recommended places, in its order. */
  type Recommender = seq<Place> -> seq<string>

  datatype Final = NoPlaces | Recommended(ids: seq<string>, places: seq<Place>)

  /** `new Map(places.map(p => [p.id, p])).get(id)`: the last place with that id. */
  function ById(places: seq<Place>, id: string): (r: Option<Place>)
    ensures r.Some? ==> r.value in places && r.value.id == id
    ensures r.None? <==> forall p | p in places :: p.id != id
    ensures r.Some? ==> exists k | 0 <= k < |places| :: places[k] == r.value && forall j | k < j < |places| :: places[j].id != id
  {
    if places == [] then None
    else if places[|places| - 1].id == id then Some(places[|places| - 1])
    else ById(places[..|places| - 1], id)
  }

  /** The recommended ids mapped to places; unknown ids are dropped. */
  function Resolve(places: seq<Place>, ids: seq<string>): (r: seq<Place>)
    ensures |r| <= |ids|
  {
    if ids == [] then []
    else
      match ById(places, ids[0])
      case None => Resolve(places, ids[1..])
      case Some(p) => [p] + Resolve(places, ids[1..])
  }

  /** Resolution follows the oracle's order: it is the known ids, each replaced by its place. */
  lemma {:induction false} ResolveOrder(places: seq<Place>, a: seq<string>, b: seq<string>)
    ensures Resolve(places, a + b) == Resolve(places, a) + Resolve(places, b)
  {
    if a == [] {
      assert a + b == b;
    } else {
      assert (a + b)[0] == a[0];
      assert (a + b)[1..] == a[1..] + b;
      ResolveOrder(places, a[1..], b);
    }
  }

  lemma {:induction false} ResolveMembers(places: seq<Place>, ids: seq<string>)
    ensures forall p | p in Resolve(places, ids) :: p in places && p.id in ids
  {
    if ids != [] {
      ResolveMembers(places, ids[1..]);
    }
  }

  /** Steps 5 and 6: the seed places, then the kept crawled places as restaurants, seed names first. */
  function Pool(groups: seq<Group>, searchTerms: string, bounds: Option<Bounds>, geocode: Geocoder,
                restaurants: seq<SeedDining>, cafes: seq<SeedDining>, lots: seq<SeedLot>,
                nonces: nat -> string): (r: seq<Place>)
    ensures r == [] <==>
      (MapSeedPlaces(TS, restaurants, cafes, lots) == [] && InBounds(GeocodeAll(groups, searchTerms, geocode), bounds) == [])
  {
    var kept := InBounds(GeocodeAll(groups, searchTerms, geocode), bounds);
    InBoundsMeaning(GeocodeAll(groups, searchTerms, geocode), bounds);
    var crawled := seq(|kept|, i requires 0 <= i < |kept| => AsRestaurant(kept[i], nonces(i)));
    MergeSeedFirst(MapSeedPlaces(TS, restaurants, cafes, lots), crawled)
  }

  /**
   * The whole node over the deduplicated groups; nonces give each kept place
   * its random id part. The oracle sees the pool, and its ids are resolved
   * against the pool in its order, unknown ids dropped.
   */
  function Aggregate(groups: seq<Group>, searchTerms: string, bounds: Option<Bounds>, geocode: Geocoder,
                     restaurants: seq<SeedDining>, cafes: seq<SeedDining>, lots: seq<SeedLot>,
                     nonces: nat -> string, recommend: Recommender): (r: Final)
    ensures r.NoPlaces? <==>
      (MapSeedPlaces(TS, restaurants, cafes, lots) == [] && InBounds(GeocodeAll(groups, searchTerms, geocode), bounds) == [])
    ensures r.Recommended? ==>
      var pool := Pool(groups, searchTerms, bounds, geocode, restaurants, cafes, lots, nonces);
      r.ids == recommend(pool) && r.places == Resolve(pool, r.ids)
    ensures r.Recommended? ==> |r.places| <= |r.ids| && forall p | p in r.places :: p.id in r.ids
  {
    var all := Pool(groups, searchTerms, bounds, geocode, restaurants, cafes, lots, nonces);
    if all == [] then NoPlaces
    else
      var ids := recommend(all);
      ResolveMembers(all, ids);
      Recommended(ids, Resolve(all, ids))
  }
}
