/**
 * The crawl route (POST /api/places/crawl): for a keyword, crawl places
 * and ask a language model for public parking lots near it; save the new
 * lots, geocode the deduplicated places while reporting progress, keep
 * those with coordinates (narrowed to the map bounds unless that would
 * leave none), classify and save them, and report the counts.
 */
module CrawlRoute {
  import opened Wrappers
  import opened Text
  import opened Crawl
  import opened Dedup
  import opened ParkingLots
  import Aggregator
  import PlaceMapper
  import PlaceCache

  // ---------------------------------------------------------------- the keyword

  /** The request is refused (400, "keyword required") when the keyword is absent or blank. */
  predicate KeywordMissing(keyword: Option<string>) {
    keyword.None? || Trim(keyword.value) == ""
  }

  // ---------------------------------------------------------------- parking lots

  /** A model entry is kept when it is named and inside the Seoul latitude and longitude ranges. */
  predicate ParkingValid(p: ParkingData) {
    TruthyStr(p.name) && p.lat.Some? && p.lng.Some? && InSeoul(p.lat.value, p.lng.value)
  }

  /** The kept entries of a parsed answer, in order. */
  function ValidLots(ps: seq<ParkingData>): (r: seq<ParkingData>)
    ensures |r| <= |ps|
    ensures forall p :: p in r <==> p in ps && ParkingValid(p)
    ensures forall k | 0 <= k < |r| :: ParkingValid(r[k])
  {
    if ps == [] then []
    else
      assert ps == [ps[0]] + ps[1..];
      (if ParkingValid(ps[0]) then [ps[0]] else []) + ValidLots(ps[1..])
  }

  /**
   * The lots the model is taken to have named: none when it gave no
   * content, unparsable JSON or an error (reply None), else the valid ones.
   */
  function ParkingFound(reply: Option<seq<ParkingData>>): (r: seq<ParkingData>)
    ensures reply.None? ==> r == []
    ensures forall p | p in r :: ParkingValid(p) && reply.Some? && p in reply.value
    ensures forall k | 0 <= k < |r| :: Typed(r[k])
    ensures reply.Some? ==> forall p | p in reply.value && ParkingValid(p) :: p in r
  {
    if reply.None? then [] else ValidLots(reply.value)
  }

  /** What the save passes the create call; the declared type promises a name and both coordinates. */
  predicate Typed(p: ParkingData) {
    p.name.Some? && p.lat.Some? && p.lng.Some?
  }

  /** The lot created for an entry: trimmed name, and the defaults for what the model left falsy. */
  function Candidate(p: ParkingData): (n: NewLot)
    requires Typed(p)
    ensures n.name == Trim(p.name.value) && n.lat == p.lat.value && n.lng == p.lng.value
    ensures n.parkingType != "" && n.operatingHours != ""
    ensures TruthyStr(n.address) <==> TruthyStr(p.address)
    ensures n.capacity != 0 && n.hourlyRate != 0
  {
    NewLot(Trim(p.name.value), StrOr(p.parkingType, "공영"),
           if TruthyStr(p.address) then p.address else None,
           p.lat.value, p.lng.value,
           IntOr(p.capacity, 50), IntOr(p.hourlyRate, 1000),
           StrOr(p.address, p.name.value), StrOr(p.operatingHours, "00:00~24:00"))
  }

  function Cands(lots: seq<ParkingData>): (r: seq<Option<NewLot>>)
    requires forall k | 0 <= k < |lots| :: Typed(lots[k])
    ensures |r| == |lots|
    ensures forall k | 0 <= k < |lots| :: r[k] == Some(Candidate(lots[k]))
  {
    seq(|lots|, k requires 0 <= k < |lots| => Some(Candidate(lots[k])))
  }

  /**
   * `saveParkingLots`: each lot whose trimmed name is not yet in the table
   * (earlier lots of the same run included) is created; the count of
   * created lots is returned.
   */
  method SaveParkingLots(table: ParkingTable, lots: seq<ParkingData>) returns (added: nat)
    requires forall k | 0 <= k < |lots| :: Typed(lots[k])
    modifies table
    ensures table.rows == old(table.rows) + StoredFrom(old(table.nextId), Admit(old(table.Names()), Cands(lots)))
    ensures added == |Admit(old(table.Names()), Cands(lots))|
    ensures table.nextId == old(table.nextId) + added
  {
    added := table.InsertAbsent(Cands(lots));
  }

  /**
   * After the save every lot's trimmed name is in the table; the lots
   * created have names that were new and pairwise distinct, at most one
   * per entry.
   */
  lemma SavedLotsMeaning(rows: seq<LotRow>, taken: set<string>, id: nat, lots: seq<ParkingData>)
    requires forall n :: n in taken <==> HasName(rows, n)
    requires forall k | 0 <= k < |lots| :: Typed(lots[k])
    ensures var created := Admit(taken, Cands(lots));
      |created| <= |lots| &&
      (forall k | 0 <= k < |created| :: !HasName(rows, created[k].name)) &&
      (forall p, q | 0 <= p < q < |created| :: created[p].name != created[q].name)
    ensures forall k | 0 <= k < |lots| ::
      HasName(rows + StoredFrom(id, Admit(taken, Cands(lots))), Trim(lots[k].name.value))
  {
    var cands := Cands(lots);
    var created := Admit(taken, cands);
    AdmitMeaning(taken, cands);
    forall k | 0 <= k < |lots|
      ensures HasName(rows + StoredFrom(id, created), Trim(lots[k].name.value))
    {
      assert cands[k] == Some(Candidate(lots[k]));
      AdmitCovers(taken, cands, k);
      HasNameStored(rows, id, created, Trim(lots[k].name.value));
    }
  }

  // ---------------------------------------------------------------- geocoding with progress

  /** The filter that sizes the progress bar: no pair of truthy coordinates, and a name. */
  predicate NeedsGeocode(p: Raw) {
    !(TruthyNum(p.lat) && TruthyNum(p.lng)) && p.name != ""
  }

  function Pending(gs: seq<Group>): (r: seq<Group>)
    ensures |r| <= |gs|
  {
    if gs == [] then []
    else Pending(gs[..|gs| - 1]) + (if NeedsGeocode(gs[|gs| - 1].place) then [gs[|gs| - 1]] else [])
  }

  /** Exactly the places that need geocoding are pending. */
  lemma {:induction false} PendingMeaning(gs: seq<Group>)
    ensures forall g :: g in Pending(gs) <==> g in gs && NeedsGeocode(g.place)
  {
    if gs != [] {
      var init := gs[..|gs| - 1];
      PendingMeaning(init);
      assert gs == init + [gs[|gs| - 1]];
    }
  }

  lemma PendingStep(gs: seq<Group>, i: nat)
    requires i < |gs|
    ensures Pending(gs[..i + 1]) == Pending(gs[..i]) + (if NeedsGeocode(gs[i].place) then [gs[i]] else [])
  {
    assert gs[..i + 1][..i] == gs[..i];
  }

  /** A prefix has no more pending places than the whole list. */
  lemma {:induction false} PendingPrefix(gs: seq<Group>, i: nat)
    requires i <= |gs|
    ensures |Pending(gs[..i])| <= |Pending(gs)|
    decreases |gs| - i
  {
    if i < |gs| {
      PendingStep(gs, i);
      PendingPrefix(gs, i + 1);
    } else {
      assert gs[..i] == gs;
    }
  }

  /** One more place: the counter follows the pending prefix and stays within the total. */
  lemma ProgressNext(gs: seq<Group>, i: nat, progress: nat, progress': nat, called: bool)
    requires i < |gs| && progress == |Pending(gs[..i])|
    requires called == NeedsGeocode(gs[i].place)
    requires progress' == if called then progress + 1 else progress
    ensures progress' == |Pending(gs[..i + 1])| <= |Pending(gs)|
  {
    PendingStep(gs, i);
    PendingPrefix(gs, i + 1);
  }

  /** One more place geocoded extends the geocoded prefix. */
  lemma GeocodedNext(gs: seq<Group>, i: nat, trimmed: string, geocode: Aggregator.Geocoder, done: seq<Group>, g: Group)
    requires i < |gs| && done == Aggregator.GeocodeAll(gs[..i], trimmed, geocode)
    requires g == Aggregator.Geocoded(gs[i], trimmed, geocode)
    ensures done + [g] == Aggregator.GeocodeAll(gs[..i + 1], trimmed, geocode)
  {
  }

  /** The query test and the progress filter agree. */
  lemma NeedsGeocodeIsQueried(p: Raw, searchTerms: string)
    ensures Aggregator.GeocodeQuery(p, searchTerms).Some? <==> NeedsGeocode(p)
  {
  }

  /** The callback for one merged place: geocode it when it is pending; `called` says whether the geocoder ran. */
  method GeocodeOne(g: Group, trimmed: string, geocode: Aggregator.Geocoder) returns (r: Group, called: bool)
    ensures r == Aggregator.Geocoded(g, trimmed, geocode)
    ensures called == NeedsGeocode(g.place)
  {
    var place := g.place;
    r, called := g, false;
    if TruthyNum(place.lat) && TruthyNum(place.lng) {
      return;
    }
    if place.name == "" {
      return;
    }
    var geo := geocode(StrOr(place.address, trimmed + " " + place.name));
    called := true;
    if geo.Some? {
      r := g.(place := place.(lat := Some(geo.value.lat), lng := Some(geo.value.lng),
                              address := Some(StrOr(place.address, geo.value.address))));
    }
  }

  /**
   * Step 3: every merged place is geocoded as the aggregator does it; the
   * counter goes up once per geocoder call and each call reports its
   * value, so the reports are 1, 2, … up to the number of pending places.
   */
  method GeocodeWithProgress(merged: seq<Group>, trimmed: string, geocode: Aggregator.Geocoder)
    returns (geocoded: seq<Group>, total: nat, progress: nat, reports: seq<nat>)
    ensures geocoded == Aggregator.GeocodeAll(merged, trimmed, geocode)
    ensures total == |Pending(merged)| && progress == total
    ensures |reports| == total && forall k | 0 <= k < |reports| :: reports[k] == k + 1
  {
    var pending := Pending(merged);
    total := |pending|;
    progress := 0;
    reports := [];
    geocoded := [];
    var i := 0;
    assert merged[..0] == [];
    while i < |merged|
      invariant i <= |merged|
      invariant geocoded == Aggregator.GeocodeAll(merged[..i], trimmed, geocode)
      invariant progress == |Pending(merged[..i])| <= total
      invariant |reports| == progress && forall k | 0 <= k < |reports| :: reports[k] == k + 1
    {
      var g, called := GeocodeOne(merged[i], trimmed, geocode);
      ghost var progress0 := progress;
      if called {
        progress := progress + 1;
        if total > 0 {
          reports := reports + [progress];
        }
      }
      ProgressNext(merged, i, progress0, progress, called);
      GeocodedNext(merged, i, trimmed, geocode, geocoded, g);
      geocoded := geocoded + [g];
      i := i + 1;
    }
    WholePrefix(merged);
  }

  // ---------------------------------------------------------------- results

  /** Places with both coordinates truthy, in order. */
  function Coordinated(gs: seq<Group>): (r: seq<Group>)
    ensures |r| <= |gs|
  {
    Aggregator.InBounds(gs, None)
  }

  /** The bounds narrow the results only when given with truthy south-west and north-east latitudes. */
  predicate Narrows(bounds: Option<Aggregator.Bounds>) {
    bounds.Some? && bounds.value.swLat != 0.0 && bounds.value.neLat != 0.0
  }

  /** Step 4: narrow to the places inside the bounds, unless none is. */
  function Narrowed(results: seq<Group>, bounds: Option<Aggregator.Bounds>): (r: seq<Group>)
    ensures r == results || r == Aggregator.InBounds(results, bounds)
  {
    if Narrows(bounds) && Aggregator.InBounds(results, bounds) != [] then Aggregator.InBounds(results, bounds)
    else results
  }

  /** The places the route classifies, saves and counts. */
  function CrawlResults(merged: seq<Group>, trimmed: string, bounds: Option<Aggregator.Bounds>,
                        geocode: Aggregator.Geocoder): seq<Group>
  {
    Narrowed(Coordinated(Aggregator.GeocodeAll(merged, trimmed, geocode)), bounds)
  }

  /**
   * Narrowing never empties the results: the kept places are results,
   * all inside the bounds when narrowing applied, and every result inside
   * the bounds survives.
   */
  lemma NarrowedMeaning(results: seq<Group>, bounds: Option<Aggregator.Bounds>)
    requires forall g | g in results :: TruthyNum(g.place.lat) && TruthyNum(g.place.lng)
    ensures var r := Narrowed(results, bounds);
      (r == [] <==> results == []) &&
      (forall g | g in r :: g in results) &&
      (forall g | g in results && Aggregator.Kept(g.place, bounds) :: g in r) &&
      (r != results ==> Narrows(bounds) && forall g | g in r :: Aggregator.Kept(g.place, bounds))
  {
    Aggregator.InBoundsMeaning(results, bounds);
  }

  /**
   * Where the aggregator node would keep nothing, the route keeps every
   * result: bounds containing no place do not empty the list here.
   */
  lemma RouteRelaxesBounds(results: seq<Group>, b: Aggregator.Bounds)
    requires b.swLat != 0.0 && b.neLat != 0.0
    requires forall i | 0 <= i < |results| :: !Aggregator.Kept(results[i].place, Some(b))
    ensures Aggregator.InBounds(results, Some(b)) == []
    ensures Narrowed(results, Some(b)) == results
  {
    Aggregator.NoRelaxation(results, b);
  }

  /** Every result is coordinated. */
  lemma CrawlResultsCoordinated(merged: seq<Group>, trimmed: string, bounds: Option<Aggregator.Bounds>,
                                geocode: Aggregator.Geocoder)
    ensures forall g | g in CrawlResults(merged, trimmed, bounds, geocode) ::
      TruthyNum(g.place.lat) && TruthyNum(g.place.lng)
    ensures |CrawlResults(merged, trimmed, bounds, geocode)| <= |merged|
  {
    var all := Aggregator.GeocodeAll(merged, trimmed, geocode);
    Aggregator.InBoundsMeaning(all, None);
    NarrowedMeaning(Coordinated(all), bounds);
  }

  // ---------------------------------------------------------------- typing and saving

  /** A result with the type the route attaches to it. */
  datatype TypedPlace = TypedPlace(group: Group, placeType: string)

  /** Step 5: the classifier's type for the name when truthy, else "restaurant". */
  function WithTypes(results: seq<Group>, m: PlaceMapper.TypeMap): (r: seq<TypedPlace>)
    ensures |r| == |results|
    ensures forall i | 0 <= i < |results| ::
      r[i].group == results[i] && r[i].placeType != "" &&
      (r[i].placeType == "restaurant" || (results[i].place.name in m && r[i].placeType == m[results[i].place.name]))
  {
    seq(|results|, i requires 0 <= i < |results| =>
      TypedPlace(results[i], StrOr(PlaceMapper.Classified(m, results[i].place.name), "restaurant")))
  }

  function SaveSourceOf(e: SourceEntry): PlaceCache.SaveSource {
    PlaceCache.SaveSource(e.source.GetOr(""), e.sourceUrl, e.rating, e.reviewCount, e.snippet, e.metadata)
  }

  /** The object handed to the save: the merged place, its sources and its type. */
  function SaveItemOf(t: TypedPlace): (x: PlaceCache.SaveItem)
    ensures x.name == t.group.place.name && x.placeType == Some(t.placeType)
    ensures |x.sources| == |t.group.sources|
  {
    var p := t.group.place;
    PlaceCache.SaveItem(p.name, p.category, p.description, p.address, p.lat, p.lng, p.tags, Some(t.placeType),
      seq(|t.group.sources|, i requires 0 <= i < |t.group.sources| => SaveSourceOf(t.group.sources[i])))
  }

  function SaveItems(ts: seq<TypedPlace>): (r: seq<PlaceCache.SaveItem>)
    ensures |r| == |ts| && forall i | 0 <= i < |ts| :: r[i] == SaveItemOf(ts[i])
  {
    seq(|ts|, i requires 0 <= i < |ts| => SaveItemOf(ts[i]))
  }

  /**
   * The type the route attaches never reaches the database: the save it
   * calls ignores it, so stored places keep their type and new ones have none.
   */
  lemma TypeNotStored(store: PlaceCache.Store, ts: seq<TypedPlace>, now: int)
    ensures var s' := PlaceCache.SaveAll(TS, store, SaveItems(ts), now);
      forall n | n in s' :: s'[n].placeType == (if n in store then store[n].placeType else None)
  {
    PlaceCache.TsNeverWritesType(store, SaveItems(ts), now);
  }

  // ---------------------------------------------------------------- the route

  /** The response: a refusal, or the final "done" event of the stream. */
  datatype Outcome = KeywordRequired | Done(count: nat, parkingAdded: nat, keyword: string)

  /**
   * The route.  The crawler's and the model's answers for the keyword are
   * inputs (a failure of either is an empty answer); so are the dedup
   * metric, the geocoder, the classifier and the clock.
   */
  method PostCrawl(keyword: Option<string>, bounds: Option<Aggregator.Bounds>,
                   crawled: seq<Raw>, parkingReply: Option<seq<ParkingData>>,
                   norm: Normaliser, dist: Distance, geocode: Aggregator.Geocoder,
                   classify: seq<Group> -> PlaceMapper.TypeMap,
                   store: PlaceCache.PlaceStore, table: ParkingTable, now: int)
    returns (r: Outcome)
    requires store.Valid()
    modifies store, table
    ensures store.Valid()
    ensures r.KeywordRequired? <==> KeywordMissing(keyword)
    ensures r.KeywordRequired? ==> store.places == old(store.places) && table.rows == old(table.rows)
    ensures r.Done? ==> r.keyword == Trim(keyword.value)
    ensures r.Done? ==>
      var created := Admit(old(table.Names()), Cands(ParkingFound(parkingReply)));
      table.rows == old(table.rows) + StoredFrom(old(table.nextId), created) && r.parkingAdded == |created|
    ensures r.Done? ==>
      var results := CrawlResults(DedupSpec(TypeScript, crawled, norm, dist), Trim(keyword.value), bounds, geocode);
      r.count == |results| &&
      store.places == PlaceCache.SaveAll(TS, old(store.places), SaveItems(WithTypes(results, classify(results))), now)
  {
    if keyword.None? || Trim(keyword.value) == "" {
      return KeywordRequired;
    }
    var trimmed := Trim(keyword.value);
    var parkingLots := ParkingFound(parkingReply);
    var parkingAdded := 0;
    if |parkingLots| > 0 {
      parkingAdded := SaveParkingLots(table, parkingLots);
    }
    var placeCount := 0;
    if |crawled| > 0 {
      var merged := DeduplicatePlaces(TypeScript, crawled, norm, dist);
      var geocoded, total, progress, reports := GeocodeWithProgress(merged, trimmed, geocode);
      var results := Coordinated(geocoded);
      results := Narrowed(results, bounds);
      var typeMap := classify(results);
      var placesWithType := WithTypes(results, typeMap);
      if |placesWithType| > 0 {
        store.SaveCrawledPlaces(TS, SaveItems(placesWithType), now);
      }
      placeCount := |results|;
    }
    r := Done(placeCount, parkingAdded, trimmed);
  }
}
