/**
 * `GET /api/places`: the places inside a map rectangle.  The four database
 * queries (already restricted to the rectangle) are inputs; the route
 * checks the bounds, maps crawled places to cafés or restaurants by their
 * wording, ranks them by DiningCode score and merges them after the seed
 * places.
 */
module PlacesRoute {
  import opened Wrappers
  import opened Text
  import opened Places
  import opened PlaceMapper

  datatype Response = BadRequest | Found(places: seq<Place>)

  /**
   * `!swLat && !swLng && !neLat && !neLng` on the four `parseFloat` results
   * (None is NaN; a missing parameter parses "0"): every bound is 0 or NaN.
   */
  predicate BoundsMissing(swLat: Option<real>, swLng: Option<real>, neLat: Option<real>, neLng: Option<real>) {
    !TruthyNum(swLat) && !TruthyNum(swLng) && !TruthyNum(neLat) && !TruthyNum(neLng)
  }

  /** `/카페|커피|coffee|cafe|베이커리|bakery|디저트|dessert/i`, matched on the lower-cased text. */
  const CafeWords: seq<string> := ["카페", "커피", "coffee", "cafe", "베이커리", "bakery", "디저트", "dessert"]

  /** `/혼카페|차모임/` */
  const CafeCategoryWords: seq<string> := ["혼카페", "차모임"]

  predicate MentionsAny(s: string, words: seq<string>) {
    exists i | 0 <= i < |words| :: Contains(s, words[i])
  }

  /** `isCafe`: the name, or the category by the category pattern only, or the tags by either. */
  predicate IsCafe(name: string, category: Option<string>, tags: Option<string>) {
    MentionsAny(Lower(name), CafeWords)
    || (TruthyStr(category) && MentionsAny(category.value, CafeCategoryWords))
    || (TruthyStr(tags) && MentionsAny(Lower(tags.value), CafeWords))
    || (TruthyStr(tags) && MentionsAny(tags.value, CafeCategoryWords))
  }

  function RouteKind(row: CrawledRow): Kind {
    if IsCafe(row.name, row.category, row.tags) then Cafe else Restaurant
  }

  /** The crawled rows with coordinates as cafés or restaurants, in order. */
  function RoutePlaces(crawled: seq<CrawledRow>): (r: seq<Place>)
    ensures |r| == |WithCoordinates(crawled)|
  {
    var valid := WithCoordinates(crawled);
    seq(|valid|, i requires 0 <= i < |valid| => CrawledPlaceAs(TS, valid[i], RouteKind(valid[i])))
  }

  /**
   * The handler: 400 when the bounds are missing, otherwise the seed places
   * followed by the ranked crawled places whose name no seed place has.
   * (Only restaurants and cafés are ranked here, and only those exist among
   * the crawled places, so the shared ranking applies.)
   */
  method GetPlaces(swLat: Option<real>, swLng: Option<real>, neLat: Option<real>, neLng: Option<real>,
                   restaurants: seq<SeedDining>, cafes: seq<SeedDining>, lots: seq<SeedLot>,
                   crawled: seq<CrawledRow>, scoreOf: ScoreOracle)
    returns (r: Response)
    ensures r.BadRequest? <==> BoundsMissing(swLat, swLng, neLat, neLng)
    ensures r.Found? ==>
      (r.places == MergeSeedFirst(MapSeedPlaces(TS, restaurants, cafes, lots), RankPlaces(RoutePlaces(crawled), crawled, scoreOf)))
  {
    if BoundsMissing(swLat, swLng, neLat, neLng) {
      return BadRequest;
    }
    var seed := MapSeedPlaces(TS, restaurants, cafes, lots);
    var mapped := RoutePlaces(crawled);
    var ranked := new Place[|mapped|](i requires 0 <= i < |mapped| => mapped[i]);
    assert ranked[..] == mapped;
    RankByDiningCode(ranked, crawled, scoreOf);
    return Found(MergeSeedFirst(seed, ranked[..]));
  }

  /**
   * A crawled place is a café iff `isCafe` holds, with specialty category or
   * "카페"; otherwise a restaurant with category or "맛집".
   */
  lemma RoutePlaceKind(crawled: seq<CrawledRow>, i: nat)
    requires i < |WithCoordinates(crawled)|
    ensures var row := WithCoordinates(crawled)[i];
      var p := RoutePlaces(crawled)[i];
      p.id == row.id && p.body.Eatery? && p.body.rank.None? &&
      (p.body.kind == Cafe <==> IsCafe(row.name, row.category, row.tags)) &&
      (p.body.kind == Restaurant <==> !IsCafe(row.name, row.category, row.tags)) &&
      p.body.info.genre == StrOr(row.category, if p.body.kind == Cafe then "카페" else "맛집")
  {
  }

  /** s does not contain w when w's first character does not occur in s. */
  lemma AbsentFirst(s: string, w: string)
    requires w != [] && forall k | 0 <= k < |s| :: s[k] != w[0]
    ensures !Contains(s, w)
  {
    forall i: nat | i <= |s|
      ensures !OccursAt(s, w, i)
    {
      if i < |s| {
        assert s[i] != w[0];
      }
    }
  }

  /** A name that mentions coffee in any case makes a café. */
  lemma CafeByName()
    ensures IsCafe("Blue Bottle COFFEE", None, None)
  {
    var s := Lower("Blue Bottle COFFEE");
    assert s == "blue bottle coffee";
    assert OccursAt(s, "coffee", 12);
    assert CafeWords[2] == "coffee";
  }

  /** The category is not matched against the café pattern: "coffee" there does not make a café. */
  lemma CategoryNotCafeWord()
    ensures !IsCafe("봉", Some("coffee"), None)
  {
    assert Lower("봉") == "봉";
    forall i | 0 <= i < |CafeWords|
      ensures !Contains("봉", CafeWords[i])
    {
      AbsentFirst("봉", CafeWords[i]);
    }
    forall i | 0 <= i < |CafeCategoryWords|
      ensures !Contains("coffee", CafeCategoryWords[i])
    {
      AbsentFirst("coffee", CafeCategoryWords[i]);
    }
  }
}
