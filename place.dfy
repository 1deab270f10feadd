/**
 * The place shown on the map (`Place` of the front end): a dining place
 * (restaurant, café, bar or bakery) or a parking lot, and the seed-first
 * merge every route applies to seed and crawled places.
 */
module Places {
  import opened Wrappers
  import opened Text

  datatype Kind = Restaurant | Cafe | Bar | Bakery

  /**
   * What every dining place carries.  `genre` is the `category` of a
   * restaurant or bar and the `specialty` of a café or bakery.
   */
  datatype Dining = Dining(
    genre: string,
    priceRange: string,
    atmosphere: string,
    goodFor: string,
    rating: Option<real>,
    reviewCount: Option<int>,
    parkingAvailable: bool,
    nearbyParking: Option<string>,
    tags: Option<string>)

  /** What a parking lot carries. */
  datatype Lot = Lot(
    parkingType: string,
    address: Option<string>,
    capacity: int,
    hourlyRate: int,
    baseTime: Option<int>,
    baseRate: Option<int>,
    extraTime: Option<int>,
    extraRate: Option<int>,
    freeNote: Option<string>,
    operatingHours: string)

  /** A dining place with its DiningCode rank, if one was assigned, or a parking lot. */
  datatype Body =
    | Eatery(kind: Kind, info: Dining, rank: Option<int>)
    | Parking(lot: Lot)

  datatype Place = Place(id: string, name: string, description: string, lat: real, lng: real, body: Body)
  {
    predicate IsParking() {
      body.Parking?
    }
  }

  /** The `type` field of a place. */
  function TypeLabel(p: Place): (t: string)
    ensures t in {"restaurant", "cafe", "bar", "bakery", "parking"}
    ensures t == "parking" <==> p.IsParking()
  {
    match p.body
    case Parking(_) => "parking"
    case Eatery(kind, _, _) =>
      match kind
      case Restaurant => "restaurant"
      case Cafe => "cafe"
      case Bar => "bar"
      case Bakery => "bakery"
  }

  /** One stop of a recommended course. */
  datatype Stop = Stop(order: int, id: string, placeType: string, reason: string)

  /** A recommended course: its number, title, stops in visiting order and route summary. */
  datatype Course = Course(courseNumber: int, title: string, stops: seq<Stop>, routeSummary: string)

  /** The lower-cased names of the seed places. */
  function SeedNames(seed: seq<Place>): set<string> {
    set p | p in seed :: Lower(p.name)
  }

  /** The places whose lower-cased name is not in names, in their order. */
  function Unseen(names: set<string>, places: seq<Place>): (r: seq<Place>)
    ensures |r| <= |places|
  {
    if places == [] then []
    else if Lower(places[0].name) in names then Unseen(names, places[1..])
    else [places[0]] + Unseen(names, places[1..])
  }

  /**
   * `[...seedPlaces, ...crawled.filter(p => !seedNames.has(p.name.toLowerCase()))]`:
   * the seed places win over crawled places of the same name, ignoring case.
   */
  function MergeSeedFirst(seed: seq<Place>, crawled: seq<Place>): (r: seq<Place>)
    ensures |seed| <= |r| <= |seed| + |crawled|
    ensures r[..|seed|] == seed
  {
    seed + Unseen(SeedNames(seed), crawled)
  }

  /** A place survives the filter iff its lower-cased name is not excluded. */
  lemma {:induction false} UnseenMembers(names: set<string>, places: seq<Place>)
    ensures forall p :: p in Unseen(names, places) <==> p in places && Lower(p.name) !in names
  {
    if places != [] {
      UnseenMembers(names, places[1..]);
      assert places == [places[0]] + places[1..];
    }
  }

  /** The filter keeps order: filtering a concatenation concatenates the filtered parts. */
  lemma {:induction false} UnseenAppend(names: set<string>, a: seq<Place>, b: seq<Place>)
    ensures Unseen(names, a + b) == Unseen(names, a) + Unseen(names, b)
  {
    if a == [] {
      assert a + b == b;
    } else {
      assert (a + b)[0] == a[0];
      assert (a + b)[1..] == a[1..] + b;
      UnseenAppend(names, a[1..], b);
    }
  }

  /**
   * Every seed place is kept, first; a crawled place is kept iff no seed place
   * has its name ignoring case; nothing else appears.
   */
  lemma MergeSeedFirstMembers(seed: seq<Place>, crawled: seq<Place>)
    ensures forall p | p in seed :: p in MergeSeedFirst(seed, crawled)
    ensures forall p | p in crawled ::
      p in MergeSeedFirst(seed, crawled)[|seed|..] <==> (forall s | s in seed :: Lower(s.name) != Lower(p.name))
    ensures forall p | p in MergeSeedFirst(seed, crawled) :: p in seed || p in crawled
  {
    UnseenMembers(SeedNames(seed), crawled);
    var r := MergeSeedFirst(seed, crawled);
    assert r[|seed|..] == Unseen(SeedNames(seed), crawled);
    forall p | p in crawled
      ensures Lower(p.name) in SeedNames(seed) <==> exists s | s in seed :: Lower(s.name) == Lower(p.name)
    {
    }
  }

  /** Crawled places of the same name are not merged with each other: both copies survive. */
  lemma CrawledDuplicatesKept(seed: seq<Place>, p: Place)
    requires forall s | s in seed :: Lower(s.name) != Lower(p.name)
    ensures MergeSeedFirst(seed, [p, p]) == seed + [p, p]
  {
    assert Lower(p.name) !in SeedNames(seed);
    assert [p, p][1..] == [p];
    assert [p][1..] == [];
    assert Unseen(SeedNames(seed), [p]) == [p];
  }
}
