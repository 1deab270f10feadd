/**
 * Turning seed rows and crawled rows into places, ranking crawled places
 * by their DiningCode score, the seed-first merge, and the region of a
 * Korean address.
 */
module PlaceMapper {
  import opened Wrappers
  import opened Text
  import opened Patterns
  import opened Places

  // ---------------------------------------------------------------- seed places

  /** A seed restaurant or café; `genre` is its category or specialty. */
  datatype SeedDining = SeedDining(
    id: string, name: string, description: string, lat: real, lng: real,
    genre: string, priceRange: string, atmosphere: string, goodFor: string,
    rating: real, reviewCount: int, parkingAvailable: bool,
    nearbyParking: Option<string>, tags: Option<string>)

  /** A seed parking lot. */
  datatype SeedLot = SeedLot(
    id: string, name: string, description: string, lat: real, lng: real,
    parkingType: string, address: Option<string>, capacity: int, hourlyRate: int,
    baseTime: Option<int>, baseRate: Option<int>, extraTime: Option<int>, extraRate: Option<int>,
    freeNote: Option<string>, operatingHours: string)

  /** One seed restaurant or café as a place; the Python port sends no tags. */
  function SeedPlace(lang: Lang, kind: Kind, s: SeedDining): Place {
    Place(s.id, s.name, s.description, s.lat, s.lng,
      Eatery(kind,
        Dining(s.genre, s.priceRange, s.atmosphere, s.goodFor, Some(s.rating), Some(s.reviewCount),
          s.parkingAvailable, s.nearbyParking, if lang == TS then s.tags else None),
        None))
  }

  function LotPlace(s: SeedLot): Place {
    Place(s.id, s.name, s.description, s.lat, s.lng,
      Parking(Lot(s.parkingType, s.address, s.capacity, s.hourlyRate,
        s.baseTime, s.baseRate, s.extraTime, s.extraRate, s.freeNote, s.operatingHours)))
  }

  function SeedPlaces(lang: Lang, kind: Kind, rows: seq<SeedDining>): (r: seq<Place>)
    ensures |r| == |rows|
  {
    if rows == [] then [] else [SeedPlace(lang, kind, rows[0])] + SeedPlaces(lang, kind, rows[1..])
  }

  function LotPlaces(rows: seq<SeedLot>): (r: seq<Place>)
    ensures |r| == |rows|
  {
    if rows == [] then [] else [LotPlace(rows[0])] + LotPlaces(rows[1..])
  }

  /** `mapSeedPlaces` / `map_seed_places`: restaurants, then cafés, then parking lots. */
  function MapSeedPlaces(lang: Lang, restaurants: seq<SeedDining>, cafes: seq<SeedDining>, lots: seq<SeedLot>): (r: seq<Place>)
    ensures |r| == |restaurants| + |cafes| + |lots|
  {
    SeedPlaces(lang, Restaurant, restaurants) + SeedPlaces(lang, Cafe, cafes) + LotPlaces(lots)
  }

  lemma {:induction false} SeedPlacesAt(lang: Lang, kind: Kind, rows: seq<SeedDining>)
    ensures forall i | 0 <= i < |rows| :: SeedPlaces(lang, kind, rows)[i] == SeedPlace(lang, kind, rows[i])
  {
    if rows != [] {
      SeedPlacesAt(lang, kind, rows[1..]);
    }
  }

  lemma {:induction false} LotPlacesAt(rows: seq<SeedLot>)
    ensures forall i | 0 <= i < |rows| :: LotPlaces(rows)[i] == LotPlace(rows[i])
  {
    if rows != [] {
      LotPlacesAt(rows[1..]);
    }
  }

  /**
   * The seed places keep order and count: the i-th restaurant, café and lot
   * land at positions i, |restaurants| + i and |restaurants| + |cafes| + i,
   * tagged with their type, with their own id and name; TypeScript keeps the
   * tags and Python drops them.
   */
  lemma MapSeedLayout(lang: Lang, restaurants: seq<SeedDining>, cafes: seq<SeedDining>, lots: seq<SeedLot>)
    ensures var r := MapSeedPlaces(lang, restaurants, cafes, lots);
      (forall i | 0 <= i < |restaurants| ::
        r[i].id == restaurants[i].id && r[i].name == restaurants[i].name &&
        r[i].body.Eatery? && r[i].body.kind == Restaurant && r[i].body.rank.None? &&
        r[i].body.info.tags == (if lang == TS then restaurants[i].tags else None)) &&
      (forall i | 0 <= i < |cafes| ::
        var p := r[|restaurants| + i];
        p.id == cafes[i].id && p.name == cafes[i].name && p.body.Eatery? && p.body.kind == Cafe &&
        p.body.info.genre == cafes[i].genre) &&
      (forall i | 0 <= i < |lots| ::
        var p := r[|restaurants| + |cafes| + i];
        p.id == lots[i].id && p.IsParking() && p.body.lot.parkingType == lots[i].parkingType)
  {
    SeedPlacesAt(lang, Restaurant, restaurants);
    SeedPlacesAt(lang, Cafe, cafes);
    LotPlacesAt(lots);
  }

  // ---------------------------------------------------------------- crawled places

  /** A source row of a stored crawled place. */
  datatype CrawledSource = CrawledSource(
    source: string, snippet: Option<string>, rating: Option<real>, reviewCount: Option<int>,
    metadata: Option<string>)

  /** A stored crawled place with its source rows, in stored order. */
  datatype CrawledRow = CrawledRow(
    id: string, name: string, description: Option<string>, lat: Option<real>, lng: Option<real>,
    category: Option<string>, tags: Option<string>, priceRange: Option<string>,
    atmosphere: Option<string>, goodFor: Option<string>, placeType: Option<string>,
    address: Option<string>, sources: seq<CrawledSource>)

  /** The classifier's answer: place name to type. */
  type TypeMap = map<string, string>

  function Classified(m: TypeMap, name: string): Option<string> {
    if name in m then Some(m[name]) else None
  }

  /** `placeType || llmTypeMap[name] || "restaurant"`. */
  function TypeName(row: CrawledRow, m: TypeMap): string {
    StrOr(OrStr(row.placeType, Classified(m, row.name)), "restaurant")
  }

  /** The `switch` on the type name: anything unrecognised is a restaurant. */
  function KindOf(t: string): Kind {
    if t == "cafe" then Cafe
    else if t == "bar" then Bar
    else if t == "bakery" then Bakery
    else Restaurant
  }

  /** The fallback category or specialty of each kind. */
  function DefaultGenre(k: Kind): string {
    match k
    case Cafe => "카페"
    case Bar => "술집"
    case Bakery => "빵집"
    case Restaurant => "맛집"
  }

  function FirstSource(row: CrawledRow): Option<CrawledSource> {
    if row.sources == [] then None else Some(row.sources[0])
  }

  /** `sources[0]?.rating || 0` in TypeScript; the first source's rating as is, or 0 without a source, in Python. */
  function FirstRating(lang: Lang, row: CrawledRow): Option<real> {
    match FirstSource(row)
    case None => Some(0.0)
    case Some(s) => if lang == TS then Some(NumOr(s.rating, 0.0)) else s.rating
  }

  function FirstReviewCount(lang: Lang, row: CrawledRow): Option<int> {
    match FirstSource(row)
    case None => Some(0)
    case Some(s) => if lang == TS then Some(IntOr(s.reviewCount, 0)) else s.reviewCount
  }

  function CrawledDescription(row: CrawledRow): string {
    var snippet := match FirstSource(row) case None => None case Some(s) => s.snippet;
    StrOr(OrStr(row.description, snippet), "다이닝코드 크롤링")
  }

  predicate HasCoordinates(row: CrawledRow) {
    row.lat.Some? && row.lng.Some?
  }

  /** One crawled row with coordinates as a place of the given kind. */
  function CrawledPlaceAs(lang: Lang, row: CrawledRow, kind: Kind): Place
    requires HasCoordinates(row)
  {
    Place(row.id, row.name, CrawledDescription(row), row.lat.value, row.lng.value,
      Eatery(kind,
        Dining(StrOr(row.category, DefaultGenre(kind)), StrOr(row.priceRange, "미정"),
          StrOr(row.atmosphere, "미정"), StrOr(row.goodFor, "미정"),
          FirstRating(lang, row), FirstReviewCount(lang, row), false, None, row.tags),
        None))
  }

  /** One crawled row with coordinates as a place, of the kind its type name selects. */
  function CrawledPlace(lang: Lang, row: CrawledRow, m: TypeMap): Place
    requires HasCoordinates(row)
  {
    CrawledPlaceAs(lang, row, KindOf(TypeName(row, m)))
  }

  /** The rows with both coordinates, in order. */
  function WithCoordinates(rows: seq<CrawledRow>): (r: seq<CrawledRow>)
    ensures |r| <= |rows|
    ensures forall i | 0 <= i < |r| :: HasCoordinates(r[i])
  {
    if rows == [] then []
    else if HasCoordinates(rows[0]) then [rows[0]] + WithCoordinates(rows[1..])
    else WithCoordinates(rows[1..])
  }

  /** `mapCrawledToPlaces` / `map_crawled_to_places`. */
  function MapCrawled(lang: Lang, rows: seq<CrawledRow>, m: TypeMap): (r: seq<Place>)
    ensures |r| == |WithCoordinates(rows)|
  {
    var valid := WithCoordinates(rows);
    seq(|valid|, i requires 0 <= i < |valid| => CrawledPlace(lang, valid[i], m))
  }

  /** Rows without a coordinate are dropped; the rest keep their order and are never merged. */
  lemma {:induction false} WithCoordinatesFilter(a: seq<CrawledRow>, b: seq<CrawledRow>)
    ensures WithCoordinates(a + b) == WithCoordinates(a) + WithCoordinates(b)
    ensures forall row :: row in WithCoordinates(a) <==> row in a && HasCoordinates(row)
  {
    if a == [] {
      assert a + b == b;
    } else {
      assert (a + b)[0] == a[0];
      assert (a + b)[1..] == a[1..] + b;
      WithCoordinatesFilter(a[1..], b);
      assert a == [a[0]] + a[1..];
    }
  }

  /**
   * The type is the stored type when truthy, else the classifier's when
   * truthy, else "restaurant", and the kind follows it; the genre falls back
   * to the kind's default.
   */
  lemma CrawledKind(lang: Lang, row: CrawledRow, m: TypeMap)
    requires HasCoordinates(row)
    ensures var p := CrawledPlace(lang, row, m);
      p.body.Eatery? && p.body.rank.None? && p.name == row.name && p.id == row.id &&
      (TruthyStr(row.placeType) ==> p.body.kind == KindOf(row.placeType.value)) &&
      (!TruthyStr(row.placeType) && row.name in m && m[row.name] != "" ==> p.body.kind == KindOf(m[row.name])) &&
      (!TruthyStr(row.placeType) && (row.name !in m || m[row.name] == "") ==> p.body.kind == Restaurant) &&
      (TruthyStr(row.category) ==> p.body.info.genre == row.category.value) &&
      (!TruthyStr(row.category) ==> p.body.info.genre == DefaultGenre(p.body.kind))
  {
  }

  /** Only the four known names select a kind other than restaurant. */
  lemma UnknownTypeIsRestaurant(t: string)
    requires t != "cafe" && t != "bar" && t != "bakery"
    ensures KindOf(t) == Restaurant
  {
  }

  /**
   * TypeScript always has a rating (0 for a missing or zero one); Python keeps
   * a missing first-source rating missing, and gives 0 only without any source.
   */
  lemma CrawledRating(row: CrawledRow)
    ensures FirstRating(TS, row).Some?
    ensures row.sources == [] ==> FirstRating(TS, row) == FirstRating(Py, row) == Some(0.0)
    ensures row.sources != [] && row.sources[0].rating.None? ==>
      FirstRating(Py, row).None? && FirstRating(TS, row) == Some(0.0)
    ensures row.sources != [] && TruthyNum(row.sources[0].rating) ==>
      FirstRating(Py, row) == FirstRating(TS, row) == row.sources[0].rating
  {
  }

  // ---------------------------------------------------------------- DiningCode ranking

  /** The score in a metadata blob: `JSON.parse(meta).score ?? null`, None when it does not parse. */
  type ScoreOracle = string -> Option<real>

  /** A place's position in the crawled list and its score. */
  datatype Scored = Scored(at: nat, score: real)

  /** The metadata of the first source named "diningcode". */
  function DiningCodeMeta(sources: seq<CrawledSource>): Option<string> {
    if sources == [] then None
    else if sources[0].source == "diningcode" then sources[0].metadata
    else DiningCodeMeta(sources[1..])
  }

  /** A row's score: parsed only from truthy metadata. */
  function DiningCodeScore(row: CrawledRow, scoreOf: ScoreOracle): Option<real> {
    var meta := DiningCodeMeta(row.sources);
    if TruthyStr(meta) then scoreOf(meta.value) else None
  }

  /** The scored positions among the first n rows, in order. */
  function ScoresUpTo(rows: seq<CrawledRow>, n: nat, scoreOf: ScoreOracle): (r: seq<Scored>)
    requires n <= |rows|
    ensures |r| <= n
  {
    if n == 0 then []
    else
      var prev := ScoresUpTo(rows, n - 1, scoreOf);
      match DiningCodeScore(rows[n - 1], scoreOf)
      case Some(v) => prev + [Scored(n - 1, v)]
      case None => prev
  }

  /** a comes before b in the ranking: a higher score, or an equal score and an earlier position. */
  predicate Before(a: Scored, b: Scored) {
    a.score > b.score || (a.score == b.score && a.at < b.at)
  }

  /** A ranking: every element before the later ones, positions distinct. */
  predicate Ranked(s: seq<Scored>) {
    forall p, q | 0 <= p < q < |s| :: Before(s[p], s[q]) && s[p].at != s[q].at
  }

  /** Positions strictly increasing, as `ScoresUpTo` produces them. */
  predicate Ascending(s: seq<Scored>) {
    forall p, q | 0 <= p < q < |s| :: s[p].at < s[q].at
  }

  /** Stable insertion: x goes after every element with a score at least its own. */
  function Insert(s: seq<Scored>, x: Scored): (r: seq<Scored>)
    ensures |r| == |s| + 1
  {
    if s == [] then [x]
    else if s[0].score >= x.score then [s[0]] + Insert(s[1..], x)
    else [x] + s
  }

  /** The stable sort by descending score of `sort((a, b) => b.score - a.score)` and `sort(reverse=True)`. */
  function SortByScore(xs: seq<Scored>): (r: seq<Scored>)
    ensures |r| == |xs|
  {
    if xs == [] then [] else Insert(SortByScore(xs[..|xs| - 1]), xs[|xs| - 1])
  }

  lemma {:induction false} InsertMultiset(s: seq<Scored>, x: Scored)
    ensures multiset(Insert(s, x)) == multiset(s) + multiset{x}
  {
    if s != [] {
      assert s == [s[0]] + s[1..];
      if s[0].score >= x.score {
        InsertMultiset(s[1..], x);
      }
    }
  }

  /** An element that goes before every element of a ranking, heading it, gives a ranking. */
  lemma ConsRanked(y: Scored, t: seq<Scored>)
    requires Ranked(t)
    requires forall q | 0 <= q < |t| :: Before(y, t[q]) && y.at != t[q].at
    ensures Ranked([y] + t)
  {
    var r := [y] + t;
    forall p, q | 0 <= p < q < |r|
      ensures Before(r[p], r[q]) && r[p].at != r[q].at
    {
      assert r[q] == t[q - 1];
      if p > 0 {
        assert r[p] == t[p - 1];
      }
    }
  }

  lemma {:induction false} InsertRanked(s: seq<Scored>, x: Scored)
    requires Ranked(s)
    requires forall p | 0 <= p < |s| :: s[p].at < x.at
    ensures Ranked(Insert(s, x))
  {
    if s == [] {
    } else if s[0].score >= x.score {
      var rest := s[1..];
      assert Ranked(rest) by {
        forall p, q | 0 <= p < q < |rest|
          ensures Before(rest[p], rest[q]) && rest[p].at != rest[q].at
        {
          assert rest[p] == s[p + 1] && rest[q] == s[q + 1];
        }
      }
      InsertRanked(rest, x);
      var t := Insert(rest, x);
      InsertMultiset(rest, x);
      forall q | 0 <= q < |t|
        ensures Before(s[0], t[q]) && s[0].at != t[q].at
      {
        assert t[q] in multiset(t);
        if t[q] != x {
          assert t[q] in multiset(rest);
          var k :| 0 <= k < |rest| && rest[k] == t[q];
          assert s[k + 1] == t[q];
        }
      }
      ConsRanked(s[0], t);
    } else {
      forall q | 0 <= q < |s|
        ensures Before(x, s[q]) && x.at != s[q].at
      {
        if q > 0 {
          assert Before(s[0], s[q]);
        }
      }
      ConsRanked(x, s);
    }
  }

  /** The sort returns a ranking that is a permutation of its input. */
  /** The sort is a permutation. */
  lemma {:induction false} SortPermutes(xs: seq<Scored>)
    ensures multiset(SortByScore(xs)) == multiset(xs)
  {
    if xs != [] {
      var init := xs[..|xs| - 1];
      SortPermutes(init);
      InsertMultiset(SortByScore(init), xs[|xs| - 1]);
      assert xs == init + [xs[|xs| - 1]];
    }
  }

  lemma SortMembers(xs: seq<Scored>)
    ensures forall q | 0 <= q < |SortByScore(xs)| :: SortByScore(xs)[q] in xs
  {
    SortPermutes(xs);
    forall q | 0 <= q < |SortByScore(xs)|
      ensures SortByScore(xs)[q] in xs
    {
      assert SortByScore(xs)[q] in multiset(xs);
    }
  }

  lemma {:induction false} SortRanked(xs: seq<Scored>)
    requires Ascending(xs)
    ensures Ranked(SortByScore(xs))
  {
    if xs != [] {
      var init := xs[..|xs| - 1];
      var x := xs[|xs| - 1];
      assert Ascending(init) by {
        forall p, q | 0 <= p < q < |init|
          ensures init[p].at < init[q].at
        {
          assert init[p] == xs[p] && init[q] == xs[q];
        }
      }
      SortRanked(init);
      var s := SortByScore(init);
      SortMembers(init);
      forall p | 0 <= p < |s|
        ensures s[p].at < x.at
      {
        var j :| 0 <= j < |init| && init[j] == s[p];
        assert init[j] == xs[j];
      }
      InsertRanked(s, x);
    }
  }

  lemma {:induction false} ScoresAscending(rows: seq<CrawledRow>, n: nat, scoreOf: ScoreOracle)
    requires n <= |rows|
    ensures Ascending(ScoresUpTo(rows, n, scoreOf))
    ensures forall q | 0 <= q < |ScoresUpTo(rows, n, scoreOf)| :: ScoresUpTo(rows, n, scoreOf)[q].at < n
  {
    if n > 0 {
      ScoresAscending(rows, n - 1, scoreOf);
    }
  }

  lemma {:induction false} ScoresMembers(rows: seq<CrawledRow>, n: nat, scoreOf: ScoreOracle)
    requires n <= |rows|
    ensures forall i: nat, v | i < n :: Scored(i, v) in ScoresUpTo(rows, n, scoreOf) <==> DiningCodeScore(rows[i], scoreOf) == Some(v)
    ensures forall x | x in ScoresUpTo(rows, n, scoreOf) :: x.at < n
  {
    if n > 0 {
      ScoresMembers(rows, n - 1, scoreOf);
    }
  }

  /** The ranking order: the scored positions paired with the crawled rows that have coordinates. */
  function RankOrder(count: nat, crawled: seq<CrawledRow>, scoreOf: ScoreOracle): seq<Scored> {
    var valid := WithCoordinates(crawled);
    SortByScore(ScoresUpTo(valid, if count < |valid| then count else |valid|, scoreOf))
  }

  /** Where position j stands in the order, if it is there. */
  function PlaceOf(order: seq<Scored>, j: nat): (r: Option<nat>)
    ensures r.Some? ==> r.value < |order| && order[r.value].at == j
    ensures r.None? ==> forall q | 0 <= q < |order| :: order[q].at != j
  {
    if order == [] then None
    else if order[|order| - 1].at == j then Some(|order| - 1)
    else PlaceOf(order[..|order| - 1], j)
  }

  /** `diningcodeRank = i + 1` for a dining place at position i of the order. */
  function WithRank(p: Place, at: Option<nat>): Place {
    if at.Some? && p.body.Eatery? then p.(body := p.body.(rank := Some(at.value + 1))) else p
  }

  /** Sorting scored positions gives a ranking of exactly those positions. */
  lemma SortedScores(xs: seq<Scored>)
    requires Ascending(xs)
    ensures Ranked(SortByScore(xs))
    ensures forall y :: y in SortByScore(xs) <==> y in xs
  {
    SortRanked(xs);
    SortPermutes(xs);
    var order := SortByScore(xs);
    forall y
      ensures y in order <==> y in xs
    {
      assert y in order <==> y in multiset(order);
      assert y in xs <==> y in multiset(xs);
    }
  }

  /** The order ranks higher scores first, equal scores in list order, each position once. */
  lemma RankOrderRanked(count: nat, crawled: seq<CrawledRow>, scoreOf: ScoreOracle)
    ensures Ranked(RankOrder(count, crawled, scoreOf))
  {
    var valid := WithCoordinates(crawled);
    var n := if count < |valid| then count else |valid|;
    ScoresAscending(valid, n, scoreOf);
    SortedScores(ScoresUpTo(valid, n, scoreOf));
  }

  /**
   * A position is in the order, with its score, iff it is paired with a
   * crawled row (it is below both the number of places and the number of
   * rows with coordinates) whose DiningCode metadata yields that score.
   */
  lemma RankOrderMembers(count: nat, crawled: seq<CrawledRow>, scoreOf: ScoreOracle)
    ensures var valid := WithCoordinates(crawled);
      forall j: nat, v ::
        Scored(j, v) in RankOrder(count, crawled, scoreOf) <==>
        j < count && j < |valid| && DiningCodeScore(valid[j], scoreOf) == Some(v)
  {
    var valid := WithCoordinates(crawled);
    var n := if count < |valid| then count else |valid|;
    ScoresAscending(valid, n, scoreOf);
    ScoresMembers(valid, n, scoreOf);
    SortedScores(ScoresUpTo(valid, n, scoreOf));
  }

  /** A position holds a place in the order iff some score is there for it. */
  lemma PlaceOfMember(order: seq<Scored>, j: nat)
    ensures PlaceOf(order, j).Some? <==> exists v: real :: Scored(j, v) in order
  {
    var at := PlaceOf(order, j);
    if at.Some? {
      var y := order[at.value];
      assert y == Scored(j, y.score) && y in order;
    }
  }

  lemma PlaceOfStep(order: seq<Scored>, p: nat, k: nat)
    requires p < |order|
    ensures PlaceOf(order[..p + 1], k) == if order[p].at == k then Some(p) else PlaceOf(order[..p], k)
  {
    assert order[..p + 1][..p] == order[..p];
  }

  /** The `forEach`: rank i + 1 to the dining place at position i of the order. */
  method AssignRanks(places: array<Place>, order: seq<Scored>)
    requires Ranked(order)
    modifies places
    ensures places[..] == ApplyOrder(old(places[..]), order)
  {
    var p := 0;
    while p < |order|
      invariant p <= |order|
      invariant forall j | 0 <= j < places.Length :: places[j] == WithRank(old(places[j]), PlaceOf(order[..p], j))
    {
      var j := order[p].at;
      forall k | 0 <= k < places.Length
        ensures PlaceOf(order[..p + 1], k) == if j == k then Some(p) else PlaceOf(order[..p], k)
      {
        PlaceOfStep(order, p, k);
      }
      if j < places.Length {
        assert PlaceOf(order[..p], j).None?;
        if places[j].body.Eatery? {
          places[j] := places[j].(body := places[j].body.(rank := Some(p + 1)));
        }
      }
      p := p + 1;
    }
    assert order[..p] == order;
    assert forall j | 0 <= j < places.Length :: places[..][j] == ApplyOrder(old(places[..]), order)[j];
  }

  /** Each dining place in the order gets its position plus one as its rank. */
  function ApplyOrder(ps: seq<Place>, order: seq<Scored>): (r: seq<Place>)
    ensures |r| == |ps|
  {
    seq(|ps|, j requires 0 <= j < |ps| => WithRank(ps[j], PlaceOf(order, j)))
  }

  /** The places after ranking. */
  function RankPlaces(ps: seq<Place>, crawled: seq<CrawledRow>, scoreOf: ScoreOracle): (r: seq<Place>)
    ensures |r| == |ps|
  {
    ApplyOrder(ps, RankOrder(|ps|, crawled, scoreOf))
  }

  /** Position i is paired with a crawled row with coordinates whose metadata yields a score. */
  predicate HasScore(crawled: seq<CrawledRow>, scoreOf: ScoreOracle, i: nat) {
    var valid := WithCoordinates(crawled);
    i < |valid| && DiningCodeScore(valid[i], scoreOf).Some?
  }

  function ScoreAt(crawled: seq<CrawledRow>, scoreOf: ScoreOracle, i: nat): real
    requires HasScore(crawled, scoreOf, i)
  {
    DiningCodeScore(WithCoordinates(crawled)[i], scoreOf).value
  }

  /** Ranking keeps every place's identity; parking lots and unscored places are left as they were. */
  lemma RankLeavesUnscored(ps: seq<Place>, crawled: seq<CrawledRow>, scoreOf: ScoreOracle, i: nat)
    requires i < |ps|
    ensures var r := RankPlaces(ps, crawled, scoreOf);
      r[i].id == ps[i].id && r[i].name == ps[i].name && r[i].IsParking() == ps[i].IsParking() &&
      (ps[i].IsParking() || !HasScore(crawled, scoreOf, i) ==> r[i] == ps[i])
  {
    var order := RankOrder(|ps|, crawled, scoreOf);
    RankOrderMembers(|ps|, crawled, scoreOf);
    PlaceOfMember(order, i);
  }

  /** A scored position below the number of places is in the order. */
  lemma InOrder(count: nat, crawled: seq<CrawledRow>, scoreOf: ScoreOracle, i: nat)
    requires i < count && HasScore(crawled, scoreOf, i)
    ensures PlaceOf(RankOrder(count, crawled, scoreOf), i).Some?
  {
    var order := RankOrder(count, crawled, scoreOf);
    RankOrderMembers(count, crawled, scoreOf);
    PlaceOfMember(order, i);
    assert Scored(i, ScoreAt(crawled, scoreOf, i)) in order;
  }

  /** Every element of the order carries its position's score. */
  lemma OrderScore(count: nat, crawled: seq<CrawledRow>, scoreOf: ScoreOracle, q: nat)
    requires q < |RankOrder(count, crawled, scoreOf)|
    ensures var x := RankOrder(count, crawled, scoreOf)[q];
      HasScore(crawled, scoreOf, x.at) && ScoreAt(crawled, scoreOf, x.at) == x.score
  {
    var order := RankOrder(count, crawled, scoreOf);
    RankOrderMembers(count, crawled, scoreOf);
    assert order[q] in order && order[q] == Scored(order[q].at, order[q].score);
  }

  /** The order holds at most one element per place. */
  lemma OrderShort(count: nat, crawled: seq<CrawledRow>, scoreOf: ScoreOracle)
    ensures |RankOrder(count, crawled, scoreOf)| <= count
  {
  }

  /** Every scored dining place gets a rank between 1 and the number of places. */
  lemma RankGiven(ps: seq<Place>, crawled: seq<CrawledRow>, scoreOf: ScoreOracle, i: nat)
    requires i < |ps| && !ps[i].IsParking() && HasScore(crawled, scoreOf, i)
    ensures var r := RankPlaces(ps, crawled, scoreOf);
      r[i].body.rank.Some? && 1 <= r[i].body.rank.value <= |ps|
  {
    InOrder(|ps|, crawled, scoreOf, i);
    OrderShort(|ps|, crawled, scoreOf);
  }

  /** Distinct scored dining places get distinct ranks, and a higher score a smaller rank. */
  lemma RanksFollowScores(ps: seq<Place>, crawled: seq<CrawledRow>, scoreOf: ScoreOracle, i: nat, j: nat)
    requires i < |ps| && !ps[i].IsParking() && HasScore(crawled, scoreOf, i)
    requires j < |ps| && !ps[j].IsParking() && HasScore(crawled, scoreOf, j)
    ensures var r := RankPlaces(ps, crawled, scoreOf);
      r[i].body.rank.Some? && r[j].body.rank.Some? &&
      (i != j ==> r[i].body.rank != r[j].body.rank) &&
      (ScoreAt(crawled, scoreOf, i) > ScoreAt(crawled, scoreOf, j) ==> r[i].body.rank.value < r[j].body.rank.value)
  {
    var order := RankOrder(|ps|, crawled, scoreOf);
    InOrder(|ps|, crawled, scoreOf, i);
    InOrder(|ps|, crawled, scoreOf, j);
    RankOrderRanked(|ps|, crawled, scoreOf);
    var a := PlaceOf(order, i).value;
    var b := PlaceOf(order, j).value;
    OrderScore(|ps|, crawled, scoreOf, a);
    OrderScore(|ps|, crawled, scoreOf, b);
  }

  /**
   * `rankByDiningCode` / `rank_by_diningcode`: every dining place gets its
   * position in the ranking order plus one as its rank; parking lots and
   * unscored places are left as they were.
   */
  method RankByDiningCode(places: array<Place>, crawled: seq<CrawledRow>, scoreOf: ScoreOracle)
    modifies places
    ensures places[..] == RankPlaces(old(places[..]), crawled, scoreOf)
  {
    var valid := WithCoordinates(crawled);
    var scored: seq<Scored> := [];
    var i := 0;
    // Python stops at the end of the rows with coordinates; TypeScript pairs
    // later places with `undefined` and so gives them no score: the same effect.
    while i < places.Length && i < |valid|
      invariant i <= places.Length && i <= |valid|
      invariant scored == ScoresUpTo(valid, i, scoreOf)
    {
      var score := DiningCodeScore(valid[i], scoreOf);
      if score.Some? {
        scored := scored + [Scored(i, score.value)];
      }
      i := i + 1;
    }
    var order := SortByScore(scored);
    assert order == RankOrder(places.Length, crawled, scoreOf);
    RankOrderRanked(places.Length, crawled, scoreOf);
    AssignRanks(places, order);
  }

  // ---------------------------------------------------------------- region of an address

  predicate NotSpace(c: char) {
    !IsSpace(c)
  }

  /** `[구군]` */
  predicate IsGuGun(c: char) {
    c == '구' || c == '군'
  }

  /** `[시군구]`, the same class as `[구군시]`. */
  predicate IsSiGunGu(c: char) {
    c == '시' || c == '군' || c == '구'
  }

  /**
   * `\s{minSpaces,}(\S+[E])` anchored at i: the greedy white-space run must
   * be followed directly by the token, since giving white space back would
   * start the token on white space.
   */
  function TokenAfter(s: string, i: nat, minSpaces: nat, end: CharClass): Option<string>
    requires i <= |s|
  {
    var j := RunEnd(s, i, IsSpace);
    if j - i < minSpaces then None
    else match MatchEnd(s, j, NotSpace, end)
      case Some(k) => Some(s[j..k + 1])
      case None => None
  }

  /** The token when s starts with prefix p. */
  function AfterPrefix(s: string, p: string, minSpaces: nat, end: CharClass): Option<string> {
    if StartsWith(s, p) then TokenAfter(s, |p|, minSpaces, end) else None
  }

  /** `^(서울특별시|서울)\s+(\S+[구군])`, group 2: the alternatives in order. */
  function SeoulDistrict(s: string): Option<string> {
    Coalesce(AfterPrefix(s, "서울특별시", 1, IsGuGun), AfterPrefix(s, "서울", 1, IsGuGun))
  }

  const MetroCities: seq<string> := ["대구", "부산", "인천", "광주", "대전", "울산"]

  /**
   * `^(대구|부산|인천|광주|대전|울산)(광역시)?\s+(\S+[구군])` as "city district":
   * each city in order, with 광역시 first and without it second.
   */
  function MetroDistrict(s: string, cities: seq<string>): Option<string> {
    if cities == [] then None
    else
      var c := cities[0];
      match Coalesce(AfterPrefix(s, c + "광역시", 1, IsGuGun), AfterPrefix(s, c, 1, IsGuGun))
      case Some(t) => Some(c + " " + t)
      case None => MetroDistrict(s, cities[1..])
  }

  const Provinces: seq<string> := ["경기도", "충청남도", "충청북도", "전라남도", "전라북도", "경상남도", "경상북도", "강원도", "제주특별자치도", "세종특별자치시"]

  /**
   * `^(경기도|충청[남북]도|…|세종특별자치시)\s*(\S+[시군구])?`: the first
   * province the address starts with, followed by its city when one matches.
   */
  function ProvinceRegion(s: string, provinces: seq<string>): Option<string> {
    if provinces == [] then None
    else if StartsWith(s, provinces[0]) then
      match TokenAfter(s, |provinces[0]|, 0, IsSiGunGu)
      case Some(t) => Some(provinces[0] + " " + t)
      case None => Some(provinces[0])
    else ProvinceRegion(s, provinces[1..])
  }

  /** `extractRegion` / `extract_region`: the first of the four patterns that matches, else "기타". */
  function ExtractRegion(address: Option<string>): string {
    if !TruthyStr(address) then "기타"
    else
      var s := address.value;
      match SeoulDistrict(s)
      case Some(g) => g
      case None =>
        match MetroDistrict(s, MetroCities)
        case Some(g) => g
        case None =>
          match ProvinceRegion(s, Provinces)
          case Some(g) => g
          case None => Search(s, NotSpace, IsSiGunGu).GetOr("기타")
  }

  /** A token is two or more characters without white space, ending in a character of its class. */
  lemma TokenShape(s: string, i: nat, minSpaces: nat, end: CharClass)
    requires i <= |s|
    ensures var t := TokenAfter(s, i, minSpaces, end);
      t.Some? ==> |t.value| >= 2 && end(t.value[|t.value| - 1]) && NoSpace(t.value)
  {
    var j := RunEnd(s, i, IsSpace);
    if j - i >= minSpaces {
      match MatchEnd(s, j, NotSpace, end)
      case Some(k) =>
        MatchShape(s, j, k, NotSpace, end);
      case None =>
    }
  }

  lemma {:induction false} ProvinceNonEmpty(s: string, provinces: seq<string>)
    requires forall i | 0 <= i < |provinces| :: provinces[i] != ""
    ensures var r := ProvinceRegion(s, provinces); r.Some? ==> r.value != ""
  {
    if provinces != [] && !StartsWith(s, provinces[0]) {
      assert forall i | 0 <= i < |provinces| - 1 :: provinces[1..][i] == provinces[i + 1];
      ProvinceNonEmpty(s, provinces[1..]);
    }
  }

  /** The Seoul pattern yields a district: two or more characters without white space ending in 구 or 군. */
  lemma SeoulDistrictShape(s: string)
    ensures var r := SeoulDistrict(s);
      r.Some? ==> |r.value| >= 2 && IsGuGun(r.value[|r.value| - 1]) && NoSpace(r.value)
  {
    if StartsWith(s, "서울특별시") {
      TokenShape(s, |"서울특별시"|, 1, IsGuGun);
    }
    if StartsWith(s, "서울") {
      TokenShape(s, |"서울"|, 1, IsGuGun);
    }
  }

  lemma {:induction false} MetroNonEmpty(s: string, cities: seq<string>)
    ensures var r := MetroDistrict(s, cities); r.Some? ==> r.value != ""
  {
    if cities != [] {
      MetroNonEmpty(s, cities[1..]);
    }
  }

  /** The region is never empty. */
  lemma RegionNonEmpty(address: Option<string>)
    ensures ExtractRegion(address) != ""
  {
    if TruthyStr(address) {
      var s := address.value;
      SeoulDistrictShape(s);
      MetroNonEmpty(s, MetroCities);
      ProvinceNonEmpty(s, Provinces);
      var f := FirstMatch(s, 0, NotSpace, IsSiGunGu);
      if f.Some? {
        MatchShape(s, f.value.0, f.value.1, NotSpace, IsSiGunGu);
      }
    }
  }

  /** An absent or empty address is "기타". */
  lemma RegionOfNothing()
    ensures ExtractRegion(None) == "기타"
    ensures ExtractRegion(Some("")) == "기타"
  {
  }

  const GangnamAddress := "서울특별시 강남구 테헤란로 152"

  /** A Seoul address gives its district alone. */
  lemma RegionSeoul()
    ensures ExtractRegion(Some(GangnamAddress)) == "강남구"
  {
    var s := GangnamAddress;
    assert StartsWith(s, "서울특별시");
    RunEndIs(s, 5, 6, IsSpace);
    RunEndIs(s, 6, 9, NotSpace);
    assert MatchEnd(s, 6, NotSpace, IsGuGun) == Some(8);
    assert s[6..9] == "강남구";
  }

  /** s does not start with p when they differ at k. */
  lemma NotPrefix(s: string, p: string, k: nat)
    requires k < |p| && (k < |s| ==> s[k] != p[k])
    ensures !StartsWith(s, p)
  {
    if |p| <= |s| {
      assert s[..|p|][k] == s[k];
    }
  }

  /** An address starting with a syllable other than 서 has no Seoul district. */
  lemma NotSeoul(s: string)
    requires s != [] && s[0] != '서'
    ensures SeoulDistrict(s) == None
  {
    NotPrefix(s, "서울특별시", 0);
    NotPrefix(s, "서울", 0);
  }

  const DaeguAddress := "대구광역시 서구 국채보상로 257"

  lemma DaeguDistrict()
    ensures AfterPrefix(DaeguAddress, "대구광역시", 1, IsGuGun) == Some("서구")
  {
    var s := DaeguAddress;
    assert StartsWith(s, "대구광역시");
    RunEndIs(s, 5, 6, IsSpace);
    RunEndIs(s, 6, 8, NotSpace);
    assert MatchEnd(s, 6, NotSpace, IsGuGun) == Some(7);
    assert s[6..8] == "서구";
  }

  /** The first city whose pattern matches decides the metropolitan region. */
  lemma MetroFirst(s: string, cities: seq<string>, t: string)
    requires cities != [] && AfterPrefix(s, cities[0] + "광역시", 1, IsGuGun) == Some(t)
    ensures MetroDistrict(s, cities) == Some(cities[0] + " " + t)
  {
  }

  /** Another metropolitan city gives "city district". */
  lemma RegionMetro()
    ensures ExtractRegion(Some(DaeguAddress)) == "대구 서구"
  {
    assert SeoulDistrict(DaeguAddress) == None by {
      NotSeoul(DaeguAddress);
    }
    assert MetroDistrict(DaeguAddress, MetroCities) == Some("대구 서구") by {
      DaeguDistrict();
      assert MetroCities[0] + "광역시" == "대구광역시";
      MetroFirst(DaeguAddress, MetroCities, "서구");
      assert MetroCities[0] + " " + "서구" == "대구 서구";
    }
  }

  /** A province without a city gives the province. */
  lemma RegionProvince()
    ensures ExtractRegion(Some("경상북도")) == "경상북도"
  {
    var s := "경상북도";
    NotSeoul(s);
    GyeongbukNotMetro();
    GyeongbukProvince();
  }

  lemma GyeongbukNotMetro()
    ensures MetroDistrict("경상북도", MetroCities) == None
  {
    var s := "경상북도";
    NotPrefix(s, "대구", 0);
    NotPrefix(s, "부산", 0);
    NotPrefix(s, "인천", 0);
    NotPrefix(s, "광주", 0);
    NotPrefix(s, "대전", 0);
    NotPrefix(s, "울산", 0);
  }

  lemma GyeongbukProvince()
    ensures ProvinceRegion("경상북도", Provinces) == Some("경상북도")
  {
    var s := "경상북도";
    NotPrefix(s, "경기도", 1);
    NotPrefix(s, "충청남도", 0);
    NotPrefix(s, "충청북도", 0);
    NotPrefix(s, "전라남도", 0);
    NotPrefix(s, "전라북도", 0);
    NotPrefix(s, "경상남도", 2);
    assert StartsWith(s, "경상북도");
  }

  /** No city pattern matches an address whose first character starts no city name. */
  lemma {:induction false} MetroNone(s: string, cities: seq<string>)
    requires s != []
    requires forall i | 0 <= i < |cities| :: cities[i] != [] && cities[i][0] != s[0]
    ensures MetroDistrict(s, cities) == None
  {
    if cities != [] {
      var c := cities[0];
      NotPrefix(s, c, 0);
      NotPrefix(s, c + "광역시", 0);
      assert forall i | 0 <= i < |cities| - 1 :: cities[1..][i] == cities[i + 1];
      MetroNone(s, cities[1..]);
    }
  }

  /** No province pattern matches an address whose first character starts no province name. */
  lemma {:induction false} ProvinceNone(s: string, provinces: seq<string>)
    requires s != []
    requires forall i | 0 <= i < |provinces| :: provinces[i] != [] && provinces[i][0] != s[0]
    ensures ProvinceRegion(s, provinces) == None
  {
    if provinces != [] {
      NotPrefix(s, provinces[0], 0);
      assert forall i | 0 <= i < |provinces| - 1 :: provinces[1..][i] == provinces[i + 1];
      ProvinceNone(s, provinces[1..]);
    }
  }

  const YongsanAddress := "용산구 이태원동"

  lemma YongsanNoPrefix()
    ensures SeoulDistrict(YongsanAddress) == None
    ensures MetroDistrict(YongsanAddress, MetroCities) == None
    ensures ProvinceRegion(YongsanAddress, Provinces) == None
  {
    NotSeoul(YongsanAddress);
    MetroNone(YongsanAddress, MetroCities);
    ProvinceNone(YongsanAddress, Provinces);
  }

  lemma YongsanToken()
    ensures Search(YongsanAddress, NotSpace, IsSiGunGu) == Some("용산구")
  {
    var s := YongsanAddress;
    RunEndIs(s, 0, 3, NotSpace);
    assert MatchEnd(s, 0, NotSpace, IsSiGunGu) == Some(2);
    assert s[0..3] == "용산구";
  }

  /** Without a known prefix, the first token ending in 구, 군 or 시. */
  lemma RegionFallback()
    ensures ExtractRegion(Some(YongsanAddress)) == "용산구"
  {
    YongsanNoPrefix();
    YongsanToken();
  }
}
