/**
 * The recommender of the chat route: places are sent to a language model
 * under short ids (a type letter and the list index), the ids it answers
 * with are mapped back to the real places, and when the model fails a
 * keyword score over each place's text picks the recommendations instead.
 */
module Recommender {
  import opened Wrappers
  import opened Text
  import opened Sorting
  import opened Places

  // ---------------------------------------------------------------- short ids

  /** The type letter of `compressPlace`: R for restaurants, C for cafés, P for everything else. */
  function Prefix(p: Place): char {
    if TypeLabel(p) == "restaurant" then 'R' else if TypeLabel(p) == "cafe" then 'C' else 'P'
  }

  /** Bars and bakeries share the parking letter. */
  lemma PrefixMeaning(p: Place)
    ensures Prefix(p) == 'R' <==> p.body.Eatery? && p.body.kind == Restaurant
    ensures Prefix(p) == 'C' <==> p.body.Eatery? && p.body.kind == Cafe
    ensures Prefix(p) == 'P' <==> p.IsParking() || p.body.kind == Bar || p.body.kind == Bakery
  {
  }

  /** The short id of the place at index i: its type letter, then the index in decimal. */
  function ShortId(prefix: Place -> char, p: Place, i: nat): (id: string)
    ensures |id| >= 2 && id[0] == prefix(p) && id[1..] == Decimal(i)
  {
    [prefix(p)] + Decimal(i)
  }

  /** Places at different indices never share a short id, whatever their letters. */
  lemma ShortIdsDistinct(prefix: Place -> char, p: Place, i: nat, q: Place, j: nat)
    requires i != j
    ensures ShortId(prefix, p, i) != ShortId(prefix, q, j)
  {
    if ShortId(prefix, p, i) == ShortId(prefix, q, j) {
      DecimalInjective(i, j);
    }
  }

  /** The id map after the places have been entered in order. */
  function IdMap(prefix: Place -> char, places: seq<Place>): map<string, Place> {
    if places == [] then map[]
    else
      var n := |places| - 1;
      IdMap(prefix, places[..n])[ShortId(prefix, places[n], n) := places[n]]
  }

  /** Every place is found under its own short id: no later place overwrites it. */
  lemma {:induction false} IdMapFinds(prefix: Place -> char, places: seq<Place>)
    ensures forall i | 0 <= i < |places| ::
      ShortId(prefix, places[i], i) in IdMap(prefix, places) && IdMap(prefix, places)[ShortId(prefix, places[i], i)] == places[i]
  {
    if places != [] {
      var n := |places| - 1;
      var init := places[..n];
      IdMapFinds(prefix, init);
      forall i | 0 <= i < n
        ensures ShortId(prefix, places[i], i) in IdMap(prefix, places) && IdMap(prefix, places)[ShortId(prefix, places[i], i)] == places[i]
      {
        assert init[i] == places[i];
        ShortIdsDistinct(prefix, places[i], i, places[n], n);
      }
    }
  }

  /** Every key of the id map is the short id of some place. */
  lemma {:induction false} IdMapKeys(prefix: Place -> char, places: seq<Place>)
    ensures forall id | id in IdMap(prefix, places) :: exists i | 0 <= i < |places| :: id == ShortId(prefix, places[i], i)
  {
    if places != [] {
      var n := |places| - 1;
      var init := places[..n];
      IdMapKeys(prefix, init);
      forall id | id in IdMap(prefix, places) ensures exists i | 0 <= i < |places| :: id == ShortId(prefix, places[i], i) {
        if id != ShortId(prefix, places[n], n) {
          assert id in IdMap(prefix, init);
          var i :| 0 <= i < n && id == ShortId(prefix, init[i], i);
          assert init[i] == places[i];
        }
      }
    }
  }

  /** Every place of the id map is one of the places. */
  lemma IdMapPlaces(prefix: Place -> char, places: seq<Place>)
    ensures forall id | id in IdMap(prefix, places) :: IdMap(prefix, places)[id] in places
  {
    IdMapFinds(prefix, places);
    IdMapKeys(prefix, places);
    forall id | id in IdMap(prefix, places) ensures IdMap(prefix, places)[id] in places {
      var i :| 0 <= i < |places| && id == ShortId(prefix, places[i], i);
    }
  }

  // ---------------------------------------------------------------- the model's answer

  /** What the route sends back: a persona, the recommended stops and a route summary. */
  datatype Response = Response(persona: string, recommendations: seq<Stop>, routeSummary: string)

  predicate KnownId(idMap: map<string, Place>, s: Stop) {
    s.id in idMap
  }

  /** The recommendations whose id is a short id the route handed out. */
  function Known(recs: seq<Stop>, idMap: map<string, Place>): seq<Stop> {
    Filter(recs, s => KnownId(idMap, s))
  }

  /** Each kept recommendation with the real id and type of the place its short id stands for. */
  function Remap(recs: seq<Stop>, idMap: map<string, Place>): (r: seq<Stop>)
    ensures |r| == |Known(recs, idMap)|
    ensures forall k | 0 <= k < |r| ::
      Known(recs, idMap)[k].id in idMap &&
      r[k] == Stop(Known(recs, idMap)[k].order, idMap[Known(recs, idMap)[k].id].id,
                   TypeLabel(idMap[Known(recs, idMap)[k].id]), Known(recs, idMap)[k].reason)
  {
    var kept := Known(recs, idMap);
    FilterMembers(recs, s => KnownId(idMap, s));
    assert forall k | 0 <= k < |kept| :: kept[k] in kept;
    seq(|kept|, k requires 0 <= k < |kept| => Stop(kept[k].order, idMap[kept[k].id].id, TypeLabel(idMap[kept[k].id]), kept[k].reason))
  }

  /** A remapped recommendation names a real place with its real type; an unknown id is dropped. */
  lemma RemapMeaning(recs: seq<Stop>, places: seq<Place>)
    ensures forall s | s in Remap(recs, IdMap(Prefix, places)) :: exists p | p in places :: s.id == p.id && s.placeType == TypeLabel(p)
    ensures forall s | s in recs && s.id !in IdMap(Prefix, places) :: s !in Known(recs, IdMap(Prefix, places))
  {
    var m := IdMap(Prefix, places);
    IdMapPlaces(Prefix, places);
    FilterMembers(recs, s => KnownId(m, s));
    forall s | s in Remap(recs, m) ensures exists p | p in places :: s.id == p.id && s.placeType == TypeLabel(p) {
      var k :| 0 <= k < |Remap(recs, m)| && Remap(recs, m)[k] == s;
      assert m[Known(recs, m)[k].id] in places;
    }
  }

  // ---------------------------------------------------------------- keyword scores

  /** `query.toLowerCase().split(/\s+/)`. */
  function Keywords(query: string): (r: seq<string>)
    ensures |r| >= 1
  {
    SplitWs(Lower(query))
  }

  function RestaurantText(p: Place): string {
    match p.body
    case Eatery(Restaurant, info, _) => Join([info.genre, info.atmosphere, info.goodFor], " ")
    case _ => ""
  }

  function CafeText(p: Place): string {
    match p.body
    case Eatery(Cafe, info, _) => Join([info.genre, info.atmosphere, info.goodFor], " ")
    case _ => ""
  }

  function ParkingText(p: Place): string {
    match p.body
    case Parking(lot) => Join([lot.parkingType, lot.operatingHours], " ")
    case _ => ""
  }

  /** The lower-cased text a keyword is looked for in; bars and bakeries contribute only name and description. */
  function SearchText(p: Place): string {
    Lower(Join([p.name, p.description, RestaurantText(p), CafeText(p), ParkingText(p)], " "))
  }

  /** How many of the keywords occur in text; a keyword listed twice counts twice. */
  function Hits(kws: seq<string>, text: string): (n: nat)
    ensures n <= |kws|
  {
    if kws == [] then 0
    else Hits(kws[..|kws| - 1], text) + (if Contains(text, kws[|kws| - 1]) then 1 else 0)
  }

  /** No hit exactly when no keyword occurs; every keyword a hit exactly when all occur. */
  lemma {:induction false} HitsMeaning(kws: seq<string>, text: string)
    ensures Hits(kws, text) == 0 <==> forall k | 0 <= k < |kws| :: !Contains(text, kws[k])
    ensures Hits(kws, text) == |kws| <==> forall k | 0 <= k < |kws| :: Contains(text, kws[k])
  {
    if kws != [] {
      var n := |kws| - 1;
      HitsMeaning(kws[..n], text);
      assert forall k | 0 <= k < n :: kws[..n][k] == kws[k];
    }
  }

  /** The `score++` loop over the keywords. */
  method Score(kws: seq<string>, text: string) returns (score: nat)
    ensures score == Hits(kws, text)
  {
    score := 0;
    for i := 0 to |kws|
      invariant score == Hits(kws[..i], text)
    {
      assert kws[..i + 1][..i] == kws[..i];
      if Contains(text, kws[i]) {
        score := score + 1;
      }
    }
    WholePrefix(kws);
  }

  datatype Scored = Scored(place: Place, score: nat)

  function ScoreKey(s: Scored): real {
    s.score as real
  }

  predicate Positive(s: Scored) {
    s.score > 0
  }

  /** Every place with the number of keywords its text contains. */
  function ScoredAll(kws: seq<string>, places: seq<Place>): (r: seq<Scored>)
    ensures |r| == |places|
    ensures forall i | 0 <= i < |places| :: r[i].place == places[i] && r[i].score == Hits(kws, SearchText(places[i]))
  {
    seq(|places|, i requires 0 <= i < |places| => Scored(places[i], Hits(kws, SearchText(places[i]))))
  }

  /** The five best scores after the stable sort, keeping only positive ones. */
  function Top(kws: seq<string>, places: seq<Place>): seq<Scored> {
    Filter(Take(SortDesc(ScoredAll(kws, places), ScoreKey), 5), Positive)
  }

  /** The rating the popularity order uses, 0 when a place has none. */
  function RatingKey(p: Place): real {
    match p.body
    case Eatery(_, info, _) => info.rating.GetOr(0.0)
    case Parking(_) => 0.0
  }

  predicate NotParking(p: Place) {
    !p.IsParking()
  }

  /** The three best-rated places that are not parking lots. */
  function Popular(places: seq<Place>): seq<Place> {
    Take(SortDesc(Filter(places, NotParking), RatingKey), 3)
  }

  function Reason(p: Place): string {
    "인기 " + (if TypeLabel(p) == "restaurant" then "맛집" else "카페")
  }

  predicate Named(p: Place, kw: string) {
    Contains(Lower(p.name + " " + p.description), kw)
  }

  /** The keywords found in the name or description, as the reason of a keyword match. */
  function MatchReason(kws: seq<string>, p: Place): string {
    "키워드 매칭: " + Join(Filter(kws, kw => Named(p, kw)), ", ")
  }

  function PlaceNames(ps: seq<Place>): (r: seq<string>)
    ensures |r| == |ps| && forall i | 0 <= i < |ps| :: r[i] == ps[i].name
  {
    seq(|ps|, i requires 0 <= i < |ps| => ps[i].name)
  }

  function PlacesOf(ss: seq<Scored>): (r: seq<Place>)
    ensures |r| == |ss| && forall i | 0 <= i < |ss| :: r[i] == ss[i].place
  {
    seq(|ss|, i requires 0 <= i < |ss| => ss[i].place)
  }

  function PopularAnswer(sorted: seq<Place>): Response {
    Response("일반 추천",
      seq(|sorted|, i requires 0 <= i < |sorted| => Stop(i + 1, sorted[i].id, TypeLabel(sorted[i]), Reason(sorted[i]))),
      Join(PlaceNames(sorted), " → "))
  }

  function KeywordAnswer(query: string, kws: seq<string>, top: seq<Scored>): Response {
    Response(query,
      seq(|top|, i requires 0 <= i < |top| => Stop(i + 1, top[i].place.id, TypeLabel(top[i].place), MatchReason(kws, top[i].place))),
      Join(PlaceNames(PlacesOf(top)), " → "))
  }

  /** `keywordFallback`: the keyword matches when there are any, the popular places otherwise. */
  function Fallback(query: string, places: seq<Place>): Response {
    var kws := Keywords(query);
    var top := Top(kws, places);
    if top == [] then PopularAnswer(Popular(places)) else KeywordAnswer(query, kws, top)
  }

  /** `keywordFallback` as the route runs it: a score loop per place, then the sort and the two answers. */
  method KeywordFallback(query: string, places: seq<Place>) returns (r: Response)
    ensures r == Fallback(query, places)
  {
    var kws := Keywords(query);
    var scored: seq<Scored> := [];
    for i := 0 to |places|
      invariant |scored| == i
      invariant forall k | 0 <= k < i :: scored[k] == Scored(places[k], Hits(kws, SearchText(places[k])))
    {
      var score := Score(kws, SearchText(places[i]));
      scored := scored + [Scored(places[i], score)];
    }
    assert scored == ScoredAll(kws, places);
    var top := Filter(Take(SortDesc(scored, ScoreKey), 5), Positive);
    if top == [] {
      r := PopularAnswer(Popular(places));
    } else {
      r := KeywordAnswer(query, kws, top);
    }
  }

  lemma TopHasBest(kws: seq<string>, places: seq<Place>, i: nat)
    requires i < |places| && Hits(kws, SearchText(places[i])) > 0
    ensures Top(kws, places) != []
  {
    var all := ScoredAll(kws, places);
    var sorted := SortDesc(all, ScoreKey);
    SortDescPermutes(all, ScoreKey);
    SortDescSorted(all, ScoreKey);
    FilterMembers(Take(sorted, 5), Positive);
    assert all[i] in multiset(sorted);
    var j :| 0 <= j < |sorted| && sorted[j] == all[i];
    assert ScoreKey(sorted[0]) >= ScoreKey(sorted[j]);
    assert Take(sorted, 5)[0] == sorted[0];
    assert sorted[0] in Top(kws, places);
  }

  lemma TopNone(kws: seq<string>, places: seq<Place>)
    requires forall i | 0 <= i < |places| :: Hits(kws, SearchText(places[i])) == 0
    ensures Top(kws, places) == []
  {
    var all := ScoredAll(kws, places);
    var sorted := SortDesc(all, ScoreKey);
    SortDescPermutes(all, ScoreKey);
    forall s | s in Take(sorted, 5) ensures !Positive(s) {
      var k :| 0 <= k < |Take(sorted, 5)| && Take(sorted, 5)[k] == s;
      assert sorted[k] in multiset(all);
    }
    FilterNone(Take(sorted, 5), Positive);
  }

  /** Some place scores, exactly when the keyword path is taken. */
  lemma TopEmptyIff(kws: seq<string>, places: seq<Place>)
    ensures Top(kws, places) == [] <==> forall i | 0 <= i < |places| :: Hits(kws, SearchText(places[i])) == 0
  {
    if i :| 0 <= i < |places| && Hits(kws, SearchText(places[i])) > 0 {
      TopHasBest(kws, places, i);
    } else {
      TopNone(kws, places);
    }
  }

  /** The members of Top are scored input places, positive and in non-increasing order. */
  lemma TopShape(kws: seq<string>, places: seq<Place>)
    ensures |Top(kws, places)| <= 5
    ensures Descending(Top(kws, places), ScoreKey)
    ensures forall s | s in Top(kws, places) :: s.score > 0 && s.place in places && s.score == Hits(kws, SearchText(s.place))
  {
    var all := ScoredAll(kws, places);
    var sorted := SortDesc(all, ScoreKey);
    SortDescPermutes(all, ScoreKey);
    SortDescSorted(all, ScoreKey);
    FilterMembers(Take(sorted, 5), Positive);
    FilterDescending(Take(sorted, 5), ScoreKey, Positive);
    forall s | s in Top(kws, places) ensures s.place in places && s.score == Hits(kws, SearchText(s.place)) {
      var k :| 0 <= k < |Take(sorted, 5)| && Take(sorted, 5)[k] == s;
      assert sorted[k] in multiset(all);
      var i :| 0 <= i < |all| && all[i] == s;
    }
  }

  /**
   * The keyword path: at most five recommendations numbered from 1, each a
   * place whose text holds a keyword, best score first, persona the query.
   */
  lemma KeywordPath(query: string, places: seq<Place>)
    requires Top(Keywords(query), places) != []
    ensures var r := Fallback(query, places); var top := Top(Keywords(query), places);
      r.persona == query && |r.recommendations| == |top| <= 5 &&
      Descending(top, ScoreKey) &&
      forall k | 0 <= k < |top| ::
        r.recommendations[k].order == k + 1 && r.recommendations[k].id == top[k].place.id &&
        top[k].place in places && 0 < top[k].score == Hits(Keywords(query), SearchText(top[k].place))
  {
    var top := Top(Keywords(query), places);
    TopShape(Keywords(query), places);
    assert forall k | 0 <= k < |top| :: top[k] in top;
  }

  /**
   * The popular path: with no keyword in any place, at most three places
   * that are not parking lots, best rating first, under the persona "일반 추천".
   */
  lemma PopularPath(query: string, places: seq<Place>)
    requires forall i | 0 <= i < |places| :: Hits(Keywords(query), SearchText(places[i])) == 0
    ensures var r := Fallback(query, places); var sorted := Popular(places);
      r.persona == "일반 추천" && |r.recommendations| == |sorted| <= 3 &&
      Descending(sorted, RatingKey) &&
      forall k | 0 <= k < |sorted| ::
        r.recommendations[k].order == k + 1 && r.recommendations[k].id == sorted[k].id &&
        r.recommendations[k].placeType != "parking" && sorted[k] in places
  {
    TopEmptyIff(Keywords(query), places);
    assert Fallback(query, places) == PopularAnswer(Popular(places));
    PopularShape(places);
  }

  /** The popular places: at most three, none a parking lot, best rating first. */
  lemma PopularShape(places: seq<Place>)
    ensures var sorted := Popular(places);
      |sorted| <= 3 && Descending(sorted, RatingKey) &&
      forall k | 0 <= k < |sorted| :: sorted[k] in places && !sorted[k].IsParking() && TypeLabel(sorted[k]) != "parking"
  {
    var eligible := Filter(places, NotParking);
    var sorted := Popular(places);
    FilterMembers(places, NotParking);
    SortDescPermutes(eligible, RatingKey);
    SortDescSorted(eligible, RatingKey);
    forall k | 0 <= k < |sorted| ensures sorted[k] in places && !sorted[k].IsParking() && TypeLabel(sorted[k]) != "parking" {
      assert SortDesc(eligible, RatingKey)[k] in multiset(eligible);
    }
  }

  /** An empty keyword occurs in every text: an empty query scores every place 1. */
  lemma EmptyQueryScoresAll(p: Place)
    ensures Keywords("") == [""]
    ensures Hits(Keywords(""), SearchText(p)) == 1
  {
    assert Lower("") == "";
    assert NextSpace("", 0) == 0;
    assert SplitWsFrom("", 0) == [""];
    assert OccursAt(SearchText(p), "", 0);
    assert [""][..0] == [];
  }

  // ---------------------------------------------------------------- the whole call

  /** `getRecommendations`: the model's remapped answer, or the keyword fallback when the call or its parse fails. */
  function Recommended(query: string, places: seq<Place>, answer: Option<Response>): Response {
    match answer
    case Some(a) => Response(a.persona, Remap(a.recommendations, IdMap(Prefix, places)), a.routeSummary)
    case None => Fallback(query, places)
  }

  /** The route: fill the id map place by place, then take the answer or fall back. */
  method GetRecommendations(query: string, places: seq<Place>, answer: Option<Response>) returns (r: Response)
    ensures r == Recommended(query, places, answer)
  {
    var idMap: map<string, Place> := map[];
    for i := 0 to |places|
      invariant idMap == IdMap(Prefix, places[..i])
    {
      assert places[..i + 1][..i] == places[..i];
      idMap := idMap[ShortId(Prefix, places[i], i) := places[i]];
    }
    WholePrefix(places);
    match answer {
      case Some(a) =>
        r := Response(a.persona, Remap(a.recommendations, idMap), a.routeSummary);
      case None =>
        r := KeywordFallback(query, places);
    }
  }

  lemma PopularIds(places: seq<Place>)
    ensures forall s | s in PopularAnswer(Popular(places)).recommendations :: exists p | p in places :: p.id == s.id
  {
    var r := PopularAnswer(Popular(places));
    var eligible := Filter(places, NotParking);
    SortDescPermutes(eligible, RatingKey);
    FilterMembers(places, NotParking);
    forall s | s in r.recommendations ensures exists p | p in places :: p.id == s.id {
      var k :| 0 <= k < |r.recommendations| && r.recommendations[k] == s;
      assert SortDesc(eligible, RatingKey)[k] in multiset(eligible);
      assert Popular(places)[k] in places;
    }
  }

  lemma KeywordIds(query: string, kws: seq<string>, places: seq<Place>)
    ensures forall s | s in KeywordAnswer(query, kws, Top(kws, places)).recommendations :: exists p | p in places :: p.id == s.id
  {
    var top := Top(kws, places);
    var r := KeywordAnswer(query, kws, top);
    TopShape(kws, places);
    forall s | s in r.recommendations ensures exists p | p in places :: p.id == s.id {
      var k :| 0 <= k < |r.recommendations| && r.recommendations[k] == s;
      assert top[k] in top;
    }
  }

  /** Whatever path is taken, every recommended id is the id of an input place. */
  lemma RecommendedIdsKnown(query: string, places: seq<Place>, answer: Option<Response>)
    ensures forall s | s in Recommended(query, places, answer).recommendations :: exists p | p in places :: p.id == s.id
  {
    if answer.Some? {
      RemapMeaning(answer.value.recommendations, places);
    } else if Top(Keywords(query), places) == [] {
      PopularIds(places);
    } else {
      KeywordIds(query, Keywords(query), places);
    }
  }
}
