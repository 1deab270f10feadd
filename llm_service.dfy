/**
 * The Python recommender (`llm_service.py`): the model answers with whole
 * courses rather than a flat list; their stops are mapped back to the real
 * places, a failure is classified into a warning for the user, and the
 * keyword fallback builds restaurant-plus-café courses itself.
 */
module CourseRecommender {
  import opened Wrappers
  import opened Text
  import opened Sorting
  import opened Places
  import opened Recommender

  // ---------------------------------------------------------------- short ids

  /** The type letter of `_compress_place`: restaurants and bars R, cafés and bakeries C, parking P. */
  function PyPrefix(p: Place): char {
    var t := TypeLabel(p);
    if t == "restaurant" || t == "bar" then 'R' else if t == "cafe" || t == "bakery" then 'C' else 'P'
  }

  /** Only parking lots get P here, unlike the TypeScript letters. */
  lemma PyPrefixMeaning(p: Place)
    ensures PyPrefix(p) == 'P' <==> p.IsParking()
    ensures PyPrefix(p) == 'R' <==> p.body.Eatery? && (p.body.kind == Restaurant || p.body.kind == Bar)
    ensures PyPrefix(p) != Prefix(p) <==> p.body.Eatery? && (p.body.kind == Bar || p.body.kind == Bakery)
  {
  }

  // ---------------------------------------------------------------- the model's answer

  /** A stop as the model wrote it; a missing reason is None. */
  datatype RawStop = RawStop(order: int, id: string, reason: Option<string>)

  /** A course as the model wrote it; missing fields are None, a missing stop list empty. */
  datatype RawCourse = RawCourse(courseNumber: Option<int>, title: Option<string>, stops: seq<RawStop>, routeSummary: Option<string>)

  /** The parsed answer; a missing course list is empty. */
  datatype Parsed = Parsed(summary: Option<string>, persona: Option<string>, courses: seq<RawCourse>)

  /** The model call: an exception (with its message), or the parsed JSON of the fenced answer. */
  datatype Outcome = Failed(message: string) | Answered(parsed: Parsed)

  /** The result; `warning` is set only on the fallback path. */
  datatype Result = Result(summary: string, persona: string, courses: seq<Course>, warning: Option<string>)

  /** A stop with the real id and type of the place its short id stands for. */
  function RemapStop(s: RawStop, idMap: map<string, Place>): Stop
    requires s.id in idMap
  {
    Stop(s.order, idMap[s.id].id, TypeLabel(idMap[s.id]), s.reason.GetOr(""))
  }

  /** The stops whose id the route handed out, remapped, in order. */
  function KeptStops(stops: seq<RawStop>, idMap: map<string, Place>): seq<Stop> {
    if stops == [] then []
    else
      var n := |stops| - 1;
      KeptStops(stops[..n], idMap) + (if stops[n].id in idMap then [RemapStop(stops[n], idMap)] else [])
  }

  /** A kept stop keeps its order and names a place of the id map with that place's type. */
  lemma {:induction false} KeptStopsMeaning(stops: seq<RawStop>, idMap: map<string, Place>)
    ensures |KeptStops(stops, idMap)| <= |stops|
    ensures forall s | s in KeptStops(stops, idMap) ::
      exists id | id in idMap :: s.id == idMap[id].id && s.placeType == TypeLabel(idMap[id])
    ensures (forall k | 0 <= k < |stops| :: stops[k].id in idMap) ==> |KeptStops(stops, idMap)| == |stops|
  {
    if stops != [] {
      var n := |stops| - 1;
      KeptStopsMeaning(stops[..n], idMap);
      assert forall k | 0 <= k < n :: stops[..n][k] == stops[k];
    }
  }

  /** A course with its stops remapped and the defaults of the `.get` calls filled in. */
  function RemapCourse(c: RawCourse, idMap: map<string, Place>): Course {
    Course(c.courseNumber.GetOr(1), c.title.GetOr(""), KeptStops(c.stops, idMap), c.routeSummary.GetOr(""))
  }

  /** The inner loop: the stops of one course. */
  method RemapStops(stops: seq<RawStop>, idMap: map<string, Place>) returns (r: seq<Stop>)
    ensures r == KeptStops(stops, idMap)
  {
    r := [];
    for i := 0 to |stops|
      invariant r == KeptStops(stops[..i], idMap)
    {
      assert stops[..i + 1][..i] == stops[..i];
      if stops[i].id in idMap {
        r := r + [RemapStop(stops[i], idMap)];
      }
    }
    WholePrefix(stops);
  }

  // ---------------------------------------------------------------- warnings

  const KeyWarning := "AI 추천 서비스에 연결할 수 없습니다 (API 키 오류). 키워드 기반 검색 결과를 대신 표시합니다."
  const ModelWarning := "AI 모델에 연결할 수 없습니다 (모델 설정 오류). 키워드 기반 검색 결과를 대신 표시합니다."
  const TransientWarning := "AI 추천 서비스에 일시적 오류가 발생했습니다. 키워드 기반 검색 결과를 대신 표시합니다."

  predicate KeyError(msg: string) {
    Contains(msg, "401") || Contains(msg, "403") || Contains(msg, "API key")
  }

  predicate ModelError(msg: string) {
    Contains(msg, "404") || Contains(msg, "No allowed providers")
  }

  /** The warning shown with the fallback, chosen from the error message. */
  function Warning(msg: string): (w: string)
    ensures w in {KeyWarning, ModelWarning, TransientWarning}
  {
    if KeyError(msg) then KeyWarning else if ModelError(msg) then ModelWarning else TransientWarning
  }

  /** The three warnings are told apart by the message, a key error taking precedence over a model error. */
  lemma WarningMeaning(msg: string)
    ensures Warning(msg) == KeyWarning <==> KeyError(msg)
    ensures Warning(msg) == ModelWarning <==> !KeyError(msg) && ModelError(msg)
    ensures Warning(msg) == TransientWarning <==> !KeyError(msg) && !ModelError(msg)
  {
  }

  /** An empty answer raises "No response from LLM", which mentions neither status: the transient warning. */
  lemma EmptyAnswerIsTransient()
    ensures Warning("No response from LLM") == TransientWarning
  {
    var m := "No response from LLM";
    forall i: nat | i <= |m| ensures !OccursAt(m, "401", i) && !OccursAt(m, "403", i) && !OccursAt(m, "404", i) {
      if i + 3 <= |m| {
        assert m[i..i + 3][0] == m[i];
      }
    }
    forall i: nat | i <= |m| ensures !OccursAt(m, "API key", i) {
      if i + 7 <= |m| {
        assert m[i..i + 7][0] == m[i];
      }
    }
    forall i: nat | i <= |m| ensures !OccursAt(m, "No allowed providers", i) {
      if i + 20 <= |m| {
        assert m[i..i + 20][3] == m[i + 3];
      }
    }
  }

  // ---------------------------------------------------------------- the keyword fallback

  /** `query.lower().split()`. */
  function PyKeywords(query: string): seq<string> {
    SplitPy(Lower(query))
  }

  /** The non-empty text fields, joined by single spaces and lower-cased; a parking lot has only name and description. */
  function PySearchText(p: Place): string {
    var fields := match p.body
      case Eatery(_, info, _) => [p.name, p.description, info.genre, info.atmosphere, info.goodFor]
      case Parking(_) => [p.name, p.description];
    Lower(Join(Filter(fields, (f: string) => f != ""), " "))
  }

  function PyScored(kws: seq<string>, places: seq<Place>): (r: seq<Scored>)
    ensures |r| == |places|
    ensures forall i | 0 <= i < |places| :: r[i].place == places[i] && r[i].score == Hits(kws, PySearchText(places[i]))
  {
    seq(|places|, i requires 0 <= i < |places| => Scored(places[i], Hits(kws, PySearchText(places[i]))))
  }

  predicate IsRestaurant(s: Scored) {
    TypeLabel(s.place) == "restaurant"
  }

  predicate IsCafe(s: Scored) {
    TypeLabel(s.place) == "cafe"
  }

  predicate ScoringRestaurant(s: Scored) {
    IsRestaurant(s) && s.score > 0
  }

  predicate ScoringCafe(s: Scored) {
    IsCafe(s) && s.score > 0
  }

  /** Up to three scoring restaurants, else the two best restaurants whatever their score. */
  function Restaurants(sorted: seq<Scored>): seq<Scored> {
    var best := Take(Filter(sorted, ScoringRestaurant), 3);
    if best != [] then best else Take(Filter(sorted, IsRestaurant), 2)
  }

  /** Up to two scoring cafés, else the best café whatever its score. */
  function Cafes(sorted: seq<Scored>): seq<Scored> {
    var best := Take(Filter(sorted, ScoringCafe), 2);
    if best != [] then best else Take(Filter(sorted, IsCafe), 1)
  }

  function Reasons(stops: seq<Stop>): (r: seq<string>)
    ensures |r| == |stops| && forall k | 0 <= k < |stops| :: r[k] == stops[k].reason
  {
    seq(|stops|, k requires 0 <= k < |stops| => stops[k].reason)
  }

  /** The course of the i-th restaurant: the restaurant, then café i modulo the number of cafés when there is one. */
  function CourseFor(i: nat, r: Scored, cafes: seq<Scored>): Course {
    var first := Stop(1, r.place.id, TypeLabel(r.place), "인기 맛집");
    if cafes == [] then
      Course(i + 1, r.place.name, [first], Join(Reasons([first]), " → "))
    else
      var cafe := cafes[i % |cafes|];
      var stops := [first, Stop(2, cafe.place.id, TypeLabel(cafe.place), "인기 카페")];
      Course(i + 1, r.place.name + " + " + cafe.place.name, stops, Join(Reasons(stops), " → "))
  }

  function PairCourses(restaurants: seq<Scored>, cafes: seq<Scored>): (r: seq<Course>)
    ensures |r| == |restaurants|
    ensures forall i | 0 <= i < |restaurants| :: r[i] == CourseFor(i, restaurants[i], cafes)
  {
    seq(|restaurants|, i requires 0 <= i < |restaurants| => CourseFor(i, restaurants[i], cafes))
  }

  /** Without any restaurant: one course over the three best-scored places, numbered in order. */
  function TopCourse(sorted: seq<Scored>): Course {
    var top3 := Take(sorted, 3);
    Course(1, "추천 코스",
      seq(|top3|, i requires 0 <= i < |top3| => Stop(i + 1, top3[i].place.id, TypeLabel(top3[i].place), "키워드 매칭")),
      Join(PlaceNames(PlacesOf(top3)), " → "))
  }

  function Summary(query: string, restaurants: seq<Scored>, cafes: seq<Scored>): string {
    "\"" + query + "\" 검색 결과입니다. " + Join(PlaceNames(PlacesOf(restaurants + cafes)), ", ") + " 등을 조합한 코스를 추천드려요!"
  }

  /** `_keyword_fallback`. */
  function PyFallback(query: string, places: seq<Place>): Result {
    var sorted := SortDesc(PyScored(PyKeywords(query), places), ScoreKey);
    var restaurants := Restaurants(sorted);
    var cafes := Cafes(sorted);
    var courses := PairCourses(restaurants, cafes);
    Result(Summary(query, restaurants, cafes), query,
      if courses == [] then [TopCourse(sorted)] else courses, None)
  }

  /** The score loop of `_keyword_fallback`. */
  method ScorePlaces(kws: seq<string>, places: seq<Place>) returns (scored: seq<Scored>)
    ensures scored == PyScored(kws, places)
  {
    scored := [];
    for i := 0 to |places|
      invariant |scored| == i
      invariant forall k | 0 <= k < i :: scored[k] == Scored(places[k], Hits(kws, PySearchText(places[k])))
    {
      var score := Score(kws, PySearchText(places[i]));
      scored := scored + [Scored(places[i], score)];
    }
  }

  /** The loop over the chosen restaurants. */
  method BuildPairs(restaurants: seq<Scored>, cafes: seq<Scored>) returns (courses: seq<Course>)
    ensures courses == PairCourses(restaurants, cafes)
  {
    courses := [];
    for i := 0 to |restaurants|
      invariant |courses| == i
      invariant forall k | 0 <= k < i :: courses[k] == CourseFor(k, restaurants[k], cafes)
    {
      courses := courses + [CourseFor(i, restaurants[i], cafes)];
    }
  }

  /** `_keyword_fallback` as written: a score loop per place, the sort, then a loop over the restaurants. */
  method KeywordFallbackPy(query: string, places: seq<Place>) returns (r: Result)
    ensures r == PyFallback(query, places)
  {
    var scored := ScorePlaces(PyKeywords(query), places);
    var sorted := SortDesc(scored, ScoreKey);
    var restaurants := Restaurants(sorted);
    var cafes := Cafes(sorted);
    var courses := BuildPairs(restaurants, cafes);
    if courses == [] {
      courses := [TopCourse(sorted)];
    }
    r := Result(Summary(query, restaurants, cafes), query, courses, None);
  }

  /** The chosen restaurants are restaurants and the chosen cafés cafés: bars and bakeries are never picked. */
  lemma ChosenTypes(sorted: seq<Scored>)
    ensures |Restaurants(sorted)| <= 3 && |Cafes(sorted)| <= 2
    ensures forall s | s in Restaurants(sorted) :: s in sorted && TypeLabel(s.place) == "restaurant"
    ensures forall s | s in Cafes(sorted) :: s in sorted && TypeLabel(s.place) == "cafe"
  {
    FilterMembers(sorted, ScoringRestaurant);
    FilterMembers(sorted, IsRestaurant);
    FilterMembers(sorted, ScoringCafe);
    FilterMembers(sorted, IsCafe);
    forall s | s in Restaurants(sorted) ensures s in sorted && TypeLabel(s.place) == "restaurant" {
      var k :| 0 <= k < |Restaurants(sorted)| && Restaurants(sorted)[k] == s;
      if Take(Filter(sorted, ScoringRestaurant), 3) != [] {
        assert Filter(sorted, ScoringRestaurant)[k] in Filter(sorted, ScoringRestaurant);
      } else {
        assert Filter(sorted, IsRestaurant)[k] in Filter(sorted, IsRestaurant);
      }
    }
    forall s | s in Cafes(sorted) ensures s in sorted && TypeLabel(s.place) == "cafe" {
      var k :| 0 <= k < |Cafes(sorted)| && Cafes(sorted)[k] == s;
      if Take(Filter(sorted, ScoringCafe), 2) != [] {
        assert Filter(sorted, ScoringCafe)[k] in Filter(sorted, ScoringCafe);
      } else {
        assert Filter(sorted, IsCafe)[k] in Filter(sorted, IsCafe);
      }
    }
  }

  /** When some restaurant scores, only scoring restaurants are chosen; likewise for cafés. */
  lemma ScoringPreferred(sorted: seq<Scored>)
    ensures (exists s | s in sorted :: ScoringRestaurant(s)) ==> forall s | s in Restaurants(sorted) :: s.score > 0
    ensures (exists s | s in sorted :: ScoringCafe(s)) ==> forall s | s in Cafes(sorted) :: s.score > 0
  {
    FilterMembers(sorted, ScoringRestaurant);
    FilterMembers(sorted, ScoringCafe);
    if s :| s in sorted && ScoringRestaurant(s) {
      assert Filter(sorted, ScoringRestaurant)[0] in Filter(sorted, ScoringRestaurant);
      forall s | s in Restaurants(sorted) ensures s.score > 0 {
        var k :| 0 <= k < |Restaurants(sorted)| && Restaurants(sorted)[k] == s;
        assert Filter(sorted, ScoringRestaurant)[k] in Filter(sorted, ScoringRestaurant);
      }
    }
    if s :| s in sorted && ScoringCafe(s) {
      assert Filter(sorted, ScoringCafe)[0] in Filter(sorted, ScoringCafe);
      forall s | s in Cafes(sorted) ensures s.score > 0 {
        var k :| 0 <= k < |Cafes(sorted)| && Cafes(sorted)[k] == s;
        assert Filter(sorted, ScoringCafe)[k] in Filter(sorted, ScoringCafe);
      }
    }
  }

  /** A place of some type is in the sorted scores, so a restaurant among the places means a restaurant is chosen. */
  lemma RestaurantChosen(sorted: seq<Scored>, s: Scored)
    requires s in sorted && IsRestaurant(s)
    ensures Restaurants(sorted) != []
  {
    FilterMembers(sorted, IsRestaurant);
    assert Filter(sorted, IsRestaurant) != [];
  }

  /**
   * The fallback always has a course.  With a restaurant among the places,
   * course i is restaurant i at stop 1, then café i modulo the number of
   * cafés at stop 2 when there is a café; without one it is a single course
   * over the three best-scored places.
   */
  lemma PyFallbackShape(query: string, places: seq<Place>)
    ensures var r := PyFallback(query, places);
      |r.courses| >= 1 && r.persona == query && r.warning.None?
    ensures var sorted := SortDesc(PyScored(PyKeywords(query), places), ScoreKey);
      var r := PyFallback(query, places); var rs := Restaurants(sorted); var cs := Cafes(sorted);
      rs != [] ==> (|r.courses| == |rs| <= 3 &&
        forall i | 0 <= i < |rs| ::
          r.courses[i].courseNumber == i + 1 &&
          r.courses[i].stops[0] == Stop(1, rs[i].place.id, "restaurant", "인기 맛집") &&
          (cs != [] ==> |r.courses[i].stops| == 2 && r.courses[i].stops[1] == Stop(2, cs[i % |cs|].place.id, "cafe", "인기 카페")) &&
          (cs == [] ==> |r.courses[i].stops| == 1))
    ensures var sorted := SortDesc(PyScored(PyKeywords(query), places), ScoreKey);
      Restaurants(sorted) == [] ==> PyFallback(query, places).courses == [TopCourse(sorted)]
  {
    var sorted := SortDesc(PyScored(PyKeywords(query), places), ScoreKey);
    ChosenTypes(sorted);
    var rs := Restaurants(sorted);
    var cs := Cafes(sorted);
    forall i | 0 <= i < |rs| ensures TypeLabel(rs[i].place) == "restaurant" {
      assert rs[i] in rs;
    }
    forall i | 0 <= i < |cs| ensures TypeLabel(cs[i].place) == "cafe" {
      assert cs[i] in cs;
    }
  }

  /** Whenever a restaurant is among the places, the fallback has one course per chosen restaurant. */
  lemma RestaurantsMakeCourses(query: string, places: seq<Place>, i: nat)
    requires i < |places| && TypeLabel(places[i]) == "restaurant"
    ensures var sorted := SortDesc(PyScored(PyKeywords(query), places), ScoreKey);
      1 <= |PyFallback(query, places).courses| == |Restaurants(sorted)|
  {
    var all := PyScored(PyKeywords(query), places);
    var sorted := SortDesc(all, ScoreKey);
    SortDescPermutes(all, ScoreKey);
    assert all[i] in multiset(sorted);
    RestaurantChosen(sorted, all[i]);
  }

  // ---------------------------------------------------------------- the whole call

  /** `get_recommendations`: the model's courses remapped, or the keyword fallback with a warning. */
  function PyRecommended(query: string, places: seq<Place>, outcome: Outcome): Result {
    match outcome
    case Answered(p) =>
      var idMap := IdMap(PyPrefix, places);
      Result(p.summary.GetOr(""), p.persona.GetOr(""),
        seq(|p.courses|, i requires 0 <= i < |p.courses| => RemapCourse(p.courses[i], idMap)), None)
    case Failed(msg) =>
      PyFallback(query, places).(warning := Some(Warning(msg)))
  }

  /** The route: fill the id map, then remap course by course, or fall back. */
  method GetRecommendationsPy(query: string, places: seq<Place>, outcome: Outcome) returns (r: Result)
    ensures r == PyRecommended(query, places, outcome)
  {
    var idMap: map<string, Place> := map[];
    for i := 0 to |places|
      invariant idMap == IdMap(PyPrefix, places[..i])
    {
      assert places[..i + 1][..i] == places[..i];
      idMap := idMap[ShortId(PyPrefix, places[i], i) := places[i]];
    }
    WholePrefix(places);
    match outcome {
      case Answered(p) =>
        var courses: seq<Course> := [];
        for i := 0 to |p.courses|
          invariant |courses| == i
          invariant forall k | 0 <= k < i :: courses[k] == RemapCourse(p.courses[k], idMap)
        {
          var c := p.courses[i];
          var stops := RemapStops(c.stops, idMap);
          courses := courses + [Course(c.courseNumber.GetOr(1), c.title.GetOr(""), stops, c.routeSummary.GetOr(""))];
        }
        r := Result(p.summary.GetOr(""), p.persona.GetOr(""), courses, None);
      case Failed(msg) =>
        r := KeywordFallbackPy(query, places);
        r := r.(warning := Some(Warning(msg)));
    }
  }

  /** Every stop kept from one course names an input place with its real type. */
  lemma KeptStopsKnown(stops: seq<RawStop>, places: seq<Place>)
    ensures forall s | s in KeptStops(stops, IdMap(PyPrefix, places)) :: exists q | q in places :: s.id == q.id && s.placeType == TypeLabel(q)
  {
    var m := IdMap(PyPrefix, places);
    IdMapPlaces(PyPrefix, places);
    KeptStopsMeaning(stops, m);
    forall s | s in KeptStops(stops, m) ensures exists q | q in places :: s.id == q.id && s.placeType == TypeLabel(q) {
      var id :| id in m && s.id == m[id].id && s.placeType == TypeLabel(m[id]);
      assert m[id] in places;
    }
  }

  /**
   * An answer keeps every course the model wrote, even one whose stops were
   * all dropped, and every stop left names an input place with its real type.
   */
  lemma AnsweredCourses(query: string, places: seq<Place>, p: Parsed)
    ensures var r := PyRecommended(query, places, Answered(p));
      |r.courses| == |p.courses| && r.warning.None? &&
      forall i, s | 0 <= i < |p.courses| && s in r.courses[i].stops ::
        exists q | q in places :: s.id == q.id && s.placeType == TypeLabel(q)
  {
    var r := PyRecommended(query, places, Answered(p));
    forall i | 0 <= i < |p.courses|
      ensures forall s | s in r.courses[i].stops :: exists q | q in places :: s.id == q.id && s.placeType == TypeLabel(q)
    {
      KeptStopsKnown(p.courses[i].stops, places);
    }
  }

  /** A failed call always yields the fallback with the warning its message selects. */
  lemma FailedFallsBack(query: string, places: seq<Place>, msg: string)
    ensures var r := PyRecommended(query, places, Failed(msg));
      r.warning == Some(Warning(msg)) && |r.courses| >= 1 && r.courses == PyFallback(query, places).courses
  {
    PyFallbackShape(query, places);
  }
}
