/**
 * The chat-resolve route: the places a chat answer names are matched, by
 * normalised name and token containment, against the places known for the
 * region, in the order the answer gives them, and turned into numbered
 * courses for the map.
 */
module ChatResolve {
  import opened Wrappers
  import opened Text
  import opened Normalize
  import opened Places

  // ---------------------------------------------------------------- token matching

  /** Every token occurs in s. */
  predicate AllIn(tokens: seq<string>, s: string) {
    forall k | 0 <= k < |tokens| :: Contains(s, tokens[k])
  }

  /** a has two or more white-space separated tokens, each of which occurs in b. */
  predicate Covers(a: string, b: string) {
    |SplitWs(a)| >= 2 && AllIn(SplitWs(a), b)
  }

  /** `tokenMatch`: containment either way, else every token of one side (of two or more) occurs in the other. */
  function TokenMatch(a: string, b: string): bool {
    if Contains(a, b) || Contains(b, a) then true
    else Covers(a, b) || Covers(b, a)
  }

  lemma TokenMatchSymmetric(a: string, b: string)
    ensures TokenMatch(a, b) == TokenMatch(b, a)
  {
  }

  lemma ContainsSelf(s: string)
    ensures Contains(s, s)
  {
    assert OccursAt(s, s, 0);
  }

  lemma ContainsEmpty(s: string)
    ensures Contains(s, "")
  {
    assert OccursAt(s, "", 0);
  }

  lemma TokenMatchReflexive(a: string)
    ensures TokenMatch(a, a)
  {
    ContainsSelf(a);
  }

  /** An empty name matches every name. */
  lemma EmptyMatchesAll(b: string)
    ensures TokenMatch("", b) && TokenMatch(b, "")
  {
    ContainsEmpty(b);
  }

  /** A match that is not a containment is a token cover in one direction. */
  lemma TokenMatchMeaning(a: string, b: string)
    ensures TokenMatch(a, b) <==> Contains(a, b) || Contains(b, a) || Covers(a, b) || Covers(b, a)
    ensures TokenMatch(a, b) && !Contains(a, b) && !Contains(b, a) ==>
      (|SplitWs(a)| >= 2 && forall k | 0 <= k < |SplitWs(a)| :: Contains(b, SplitWs(a)[k])) ||
      (|SplitWs(b)| >= 2 && forall k | 0 <= k < |SplitWs(b)| :: Contains(a, SplitWs(b)[k]))
  {
  }

  /** A single-token name never matches by tokens: only containment can match it. */
  lemma SingleTokenNeedsContainment(a: string, b: string)
    requires |SplitWs(a)| == 1 && |SplitWs(b)| == 1
    ensures TokenMatch(a, b) <==> Contains(a, b) || Contains(b, a)
  {
  }

  /** The first example the route documents: the words of a shorter name spread over a longer one. */
  lemma TokenExample()
    ensures TokenMatch("라이너스 바베큐", "라이너스바베큐 이태원")
  {
    var a := "라이너스 바베큐";
    var b := "라이너스바베큐 이태원";
    assert NextSpace(a, 5) == 8;
    assert SplitWsFrom(a, 5) == [a[5..]];
    assert NextSpace(a, 0) == 4;
    assert SkipSpace(a, 4) == 5;
    assert SplitWsFrom(a, 0) == [a[0..4]] + SplitWsFrom(a, 5);
    assert a[0..4] == "라이너스" && a[5..] == "바베큐";
    assert OccursAt(b, "라이너스", 0);
    assert OccursAt(b, "바베큐", 4);
    assert Covers(a, b);
  }

  // ---------------------------------------------------------------- resolving names

  /** A place named in a chat answer, with the type the extractor gave it. */
  datatype Extracted = Extracted(name: string, kind: string)

  predicate Matches(p: Place, en: string) {
    TokenMatch(NormalizeName(p.name), en)
  }

  /** `Array.prototype.find`: the first element satisfying f. */
  function FirstWhere<T>(xs: seq<T>, f: T -> bool): (r: Option<T>)
    ensures r.Some? ==> r.value in xs && f(r.value)
    ensures r.None? <==> forall i | 0 <= i < |xs| :: !f(xs[i])
  {
    if xs == [] then None
    else if f(xs[0]) then Some(xs[0])
    else FirstWhere(xs[1..], f)
  }

  /** The element found is the one at the first index satisfying f. */
  lemma {:induction false} FirstWhereFirst<T>(xs: seq<T>, f: T -> bool, j: nat)
    requires j < |xs| && f(xs[j])
    requires forall k | 0 <= k < j :: !f(xs[k])
    ensures FirstWhere(xs, f) == Some(xs[j])
  {
    if j > 0 {
      assert !f(xs[0]);
      assert forall k | 0 <= k < j - 1 :: xs[1..][k] == xs[k + 1];
      FirstWhereFirst(xs[1..], f, j - 1);
    }
  }

  /** `pool.find(dp => tokenMatch(normalizeName(dp.name), en))`. */
  function Find(pool: seq<Place>, en: string): (r: Option<Place>)
    ensures r.Some? ==> r.value in pool && Matches(r.value, en)
    ensures r.None? <==> forall i | 0 <= i < |pool| :: !Matches(pool[i], en)
  {
    FirstWhere(pool, p => Matches(p, en))
  }

  /** What Find returns is the first matching place of the pool. */
  lemma FindFirst(pool: seq<Place>, en: string, j: nat)
    requires j < |pool| && Matches(pool[j], en)
    requires forall k | 0 <= k < j :: !Matches(pool[k], en)
    ensures Find(pool, en) == Some(pool[j])
  {
    FirstWhereFirst(pool, p => Matches(p, en), j);
  }

  /** `resolveNamesToPLaces`: the first match of each extracted name, in the extracted order, unmatched names dropped. */
  function ResolveNames(eps: seq<Extracted>, pool: seq<Place>): (r: seq<Place>)
    ensures |r| <= |eps|
    ensures forall p | p in r :: p in pool
  {
    if eps == [] then []
    else
      (match Find(pool, NormalizeName(eps[0].name))
       case Some(p) => [p]
       case None => []) + ResolveNames(eps[1..], pool)
  }

  /** `findUnmatchedExtracted`: the extracted places no pool place matches. */
  function Unmatched(eps: seq<Extracted>, pool: seq<Place>): seq<Extracted> {
    if eps == [] then []
    else (if Find(pool, NormalizeName(eps[0].name)).None? then [eps[0]] else []) + Unmatched(eps[1..], pool)
  }

  /** Each extracted place is either resolved or reported unmatched. */
  lemma {:induction false} ResolvedOrUnmatched(eps: seq<Extracted>, pool: seq<Place>)
    ensures |ResolveNames(eps, pool)| + |Unmatched(eps, pool)| == |eps|
    ensures Unmatched(eps, pool) == [] <==> |ResolveNames(eps, pool)| == |eps|
  {
    if eps != [] {
      ResolvedOrUnmatched(eps[1..], pool);
    }
  }

  /** Nothing resolves against an empty pool. */
  lemma {:induction false} ResolveEmptyPool(eps: seq<Extracted>)
    ensures ResolveNames(eps, []) == []
  {
    if eps != [] {
      ResolveEmptyPool(eps[1..]);
    }
  }

  /** Some extracted name matches the place (`findMatched`'s test). */
  predicate MatchesSome(p: Place, eps: seq<Extracted>) {
    exists k | 0 <= k < |eps| :: Matches(p, NormalizeName(eps[k].name))
  }

  /** `findMatched`: the pool places some extracted name matches, in pool order. */
  function FindMatched(pool: seq<Place>, eps: seq<Extracted>): (r: seq<Place>)
    ensures forall p | p in r :: p in pool && MatchesSome(p, eps)
  {
    if pool == [] then []
    else (if MatchesSome(pool[0], eps) then [pool[0]] else []) + FindMatched(pool[1..], eps)
  }

  /** Searching the matched subset finds what searching the whole pool finds, for any extracted name. */
  lemma {:induction false} FindInMatched(pool: seq<Place>, eps: seq<Extracted>, k: nat)
    requires k < |eps|
    ensures Find(FindMatched(pool, eps), NormalizeName(eps[k].name)) == Find(pool, NormalizeName(eps[k].name))
  {
    if pool != [] {
      var en := NormalizeName(eps[k].name);
      FindInMatched(pool[1..], eps, k);
      var rest := FindMatched(pool[1..], eps);
      if MatchesSome(pool[0], eps) {
        assert FindMatched(pool, eps) == [pool[0]] + rest;
        assert ([pool[0]] + rest)[1..] == rest;
      } else {
        assert FindMatched(pool, eps) == rest;
      }
    }
  }

  lemma {:induction false} ResolveSame(sub: seq<Extracted>, all: seq<Place>, eps: seq<Extracted>)
    requires forall i | 0 <= i < |sub| :: sub[i] in eps
    ensures ResolveNames(sub, FindMatched(all, eps)) == ResolveNames(sub, all)
  {
    if sub != [] {
      var k :| 0 <= k < |eps| && eps[k] == sub[0];
      FindInMatched(all, eps, k);
      ResolveSame(sub[1..], all, eps);
    }
  }

  /**
   * The route's final match (resolve each extracted name against the matched
   * subset) is the plain resolution against all places: order follows the
   * extracted list and each name takes its first match.
   */
  lemma FinalMatchOrder(eps: seq<Extracted>, all: seq<Place>)
    ensures ResolveNames(eps, FindMatched(all, eps)) == ResolveNames(eps, all)
  {
    ResolveSame(eps, all, eps);
  }

  // ---------------------------------------------------------------- courses

  const ChatReason := "채팅 AI 추천"

  function PlaceNames(ps: seq<Place>): (r: seq<string>)
    ensures |r| == |ps|
  {
    seq(|ps|, i requires 0 <= i < |ps| => ps[i].name)
  }

  /** The stops of a course, numbered from 1 in visiting order. */
  function Stops(ps: seq<Place>): (r: seq<Stop>)
    ensures |r| == |ps|
    ensures forall i | 0 <= i < |ps| :: r[i].order == i + 1 && r[i].id == ps[i].id && r[i].placeType == TypeLabel(ps[i])
  {
    seq(|ps|, i requires 0 <= i < |ps| => Stop(i + 1, ps[i].id, TypeLabel(ps[i]), ChatReason))
  }

  /** A course over places: the title joins their names with " + ", the route summary with " → ". */
  function CourseOf(number: int, ps: seq<Place>): Course {
    Course(number, Join(PlaceNames(ps), " + "), Stops(ps), Join(PlaceNames(ps), " → "))
  }

  /** The courses that kept at least one stop, in order. */
  function NonEmpty(cs: seq<Course>): (r: seq<Course>)
    ensures forall c | c in r :: c in cs && c.stops != []
    ensures forall c | c in cs && c.stops != [] :: c in r
  {
    if cs == [] then []
    else (if cs[0].stops != [] then [cs[0]] else []) + NonEmpty(cs[1..])
  }

  /** One course per extracted course, numbered by its position, before empty ones are dropped. */
  function Numbered(ecs: seq<seq<Extracted>>, matched: seq<Place>): (r: seq<Course>)
    ensures |r| == |ecs|
    ensures forall i | 0 <= i < |ecs| :: r[i] == CourseOf(i + 1, ResolveNames(ecs[i], matched))
  {
    NumberedOver(Resolved(ecs, matched))
  }

  /** The places each extracted course resolves to. */
  function Resolved(ecs: seq<seq<Extracted>>, matched: seq<Place>): (r: seq<seq<Place>>)
    ensures |r| == |ecs| && forall i | 0 <= i < |ecs| :: r[i] == ResolveNames(ecs[i], matched)
    ensures forall i, p | 0 <= i < |r| && p in r[i] :: p in matched
  {
    seq(|ecs|, i requires 0 <= i < |ecs| => ResolveNames(ecs[i], matched))
  }

  /** Courses over groups of places, numbered from 1. */
  function NumberedOver(groups: seq<seq<Place>>): (r: seq<Course>)
    ensures |r| == |groups| && forall i | 0 <= i < |groups| :: r[i] == CourseOf(i + 1, groups[i])
  {
    seq(|groups|, i requires 0 <= i < |groups| => CourseOf(i + 1, groups[i]))
  }

  /** `buildCourses`. */
  function BuildCourses(matched: seq<Place>, ecs: Option<seq<seq<Extracted>>>): (r: seq<Course>)
    ensures matched == [] ==> r == []
    ensures matched != [] && (ecs.None? || ecs.value == []) ==> r == [CourseOf(1, matched)]
    ensures forall c | c in r :: c.stops != []
  {
    if matched == [] then []
    else if ecs.Some? && |ecs.value| > 0 then NonEmpty(Numbered(ecs.value, matched))
    else [CourseOf(1, matched)]
  }

  predicate Increasing(cs: seq<Course>) {
    forall i, j | 0 <= i < j < |cs| :: cs[i].courseNumber < cs[j].courseNumber
  }

  lemma ConsIncreasing(c: Course, r: seq<Course>)
    requires Increasing(r) && forall d | d in r :: c.courseNumber < d.courseNumber
    ensures Increasing([c] + r)
  {
    forall i, j | 0 <= i < j < |[c] + r| ensures ([c] + r)[i].courseNumber < ([c] + r)[j].courseNumber {
      assert ([c] + r)[j] == r[j - 1];
      assert r[j - 1] in r;
      if i > 0 {
        assert ([c] + r)[i] == r[i - 1];
      }
    }
  }

  /** Dropping the empty courses keeps the numbers increasing. */
  lemma {:induction false} NonEmptyIncreasing(cs: seq<Course>)
    requires Increasing(cs)
    ensures Increasing(NonEmpty(cs))
  {
    if cs != [] {
      var rest := cs[1..];
      assert Increasing(rest);
      NonEmptyIncreasing(rest);
      var r := NonEmpty(rest);
      forall c | c in r ensures cs[0].courseNumber < c.courseNumber {
        var i :| 0 <= i < |rest| && rest[i] == c;
        assert cs[i + 1] == c;
      }
      if cs[0].stops != [] {
        ConsIncreasing(cs[0], r);
      }
    }
  }

  /** Every stop of a course over matched places is numbered by its position and names a matched place. */
  lemma CourseStops(n: int, ps: seq<Place>, matched: seq<Place>)
    requires forall p | p in ps :: p in matched
    ensures forall k | 0 <= k < |CourseOf(n, ps).stops| ::
      CourseOf(n, ps).stops[k].order == k + 1 && exists p | p in matched :: p.id == CourseOf(n, ps).stops[k].id
  {
    forall k | 0 <= k < |CourseOf(n, ps).stops| ensures exists p | p in matched :: p.id == CourseOf(n, ps).stops[k].id {
      assert ps[k] in ps;
    }
  }

  /**
   * The course numbers increase strictly and lie between 1 and the number of
   * extracted courses; every stop is numbered by its position and names a
   * matched place.
   */
  lemma CoursesShape(matched: seq<Place>, ecs: Option<seq<seq<Extracted>>>)
    ensures Increasing(BuildCourses(matched, ecs))
    ensures forall c | c in BuildCourses(matched, ecs) ::
      1 <= c.courseNumber <= (if ecs.Some? && ecs.value != [] then |ecs.value| else 1)
    ensures forall c, k | c in BuildCourses(matched, ecs) && 0 <= k < |c.stops| ::
      c.stops[k].order == k + 1 && exists p | p in matched :: p.id == c.stops[k].id
  {
    var r := BuildCourses(matched, ecs);
    if matched != [] && ecs.Some? && |ecs.value| > 0 {
      var cs := Numbered(ecs.value, matched);
      NonEmptyIncreasing(cs);
      forall c | c in r
        ensures 1 <= c.courseNumber <= |ecs.value|
        ensures forall k | 0 <= k < |c.stops| :: c.stops[k].order == k + 1 && exists p | p in matched :: p.id == c.stops[k].id
      {
        NumberedCourse(Resolved(ecs.value, matched), matched, c);
      }
    } else if matched != [] {
      CourseStops(1, matched, matched);
    }
  }

  /** A numbered course lies between 1 and the number of groups, and its stops name matched places. */
  lemma NumberedCourse(groups: seq<seq<Place>>, matched: seq<Place>, c: Course)
    requires c in NumberedOver(groups)
    requires forall i, p | 0 <= i < |groups| && p in groups[i] :: p in matched
    ensures 1 <= c.courseNumber <= |groups|
    ensures forall k | 0 <= k < |c.stops| :: c.stops[k].order == k + 1 && exists p | p in matched :: p.id == c.stops[k].id
  {
    var cs := NumberedOver(groups);
    var i :| 0 <= i < |cs| && cs[i] == c;
    CourseStops(i + 1, groups[i], matched);
  }

  lemma NonEmptyPair(a: Course, b: Course)
    requires a.stops == [] && b.stops != []
    ensures NonEmpty([a, b]) == [b]
  {
    assert [a, b][1..] == [b];
    assert [b][1..] == [];
    assert NonEmpty([b]) == [b] + NonEmpty([]);
  }

  lemma NumberedPair(matched: seq<Place>, x: Extracted, y: Extracted)
    ensures Numbered([[x], [y]], matched) ==
      [CourseOf(1, ResolveNames([x], matched)), CourseOf(2, ResolveNames([y], matched))]
  {
    var cs := Numbered([[x], [y]], matched);
    assert [[x], [y]][0] == [x] && [[x], [y]][1] == [y];
    Pair(cs, CourseOf(1, ResolveNames([x], matched)), CourseOf(2, ResolveNames([y], matched)));
  }

  lemma Pair<T>(s: seq<T>, a: T, b: T)
    requires |s| == 2 && s[0] == a && s[1] == b
    ensures s == [a, b]
  {
  }

  lemma CourseStopCount(number: int, ps: seq<Place>)
    ensures |CourseOf(number, ps).stops| == |ps|
  {
  }

  /** Numbers are kept from before the filter, so a dropped course leaves a gap. */
  lemma NumbersCanSkip(matched: seq<Place>, x: Extracted, y: Extracted, p: Place)
    requires matched != []
    requires ResolveNames([x], matched) == [] && ResolveNames([y], matched) == [p]
    ensures BuildCourses(matched, Some([[x], [y]])) == [CourseOf(2, [p])]
  {
    var a, b := CourseOf(1, []), CourseOf(2, [p]);
    assert Numbered([[x], [y]], matched) == [a, b] by {
      NumberedPair(matched, x, y);
    }
    assert NonEmpty([a, b]) == [b] by {
      CourseStopCount(1, []);
      CourseStopCount(2, [p]);
      NonEmptyPair(a, b);
    }
  }

  // ---------------------------------------------------------------- the request

  /** The JSON body of a request. */
  datatype Request = Request(userQuery: Option<string>, aiResponse: Option<string>, region: Option<string>, places: Option<seq<string>>)

  /** What the extraction oracle answers for an AI response; `Threw` when the call fails. */
  datatype Extraction = Threw | Extraction(region: string, places: seq<Extracted>, courses: Option<seq<seq<Extracted>>>)

  datatype Input =
    | Rejected(status: int, error: string)
    | Ready(region: string, places: seq<Extracted>, courses: Option<seq<seq<Extracted>>>)

  /**
   * The input stage: a body that is not JSON is a 400; a truthy region with a
   * non-empty place list is used directly (each name typed "unknown");
   * otherwise a truthy AI response goes through extraction; otherwise a
   * 400; an extraction failure is the route's 500; an empty region is a 400.
   */
  function ReadInput(body: Option<Request>, extract: string -> Extraction): (r: Input)
    ensures body.None? ==> r == Rejected(400, "잘못된 요청 형식입니다.")
    ensures r.Ready? ==> r.region != ""
    ensures r.Rejected? ==> r.status == 400 || r.status == 500
  {
    match body
    case None => Rejected(400, "잘못된 요청 형식입니다.")
    case Some(b) =>
      if TruthyStr(b.region) && b.places.Some? && |b.places.value| > 0 then
        Ready(b.region.value, seq(|b.places.value|, i requires 0 <= i < |b.places.value| => Extracted(b.places.value[i], "unknown")), None)
      else if TruthyStr(b.aiResponse) then
        match extract(b.aiResponse.value)
        case Threw => Rejected(500, "장소 해석 중 오류가 발생했습니다.")
        case Extraction(region, places, courses) =>
          if region == "" then Rejected(400, "지역을 파악할 수 없습니다.") else Ready(region, places, courses)
      else Rejected(400, "aiResponse or region+places is required")
  }

  /** A direct region and place list never reaches the extractor, and keeps the names in order. */
  lemma DirectSkipsExtraction(b: Request, e1: string -> Extraction, e2: string -> Extraction)
    requires TruthyStr(b.region) && b.places.Some? && |b.places.value| > 0
    ensures ReadInput(Some(b), e1) == ReadInput(Some(b), e2)
    ensures ReadInput(Some(b), e1).Ready? && |ReadInput(Some(b), e1).places| == |b.places.value|
    ensures forall i | 0 <= i < |b.places.value| :: ReadInput(Some(b), e1).places[i].name == b.places.value[i]
  {
  }

  /**
   * Without a usable direct list, a truthy AI response decides the outcome
   * through the extractor: a throwing extractor is the route's 500, an empty
   * region a 400, and otherwise the extracted region, places and courses are
   * used as they are.
   */
  lemma ExtractionPath(b: Request, extract: string -> Extraction)
    requires !(TruthyStr(b.region) && b.places.Some? && |b.places.value| > 0) && TruthyStr(b.aiResponse)
    ensures extract(b.aiResponse.value).Threw? ==>
      ReadInput(Some(b), extract) == Rejected(500, "장소 해석 중 오류가 발생했습니다.")
    ensures extract(b.aiResponse.value).Extraction? && extract(b.aiResponse.value).region == "" ==>
      ReadInput(Some(b), extract) == Rejected(400, "지역을 파악할 수 없습니다.")
    ensures extract(b.aiResponse.value).Extraction? && extract(b.aiResponse.value).region != "" ==>
      var x := extract(b.aiResponse.value);
      ReadInput(Some(b), extract) == Ready(x.region, x.places, x.courses)
  {
  }

  /** Neither a direct list nor an AI response: a 400. */
  lemma NothingToResolve(b: Request, extract: string -> Extraction)
    requires !(TruthyStr(b.region) && b.places.Some? && |b.places.value| > 0) && !TruthyStr(b.aiResponse)
    ensures ReadInput(Some(b), extract) == Rejected(400, "aiResponse or region+places is required")
  {
  }

  /** The answer once every place has been gathered. */
  datatype Answer =
    | NoPlacesHere
    | AskRecommender(query: string)
    | Matched(courses: seq<Course>, places: seq<Place>, persona: string, recommendations: seq<Stop>, routeSummary: string)

  function Persona(userQuery: Option<string>, region: string): string {
    StrOr(userQuery, region + " 맛집 추천")
  }

  /**
   * The final step: the matched places in the extracted order; with none, the
   * empty answer when no place is known and the recommender otherwise; with
   * some, their courses, whose first course gives the recommendations and
   * route summary.
   */
  function Finish(userQuery: Option<string>, region: string, eps: seq<Extracted>, ecs: Option<seq<seq<Extracted>>>, all: seq<Place>): (r: Answer)
    ensures r.Matched? <==> ResolveNames(eps, all) != []
    ensures r.Matched? ==> r.places == ResolveNames(eps, all) && r.courses == BuildCourses(r.places, ecs)
    ensures r.NoPlacesHere? <==> all == []
  {
    FinalMatchOrder(eps, all);
    ResolveEmptyPool(eps);
    var matched := ResolveNames(eps, FindMatched(all, eps));
    var persona := Persona(userQuery, region);
    if matched == [] then
      if all == [] then NoPlacesHere else AskRecommender(persona)
    else
      var courses := BuildCourses(matched, ecs);
      Matched(courses, matched, persona,
        if courses == [] then [] else courses[0].stops,
        if courses == [] then "" else courses[0].routeSummary)
  }

  /** Without extracted courses, the recommendations are every matched place, numbered in order. */
  lemma SingleCourseAnswer(userQuery: Option<string>, region: string, eps: seq<Extracted>, all: seq<Place>)
    requires ResolveNames(eps, all) != []
    ensures Finish(userQuery, region, eps, None, all).recommendations == Stops(ResolveNames(eps, all))
    ensures Finish(userQuery, region, eps, None, all).routeSummary == Join(PlaceNames(ResolveNames(eps, all)), " → ")
  {
  }
}
