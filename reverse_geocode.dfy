/**
 * Reverse geocoding of a coordinate to a district (구) and neighbourhood
 * (동): the Naver reverse geocoder when it answers, otherwise the nearest
 * landmark of the table, whose district is read off its address.
 */
module ReverseGeocode {
  import opened Wrappers
  import opened Text
  import opened Geocode
  import opened Patterns

  datatype AreaInfo = AreaInfo(gu: string, dong: string)

  // ---------------------------------------------------------------- district pattern

  predicate IsGu(c: char) {
    c == '구'
  }

  /** `address.match(/([가-힣]+[구])/)?.[1] ?? ""`. */
  function ExtractGu(address: string): string {
    Search(address, IsHangul, IsGu).GetOr("")
  }

  // ---------------------------------------------------------------- nearest landmark

  /** Squared coordinate difference, the quantity the fallback minimises. */
  function SqDist(l: Landmark, lat: real, lng: real): real {
    (l.result.lat - lat) * (l.result.lat - lat) + (l.result.lng - lng) * (l.result.lng - lng)
  }

  /** Entry i is at minimal distance, and every earlier entry is strictly farther. */
  predicate IsNearest(table: seq<Landmark>, lat: real, lng: real, i: nat) {
    i < |table|
    && (forall j | 0 <= j < |table| :: SqDist(table[i], lat, lng) <= SqDist(table[j], lat, lng))
    && (forall j | 0 <= j < i :: SqDist(table[i], lat, lng) < SqDist(table[j], lat, lng))
  }

  /**
   * `findNearestLandmark`: keeps the running minimum, replacing it only on a
   * strictly smaller distance, so ties keep the earliest entry; the district
   * comes from the landmark's address and the landmark's name stands for the
   * neighbourhood.  The result is null only when no entry was chosen or its
   * name is empty.
   */
  method FindNearestLandmark(table: seq<Landmark>, lat: real, lng: real) returns (r: Option<AreaInfo>)
    ensures table == [] ==> r.None?
    ensures table != [] && (forall j | 0 <= j < |table| :: table[j].key != "") ==> r.Some?
    ensures r.Some? ==>
      exists i: nat :: IsNearest(table, lat, lng, i) && r.value == AreaInfo(ExtractGu(table[i].result.address), table[i].key)
  {
    var minDist: Option<real> := None;
    var nearest: Option<nat> := None;
    var i := 0;
    while i < |table|
      invariant 0 <= i <= |table|
      invariant i == 0 <==> nearest.None?
      invariant nearest.None? <==> minDist.None?
      invariant nearest.Some? ==> nearest.value < i && minDist.value == SqDist(table[nearest.value], lat, lng)
      invariant nearest.Some? ==> forall j | 0 <= j < i :: minDist.value <= SqDist(table[j], lat, lng)
      invariant nearest.Some? ==> forall j | 0 <= j < nearest.value :: minDist.value < SqDist(table[j], lat, lng)
    {
      var d := SqDist(table[i], lat, lng);
      if minDist.None? || d < minDist.value {
        minDist := Some(d);
        nearest := Some(i);
      }
      i := i + 1;
    }
    if nearest.None? || table[nearest.value].key == "" {
      return None;
    }
    var n := nearest.value;
    assert IsNearest(table, lat, lng, n);
    r := Some(AreaInfo(ExtractGu(table[n].result.address), table[n].key));
  }

  // ---------------------------------------------------------------- Naver tier and fallback

  /** The `region` of the first reverse-geocoding result: the names of `area2` and `area3`. */
  datatype Region = Region(area2: Option<string>, area3: Option<string>)

  /** One entry of `results`; its region may be missing. */
  datatype ReverseResult = ReverseResult(region: Option<Region>)

  /** The reverse geocoder: coordinate to reply, whose body is `results` (None when absent). */
  type ReverseApi = (real, real) -> Reply<Option<seq<ReverseResult>>>

  /** What `naverReverseGeocode` makes of a reply. */
  function NaverReverseAnswer(reply: Reply<Option<seq<ReverseResult>>>): (r: Option<AreaInfo>)
  {
    match reply
    case Threw => None
    case Reply(status, body) =>
      if !StatusOk(TS, status) || body.None? || body.value == [] || body.value[0].region.None? then None
      else
        var region := body.value[0].region.value;
        var gu := StrOr(region.area2, "");
        var dong := StrOr(region.area3, "");
        if gu == "" && dong == "" then None else Some(AreaInfo(gu, dong))
  }

  /** `naverReverseGeocode`: no request without both credentials. */
  function NaverReverseGeocode(env: Env, lat: real, lng: real, api: ReverseApi): (r: Option<AreaInfo>)
  {
    if !NaverCredentials(TS, env) then None
    else NaverReverseAnswer(api(lat, lng))
  }

  /** `reverseGeocode`: the Naver answer when there is one, otherwise the nearest landmark. */
  method ReverseGeocodeArea(table: seq<Landmark>, env: Env, lat: real, lng: real, api: ReverseApi) returns (r: Option<AreaInfo>)
    ensures NaverReverseGeocode(env, lat, lng, api).Some? ==> r == NaverReverseGeocode(env, lat, lng, api)
    ensures NaverReverseGeocode(env, lat, lng, api).None? && r.Some? ==>
      exists i: nat :: IsNearest(table, lat, lng, i) && r.value == AreaInfo(ExtractGu(table[i].result.address), table[i].key)
    ensures table != [] && (forall j | 0 <= j < |table| :: table[j].key != "") ==> r.Some?
  {
    var naver := NaverReverseGeocode(env, lat, lng, api);
    if naver.Some? {
      return naver;
    }
    r := FindNearestLandmark(table, lat, lng);
  }

  // ---------------------------------------------------------------- lemmas

  /** The extracted district is empty, or a run of two or more syllables of the address ending in 구. */
  lemma ExtractGuShape(address: string)
    ensures var g := ExtractGu(address);
      g == "" || (|g| >= 2 && g[|g| - 1] == '구' && (forall m | 0 <= m < |g| :: IsHangul(g[m])) && Contains(address, g))
  {
    var f := FirstMatch(address, 0, IsHangul, IsGu);
    if f.Some? {
      MatchShape(address, f.value.0, f.value.1, IsHangul, IsGu);
      assert OccursAt(address, ExtractGu(address), f.value.0);
    }
  }

  /** An address in which no 구 follows a syllable gives the empty district. */
  lemma NoGuNoDistrict(address: string)
    requires forall m | 0 < m < |address| :: address[m] == '구' ==> !IsHangul(address[m - 1])
    ensures ExtractGu(address) == ""
  {
    var f := FirstMatch(address, 0, IsHangul, IsGu);
    if f.Some? {
      EndFollowsRun(address, f.value.0, f.value.1, IsHangul, IsGu);
      assert false;
    }
  }

  /** The address of the first landmark of the table. */
  const YongsanOfficeAddress: string := "서울특별시 용산구 녹사평대로 150"

  /** No match starts inside 서울특별시: its run has no 구. */
  lemma YongsanCityPart(m: nat)
    requires m < 6
    ensures MatchEnd(YongsanOfficeAddress, m, IsHangul, IsGu).None?
  {
    var s := YongsanOfficeAddress;
    if IsHangul(s[m]) {
      RunEndIs(s, m, 5, IsHangul);
    }
  }

  /** The match tried at 용 ends at 구. */
  lemma YongsanDistrictPart()
    ensures MatchEnd(YongsanOfficeAddress, 6, IsHangul, IsGu) == Some(8)
  {
    RunEndIs(YongsanOfficeAddress, 6, 9, IsHangul);
  }

  /** The first landmark's address yields 용산구. */
  lemma YongsanDistrict()
    ensures ExtractGu(YongsanOfficeAddress) == "용산구"
  {
    forall m | 0 <= m < 6
      ensures MatchEnd(YongsanOfficeAddress, m, IsHangul, IsGu).None?
    {
      YongsanCityPart(m);
    }
    YongsanDistrictPart();
    FirstMatchSkip(YongsanOfficeAddress, 0, 6, IsHangul, IsGu);
  }

  /** A Naver answer always names a district or a neighbourhood. */
  lemma NaverAnswerNonEmpty(reply: Reply<Option<seq<ReverseResult>>>)
    ensures var r := NaverReverseAnswer(reply);
      r.Some? ==> r.value.gu != "" || r.value.dong != ""
  {
  }

  /** Missing credentials, an exception, a bad status, no results or no region give no Naver answer. */
  lemma NaverReverseFailures(env: Env, lat: real, lng: real, api: ReverseApi, status: int)
    ensures !NaverCredentials(TS, env) ==> NaverReverseGeocode(env, lat, lng, api).None?
    ensures NaverReverseAnswer(Threw).None?
    ensures !StatusOk(TS, status) ==> forall b :: NaverReverseAnswer(Reply(status, b)).None?
    ensures NaverReverseAnswer(Reply(status, None)).None? && NaverReverseAnswer(Reply(status, Some([]))).None?
    ensures forall rest :: NaverReverseAnswer(Reply(status, Some([ReverseResult(None)] + rest))).None?
  {
  }
}
