/**
 * Forward geocoding: a fixed table of Seoul landmarks tried first (exact key,
 * then — for queries without a digit — the first key contained in the query
 * or containing it), then the Naver geocoder, then Nominatim.  The two
 * external services are oracles: functions from the request to the reply.
 */
module Geocode {
  import opened Wrappers
  import opened Text

  datatype GeocodeResult = GeocodeResult(lat: real, lng: real, address: string)

  datatype Landmark = Landmark(key: string, result: GeocodeResult)

  /** The landmark table, in the order its entries are enumerated. */
  const Landmarks: seq<Landmark> := [
    Landmark("용산구청", GeocodeResult(37.5324, 126.9906, "서울특별시 용산구 녹사평대로 150")),
    Landmark("이태원", GeocodeResult(37.5345, 126.9945, "서울특별시 용산구 이태원동")),
    Landmark("이태원역", GeocodeResult(37.5345, 126.9945, "서울특별시 용산구 이태원동")),
    Landmark("한남동", GeocodeResult(37.5340, 127.0020, "서울특별시 용산구 한남동")),
    Landmark("경리단길", GeocodeResult(37.5390, 126.9875, "서울특별시 용산구 회나무로")),
    Landmark("녹사평", GeocodeResult(37.5345, 126.9870, "서울특별시 용산구 녹사평대로")),
    Landmark("녹사평역", GeocodeResult(37.5345, 126.9870, "서울특별시 용산구 녹사평대로")),
    Landmark("해방촌", GeocodeResult(37.5420, 126.9870, "서울특별시 용산구 용산동2가")),
    Landmark("강남역", GeocodeResult(37.4979, 127.0276, "서울특별시 강남구 강남대로 396")),
    Landmark("강남", GeocodeResult(37.4979, 127.0276, "서울특별시 강남구")),
    Landmark("홍대", GeocodeResult(37.5563, 126.9220, "서울특별시 마포구 와우산로")),
    Landmark("홍대입구", GeocodeResult(37.5563, 126.9220, "서울특별시 마포구 양화로")),
    Landmark("홍대입구역", GeocodeResult(37.5563, 126.9220, "서울특별시 마포구 양화로")),
    Landmark("명동", GeocodeResult(37.5636, 126.9860, "서울특별시 중구 명동")),
    Landmark("잠실", GeocodeResult(37.5133, 127.1001, "서울특별시 송파구 잠실동")),
    Landmark("여의도", GeocodeResult(37.5219, 126.9245, "서울특별시 영등포구 여의도동")),
    Landmark("신촌", GeocodeResult(37.5551, 126.9368, "서울특별시 서대문구 신촌동")),
    Landmark("건대", GeocodeResult(37.5404, 127.0699, "서울특별시 광진구 능동로")),
    Landmark("건대입구", GeocodeResult(37.5404, 127.0699, "서울특별시 광진구 능동로")),
    Landmark("성수", GeocodeResult(37.5445, 127.0557, "서울특별시 성동구 성수동")),
    Landmark("성수동", GeocodeResult(37.5445, 127.0557, "서울특별시 성동구 성수동")),
    Landmark("을지로", GeocodeResult(37.5660, 126.9910, "서울특별시 중구 을지로")),
    Landmark("종로", GeocodeResult(37.5700, 126.9920, "서울특별시 종로구 종로")),
    Landmark("압구정", GeocodeResult(37.5270, 127.0280, "서울특별시 강남구 압구정동")),
    Landmark("청담", GeocodeResult(37.5255, 127.0470, "서울특별시 강남구 청담동")),
    Landmark("서울역", GeocodeResult(37.5547, 126.9707, "서울특별시 용산구 한강대로")),
    Landmark("용산역", GeocodeResult(37.5298, 126.9648, "서울특별시 용산구 한강대로")),
    Landmark("삼성역", GeocodeResult(37.5090, 127.0640, "서울특별시 강남구 테헤란로")),
    Landmark("선릉역", GeocodeResult(37.5047, 127.0490, "서울특별시 강남구 테헤란로")),
    Landmark("망원", GeocodeResult(37.5567, 126.9100, "서울특별시 마포구 망원동")),
    Landmark("연남동", GeocodeResult(37.5660, 126.9250, "서울특별시 마포구 연남동")),
    Landmark("이촌", GeocodeResult(37.5220, 126.9720, "서울특별시 용산구 이촌동")),
    Landmark("한강진역", GeocodeResult(37.5398, 126.9975, "서울특별시 용산구 한남동"))
  ]

  // ---------------------------------------------------------------- landmark tier

  /** The first table position at or after i whose key is exactly q. */
  function KeyIndex(table: seq<Landmark>, q: string, i: nat): (r: Option<nat>)
    requires i <= |table|
    ensures r.Some? ==> i <= r.value < |table| && table[r.value].key == q
    ensures r.Some? ==> forall j | i <= j < r.value :: table[j].key != q
    ensures r.None? ==> forall j | i <= j < |table| :: table[j].key != q
    decreases |table| - i
  {
    if i == |table| then None
    else if table[i].key == q then Some(i)
    else KeyIndex(table, q, i + 1)
  }

  /** `/\d/.test(q)`: q holds an ASCII digit (Python's `\d` also takes other decimal digits). */
  predicate HasDigit(q: string) {
    exists i | 0 <= i < |q| :: '0' <= q[i] <= '9'
  }

  /** The key and the query contain one another, one way or the other. */
  predicate Overlaps(q: string, key: string) {
    Contains(q, key) || Contains(key, q)
  }

  /** The first table position at or after i whose key overlaps q. */
  function FirstOverlap(table: seq<Landmark>, q: string, i: nat): (r: Option<nat>)
    requires i <= |table|
    ensures r.Some? ==> i <= r.value < |table| && Overlaps(q, table[r.value].key)
    ensures r.Some? ==> forall j | i <= j < r.value :: !Overlaps(q, table[j].key)
    ensures r.None? ==> forall j | i <= j < |table| :: !Overlaps(q, table[j].key)
    decreases |table| - i
  {
    if i == |table| then None
    else if Overlaps(q, table[i].key) then Some(i)
    else FirstOverlap(table, q, i + 1)
  }

  /** `lookupLandmark` / `_lookup_landmark`: exact key, then the digit guard, then the containment scan. */
  function LookupLandmark(table: seq<Landmark>, q: string): (r: Option<GeocodeResult>)
  {
    match KeyIndex(table, q, 0)
    case Some(i) => Some(table[i].result)
    case None =>
      if HasDigit(q) then None
      else
        match FirstOverlap(table, q, 0)
        case Some(j) => Some(table[j].result)
        case None => None
  }

  // ---------------------------------------------------------------- external tiers

  /** The external services a cascade consulted, in order. */
  datatype Tier = NaverTier | NominatimTier

  /** A tier's answer together with the requests it made. */
  datatype Tiered = Tiered(result: Option<GeocodeResult>, requests: seq<Tier>)

  /** The first element of the Naver geocoder's `addresses` array, coordinates already parsed. */
  datatype NaverAddress = NaverAddress(lat: real, lng: real, roadAddress: Option<string>, jibunAddress: Option<string>)

  /** The Naver geocoder: query to reply, whose body is the `addresses` field (None when absent). */
  type NaverApi = string -> Reply<Option<seq<NaverAddress>>>

  /** One Nominatim search hit, coordinates already parsed. */
  datatype NominatimHit = NominatimHit(lat: real, lng: real, displayName: Option<string>)

  type NominatimApi = string -> Reply<seq<NominatimHit>>

  /**
   * The Naver client id: TypeScript reads NEXT_PUBLIC_NAVER_MAP_CLIENT_ID only;
   * Python falls back to NAVER_MAP_CLIENT_ID when that is unset or empty.
   */
  function NaverClientId(lang: Lang, env: Env): (id: string)
    ensures lang == TS ==> id == EnvGet(env, "NEXT_PUBLIC_NAVER_MAP_CLIENT_ID")
  {
    var primary := EnvGet(env, "NEXT_PUBLIC_NAVER_MAP_CLIENT_ID");
    if lang == Py && primary == "" then EnvGet(env, "NAVER_MAP_CLIENT_ID") else primary
  }

  predicate NaverCredentials(lang: Lang, env: Env) {
    NaverClientId(lang, env) != "" && EnvGet(env, "NAVER_MAP_CLIENT_SECRET") != ""
  }

  /** What the Naver tier makes of a reply: null on an exception, a bad status or no address. */
  function NaverAnswer(lang: Lang, query: string, reply: Reply<Option<seq<NaverAddress>>>): (r: Option<GeocodeResult>)
  {
    match reply
    case Threw => None
    case Reply(status, body) =>
      if !StatusOk(lang, status) || body.None? || body.value == [] then None
      else
        var a := body.value[0];
        Some(GeocodeResult(a.lat, a.lng, StrOr(OrStr(a.roadAddress, a.jibunAddress), query)))
  }

  /** `naverGeocode` / `_naver_geocode`: no request at all without both credentials. */
  function NaverGeocode(lang: Lang, env: Env, query: string, api: NaverApi): (r: Tiered)
  {
    if !NaverCredentials(lang, env) then Tiered(None, [])
    else Tiered(NaverAnswer(lang, query, api(query)), [NaverTier])
  }

  /** The Nominatim search text: the query followed by " 서울". */
  function NominatimQuery(query: string): (q: string)
    ensures |q| == |query| + 3 && q[..|query|] == query
  {
    query + " 서울"
  }

  /**
   * What the Nominatim tier makes of a reply.  The address is the first hit's
   * display name: TypeScript falls back to the query when it is absent or
   * empty, Python only when it is absent.
   */
  function NominatimAnswer(lang: Lang, query: string, reply: Reply<seq<NominatimHit>>): (r: Option<GeocodeResult>)
  {
    match reply
    case Threw => None
    case Reply(status, body) =>
      if !StatusOk(lang, status) || body == [] then None
      else
        var h := body[0];
        var address := if lang == TS then StrOr(h.displayName, query) else h.displayName.GetOr(query);
        Some(GeocodeResult(h.lat, h.lng, address))
  }

  /** `nominatimGeocode` / `_nominatim_geocode`: always one request. */
  function NominatimGeocode(lang: Lang, query: string, api: NominatimApi): (r: Tiered)
  {
    Tiered(NominatimAnswer(lang, query, api(NominatimQuery(query))), [NominatimTier])
  }

  /** `geocode` over a landmark table (the application passes Landmarks): landmark, then Naver, then Nominatim; the first answer wins. */
  function Geocode(table: seq<Landmark>, lang: Lang, env: Env, query: string, naver: NaverApi, nominatim: NominatimApi): (r: Tiered)
  {
    var landmark := LookupLandmark(table, query);
    if landmark.Some? then Tiered(landmark, [])
    else
      var n := NaverGeocode(lang, env, query, naver);
      if n.result.Some? then n
      else
        var o := NominatimGeocode(lang, query, nominatim);
        Tiered(o.result, n.requests + o.requests)
  }

  // ---------------------------------------------------------------- lemmas

  /** A key of the table returns the entry of its first occurrence (keys of an object are unique). */
  lemma ExactKeyHit(table: seq<Landmark>, q: string, i: nat)
    requires i < |table| && table[i].key == q
    requires forall j | 0 <= j < i :: table[j].key != q
    ensures LookupLandmark(table, q) == Some(table[i].result)
  {
    assert KeyIndex(table, q, 0) == Some(i);
  }

  /** A query that is not a key and contains a digit gets no landmark. */
  lemma DigitGuard(table: seq<Landmark>, q: string)
    requires forall j | 0 <= j < |table| :: table[j].key != q
    requires HasDigit(q)
    ensures LookupLandmark(table, q).None?
  {
  }

  /**
   * Otherwise the landmark is the first entry, in table order, that overlaps
   * the query, and there is none exactly when no entry overlaps it.
   */
  lemma ContainmentScan(table: seq<Landmark>, q: string)
    requires forall j | 0 <= j < |table| :: table[j].key != q
    requires !HasDigit(q)
    ensures var r := LookupLandmark(table, q);
      (r.Some? <==> exists j | 0 <= j < |table| :: Overlaps(q, table[j].key))
      && (r.Some? ==> exists j | 0 <= j < |table| ::
            r.value == table[j].result && Overlaps(q, table[j].key)
            && forall i | 0 <= i < j :: !Overlaps(q, table[i].key))
  {
    var f := FirstOverlap(table, q, 0);
    if f.Some? {
      var j := f.value;
      assert LookupLandmark(table, q) == Some(table[j].result);
    }
  }

  /** Every key of the application's table is a name of at least two characters. */
  lemma KeysNonEmpty()
    ensures forall j | 0 <= j < |Landmarks| :: |Landmarks[j].key| >= 2
  {
  }

  /** The empty query is contained in every key, so with no empty key it resolves to the first entry. */
  lemma EmptyQueryFirstEntry(table: seq<Landmark>)
    requires table != []
    requires forall j | 0 <= j < |table| :: table[j].key != ""
    ensures LookupLandmark(table, "") == Some(table[0].result)
  {
    assert Overlaps("", table[0].key) by {
      assert OccursAt(table[0].key, "", 0);
    }
    assert FirstOverlap(table, "", 0) == Some(0);
  }

  /** For the application's table that first entry is 용산구청. */
  lemma EmptyQueryYongsanGuOffice()
    ensures LookupLandmark(Landmarks, "") == Some(GeocodeResult(37.5324, 126.9906, "서울특별시 용산구 녹사평대로 150"))
  {
    KeysNonEmpty();
    EmptyQueryFirstEntry(Landmarks);
  }

  /** A landmark hit answers without any external request. */
  lemma LandmarkShortCircuits(table: seq<Landmark>, lang: Lang, env: Env, query: string, naver: NaverApi, nominatim: NominatimApi)
    requires LookupLandmark(table, query).Some?
    ensures Geocode(table, lang, env, query, naver, nominatim) == Tiered(LookupLandmark(table, query), [])
  {
  }

  /**
   * Naver is asked only after a landmark miss and only with credentials;
   * Nominatim only after both earlier tiers miss; the answer is the first
   * tier's non-null answer, and null exactly when all three are null.
   */
  lemma CascadeOrder(table: seq<Landmark>, lang: Lang, env: Env, query: string, naver: NaverApi, nominatim: NominatimApi)
    ensures var r := Geocode(table, lang, env, query, naver, nominatim);
      var l := LookupLandmark(table, query);
      var n := NaverGeocode(lang, env, query, naver);
      var o := NominatimGeocode(lang, query, nominatim);
      (NaverTier in r.requests <==> l.None? && NaverCredentials(lang, env))
      && (NominatimTier in r.requests <==> l.None? && n.result.None?)
      && (r.result.None? <==> l.None? && n.result.None? && o.result.None?)
      && r.result == (if l.Some? then l else if n.result.Some? then n.result else o.result)
  {
  }

  /** Without both credentials the Naver tier answers null and sends nothing. */
  lemma NaverNeedsCredentials(lang: Lang, env: Env, query: string, api: NaverApi)
    requires !NaverCredentials(lang, env)
    ensures NaverGeocode(lang, env, query, api) == Tiered(None, [])
  {
  }

  /** The Python port also accepts NAVER_MAP_CLIENT_ID; TypeScript does not. */
  lemma ClientIdFallback()
    ensures var env := map["NAVER_MAP_CLIENT_ID" := "id", "NAVER_MAP_CLIENT_SECRET" := "secret"];
      NaverCredentials(Py, env) && !NaverCredentials(TS, env)
  {
  }

  /** The Naver address falls back from the road address to the lot address to the query. */
  lemma NaverAddressFallback(lang: Lang, query: string, status: int, a: NaverAddress, rest: seq<NaverAddress>)
    requires StatusOk(lang, status)
    ensures var r := NaverAnswer(lang, query, Reply(status, Some([a] + rest)));
      r.Some? && r.value.lat == a.lat && r.value.lng == a.lng
      && (TruthyStr(a.roadAddress) ==> r.value.address == a.roadAddress.value)
      && (!TruthyStr(a.roadAddress) && TruthyStr(a.jibunAddress) ==> r.value.address == a.jibunAddress.value)
      && (!TruthyStr(a.roadAddress) && !TruthyStr(a.jibunAddress) ==> r.value.address == query)
  {
  }

  /** An empty display name becomes the query in TypeScript but stays empty in Python. */
  lemma DisplayNameEmpty(query: string, h: NominatimHit)
    requires h.displayName == Some("")
    ensures NominatimAnswer(TS, query, Reply(200, [h])) == Some(GeocodeResult(h.lat, h.lng, query))
    ensures NominatimAnswer(Py, query, Reply(200, [h])) == Some(GeocodeResult(h.lat, h.lng, ""))
  {
  }

  /** Any exception, bad status or empty answer makes an external tier null. */
  lemma TierFailures(lang: Lang, query: string, status: int)
    ensures NaverAnswer(lang, query, Threw).None? && NominatimAnswer(lang, query, Threw).None?
    ensures !StatusOk(lang, status) ==>
      (forall b :: NaverAnswer(lang, query, Reply(status, b)).None?)
      && (forall b :: NominatimAnswer(lang, query, Reply(status, b)).None?)
    ensures NaverAnswer(lang, query, Reply(status, None)).None?
    ensures NaverAnswer(lang, query, Reply(status, Some([]))).None?
    ensures NominatimAnswer(lang, query, Reply(status, [])).None?
  {
  }
}
