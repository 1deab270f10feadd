/**
 * The parking agent of the crawl graph: find the Seoul district of the
 * search location from a fixed table of rectangles, fetch that district's
 * public parking lots from the open-data service, and insert the first 30
 * usable ones whose name is new into the ParkingLot table.  It never
 * contributes crawled places.
 */
module ParkingAgent {
  import opened Wrappers
  import opened Text
  import opened Crawl
  import opened ParkingLots

  /** A district's approximate bounding rectangle, inclusive on every side. */
  datatype District = District(name: string, latMin: real, latMax: real, lngMin: real, lngMax: real)

  /** The table, in the order it is searched. */
  const Districts: seq<District> := [
    District("강남구", 37.49, 37.53, 127.02, 127.07),
    District("서초구", 37.47, 37.51, 126.98, 127.04),
    District("마포구", 37.54, 37.57, 126.89, 126.95),
    District("용산구", 37.52, 37.55, 126.96, 127.00),
    District("종로구", 37.57, 37.60, 126.97, 127.02),
    District("중구", 37.55, 37.57, 126.97, 127.01),
    District("성동구", 37.55, 37.57, 127.02, 127.06),
    District("송파구", 37.49, 37.52, 127.08, 127.14),
    District("영등포구", 37.52, 37.54, 126.89, 126.93),
    District("관악구", 37.47, 37.49, 126.94, 126.98)
  ]

  predicate Covers(d: District, lat: real, lng: real) {
    d.latMin <= lat <= d.latMax && d.lngMin <= lng <= d.lngMax
  }

  /** The index of the first rectangle from k on that contains the point. */
  function FirstCovering(k: nat, lat: real, lng: real): (r: Option<nat>)
    requires k <= |Districts|
    ensures r.Some? ==> (k <= r.value < |Districts| && Covers(Districts[r.value], lat, lng) &&
                         forall j | k <= j < r.value :: !Covers(Districts[j], lat, lng))
    ensures r.None? ==> forall j | k <= j < |Districts| :: !Covers(Districts[j], lat, lng)
    decreases |Districts| - k
  {
    if k == |Districts| then None
    else if Covers(Districts[k], lat, lng) then Some(k)
    else FirstCovering(k + 1, lat, lng)
  }

  /** The district a point falls in: the first containing rectangle's name, if any. */
  function DistrictOf(lat: real, lng: real): (r: Option<string>)
    ensures r.None? <==> forall j | 0 <= j < |Districts| :: !Covers(Districts[j], lat, lng)
    ensures r.Some? ==> exists i | 0 <= i < |Districts| ::
      Districts[i].name == r.value && Covers(Districts[i], lat, lng) &&
      forall j | 0 <= j < i :: !Covers(Districts[j], lat, lng)
  {
    match FirstCovering(0, lat, lng)
    case None => None
    case Some(i) => Some(Districts[i].name)
  }

  /** `getDistrictName`: the search over the table, returning at the first match. */
  method GetDistrictName(lat: real, lng: real) returns (r: Option<string>)
    ensures r == DistrictOf(lat, lng)
  {
    var i := 0;
    while i < |Districts|
      invariant i <= |Districts|
      invariant FirstCovering(0, lat, lng) == FirstCovering(i, lat, lng)
    {
      if Covers(Districts[i], lat, lng) {
        return Some(Districts[i].name);
      }
      i := i + 1;
    }
    return None;
  }

  /** Overlapping rectangles resolve by order: a point in both 강남구 and 서초구 is in 강남구. */
  lemma OverlapTakesFirst()
    ensures Covers(Districts[0], 37.5, 127.03) && Covers(Districts[1], 37.5, 127.03)
    ensures DistrictOf(37.5, 127.03) == Some("강남구")
  {
  }

  // ---------------------------------------------------------------- the rows

  /** A row of the open-data answer; every field is an optional string. */
  datatype ParkInfoItem = ParkInfoItem(
    parkingName: Option<string>, addr: Option<string>, lat: Option<string>, lng: Option<string>,
    capacity: Option<string>, rates: Option<string>, timeRates: Option<string>,
    operationRule: Option<string>, weekendBegin: Option<string>, weekendEnd: Option<string>)

  /** `parseFloat` and `parseInt(·, 10)`; None stands for NaN. */
  type ParseFloat = string -> Option<real>
  type ParseInt = string -> Option<int>

  /** A coordinate: parsed when the field is a non-empty string, else null. */
  function Coordinate(s: Option<string>, parseFloat: ParseFloat): Option<real> {
    if TruthyStr(s) then parseFloat(s.value) else None
  }

  /** A count: parsed when the field is a non-empty string, else 0; NaN is stored as 0. */
  function Amount(s: Option<string>, parseInt: ParseInt): (n: int)
    ensures !TruthyStr(s) || parseInt(s.value).None? ==> n == 0
  {
    if TruthyStr(s) then parseInt(s.value).GetOr(0) else 0
  }

  /** "begin~end" when both weekend times are given, else "24시간". */
  function Hours(row: ParkInfoItem): (h: string)
    ensures TruthyStr(row.weekendBegin) && TruthyStr(row.weekendEnd) ==> h == row.weekendBegin.value + "~" + row.weekendEnd.value
    ensures !(TruthyStr(row.weekendBegin) && TruthyStr(row.weekendEnd)) ==> h == "24시간"
  {
    if TruthyStr(row.weekendBegin) && TruthyStr(row.weekendEnd) then row.weekendBegin.value + "~" + row.weekendEnd.value
    else "24시간"
  }

  /** The row is usable: a name that is not blank and two truthy coordinates. */
  predicate Usable(row: ParkInfoItem, parseFloat: ParseFloat) {
    row.parkingName.Some? && Trim(row.parkingName.value) != "" &&
    TruthyNum(Coordinate(row.lat, parseFloat)) && TruthyNum(Coordinate(row.lng, parseFloat))
  }

  /** The lot a row would create, or None when the row is skipped. */
  function RowLot(district: string, row: ParkInfoItem, parseFloat: ParseFloat, parseInt: ParseInt): (c: Option<NewLot>)
    ensures c.Some? <==> Usable(row, parseFloat)
    ensures c.Some? ==>
      c.value.name == Trim(row.parkingName.value) && Trimmed(c.value.name) && c.value.name != "" &&
      c.value.lat == Coordinate(row.lat, parseFloat).value && c.value.lng == Coordinate(row.lng, parseFloat).value &&
      c.value.lat != 0.0 && c.value.lng != 0.0 && c.value.address.None? &&
      c.value.parkingType != "" && c.value.description == district + " " + c.value.parkingType + " 주차장"
  {
    if !Usable(row, parseFloat) then None
    else
      var opType := StrOr(row.operationRule, "공영");
      Some(NewLot(Trim(row.parkingName.value), opType, None,
                  Coordinate(row.lat, parseFloat).value, Coordinate(row.lng, parseFloat).value,
                  Amount(row.capacity, parseInt), Amount(row.rates, parseInt),
                  district + " " + opType + " 주차장", Hours(row)))
  }

  /** At most the first 30 rows are looked at. */
  const RowLimit: nat := 30

  /** The candidates of the first 30 rows, in order. */
  function RowLots(district: string, rows: seq<ParkInfoItem>, parseFloat: ParseFloat, parseInt: ParseInt)
    : (r: seq<Option<NewLot>>)
    ensures |r| <= RowLimit && |r| <= |rows|
    ensures forall k | 0 <= k < |r| :: r[k] == RowLot(district, rows[k], parseFloat, parseInt)
  {
    var n := if |rows| < RowLimit then |rows| else RowLimit;
    seq(n, k requires 0 <= k < n => RowLot(district, rows[k], parseFloat, parseInt))
  }

  // ---------------------------------------------------------------- the agent

  /** The search location. */
  datatype Location = Location(lat: real, lng: real)

  /** The open-data request: an exception with its message, or the decoded answer's rows if it has them. */
  datatype Fetched = FetchFailed(message: string) | Answer(rows: Option<seq<ParkInfoItem>>)

  /** The service, given the API key and the district. */
  type OpenData = (string, string) -> Fetched

  /** The agent's contribution to the graph state. */
  datatype AgentResult = AgentResult(crawledPlaces: seq<Raw>, agentErrors: Option<seq<string>>)

  const KeyName := "SEOUL_OPENDATA_API_KEY"

  /** The errors the agent reports; None when it reports none. */
  function AgentErrors(location: Option<Location>, env: Env, fetch: OpenData): (e: Option<seq<string>>)
    ensures e.Some? ==> |e.value| == 1
    ensures location.None? ==> e.None?
  {
    if location.None? then None
    else
      match DistrictOf(location.value.lat, location.value.lng)
      case None => Some(["parking: could not determine district"])
      case Some(district) =>
        if EnvGet(env, KeyName) == "" then Some(["parking: SEOUL_OPENDATA_API_KEY not set"])
        else
          match fetch(EnvGet(env, KeyName), district)
          case FetchFailed(msg) => Some(["parking: " + msg])
          case Answer(_) => None
  }

  /** The candidates the agent's loop goes through: none unless a district, a key and rows are there. */
  function AgentLots(location: Option<Location>, env: Env, fetch: OpenData, parseFloat: ParseFloat, parseInt: ParseInt)
    : (r: seq<Option<NewLot>>)
    ensures |r| <= RowLimit
    ensures r != [] ==> AgentErrors(location, env, fetch).None?
  {
    if location.None? then []
    else
      match DistrictOf(location.value.lat, location.value.lng)
      case None => []
      case Some(district) =>
        if EnvGet(env, KeyName) == "" then []
        else
          match fetch(EnvGet(env, KeyName), district)
          case FetchFailed(_) => []
          case Answer(rows) => if rows.None? then [] else RowLots(district, rows.value, parseFloat, parseInt)
  }

  /**
   * `parkingAgent`: the lots of the first 30 usable rows are inserted
   * when their name is new; the result never holds crawled places.
   */
  method RunParkingAgent(location: Option<Location>, env: Env, fetch: OpenData,
                         parseFloat: ParseFloat, parseInt: ParseInt, table: ParkingTable)
    returns (out: AgentResult)
    modifies table
    ensures out.crawledPlaces == []
    ensures out.agentErrors == AgentErrors(location, env, fetch)
    ensures table.rows == old(table.rows) +
      StoredFrom(old(table.nextId), Admit(old(table.Names()), AgentLots(location, env, fetch, parseFloat, parseInt)))
  {
    if location.None? {
      return AgentResult([], None);
    }
    var district := GetDistrictName(location.value.lat, location.value.lng);
    if district.None? {
      return AgentResult([], Some(["parking: could not determine district"]));
    }
    var apiKey := EnvGet(env, KeyName);
    if apiKey == "" {
      return AgentResult([], Some(["parking: SEOUL_OPENDATA_API_KEY not set"]));
    }
    var data := fetch(apiKey, district.value);
    if data.FetchFailed? {
      return AgentResult([], Some(["parking: " + data.message]));
    }
    if data.rows.None? || |data.rows.value| == 0 {
      return AgentResult([], None);
    }
    var added := table.InsertAbsent(RowLots(district.value, data.rows.value, parseFloat, parseInt));
    return AgentResult([], None);
  }

  /**
   * What the agent stores: at most 30 new lots, none under a name the
   * table had, no two alike, each with a non-blank trimmed name, truthy
   * coordinates and no address.
   */
  lemma AgentStores(location: Option<Location>, env: Env, fetch: OpenData, parseFloat: ParseFloat, parseInt: ParseInt,
                    taken: set<string>)
    ensures var created := Admit(taken, AgentLots(location, env, fetch, parseFloat, parseInt));
      |created| <= RowLimit &&
      (forall k | 0 <= k < |created| ::
         created[k].name !in taken && created[k].name != "" && Trimmed(created[k].name) &&
         created[k].lat != 0.0 && created[k].lng != 0.0 && created[k].address.None?) &&
      (forall p, q | 0 <= p < q < |created| :: created[p].name != created[q].name)
  {
    var cands := AgentLots(location, env, fetch, parseFloat, parseInt);
    AdmitMeaning(taken, cands);
    var created := Admit(taken, cands);
    forall k | 0 <= k < |created|
      ensures created[k].name != "" && Trimmed(created[k].name)
      ensures created[k].lat != 0.0 && created[k].lng != 0.0 && created[k].address.None?
    {
      var j :| 0 <= j < |cands| && cands[j] == Some(created[k]);
      AgentLotShape(location, env, fetch, parseFloat, parseInt, j);
    }
  }

  /** Every candidate of the agent is the lot of a usable row. */
  lemma AgentLotShape(location: Option<Location>, env: Env, fetch: OpenData, parseFloat: ParseFloat, parseInt: ParseInt,
                      j: nat)
    requires j < |AgentLots(location, env, fetch, parseFloat, parseInt)|
    ensures var c := AgentLots(location, env, fetch, parseFloat, parseInt)[j];
      c.Some? ==> (c.value.name != "" && Trimmed(c.value.name) &&
                   c.value.lat != 0.0 && c.value.lng != 0.0 && c.value.address.None?)
  {
  }
}
