/**
 * The coordinate repair script.  Crawled places that share one rounded
 * coordinate with four or more others are looked up again by name among the
 * DiningCode points of interest found for their neighbourhoods (동), and the
 * coordinates and address of the matching point are written back.
 */
module FixCoordinates {
  import opened Wrappers
  import opened Text
  import opened Patterns

  // ---------------------------------------------------------------- names

  /** `normalize`: every white-space character removed and ASCII letters lower-cased. */
  function Normalize(name: string): (r: string)
    ensures |r| <= |name|
  {
    Lower(RemoveSpace(name))
  }

  lemma NormalizeClean(name: string)
    ensures NoSpace(Normalize(name)) && NoUpper(Normalize(name))
  {
    var s := RemoveSpace(name);
    assert forall i | 0 <= i < |s| :: Lower(s)[i] == LowerChar(s[i]);
  }

  lemma {:induction false} RemoveSpaceAppend(a: string, b: string)
    ensures RemoveSpace(a + b) == RemoveSpace(a) + RemoveSpace(b)
    decreases |a|
  {
    if a == [] {
      assert a + b == b;
    } else {
      assert (a + b)[0] == a[0];
      assert (a + b)[1..] == a[1..] + b;
      RemoveSpaceAppend(a[1..], b);
    }
  }

  lemma {:induction false} RemoveSpaceKeeps(s: string)
    requires NoSpace(s)
    ensures RemoveSpace(s) == s
    decreases |s|
  {
    if s != [] {
      RemoveSpaceKeeps(s[1..]);
    }
  }

  lemma LowerAppend(a: string, b: string)
    ensures Lower(a + b) == Lower(a) + Lower(b)
  {
    assert forall i | 0 <= i < |a + b| :: Lower(a + b)[i] == (Lower(a) + Lower(b))[i];
  }

  /** A normalised name normalises to itself. */
  lemma NormalizeIdempotent(name: string)
    ensures Normalize(Normalize(name)) == Normalize(name)
  {
    var r := Normalize(name);
    NormalizeClean(name);
    RemoveSpaceKeeps(r);
    LowerNoUpper(r);
  }

  /** Normalising works piece by piece, so spacing never tells two names apart. */
  lemma NormalizeAppend(a: string, b: string)
    ensures Normalize(a + b) == Normalize(a) + Normalize(b)
  {
    RemoveSpaceAppend(a, b);
    LowerAppend(RemoveSpace(a), RemoveSpace(b));
  }

  lemma SpacingIgnored(a: string, b: string)
    ensures Normalize(a + " " + b) == Normalize(a + b)
  {
    NormalizeAppend(a + " ", b);
    NormalizeAppend(a, " ");
    NormalizeAppend(a, b);
    assert RemoveSpace(" ") == [];
  }

  // ---------------------------------------------------------------- grouping by coordinate

  /** The selected columns of a crawled place. */
  datatype PlaceRow = PlaceRow(id: int, name: string, lat: Option<real>, lng: Option<real>, address: Option<string>)

  predicate Located(p: PlaceRow) {
    p.lat.Some? && p.lng.Some?
  }

  /** The `toFixed(4)` text of a coordinate pair; its formatting is not modelled. */
  type CoordKey = (real, real) -> string

  function KeyOf(p: PlaceRow, key: CoordKey): string
    requires Located(p)
  {
    key(p.lat.value, p.lng.value)
  }

  datatype Group = Group(key: string, members: seq<PlaceRow>)

  predicate DistinctKeys(gs: seq<Group>) {
    forall i, j | 0 <= i < j < |gs| :: gs[i].key != gs[j].key
  }

  /** The first group with key k. */
  function KeyIndex(gs: seq<Group>, k: string): (r: Option<nat>)
    ensures r.Some? ==> r.value < |gs| && gs[r.value].key == k
    ensures r.Some? ==> forall j | 0 <= j < r.value :: gs[j].key != k
    ensures r.None? ==> forall j | 0 <= j < |gs| :: gs[j].key != k
  {
    if gs == [] then None
    else if gs[0].key == k then Some(0)
    else match KeyIndex(gs[1..], k)
      case Some(i) => Some(i + 1)
      case None => None
  }

  /**
   * `coordGroups` after pushing p under k: p is appended to the group with
   * that key, or a new group is opened at the end (a `Map` keeps its
   * insertion order).
   */
  function AddTo(gs: seq<Group>, k: string, p: PlaceRow): (r: seq<Group>)
    ensures KeyIndex(gs, k).Some? ==> |r| == |gs|
    ensures KeyIndex(gs, k).None? ==> |r| == |gs| + 1 && r[|gs|] == Group(k, [p])
    ensures forall i | 0 <= i < |gs| :: r[i].key == gs[i].key
  {
    match KeyIndex(gs, k)
    case Some(i) => gs[i := Group(k, gs[i].members + [p])]
    case None => gs + [Group(k, [p])]
  }

  /** The coordinate groups of the rows, in order of first appearance; rows without both coordinates are left out. */
  function Grouped(rows: seq<PlaceRow>, key: CoordKey): seq<Group> {
    if rows == [] then []
    else
      var p := rows[|rows| - 1];
      var gs := Grouped(rows[..|rows| - 1], key);
      if Located(p) then AddTo(gs, KeyOf(p, key), p) else gs
  }

  /** The located rows whose key is k, in order. */
  function Members(rows: seq<PlaceRow>, key: CoordKey, k: string): (r: seq<PlaceRow>)
    ensures forall x | x in r :: x in rows && Located(x) && KeyOf(x, key) == k
  {
    if rows == [] then []
    else
      var p := rows[|rows| - 1];
      var ms := Members(rows[..|rows| - 1], key, k);
      if Located(p) && KeyOf(p, key) == k then ms + [p] else ms
  }

  lemma {:induction false} MembersNone(rows: seq<PlaceRow>, key: CoordKey, k: string)
    requires forall j | 0 <= j < |rows| && Located(rows[j]) :: KeyOf(rows[j], key) != k
    ensures Members(rows, key, k) == []
  {
    if rows != [] {
      var init := rows[..|rows| - 1];
      assert forall j | 0 <= j < |init| :: init[j] == rows[j];
      MembersNone(init, key, k);
    }
  }

  /** The groups have distinct keys, and every located row's key has a group. */
  lemma {:induction false} GroupedKeys(rows: seq<PlaceRow>, key: CoordKey)
    ensures DistinctKeys(Grouped(rows, key))
    ensures forall j | 0 <= j < |rows| && Located(rows[j]) :: KeyIndex(Grouped(rows, key), KeyOf(rows[j], key)).Some?
  {
    if rows != [] {
      var init := rows[..|rows| - 1];
      var p := rows[|rows| - 1];
      var gs := Grouped(init, key);
      GroupedKeys(init, key);
      assert forall j | 0 <= j < |init| :: init[j] == rows[j];
      if Located(p) {
        var r := AddTo(gs, KeyOf(p, key), p);
        forall j | 0 <= j < |rows| && Located(rows[j]) ensures KeyIndex(r, KeyOf(rows[j], key)).Some? {
          var kj := KeyOf(rows[j], key);
          if j < |init| {
            var i := KeyIndex(gs, kj).value;
            assert r[i].key == kj;
          } else if KeyIndex(gs, kj).None? {
            assert r[|gs|].key == kj;
          } else {
            assert r[KeyIndex(gs, kj).value].key == kj;
          }
        }
      }
    }
  }

  /** Each group holds exactly the located rows with its key, in row order. */
  lemma {:induction false} GroupedMembers(rows: seq<PlaceRow>, key: CoordKey)
    ensures forall i | 0 <= i < |Grouped(rows, key)| ::
      Grouped(rows, key)[i].members == Members(rows, key, Grouped(rows, key)[i].key)
  {
    if rows != [] {
      var init := rows[..|rows| - 1];
      var p := rows[|rows| - 1];
      var gs := Grouped(init, key);
      GroupedMembers(init, key);
      GroupedKeys(init, key);
      assert forall j | 0 <= j < |init| :: init[j] == rows[j];
      if Located(p) {
        var k := KeyOf(p, key);
        if KeyIndex(gs, k).None? {
          MembersNone(init, key, k);
        }
      }
    }
  }

  /** A member of a crowded group is a located row whose key five or more rows share. */
  lemma CrowdedMember(rows: seq<PlaceRow>, key: CoordKey, g: Group, x: PlaceRow)
    requires g in Crowded(Grouped(rows, key)) && x in g.members
    ensures x in rows && Located(x) && |Members(rows, key, KeyOf(x, key))| >= 5
  {
    var gs := Grouped(rows, key);
    GroupedMembers(rows, key);
    var i :| 0 <= i < |gs| && gs[i] == g;
    assert g.members == Members(rows, key, g.key);
  }

  /** `dupeGroups`: the groups of five or more places, in order. */
  function Crowded(gs: seq<Group>): (r: seq<Group>)
    ensures forall g | g in r :: g in gs && |g.members| >= 5
    ensures forall g | g in gs && |g.members| >= 5 :: g in r
  {
    if gs == [] then []
    else (if |gs[0].members| >= 5 then [gs[0]] else []) + Crowded(gs[1..])
  }

  /** The grouping loop: each located row is pushed under its key. */
  method GroupByCoord(rows: seq<PlaceRow>, key: CoordKey) returns (gs: seq<Group>)
    ensures gs == Grouped(rows, key)
  {
    gs := [];
    for i := 0 to |rows|
      invariant gs == Grouped(rows[..i], key)
    {
      assert rows[..i + 1][..i] == rows[..i];
      var p := rows[i];
      if Located(p) {
        gs := AddTo(gs, KeyOf(p, key), p);
      }
    }
    WholePrefix(rows);
  }

  // ---------------------------------------------------------------- neighbourhoods

  /** A match of `[가-힣]+동\s` at i whose captured syllables end before e. */
  predicate MatchesAt(s: string, i: nat, e: nat) {
    i + 2 <= e < |s| && (forall m | i <= m < e :: IsHangul(s[m])) && s[e - 1] == '동' && IsSpace(s[e])
  }

  /**
   * Where `[가-힣]+동\s` matches when tried at i: the end of the captured
   * syllables.  White space is not a syllable, so the capture is the whole
   * syllable run from i, which has to end in 동.
   */
  function DongEnd(s: string, i: nat): (e: Option<nat>)
    requires i <= |s|
    ensures e.Some? ==> MatchesAt(s, i, e.value)
    ensures e.None? ==> forall p :: !MatchesAt(s, i, p)
  {
    var e := RunEnd(s, i, IsHangul);
    if e >= i + 2 && e < |s| && s[e - 1] == '동' && IsSpace(s[e]) then Some(e)
    else
      assert forall p | MatchesAt(s, i, p) :: p == e by {
        forall p | MatchesAt(s, i, p) ensures p == e {
          RunEndIs(s, i, p, IsHangul);
        }
      }
      None
  }

  datatype Span = Span(start: nat, end: nat)

  /** The leftmost match at or after i. */
  function FirstDong(s: string, i: nat): (r: Option<Span>)
    requires i <= |s|
    ensures r.Some? ==> i <= r.value.start && MatchesAt(s, r.value.start, r.value.end)
    ensures r.Some? ==> forall m, p | i <= m < r.value.start :: !MatchesAt(s, m, p)
    ensures r.None? ==> forall m, p | i <= m :: !MatchesAt(s, m, p)
    decreases |s| - i
  {
    if i == |s| then None
    else match DongEnd(s, i)
      case Some(e) => Some(Span(i, e))
      case None => FirstDong(s, i + 1)
  }

  /** `address.match(/([가-힣]+동)\s/)?.[1]`. */
  function DongOf(address: string): (r: Option<string>)
    ensures r.None? <==> forall i, e :: !MatchesAt(address, i, e)
  {
    match FirstDong(address, 0)
    case Some(sp) => Some(address[sp.start..sp.end])
    case None => None
  }

  /** The captured name is two or more syllables ending in 동, followed by white space in the address. */
  lemma DongShape(address: string)
    requires DongOf(address).Some?
    ensures var d := DongOf(address).value;
      |d| >= 2 && d[|d| - 1] == '동' && (forall m | 0 <= m < |d| :: IsHangul(d[m])) &&
      exists i: nat :: OccursAt(address, d, i) && i + |d| < |address| && IsSpace(address[i + |d|])
  {
    var d := DongOf(address).value;
    var sp := FirstDong(address, 0).value;
    var i := sp.start;
    assert OccursAt(address, d, i);
    assert forall m | 0 <= m < |d| :: d[m] == address[i + m];
  }

  /** `dongs`: the neighbourhood of each place with an address, once each, in order of first appearance. */
  function Dongs(places: seq<PlaceRow>): seq<string> {
    if places == [] then []
    else
      var ds := Dongs(places[..|places| - 1]);
      var a := places[|places| - 1].address;
      if TruthyStr(a) && DongOf(a.value).Some? && DongOf(a.value).value !in ds then ds + [DongOf(a.value).value]
      else ds
  }

  predicate DongFrom(p: PlaceRow, d: string) {
    TruthyStr(p.address) && DongOf(p.address.value) == Some(d)
  }

  /** The neighbourhoods are distinct and are exactly those read off the places' addresses. */
  lemma {:induction false} DongsMeaning(places: seq<PlaceRow>)
    ensures forall i, j | 0 <= i < j < |Dongs(places)| :: Dongs(places)[i] != Dongs(places)[j]
    ensures forall d :: d in Dongs(places) <==> exists j | 0 <= j < |places| :: DongFrom(places[j], d)
  {
    if places != [] {
      var init := places[..|places| - 1];
      DongsMeaning(init);
      assert forall j | 0 <= j < |init| :: init[j] == places[j];
      forall d | d in Dongs(places) ensures exists j | 0 <= j < |places| :: DongFrom(places[j], d) {
        if d !in Dongs(init) {
          assert DongFrom(places[|places| - 1], d);
        }
      }
    }
  }

  /** The loop that fills `dongs`. */
  method CollectDongs(places: seq<PlaceRow>) returns (ds: seq<string>)
    ensures ds == Dongs(places)
  {
    ds := [];
    for i := 0 to |places|
      invariant ds == Dongs(places[..i])
    {
      assert places[..i + 1][..i] == places[..i];
      var p := places[i];
      if !TruthyStr(p.address) {
        continue;
      }
      var d := DongOf(p.address.value);
      if d.Some? && d.value !in ds {
        ds := ds + [d.value];
      }
    }
    WholePrefix(places);
  }

  // ---------------------------------------------------------------- the point-of-interest map

  /** A point of interest from a DiningCode search; the search itself is not part of this model. */
  datatype Poi = Poi(nm: string, branch: Option<string>, lat: real, lng: real, roadAddr: Option<string>, addr: Option<string>)

  /** What `poiMap` stores for a point. */
  datatype Spot = Spot(lat: real, lng: real, roadAddr: Option<string>, addr: Option<string>)

  datatype Entry = Entry(key: string, spot: Spot)

  /** The DiningCode search, as an oracle from query to points. */
  type PoiSearch = string -> seq<Poi>

  function SpotOf(poi: Poi): Spot {
    Spot(poi.lat, poi.lng, poi.roadAddr, poi.addr)
  }

  /** `nm branch` when the branch is non-empty, else `nm`. */
  function FullName(poi: Poi): string {
    if TruthyStr(poi.branch) then poi.nm + " " + poi.branch.value else poi.nm
  }

  /** The keys a point is stored under: none without truthy coordinates, else the full name and, with a branch, the bare name. */
  function PoiKeys(poi: Poi): seq<string> {
    if poi.lat == 0.0 || poi.lng == 0.0 then []
    else [Normalize(FullName(poi))] + (if TruthyStr(poi.branch) then [Normalize(poi.nm)] else [])
  }

  function Keys(m: seq<Entry>): (r: seq<string>)
    ensures |r| == |m|
  {
    seq(|m|, i requires 0 <= i < |m| => m[i].key)
  }

  /** `poiMap.get(k)`. */
  function Get(m: seq<Entry>, k: string): (r: Option<Spot>)
    ensures r.Some? ==> exists i | 0 <= i < |m| :: m[i].key == k && m[i].spot == r.value
    ensures r.None? ==> forall i | 0 <= i < |m| :: m[i].key != k
  {
    if m == [] then None
    else if m[0].key == k then Some(m[0].spot)
    else Get(m[1..], k)
  }

  /** `poiMap.set(k, v)`. */
  function Put(m: seq<Entry>, k: string, v: Spot): seq<Entry> {
    if m == [] then [Entry(k, v)]
    else if m[0].key == k then [Entry(k, v)] + m[1..]
    else [m[0]] + Put(m[1..], k, v)
  }

  /** After `set`, k holds the new value and every other key keeps its value. */
  lemma {:induction false} PutGet(m: seq<Entry>, k: string, v: Spot, k': string)
    ensures Get(Put(m, k, v), k') == if k' == k then Some(v) else Get(m, k')
  {
    if m != [] && m[0].key != k {
      PutGet(m[1..], k, v, k');
      var r := [m[0]] + Put(m[1..], k, v);
      assert r[1..] == Put(m[1..], k, v);
    }
  }

  /** An existing key keeps its place; a new key goes last. */
  lemma {:induction false} PutKeys(m: seq<Entry>, k: string, v: Spot)
    ensures k in Keys(m) ==> Keys(Put(m, k, v)) == Keys(m)
    ensures k !in Keys(m) ==> Keys(Put(m, k, v)) == Keys(m) + [k]
  {
    if m != [] {
      PutKeys(m[1..], k, v);
      assert Keys(m) == [m[0].key] + Keys(m[1..]);
      if m[0].key != k {
        var rest := Put(m[1..], k, v);
        assert Keys([m[0]] + rest) == [m[0].key] + Keys(rest);
      } else {
        assert Keys([Entry(k, v)] + m[1..]) == [k] + Keys(m[1..]);
      }
    }
  }

  /** The map after one point: it is found under each of its keys, and nothing else changes. */
  function PutPoi(m: seq<Entry>, poi: Poi): seq<Entry> {
    if poi.lat != 0.0 && poi.lng != 0.0 then
      var m1 := Put(m, Normalize(FullName(poi)), SpotOf(poi));
      if TruthyStr(poi.branch) then Put(m1, Normalize(poi.nm), SpotOf(poi)) else m1
    else m
  }

  lemma PutPoiGet(m: seq<Entry>, poi: Poi, k: string)
    ensures Get(PutPoi(m, poi), k) == if k in PoiKeys(poi) then Some(SpotOf(poi)) else Get(m, k)
  {
    if poi.lat != 0.0 && poi.lng != 0.0 {
      var m1 := Put(m, Normalize(FullName(poi)), SpotOf(poi));
      PutGet(m, Normalize(FullName(poi)), SpotOf(poi), k);
      if TruthyStr(poi.branch) {
        PutGet(m1, Normalize(poi.nm), SpotOf(poi), k);
      }
    }
  }

  function PutAll(m: seq<Entry>, pois: seq<Poi>): seq<Entry> {
    if pois == [] then m else PutPoi(PutAll(m, pois[..|pois| - 1]), pois[|pois| - 1])
  }

  /** The index of the last element satisfying f. */
  function LastWhere<T>(xs: seq<T>, f: T -> bool): (r: Option<nat>)
    ensures r.Some? ==> r.value < |xs|
  {
    if xs == [] then None
    else if f(xs[|xs| - 1]) then Some(|xs| - 1)
    else LastWhere(xs[..|xs| - 1], f)
  }

  lemma {:induction false} LastWhereMeaning<T>(xs: seq<T>, f: T -> bool)
    ensures LastWhere(xs, f).Some? ==> f(xs[LastWhere(xs, f).value])
    ensures LastWhere(xs, f).Some? ==> forall j | LastWhere(xs, f).value < j < |xs| :: !f(xs[j])
    ensures LastWhere(xs, f).None? ==> forall j | 0 <= j < |xs| :: !f(xs[j])
  {
    if xs != [] && !f(xs[|xs| - 1]) {
      var init := xs[..|xs| - 1];
      LastWhereMeaning(init, f);
      assert forall j | 0 <= j < |init| :: init[j] == xs[j];
    }
  }

  /** The last point stored under k. */
  function LastWith(pois: seq<Poi>, k: string): (r: Option<nat>)
    ensures r.Some? ==> r.value < |pois|
  {
    LastWhere(pois, p => k in PoiKeys(p))
  }

  lemma LastWithMeaning(pois: seq<Poi>, k: string)
    ensures LastWith(pois, k).Some? ==> k in PoiKeys(pois[LastWith(pois, k).value])
    ensures LastWith(pois, k).Some? ==> forall j | LastWith(pois, k).value < j < |pois| :: k !in PoiKeys(pois[j])
    ensures LastWith(pois, k).None? ==> forall j | 0 <= j < |pois| :: k !in PoiKeys(pois[j])
  {
    LastWhereMeaning(pois, p => k in PoiKeys(p));
  }

  /** Later points overwrite earlier ones: a key holds the spot of the last point stored under it. */
  lemma {:induction false} LastPoiWins(m: seq<Entry>, pois: seq<Poi>, k: string)
    ensures Get(PutAll(m, pois), k) == match LastWith(pois, k)
      case Some(j) => Some(SpotOf(pois[j]))
      case None => Get(m, k)
  {
    if pois != [] {
      var init := pois[..|pois| - 1];
      var last := pois[|pois| - 1];
      LastPoiWins(m, init, k);
      PutPoiGet(PutAll(m, init), last, k);
      if k !in PoiKeys(last) {
        assert LastWith(pois, k) == LastWith(init, k);
        if LastWith(init, k).Some? {
          assert init[LastWith(init, k).value] == pois[LastWith(init, k).value];
        }
      }
    }
  }

  lemma {:induction false} PutAllAppend(m: seq<Entry>, a: seq<Poi>, b: seq<Poi>)
    ensures PutAll(m, a + b) == PutAll(PutAll(m, a), b)
    decreases |b|
  {
    if b == [] {
      assert a + b == a;
    } else {
      var binit := b[..|b| - 1];
      assert (a + b)[..|a + b| - 1] == a + binit;
      PutAllAppend(m, a, binit);
    }
  }

  /** The queries made for one neighbourhood: restaurants, then cafes. */
  function FoodQuery(dong: string): string { dong + " 맛집" }
  function CafeQuery(dong: string): string { dong + " 카페" }

  /** `poiMap` for a group: the points of every query, neighbourhood by neighbourhood. */
  function PoiMap(dongs: seq<string>, search: PoiSearch): seq<Entry> {
    if dongs == [] then []
    else
      var d := dongs[|dongs| - 1];
      PutAll(PutAll(PoiMap(dongs[..|dongs| - 1], search), search(FoodQuery(d))), search(CafeQuery(d)))
  }

  /** Every point the queries return, in the order they are stored. */
  function Fetched(dongs: seq<string>, search: PoiSearch): seq<Poi> {
    if dongs == [] then []
    else
      var d := dongs[|dongs| - 1];
      Fetched(dongs[..|dongs| - 1], search) + search(FoodQuery(d)) + search(CafeQuery(d))
  }

  lemma {:induction false} PoiMapFlat(dongs: seq<string>, search: PoiSearch)
    ensures PoiMap(dongs, search) == PutAll([], Fetched(dongs, search))
  {
    if dongs != [] {
      var d := dongs[|dongs| - 1];
      var init := dongs[..|dongs| - 1];
      PoiMapFlat(init, search);
      PutAllAppend([], Fetched(init, search), search(FoodQuery(d)));
      PutAllAppend([], Fetched(init, search) + search(FoodQuery(d)), search(CafeQuery(d)));
    }
  }

  /**
   * Across all the neighbourhoods and both queries, the spot under a key is
   * that of the last point returned with that key; a key no point has is absent.
   */
  lemma LaterPoisWin(dongs: seq<string>, search: PoiSearch, k: string)
    ensures Get(PoiMap(dongs, search), k) == match LastWith(Fetched(dongs, search), k)
      case Some(j) => Some(SpotOf(Fetched(dongs, search)[j]))
      case None => None
  {
    PoiMapFlat(dongs, search);
    LastPoiWins([], Fetched(dongs, search), k);
  }

  /** One pass of the loop over the results of a query. */
  method AddPois(m0: seq<Entry>, pois: seq<Poi>) returns (m: seq<Entry>)
    ensures m == PutAll(m0, pois)
  {
    m := m0;
    for i := 0 to |pois|
      invariant m == PutAll(m0, pois[..i])
    {
      assert pois[..i + 1][..i] == pois[..i];
      var poi := pois[i];
      var fullName := FullName(poi);
      if poi.lat != 0.0 && poi.lng != 0.0 {
        m := Put(m, Normalize(fullName), SpotOf(poi));
        if TruthyStr(poi.branch) {
          m := Put(m, Normalize(poi.nm), SpotOf(poi));
        }
      }
    }
    WholePrefix(pois);
  }

  /** The loop over the neighbourhoods that fills `poiMap`. */
  method BuildPoiMap(dongs: seq<string>, search: PoiSearch) returns (m: seq<Entry>)
    ensures m == PoiMap(dongs, search)
  {
    m := [];
    for i := 0 to |dongs|
      invariant m == PoiMap(dongs[..i], search)
    {
      assert dongs[..i + 1][..i] == dongs[..i];
      var d := dongs[i];
      m := AddPois(m, search(FoodQuery(d)));
      m := AddPois(m, search(CafeQuery(d)));
    }
    WholePrefix(dongs);
  }

  // ---------------------------------------------------------------- matching

  /** Containment either way between a normalised name and a key. */
  predicate Related(norm: string, key: string) {
    Contains(norm, key) || Contains(key, norm)
  }

  /** The first entry, in insertion order, whose key is related to the name. */
  function FirstRelated(m: seq<Entry>, norm: string): (r: Option<nat>)
    ensures r.Some? ==> r.value < |m| && Related(norm, m[r.value].key)
    ensures r.Some? ==> forall j | 0 <= j < r.value :: !Related(norm, m[j].key)
    ensures r.None? ==> forall j | 0 <= j < |m| :: !Related(norm, m[j].key)
  {
    if m == [] then None
    else if Related(norm, m[0].key) then Some(0)
    else match FirstRelated(m[1..], norm)
      case Some(i) => Some(i + 1)
      case None => None
  }

  lemma SelfRelated(s: string)
    ensures Related(s, s)
  {
    assert OccursAt(s, s, 0);
  }

  /**
   * The spot a place is matched to: the exact key when present, otherwise the
   * first related key.  A place is matched exactly when some key is related
   * to its normalised name.
   */
  function Match(m: seq<Entry>, name: string): (r: Option<Spot>)
    ensures Get(m, Normalize(name)).Some? ==> r == Get(m, Normalize(name))
    ensures Get(m, Normalize(name)).None? ==> r == match FirstRelated(m, Normalize(name))
      case Some(i) => Some(m[i].spot)
      case None => None
    ensures r.None? <==> forall j | 0 <= j < |m| :: !Related(Normalize(name), m[j].key)
  {
    var norm := Normalize(name);
    var exact := Get(m, norm);
    if exact.Some? then
      SelfRelated(norm);
      exact
    else match FirstRelated(m, norm)
      case Some(i) => Some(m[i].spot)
      case None => None
  }

  /** The partial-match loop: the first related entry, in insertion order. */
  method FindPartial(m: seq<Entry>, norm: string) returns (j: Option<nat>)
    ensures j.Some? ==> j.value < |m| && Related(norm, m[j.value].key)
    ensures j.Some? ==> forall k | 0 <= k < j.value :: !Related(norm, m[k].key)
    ensures j.None? ==> forall k | 0 <= k < |m| :: !Related(norm, m[k].key)
    ensures j == FirstRelated(m, norm)
  {
    var i := 0;
    while i < |m|
      invariant 0 <= i <= |m|
      invariant forall k | 0 <= k < i :: !Related(norm, m[k].key)
    {
      if Related(norm, m[i].key) {
        return Some(i);
      }
      i := i + 1;
    }
    return None;
  }

  /** `road_addr || addr || place.address`. */
  function NewAddress(s: Spot, existing: Option<string>): (r: Option<string>)
    ensures TruthyStr(s.roadAddr) ==> r == s.roadAddr
    ensures !TruthyStr(s.roadAddr) && TruthyStr(s.addr) ==> r == s.addr
    ensures !TruthyStr(s.roadAddr) && !TruthyStr(s.addr) ==> r == existing
    ensures TruthyStr(r) <==> TruthyStr(s.roadAddr) || TruthyStr(s.addr) || TruthyStr(existing)
  {
    OrStr(OrStr(s.roadAddr, s.addr), existing)
  }

  // ---------------------------------------------------------------- updates

  function Moved(row: PlaceRow, s: Spot, address: Option<string>): PlaceRow {
    row.(lat := Some(s.lat), lng := Some(s.lng), address := address)
  }

  /** The rows after `update({ where: { id }, data: { lat, lng, address } })`. */
  function SetById(rows: seq<PlaceRow>, id: int, s: Spot, address: Option<string>): (r: seq<PlaceRow>)
    ensures |r| == |rows|
    ensures forall i | 0 <= i < |rows| :: r[i].id == rows[i].id && r[i].name == rows[i].name
  {
    seq(|rows|, i requires 0 <= i < |rows| => if rows[i].id == id then Moved(rows[i], s, address) else rows[i])
  }

  /** The crawled-place table. */
  class PlaceTable {
    var rows: seq<PlaceRow>

    constructor(rows: seq<PlaceRow>)
      ensures this.rows == rows
    {
      this.rows := rows;
    }

    method Update(id: int, s: Spot, address: Option<string>)
      modifies this
      ensures rows == SetById(old(rows), id, s, address)
    {
      rows := SetById(rows, id, s, address);
    }
  }

  /** What happens to a row whose snapshot is p. */
  function Apply(row: PlaceRow, p: PlaceRow, m: seq<Entry>): PlaceRow {
    match Match(m, p.name)
    case Some(s) => Moved(row, s, NewAddress(s, p.address))
    case None => row
  }

  /** The rows after the matching loop over one group. */
  function Repaired(rows: seq<PlaceRow>, places: seq<PlaceRow>, m: seq<Entry>): (r: seq<PlaceRow>)
    ensures |r| == |rows|
  {
    if places == [] then rows
    else
      var p := places[|places| - 1];
      var r := Repaired(rows, places[..|places| - 1], m);
      match Match(m, p.name)
      case Some(s) => SetById(r, p.id, s, NewAddress(s, p.address))
      case None => r
  }

  /** How many of the places are matched. */
  function Found(places: seq<PlaceRow>, m: seq<Entry>): (n: nat)
    ensures n <= |places|
  {
    if places == [] then 0
    else Found(places[..|places| - 1], m) + (if Match(m, places[|places| - 1].name).Some? then 1 else 0)
  }

  /** The matching loop of one group, with its `fixed` and `notFound` counters. */
  method FixGroup(table: PlaceTable, places: seq<PlaceRow>, m: seq<Entry>) returns (fixed: nat, notFound: nat)
    modifies table
    ensures table.rows == Repaired(old(table.rows), places, m)
    ensures fixed == Found(places, m)
    ensures fixed + notFound == |places|
  {
    fixed, notFound := 0, 0;
    for i := 0 to |places|
      invariant table.rows == Repaired(old(table.rows), places[..i], m)
      invariant fixed == Found(places[..i], m)
      invariant fixed + notFound == i
    {
      assert places[..i + 1][..i] == places[..i];
      var place := places[i];
      var norm := Normalize(place.name);
      var poi := Get(m, norm);
      if poi.Some? {
        table.Update(place.id, poi.value, NewAddress(poi.value, place.address));
        fixed := fixed + 1;
      } else {
        var j := FindPartial(m, norm);
        if j.Some? {
          var val := m[j.value].spot;
          table.Update(place.id, val, NewAddress(val, place.address));
          fixed := fixed + 1;
        } else {
          notFound := notFound + 1;
        }
      }
    }
    WholePrefix(places);
  }

  // ---------------------------------------------------------------- the whole script

  /** The rows after one crowded group: untouched when no neighbourhood can be read off its addresses. */
  function GroupStep(rows: seq<PlaceRow>, g: Group, search: PoiSearch): seq<PlaceRow> {
    var ds := Dongs(g.members);
    if ds == [] then rows else Repaired(rows, g.members, PoiMap(ds, search))
  }

  function Pass(rows: seq<PlaceRow>, groups: seq<Group>, search: PoiSearch): (r: seq<PlaceRow>)
    ensures |r| == |rows|
  {
    if groups == [] then rows
    else GroupStep(Pass(rows, groups[..|groups| - 1], search), groups[|groups| - 1], search)
  }

  /** What is reported for a crowded group. */
  datatype Report = NoDong(key: string) | Counted(key: string, fixed: nat, notFound: nat)

  function ReportFor(g: Group, search: PoiSearch): Report {
    var ds := Dongs(g.members);
    if ds == [] then NoDong(g.key)
    else
      var n := Found(g.members, PoiMap(ds, search));
      Counted(g.key, n, |g.members| - n)
  }

  /** One iteration of the loop over the crowded groups. */
  method FixOneGroup(table: PlaceTable, g: Group, search: PoiSearch) returns (report: Report)
    modifies table
    ensures table.rows == GroupStep(old(table.rows), g, search)
    ensures report == ReportFor(g, search)
    ensures report.Counted? ==> report.fixed + report.notFound == |g.members|
  {
    var dongs := CollectDongs(g.members);
    if dongs == [] {
      return NoDong(g.key);
    }
    var m := BuildPoiMap(dongs, search);
    var fixed, notFound := FixGroup(table, g.members, m);
    report := Counted(g.key, fixed, notFound);
  }

  /** One pass of the group loop: group i is repaired after the first i. */
  method FixStep(table: PlaceTable, ghost rows0: seq<PlaceRow>, dupes: seq<Group>, search: PoiSearch, i: nat, reports: seq<Report>)
    returns (reports': seq<Report>)
    modifies table
    requires i < |dupes| && table.rows == Pass(rows0, dupes[..i], search)
    requires |reports| == i && forall k | 0 <= k < i :: reports[k] == ReportFor(dupes[k], search)
    ensures table.rows == Pass(rows0, dupes[..i + 1], search)
    ensures |reports'| == i + 1 && forall k | 0 <= k < i + 1 :: reports'[k] == ReportFor(dupes[k], search)
  {
    assert dupes[..i + 1][..i] == dupes[..i];
    var report := FixOneGroup(table, dupes[i], search);
    reports' := reports + [report];
  }

  /** The loop over the crowded groups, in order. */
  method FixGroups(table: PlaceTable, dupes: seq<Group>, search: PoiSearch) returns (reports: seq<Report>)
    modifies table
    ensures table.rows == Pass(old(table.rows), dupes, search)
    ensures |reports| == |dupes|
    ensures forall i | 0 <= i < |dupes| :: reports[i] == ReportFor(dupes[i], search)
  {
    reports := [];
    for i := 0 to |dupes|
      invariant table.rows == Pass(old(table.rows), dupes[..i], search)
      invariant |reports| == i
      invariant forall k | 0 <= k < i :: reports[k] == ReportFor(dupes[k], search)
    {
      reports := FixStep(table, old(table.rows), dupes, search, i, reports);
    }
    WholePrefix(dupes);
  }

  /** The script: group the rows read at the start, then repair every crowded group in order. */
  method FixCoordinates(table: PlaceTable, key: CoordKey, search: PoiSearch) returns (reports: seq<Report>)
    modifies table
    ensures table.rows == Pass(old(table.rows), Crowded(Grouped(old(table.rows), key)), search)
    ensures |reports| == |Crowded(Grouped(old(table.rows), key))|
    ensures forall i | 0 <= i < |reports| :: reports[i] == ReportFor(Crowded(Grouped(old(table.rows), key))[i], search)
  {
    var all := table.rows;
    var groups := GroupByCoord(all, key);
    reports := FixGroups(table, Crowded(groups), search);
  }

  // ---------------------------------------------------------------- what the script changes

  predicate UniqueIds(rows: seq<PlaceRow>) {
    forall i, j | 0 <= i < j < |rows| :: rows[i].id != rows[j].id
  }

  predicate HasId(places: seq<PlaceRow>, id: int) {
    exists j | 0 <= j < |places| :: places[j].id == id
  }

  /** The matching loop keeps every row's id and touches only rows of the group's places. */
  lemma {:induction false} RepairedOutside(rows: seq<PlaceRow>, places: seq<PlaceRow>, m: seq<Entry>)
    ensures forall i | 0 <= i < |rows| :: Repaired(rows, places, m)[i].id == rows[i].id
    ensures forall i | 0 <= i < |rows| && !HasId(places, rows[i].id) :: Repaired(rows, places, m)[i] == rows[i]
  {
    if places != [] {
      var init := places[..|places| - 1];
      RepairedOutside(rows, init, m);
      assert forall j | 0 <= j < |init| :: init[j] == places[j];
    }
  }

  /** Each row of a group's place ends up as that place's match makes it. */
  lemma {:induction false} RepairedAt(rows: seq<PlaceRow>, places: seq<PlaceRow>, m: seq<Entry>)
    requires UniqueIds(places)
    ensures forall i, j | 0 <= i < |rows| && 0 <= j < |places| && rows[i].id == places[j].id ::
      Repaired(rows, places, m)[i] == Apply(rows[i], places[j], m)
  {
    if places != [] {
      var init := places[..|places| - 1];
      var p := places[|places| - 1];
      assert forall j | 0 <= j < |init| :: init[j] == places[j];
      RepairedAt(rows, init, m);
      RepairedOutside(rows, init, m);
      forall i, j | 0 <= i < |rows| && 0 <= j < |places| && rows[i].id == places[j].id
        ensures Repaired(rows, places, m)[i] == Apply(rows[i], places[j], m)
      {
        if j == |places| - 1 {
          assert !HasId(init, rows[i].id);
        }
      }
    }
  }

  predicate InGroups(groups: seq<Group>, id: int) {
    exists c | 0 <= c < |groups| :: HasId(groups[c].members, id)
  }

  lemma {:induction false} PassOutside(rows: seq<PlaceRow>, groups: seq<Group>, search: PoiSearch)
    ensures forall i | 0 <= i < |rows| :: Pass(rows, groups, search)[i].id == rows[i].id
    ensures forall i | 0 <= i < |rows| && !InGroups(groups, rows[i].id) :: Pass(rows, groups, search)[i] == rows[i]
  {
    if groups != [] {
      var init := groups[..|groups| - 1];
      var g := groups[|groups| - 1];
      PassOutside(rows, init, search);
      assert forall c | 0 <= c < |init| :: init[c] == groups[c];
      var ds := Dongs(g.members);
      if ds != [] {
        RepairedOutside(Pass(rows, init, search), g.members, PoiMap(ds, search));
      }
    }
  }

  /**
   * Rows without both coordinates, and rows whose coordinate is shared by
   * fewer than five rows, are never changed.
   */
  lemma Untouched(rows: seq<PlaceRow>, key: CoordKey, search: PoiSearch)
    requires UniqueIds(rows)
    ensures forall i | 0 <= i < |rows| && !(Located(rows[i]) && |Members(rows, key, KeyOf(rows[i], key))| >= 5) ::
      Pass(rows, Crowded(Grouped(rows, key)), search)[i] == rows[i]
  {
    var dupes := Crowded(Grouped(rows, key));
    PassOutside(rows, dupes, search);
    forall i | 0 <= i < |rows| && InGroups(dupes, rows[i].id)
      ensures Located(rows[i]) && |Members(rows, key, KeyOf(rows[i], key))| >= 5
    {
      var c :| 0 <= c < |dupes| && HasId(dupes[c].members, rows[i].id);
      var j :| 0 <= j < |dupes[c].members| && dupes[c].members[j].id == rows[i].id;
      var x := dupes[c].members[j];
      CrowdedMember(rows, key, dupes[c], x);
      var t :| 0 <= t < |rows| && rows[t] == x;
      assert t == i;
    }
  }

  lemma {:induction false} PassAppend(rows: seq<PlaceRow>, a: seq<Group>, b: seq<Group>, search: PoiSearch)
    ensures Pass(rows, a + b, search) == Pass(Pass(rows, a, search), b, search)
    decreases |b|
  {
    if b == [] {
      assert a + b == a;
    } else {
      var binit := b[..|b| - 1];
      assert (a + b)[..|a + b| - 1] == a + binit;
      PassAppend(rows, a, binit, search);
    }
  }

  lemma {:induction false} MembersUnique(rows: seq<PlaceRow>, key: CoordKey, k: string)
    requires UniqueIds(rows)
    ensures UniqueIds(Members(rows, key, k))
  {
    if rows != [] {
      var init := rows[..|rows| - 1];
      var p := rows[|rows| - 1];
      assert UniqueIds(init);
      MembersUnique(init, key, k);
      forall x | x in Members(init, key, k) ensures x.id != p.id {
        var t :| 0 <= t < |init| && init[t] == x;
        assert rows[t] == x;
      }
    }
  }

  lemma {:induction false} CrowdedDistinct(gs: seq<Group>)
    requires DistinctKeys(gs)
    ensures DistinctKeys(Crowded(gs))
  {
    if gs != [] {
      var rest := gs[1..];
      assert DistinctKeys(rest);
      CrowdedDistinct(rest);
      forall g | g in Crowded(rest) ensures g.key != gs[0].key {
        var t :| 0 <= t < |rest| && rest[t] == g;
        assert gs[t + 1] == g;
      }
    }
  }

  /** No row belongs to two crowded groups. */
  lemma OneGroup(rows: seq<PlaceRow>, key: CoordKey, c: nat, d: nat, x: PlaceRow)
    requires c < |Crowded(Grouped(rows, key))| && d < |Crowded(Grouped(rows, key))|
    requires x in Crowded(Grouped(rows, key))[c].members && x in Crowded(Grouped(rows, key))[d].members
    ensures c == d
  {
    var gs := Grouped(rows, key);
    var dupes := Crowded(gs);
    GroupedKeys(rows, key);
    GroupedMembers(rows, key);
    CrowdedDistinct(gs);
    var gc :| 0 <= gc < |gs| && gs[gc] == dupes[c];
    var gd :| 0 <= gd < |gs| && gs[gd] == dupes[d];
    assert x in Members(rows, key, gs[gc].key);
    assert x in Members(rows, key, gs[gd].key);
  }

  /** A crowded-group member carrying a row's id is that row. */
  lemma MemberIsRow(rows: seq<PlaceRow>, key: CoordKey, c: nat, i: nat, x: PlaceRow)
    requires UniqueIds(rows) && i < |rows|
    requires c < |Crowded(Grouped(rows, key))| && x in Crowded(Grouped(rows, key))[c].members && x.id == rows[i].id
    ensures x == rows[i]
  {
    CrowdedMember(rows, key, Crowded(Grouped(rows, key))[c], x);
    var t :| 0 <= t < |rows| && rows[t] == x;
  }

  lemma CrowdedUnique(rows: seq<PlaceRow>, key: CoordKey, c: nat)
    requires UniqueIds(rows) && c < |Crowded(Grouped(rows, key))|
    ensures UniqueIds(Crowded(Grouped(rows, key))[c].members)
  {
    var gs := Grouped(rows, key);
    GroupedMembers(rows, key);
    var gi :| 0 <= gi < |gs| && gs[gi] == Crowded(gs)[c];
    MembersUnique(rows, key, gs[gi].key);
  }

  /** The groups before and after a row's own group do not hold its id. */
  lemma OtherGroups(rows: seq<PlaceRow>, key: CoordKey, c: nat, i: nat)
    requires UniqueIds(rows) && i < |rows|
    requires c < |Crowded(Grouped(rows, key))| && rows[i] in Crowded(Grouped(rows, key))[c].members
    ensures !InGroups(Crowded(Grouped(rows, key))[..c], rows[i].id)
    ensures !InGroups(Crowded(Grouped(rows, key))[c + 1..], rows[i].id)
  {
    var dupes := Crowded(Grouped(rows, key));
    forall d, j | 0 <= d < |dupes| && d != c && 0 <= j < |dupes[d].members| ensures dupes[d].members[j].id != rows[i].id {
      var x := dupes[d].members[j];
      if x.id == rows[i].id {
        MemberIsRow(rows, key, d, i, x);
        OneGroup(rows, key, c, d, x);
      }
    }
    var a := dupes[..c];
    var b := dupes[c + 1..];
    assert forall d | 0 <= d < |a| :: a[d] == dupes[d];
    assert forall d | 0 <= d < |b| :: b[d] == dupes[c + 1 + d];
  }

  /** The step of a row's own group. */
  lemma GroupStepAt(p1: seq<PlaceRow>, g: Group, search: PoiSearch, i: nat, row: PlaceRow)
    requires i < |p1| && p1[i] == row && row in g.members && UniqueIds(g.members)
    ensures GroupStep(p1, g, search)[i].id == row.id
    ensures GroupStep(p1, g, search)[i] ==
      if Dongs(g.members) == [] then row else Apply(row, row, PoiMap(Dongs(g.members), search))
  {
    if Dongs(g.members) != [] {
      var m := PoiMap(Dongs(g.members), search);
      RepairedAt(p1, g.members, m);
      RepairedOutside(p1, g.members, m);
      var j :| 0 <= j < |g.members| && g.members[j] == row;
    }
  }

  /** A row in exactly one of the groups is changed only by that group's step. */
  lemma PassAt(rows: seq<PlaceRow>, groups: seq<Group>, search: PoiSearch, c: nat, i: nat)
    requires i < |rows| && c < |groups| && rows[i] in groups[c].members && UniqueIds(groups[c].members)
    requires !InGroups(groups[..c], rows[i].id) && !InGroups(groups[c + 1..], rows[i].id)
    ensures var g := groups[c];
      Pass(rows, groups, search)[i] ==
        if Dongs(g.members) == [] then rows[i] else Apply(rows[i], rows[i], PoiMap(Dongs(g.members), search))
  {
    var g := groups[c];
    var a := groups[..c];
    var b := groups[c + 1..];
    var ag := a + [g];
    assert groups == ag + b;
    assert ag[..|ag| - 1] == a && ag[|ag| - 1] == g;
    var p1 := Pass(rows, a, search);
    var p2 := GroupStep(p1, g, search);
    assert Pass(rows, ag, search) == p2;
    PassAppend(rows, ag, b, search);
    PassOutside(rows, a, search);
    GroupStepAt(p1, g, search, i, rows[i]);
    PassOutside(p2, b, search);
  }

  /**
   * A row of a crowded group ends up as its own match makes it: moved to the
   * matched spot's coordinates and address, or unchanged when nothing
   * matches or no neighbourhood could be read off the group's addresses.
   */
  lemma GroupRowRepaired(rows: seq<PlaceRow>, key: CoordKey, search: PoiSearch, c: nat, i: nat)
    requires UniqueIds(rows) && i < |rows|
    requires c < |Crowded(Grouped(rows, key))| && rows[i] in Crowded(Grouped(rows, key))[c].members
    ensures var g := Crowded(Grouped(rows, key))[c];
      Pass(rows, Crowded(Grouped(rows, key)), search)[i] ==
        if Dongs(g.members) == [] then rows[i] else Apply(rows[i], rows[i], PoiMap(Dongs(g.members), search))
  {
    OtherGroups(rows, key, c, i);
    CrowdedUnique(rows, key, c);
    PassAt(rows, Crowded(Grouped(rows, key)), search, c, i);
  }

  // ---------------------------------------------------------------- examples

  /** A neighbourhood followed by white space is captured whole. */
  lemma DongExample()
    ensures DongOf("서울 이태원동 123") == Some("이태원동")
  {
    var s := "서울 이태원동 123";
    assert DongEnd(s, 0).None?;
    assert DongEnd(s, 1).None?;
    assert DongEnd(s, 2).None?;
    assert RunEnd(s, 3, IsHangul) == 7;
    assert DongEnd(s, 3) == Some(7);
    assert FirstDong(s, 0) == FirstDong(s, 3) == Some(Span(3, 7));
    assert s[3..7] == "이태원동";
  }

  /** Without white space after 동 nothing is captured. */
  lemma DongNeedsSpace()
    ensures DongOf("한남동123") == None
  {
    var s := "한남동123";
    forall e | 0 <= e < |s| ensures !IsSpace(s[e]) {
    }
    assert forall i: nat, e: nat :: !MatchesAt(s, i, e);
  }
}
