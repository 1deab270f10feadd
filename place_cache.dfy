/**
 * The cache of crawled places: a read that filters stored places by age and
 * by a bounding box, and an upsert that saves merged places by exact name,
 * with one source row per (place, source).
 */
module PlaceCache {
  import opened Wrappers
  import opened Crawl

  // ---------------------------------------------------------------- reading

  /** A map viewport: south-west and north-east corners. */
  datatype Bounds = Bounds(swLat: real, swLng: real, neLat: real, neLng: real)

  /** A source row as the query returns it. */
  datatype CachedSource = CachedSource(
    source: string,
    sourceUrl: Option<string>,
    rating: Option<real>,
    reviewCount: Option<int>,
    snippet: Option<string>,
    metadata: Option<string>)

  /** A stored place with its source rows, in the order the query returns them; times are in milliseconds. */
  datatype CachedPlace = CachedPlace(
    name: string,
    category: Option<string>,
    description: Option<string>,
    address: Option<string>,
    lat: Option<real>,
    lng: Option<real>,
    tags: Option<string>,
    updatedAt: int,
    sources: seq<CachedSource>)

  const MillisPerHour: int := 60 * 60 * 1000

  /** The query's condition: recent enough, both coordinates present, and inside the bounds when given (inclusive). */
  predicate Selected(p: CachedPlace, bounds: Option<Bounds>, maxAgeHours: int, now: int) {
    p.updatedAt >= now - maxAgeHours * MillisPerHour
    && p.lat.Some? && p.lng.Some?
    && (bounds.Some? ==>
          bounds.value.swLat <= p.lat.value <= bounds.value.neLat
          && bounds.value.swLng <= p.lng.value <= bounds.value.neLng)
  }

  /** Index of the first source row named "diningcode", or |sources|. */
  function DiningCodeIndex(sources: seq<CachedSource>, i: nat): (k: nat)
    requires i <= |sources|
    ensures i <= k <= |sources|
    ensures k < |sources| ==> sources[k].source == "diningcode"
    ensures forall j | i <= j < k :: sources[j].source != "diningcode"
    decreases |sources| - i
  {
    if i == |sources| || sources[i].source == "diningcode" then i else DiningCodeIndex(sources, i + 1)
  }

  /** The source row a cached result takes its details from: the first (TypeScript); the DiningCode row, else the first (Python). */
  function Primary(lang: Lang, sources: seq<CachedSource>): Option<CachedSource> {
    if sources == [] then None
    else if lang == Py && DiningCodeIndex(sources, 0) < |sources| then Some(sources[DiningCodeIndex(sources, 0)])
    else Some(sources[0])
  }

  /** A cached place as a crawled record; the source is "cache" when the place has no source row. */
  function Project(lang: Lang, p: CachedPlace): (r: Raw) {
    var primary := Primary(lang, p.sources);
    var dc := DiningCodeIndex(p.sources, 0);
    Raw(p.name, p.category, p.description, p.address, p.lat, p.lng,
        if primary.Some? then primary.value.rating else None,
        if primary.Some? then primary.value.reviewCount else None,
        Some(if primary.Some? then primary.value.source else "cache"),
        if primary.Some? then primary.value.sourceUrl else None,
        if primary.Some? then primary.value.snippet else None,
        p.tags,
        if lang == Py && dc < |p.sources| then p.sources[dc].metadata else None)
  }

  /** The places the query selects, in the order it returns them. */
  function Selection(rows: seq<CachedPlace>, bounds: Option<Bounds>, maxAgeHours: int, now: int): (r: seq<CachedPlace>)
    ensures |r| <= |rows|
  {
    if rows == [] then []
    else
      var rest := Selection(rows[..|rows| - 1], bounds, maxAgeHours, now);
      if Selected(rows[|rows| - 1], bounds, maxAgeHours, now) then rest + [rows[|rows| - 1]] else rest
  }

  /**
   * `findCachedPlaces` / `find_cached_places`: the query's rows are
   * projected one by one, in order.
   */
  method FindCachedPlaces(lang: Lang, rows: seq<CachedPlace>, bounds: Option<Bounds>, maxAgeHours: int, now: int)
    returns (r: seq<Raw>)
    ensures |r| == |Selection(rows, bounds, maxAgeHours, now)|
    ensures forall i | 0 <= i < |r| :: r[i] == Project(lang, Selection(rows, bounds, maxAgeHours, now)[i])
  {
    r := [];
    var i := 0;
    while i < |rows|
      invariant 0 <= i <= |rows|
      invariant r == ProjectAll(lang, Selection(rows[..i], bounds, maxAgeHours, now))
    {
      ghost var sel := Selection(rows[..i], bounds, maxAgeHours, now);
      SelectionStep(rows, i, bounds, maxAgeHours, now);
      if Selected(rows[i], bounds, maxAgeHours, now) {
        ProjectAllSnoc(lang, sel, rows[i]);
        r := r + [Project(lang, rows[i])];
      }
      i := i + 1;
    }
    assert rows[..i] == rows;
  }

  /** Every row projected, in order. */
  function ProjectAll(lang: Lang, s: seq<CachedPlace>): (r: seq<Raw>)
    ensures |r| == |s| && forall i | 0 <= i < |s| :: r[i] == Project(lang, s[i])
  {
    seq(|s|, i requires 0 <= i < |s| => Project(lang, s[i]))
  }

  lemma ProjectAllSnoc(lang: Lang, s: seq<CachedPlace>, p: CachedPlace)
    ensures ProjectAll(lang, s + [p]) == ProjectAll(lang, s) + [Project(lang, p)]
  {
    assert forall i | 0 <= i < |s| :: (s + [p])[i] == s[i];
  }

  lemma SelectionStep(rows: seq<CachedPlace>, i: nat, bounds: Option<Bounds>, maxAgeHours: int, now: int)
    requires i < |rows|
    ensures Selection(rows[..i + 1], bounds, maxAgeHours, now)
      == Selection(rows[..i], bounds, maxAgeHours, now) + (if Selected(rows[i], bounds, maxAgeHours, now) then [rows[i]] else [])
  {
    assert rows[..i + 1][..i] == rows[..i];
  }

  /** The selection keeps exactly the rows meeting the condition, in their order. */
  lemma {:induction false} SelectionExact(rows: seq<CachedPlace>, bounds: Option<Bounds>, maxAgeHours: int, now: int)
    ensures var s := Selection(rows, bounds, maxAgeHours, now);
      (forall i | 0 <= i < |s| :: Selected(s[i], bounds, maxAgeHours, now) && s[i] in rows)
      && (forall p | p in rows && Selected(p, bounds, maxAgeHours, now) :: p in s)
  {
    if rows != [] {
      var init := rows[..|rows| - 1];
      SelectionExact(init, bounds, maxAgeHours, now);
      assert rows == init + [rows[|rows| - 1]];
      forall p | p in rows && Selected(p, bounds, maxAgeHours, now)
        ensures p in Selection(rows, bounds, maxAgeHours, now)
      {
        if p != rows[|rows| - 1] {
          assert p in init;
        }
      }
    }
  }

  /** What a cached result carries over: the place's own fields, and the primary source's details or "cache". */
  lemma ProjectFields(lang: Lang, p: CachedPlace)
    ensures var r := Project(lang, p);
      r.name == p.name && r.lat == p.lat && r.lng == p.lng && r.address == p.address && r.tags == p.tags
      && (p.sources == [] ==> r.source == Some("cache") && r.rating.None? && r.reviewCount.None?
                                && r.sourceUrl.None? && r.snippet.None? && r.metadata.None?)
      && (lang == TS && p.sources != [] ==>
            r.source == Some(p.sources[0].source) && r.rating == p.sources[0].rating && r.metadata.None?)
      && (lang == Py && r.metadata.Some? ==>
            exists j | 0 <= j < |p.sources| :: p.sources[j].source == "diningcode" && r.metadata == p.sources[j].metadata)
  {
    if lang == Py && Project(lang, p).metadata.Some? {
      var j := DiningCodeIndex(p.sources, 0);
      assert p.sources[j].source == "diningcode";
    }
  }

  // ---------------------------------------------------------------- saving

  /** One source of a merged place, as the save receives it. */
  datatype SaveSource = SaveSource(
    source: string,
    sourceUrl: Option<string>,
    rating: Option<real>,
    reviewCount: Option<int>,
    snippet: Option<string>,
    metadata: Option<string>)

  /** A merged place to save; only the Python port reads `placeType`. */
  datatype SaveItem = SaveItem(
    name: string,
    category: Option<string>,
    description: Option<string>,
    address: Option<string>,
    lat: Option<real>,
    lng: Option<real>,
    tags: Option<string>,
    placeType: Option<string>,
    sources: seq<SaveSource>)

  /** A stored source row; (place, source) is unique, so the rows of a place are keyed by source. */
  datatype SourceRow = SourceRow(
    sourceUrl: Option<string>,
    rating: Option<real>,
    reviewCount: Option<int>,
    snippet: Option<string>,
    metadata: Option<string>,
    crawledAt: int)

  /** A stored place with its source rows. */
  datatype StoredPlace = StoredPlace(
    name: string,
    category: Option<string>,
    description: Option<string>,
    address: Option<string>,
    lat: Option<real>,
    lng: Option<real>,
    tags: Option<string>,
    placeType: Option<string>,
    updatedAt: int,
    sources: map<string, SourceRow>)

  /** The stored places, keyed by name. */
  type Store = map<string, StoredPlace>

  const EmptyRow: SourceRow := SourceRow(None, None, None, None, None, 0)

  /** Whether an incoming value replaces a stored one: when present (`??`) in TypeScript, when truthy in Python. */
  predicate GivenStr(lang: Lang, v: Option<string>) {
    if lang == TS then v.Some? else TruthyStr(v)
  }

  predicate GivenNum(lang: Lang, v: Option<real>) {
    if lang == TS then v.Some? else TruthyNum(v)
  }

  function PickStr(lang: Lang, incoming: Option<string>, stored: Option<string>): Option<string> {
    if GivenStr(lang, incoming) then incoming else stored
  }

  function PickNum(lang: Lang, incoming: Option<real>, stored: Option<real>): Option<real> {
    if GivenNum(lang, incoming) then incoming else stored
  }

  /**
   * A source row after an upsert (a new row is an update of the empty row):
   * TypeScript leaves the fields the source does not carry as they were and
   * never writes metadata; Python overwrites every field.
   */
  function RowUpdate(lang: Lang, row: SourceRow, s: SaveSource, now: int): SourceRow {
    if lang == TS then
      SourceRow(Coalesce(s.sourceUrl, row.sourceUrl), Coalesce(s.rating, row.rating),
                Coalesce(s.reviewCount, row.reviewCount), Coalesce(s.snippet, row.snippet), row.metadata, now)
    else
      SourceRow(s.sourceUrl, s.rating, s.reviewCount, s.snippet, s.metadata, now)
  }

  /** The row stored under a source, if any. */
  function RowAt(rows: map<string, SourceRow>, k: string): Option<SourceRow> {
    if k in rows then Some(rows[k]) else None
  }

  /** Upsert of one source row on (place, source). */
  function UpsertSource(lang: Lang, rows: map<string, SourceRow>, s: SaveSource, now: int): map<string, SourceRow> {
    rows[s.source := RowUpdate(lang, RowAt(rows, s.source).GetOr(EmptyRow), s, now)]
  }

  /** The upserts of a place's sources, one after the other. */
  function UpsertSources(lang: Lang, rows: map<string, SourceRow>, srcs: seq<SaveSource>, now: int): map<string, SourceRow>
  {
    if srcs == [] then rows
    else UpsertSource(lang, UpsertSources(lang, rows, srcs[..|srcs| - 1], now), srcs[|srcs| - 1], now)
  }

  /** No two sources of the place have the same name. */
  predicate DistinctSources(srcs: seq<SaveSource>) {
    forall i, j | 0 <= i < j < |srcs| :: srcs[i].source != srcs[j].source
  }

  /** An existing place after the update: given fields replace, the rest are kept, the clock is refreshed. */
  function UpdatePlace(lang: Lang, r: StoredPlace, x: SaveItem, now: int): StoredPlace {
    r.(category := PickStr(lang, x.category, r.category),
       description := PickStr(lang, x.description, r.description),
       address := PickStr(lang, x.address, r.address),
       lat := PickNum(lang, x.lat, r.lat),
       lng := PickNum(lang, x.lng, r.lng),
       tags := PickStr(lang, x.tags, r.tags),
       placeType := if lang == Py && TruthyStr(x.placeType) then x.placeType else r.placeType,
       updatedAt := now,
       sources := UpsertSources(lang, r.sources, x.sources, now))
  }

  /** A new place with the item's fields and a row per source; TypeScript stores no place type. */
  function CreatePlace(lang: Lang, x: SaveItem, now: int): StoredPlace {
    StoredPlace(x.name, x.category, x.description, x.address, x.lat, x.lng, x.tags,
                if lang == Py then x.placeType else None, now, UpsertSources(lang, map[], x.sources, now))
  }

  /**
   * Saving one place: update the place of that exact name, or create it.
   * Creating with two sources of the same name violates the (place, source)
   * uniqueness; the error is caught and nothing of that place is stored.
   */
  function SaveOne(lang: Lang, store: Store, x: SaveItem, now: int): Store {
    if x.name in store then store[x.name := UpdatePlace(lang, store[x.name], x, now)]
    else if DistinctSources(x.sources) then store[x.name := CreatePlace(lang, x, now)]
    else store
  }

  /** Saving a list: every place in turn, a failing one included. */
  function SaveAll(lang: Lang, store: Store, items: seq<SaveItem>, now: int): Store {
    if items == [] then store
    else SaveOne(lang, SaveAll(lang, store, items[..|items| - 1], now), items[|items| - 1], now)
  }

  /** Each stored place sits under its own name. */
  predicate Keyed(store: Store) {
    forall n | n in store :: store[n].name == n
  }

  /** The database of crawled places and their source rows. */
  class PlaceStore {
    var places: Store

    ghost predicate Valid()
      reads this
    {
      Keyed(places)
    }

    constructor ()
      ensures places == map[] && Valid()
    {
      places := map[];
    }

    /** `saveCrawledPlaces` / `save_crawled_places`. */
    method SaveCrawledPlaces(lang: Lang, items: seq<SaveItem>, now: int)
      requires Valid()
      modifies this
      ensures Valid()
      ensures places == SaveAll(lang, old(places), items, now)
    {
      var i := 0;
      while i < |items|
        invariant 0 <= i <= |items|
        invariant places == SaveAll(lang, old(places), items[..i], now)
        invariant Keyed(places)
      {
        assert items[..i + 1][..i] == items[..i];
        var x := items[i];
        if x.name in places {
          var rows := UpsertRows(lang, places[x.name].sources, x.sources, now);
          places := places[x.name := UpdatePlace(lang, places[x.name], x, now).(sources := rows)];
        } else {
          var rows, ok := CreateRows(lang, x.sources, now);
          if ok {
            places := places[x.name := CreatePlace(lang, x, now).(sources := rows)];
          }
        }
        i := i + 1;
      }
      assert items[..i] == items;
    }
  }

  /** The source upserts of an existing place, one after the other. */
  method UpsertRows(lang: Lang, rows: map<string, SourceRow>, srcs: seq<SaveSource>, now: int)
    returns (r: map<string, SourceRow>)
    ensures r == UpsertSources(lang, rows, srcs, now)
  {
    r := rows;
    var i := 0;
    while i < |srcs|
      invariant 0 <= i <= |srcs|
      invariant r == UpsertSources(lang, rows, srcs[..i], now)
    {
      assert srcs[..i + 1][..i] == srcs[..i];
      var s := srcs[i];
      var row := if s.source in r then r[s.source] else EmptyRow;
      r := r[s.source := RowUpdate(lang, row, s, now)];
      i := i + 1;
    }
    assert srcs[..i] == srcs;
  }

  /** The source rows of a new place; fails on the first source name used twice. */
  method CreateRows(lang: Lang, srcs: seq<SaveSource>, now: int)
    returns (rows: map<string, SourceRow>, ok: bool)
    ensures ok == DistinctSources(srcs)
    ensures ok ==> rows == UpsertSources(lang, map[], srcs, now)
  {
    rows := map[];
    var i := 0;
    while i < |srcs|
      invariant 0 <= i <= |srcs|
      invariant DistinctSources(srcs[..i])
      invariant rows == UpsertSources(lang, map[], srcs[..i], now)
      invariant rows.Keys == set j | 0 <= j < i :: srcs[j].source
    {
      assert srcs[..i + 1][..i] == srcs[..i];
      var s := srcs[i];
      if s.source in rows {
        var j :| 0 <= j < i && srcs[j].source == s.source;
        return rows, false;
      }
      rows := rows[s.source := RowUpdate(lang, EmptyRow, s, now)];
      i := i + 1;
    }
    assert srcs[..i] == srcs;
    ok := true;
  }

  // ---------------------------------------------------------------- lemmas: one save

  /**
   * Saving one place touches only the place of that name; a new place is
   * stored exactly when its source names are distinct, and whatever is stored
   * under the name has just been refreshed.
   */
  lemma SaveOneFrame(lang: Lang, store: Store, x: SaveItem, now: int)
    ensures var s' := SaveOne(lang, store, x, now);
      (forall n | n != x.name :: (n in s' <==> n in store) && (n in store ==> s'[n] == store[n]))
      && (x.name in s' <==> x.name in store || DistinctSources(x.sources))
      && (x.name in s' ==> s'[x.name].updatedAt == now)
  {
  }

  /**
   * An update never loses a value: a field that was present (TypeScript) or
   * truthy (Python) stays so, and each field ends as the stored or the
   * incoming value.  In TypeScript the place type is never written.
   */
  lemma UpdateNeverErases(lang: Lang, r: StoredPlace, x: SaveItem, now: int)
    ensures var u := UpdatePlace(lang, r, x, now);
      (GivenStr(lang, r.category) ==> GivenStr(lang, u.category)) && u.category in {r.category, x.category}
      && (GivenStr(lang, r.description) ==> GivenStr(lang, u.description)) && u.description in {r.description, x.description}
      && (GivenStr(lang, r.address) ==> GivenStr(lang, u.address)) && u.address in {r.address, x.address}
      && (GivenNum(lang, r.lat) ==> GivenNum(lang, u.lat)) && u.lat in {r.lat, x.lat}
      && (GivenNum(lang, r.lng) ==> GivenNum(lang, u.lng)) && u.lng in {r.lng, x.lng}
      && (GivenStr(lang, r.tags) ==> GivenStr(lang, u.tags)) && u.tags in {r.tags, x.tags}
      && (lang == TS ==> u.placeType == r.placeType)
      && (lang == Py ==> (TruthyStr(x.placeType) ==> u.placeType == x.placeType) && (!TruthyStr(x.placeType) ==> u.placeType == r.placeType))
  {
  }

  /** The last of the sources with a given name, if any. */
  function EntryFor(srcs: seq<SaveSource>, k: string): (e: Option<SaveSource>)
    ensures e.Some? ==> e.value.source == k && e.value in srcs
    ensures e.None? ==> forall i | 0 <= i < |srcs| :: srcs[i].source != k
  {
    if srcs == [] then None
    else if srcs[|srcs| - 1].source == k then Some(srcs[|srcs| - 1])
    else EntryFor(srcs[..|srcs| - 1], k)
  }

  /**
   * The rows after the upserts, source by source: a source the place does
   * not mention keeps its row (or its absence); a mentioned source holds its
   * row updated by that source, a new row when there was none.
   */
  lemma {:induction false} UpsertAt(lang: Lang, rows: map<string, SourceRow>, srcs: seq<SaveSource>, now: int, k: string)
    requires DistinctSources(srcs)
    ensures RowAt(UpsertSources(lang, rows, srcs, now), k) ==
      match EntryFor(srcs, k)
      case None => RowAt(rows, k)
      case Some(s) => Some(RowUpdate(lang, RowAt(rows, k).GetOr(EmptyRow), s, now))
  {
    if srcs != [] {
      var init := srcs[..|srcs| - 1];
      assert DistinctSources(init);
      UpsertAt(lang, rows, init, now, k);
      if srcs[|srcs| - 1].source == k {
        assert EntryFor(init, k).None?;
      }
    }
  }

  /**
   * The upsert of (place, source) rows: every mentioned source has a row
   * stamped now, unmentioned rows are untouched, no other row appears, and in
   * Python the row holds exactly what the source carried.
   */
  lemma UpsertSourcesEffect(lang: Lang, rows: map<string, SourceRow>, srcs: seq<SaveSource>, now: int)
    requires DistinctSources(srcs)
    ensures var r := UpsertSources(lang, rows, srcs, now);
      r.Keys == rows.Keys + (set i | 0 <= i < |srcs| :: srcs[i].source)
      && (forall k | k in rows && forall i | 0 <= i < |srcs| :: srcs[i].source != k :: r[k] == rows[k])
      && (forall i | 0 <= i < |srcs| :: r[srcs[i].source].crawledAt == now)
      && (lang == Py ==> forall i | 0 <= i < |srcs| ::
            r[srcs[i].source] == SourceRow(srcs[i].sourceUrl, srcs[i].rating, srcs[i].reviewCount,
                                           srcs[i].snippet, srcs[i].metadata, now))
  {
    var r := UpsertSources(lang, rows, srcs, now);
    forall k
      ensures k in r <==> k in rows || exists i | 0 <= i < |srcs| :: srcs[i].source == k
    {
      UpsertAt(lang, rows, srcs, now, k);
    }
    forall k | k in rows && forall i | 0 <= i < |srcs| :: srcs[i].source != k
      ensures r[k] == rows[k]
    {
      UpsertAt(lang, rows, srcs, now, k);
    }
    forall i | 0 <= i < |srcs|
      ensures r[srcs[i].source].crawledAt == now
      ensures lang == Py ==> r[srcs[i].source] == SourceRow(srcs[i].sourceUrl, srcs[i].rating, srcs[i].reviewCount,
                                                            srcs[i].snippet, srcs[i].metadata, now)
    {
      UpsertAt(lang, rows, srcs, now, srcs[i].source);
      var e := EntryFor(srcs, srcs[i].source);
      var j :| 0 <= j < |srcs| && srcs[j] == e.value;
      assert i == j;
    }
  }

  /** TypeScript upserts never write a row's metadata: it stays as stored, and new rows have none. */
  lemma {:induction false} TsRowsKeepMetadata(rows: map<string, SourceRow>, srcs: seq<SaveSource>, now: int)
    ensures var r := UpsertSources(TS, rows, srcs, now);
      rows.Keys <= r.Keys && forall k | k in r :: r[k].metadata == (if k in rows then rows[k].metadata else None)
  {
    if srcs != [] {
      TsRowsKeepMetadata(rows, srcs[..|srcs| - 1], now);
    }
  }

  /** The TypeScript save never writes a place type: stored places keep theirs, new places have none. */
  lemma {:induction false} TsNeverWritesType(store: Store, items: seq<SaveItem>, now: int)
    ensures var s' := SaveAll(TS, store, items, now);
      (forall n | n in store :: n in s')
      && forall n | n in s' :: s'[n].placeType == (if n in store then store[n].placeType else None)
  {
    if items != [] {
      TsNeverWritesType(store, items[..|items| - 1], now);
    }
  }

  /** The TypeScript save never writes a source's metadata: stored rows keep theirs, new rows have none. */
  lemma {:induction false} TsNeverWritesMetadata(store: Store, items: seq<SaveItem>, now: int)
    ensures var s' := SaveAll(TS, store, items, now);
      (forall n | n in store :: n in s' && store[n].sources.Keys <= s'[n].sources.Keys)
      && forall n | n in s' :: forall k | k in s'[n].sources ::
           s'[n].sources[k].metadata == (if n in store && k in store[n].sources then store[n].sources[k].metadata else None)
  {
    if items != [] {
      var x := items[|items| - 1];
      var prev := SaveAll(TS, store, items[..|items| - 1], now);
      TsNeverWritesMetadata(store, items[..|items| - 1], now);
      if x.name in prev {
        TsRowsKeepMetadata(prev[x.name].sources, x.sources, now);
      } else {
        TsRowsKeepMetadata(map[], x.sources, now);
      }
    }
  }

  /** After a save, every place of the list that is stored carries the save's clock reading. */
  lemma {:induction false} SavedAreFresh(lang: Lang, store: Store, items: seq<SaveItem>, now: int)
    ensures var s' := SaveAll(lang, store, items, now);
      forall i | 0 <= i < |items| && items[i].name in s' :: s'[items[i].name].updatedAt == now
  {
    if items != [] {
      var init := items[..|items| - 1];
      SavedAreFresh(lang, store, init, now);
      var prev := SaveAll(lang, store, init, now);
      var s' := SaveAll(lang, store, items, now);
      forall i | 0 <= i < |items| && items[i].name in s'
        ensures s'[items[i].name].updatedAt == now
      {
        if i < |items| - 1 && items[i].name != items[|items| - 1].name {
          assert init[i] == items[i];
        }
      }
    }
  }

  // ---------------------------------------------------------------- lemmas: saving twice

  /** Two row maps with the same row (or absence) under every source are equal. */
  lemma RowsExt(a: map<string, SourceRow>, b: map<string, SourceRow>)
    requires forall k :: RowAt(a, k) == RowAt(b, k)
    ensures a == b
  {
    assert a.Keys == b.Keys by {
      forall k ensures k in a <==> k in b {
        assert RowAt(a, k) == RowAt(b, k);
      }
    }
    forall k | k in a ensures a[k] == b[k] {
      assert RowAt(a, k) == RowAt(b, k);
    }
  }

  /** Upserting the same sources again changes nothing. */
  lemma RowsIdem(lang: Lang, rows: map<string, SourceRow>, xs: seq<SaveSource>, now: int)
    requires DistinctSources(xs)
    ensures UpsertSources(lang, UpsertSources(lang, rows, xs, now), xs, now) == UpsertSources(lang, rows, xs, now)
  {
    var once := UpsertSources(lang, rows, xs, now);
    forall k ensures RowAt(UpsertSources(lang, once, xs, now), k) == RowAt(once, k) {
      UpsertAt(lang, once, xs, now, k);
      UpsertAt(lang, rows, xs, now, k);
    }
    RowsExt(UpsertSources(lang, once, xs, now), once);
  }

  /**
   * Rows that the sources xs bring to the same state still agree after xs
   * once other sources ys have come in between.
   */
  lemma RowsCong(lang: Lang, b: map<string, SourceRow>, c: map<string, SourceRow>, xs: seq<SaveSource>, ys: seq<SaveSource>, now: int)
    requires DistinctSources(xs) && DistinctSources(ys)
    requires UpsertSources(lang, b, xs, now) == UpsertSources(lang, c, xs, now)
    ensures UpsertSources(lang, UpsertSources(lang, b, ys, now), xs, now)
         == UpsertSources(lang, UpsertSources(lang, c, ys, now), xs, now)
  {
    var b' := UpsertSources(lang, b, ys, now);
    var c' := UpsertSources(lang, c, ys, now);
    forall k ensures RowAt(UpsertSources(lang, b', xs, now), k) == RowAt(UpsertSources(lang, c', xs, now), k) {
      UpsertAt(lang, b', xs, now, k);
      UpsertAt(lang, c', xs, now, k);
      UpsertAt(lang, b, ys, now, k);
      UpsertAt(lang, c, ys, now, k);
      UpsertAt(lang, b, xs, now, k);
      UpsertAt(lang, c, xs, now, k);
    }
    RowsExt(UpsertSources(lang, b', xs, now), UpsertSources(lang, c', xs, now));
  }

  /** Updating a place twice with the same item is updating it once. */
  lemma PlaceIdem(lang: Lang, r: StoredPlace, x: SaveItem, now: int)
    requires DistinctSources(x.sources)
    ensures UpdatePlace(lang, UpdatePlace(lang, r, x, now), x, now) == UpdatePlace(lang, r, x, now)
  {
    RowsIdem(lang, r.sources, x.sources, now);
  }

  /** Updating a place just created from an item with that item changes nothing. */
  lemma CreateIdem(lang: Lang, x: SaveItem, now: int)
    requires DistinctSources(x.sources)
    ensures UpdatePlace(lang, CreatePlace(lang, x, now), x, now) == CreatePlace(lang, x, now)
  {
    RowsIdem(lang, map[], x.sources, now);
  }

  /** Places that x brings to the same state still agree after x once y has come in between. */
  lemma PlaceCong(lang: Lang, b: StoredPlace, c: StoredPlace, x: SaveItem, y: SaveItem, now: int)
    requires DistinctSources(x.sources) && DistinctSources(y.sources)
    requires UpdatePlace(lang, b, x, now) == UpdatePlace(lang, c, x, now)
    ensures UpdatePlace(lang, UpdatePlace(lang, b, y, now), x, now) == UpdatePlace(lang, UpdatePlace(lang, c, y, now), x, now)
  {
    assert UpdatePlace(lang, b, x, now).sources == UpdatePlace(lang, c, x, now).sources;
    RowsCong(lang, b.sources, c.sources, x.sources, y.sources, now);
  }

  /** The place stored under a name, if any. */
  function At(store: Store, n: string): Option<StoredPlace> {
    if n in store then Some(store[n]) else None
  }

  /** What saving x does to the place stored under x's name. */
  function StepAt(lang: Lang, p: Option<StoredPlace>, x: SaveItem, now: int): Option<StoredPlace> {
    if p.Some? then Some(UpdatePlace(lang, p.value, x, now))
    else if DistinctSources(x.sources) then Some(CreatePlace(lang, x, now))
    else None
  }

  /** What saving a list does to the place stored under the name n. */
  function StepsAt(lang: Lang, p: Option<StoredPlace>, n: string, items: seq<SaveItem>, now: int): Option<StoredPlace> {
    if items == [] then p
    else
      var q := StepsAt(lang, p, n, items[..|items| - 1], now);
      if items[|items| - 1].name == n then StepAt(lang, q, items[|items| - 1], now) else q
  }

  /** Every item's source names are distinct (as the merge step guarantees). */
  predicate AllDistinct(items: seq<SaveItem>) {
    forall i | 0 <= i < |items| :: DistinctSources(items[i].sources)
  }

  /** The place under a name after saving a list depends only on that place and the items of that name. */
  lemma {:induction false} SaveAllAt(lang: Lang, store: Store, items: seq<SaveItem>, now: int, n: string)
    ensures At(SaveAll(lang, store, items, now), n) == StepsAt(lang, At(store, n), n, items, now)
  {
    if items != [] {
      SaveAllAt(lang, store, items[..|items| - 1], now, n);
    }
  }

  lemma {:induction false} StepsKeepSome(lang: Lang, p: Option<StoredPlace>, n: string, items: seq<SaveItem>, now: int)
    requires p.Some?
    ensures StepsAt(lang, p, n, items, now).Some?
  {
    if items != [] {
      StepsKeepSome(lang, p, n, items[..|items| - 1], now);
    }
  }

  /** Items that create nothing under n from an empty slot have no item of that name, so they leave any slot alone. */
  lemma {:induction false} StepsUntouched(lang: Lang, q: Option<StoredPlace>, n: string, items: seq<SaveItem>, now: int)
    requires AllDistinct(items)
    requires StepsAt(lang, None, n, items, now) == None
    ensures StepsAt(lang, q, n, items, now) == q
  {
    if items != [] {
      var init := items[..|items| - 1];
      assert StepsAt(lang, None, n, init, now) == None;
      StepsUntouched(lang, q, n, init, now);
    }
  }

  /** Slots that x brings to the same place still agree after x once the items have come in between. */
  lemma {:induction false} StepsCong(lang: Lang, b: StoredPlace, c: StoredPlace, x: SaveItem, n: string, items: seq<SaveItem>, now: int)
    requires AllDistinct(items) && DistinctSources(x.sources)
    requires UpdatePlace(lang, b, x, now) == UpdatePlace(lang, c, x, now)
    ensures StepAt(lang, StepsAt(lang, Some(b), n, items, now), x, now) == StepAt(lang, StepsAt(lang, Some(c), n, items, now), x, now)
  {
    if items != [] {
      var init := items[..|items| - 1];
      var y := items[|items| - 1];
      StepsCong(lang, b, c, x, n, init, now);
      StepsKeepSome(lang, Some(b), n, init, now);
      StepsKeepSome(lang, Some(c), n, init, now);
      if y.name == n {
        var b' := StepsAt(lang, Some(b), n, init, now).value;
        var c' := StepsAt(lang, Some(c), n, init, now).value;
        PlaceCong(lang, b', c', x, y, now);
      }
    }
  }

  /** Saving the items a second time leaves the slot under n as the first time did. */
  lemma {:induction false} StepsTwice(lang: Lang, p: Option<StoredPlace>, n: string, items: seq<SaveItem>, now: int)
    requires AllDistinct(items)
    ensures StepsAt(lang, StepsAt(lang, p, n, items, now), n, items, now) == StepsAt(lang, p, n, items, now)
  {
    if items != [] {
      var init := items[..|items| - 1];
      var x := items[|items| - 1];
      var a := StepsAt(lang, p, n, init, now);
      StepsTwice(lang, p, n, init, now);
      if x.name == n {
        var t := StepAt(lang, a, x, now);
        if a.Some? {
          PlaceIdem(lang, a.value, x, now);
          StepsCong(lang, UpdatePlace(lang, a.value, x, now), a.value, x, n, init, now);
        } else {
          StepsUntouched(lang, t, n, init, now);
          CreateIdem(lang, x, now);
        }
      }
    }
  }

  /**
   * Saving the same list twice (at the same clock reading) leaves the same
   * places and source rows as saving it once, provided every item names
   * each of its sources once.
   */
  lemma SaveTwice(lang: Lang, store: Store, items: seq<SaveItem>, now: int)
    requires AllDistinct(items)
    ensures SaveAll(lang, SaveAll(lang, store, items, now), items, now) == SaveAll(lang, store, items, now)
  {
    var once := SaveAll(lang, store, items, now);
    var twice := SaveAll(lang, once, items, now);
    forall n ensures At(twice, n) == At(once, n) {
      SaveAllAt(lang, once, items, now, n);
      SaveAllAt(lang, store, items, now, n);
      StepsTwice(lang, At(store, n), n, items, now);
    }
    assert twice.Keys == once.Keys by {
      forall n ensures n in twice <==> n in once {
        assert At(twice, n) == At(once, n);
      }
    }
    forall n | n in once ensures twice[n] == once[n] {
      assert At(twice, n) == At(once, n);
    }
  }

  // ---------------------------------------------------------------- lemmas: the clock

  /** The rows with their timestamps blanked. */
  function EraseRows(rows: map<string, SourceRow>): map<string, SourceRow> {
    map k | k in rows :: rows[k].(crawledAt := 0)
  }

  /** A place with its timestamps blanked. */
  function ErasePlace(p: StoredPlace): StoredPlace {
    p.(updatedAt := 0, sources := EraseRows(p.sources))
  }

  /** The store with its timestamps blanked. */
  function EraseStore(store: Store): Store {
    map n | n in store :: ErasePlace(store[n])
  }

  lemma EraseRowsUpdate(rows: map<string, SourceRow>, k: string, v: SourceRow)
    ensures EraseRows(rows[k := v]) == EraseRows(rows)[k := v.(crawledAt := 0)]
  {
    var l := EraseRows(rows[k := v]);
    var r := EraseRows(rows)[k := v.(crawledAt := 0)];
    assert l.Keys == r.Keys;
    forall j | j in l ensures l[j] == r[j] {
    }
  }

  /** A row upsert reads no timestamp. */
  lemma RowClock(lang: Lang, r1: SourceRow, r2: SourceRow, s: SaveSource, t1: int, t2: int)
    requires r1.(crawledAt := 0) == r2.(crawledAt := 0)
    ensures RowUpdate(lang, r1, s, t1).(crawledAt := 0) == RowUpdate(lang, r2, s, t2).(crawledAt := 0)
  {
  }

  /** The clock only stamps rows: upserting at different times gives rows equal up to their timestamps. */
  lemma {:induction false} RowsClock(lang: Lang, a: map<string, SourceRow>, b: map<string, SourceRow>, xs: seq<SaveSource>, t1: int, t2: int)
    requires EraseRows(a) == EraseRows(b)
    ensures EraseRows(UpsertSources(lang, a, xs, t1)) == EraseRows(UpsertSources(lang, b, xs, t2))
  {
    if xs != [] {
      var init := xs[..|xs| - 1];
      var s := xs[|xs| - 1];
      RowsClock(lang, a, b, init, t1, t2);
      var a' := UpsertSources(lang, a, init, t1);
      var b' := UpsertSources(lang, b, init, t2);
      var ra := RowAt(a', s.source).GetOr(EmptyRow);
      var rb := RowAt(b', s.source).GetOr(EmptyRow);
      assert ra.(crawledAt := 0) == rb.(crawledAt := 0) by {
        assert s.source in a' <==> s.source in EraseRows(a');
        assert s.source in b' <==> s.source in EraseRows(b');
        if s.source in a' {
          assert EraseRows(a')[s.source] == a'[s.source].(crawledAt := 0);
          assert EraseRows(b')[s.source] == b'[s.source].(crawledAt := 0);
        }
      }
      RowClock(lang, ra, rb, s, t1, t2);
      EraseRowsUpdate(a', s.source, RowUpdate(lang, ra, s, t1));
      EraseRowsUpdate(b', s.source, RowUpdate(lang, rb, s, t2));
    }
  }

  lemma EraseStoreUpdate(store: Store, n: string, p: StoredPlace)
    ensures EraseStore(store[n := p]) == EraseStore(store)[n := ErasePlace(p)]
  {
    var l := EraseStore(store[n := p]);
    var r := EraseStore(store)[n := ErasePlace(p)];
    assert l.Keys == r.Keys;
    forall j | j in l ensures l[j] == r[j] {
    }
  }

  /** A place update reads no timestamp. */
  lemma PlaceClock(lang: Lang, p1: StoredPlace, p2: StoredPlace, x: SaveItem, t1: int, t2: int)
    requires ErasePlace(p1) == ErasePlace(p2)
    ensures ErasePlace(UpdatePlace(lang, p1, x, t1)) == ErasePlace(UpdatePlace(lang, p2, x, t2))
  {
    RowsClock(lang, p1.sources, p2.sources, x.sources, t1, t2);
  }

  /** A created place differs between two times only in its timestamps. */
  lemma CreateClock(lang: Lang, x: SaveItem, t1: int, t2: int)
    ensures ErasePlace(CreatePlace(lang, x, t1)) == ErasePlace(CreatePlace(lang, x, t2))
  {
    RowsClock(lang, map[], map[], x.sources, t1, t2);
  }

  /** Saving a list at two different times gives stores equal up to their timestamps. */
  lemma {:induction false} SaveClock(lang: Lang, a: Store, b: Store, items: seq<SaveItem>, t1: int, t2: int)
    requires EraseStore(a) == EraseStore(b)
    ensures EraseStore(SaveAll(lang, a, items, t1)) == EraseStore(SaveAll(lang, b, items, t2))
  {
    if items != [] {
      var x := items[|items| - 1];
      SaveClock(lang, a, b, items[..|items| - 1], t1, t2);
      var a' := SaveAll(lang, a, items[..|items| - 1], t1);
      var b' := SaveAll(lang, b, items[..|items| - 1], t2);
      assert x.name in a' <==> x.name in b' by {
        assert x.name in a' <==> x.name in EraseStore(a');
        assert x.name in b' <==> x.name in EraseStore(b');
      }
      if x.name in a' {
        assert ErasePlace(a'[x.name]) == ErasePlace(b'[x.name]) by {
          assert EraseStore(a')[x.name] == ErasePlace(a'[x.name]);
          assert EraseStore(b')[x.name] == ErasePlace(b'[x.name]);
        }
        PlaceClock(lang, a'[x.name], b'[x.name], x, t1, t2);
        EraseStoreUpdate(a', x.name, UpdatePlace(lang, a'[x.name], x, t1));
        EraseStoreUpdate(b', x.name, UpdatePlace(lang, b'[x.name], x, t2));
      } else if DistinctSources(x.sources) {
        CreateClock(lang, x, t1, t2);
        EraseStoreUpdate(a', x.name, CreatePlace(lang, x, t1));
        EraseStoreUpdate(b', x.name, CreatePlace(lang, x, t2));
      }
    }
  }

  /**
   * Saving the same list again later leaves the same places and source rows
   * as saving it once; only updatedAt and crawledAt differ.
   */
  lemma SaveTwiceLater(lang: Lang, store: Store, items: seq<SaveItem>, t1: int, t2: int)
    requires AllDistinct(items)
    ensures EraseStore(SaveAll(lang, SaveAll(lang, store, items, t1), items, t2)) == EraseStore(SaveAll(lang, store, items, t1))
  {
    var once := SaveAll(lang, store, items, t1);
    SaveClock(lang, once, once, items, t2, t1);
    SaveTwice(lang, store, items, t1);
  }
}
