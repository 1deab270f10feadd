/**
 * `GET /api/regions`: the regions that hold crawled places, with their
 * centroid and place count, most places first, followed by the landmarks
 * that are not already among them.
 */
module RegionsRoute {
  import opened Wrappers
  import opened PlaceMapper
  import opened Geocode
  import Sorting

  /** A crawled place with an address and both coordinates (the query's filter). */
  datatype AddressRow = AddressRow(address: string, lat: real, lng: real)

  /** A region's running sums. */
  datatype Acc = Acc(sumLat: real, sumLng: real, count: nat)

  datatype RegionItem = RegionItem(name: string, lat: real, lng: real, count: nat)

  function RegionOf(row: AddressRow): string {
    ExtractRegion(Some(row.address))
  }

  /** A row with its region worked out. */
  datatype Tagged = Tagged(region: string, lat: real, lng: real)

  function Tags(rows: seq<AddressRow>): (r: seq<Tagged>)
    ensures |r| == |rows|
    ensures forall i | 0 <= i < |rows| :: r[i] == Tagged(RegionOf(rows[i]), rows[i].lat, rows[i].lng)
  {
    seq(|rows|, i requires 0 <= i < |rows| => Tagged(RegionOf(rows[i]), rows[i].lat, rows[i].lng))
  }

  /** Rows whose region is empty or "기타" are skipped. */
  predicate Counts(t: Tagged) {
    t.region != "" && t.region != "기타"
  }

  /** The regions of the counted rows, each once, in the order first seen: the Map's key order. */
  function Names(ts: seq<Tagged>): seq<string> {
    if ts == [] then []
    else
      var ks := Names(ts[..|ts| - 1]);
      var t := ts[|ts| - 1];
      if Counts(t) && t.region !in ks then ks + [t.region] else ks
  }

  /** The sums and count of the counted rows of region g. */
  function Total(ts: seq<Tagged>, g: string): Acc {
    if ts == [] then Acc(0.0, 0.0, 0)
    else
      var a := Total(ts[..|ts| - 1], g);
      var t := ts[|ts| - 1];
      if Counts(t) && t.region == g then Acc(a.sumLat + t.lat, a.sumLng + t.lng, a.count + 1) else a
  }

  /** The region of every row, counted or not. */
  function RegionsOf(ts: seq<Tagged>): (r: seq<string>)
    ensures |r| == |ts|
    ensures forall i | 0 <= i < |ts| :: r[i] == ts[i].region
  {
    seq(|ts|, i requires 0 <= i < |ts| => ts[i].region)
  }

  /** The list of regions has no repetition. */
  lemma {:induction false} NamesDistinct(ts: seq<Tagged>)
    ensures forall p, q | 0 <= p < q < |Names(ts)| :: Names(ts)[p] != Names(ts)[q]
  {
    if ts != [] {
      NamesDistinct(ts[..|ts| - 1]);
    }
  }

  /** A region is listed iff some counted row has it, iff its count is positive. */
  lemma {:induction false} NamesMembers(ts: seq<Tagged>, g: string)
    ensures g in Names(ts) <==> exists i | 0 <= i < |ts| :: Counts(ts[i]) && ts[i].region == g
    ensures g in Names(ts) <==> Total(ts, g).count > 0
    ensures g !in Names(ts) ==> Total(ts, g) == Acc(0.0, 0.0, 0)
  {
    if ts != [] {
      var init := ts[..|ts| - 1];
      NamesMembers(init, g);
      if exists i | 0 <= i < |ts| :: Counts(ts[i]) && ts[i].region == g {
        var i :| 0 <= i < |ts| && Counts(ts[i]) && ts[i].region == g;
        if i < |init| {
          assert init[i] == ts[i];
        }
      }
      if g in Names(init) {
        var i :| 0 <= i < |init| && Counts(init[i]) && init[i].region == g;
        assert ts[i] == init[i];
      }
    }
  }

  /** A region's count is the number of rows with that region. */
  lemma {:induction false} TotalCount(ts: seq<Tagged>, g: string)
    requires g != "" && g != "기타"
    ensures Total(ts, g).count == multiset(RegionsOf(ts))[g]
  {
    if ts != [] {
      var init := ts[..|ts| - 1];
      TotalCount(init, g);
      assert RegionsOf(ts) == RegionsOf(init) + [ts[|ts| - 1].region];
    }
  }

  /** keys and acc are the Map after the rows ts: its keys in order and its entries. */
  ghost predicate Tallied(ts: seq<Tagged>, keys: seq<string>, acc: map<string, Acc>) {
    keys == Names(ts) &&
    (forall g :: g in acc <==> g in keys) &&
    (forall g | g in acc :: acc[g] == Total(ts, g))
  }

  /** One loop step: a counted row's region is appended if new and its entry advanced. */
  lemma TallyStep(ts: seq<Tagged>, t: Tagged, keys: seq<string>, acc: map<string, Acc>)
    requires Tallied(ts, keys, acc)
    ensures !Counts(t) ==> Tallied(ts + [t], keys, acc)
    ensures Counts(t) ==>
      var a := if t.region in acc then acc[t.region] else Acc(0.0, 0.0, 0);
      Tallied(ts + [t], if t.region in acc then keys else keys + [t.region],
              acc[t.region := Acc(a.sumLat + t.lat, a.sumLng + t.lng, a.count + 1)])
  {
    var next := ts + [t];
    assert next[..|next| - 1] == ts;
    NamesMembers(ts, t.region);
  }

  /** TallyStep at position i of the rows, for the Map state the loop body leaves. */
  lemma TallyNext(ts: seq<Tagged>, i: nat, keys: seq<string>, acc: map<string, Acc>,
                  keys': seq<string>, acc': map<string, Acc>)
    requires i < |ts| && Tallied(ts[..i], keys, acc)
    requires var t := ts[i];
      var a := if t.region in acc then acc[t.region] else Acc(0.0, 0.0, 0);
      keys' == (if Counts(t) && t.region !in acc then keys + [t.region] else keys) &&
      acc' == (if Counts(t) then acc[t.region := Acc(a.sumLat + t.lat, a.sumLng + t.lng, a.count + 1)] else acc)
    ensures Tallied(ts[..i + 1], keys', acc')
  {
    assert ts[..i + 1] == ts[..i] + [ts[i]];
    TallyStep(ts[..i], ts[i], keys, acc);
  }

  /** The loop over the rows: the Map's keys in insertion order and its entries. */
  method Accumulate(rows: seq<AddressRow>) returns (keys: seq<string>, acc: map<string, Acc>)
    ensures Tallied(Tags(rows), keys, acc)
  {
    var ts := Tags(rows);
    keys := [];
    acc := map[];
    var i := 0;
    while i < |rows|
      invariant i <= |rows|
      invariant Tallied(ts[..i], keys, acc)
    {
      ghost var keys0, acc0 := keys, acc;
      var row := rows[i];
      var region := ExtractRegion(Some(row.address));
      if region != "" && region != "기타" {
        var a := if region in acc then acc[region] else Acc(0.0, 0.0, 0);
        if region !in acc {
          keys := keys + [region];
        }
        acc := acc[region := Acc(a.sumLat + row.lat, a.sumLng + row.lng, a.count + 1)];
      }
      assert ts[i] == Tagged(region, row.lat, row.lng);
      TallyNext(ts, i, keys0, acc0, keys, acc);
      i := i + 1;
    }
    assert ts[..|rows|] == ts;
  }

  /** A region's item: the centroid of its rows and their number. */
  function Item(g: string, a: Acc): (r: RegionItem)
    requires a.count > 0
    ensures r.name == g && r.count == a.count
    ensures r.lat * (a.count as real) == a.sumLat && r.lng * (a.count as real) == a.sumLng
  {
    RegionItem(g, a.sumLat / (a.count as real), a.sumLng / (a.count as real), a.count)
  }

  /** The database regions in the Map's order, before sorting. */
  function DbItems(ts: seq<Tagged>): (r: seq<RegionItem>)
    ensures |r| == |Names(ts)|
    ensures forall i | 0 <= i < |r| :: r[i].name == Names(ts)[i] && r[i].count == Total(ts, r[i].name).count
  {
    var ks := Names(ts);
    NamesPositive(ts);
    seq(|ks|, i requires 0 <= i < |ks| => Item(ks[i], Total(ts, ks[i])))
  }

  /** Every listed region has at least one row. */
  lemma NamesPositive(ts: seq<Tagged>)
    ensures forall g | g in Names(ts) :: Total(ts, g).count > 0
  {
    forall g | g in Names(ts) ensures Total(ts, g).count > 0 {
      NamesMembers(ts, g);
    }
  }

  function CountKey(it: RegionItem): real {
    it.count as real
  }

  /** The landmarks whose name is not taken, with a count of 0, in table order. */
  function LandmarkItems(table: seq<Landmark>, taken: set<string>): (r: seq<RegionItem>)
    ensures |r| <= |table|
  {
    if table == [] then []
    else
      var rest := LandmarkItems(table[1..], taken);
      var l := table[0];
      if l.key in taken then rest else [RegionItem(l.key, l.result.lat, l.result.lng, 0)] + rest
  }

  function NamesOf(items: seq<RegionItem>): set<string> {
    set it | it in items :: it.name
  }

  /** The response: database regions by descending count, then the remaining landmarks. */
  function RegionList(ts: seq<Tagged>, table: seq<Landmark>): seq<RegionItem> {
    var db := Sorting.SortDesc(DbItems(ts), CountKey);
    db + LandmarkItems(table, NamesOf(db))
  }

  /** The handler, over the landmark table. */
  method GetRegions(rows: seq<AddressRow>) returns (items: seq<RegionItem>)
    ensures items == RegionList(Tags(rows), Landmarks)
  {
    var keys, acc := Accumulate(rows);
    NamesPositive(Tags(rows));
    var unsorted := seq(|keys|, i requires 0 <= i < |keys| => Item(keys[i], acc[keys[i]]));
    assert unsorted == DbItems(Tags(rows));
    var db := Sorting.SortDesc(unsorted, CountKey);
    var dbNames := set it | it in db :: it.name;
    items := db + LandmarkItems(Landmarks, dbNames);
  }

  /** A landmark is listed iff its name is not taken; each listed one has count 0. */
  lemma {:induction false} LandmarkItemsMeaning(table: seq<Landmark>, taken: set<string>)
    ensures forall it | it in LandmarkItems(table, taken) :: it.count == 0 && it.name !in taken
    ensures forall l | l in table && l.key !in taken ::
      RegionItem(l.key, l.result.lat, l.result.lng, 0) in LandmarkItems(table, taken)
  {
    if table != [] {
      LandmarkItemsMeaning(table[1..], taken);
      assert table == [table[0]] + table[1..];
    }
  }

  /** Each database item: a region some counted row has, its row count, and its centroid. */
  lemma DbItemMeaning(ts: seq<Tagged>, it: RegionItem)
    requires it in DbItems(ts)
    ensures it.name != "기타" && it.name != ""
    ensures it.count >= 1 && it.count == multiset(RegionsOf(ts))[it.name]
    ensures it == Item(it.name, Total(ts, it.name))
  {
    var items := DbItems(ts);
    var i :| 0 <= i < |items| && items[i] == it;
    NamesMembers(ts, it.name);
    var j :| 0 <= j < |ts| && Counts(ts[j]) && ts[j].region == it.name;
    TotalCount(ts, it.name);
  }

  /** A sequence in which no value occurs twice holds each value at most once. */
  lemma {:induction false} DistinctOnce<T>(s: seq<T>, x: T)
    requires forall p, q | 0 <= p < q < |s| :: s[p] != s[q]
    ensures multiset(s)[x] <= 1
  {
    if s != [] {
      DistinctOnce(s[1..], x);
      assert s == [s[0]] + s[1..];
      if s[0] == x {
        assert x !in s[1..];
      }
    }
  }

  /** A value at two positions occurs at least twice. */
  lemma Twice<T>(s: seq<T>, p: nat, q: nat)
    requires p < q < |s| && s[p] == s[q]
    ensures multiset(s)[s[p]] >= 2
  {
    assert s == s[..q] + s[q..];
    assert s[p] in s[..q];
    assert s[q] in s[q..];
  }

  /** Sorting keeps the items and orders them by count, most first. */
  lemma DbSorted(ts: seq<Tagged>)
    ensures var db := Sorting.SortDesc(DbItems(ts), CountKey);
      Sorting.Descending(db, CountKey) &&
      (forall it :: it in db <==> it in DbItems(ts))
  {
    var items := DbItems(ts);
    var db := Sorting.SortDesc(items, CountKey);
    Sorting.SortDescSorted(items, CountKey);
    Sorting.SortDescPermutes(items, CountKey);
    forall it ensures it in db <==> it in items {
      assert it in db <==> it in multiset(db);
      assert it in items <==> it in multiset(items);
    }
  }

  /** No region name occurs twice among the database items. */
  lemma DbNamesDistinct(ts: seq<Tagged>)
    ensures var db := Sorting.SortDesc(DbItems(ts), CountKey);
      forall p, q | 0 <= p < q < |db| :: db[p].name != db[q].name
  {
    var items := DbItems(ts);
    var db := Sorting.SortDesc(items, CountKey);
    DbSorted(ts);
    Sorting.SortDescPermutes(items, CountKey);
    NamesDistinct(ts);
    forall p, q | 0 <= p < q < |db| ensures db[p].name != db[q].name {
      if db[p].name == db[q].name {
        assert db[p] in db && db[q] in db;
        var a :| 0 <= a < |items| && items[a] == db[p];
        var b :| 0 <= b < |items| && items[b] == db[q];
        if a == b {
          Twice(db, p, q);
          DistinctOnce(items, db[p]);
        }
      }
    }
  }

  /** Every region with a counted row appears among the database items, and only those. */
  lemma DbNamesComplete(ts: seq<Tagged>, g: string)
    ensures var db := Sorting.SortDesc(DbItems(ts), CountKey);
      (exists i | 0 <= i < |ts| :: Counts(ts[i]) && ts[i].region == g) <==> g in NamesOf(db)
  {
    var items := DbItems(ts);
    var db := Sorting.SortDesc(items, CountKey);
    DbSorted(ts);
    NamesMembers(ts, g);
    if g in Names(ts) {
      var k :| 0 <= k < |Names(ts)| && Names(ts)[k] == g;
      assert items[k] in db;
    }
    if g in NamesOf(db) {
      var it :| it in db && it.name == g;
      var k :| 0 <= k < |items| && items[k] == it;
    }
  }

  /**
   * The response is the database part, then the landmarks: each with count 0
   * and a name no database region has, and every landmark whose name is
   * not a database region is present.
   */
  lemma ResponseShape(ts: seq<Tagged>, table: seq<Landmark>)
    ensures var db := Sorting.SortDesc(DbItems(ts), CountKey);
      var r := RegionList(ts, table);
      r[..|db|] == db &&
      (forall i | |db| <= i < |r| :: r[i].count == 0 && r[i].name !in NamesOf(db)) &&
      (forall l | l in table && l.key !in NamesOf(db) :: RegionItem(l.key, l.result.lat, l.result.lng, 0) in r[|db|..])
  {
    var db := Sorting.SortDesc(DbItems(ts), CountKey);
    LandmarkItemsMeaning(table, NamesOf(db));
    var r := RegionList(ts, table);
    assert r[|db|..] == LandmarkItems(table, NamesOf(db));
    forall i | |db| <= i < |r| ensures r[i].count == 0 && r[i].name !in NamesOf(db) {
      assert r[i] == r[|db|..][i - |db|];
    }
  }

  /** Regions with the same count keep the order in which they were first seen. */
  lemma TiesKeepFirstSeen(ts: seq<Tagged>, k: real)
    ensures Sorting.WithKey(Sorting.SortDesc(DbItems(ts), CountKey), CountKey, k) == Sorting.WithKey(DbItems(ts), CountKey, k)
  {
    Sorting.SortDescStable(DbItems(ts), CountKey, k);
  }
}
