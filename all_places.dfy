/**
 * `GET /api/places/all`: every place with its region, the sorted list of
 * regions and the count.  The database reads are inputs.
 */
module AllPlacesRoute {
  import opened Wrappers
  import opened Places
  import opened PlaceMapper
  import Sorting

  /** An id paired with the address the lookup may record for it. */
  datatype Addressed = Addressed(id: string, address: Option<string>)

  function CrawledAddresses(rows: seq<CrawledRow>): (r: seq<Addressed>)
    ensures |r| == |rows|
    ensures forall i | 0 <= i < |rows| :: r[i] == Addressed(rows[i].id, rows[i].address)
  {
    seq(|rows|, i requires 0 <= i < |rows| => Addressed(rows[i].id, rows[i].address))
  }

  function LotAddresses(lots: seq<SeedLot>): (r: seq<Addressed>)
    ensures |r| == |lots|
    ensures forall i | 0 <= i < |lots| :: r[i] == Addressed(lots[i].id, lots[i].address)
  {
    seq(|lots|, i requires 0 <= i < |lots| => Addressed(lots[i].id, lots[i].address))
  }

  /** The map after `set`ting every entry with a non-empty address, in order. */
  function Recorded(es: seq<Addressed>): map<string, string> {
    if es == [] then map[]
    else
      var m := Recorded(es[..|es| - 1]);
      var e := es[|es| - 1];
      if TruthyStr(e.address) then m[e.id := e.address.value] else m
  }

  /** An id is recorded iff some entry for it has a non-empty address. */
  lemma {:induction false} RecordedKeys(es: seq<Addressed>, k: string)
    ensures k in Recorded(es) <==> exists i | 0 <= i < |es| :: es[i].id == k && TruthyStr(es[i].address)
  {
    if es != [] {
      var init := es[..|es| - 1];
      RecordedKeys(init, k);
      if exists i | 0 <= i < |es| :: es[i].id == k && TruthyStr(es[i].address) {
        var i :| 0 <= i < |es| && es[i].id == k && TruthyStr(es[i].address);
        if i < |init| {
          assert init[i] == es[i];
        }
      }
      forall i | 0 <= i < |init| ensures init[i] == es[i] {}
    }
  }

  /** The last entry with a non-empty address wins. */
  lemma {:induction false} RecordedLast(es: seq<Addressed>, i: nat)
    requires i < |es| && TruthyStr(es[i].address)
    requires forall j | i < j < |es| :: !(es[j].id == es[i].id && TruthyStr(es[j].address))
    ensures es[i].id in Recorded(es) && Recorded(es)[es[i].id] == es[i].address.value
  {
    var init := es[..|es| - 1];
    if i < |es| - 1 {
      assert init[i] == es[i];
      forall j | i < j < |init| ensures !(init[j].id == init[i].id && TruthyStr(init[j].address)) {
        assert init[j] == es[j];
      }
      RecordedLast(init, i);
    }
  }

  /** Recording one more entry sets its address when it is non-empty. */
  lemma RecordedSnoc(es: seq<Addressed>, e: Addressed)
    ensures Recorded(es + [e]) == if TruthyStr(e.address) then Recorded(es)[e.id := e.address.value] else Recorded(es)
  {
    assert (es + [e])[..|es + [e]| - 1] == es;
  }

  /** The two loops: crawled addresses first, then parking lot addresses over them. */
  method BuildAddressMap(crawled: seq<CrawledRow>, lots: seq<SeedLot>) returns (m: map<string, string>)
    ensures m == Recorded(CrawledAddresses(crawled) + LotAddresses(lots))
  {
    var ca := CrawledAddresses(crawled);
    var la := LotAddresses(lots);
    m := map[];
    var i := 0;
    while i < |crawled|
      invariant i <= |crawled|
      invariant m == Recorded(ca[..i])
    {
      assert ca[..i + 1] == ca[..i] + [Addressed(crawled[i].id, crawled[i].address)];
      RecordedSnoc(ca[..i], Addressed(crawled[i].id, crawled[i].address));
      if TruthyStr(crawled[i].address) {
        m := m[crawled[i].id := crawled[i].address.value];
      }
      i := i + 1;
    }
    assert ca[..|crawled|] == ca + la[..0];
    var j := 0;
    while j < |lots|
      invariant j <= |lots|
      invariant m == Recorded(ca + la[..j])
    {
      assert ca + la[..j + 1] == (ca + la[..j]) + [Addressed(lots[j].id, lots[j].address)];
      RecordedSnoc(ca + la[..j], Addressed(lots[j].id, lots[j].address));
      if TruthyStr(lots[j].address) {
        m := m[lots[j].id := lots[j].address.value];
      }
      j := j + 1;
    }
    assert la[..|lots|] == la;
  }

  /**
   * A parking lot's address overrides a crawled place's under the same id;
   * a crawled address is used when no lot with that id has one.
   */
  lemma AddressPrecedence(crawled: seq<CrawledRow>, lots: seq<SeedLot>, i: nat, j: nat)
    ensures var m := Recorded(CrawledAddresses(crawled) + LotAddresses(lots));
      (j < |lots| && TruthyStr(lots[j].address) &&
       (forall q | j < q < |lots| :: !(lots[q].id == lots[j].id && TruthyStr(lots[q].address)))
       ==> lots[j].id in m && m[lots[j].id] == lots[j].address.value) &&
      (i < |crawled| && TruthyStr(crawled[i].address) &&
       (forall q | i < q < |crawled| :: !(crawled[q].id == crawled[i].id && TruthyStr(crawled[q].address))) &&
       (forall q | 0 <= q < |lots| :: !(lots[q].id == crawled[i].id && TruthyStr(lots[q].address)))
       ==> crawled[i].id in m && m[crawled[i].id] == crawled[i].address.value)
  {
    var ca := CrawledAddresses(crawled);
    var la := LotAddresses(lots);
    var es := ca + la;
    if j < |lots| && TruthyStr(lots[j].address) &&
       (forall q | j < q < |lots| :: !(lots[q].id == lots[j].id && TruthyStr(lots[q].address))) {
      assert es[|ca| + j] == la[j];
      forall q | |ca| + j < q < |es| ensures !(es[q].id == es[|ca| + j].id && TruthyStr(es[q].address)) {
        assert es[q] == la[q - |ca|];
      }
      RecordedLast(es, |ca| + j);
    }
    if i < |crawled| && TruthyStr(crawled[i].address) &&
       (forall q | i < q < |crawled| :: !(crawled[q].id == crawled[i].id && TruthyStr(crawled[q].address))) &&
       (forall q | 0 <= q < |lots| :: !(lots[q].id == crawled[i].id && TruthyStr(lots[q].address))) {
      assert es[i] == ca[i];
      forall q | i < q < |es| ensures !(es[q].id == es[i].id && TruthyStr(es[q].address)) {
        if q < |ca| {
          assert es[q] == ca[q];
        } else {
          assert es[q] == la[q - |ca|];
        }
      }
      RecordedLast(es, i);
    }
  }

  function Lookup(m: map<string, string>, k: string): Option<string> {
    if k in m then Some(m[k]) else None
  }

  /** The crawled places that received a rank, and every parking place. */
  function KeepRanked(ps: seq<Place>): (r: seq<Place>)
    ensures |r| <= |ps|
  {
    if ps == [] then []
    else if ps[0].IsParking() || ps[0].body.rank.Some? then [ps[0]] + KeepRanked(ps[1..])
    else KeepRanked(ps[1..])
  }

  lemma {:induction false} KeepRankedMembers(ps: seq<Place>)
    ensures forall p :: p in KeepRanked(ps) <==> p in ps && (p.IsParking() || p.body.rank.Some?)
  {
    if ps != [] {
      KeepRankedMembers(ps[1..]);
      assert ps == [ps[0]] + ps[1..];
    }
  }

  datatype Located = Located(place: Place, region: string)

  datatype AllPlaces = AllPlaces(places: seq<Located>, regions: seq<string>, totalCount: nat)

  /** The places of the response, before regions are attached. */
  function Listed(seed: seq<Place>, crawled: seq<CrawledRow>, scoreOf: ScoreOracle): seq<Place> {
    MergeSeedFirst(seed, KeepRanked(RankPlaces(MapCrawled(TS, crawled, map[]), crawled, scoreOf)))
  }

  /**
   * The distinct regions other than "기타" in the order first seen, then
   * sorted; the Set's insertion order does not survive the sort.
   */
  method CollectRegions(located: seq<Located>) returns (regions: seq<string>)
    ensures Sorting.Ascending(regions)
    ensures forall g :: g in regions <==> g != "기타" && exists i | 0 <= i < |located| :: located[i].region == g
  {
    var seen: seq<string> := [];
    var i := 0;
    while i < |located|
      invariant i <= |located|
      invariant forall p, q | 0 <= p < q < |seen| :: seen[p] != seen[q]
      invariant forall g :: g in seen <==> g != "기타" && exists j | 0 <= j < i :: located[j].region == g
    {
      var g := located[i].region;
      if g != "기타" && g !in seen {
        seen := seen + [g];
      }
      i := i + 1;
    }
    regions := Sorting.SortStrings(seen);
    Sorting.SortStringsPermutes(seen);
    Sorting.SortStringsAscending(seen);
    forall g ensures g in regions <==> g in seen {
      assert g in regions <==> g in multiset(regions);
      assert g in seen <==> g in multiset(seen);
    }
  }

  /** The handler. */
  method GetAllPlaces(restaurants: seq<SeedDining>, cafes: seq<SeedDining>, lots: seq<SeedLot>,
                      crawled: seq<CrawledRow>, scoreOf: ScoreOracle)
    returns (r: AllPlaces)
    ensures r.totalCount == |r.places|
    ensures |r.places| == |Listed(MapSeedPlaces(TS, restaurants, cafes, lots), crawled, scoreOf)|
    ensures forall i | 0 <= i < |r.places| ::
      var p := Listed(MapSeedPlaces(TS, restaurants, cafes, lots), crawled, scoreOf)[i];
      r.places[i].place == p &&
      r.places[i].region == ExtractRegion(Lookup(Recorded(CrawledAddresses(crawled) + LotAddresses(lots)), p.id))
    ensures Sorting.Ascending(r.regions)
    ensures forall g :: g in r.regions <==> g != "기타" && exists i | 0 <= i < |r.places| :: r.places[i].region == g
  {
    var seed := MapSeedPlaces(TS, restaurants, cafes, lots);
    var mapped := MapCrawled(TS, crawled, map[]);
    var ranked := new Place[|mapped|](i requires 0 <= i < |mapped| => mapped[i]);
    assert ranked[..] == mapped;
    RankByDiningCode(ranked, crawled, scoreOf);
    var all := MergeSeedFirst(seed, KeepRanked(ranked[..]));
    var addresses := BuildAddressMap(crawled, lots);
    var located := seq(|all|, i requires 0 <= i < |all| => Located(all[i], ExtractRegion(Lookup(addresses, all[i].id))));
    var regions := CollectRegions(located);
    r := AllPlaces(located, regions, |located|);
  }

  /**
   * The crawled part of the list holds only ranked places: each has a rank
   * and the position's row carries a DiningCode score.
   */
  lemma ListedCrawledRanked(seed: seq<Place>, crawled: seq<CrawledRow>, scoreOf: ScoreOracle, p: Place)
    requires p in Listed(seed, crawled, scoreOf)[|seed|..]
    ensures p.body.Eatery? && p.body.rank.Some?
  {
    var mapped := MapCrawled(TS, crawled, map[]);
    var ranked := RankPlaces(mapped, crawled, scoreOf);
    var kept := KeepRanked(ranked);
    MergeSeedFirstMembers(seed, kept);
    KeepRankedMembers(ranked);
    assert Listed(seed, crawled, scoreOf)[|seed|..] == Unseen(SeedNames(seed), kept);
    UnseenMembers(SeedNames(seed), kept);
    var i :| 0 <= i < |ranked| && ranked[i] == p;
    RankLeavesUnscored(mapped, crawled, scoreOf, i);
  }
}
