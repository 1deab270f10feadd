/**
 * The menu crawl script: for every known place without menus, find its
 * DiningCode profile, take the menu list embedded in it, store up to ten
 * menus by rank and a tag line on the crawled place.
 */
module CrawlMenus {
  import opened Wrappers
  import opened Text
  import opened Sorting

  /** One entry of a profile's menu list. */
  datatype MenuEntry = MenuEntry(menu: string, best: int, price: Option<string>, rank: int)

  /** Ascending rank as the descending key the stable sort takes. */
  function RankKey(m: MenuEntry): real {
    -m.rank as real
  }

  /** `[...menuData].sort((a, b) => a.rank - b.rank)`: a stable sort of a copy by ascending rank. */
  function ByRank(ms: seq<MenuEntry>): (r: seq<MenuEntry>)
    ensures |r| == |ms|
  {
    SortDesc(ms, RankKey)
  }

  /** `.slice(0, n)`. */
  function Names(ms: seq<MenuEntry>): (r: seq<string>)
    ensures |r| == |ms| && forall k | 0 <= k < |ms| :: r[k] == ms[k].menu
  {
    seq(|ms|, k requires 0 <= k < |ms| => ms[k].menu)
  }

  /** `menuData.filter((m) => m.best === 1)`. */
  function BestMenus(ms: seq<MenuEntry>): (r: seq<MenuEntry>)
    ensures |r| <= |ms|
    ensures forall k | 0 <= k < |r| :: r[k].best == 1 && r[k] in ms
    ensures forall m | m in ms && m.best == 1 :: m in r
    ensures (forall k | 0 <= k < |ms| :: ms[k].best != 1) ==> r == []
  {
    if ms == [] then []
    else
      var rest := BestMenus(ms[1..]);
      assert forall m | m in ms :: m == ms[0] || m in ms[1..];
      if ms[0].best == 1 then [ms[0]] + rest else rest
  }

  /** `generateTags`: the best menus joined by ", ", else the three lowest-ranked, else null. */
  function GenerateTags(ms: seq<MenuEntry>): (r: Option<string>)
    ensures r.None? <==> ms == []
  {
    var best := BestMenus(ms);
    if best != [] then Some(Join(Names(best), ", "))
    else
      var top := Take(ByRank(ms), 3);
      if top != [] then Some(Join(Names(top), ", ")) else None
  }

  /**
   * The sorted copy holds the same entries, in ascending rank, and equal
   * ranks keep their list order.
   */
  lemma ByRankMeaning(ms: seq<MenuEntry>)
    ensures multiset(ByRank(ms)) == multiset(ms)
    ensures forall p, q | 0 <= p < q < |ms| :: ByRank(ms)[p].rank <= ByRank(ms)[q].rank
    ensures forall k :: WithKey(ByRank(ms), RankKey, k) == WithKey(ms, RankKey, k)
  {
    SortDescPermutes(ms, RankKey);
    SortDescSorted(ms, RankKey);
    forall k ensures WithKey(ByRank(ms), RankKey, k) == WithKey(ms, RankKey, k) {
      SortDescStable(ms, RankKey, k);
    }
  }

  /** In a list sorted by ascending rank, an entry of a prefix ranks no higher than one after it. */
  lemma PrefixRanksFirst(sorted: seq<MenuEntry>, m: nat, x: MenuEntry, y: MenuEntry)
    requires m <= |sorted| && forall p, q | 0 <= p < q < |sorted| :: sorted[p].rank <= sorted[q].rank
    requires x in sorted[..m] && y in sorted[m..]
    ensures x.rank <= y.rank
  {
    var p :| 0 <= p < m && sorted[..m][p] == x;
    var q :| 0 <= q < |sorted| - m && sorted[m..][q] == y;
    assert sorted[p] == x && sorted[m + q] == y;
  }

  /** Splitting a list splits its multiset. */
  lemma SplitMultiset(whole: seq<MenuEntry>, m: nat)
    requires m <= |whole|
    ensures multiset(whole) - multiset(whole[..m]) == multiset(whole[m..])
    ensures multiset(whole[..m]) <= multiset(whole)
  {
    assert whole == whole[..m] + whole[m..];
  }

  /** The first n of the sorted copy are entries of the list, none ranked above one left out. */
  lemma LowestFirst(ms: seq<MenuEntry>, n: nat)
    ensures var top := Take(ByRank(ms), n);
      multiset(top) <= multiset(ms) &&
      forall x, y | x in top && y in multiset(ms) - multiset(top) :: x.rank <= y.rank
  {
    ByRankMeaning(ms);
    var sorted := ByRank(ms);
    var top := Take(sorted, n);
    assert top == sorted[..|top|];
    SplitMultiset(sorted, |top|);
    forall x, y | x in top && y in multiset(ms) - multiset(top)
      ensures x.rank <= y.rank
    {
      assert y in multiset(sorted[|top|..]);
      PrefixRanksFirst(sorted, |top|, x, y);
    }
  }

  /**
   * The tag line: with a best entry, exactly the best entries' names in list
   * order; without, the names of the up to three lowest-ranked entries.
   */
  lemma TagsMeaning(ms: seq<MenuEntry>)
    ensures (exists k | 0 <= k < |ms| :: ms[k].best == 1) ==>
      GenerateTags(ms) == Some(Join(Names(BestMenus(ms)), ", "))
    ensures ms != [] && (forall k | 0 <= k < |ms| :: ms[k].best != 1) ==>
      var top := Take(ByRank(ms), 3);
      GenerateTags(ms) == Some(Join(Names(top), ", ")) && |top| == (if |ms| < 3 then |ms| else 3) &&
      forall x, y | x in top && y in multiset(ms) - multiset(top) :: x.rank <= y.rank
  {
    if exists k | 0 <= k < |ms| :: ms[k].best == 1 {
      var k :| 0 <= k < |ms| && ms[k].best == 1;
      assert ms[k] in BestMenus(ms);
    }
    if ms != [] && forall k | 0 <= k < |ms| :: ms[k].best != 1 {
      LowestFirst(ms, 3);
    }
  }

  /** A stored menu: name and price, null when the entry's price is empty. */
  datatype MenuItem = MenuItem(menuName: string, price: Option<string>)

  datatype CrawlResult = CrawlResult(menus: seq<MenuItem>, tags: Option<string>)

  /** A fetch that threw, or what it found. */
  datatype Fetched<T> = Threw | Got(value: T)

  /** The search page's first profile link for a name (None: none found). */
  type Search = string -> Fetched<Option<string>>

  /** A profile page's embedded menu list ([] when there is none or it is not JSON). */
  type Profile = string -> Fetched<seq<MenuEntry>>

  function Items(ms: seq<MenuEntry>): (r: seq<MenuItem>)
    ensures |r| == |ms|
    ensures forall k | 0 <= k < |ms| :: r[k].menuName == ms[k].menu && (r[k].price.Some? ==> r[k].price.value != "")
  {
    seq(|ms|, k requires 0 <= k < |ms| => MenuItem(ms[k].menu, if TruthyStr(ms[k].price) then ms[k].price else None))
  }

  /** The profile address: the known source URL, else the search's first profile link. */
  function ProfileUrl(name: string, known: Option<string>, search: Search): Option<string> {
    if TruthyStr(known) then known
    else
      match search(name)
      case Threw => None
      case Got(url) => if TruthyStr(url) then url else None
  }

  /**
   * `crawlMenusForPlace`: nothing when no profile is found or a fetch
   * throws or the list is empty; else the ten lowest-ranked menus in rank
   * order and the tag line.
   */
  function CrawlForPlace(name: string, known: Option<string>, search: Search, profile: Profile): (r: CrawlResult)
    ensures |r.menus| <= 10
    ensures r.menus == [] <==> r.tags.None?
  {
    var url := ProfileUrl(name, known, search);
    if url.None? then CrawlResult([], None)
    else
      match profile(url.value)
      case Threw => CrawlResult([], None)
      case Got(ms) =>
        if ms == [] then CrawlResult([], None)
        else CrawlResult(Items(Take(ByRank(ms), 10)), GenerateTags(ms))
  }

  /** With a known source URL the search is never consulted. */
  lemma KnownUrlSkipsSearch(name: string, known: Option<string>, s1: Search, s2: Search, profile: Profile)
    requires TruthyStr(known)
    ensures CrawlForPlace(name, known, s1, profile) == CrawlForPlace(name, known, s2, profile)
  {
  }

  /** The stored menus are the lowest-ranked entries of the profile's list, in ascending rank. */
  lemma CrawledMenusMeaning(name: string, known: Option<string>, search: Search, profile: Profile)
    requires var url := ProfileUrl(name, known, search);
      url.Some? && profile(url.value).Got? && profile(url.value).value != []
    ensures var ms := profile(ProfileUrl(name, known, search).value).value;
      var top := Take(ByRank(ms), 10);
      var r := CrawlForPlace(name, known, search, profile);
      r.menus == Items(top) && r.tags == GenerateTags(ms) &&
      |r.menus| == (if |ms| < 10 then |ms| else 10) &&
      (forall p, q | 0 <= p < q < |top| :: top[p].rank <= top[q].rank) &&
      forall x, y | x in top && y in multiset(ms) - multiset(top) :: x.rank <= y.rank
  {
    var ms := profile(ProfileUrl(name, known, search).value).value;
    ByRankMeaning(ms);
    LowestFirst(ms, 10);
  }

  // ---------------------------------------------------------------- the place map

  /** A place to crawl: its name and the DiningCode source URL, if known. */
  datatype PlaceEntry = PlaceEntry(name: string, url: Option<string>)

  /** `placeMap.set(name, url)`: a known key keeps its position and takes the new value; a new key goes last. */
  function MapSet(es: seq<PlaceEntry>, e: PlaceEntry): (r: seq<PlaceEntry>)
    ensures |es| <= |r| <= |es| + 1
  {
    if es == [] then [e]
    else if es[0].name == e.name then [e] + es[1..]
    else [es[0]] + MapSet(es[1..], e)
  }

  /** The entries after a run of sets. */
  function SetAll(es: seq<PlaceEntry>, ps: seq<PlaceEntry>): (r: seq<PlaceEntry>)
    decreases |ps|
  {
    if ps == [] then es else MapSet(SetAll(es, ps[..|ps| - 1]), ps[|ps| - 1])
  }

  predicate DistinctNames(es: seq<PlaceEntry>) {
    forall i, j | 0 <= i < j < |es| :: es[i].name != es[j].name
  }

  /** `placeMap.get(name)`, None when the name is not a key. */
  function Lookup(es: seq<PlaceEntry>, name: string): Option<Option<string>> {
    if es == [] then None
    else if es[0].name == name then Some(es[0].url)
    else Lookup(es[1..], name)
  }

  /** The value of the last set of a name in a run, None when the run never sets it. */
  function LastSet(ps: seq<PlaceEntry>, name: string): Option<Option<string>> {
    if ps == [] then None
    else if ps[|ps| - 1].name == name then Some(ps[|ps| - 1].url)
    else LastSet(ps[..|ps| - 1], name)
  }

  lemma {:induction false} MapSetMeaning(es: seq<PlaceEntry>, e: PlaceEntry)
    requires DistinctNames(es)
    ensures DistinctNames(MapSet(es, e))
    ensures forall n :: Lookup(MapSet(es, e), n) == if n == e.name then Some(e.url) else Lookup(es, n)
    ensures forall i | 0 <= i < |es| :: MapSet(es, e)[i].name == es[i].name
    decreases |es|
  {
    if es != [] && es[0].name != e.name {
      assert DistinctNames(es[1..]) by {
        forall i, j | 0 <= i < j < |es[1..]| ensures es[1..][i].name != es[1..][j].name {
          assert es[1..][i] == es[i + 1] && es[1..][j] == es[j + 1];
        }
      }
      MapSetMeaning(es[1..], e);
      var r := MapSet(es, e);
      var t := MapSet(es[1..], e);
      assert r == [es[0]] + t;
      forall n ensures Lookup(r, n) == if n == e.name then Some(e.url) else Lookup(es, n) {
        if n != es[0].name {
          assert Lookup(r, n) == Lookup(t, n);
        }
      }
      forall i, j | 0 <= i < j < |r| ensures r[i].name != r[j].name {
        if i == 0 {
          assert r[j] == t[j - 1];
          if Lookup(t, es[0].name).Some? {
            LookupIn(es[1..], es[0].name);
          }
          LookupFinds(t, j - 1);
        }
      }
    } else if es != [] {
      var r := MapSet(es, e);
      forall i, j | 0 <= i < j < |r| ensures r[i].name != r[j].name {
        assert r[j] == es[j];
        if i > 0 {
          assert r[i] == es[i];
        }
      }
      forall n ensures Lookup(r, n) == if n == e.name then Some(e.url) else Lookup(es, n) {
        if n != e.name {
          assert Lookup(r, n) == Lookup(es[1..], n) == Lookup(es, n);
        }
      }
    }
  }

  /** A name Lookup finds is the name of an entry. */
  lemma {:induction false} LookupIn(es: seq<PlaceEntry>, name: string)
    requires Lookup(es, name).Some?
    ensures exists i | 0 <= i < |es| :: es[i].name == name
    decreases |es|
  {
    if es[0].name != name {
      LookupIn(es[1..], name);
      var i :| 0 <= i < |es[1..]| && es[1..][i].name == name;
      assert es[i + 1].name == name;
    }
  }

  /** Every entry's name is found. */
  lemma {:induction false} LookupFinds(es: seq<PlaceEntry>, i: nat)
    requires i < |es|
    ensures Lookup(es, es[i].name).Some?
    decreases i
  {
    if i > 0 && es[0].name != es[i].name {
      assert es[1..][i - 1] == es[i];
      LookupFinds(es[1..], i - 1);
    }
  }

  /**
   * After a run of sets the names stay distinct, the earlier keys keep
   * their positions, and a name maps to its last set value, or to what it
   * mapped to before when the run never sets it.
   */
  lemma {:induction false} SetAllMeaning(es: seq<PlaceEntry>, ps: seq<PlaceEntry>)
    requires DistinctNames(es)
    ensures DistinctNames(SetAll(es, ps))
    ensures forall n :: Lookup(SetAll(es, ps), n) == if LastSet(ps, n).Some? then LastSet(ps, n) else Lookup(es, n)
    ensures |es| <= |SetAll(es, ps)| && forall i | 0 <= i < |es| :: SetAll(es, ps)[i].name == es[i].name
    decreases |ps|
  {
    if ps != [] {
      var init := ps[..|ps| - 1];
      SetAllMeaning(es, init);
      MapSetMeaning(SetAll(es, init), ps[|ps| - 1]);
    }
  }

  /** One more set. */
  lemma SetAllStep(es: seq<PlaceEntry>, ps: seq<PlaceEntry>, i: nat)
    requires i < |ps|
    ensures SetAll(es, ps[..i + 1]) == MapSet(SetAll(es, ps[..i]), ps[i])
  {
    assert ps[..i + 1][..i] == ps[..i];
  }

  /** `for (...) placeMap.set(...)`. */
  method SetEntries(es: seq<PlaceEntry>, ps: seq<PlaceEntry>) returns (r: seq<PlaceEntry>)
    ensures r == SetAll(es, ps)
  {
    r := es;
    var i := 0;
    assert ps[..0] == [];
    while i < |ps|
      invariant i <= |ps| && r == SetAll(es, ps[..i])
    {
      SetAllStep(es, ps, i);
      r := MapSet(r, ps[i]);
      i := i + 1;
    }
    WholePrefix(ps);
  }

  /** A crawled place as the query returns it: its name and its diningcode source URLs. */
  datatype CrawledRow = CrawledRow(name: string, sourceUrls: seq<Option<string>>)

  /** `cp.sources.find((s) => s.sourceUrl)?.sourceUrl`: the first truthy URL. */
  function FirstUrl(urls: seq<Option<string>>): (r: Option<string>)
    ensures r.Some? ==> r in urls && TruthyStr(r)
  {
    if urls == [] then None
    else if TruthyStr(urls[0]) then urls[0]
    else FirstUrl(urls[1..])
  }

  function SeedEntries(names: seq<string>): (r: seq<PlaceEntry>)
    ensures |r| == |names| && forall k | 0 <= k < |names| :: r[k] == PlaceEntry(names[k], None)
  {
    seq(|names|, k requires 0 <= k < |names| => PlaceEntry(names[k], None))
  }

  function CrawledEntries(rows: seq<CrawledRow>): (r: seq<PlaceEntry>)
    ensures |r| == |rows| && forall k | 0 <= k < |rows| :: r[k] == PlaceEntry(rows[k].name, FirstUrl(rows[k].sourceUrls))
  {
    seq(|rows|, k requires 0 <= k < |rows| => PlaceEntry(rows[k].name, FirstUrl(rows[k].sourceUrls)))
  }

  /** The place map: restaurants, then cafes, then the non-parking crawled places. */
  method BuildPlaceMap(restaurants: seq<string>, cafes: seq<string>, crawled: seq<CrawledRow>)
    returns (places: seq<PlaceEntry>)
    ensures places == SetAll(SetAll(SetAll([], SeedEntries(restaurants)), SeedEntries(cafes)), CrawledEntries(crawled))
  {
    places := SetEntries([], SeedEntries(restaurants));
    places := SetEntries(places, SeedEntries(cafes));
    places := SetEntries(places, CrawledEntries(crawled));
  }

  /** A run of seed names sets no URL. */
  lemma {:induction false} SeedLastSet(names: seq<string>, n: string)
    ensures LastSet(SeedEntries(names), n).Some? ==> LastSet(SeedEntries(names), n) == Some(None)
    decreases |names|
  {
    if names != [] {
      assert SeedEntries(names)[..|names| - 1] == SeedEntries(names[..|names| - 1]);
      SeedLastSet(names[..|names| - 1], n);
    }
  }

  /**
   * The place map has one entry per name; a name of a crawled place maps
   * to the URL of the last crawled place so named, any other seed name to
   * no URL.
   */
  lemma PlaceMapMeaning(restaurants: seq<string>, cafes: seq<string>, crawled: seq<CrawledRow>, n: string)
    ensures var places := SetAll(SetAll(SetAll([], SeedEntries(restaurants)), SeedEntries(cafes)), CrawledEntries(crawled));
      DistinctNames(places) &&
      (LastSet(CrawledEntries(crawled), n).Some? ==> Lookup(places, n) == LastSet(CrawledEntries(crawled), n)) &&
      (LastSet(CrawledEntries(crawled), n).None? ==> Lookup(places, n).Some? ==> Lookup(places, n) == Some(None))
  {
    var a := SetAll([], SeedEntries(restaurants));
    var b := SetAll(a, SeedEntries(cafes));
    SetAllMeaning([], SeedEntries(restaurants));
    SetAllMeaning(a, SeedEntries(cafes));
    SetAllMeaning(b, CrawledEntries(crawled));
    SeedLastSet(restaurants, n);
    SeedLastSet(cafes, n);
  }

  // ---------------------------------------------------------------- the crawl loop

  /** A Menu row; (placeName, menuName, source) is unique. */
  datatype MenuRow = MenuRow(placeName: string, menuName: string, price: Option<string>, source: string)

  const Source := "diningcode"

  predicate HasMenu(menus: seq<MenuRow>, name: string) {
    exists i | 0 <= i < |menus| :: menus[i].placeName == name
  }

  /** `menu.create`, where a row clashing on the unique key is skipped. */
  function CreateMenu(menus: seq<MenuRow>, row: MenuRow): (r: seq<MenuRow>)
    ensures r == menus || r == menus + [row]
  {
    if exists i | 0 <= i < |menus| ::
         menus[i].placeName == row.placeName && menus[i].menuName == row.menuName && menus[i].source == row.source
    then menus
    else menus + [row]
  }

  /** The rows after saving a crawl's menus in order. */
  function SaveMenus(menus: seq<MenuRow>, name: string, items: seq<MenuItem>): (r: seq<MenuRow>)
    ensures |menus| <= |r| <= |menus| + |items| && r[..|menus|] == menus
    decreases |items|
  {
    if items == [] then menus
    else
      var m := items[|items| - 1];
      CreateMenu(SaveMenus(menus, name, items[..|items| - 1]), MenuRow(name, m.menuName, m.price, Source))
  }

  /** The state of the run: the Menu rows, the crawled places' tags by name, and the three counters. */
  datatype State = State(menus: seq<MenuRow>, tags: map<string, Option<string>>, success: nat, skipped: nat, failed: nat)

  /**
   * One place: skipped when it has menu rows; failed when the crawl found
   * none; else its menus are saved and, with tags, the crawled place of
   * that name (if any) gets them.
   */
  function Visit(s: State, e: PlaceEntry, result: CrawlResult): (r: State)
    ensures r.success + r.skipped + r.failed == s.success + s.skipped + s.failed + 1
    ensures HasMenu(s.menus, e.name) ==> r == s.(skipped := s.skipped + 1)
    ensures |s.menus| <= |r.menus| && r.menus[..|s.menus|] == s.menus
    ensures forall i | |s.menus| <= i < |r.menus| :: r.menus[i].source == Source && r.menus[i].placeName == e.name
  {
    if HasMenu(s.menus, e.name) then s.(skipped := s.skipped + 1)
    else if result.menus == [] then s.(failed := s.failed + 1)
    else
      var tags := if TruthyStr(result.tags) && e.name in s.tags
                  then s.tags[e.name := result.tags] else s.tags;
      var menus := SaveMenus(s.menus, e.name, result.menus);
      SaveMenusSource(s.menus, e.name, result.menus);
      State(menus, tags, s.success + 1, s.skipped, s.failed)
  }

  /** The run over the place map in order. */
  function Run(s: State, places: seq<PlaceEntry>, search: Search, profile: Profile): (r: State)
    ensures r.success + r.skipped + r.failed == s.success + s.skipped + s.failed + |places|
    ensures |s.menus| <= |r.menus| && r.menus[..|s.menus|] == s.menus
    ensures r.tags.Keys == s.tags.Keys
    decreases |places|
  {
    if places == [] then s
    else
      var e := places[|places| - 1];
      var prev := Run(s, places[..|places| - 1], search, profile);
      var next := Visit(prev, e, CrawlForPlace(e.name, e.url, search, profile));
      assert next.menus[..|s.menus|] == next.menus[..|prev.menus|][..|s.menus|];
      next
  }

  /** The Menu table and the crawled places' tags. */
  class MenuDb {
    var menus: seq<MenuRow>
    var tags: map<string, Option<string>>

    constructor (menus0: seq<MenuRow>, tags0: map<string, Option<string>>)
      ensures menus == menus0 && tags == tags0
    {
      menus := menus0;
      tags := tags0;
    }

    /** `menu.findFirst({ where: { placeName } })`. */
    method FindMenu(name: string) returns (found: bool)
      ensures found <==> HasMenu(menus, name)
    {
      var i := 0;
      while i < |menus|
        invariant i <= |menus|
        invariant forall j | 0 <= j < i :: menus[j].placeName != name
      {
        if menus[i].placeName == name {
          return true;
        }
        i := i + 1;
      }
      return false;
    }

    /** The inner loop: each menu created in order, clashes skipped. */
    method Save(name: string, items: seq<MenuItem>)
      modifies this
      ensures menus == SaveMenus(old(menus), name, items) && tags == old(tags)
    {
      ghost var menus0 := menus;
      var i := 0;
      assert items[..0] == [];
      while i < |items|
        invariant i <= |items| && menus == SaveMenus(menus0, name, items[..i]) && tags == old(tags)
      {
        assert items[..i + 1][..i] == items[..i];
        menus := CreateMenu(menus, MenuRow(name, items[i].menuName, items[i].price, Source));
        i := i + 1;
      }
      WholePrefix(items);
    }

    /** `crawledPlace.findFirst` then `update` of its tags, when a crawled place has the name. */
    method Tag(name: string, t: string)
      modifies this
      ensures menus == old(menus)
      ensures tags == if name in old(tags) then old(tags)[name := Some(t)] else old(tags)
    {
      if name in tags {
        tags := tags[name := Some(t)];
      }
    }
  }

  /** One iteration of `main`'s loop, with the counters before and after it. */
  method VisitPlace(db: MenuDb, e: PlaceEntry, search: Search, profile: Profile,
                    success: nat, skipped: nat, failed: nat)
    returns (success': nat, skipped': nat, failed': nat)
    modifies db
    ensures State(db.menus, db.tags, success', skipped', failed') ==
            Visit(State(old(db.menus), old(db.tags), success, skipped, failed), e, CrawlForPlace(e.name, e.url, search, profile))
  {
    success', skipped', failed' := success, skipped, failed;
    var existing := db.FindMenu(e.name);
    if existing {
      skipped' := skipped + 1;
      return;
    }
    var result := CrawlForPlace(e.name, e.url, search, profile);
    if result.menus == [] {
      failed' := failed + 1;
      return;
    }
    db.Save(e.name, result.menus);
    if TruthyStr(result.tags) {
      db.Tag(e.name, result.tags.value);
    }
    success' := success + 1;
  }

  /** One more place of the run. */
  lemma RunStep(s: State, places: seq<PlaceEntry>, i: nat, search: Search, profile: Profile)
    requires i < |places|
    ensures Run(s, places[..i + 1], search, profile) ==
            Visit(Run(s, places[..i], search, profile), places[i], CrawlForPlace(places[i].name, places[i].url, search, profile))
  {
    assert places[..i + 1][..i] == places[..i];
  }

  /** The last place of the run. */
  lemma RunLast(s: State, places: seq<PlaceEntry>, search: Search, profile: Profile)
    requires places != []
    ensures var e := places[|places| - 1];
      var prev := Run(s, places[..|places| - 1], search, profile);
      var r := Run(s, places, search, profile);
      |prev.menus| <= |r.menus| && r.menus[..|prev.menus|] == prev.menus &&
      AddedFrom(prev.menus, r.menus, {e.name})
  {
  }

  /** `main`'s loop over the place map: the counters and tables follow Run. */
  method CrawlAll(db: MenuDb, places: seq<PlaceEntry>, search: Search, profile: Profile)
    returns (success: nat, skipped: nat, failed: nat)
    modifies db
    ensures State(db.menus, db.tags, success, skipped, failed) ==
            Run(State(old(db.menus), old(db.tags), 0, 0, 0), places, search, profile)
  {
    ghost var s0 := State(db.menus, db.tags, 0, 0, 0);
    success, skipped, failed := 0, 0, 0;
    var i := 0;
    assert places[..0] == [];
    while i < |places|
      invariant i <= |places|
      invariant State(db.menus, db.tags, success, skipped, failed) == Run(s0, places[..i], search, profile)
    {
      RunStep(s0, places, i, search, profile);
      success, skipped, failed := VisitPlace(db, places[i], search, profile, success, skipped, failed);
      i := i + 1;
    }
    WholePrefix(places);
  }

  /** A place that already has menu rows is skipped and adds none. */
  lemma KnownPlaceSkipped(s: State, e: PlaceEntry, search: Search, profile: Profile)
    requires HasMenu(s.menus, e.name)
    ensures Run(s, [e], search, profile) == s.(skipped := s.skipped + 1)
  {
    assert [e][..0] == [];
  }

  /** The rows after the first |before| are DiningCode rows of places with one of the names. */
  predicate AddedFrom(before: seq<MenuRow>, after: seq<MenuRow>, names: set<string>) {
    forall i | |before| <= i < |after| :: after[i].source == Source && after[i].placeName in names
  }

  function PlaceNames(places: seq<PlaceEntry>): set<string> {
    set k | 0 <= k < |places| :: places[k].name
  }

  lemma AddedChain(a: seq<MenuRow>, b: seq<MenuRow>, c: seq<MenuRow>, n1: set<string>, n2: set<string>)
    requires |a| <= |b| <= |c| && c[..|b|] == b
    requires AddedFrom(a, b, n1) && AddedFrom(b, c, n2)
    ensures AddedFrom(a, c, n1 + n2)
  {
    forall i | |a| <= i < |c| ensures c[i].source == Source && c[i].placeName in n1 + n2 {
      if i < |b| {
        assert c[i] == c[..|b|][i];
      }
    }
  }

  /** Every row the run adds belongs to a visited place, from DiningCode. */
  lemma {:induction false} AddedRowsFromSource(s: State, places: seq<PlaceEntry>, search: Search, profile: Profile)
    ensures AddedFrom(s.menus, Run(s, places, search, profile).menus, PlaceNames(places))
    decreases |places|
  {
    if places == [] {
    } else {
      var init := places[..|places| - 1];
      var e := places[|places| - 1];
      AddedRowsFromSource(s, init, search, profile);
      var prev := Run(s, init, search, profile);
      var r := Run(s, places, search, profile);
      RunLast(s, places, search, profile);
      assert AddedFrom(prev.menus, r.menus, {e.name});
      AddedChain(s.menus, prev.menus, r.menus, PlaceNames(init), {e.name});
      PlaceNamesLast(places);
    }
  }

  lemma PlaceNamesLast(places: seq<PlaceEntry>)
    requires places != []
    ensures PlaceNames(places) == PlaceNames(places[..|places| - 1]) + {places[|places| - 1].name}
  {
    var init := places[..|places| - 1];
    forall n | n in PlaceNames(places) ensures n in PlaceNames(init) + {places[|places| - 1].name} {
      var k :| 0 <= k < |places| && places[k].name == n;
      if k < |init| {
        assert init[k] == places[k];
      }
    }
    forall n | n in PlaceNames(init) ensures n in PlaceNames(places) {
      var k :| 0 <= k < |init| && init[k].name == n;
      assert places[k] == init[k];
    }
  }

  lemma {:induction false} SaveMenusSource(menus: seq<MenuRow>, name: string, items: seq<MenuItem>)
    ensures forall i | |menus| <= i < |SaveMenus(menus, name, items)| ::
      SaveMenus(menus, name, items)[i].source == Source && SaveMenus(menus, name, items)[i].placeName == name
    decreases |items|
  {
    if items != [] {
      var init := items[..|items| - 1];
      SaveMenusSource(menus, name, init);
      var prev := SaveMenus(menus, name, init);
      var m := items[|items| - 1];
      var r := SaveMenus(menus, name, items);
      var row := MenuRow(name, m.menuName, m.price, Source);
      assert r == CreateMenu(prev, row);
      if r != prev {
        assert r == prev + [row];
        forall i | |menus| <= i < |r| ensures r[i].source == Source && r[i].placeName == name {
          if i < |prev| {
            assert r[i] == prev[i];
          } else {
            assert r[i] == row;
          }
        }
      }
    }
  }
}
