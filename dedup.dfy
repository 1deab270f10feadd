/**
 * De-duplication of crawled places: records whose normalised names agree
 * and which are within 200 m of each other (or lack coordinates) are merged
 * into one group that keeps one source entry per source and back-fills
 * missing fields from later records.
 */
module Dedup {
  import opened Wrappers
  import opened Normalize
  import opened Crawl

  /**
   * Which implementation is meant: the TypeScript one, the Python port as
   * written, or the Python port with the source comparison it evidently
   * intends (compare against the same default it stores).
   */
  datatype Dialect = TypeScript | Python | PythonIntended

  /** One source's contribution to a group; the TypeScript entries carry no metadata. */
  datatype SourceEntry = SourceEntry(
    source: Option<string>,
    sourceUrl: Option<string>,
    rating: Option<real>,
    reviewCount: Option<int>,
    snippet: Option<string>,
    metadata: Option<string>)

  /**
   * The name normalisation the comparison applies; the pipeline passes
   * Normalize.NormalizeName (see BranchVariantsMerge).
   */
  type Normaliser = string -> string

  /** A merged place: the first record of the group (with back-filled fields) and its sources. */
  datatype Group = Group(place: Raw, sources: seq<SourceEntry>)

  predicate Located(p: Raw) {
    p.lat.Some? && p.lng.Some?
  }

  /**
   * Two records denote the same place when their normalised names agree and,
   * if both carry coordinates, they are at most 200 m apart.
   */
  function IsSamePlace(a: Raw, b: Raw, norm: Normaliser, dist: Distance): (same: bool)
  {
    if norm(a.name) != norm(b.name) then false
    else if a.lat.Some? && a.lng.Some? && b.lat.Some? && b.lng.Some? then
      dist(a.lat.value, a.lng.value, b.lat.value, b.lng.value) <= 200
    else true
  }

  /** The source value an entry records: TypeScript copies it, Python defaults a missing one to "". */
  function StoredSource(d: Dialect, p: Raw): (s: Option<string>)
    ensures d != TypeScript ==> s.Some?
  {
    if d == TypeScript then p.source else Some(p.source.GetOr(""))
  }

  /** The value looked up among a group's entries; the Python port as written looks up the raw field. */
  function ComparedSource(d: Dialect, p: Raw): Option<string> {
    if d == PythonIntended then StoredSource(d, p) else p.source
  }

  function EntryOf(d: Dialect, p: Raw): (e: SourceEntry)
    ensures e.source == StoredSource(d, p)
    ensures e.sourceUrl == p.sourceUrl && e.rating == p.rating && e.snippet == p.snippet
    ensures e.reviewCount == p.reviewCount
    ensures d == TypeScript ==> e.metadata.None?
    ensures d != TypeScript ==> e.metadata == p.metadata
  {
    SourceEntry(StoredSource(d, p), p.sourceUrl, p.rating, p.reviewCount, p.snippet,
      if d == TypeScript then None else p.metadata)
  }

  predicate HasSource(sources: seq<SourceEntry>, src: Option<string>) {
    exists i | 0 <= i < |sources| :: sources[i].source == src
  }

  /**
   * Fills lat, lng, address, category, rating and tags from p where the group
   * lacks them (falsy) and p has them (truthy); BackfillFills states it.
   */
  function Backfill(g: Raw, p: Raw): Raw
  {
    g.(lat := if !TruthyNum(g.lat) && TruthyNum(p.lat) then p.lat else g.lat,
       lng := if !TruthyNum(g.lng) && TruthyNum(p.lng) then p.lng else g.lng,
       address := if !TruthyStr(g.address) && TruthyStr(p.address) then p.address else g.address,
       category := if !TruthyStr(g.category) && TruthyStr(p.category) then p.category else g.category,
       rating := if !TruthyNum(g.rating) && TruthyNum(p.rating) then p.rating else g.rating,
       tags := if !TruthyStr(g.tags) && TruthyStr(p.tags) then p.tags else g.tags)
  }

  /** Merges record p into group g: a new source entry unless one is found, then back-filling. */
  function Merge(d: Dialect, g: Group, p: Raw): (r: Group)
    ensures r.place == Backfill(g.place, p)
    ensures r.sources == g.sources || r.sources == g.sources + [EntryOf(d, p)]
    ensures HasSource(g.sources, ComparedSource(d, p)) ==> r.sources == g.sources
  {
    var sources := if HasSource(g.sources, ComparedSource(d, p)) then g.sources else g.sources + [EntryOf(d, p)];
    Group(Backfill(g.place, p), sources)
  }

  /** Index of the first group that is the same place as p (`find`), or |groups| when none is. */
  function FindGroup(groups: seq<Group>, p: Raw, norm: Normaliser, dist: Distance): (k: nat)
    ensures k <= |groups|
    ensures forall j | 0 <= j < k :: !IsSamePlace(groups[j].place, p, norm, dist)
    ensures k < |groups| ==> IsSamePlace(groups[k].place, p, norm, dist)
    decreases |groups|
  {
    if |groups| == 0 then 0
    else if IsSamePlace(groups[0].place, p, norm, dist) then 0
    else 1 + FindGroup(groups[1..], p, norm, dist)
  }

  /** One step of the loop: p joins the first matching group, or founds a new one at the end. */
  function AddPlace(d: Dialect, groups: seq<Group>, p: Raw, norm: Normaliser, dist: Distance): (r: seq<Group>)
  {
    var k := FindGroup(groups, p, norm, dist);
    if k < |groups| then groups[k := Merge(d, groups[k], p)]
    else groups + [Group(p, [EntryOf(d, p)])]
  }

  /** The groups after processing the records in order. */
  function DedupSpec(d: Dialect, places: seq<Raw>, norm: Normaliser, dist: Distance): seq<Group>
    decreases |places|
  {
    if places == [] then []
    else AddPlace(d, DedupSpec(d, places[..|places| - 1], norm, dist), places[|places| - 1], norm, dist)
  }

  /** `groups.find(…)` / `next(…)`: the first group that is the same place as p, by index. */
  method FindSamePlace(groups: seq<Group>, p: Raw, norm: Normaliser, dist: Distance) returns (k: nat)
    ensures k == FindGroup(groups, p, norm, dist)
  {
    k := 0;
    while k < |groups| && !IsSamePlace(groups[k].place, p, norm, dist)
      invariant 0 <= k <= |groups|
      invariant forall j | 0 <= j < k :: !IsSamePlace(groups[j].place, p, norm, dist)
    {
      k := k + 1;
    }
    FindGroupUnique(groups, p, norm, dist, k);
  }

  /** `deduplicatePlaces` / `deduplicate_places`: each record joins the first matching group or founds one. */
  method DeduplicatePlaces(d: Dialect, places: seq<Raw>, norm: Normaliser, dist: Distance) returns (groups: seq<Group>)
    ensures groups == DedupSpec(d, places, norm, dist)
  {
    groups := [];
    var i := 0;
    assert places[..0] == [];
    while i < |places|
      invariant 0 <= i <= |places|
      invariant groups == DedupSpec(d, places[..i], norm, dist)
    {
      var p := places[i];
      var k := FindSamePlace(groups, p, norm, dist);
      DedupStep(d, places, i, norm, dist);
      if k < |groups| {
        groups := groups[k := Merge(d, groups[k], p)];
      } else {
        groups := groups + [Group(p, [EntryOf(d, p)])];
      }
      i := i + 1;
    }
    assert places[..i] == places;
  }

  // ---------------------------------------------------------------- lemmas

  /** The first match is unique: a position with no match before it and a match (or the end) at it. */
  lemma FindGroupUnique(groups: seq<Group>, p: Raw, norm: Normaliser, dist: Distance, k: nat)
    requires k <= |groups|
    requires forall j | 0 <= j < k :: !IsSamePlace(groups[j].place, p, norm, dist)
    requires k < |groups| ==> IsSamePlace(groups[k].place, p, norm, dist)
    ensures FindGroup(groups, p, norm, dist) == k
  {
  }

  /**
   * Records with different normalised names are never merged; with
   * coordinates on both sides the distance decides, without them equal names
   * suffice.
   */
  lemma SamePlaceByName(a: Raw, b: Raw, norm: Normaliser, dist: Distance)
    ensures IsSamePlace(a, b, norm, dist) ==> norm(a.name) == norm(b.name)
    ensures Located(a) && Located(b) ==>
      (IsSamePlace(a, b, norm, dist) <==>
        norm(a.name) == norm(b.name) && dist(a.lat.value, a.lng.value, b.lat.value, b.lng.value) <= 200)
    ensures !(Located(a) && Located(b)) ==>
      (IsSamePlace(a, b, norm, dist) <==> norm(a.name) == norm(b.name))
  {
  }

  /** One more record is one more step of the fold. */
  lemma DedupStep(d: Dialect, places: seq<Raw>, i: nat, norm: Normaliser, dist: Distance)
    requires i < |places|
    ensures DedupSpec(d, places[..i + 1], norm, dist) == AddPlace(d, DedupSpec(d, places[..i], norm, dist), places[i], norm, dist)
  {
    assert places[..i + 1][..i] == places[..i];
  }

  /**
   * Back-filling leaves every other field alone; each of the six fields takes
   * the record's value exactly when the group's is falsy and the record's
   * truthy, and keeps the group's otherwise; afterwards a field is truthy
   * exactly when it was truthy in the group or in the record.
   */
  lemma BackfillFills(g: Raw, p: Raw)
    ensures var r := Backfill(g, p);
      r.(lat := g.lat, lng := g.lng, address := g.address, category := g.category,
         rating := g.rating, tags := g.tags) == g
      && (!TruthyNum(g.lat) && TruthyNum(p.lat) ==> r.lat == p.lat)
      && (TruthyNum(g.lat) || !TruthyNum(p.lat) ==> r.lat == g.lat)
      && (!TruthyNum(g.lng) && TruthyNum(p.lng) ==> r.lng == p.lng)
      && (TruthyNum(g.lng) || !TruthyNum(p.lng) ==> r.lng == g.lng)
      && (!TruthyStr(g.address) && TruthyStr(p.address) ==> r.address == p.address)
      && (TruthyStr(g.address) || !TruthyStr(p.address) ==> r.address == g.address)
      && (!TruthyStr(g.category) && TruthyStr(p.category) ==> r.category == p.category)
      && (TruthyStr(g.category) || !TruthyStr(p.category) ==> r.category == g.category)
      && (!TruthyNum(g.rating) && TruthyNum(p.rating) ==> r.rating == p.rating)
      && (TruthyNum(g.rating) || !TruthyNum(p.rating) ==> r.rating == g.rating)
      && (!TruthyStr(g.tags) && TruthyStr(p.tags) ==> r.tags == p.tags)
      && (TruthyStr(g.tags) || !TruthyStr(p.tags) ==> r.tags == g.tags)
      && (TruthyNum(r.lat) <==> TruthyNum(g.lat) || TruthyNum(p.lat))
      && (TruthyNum(r.lng) <==> TruthyNum(g.lng) || TruthyNum(p.lng))
      && (TruthyStr(r.address) <==> TruthyStr(g.address) || TruthyStr(p.address))
      && (TruthyStr(r.category) <==> TruthyStr(g.category) || TruthyStr(p.category))
      && (TruthyNum(r.rating) <==> TruthyNum(g.rating) || TruthyNum(p.rating))
      && (TruthyStr(r.tags) <==> TruthyStr(g.tags) || TruthyStr(p.tags))
  {
  }

  /** Same-place is symmetric whenever the distance is. */
  lemma IsSamePlaceSymmetric(a: Raw, b: Raw, norm: Normaliser, dist: Distance)
    requires Located(a) && Located(b) ==>
      dist(a.lat.value, a.lng.value, b.lat.value, b.lng.value) == dist(b.lat.value, b.lng.value, a.lat.value, a.lng.value)
    ensures IsSamePlace(a, b, norm, dist) == IsSamePlace(b, a, norm, dist)
  {
  }

  /** There are never more groups than records, and at least one when there is a record. */
  lemma {:induction false} DedupCount(d: Dialect, places: seq<Raw>, norm: Normaliser, dist: Distance)
    ensures |DedupSpec(d, places, norm, dist)| <= |places|
    ensures places != [] ==> |DedupSpec(d, places, norm, dist)| >= 1
    decreases |places|
  {
    if places != [] {
      DedupCount(d, places[..|places| - 1], norm, dist);
    }
  }

  /** No two entries of a group record the same source. */
  predicate DistinctSources(g: Group) {
    forall i, j | 0 <= i < j < |g.sources| :: g.sources[i].source != g.sources[j].source
  }

  /**
   * Where the lookup compares the value it stores (TypeScript, and the
   * intended Python), every group keeps at most one entry per source.
   */
  lemma {:induction false} SourcesDistinct(d: Dialect, places: seq<Raw>, norm: Normaliser, dist: Distance)
    requires d != Python
    ensures forall g | g in DedupSpec(d, places, norm, dist) :: DistinctSources(g) && g.sources != []
    decreases |places|
  {
    if places != [] {
      var prev := DedupSpec(d, places[..|places| - 1], norm, dist);
      SourcesDistinct(d, places[..|places| - 1], norm, dist);
      var p := places[|places| - 1];
      var k := FindGroup(prev, p, norm, dist);
      if k < |prev| {
        MergeKeepsDistinct(d, prev[k], p);
      }
    }
  }

  lemma MergeKeepsDistinct(d: Dialect, g: Group, p: Raw)
    requires d != Python
    requires DistinctSources(g) && g.sources != []
    ensures DistinctSources(Merge(d, g, p)) && Merge(d, g, p).sources != []
  {
    assert ComparedSource(d, p) == StoredSource(d, p);
  }

  /** The name a group is known by is never changed by later records. */
  lemma AddPlaceKeepsNames(d: Dialect, groups: seq<Group>, p: Raw, norm: Normaliser, dist: Distance)
    ensures var r := AddPlace(d, groups, p, norm, dist);
      |r| >= |groups| && forall j | 0 <= j < |groups| :: r[j].place.name == groups[j].place.name
  {
  }

  /** In the Python dialects every recorded source is a string (a missing one is stored as ""). */
  predicate StoredAsString(d: Dialect, groups: seq<Group>) {
    d == TypeScript
    || forall j, i | 0 <= j < |groups| && 0 <= i < |groups[j].sources| :: groups[j].sources[i].source.Some?
  }

  /**
   * The record joins the first matching group, or a new group at the end;
   * either way that group then lists the record's source, and no other
   * group changes.
   */
  lemma AddPlaceRecordsSource(d: Dialect, groups: seq<Group>, p: Raw, norm: Normaliser, dist: Distance)
    requires StoredAsString(d, groups)
    ensures var k := FindGroup(groups, p, norm, dist);
      var r := AddPlace(d, groups, p, norm, dist);
      k < |r| && HasSource(r[k].sources, StoredSource(d, p))
      && (k < |groups| ==> |r| == |groups| && IsSamePlace(groups[k].place, p, norm, dist))
      && (k == |groups| ==> |r| == |groups| + 1 && r[k] == Group(p, [EntryOf(d, p)]))
      && (forall j | 0 <= j < |groups| && j != k :: r[j] == groups[j])
      && StoredAsString(d, r)
  {
    var k := FindGroup(groups, p, norm, dist);
    if k < |groups| {
      MergeRecordsSource(d, groups[k], p);
    } else {
      assert AddPlace(d, groups, p, norm, dist)[k].sources[0].source == StoredSource(d, p);
    }
  }

  lemma {:induction false} DedupStoredAsString(d: Dialect, places: seq<Raw>, norm: Normaliser, dist: Distance)
    ensures StoredAsString(d, DedupSpec(d, places, norm, dist))
    decreases |places|
  {
    if places != [] {
      var prefix := places[..|places| - 1];
      DedupStoredAsString(d, prefix, norm, dist);
      AddPlaceRecordsSource(d, DedupSpec(d, prefix, norm, dist), places[|places| - 1], norm, dist);
    }
  }

  lemma MergeRecordsSource(d: Dialect, g: Group, p: Raw)
    requires d == TypeScript || forall i | 0 <= i < |g.sources| :: g.sources[i].source.Some?
    ensures HasSource(Merge(d, g, p).sources, StoredSource(d, p))
    ensures d == TypeScript || forall i | 0 <= i < |Merge(d, g, p).sources| :: Merge(d, g, p).sources[i].source.Some?
  {
    var r := Merge(d, g, p);
    if HasSource(g.sources, ComparedSource(d, p)) {
      var i :| 0 <= i < |g.sources| && g.sources[i].source == ComparedSource(d, p);
      assert r.sources[i].source == StoredSource(d, p);
    } else {
      assert r.sources[|g.sources|].source == StoredSource(d, p);
    }
  }

  /** Every record ends up in a group whose name normalises like its own. */
  lemma {:induction false} EveryRecordGrouped(d: Dialect, places: seq<Raw>, norm: Normaliser, dist: Distance, i: nat)
    requires i < |places|
    ensures exists g | g in DedupSpec(d, places, norm, dist) :: norm(g.place.name) == norm(places[i].name)
    decreases |places|
  {
    var prefix := places[..|places| - 1];
    var prev := DedupSpec(d, prefix, norm, dist);
    var r := DedupSpec(d, places, norm, dist);
    var p := places[|places| - 1];
    AddPlaceKeepsNames(d, prev, p, norm, dist);
    var k := FindGroup(prev, p, norm, dist);
    if i == |places| - 1 {
      if k < |prev| {
        assert r[k].place.name == prev[k].place.name;
        assert r[k] in r;
      } else {
        assert r[|prev|] in r;
      }
    } else {
      EveryRecordGrouped(d, prefix, norm, dist, i);
      assert prefix[i] == places[i];
      var g :| g in prev && norm(g.place.name) == norm(places[i].name);
      var j :| 0 <= j < |prev| && prev[j] == g;
      assert r[j] in r;
    }
  }

  predicate NoCoordinates(places: seq<Raw>) {
    forall i | 0 <= i < |places| :: places[i].lat.None?
  }

  predicate Unlocated(groups: seq<Group>) {
    forall j | 0 <= j < |groups| :: groups[j].place.lat.None?
  }

  /** No two groups share a normalised name. */
  predicate KeysDistinct(groups: seq<Group>, norm: Normaliser) {
    forall i, j | 0 <= i < j < |groups| :: norm(groups[i].place.name) != norm(groups[j].place.name)
  }

  /** Without coordinates, grouping is by normalised name alone: group names are pairwise distinct. */
  lemma {:induction false} NamesDistinctWithoutCoordinates(d: Dialect, places: seq<Raw>, norm: Normaliser, dist: Distance)
    requires NoCoordinates(places)
    ensures Unlocated(DedupSpec(d, places, norm, dist))
    ensures KeysDistinct(DedupSpec(d, places, norm, dist), norm)
    decreases |places|
  {
    if places != [] {
      var prefix := places[..|places| - 1];
      NamesDistinctWithoutCoordinates(d, prefix, norm, dist);
      AddPlaceKeepsKeysDistinct(d, DedupSpec(d, prefix, norm, dist), places[|places| - 1], norm, dist);
    }
  }

  lemma AddPlaceKeepsKeysDistinct(d: Dialect, groups: seq<Group>, p: Raw, norm: Normaliser, dist: Distance)
    requires Unlocated(groups) && KeysDistinct(groups, norm) && p.lat.None?
    ensures Unlocated(AddPlace(d, groups, p, norm, dist))
    ensures KeysDistinct(AddPlace(d, groups, p, norm, dist), norm)
  {
    var k := FindGroup(groups, p, norm, dist);
    if k < |groups| {
      var g := Merge(d, groups[k], p);
      assert g.place.lat == groups[k].place.lat && g.place.name == groups[k].place.name;
    } else {
      forall j | 0 <= j < |groups|
        ensures norm(groups[j].place.name) != norm(p.name)
      {
        assert !IsSamePlace(groups[j].place, p, norm, dist);
      }
    }
  }

  /** The first record founds the first group. */
  lemma FirstRecordFounds(d: Dialect, p: Raw, norm: Normaliser, dist: Distance)
    ensures DedupSpec(d, [p], norm, dist) == [Group(p, [EntryOf(d, p)])]
  {
    assert [p][..0] == [];
  }

  /** A second record that is the same place as the first is merged into its group. */
  lemma SecondRecordJoins(d: Dialect, a: Raw, b: Raw, norm: Normaliser, dist: Distance)
    requires IsSamePlace(a, b, norm, dist)
    ensures DedupSpec(d, [a, b], norm, dist) == [Merge(d, Group(a, [EntryOf(d, a)]), b)]
  {
    FirstRecordFounds(d, a, norm, dist);
    DedupStep(d, [a, b], 1, norm, dist);
    assert [a, b][..1] == [a];
    assert [a, b][..2] == [a, b];
  }

  /**
   * The Python port as written: a record without a source stores "" but is
   * looked up as None, so two such records of one place give two "" entries.
   */
  lemma PythonDuplicatesMissingSource(norm: Normaliser, dist: Distance)
    ensures var p := Named("A", None, None, None);
      var r := DedupSpec(Python, [p, p], norm, dist);
      |r| == 1 && |r[0].sources| == 2 && r[0].sources[0].source == r[0].sources[1].source == Some("")
  {
    var p := Named("A", None, None, None);
    SecondRecordJoins(Python, p, p, norm, dist);
    assert !HasSource([EntryOf(Python, p)], None);
  }

  /** Two TypeScript records of one place from different sources: one group holding both sources. */
  lemma TwoSourcesMerge(a: Raw, b: Raw, norm: Normaliser, dist: Distance)
    requires IsSamePlace(a, b, norm, dist) && a.source != b.source
    ensures var r := DedupSpec(TypeScript, [a, b], norm, dist);
      |r| == 1 && r[0].place.name == a.name
      && |r[0].sources| == 2 && r[0].sources[0].source == a.source && r[0].sources[1].source == b.source
  {
    SecondRecordJoins(TypeScript, a, b, norm, dist);
    assert !HasSource([EntryOf(TypeScript, a)], b.source);
  }

  /**
   * With the pipeline's normaliser, a branch-suffixed listing and the plain
   * one from another source, neither with coordinates, become one place with
   * both sources.
   */
  lemma BranchVariantsMerge(dist: Distance)
    ensures var a := Named("강남 파스타 본점", Some("naver"), None, None);
      var b := Named("강남 파스타", Some("kakao"), None, None);
      var r := DedupSpec(TypeScript, [a, b], NormalizeName, dist);
      |r| == 1 && r[0].place.name == "강남 파스타 본점"
      && |r[0].sources| == 2 && r[0].sources[0].source == Some("naver") && r[0].sources[1].source == Some("kakao")
  {
    var a := Named("강남 파스타 본점", Some("naver"), None, None);
    var b := Named("강남 파스타", Some("kakao"), None, None);
    assert IsSamePlace(a, b, NormalizeName, dist) by {
      BranchSuffixIgnored();
    }
    TwoSourcesMerge(a, b, NormalizeName, dist);
  }
}
