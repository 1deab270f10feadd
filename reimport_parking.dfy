/**
 * The parking re-import script: empty the ParkingLot table, ask a language
 * model for the public lots of Seoul's 25 districts five districts at a
 * time, and insert every valid lot whose trimmed name was not inserted
 * before in the run.
 */
module ReimportParking {
  import opened Wrappers
  import opened Text
  import opened ParkingLots

  /** The 25 districts, in the order they are requested. */
  const AllDistricts: seq<string> := [
    "강남구", "강동구", "강북구", "강서구", "관악구",
    "광진구", "구로구", "금천구", "노원구", "도봉구",
    "동대문구", "동작구", "마포구", "서대문구", "서초구",
    "성동구", "성북구", "송파구", "양천구", "영등포구",
    "용산구", "은평구", "종로구", "중구", "중랑구"
  ]

  const BatchSize: nat := 5

  /** `slice(i, i + n)` for i = 0, n, 2n, …: consecutive runs of at most n, in order. */
  function Batches(ds: seq<string>, n: nat): (r: seq<seq<string>>)
    requires n > 0
    ensures forall k | 0 <= k < |r| :: 0 < |r[k]| <= n
    decreases |ds|
  {
    if ds == [] then []
    else if |ds| <= n then [ds]
    else [ds[..n]] + Batches(ds[n..], n)
  }

  function Flatten(bs: seq<seq<string>>): seq<string> {
    if bs == [] then [] else bs[0] + Flatten(bs[1..])
  }

  /** The batches put back together are the list: every district is requested once, in order. */
  lemma {:induction false} BatchesCover(ds: seq<string>, n: nat)
    requires n > 0
    ensures Flatten(Batches(ds, n)) == ds
    decreases |ds|
  {
    if ds != [] && |ds| > n {
      BatchesCover(ds[n..], n);
      assert ds == ds[..n] + ds[n..];
    }
  }

  /** The 25 districts make five requests of five. */
  lemma FiveRequests()
    ensures |Batches(AllDistricts, BatchSize)| == 5
    ensures forall k | 0 <= k < 5 :: |Batches(AllDistricts, BatchSize)[k]| == BatchSize
  {
    var ds := AllDistricts;
    assert ds[5..][5..] == ds[10..];
    assert ds[10..][5..] == ds[15..];
    assert ds[15..][5..] == ds[20..];
  }

  /**
   * A request's outcome: the call threw (which ends the script), or it
   * answered; lots is None when the answer had no content or was not
   * JSON, which counts as no lots.
   */
  datatype Answer = Threw | Answered(lots: Option<seq<ParkingData>>)

  type BatchFetch = seq<string> -> Answer

  /** The lots of the batches in order, or None when one of the requests threw. */
  function Collected(bs: seq<seq<string>>, fetch: BatchFetch): (r: Option<seq<ParkingData>>)
  {
    if bs == [] then Some([])
    else
      match Collected(bs[..|bs| - 1], fetch)
      case None => None
      case Some(all) =>
        match fetch(bs[|bs| - 1])
        case Threw => None
        case Answered(lots) => Some(all + lots.GetOr([]))
  }

  lemma CollectedStep(bs: seq<seq<string>>, b: seq<string>, fetch: BatchFetch)
    ensures Collected(bs + [b], fetch) ==
      match Collected(bs, fetch)
      case None => None
      case Some(all) =>
        match fetch(b)
        case Threw => None
        case Answered(lots) => Some(all + lots.GetOr([]))
  {
    assert (bs + [b])[..|bs|] == bs;
  }

  /** Once a request threw, so did the run: a prefix with no lots leaves none for the whole. */
  lemma {:induction false} CollectedPrefix(bs: seq<seq<string>>, rest: seq<seq<string>>, fetch: BatchFetch)
    requires Collected(bs, fetch).None?
    ensures Collected(bs + rest, fetch).None?
    decreases |rest|
  {
    if rest != [] {
      var init := rest[..|rest| - 1];
      CollectedPrefix(bs, init, fetch);
      assert bs + rest == (bs + init) + [rest[|rest| - 1]];
      CollectedStep(bs + init, rest[|rest| - 1], fetch);
    } else {
      assert bs + rest == bs;
    }
  }

  /** The loop's next slice is the first batch of what is left. */
  lemma BatchesStep(ds: seq<string>, i: nat, batch: seq<string>)
    requires i < |ds|
    requires batch == if i + BatchSize <= |ds| then ds[i..i + BatchSize] else ds[i..]
    ensures Batches(ds[i..], BatchSize) == [batch] + Batches(ds[i + |batch|..], BatchSize)
  {
    var rest := ds[i..];
    assert rest[|batch|..] == ds[i + |batch|..];
    if |rest| <= BatchSize {
      assert batch == rest;
      assert rest[|batch|..] == [];
    } else {
      assert rest[..BatchSize] == batch;
    }
  }

  /** One more request of the collecting loop, with the state before it and the answer. */
  lemma CollectNext(ds: seq<string>, i: nat, batch: seq<string>, requested: seq<seq<string>>,
                    acc: seq<ParkingData>, fetch: BatchFetch)
    requires i < |ds|
    requires batch == if i + BatchSize <= |ds| then ds[i..i + BatchSize] else ds[i..]
    requires requested + Batches(ds[i..], BatchSize) == Batches(ds, BatchSize)
    requires Collected(requested, fetch) == Some(acc)
    ensures 0 < |batch| && i + |batch| <= |ds|
    ensures fetch(batch).Threw? ==> Collected(Batches(ds, BatchSize), fetch).None?
    ensures fetch(batch).Answered? ==>
      (requested + [batch]) + Batches(ds[i + |batch|..], BatchSize) == Batches(ds, BatchSize) &&
      Collected(requested + [batch], fetch) == Some(acc + fetch(batch).lots.GetOr([]))
  {
    var rest := Batches(ds[i + |batch|..], BatchSize);
    assert (requested + [batch]) + rest == Batches(ds, BatchSize) by {
      BatchesStep(ds, i, batch);
      assert (requested + [batch]) + rest == requested + ([batch] + rest);
    }
    CollectedStep(requested, batch, fetch);
    if fetch(batch).Threw? {
      CollectedPrefix(requested + [batch], rest, fetch);
    }
  }

  /** `main`'s first loop: the districts in batches of five, the answers appended in order. */
  method CollectParking(ds: seq<string>, fetch: BatchFetch) returns (all: Option<seq<ParkingData>>)
    ensures all == Collected(Batches(ds, BatchSize), fetch)
  {
    var acc: seq<ParkingData> := [];
    ghost var requested: seq<seq<string>> := [];
    var i := 0;
    assert ds[0..] == ds;
    while i < |ds|
      invariant i <= |ds|
      invariant requested + Batches(ds[i..], BatchSize) == Batches(ds, BatchSize)
      invariant Collected(requested, fetch) == Some(acc)
      decreases |ds| - i
    {
      var batch := if i + BatchSize <= |ds| then ds[i..i + BatchSize] else ds[i..];
      CollectNext(ds, i, batch, requested, acc, fetch);
      var answer := fetch(batch);
      if answer.Threw? {
        return None;
      }
      acc := acc + answer.lots.GetOr([]);
      requested := requested + [batch];
      i := i + |batch|;
    }
    assert ds[i..] == [];
    assert requested + [] == requested;
    return Some(acc);
  }

  /** The lot a record inserts, or None when it is skipped for a missing name, a falsy or out-of-range coordinate. */
  function Candidate(p: ParkingData): (c: Option<NewLot>)
    ensures c.Some? <==> TruthyStr(p.name) && TruthyNum(p.lat) && TruthyNum(p.lng) && InSeoul(p.lat.value, p.lng.value)
    ensures c.Some? ==> (c.value.name == Trim(p.name.value) && InSeoul(c.value.lat, c.value.lng) &&
                         c.value.parkingType != "" && c.value.operatingHours != "")
  {
    if !(TruthyStr(p.name) && TruthyNum(p.lat) && TruthyNum(p.lng)) then None
    else if !InSeoul(p.lat.value, p.lng.value) then None
    else
      var key := Trim(p.name.value);
      Some(NewLot(key, StrOr(p.parkingType, "공영"), if TruthyStr(p.address) then p.address else None,
                  p.lat.value, p.lng.value, IntOr(p.capacity, 0), IntOr(p.hourlyRate, 0),
                  StrOr(p.address, key), StrOr(p.operatingHours, "00:00~24:00")))
  }

  function Candidates(all: seq<ParkingData>): (r: seq<Option<NewLot>>)
    ensures |r| == |all| && forall k | 0 <= k < |all| :: r[k] == Candidate(all[k])
  {
    seq(|all|, k requires 0 <= k < |all| => Candidate(all[k]))
  }

  /** The run's created names, as a set. */
  function Seen(ns: seq<NewLot>): set<string> {
    if ns == [] then {} else Seen(ns[..|ns| - 1]) + {ns[|ns| - 1].name}
  }

  /** The set holds exactly the created names. */
  lemma {:induction false} SeenMeaning(ns: seq<NewLot>, n: string)
    ensures n in Seen(ns) <==> n in NewNames(ns)
  {
    if ns != [] {
      var init := ns[..|ns| - 1];
      SeenMeaning(init, n);
      assert NewNames(ns) == NewNames(init) + [ns[|ns| - 1].name];
    }
  }

  /** The insert loop's state after the first i records. */
  ghost predicate InsertedUpTo(rows0: seq<LotRow>, id0: nat, cands: seq<Option<NewLot>>, i: nat,
                               rows: seq<LotRow>, seen: set<string>, n: nat)
  {
    i <= |cands| &&
    rows == rows0 + StoredFrom(id0, Admit({}, cands[..i])) && n == |Admit({}, cands[..i])| &&
    seen == Seen(Admit({}, cands[..i]))
  }

  /** One more record of the insert loop, with the state before and after it. */
  lemma InsertNext(rows0: seq<LotRow>, id0: nat, cands: seq<Option<NewLot>>, i: nat,
                   rows: seq<LotRow>, rows': seq<LotRow>, seen: set<string>, seen': set<string>, n: nat, n': nat)
    requires i < |cands| && InsertedUpTo(rows0, id0, cands, i, rows, seen, n)
    requires var c := cands[i];
      if c.Some? && c.value.name !in seen then
        rows' == rows + [Stored(id0 + n, c.value)] && seen' == seen + {c.value.name} && n' == n + 1
      else rows' == rows && seen' == seen && n' == n
    ensures InsertedUpTo(rows0, id0, cands, i + 1, rows', seen', n')
  {
    var prev := Admit({}, cands[..i]);
    AdmitStep({}, cands, i);
    if cands[i].Some? {
      SeenMeaning(prev, cands[i].value.name);
      if cands[i].value.name !in seen {
        StoredFromSnoc(id0, prev, cands[i].value);
        assert (prev + [cands[i].value])[..|prev|] == prev;
      }
    }
  }

  /**
   * `main`'s second loop over the records' candidates: each one is created
   * unless it is None or its name was created earlier in the run, with the
   * run's names kept in a set; inserted + skipped counts every record.
   */
  method InsertUnseen(table: ParkingTable, cands: seq<Option<NewLot>>) returns (inserted: nat, skipped: nat)
    modifies table
    ensures table.rows == old(table.rows) + StoredFrom(old(table.nextId), Admit({}, cands))
    ensures inserted == |Admit({}, cands)| && inserted + skipped == |cands|
  {
    ghost var rows0, id0 := old(table.rows), old(table.nextId);
    inserted, skipped := 0, 0;
    var seen: set<string> := {};
    var i := 0;
    assert cands[..0] == [];
    while i < |cands|
      invariant InsertedUpTo(rows0, id0, cands, i, table.rows, seen, inserted)
      invariant inserted + skipped == i && table.nextId == id0 + inserted
    {
      var c := cands[i];
      ghost var rows1, seen1, inserted1 := table.rows, seen, inserted;
      if c.None? || c.value.name in seen {
        skipped := skipped + 1;
      } else {
        seen := seen + {c.value.name};
        table.Create(c.value);
        inserted := inserted + 1;
      }
      InsertNext(rows0, id0, cands, i, rows1, table.rows, seen1, seen, inserted1, inserted);
      i := i + 1;
    }
    WholePrefix(cands);
  }

  /** How the script ends: the first failing request aborts it, after the table was emptied. */
  datatype Outcome = Aborted(deleted: nat) | Finished(deleted: nat, inserted: nat, skipped: nat)

  /** `main`. */
  method Reimport(table: ParkingTable, fetch: BatchFetch) returns (o: Outcome)
    modifies table
    ensures o.deleted == |old(table.rows)|
    ensures o.Aborted? <==> Collected(Batches(AllDistricts, BatchSize), fetch).None?
    ensures o.Aborted? ==> table.rows == []
    ensures o.Finished? ==>
      var created := Admit({}, Candidates(Collected(Batches(AllDistricts, BatchSize), fetch).value));
      table.rows == StoredFrom(old(table.nextId), created) && o.inserted == |created| &&
      o.inserted + o.skipped == |Collected(Batches(AllDistricts, BatchSize), fetch).value|
  {
    var deleted := table.DeleteMany();
    var all := CollectParking(AllDistricts, fetch);
    if all.None? {
      return Aborted(deleted);
    }
    var inserted, skipped := InsertUnseen(table, Candidates(all.value));
    return Finished(deleted, inserted, skipped);
  }

  /**
   * After the run the table holds exactly the created lots: all inside
   * Seoul's ranges, no two with the same name, at most one per record.
   */
  lemma ReimportedLots(all: seq<ParkingData>, id: nat)
    ensures var created := Admit({}, Candidates(all));
      |created| <= |all| &&
      (forall k | 0 <= k < |created| :: InSeoul(created[k].lat, created[k].lng) && Trimmed(created[k].name)) &&
      (forall p, q | 0 <= p < q < |created| :: created[p].name != created[q].name)
  {
    var cands := Candidates(all);
    AdmitMeaning({}, cands);
    var created := Admit({}, cands);
    forall k | 0 <= k < |created|
      ensures InSeoul(created[k].lat, created[k].lng) && Trimmed(created[k].name)
    {
      var j :| 0 <= j < |cands| && cands[j] == Some(created[k]);
      assert cands[j] == Candidate(all[j]);
    }
  }
}
