/**
 * The Yongsan import script: a language model lists Yongsan-gu's public
 * parking lots, and every entry with a name and non-zero coordinates is
 * created unless a lot with exactly that name is already stored.
 */
module ImportYongsan {
  import opened Wrappers
  import opened Text
  import opened ParkingLots

  const DefaultType := "공영"

  /** The description the script writes: district, type and the address. */
  function Describe(parkingType: string, address: string): (d: string)
    ensures StartsWith(d, "용산구 ")
    ensures Contains(d, "용산구")
  {
    var d := "용산구 " + parkingType + " 주차장 - " + address;
    assert OccursAt(d, "용산구", 0);
    d
  }

  /**
   * The lot an entry creates, or None when it is skipped as incomplete:
   * a missing or empty name, or a missing or zero coordinate. The name is
   * kept as given, the address goes into the description only, the range
   * of the coordinates is not checked.
   */
  function Candidate(p: ParkingData): (c: Option<NewLot>)
    ensures c.Some? <==> TruthyStr(p.name) && TruthyNum(p.lat) && TruthyNum(p.lng)
    ensures c.Some? ==>
      (c.value.name == p.name.value && c.value.lat == p.lat.value && c.value.lng == p.lng.value &&
       c.value.address.None? && Contains(c.value.description, "용산구") &&
       (p.parkingType.None? ==> c.value.parkingType == DefaultType) &&
       c.value.parkingType != "" && c.value.operatingHours != "")
  {
    if !TruthyStr(p.name) || !TruthyNum(p.lat) || !TruthyNum(p.lng) then None
    else
      var kind := StrOr(p.parkingType, DefaultType);
      Some(NewLot(p.name.value, kind, None, p.lat.value, p.lng.value,
                  IntOr(p.capacity, 0), IntOr(p.hourlyRate, 0),
                  Describe(kind, StrOr(p.address, "")), StrOr(p.operatingHours, "24시간")))
  }

  function Candidates(list: seq<ParkingData>): (r: seq<Option<NewLot>>)
    ensures |r| == |list| && forall k | 0 <= k < |list| :: r[k] == Candidate(list[k])
  {
    seq(|list|, k requires 0 <= k < |list| => Candidate(list[k]))
  }

  /** How the script ends: without data (no reply content, or not JSON), or with its two counts. */
  datatype Outcome = NoData | Imported(inserted: nat, skipped: nat)

  /**
   * `main` after the request: reply is the parsed answer, None when it had
   * no content or was not JSON, which ends the script before any write.
   */
  method ImportLots(table: ParkingTable, reply: Option<seq<ParkingData>>) returns (o: Outcome)
    modifies table
    ensures reply.None? ==> o == NoData && table.rows == old(table.rows) && table.nextId == old(table.nextId)
    ensures reply.Some? ==>
      var created := Admit(old(table.Names()), Candidates(reply.value));
      o.Imported? && table.rows == old(table.rows) + StoredFrom(old(table.nextId), created) &&
      o.inserted == |created| && o.inserted + o.skipped == |reply.value|
  {
    if reply.None? {
      return NoData;
    }
    var list := reply.value;
    var inserted := table.InsertAbsent(Candidates(list));
    AdmitMeaning(old(table.Names()), Candidates(list));
    return Imported(inserted, |list| - inserted);
  }

  /** The closing count's filter: a Yongsan description, or a name with one of the area's place names. */
  predicate YongsanRelated(r: LotRow) {
    Contains(r.description, "용산구") || Contains(r.name, "용산") || Contains(r.name, "이태원") ||
    Contains(r.name, "한남") || Contains(r.name, "녹사평") || Contains(r.name, "경리단")
  }

  /** The number of Yongsan-related rows. */
  function YongsanCount(rows: seq<LotRow>): (n: nat)
    ensures n <= |rows|
  {
    if rows == [] then 0
    else YongsanCount(rows[..|rows| - 1]) + (if YongsanRelated(rows[|rows| - 1]) then 1 else 0)
  }

  lemma {:induction false} YongsanCountAppend(rows: seq<LotRow>, more: seq<LotRow>)
    requires forall k | 0 <= k < |more| :: YongsanRelated(more[k])
    ensures YongsanCount(rows + more) == YongsanCount(rows) + |more|
    decreases |more|
  {
    if more == [] {
      assert rows + more == rows;
    } else {
      var init := more[..|more| - 1];
      YongsanCountAppend(rows, init);
      assert (rows + more)[..|rows + more| - 1] == rows + init;
    }
  }

  /**
   * Every lot the script creates counts as Yongsan-related, so the closing
   * count grows by exactly the number inserted.
   */
  lemma ImportedAreCounted(rows: seq<LotRow>, id: nat, taken: set<string>, list: seq<ParkingData>)
    ensures var created := Admit(taken, Candidates(list));
      YongsanCount(rows + StoredFrom(id, created)) == YongsanCount(rows) + |created|
  {
    var cands := Candidates(list);
    var created := Admit(taken, cands);
    AdmitMeaning(taken, cands);
    var more := StoredFrom(id, created);
    forall k | 0 <= k < |more| ensures YongsanRelated(more[k]) {
      var j :| 0 <= j < |cands| && cands[j] == Some(created[k]);
      assert cands[j] == Candidate(list[j]);
    }
    YongsanCountAppend(rows, more);
  }

  /** A second run over the same answer creates nothing: every name it would create is stored. */
  lemma ImportTwice(rows: seq<LotRow>, id: nat, list: seq<ParkingData>)
    ensures var taken := set i | 0 <= i < |rows| :: rows[i].name;
      var rows' := rows + StoredFrom(id, Admit(taken, Candidates(list)));
      Admit(set i | 0 <= i < |rows'| :: rows'[i].name, Candidates(list)) == []
  {
    var cands := Candidates(list);
    var taken := set i | 0 <= i < |rows| :: rows[i].name;
    var created := Admit(taken, cands);
    var rows' := rows + StoredFrom(id, created);
    var taken' := set i | 0 <= i < |rows'| :: rows'[i].name;
    forall k | 0 <= k < |cands| && cands[k].Some? ensures cands[k].value.name in taken' {
      AdmitCovers(taken, cands, k);
      var name := cands[k].value.name;
      if name in taken {
        var i :| 0 <= i < |rows| && rows[i].name == name;
        assert rows'[i].name == name;
      } else {
        var j :| 0 <= j < |created| && NewNames(created)[j] == name;
        assert rows'[|rows| + j].name == name;
      }
    }
    AdmitNone(taken', cands);
  }
}
