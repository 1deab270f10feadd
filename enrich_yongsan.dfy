/**
 * The Yongsan enrichment script: the public lots whose description names
 * Yongsan-gu are listed to a language model, and every entry of its answer
 * that matches one of them by name rewrites that lot's address, hours,
 * capacity, fares, free-parking note and description.
 */
module EnrichYongsan {
  import opened Wrappers
  import opened Text
  import opened ParkingLots
  import ImportYongsan

  /** One entry of the model's answer; every field but the name may be missing. */
  datatype EnrichedParking = EnrichedParking(
    name: string, address: Option<string>, operatingHours: Option<string>, capacity: Option<int>,
    baseTime: Option<int>, baseRate: Option<int>, extraTime: Option<int>, extraRate: Option<int>,
    hourlyRate: Option<int>, freeNote: Option<string>, description: Option<string>)

  /** The lots the script works on: a description containing "용산구" and the type "공영". */
  predicate IsTarget(r: LotRow) {
    Contains(r.description, "용산구") && r.parkingType == "공영"
  }

  /** `findMany` with that filter, in table order. */
  function Targets(rows: seq<LotRow>): (r: seq<LotRow>)
    ensures |r| <= |rows|
    ensures forall k | 0 <= k < |r| :: IsTarget(r[k]) && r[k] in rows
    ensures forall row | row in rows && IsTarget(row) :: row in r
  {
    if rows == [] then []
    else
      var init := Targets(rows[..|rows| - 1]);
      var last := rows[|rows| - 1];
      assert forall row | row in rows :: row in rows[..|rows| - 1] || row == last;
      if IsTarget(last) then init + [last] else init
  }

  /** The name test: equal, or one name contains the other once white space is removed. */
  predicate NameMatches(t: LotRow, name: string) {
    t.name == name ||
    Contains(RemoveSpace(t.name), RemoveSpace(name)) || Contains(RemoveSpace(name), RemoveSpace(t.name))
  }

  /** `targets.find(...)`: the index of the first target whose name matches, or None. */
  function MatchIndex(targets: seq<LotRow>, name: string): (r: Option<nat>)
    ensures r.Some? ==> r.value < |targets| && NameMatches(targets[r.value], name)
    ensures r.Some? ==> forall j | 0 <= j < r.value :: !NameMatches(targets[j], name)
    ensures r.None? ==> forall j | 0 <= j < |targets| :: !NameMatches(targets[j], name)
    decreases |targets|
  {
    if targets == [] then None
    else if NameMatches(targets[0], name) then Some(0)
    else
      match MatchIndex(targets[1..], name)
      case None => None
      case Some(k) => Some(k + 1)
  }

  /**
   * The row after an update from an entry: the entry's address and note or
   * nothing, its hours, positive capacity and hourly rate and description
   * when present, else the lot's own; the four fare fields fall back to
   * 30 minutes, 1000 won, 5 minutes and 250 won.
   */
  function Enriched(t: LotRow, e: EnrichedParking): (r: LotRow)
    ensures r.id == t.id && r.name == t.name && r.parkingType == t.parkingType && r.lat == t.lat && r.lng == t.lng
    ensures r.address == (if TruthyStr(e.address) then e.address else None)
    ensures r.freeNote == (if TruthyStr(e.freeNote) then e.freeNote else None)
    ensures r.capacity == t.capacity || r.capacity > 0
    ensures r.hourlyRate == t.hourlyRate || r.hourlyRate > 0
    ensures Fared(r)
  {
    t.(address := if TruthyStr(e.address) then e.address else None,
       operatingHours := StrOr(e.operatingHours, t.operatingHours),
       capacity := if e.capacity.Some? && e.capacity.value > 0 then e.capacity.value else t.capacity,
       baseTime := Some(IntOr(e.baseTime, 30)),
       baseRate := Some(IntOr(e.baseRate, 1000)),
       extraTime := Some(IntOr(e.extraTime, 5)),
       extraRate := Some(IntOr(e.extraRate, 250)),
       hourlyRate := if e.hourlyRate.Some? && e.hourlyRate.value > 0 then e.hourlyRate.value else t.hourlyRate,
       freeNote := if TruthyStr(e.freeNote) then e.freeNote else None,
       description := StrOr(e.description, t.description))
  }

  /** A lot with all four fare fields set to non-zero values. */
  predicate Fared(r: LotRow) {
    TruthyInt(r.baseTime) && TruthyInt(r.baseRate) && TruthyInt(r.extraTime) && TruthyInt(r.extraRate)
  }

  /**
   * The table after the entries in order: each matching entry replaces its
   * target's row, computed from the target as it was listed before the loop.
   */
  function EnrichSpec(targets: seq<LotRow>, rows: seq<LotRow>, list: seq<EnrichedParking>): (r: seq<LotRow>)
    ensures |r| == |rows| && forall i | 0 <= i < |rows| :: r[i].id == rows[i].id
  {
    if list == [] then rows
    else
      var prev := EnrichSpec(targets, rows, list[..|list| - 1]);
      var e := list[|list| - 1];
      match MatchIndex(targets, e.name)
      case None => prev
      case Some(k) => ReplaceId(prev, Enriched(targets[k], e))
  }

  /** The number of entries that match a target. */
  function Matched(targets: seq<LotRow>, list: seq<EnrichedParking>): (n: nat)
    ensures n <= |list|
  {
    if list == [] then 0
    else Matched(targets, list[..|list| - 1]) + (if MatchIndex(targets, list[|list| - 1].name).Some? then 1 else 0)
  }

  /** One more entry of the update loop. */
  lemma EnrichNext(targets: seq<LotRow>, rows0: seq<LotRow>, list: seq<EnrichedParking>, i: nat,
                   rows: seq<LotRow>, rows': seq<LotRow>, n: nat, n': nat)
    requires i < |list|
    requires rows == EnrichSpec(targets, rows0, list[..i]) && n == Matched(targets, list[..i])
    requires var m := MatchIndex(targets, list[i].name);
      if m.Some? then rows' == ReplaceId(rows, Enriched(targets[m.value], list[i])) && n' == n + 1
      else rows' == rows && n' == n
    ensures rows' == EnrichSpec(targets, rows0, list[..i + 1]) && n' == Matched(targets, list[..i + 1])
  {
    assert list[..i + 1][..i] == list[..i];
  }

  /** One entry: find its target and, when there is one, update that lot from the entry. */
  method UpdateOne(table: ParkingTable, targets: seq<LotRow>, e: EnrichedParking) returns (found: bool)
    modifies table
    ensures var m := MatchIndex(targets, e.name);
      found == m.Some? &&
      table.rows == (if m.Some? then ReplaceId(old(table.rows), Enriched(targets[m.value], e)) else old(table.rows))
    ensures table.nextId == old(table.nextId)
  {
    var existing := MatchIndex(targets, e.name);
    found := existing.Some?;
    if found {
      var t := targets[existing.value];
      table.UpdateById(t.id, Enriched(t, e));
    }
  }

  /** One pass of the update loop: entry i is applied on top of the first i. */
  method EnrichStep(table: ParkingTable, targets: seq<LotRow>, ghost rows0: seq<LotRow>, list: seq<EnrichedParking>, i: nat, updated: nat)
    returns (updated': nat)
    modifies table
    requires i < |list|
    requires table.rows == EnrichSpec(targets, rows0, list[..i]) && updated == Matched(targets, list[..i])
    ensures table.rows == EnrichSpec(targets, rows0, list[..i + 1]) && updated' == Matched(targets, list[..i + 1])
    ensures table.nextId == old(table.nextId)
  {
    ghost var rows1 := table.rows;
    var found := UpdateOne(table, targets, list[i]);
    updated' := if found then updated + 1 else updated;
    EnrichNext(targets, rows0, list, i, rows1, table.rows, updated, updated');
  }

  /** The update loop: each entry is matched against the listed targets and updates the first match. */
  method UpdateMatches(table: ParkingTable, targets: seq<LotRow>, list: seq<EnrichedParking>) returns (updated: nat)
    modifies table
    ensures table.rows == EnrichSpec(targets, old(table.rows), list)
    ensures table.nextId == old(table.nextId)
    ensures updated == Matched(targets, list)
  {
    ghost var rows0 := old(table.rows);
    updated := 0;
    var i := 0;
    assert list[..0] == [];
    while i < |list|
      invariant i <= |list|
      invariant table.rows == EnrichSpec(targets, rows0, list[..i]) && updated == Matched(targets, list[..i])
      invariant table.nextId == old(table.nextId)
    {
      updated := EnrichStep(table, targets, rows0, list, i, updated);
      i := i + 1;
    }
    WholePrefix(list);
  }

  /** What the request is given: the names of the targets, in order. */
  function TargetNames(targets: seq<LotRow>): (r: seq<string>)
    ensures |r| == |targets| && forall k | 0 <= k < |targets| :: r[k] == targets[k].name
  {
    seq(|targets|, k requires 0 <= k < |targets| => targets[k].name)
  }

  /**
   * `main`: list the targets, ask the model about their names (None: no
   * content or not JSON, which ends the script), then update.
   */
  method Enrich(table: ParkingTable, ask: seq<string> -> Option<seq<EnrichedParking>>) returns (updated: Option<nat>)
    modifies table
    ensures var targets := Targets(old(table.rows));
      var reply := ask(TargetNames(targets));
      (reply.None? <==> updated.None?) &&
      (reply.None? ==> table.rows == old(table.rows)) &&
      (reply.Some? ==> table.rows == EnrichSpec(targets, old(table.rows), reply.value) &&
                       updated == Some(Matched(targets, reply.value)))
    ensures table.nextId == old(table.nextId)
  {
    var targets := Targets(table.rows);
    var reply := ask(TargetNames(targets));
    if reply.None? {
      return None;
    }
    var n := UpdateMatches(table, targets, reply.value);
    return Some(n);
  }

  // ---------------------------------------------------------------- lemmas

  /** No two rows share an id. */
  predicate UniqueIds(rows: seq<LotRow>) {
    forall i, j | 0 <= i < j < |rows| :: rows[i].id != rows[j].id
  }

  /** What the run may do to one row: keep it, or give it fares while keeping id, name, type and place. */
  predicate Rewritten(before: LotRow, after: LotRow) {
    after == before ||
    (after.id == before.id && after.name == before.name && after.parkingType == before.parkingType &&
     after.lat == before.lat && after.lng == before.lng && Fared(after))
  }

  /** One matching entry rewrites only its target's row, as Rewritten allows. */
  lemma FrameStep(targets: seq<LotRow>, rows: seq<LotRow>, prev: seq<LotRow>, t: LotRow, e: EnrichedParking)
    requires UniqueIds(rows) && t in rows && |prev| == |rows|
    requires forall i | 0 <= i < |rows| :: Rewritten(rows[i], prev[i])
    ensures var r := ReplaceId(prev, Enriched(t, e));
      forall i | 0 <= i < |rows| :: Rewritten(rows[i], r[i]) && (rows[i].id != t.id ==> r[i] == prev[i])
  {
    var r := ReplaceId(prev, Enriched(t, e));
    forall i | 0 <= i < |rows| ensures Rewritten(rows[i], r[i]) {
      if prev[i].id == t.id {
        var j :| 0 <= j < |rows| && rows[j] == t;
        assert rows[i].id == prev[i].id;
        assert i == j;
      }
    }
  }

  /**
   * Over rows with unique ids and targets drawn from them, the run keeps
   * every row or rewrites it as Rewritten allows, and a row whose id is no
   * target's stays exactly as it was.
   */
  lemma {:induction false} EnrichFrame(targets: seq<LotRow>, rows: seq<LotRow>, list: seq<EnrichedParking>)
    requires UniqueIds(rows) && forall k | 0 <= k < |targets| :: targets[k] in rows
    ensures var r := EnrichSpec(targets, rows, list);
      forall i | 0 <= i < |rows| :: Rewritten(rows[i], r[i])
    ensures var r := EnrichSpec(targets, rows, list);
      forall i | 0 <= i < |rows| && (forall k | 0 <= k < |targets| :: targets[k].id != rows[i].id) :: r[i] == rows[i]
  {
    if list != [] {
      var init := list[..|list| - 1];
      EnrichFrame(targets, rows, init);
      var e := list[|list| - 1];
      var m := MatchIndex(targets, e.name);
      if m.Some? {
        FrameStep(targets, rows, EnrichSpec(targets, rows, init), targets[m.value], e);
      }
    }
  }

  /** On the table's own targets, the update only ever rewrites target rows. */
  lemma OnlyTargetsChange(rows: seq<LotRow>, list: seq<EnrichedParking>)
    requires UniqueIds(rows)
    ensures var r := EnrichSpec(Targets(rows), rows, list);
      forall i | 0 <= i < |rows| && !IsTarget(rows[i]) :: r[i] == rows[i]
  {
    var targets := Targets(rows);
    EnrichFrame(targets, rows, list);
    forall i, k | 0 <= i < |rows| && !IsTarget(rows[i]) && 0 <= k < |targets|
      ensures targets[k].id != rows[i].id
    {
      var j :| 0 <= j < |rows| && rows[j] == targets[k];
      assert j != i;
    }
  }

  /** An entry whose name is blank matches the first target, whatever the target is called. */
  lemma BlankNameMatchesFirst(targets: seq<LotRow>, name: string)
    requires targets != [] && RemoveSpace(name) == ""
    ensures MatchIndex(targets, name) == Some(0)
  {
    assert OccursAt(RemoveSpace(targets[0].name), "", 0);
  }

  /** The last matching entry for a target decides its fares: earlier updates are overwritten. */
  lemma LaterEntryWins(targets: seq<LotRow>, rows: seq<LotRow>, list: seq<EnrichedParking>, e: EnrichedParking, i: nat)
    requires i < |rows| && MatchIndex(targets, e.name).Some?
    requires rows[i].id == targets[MatchIndex(targets, e.name).value].id
    ensures EnrichSpec(targets, rows, list + [e])[i] == Enriched(targets[MatchIndex(targets, e.name).value], e)
  {
    assert (list + [e])[..|list|] == list;
  }

  /** Every lot the import script creates with the default type is one of the enrichment's targets. */
  lemma ImportedDefaultsAreTargets(p: ParkingData, id: nat)
    requires ImportYongsan.Candidate(p).Some? && p.parkingType.None?
    ensures IsTarget(Stored(id, ImportYongsan.Candidate(p).value))
  {
  }
}
