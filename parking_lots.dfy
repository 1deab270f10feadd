/**
 * The ParkingLot table as the parking writers see it: find the first lot
 * with a name, create a lot, update a lot by id, delete every lot; plus
 * the "insert when the name is new" rule they all share.
 */
module ParkingLots {
  import opened Wrappers

  /** A stored lot; the database assigns the id. */
  datatype LotRow = LotRow(
    id: nat, name: string, parkingType: string, address: Option<string>, lat: real, lng: real,
    capacity: int, hourlyRate: int,
    baseTime: Option<int>, baseRate: Option<int>, extraTime: Option<int>, extraRate: Option<int>,
    freeNote: Option<string>, description: string, operatingHours: string)

  /** The data a create call supplies. */
  datatype NewLot = NewLot(
    name: string, parkingType: string, address: Option<string>, lat: real, lng: real,
    capacity: int, hourlyRate: int, description: string, operatingHours: string)

  /** A parking entry as a language model returns it: every field may be missing. */
  datatype ParkingData = ParkingData(
    name: Option<string>, address: Option<string>, lat: Option<real>, lng: Option<real>,
    capacity: Option<int>, hourlyRate: Option<int>, operatingHours: Option<string>, parkingType: Option<string>)

  /** The Seoul latitude and longitude ranges the writers accept, bounds included. */
  predicate InSeoul(lat: real, lng: real) {
    37.45 <= lat <= 37.70 && 126.76 <= lng <= 127.18
  }

  /** The rows after an update by id: every row with the new row's id is replaced by it. */
  function ReplaceId(rows: seq<LotRow>, row: LotRow): (r: seq<LotRow>)
    ensures |r| == |rows|
    ensures forall i | 0 <= i < |rows| :: r[i] == if rows[i].id == row.id then row else rows[i]
  {
    seq(|rows|, i requires 0 <= i < |rows| => if rows[i].id == row.id then row else rows[i])
  }

  /** The row a create call stores under a given id; the fare details start out unset. */
  function Stored(id: nat, n: NewLot): (r: LotRow)
    ensures r.id == id && r.name == n.name && r.lat == n.lat && r.lng == n.lng
  {
    LotRow(id, n.name, n.parkingType, n.address, n.lat, n.lng, n.capacity, n.hourlyRate,
           None, None, None, None, None, n.description, n.operatingHours)
  }

  /** The rows a run of creates stores, with consecutive ids from id. */
  function StoredFrom(id: nat, ns: seq<NewLot>): (r: seq<LotRow>)
    ensures |r| == |ns|
    ensures forall k | 0 <= k < |ns| :: r[k] == Stored(id + k, ns[k])
  {
    seq(|ns|, k requires 0 <= k < |ns| => Stored(id + k, ns[k]))
  }

  predicate HasName(rows: seq<LotRow>, name: string) {
    exists i | 0 <= i < |rows| :: rows[i].name == name
  }

  function NewNames(ns: seq<NewLot>): (r: seq<string>)
    ensures |r| == |ns|
    ensures forall k | 0 <= k < |ns| :: r[k] == ns[k].name
  {
    seq(|ns|, k requires 0 <= k < |ns| => ns[k].name)
  }

  /**
   * The lots a writer creates: the candidates (None when the writer skips
   * the entry) whose name is neither taken nor created earlier in the run.
   */
  function Admit(taken: set<string>, cands: seq<Option<NewLot>>): seq<NewLot> {
    if cands == [] then []
    else
      var prev := Admit(taken, cands[..|cands| - 1]);
      var c := cands[|cands| - 1];
      if c.Some? && c.value.name !in taken && c.value.name !in NewNames(prev) then prev + [c.value] else prev
  }

  /** One more candidate. */
  lemma AdmitStep(taken: set<string>, cands: seq<Option<NewLot>>, i: nat)
    requires i < |cands|
    ensures var prev := Admit(taken, cands[..i]);
      var c := cands[i];
      Admit(taken, cands[..i + 1]) ==
        if c.Some? && c.value.name !in taken && c.value.name !in NewNames(prev) then prev + [c.value] else prev
  {
    assert cands[..i + 1][..i] == cands[..i];
  }

  /**
   * No created name was taken before, no two created lots share a name, and
   * every admitted lot is one of the candidates; at most one per candidate.
   */
  lemma {:induction false} AdmitMeaning(taken: set<string>, cands: seq<Option<NewLot>>)
    ensures var a := Admit(taken, cands);
      |a| <= |cands| &&
      (forall k | 0 <= k < |a| :: a[k].name !in taken && Some(a[k]) in cands) &&
      (forall p, q | 0 <= p < q < |a| :: a[p].name != a[q].name)
  {
    if cands != [] {
      var init := cands[..|cands| - 1];
      AdmitMeaning(taken, init);
      var prev := Admit(taken, init);
      forall k | 0 <= k < |prev| ensures Some(prev[k]) in cands {
        assert Some(prev[k]) in init;
      }
      if cands[|cands| - 1].Some? {
        assert forall k | 0 <= k < |prev| :: NewNames(prev)[k] == prev[k].name;
      }
    }
  }

  /** Every candidate's name ends up taken or created. */
  lemma {:induction false} AdmitCovers(taken: set<string>, cands: seq<Option<NewLot>>, i: nat)
    requires i < |cands| && cands[i].Some?
    ensures cands[i].value.name in taken || cands[i].value.name in NewNames(Admit(taken, cands))
  {
    var init := cands[..|cands| - 1];
    var prev := Admit(taken, init);
    var all := Admit(taken, cands);
    var name := cands[i].value.name;
    assert |prev| <= |all| && all[..|prev|] == prev;
    if i < |cands| - 1 {
      assert init[i] == cands[i];
      AdmitCovers(taken, init, i);
    }
    if name in NewNames(prev) {
      var k :| 0 <= k < |prev| && prev[k].name == name;
      assert NewNames(all)[k] == all[k].name;
    } else if name !in taken {
      assert NewNames(all)[|prev|] == name;
    }
  }

  /** When every candidate's name is already taken, nothing is created. */
  lemma {:induction false} AdmitNone(taken: set<string>, cands: seq<Option<NewLot>>)
    requires forall k | 0 <= k < |cands| && cands[k].Some? :: cands[k].value.name in taken
    ensures Admit(taken, cands) == []
  {
    if cands != [] {
      var init := cands[..|cands| - 1];
      assert forall k | 0 <= k < |init| :: init[k] == cands[k];
      AdmitNone(taken, init);
    }
  }

  /** A name is in the table after a run of creates iff it was before or one of them has it. */
  lemma HasNameStored(rows: seq<LotRow>, id: nat, ns: seq<NewLot>, name: string)
    ensures HasName(rows + StoredFrom(id, ns), name) <==> HasName(rows, name) || name in NewNames(ns)
  {
    var all := rows + StoredFrom(id, ns);
    if HasName(all, name) {
      var i :| 0 <= i < |all| && all[i].name == name;
      if i >= |rows| {
        assert NewNames(ns)[i - |rows|] == name;
      }
    }
    if name in NewNames(ns) {
      var k :| 0 <= k < |ns| && NewNames(ns)[k] == name;
      assert all[|rows| + k].name == name;
    }
    if HasName(rows, name) {
      var i :| 0 <= i < |rows| && rows[i].name == name;
      assert all[i] == rows[i];
    }
  }

  /** One more create extends the run. */
  lemma StoredFromSnoc(id: nat, ns: seq<NewLot>, n: NewLot)
    ensures StoredFrom(id, ns) + [Stored(id + |ns|, n)] == StoredFrom(id, ns + [n])
  {
  }

  /** A candidate whose name is in the table as it stands adds nothing to the run. */
  lemma InsertSkip(rows0: seq<LotRow>, id0: nat, taken0: set<string>, cands: seq<Option<NewLot>>, i: nat)
    requires i < |cands|
    requires forall n :: n in taken0 <==> HasName(rows0, n)
    requires cands[i].Some? ==> HasName(rows0 + StoredFrom(id0, Admit(taken0, cands[..i])), cands[i].value.name)
    ensures Admit(taken0, cands[..i + 1]) == Admit(taken0, cands[..i])
  {
    var prev := Admit(taken0, cands[..i]);
    AdmitStep(taken0, cands, i);
    if cands[i].Some? {
      HasNameStored(rows0, id0, prev, cands[i].value.name);
    }
  }

  /** A candidate whose name is not in the table as it stands joins the run. */
  lemma InsertCreate(rows0: seq<LotRow>, id0: nat, taken0: set<string>, cands: seq<Option<NewLot>>, i: nat)
    requires i < |cands| && cands[i].Some?
    requires forall n :: n in taken0 <==> HasName(rows0, n)
    requires !HasName(rows0 + StoredFrom(id0, Admit(taken0, cands[..i])), cands[i].value.name)
    ensures Admit(taken0, cands[..i + 1]) == Admit(taken0, cands[..i]) + [cands[i].value]
  {
    var prev := Admit(taken0, cands[..i]);
    AdmitStep(taken0, cands, i);
    HasNameStored(rows0, id0, prev, cands[i].value.name);
  }

  /** One candidate of an insert run: it is created exactly when its name is not in the table as it stands. */
  lemma InsertNext(rows0: seq<LotRow>, id0: nat, taken0: set<string>, cands: seq<Option<NewLot>>, i: nat,
                   found: bool, rows: seq<LotRow>, rows': seq<LotRow>, added: nat, added': nat)
    requires i < |cands|
    requires forall n :: n in taken0 <==> HasName(rows0, n)
    requires rows == rows0 + StoredFrom(id0, Admit(taken0, cands[..i])) && added == |Admit(taken0, cands[..i])|
    requires cands[i].Some? ==> found == HasName(rows, cands[i].value.name)
    requires rows' == if cands[i].Some? && !found then rows + [Stored(id0 + added, cands[i].value)] else rows
    requires added' == if cands[i].Some? && !found then added + 1 else added
    ensures rows' == rows0 + StoredFrom(id0, Admit(taken0, cands[..i + 1]))
    ensures added' == |Admit(taken0, cands[..i + 1])|
  {
    var prev := Admit(taken0, cands[..i]);
    if cands[i].Some? && !found {
      var c := cands[i].value;
      InsertCreate(rows0, id0, taken0, cands, i);
      var s := Stored(id0 + |prev|, c);
      StoredFromSnoc(id0, prev, c);
      assert rows + [s] == rows0 + (StoredFrom(id0, prev) + [s]);
    } else {
      InsertSkip(rows0, id0, taken0, cands, i);
    }
  }

  /** The table. */
  class ParkingTable {
    var rows: seq<LotRow>
    var nextId: nat

    constructor (rows0: seq<LotRow>, nextId0: nat)
      ensures rows == rows0 && nextId == nextId0
    {
      rows := rows0;
      nextId := nextId0;
    }

    function Names(): (r: set<string>)
      reads this
      ensures forall n :: n in r <==> HasName(rows, n)
    {
      set i | 0 <= i < |rows| :: rows[i].name
    }

    /** `findFirst({ where: { name } })`: the first row with that exact name. */
    method FindFirst(name: string) returns (r: Option<LotRow>)
      ensures r.Some? <==> HasName(rows, name)
      ensures r.Some? ==> r.value in rows && r.value.name == name
    {
      var i := 0;
      while i < |rows|
        invariant i <= |rows|
        invariant forall j | 0 <= j < i :: rows[j].name != name
      {
        if rows[i].name == name {
          return Some(rows[i]);
        }
        i := i + 1;
      }
      return None;
    }

    /** `create`: the row is appended under the next id. */
    method Create(n: NewLot)
      modifies this
      ensures rows == old(rows) + [Stored(old(nextId), n)]
      ensures nextId == old(nextId) + 1
    {
      rows := rows + [Stored(nextId, n)];
      nextId := nextId + 1;
    }

    /**
     * The writers' loop: each candidate (None: skipped before the lookup)
     * is created when no row has its name yet, rows created earlier in the
     * run included; the number created is returned.
     */
    method InsertAbsent(cands: seq<Option<NewLot>>) returns (added: nat)
      modifies this
      ensures rows == old(rows) + StoredFrom(old(nextId), Admit(old(Names()), cands))
      ensures added == |Admit(old(Names()), cands)|
      ensures nextId == old(nextId) + added
    {
      ghost var rows0, id0, taken0 := old(rows), old(nextId), old(Names());
      added := 0;
      var i := 0;
      assert cands[..0] == [];
      while i < |cands|
        invariant i <= |cands|
        invariant rows == rows0 + StoredFrom(id0, Admit(taken0, cands[..i]))
        invariant added == |Admit(taken0, cands[..i])|
        invariant nextId == id0 + added
      {
        ghost var rows1, added1 := rows, added;
        var found := false;
        if cands[i].Some? {
          var existing := FindFirst(cands[i].value.name);
          found := existing.Some?;
          if !found {
            Create(cands[i].value);
            added := added + 1;
          }
        }
        InsertNext(rows0, id0, taken0, cands, i, found, rows1, rows, added1, added);
        i := i + 1;
      }
      WholePrefix(cands);
    }

    /** `deleteMany()`: every row goes; the count is returned. */
    method DeleteMany() returns (count: nat)
      modifies this
      ensures rows == [] && nextId == old(nextId)
      ensures count == |old(rows)|
    {
      count := |rows|;
      rows := [];
    }

    /** `update({ where: { id } })`: the row with that id is replaced. */
    method UpdateById(id: nat, row: LotRow)
      requires row.id == id
      modifies this
      ensures nextId == old(nextId)
      ensures rows == ReplaceId(old(rows), row)
    {
      rows := ReplaceId(rows, row);
    }
  }
}
