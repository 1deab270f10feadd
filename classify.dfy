/**
 * The place classifier (`classify.ts`, `classify.py`): crawled places are
 * sent to a language model in batches of thirty, and every answer naming
 * one of the four dining types is recorded by place name; the types found
 * are then written to the crawled rows that have that name.
 */
module Classify {
  import opened Wrappers

  const BatchSize: nat := 30
  const DescLimit: nat := 60
  const ValidTypes: set<string> := {"restaurant", "cafe", "bar", "bakery"}

  /** A place to classify; absent fields are None. */
  datatype Candidate = Candidate(name: string, category: Option<string>, tags: Option<string>, description: Option<string>)

  /** What is sent for one place. */
  datatype Item = Item(name: string, category: string, tags: string, desc: string)

  /** One entry of the model's JSON array. */
  datatype Answer = Answer(name: string, kind: string)

  /** The model call for one batch: None when it throws, answers nothing, or its answer does not parse. */
  type Classifier = seq<Item> -> Option<seq<Answer>>

  /** The item of a place: absent text becomes empty and the description keeps its first sixty characters. */
  function ItemOf(p: Candidate): (it: Item)
    ensures it.name == p.name
    ensures |it.desc| <= DescLimit && |it.desc| <= |p.description.GetOr("")|
    ensures it.desc == p.description.GetOr("")[..|it.desc|]
    ensures |p.description.GetOr("")| <= DescLimit ==> it.desc == p.description.GetOr("")
  {
    Item(p.name, p.category.GetOr(""), p.tags.GetOr(""), Take(p.description.GetOr(""), DescLimit))
  }

  function Items(batch: seq<Candidate>): (r: seq<Item>)
    ensures |r| == |batch| && forall k | 0 <= k < |batch| :: r[k] == ItemOf(batch[k])
  {
    seq(|batch|, k requires 0 <= k < |batch| => ItemOf(batch[k]))
  }

  // ---------------------------------------------------------------- batches

  function Min(a: nat, b: nat): nat {
    if a <= b then a else b
  }

  /** The batches `slice(i, i + 30)` for i = start, start + 30, … below the length. */
  function BatchesFrom<T>(s: seq<T>, start: nat): seq<seq<T>>
    decreases |s| - start
  {
    if start >= |s| then [] else [s[start..Min(start + BatchSize, |s|)]] + BatchesFrom(s, start + BatchSize)
  }

  function Flatten<T>(bs: seq<seq<T>>): seq<T> {
    if bs == [] then [] else bs[0] + Flatten(bs[1..])
  }

  /**
   * The batches cover the input in order, each place exactly once; none is
   * empty or larger than thirty, and only the last may be smaller.
   */
  lemma {:induction false} BatchesCover<T>(s: seq<T>, start: nat)
    requires start <= |s|
    ensures Flatten(BatchesFrom(s, start)) == s[start..]
    ensures forall k | 0 <= k < |BatchesFrom(s, start)| :: 1 <= |BatchesFrom(s, start)[k]| <= BatchSize
    ensures forall k | 0 <= k < |BatchesFrom(s, start)| - 1 :: |BatchesFrom(s, start)[k]| == BatchSize
    decreases |s| - start
  {
    if start < |s| {
      var end := Min(start + BatchSize, |s|);
      var rest := BatchesFrom(s, start + BatchSize);
      if end < |s| {
        BatchesCover(s, end);
        assert s[start..] == s[start..end] + s[end..];
      } else {
        assert rest == [];
      }
      assert BatchesFrom(s, start)[1..] == rest;
    }
  }

  /** Thirty places or fewer make a single batch; none make none. */
  lemma BatchCount<T>(s: seq<T>)
    ensures s == [] <==> BatchesFrom(s, 0) == []
    ensures 0 < |s| <= BatchSize ==> BatchesFrom(s, 0) == [s]
  {
    if 0 < |s| <= BatchSize {
      assert s[0..|s|] == s;
    }
  }

  // ---------------------------------------------------------------- recording answers

  predicate Valid(a: Answer) {
    a.kind in ValidTypes
  }

  /** The answers recorded in turn: a valid type sets the name's entry, anything else is ignored. */
  function Record(m: map<string, string>, answers: seq<Answer>): map<string, string>
    decreases |answers|
  {
    if answers == [] then m
    else Record(if Valid(answers[0]) then m[answers[0].name := answers[0].kind] else m, answers[1..])
  }

  /** The index of the last valid answer for name. */
  function LastValid(answers: seq<Answer>, name: string): (r: Option<nat>)
    ensures r.Some? ==> r.value < |answers| && Valid(answers[r.value]) && answers[r.value].name == name
  {
    if answers == [] then None
    else match LastValid(answers[1..], name)
      case Some(k) => Some(k + 1)
      case None => if Valid(answers[0]) && answers[0].name == name then Some(0) else None
  }

  /** A name takes the type of its last valid answer; a name with none keeps what it had. */
  lemma {:induction false} RecordMeaning(m: map<string, string>, answers: seq<Answer>, name: string)
    decreases |answers|
    ensures LastValid(answers, name).Some? ==>
      name in Record(m, answers) && Record(m, answers)[name] == answers[LastValid(answers, name).value].kind
    ensures LastValid(answers, name).None? ==>
      (name in Record(m, answers) <==> name in m) && (name in m ==> Record(m, answers)[name] == m[name])
  {
    if answers != [] {
      var m' := if Valid(answers[0]) then m[answers[0].name := answers[0].kind] else m;
      RecordMeaning(m', answers[1..], name);
    }
  }

  /** Only the four dining types are ever recorded. */
  lemma {:induction false} RecordValid(m: map<string, string>, answers: seq<Answer>)
    requires forall n | n in m :: m[n] in ValidTypes
    ensures forall n | n in Record(m, answers) :: Record(m, answers)[n] in ValidTypes
    decreases |answers|
  {
    if answers != [] {
      var m' := if Valid(answers[0]) then m[answers[0].name := answers[0].kind] else m;
      RecordValid(m', answers[1..]);
    }
  }

  /** The inner loop over one batch's answers. */
  method RecordAnswers(m: map<string, string>, answers: seq<Answer>) returns (r: map<string, string>)
    ensures r == Record(m, answers)
  {
    r := m;
    for j := 0 to |answers|
      invariant Record(r, answers[j..]) == Record(m, answers)
    {
      assert answers[j..][1..] == answers[j + 1..];
      if Valid(answers[j]) {
        r := r[answers[j].name := answers[j].kind];
      }
    }
    assert answers[|answers|..] == [];
  }

  // ---------------------------------------------------------------- classifying

  /** One batch: its answers recorded, or nothing when the call fails. */
  function AbsorbOne(m: map<string, string>, batch: seq<Candidate>, classify: Classifier): map<string, string> {
    match classify(Items(batch))
    case None => m
    case Some(answers) => Record(m, answers)
  }

  /** The batches in turn. */
  function Absorb(m: map<string, string>, bs: seq<seq<Candidate>>, classify: Classifier): map<string, string>
    decreases |bs|
  {
    if bs == [] then m else Absorb(AbsorbOne(m, bs[0], classify), bs[1..], classify)
  }

  /** `classifyPlaces` / `classify_places`. */
  function Classified(places: seq<Candidate>, classify: Classifier): map<string, string> {
    if places == [] then map[] else Absorb(map[], BatchesFrom(places, 0), classify)
  }

  /** The batch loop; `calls` counts the model calls. */
  method ClassifyPlaces(places: seq<Candidate>, classify: Classifier) returns (result: map<string, string>, ghost calls: nat)
    ensures result == Classified(places, classify)
    ensures calls == |BatchesFrom(places, 0)|
  {
    if |places| == 0 {
      return map[], 0;
    }
    result := map[];
    calls := 0;
    var i: nat := 0;
    while i < |places|
      invariant Absorb(result, BatchesFrom(places, i), classify) == Classified(places, classify)
      invariant calls + |BatchesFrom(places, i)| == |BatchesFrom(places, 0)|
      decreases |places| - i
    {
      var batch := places[i..Min(i + BatchSize, |places|)];
      var answer := classify(Items(batch));
      calls := calls + 1;
      match answer {
        case None =>
        case Some(answers) =>
          result := RecordAnswers(result, answers);
      }
      i := i + BatchSize;
    }
  }

  /** Only the four dining types end up in the result. */
  lemma {:induction false} AbsorbValid(m: map<string, string>, bs: seq<seq<Candidate>>, classify: Classifier)
    requires forall n | n in m :: m[n] in ValidTypes
    ensures forall n | n in Absorb(m, bs, classify) :: Absorb(m, bs, classify)[n] in ValidTypes
    decreases |bs|
  {
    if bs != [] {
      match classify(Items(bs[0])) {
        case None =>
        case Some(answers) => RecordValid(m, answers);
      }
      AbsorbValid(AbsorbOne(m, bs[0], classify), bs[1..], classify);
    }
  }

  lemma ClassifiedValid(places: seq<Candidate>, classify: Classifier)
    ensures forall n | n in Classified(places, classify) :: Classified(places, classify)[n] in ValidTypes
  {
    if places != [] {
      AbsorbValid(map[], BatchesFrom(places, 0), classify);
    }
  }

  /** A failed batch changes nothing, and the batches after it are still processed. */
  lemma FailedBatchSkipped(m: map<string, string>, b: seq<Candidate>, rest: seq<seq<Candidate>>, classify: Classifier)
    requires classify(Items(b)).None?
    ensures Absorb(m, [b] + rest, classify) == Absorb(m, rest, classify)
  {
    assert ([b] + rest)[1..] == rest;
  }

  lemma {:induction false} AbsorbAppend(m: map<string, string>, bs: seq<seq<Candidate>>, b: seq<Candidate>, classify: Classifier)
    ensures Absorb(m, bs + [b], classify) == AbsorbOne(Absorb(m, bs, classify), b, classify)
    decreases |bs|
  {
    if bs == [] {
      assert [] + [b] == [b];
      assert [b][1..] == [];
    } else {
      assert (bs + [b])[1..] == bs[1..] + [b];
      AbsorbAppend(AbsorbOne(m, bs[0], classify), bs[1..], b, classify);
    }
  }

  /** A later batch overrides an earlier one: a valid answer in the last batch decides the name's type. */
  lemma LaterBatchWins(m: map<string, string>, bs: seq<seq<Candidate>>, b: seq<Candidate>, classify: Classifier, name: string)
    requires classify(Items(b)).Some? && LastValid(classify(Items(b)).value, name).Some?
    ensures var answers := classify(Items(b)).value;
      name in Absorb(m, bs + [b], classify) &&
      Absorb(m, bs + [b], classify)[name] == answers[LastValid(answers, name).value].kind
  {
    AbsorbAppend(m, bs, b, classify);
    RecordMeaning(Absorb(m, bs, classify), classify(Items(b)).value, name);
  }

  /** With every call failing, nothing is classified. */
  lemma {:induction false} AllFailed(m: map<string, string>, bs: seq<seq<Candidate>>, classify: Classifier)
    requires forall k | 0 <= k < |bs| :: classify(Items(bs[k])).None?
    ensures Absorb(m, bs, classify) == m
  {
    if bs != [] {
      assert forall k | 0 <= k < |bs[1..]| :: bs[1..][k] == bs[k + 1];
      AllFailed(m, bs[1..], classify);
    }
  }

  // ---------------------------------------------------------------- persisting

  /** A crawled row handed to the classifier. */
  datatype Row = Row(id: string, name: string, category: Option<string>, tags: Option<string>, description: Option<string>)

  function CandidateOf(r: Row): Candidate {
    Candidate(r.name, r.category, r.tags, r.description)
  }

  function Candidates(rows: seq<Row>): (r: seq<Candidate>)
    ensures |r| == |rows| && forall k | 0 <= k < |rows| :: r[k] == CandidateOf(rows[k])
  {
    seq(|rows|, k requires 0 <= k < |rows| => CandidateOf(rows[k]))
  }

  /** An update of one row's type. */
  datatype Update = Update(id: string, placeType: string)

  predicate Typed(typeMap: map<string, string>, r: Row) {
    r.name in typeMap && typeMap[r.name] != ""
  }

  /** The updates `classifyAndPersist` issues: one per row whose name received a type, in row order. */
  function Updates(rows: seq<Row>, typeMap: map<string, string>): (r: seq<Update>) {
    var picked := Filter(rows, row => Typed(typeMap, row));
    FilterMembers(rows, row => Typed(typeMap, row));
    assert forall k | 0 <= k < |picked| :: picked[k] in picked;
    seq(|picked|, k requires 0 <= k < |picked| => Update(picked[k].id, typeMap[picked[k].name]))
  }

  /** Each update belongs to a row with a classified name and carries that name's type; every such row gets one. */
  lemma UpdatesMeaning(rows: seq<Row>, typeMap: map<string, string>)
    ensures forall u | u in Updates(rows, typeMap) :: exists r | r in rows :: r.id == u.id && r.name in typeMap && typeMap[r.name] == u.placeType
    ensures |Updates(rows, typeMap)| == |Filter(rows, row => Typed(typeMap, row))|
    ensures forall r | r in rows && Typed(typeMap, r) :: Update(r.id, typeMap[r.name]) in Updates(rows, typeMap)
  {
    var picked := Filter(rows, row => Typed(typeMap, row));
    FilterMembers(rows, row => Typed(typeMap, row));
    var us := Updates(rows, typeMap);
    forall u | u in us ensures exists r | r in rows :: r.id == u.id && r.name in typeMap && typeMap[r.name] == u.placeType {
      var k :| 0 <= k < |us| && us[k] == u;
      assert picked[k] in picked;
    }
    forall r | r in rows && Typed(typeMap, r) ensures Update(r.id, typeMap[r.name]) in us {
      var k :| 0 <= k < |picked| && picked[k] == r;
      assert us[k] == Update(r.id, typeMap[r.name]);
    }
  }

  /** `classifyAndPersist`: the type map and the updates it issues; no rows, no call and no update. */
  function ClassifyAndPersistTs(rows: seq<Row>, classify: Classifier): (r: (map<string, string>, seq<Update>))
    ensures rows == [] ==> r.0 == map[] && r.1 == []
  {
    if rows == [] then (map[], [])
    else
      var typeMap := Classified(Candidates(rows), classify);
      (typeMap, Updates(rows, typeMap))
  }

  /** The crawled-place table: the place type of each row, by id. */
  class CrawledTable {
    var placeType: map<string, Option<string>>

    constructor(rows: map<string, Option<string>>)
      ensures placeType == rows
    {
      placeType := rows;
    }

    /** The Python persist loop over the rows, counting the rows found and given a type. */
    method SetTypes(rows: seq<Row>, typeMap: map<string, string>) returns (updated: nat)
      modifies this
      ensures placeType == Persisted(old(placeType), rows, typeMap)
      ensures updated == Found(old(placeType), rows, typeMap)
    {
      updated := 0;
      ghost var start := placeType;
      for k := 0 to |rows|
        invariant placeType == Persisted(start, rows[..k], typeMap)
        invariant updated == Found(start, rows[..k], typeMap)
      {
        assert rows[..k + 1][..k] == rows[..k];
        var r := rows[k];
        if r.name in typeMap && typeMap[r.name] != "" {
          if r.id in placeType {
            placeType := placeType[r.id := Some(typeMap[r.name])];
            updated := updated + 1;
          }
        }
      }
      WholePrefix(rows);
    }

    /** `classify_and_persist`: classify, write the types found, commit only when some row was updated. */
    method ClassifyAndPersist(rows: seq<Row>, classify: Classifier) returns (typeMap: map<string, string>, committed: bool)
      modifies this
      ensures typeMap == (if rows == [] then map[] else Classified(Candidates(rows), classify))
      ensures placeType == Persisted(old(placeType), rows, typeMap)
      ensures committed <==> Found(old(placeType), rows, typeMap) > 0
    {
      if rows == [] {
        return map[], false;
      }
      ghost var calls;
      typeMap, calls := ClassifyPlaces(Candidates(rows), classify);
      var updated := SetTypes(rows, typeMap);
      committed := updated > 0;
    }
  }

  /** The table after the rows have been visited in order. */
  function Persisted(table: map<string, Option<string>>, rows: seq<Row>, typeMap: map<string, string>): (r: map<string, Option<string>>)
    ensures r.Keys == table.Keys
  {
    if rows == [] then table
    else
      var before := Persisted(table, rows[..|rows| - 1], typeMap);
      var r := rows[|rows| - 1];
      if Typed(typeMap, r) && r.id in before then before[r.id := Some(typeMap[r.name])] else before
  }

  /** How many rows were found and given a type. */
  function Found(table: map<string, Option<string>>, rows: seq<Row>, typeMap: map<string, string>): nat {
    if rows == [] then 0
    else
      var r := rows[|rows| - 1];
      Found(table, rows[..|rows| - 1], typeMap) + (if Typed(typeMap, r) && r.id in table then 1 else 0)
  }

  /** A row that none of the visited rows with a classified name targets keeps its type. */
  lemma {:induction false} PersistedUntouched(table: map<string, Option<string>>, rows: seq<Row>, typeMap: map<string, string>, id: string)
    requires id in table
    requires forall k | 0 <= k < |rows| :: !(rows[k].id == id && Typed(typeMap, rows[k]))
    ensures Persisted(table, rows, typeMap)[id] == table[id]
  {
    if rows != [] {
      var n := |rows| - 1;
      assert forall k | 0 <= k < n :: rows[..n][k] == rows[k];
      PersistedUntouched(table, rows[..n], typeMap, id);
    }
  }

  /**
   * A row targeted by a visited row with a classified name holds that
   * name's type when the row is the last such one: later rows overwrite.
   */
  lemma {:induction false} PersistedLastWriter(table: map<string, Option<string>>, rows: seq<Row>, typeMap: map<string, string>, k: nat)
    requires k < |rows| && rows[k].id in table && Typed(typeMap, rows[k])
    requires forall j | k < j < |rows| :: !(rows[j].id == rows[k].id && Typed(typeMap, rows[j]))
    ensures Persisted(table, rows, typeMap)[rows[k].id] == Some(typeMap[rows[k].name])
  {
    var n := |rows| - 1;
    var before := Persisted(table, rows[..n], typeMap);
    assert rows[k].id in before;
    if k < n {
      assert rows[..n][k] == rows[k];
      assert forall j | k < j < n :: rows[..n][j] == rows[j];
      PersistedLastWriter(table, rows[..n], typeMap, k);
    }
  }

  /** Rows whose names got no type, or ids not in the table, change nothing and count nothing. */
  lemma {:induction false} NothingFound(table: map<string, Option<string>>, rows: seq<Row>, typeMap: map<string, string>)
    requires forall k | 0 <= k < |rows| :: !Typed(typeMap, rows[k]) || rows[k].id !in table
    ensures Found(table, rows, typeMap) == 0 && Persisted(table, rows, typeMap) == table
  {
    if rows != [] {
      var n := |rows| - 1;
      assert forall k | 0 <= k < n :: rows[..n][k] == rows[k];
      NothingFound(table, rows[..n], typeMap);
    }
  }
}
