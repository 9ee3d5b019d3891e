/** Restoring a snapshot: a transaction of deletes and batched inserts, and what it leaves behind. */
module SnapshotRestore {
  import opened Common
  import opened SnapshotRows
  import opened SnapshotArchive
  import opened SnapshotPreflight
  import opened SnapshotTheorems

  const BATCH := 100

  /** The database: table name to primary key to row. */
  type Db = map<string, map<string, Row>>

  datatype Statement = Clear(name: string) | Insert(table: Table, rows: seq<Row>)

  function Load(rows: seq<Row>): map<string, Row> {
    if rows == [] then map[] else Load(rows[..|rows| - 1])[RowId(rows[|rows| - 1]) := rows[|rows| - 1]]
  }

  predicate Clash(u: seq<string>, x: Row, y: Row) {
    forall c | c in u :: c in x && c in y && x[c] != Null && x[c] == y[c]
  }

  /** The uniqueness constraints of a table; NULLs never clash. */
  predicate UniqueOk(t: Table, rows: map<string, Row>) {
    forall u, a, b | u in t.uniques && a in rows && b in rows && a != b :: !Clash(u, rows[a], rows[b])
  }

  /** Every number fits its column. */
  predicate InRange(t: Table, rows: map<string, Row>) {
    forall id, k | id in rows && k in t.columns ::
      t.columns[k].kind.KInt? && k in rows[id] && rows[id][k].Int? ==>
        -t.columns[k].kind.bound <= rows[id][k].number < t.columns[k].kind.bound
  }

  /** What the database lets a table hold. */
  predicate Admissible(t: Table, rows: map<string, Row>) {
    UniqueOk(t, rows) && InRange(t, rows)
  }

  /** One statement; None where the database raises. Foreign keys are not enforced here: they are proved to hold. */
  function Execute(db: Db, s: Statement): Option<Db> {
    match s
    case Clear(name) => Some(db[name := map[]])
    case Insert(t, rows) =>
      var held := if t.name in db then db[t.name] else map[];
      if (forall i, j | 0 <= i < j < |rows| :: RowId(rows[i]) != RowId(rows[j]))
         && (forall r | r in rows :: RowId(r) !in held)
         && Admissible(t, held + Load(rows))
      then Some(db[t.name := held + Load(rows)])
      else None
  }

  function Run(db: Db, plan: seq<Statement>): Option<Db>
    decreases |plan|
  {
    if plan == [] then Some(db)
    else match Execute(db, plan[0])
      case None => None
      case Some(next) => Run(next, plan[1..])
  }

  /** A stored row of a listed table makes this reference. */
  ghost predicate Refers(schema: seq<Table>, db: Db, t: Table, id: string, ref: (string, Cell)) {
    t in schema && t.name in db && id in db[t.name] && ref in References(t, db[t.name][id])
  }

  ghost predicate Present(db: Db, ref: (string, Cell)) {
    ref.0 in db && ref.1.Text? && ref.1.text in db[ref.0]
  }

  /** Every foreign key of every listed table points to an existing row. */
  ghost predicate Intact(schema: seq<Table>, db: Db) {
    forall t, id, ref :: Refers(schema, db, t, id, ref) ==> Present(db, ref)
  }

  /** Referential integrity holds before the plan, and after each of its statements that is reached. */
  ghost predicate AlwaysIntact(schema: seq<Table>, db: Db, plan: seq<Statement>)
    decreases |plan|
  {
    && Intact(schema, db)
    && (plan != [] && Execute(db, plan[0]).Some? ==> AlwaysIntact(schema, Execute(db, plan[0]).value, plan[1..]))
  }

  // ---------------------------------------------------------------- the statements of a restore

  function Revoke(row: Row, at: int): Row {
    row["decision" := Text("revoked")]["revoked_at" := Instant(at)]
  }

  /** The rows to insert for a table: launch authorizations come back revoked. */
  function Stamped(t: Table, rows: seq<Row>, clock: nat -> int): (r: seq<Row>)
    ensures |r| == |rows|
  {
    if t.name == LAUNCHES then seq(|rows|, k requires 0 <= k < |rows| => Revoke(rows[k], clock(k))) else rows
  }

  function StampedAll(order: seq<Table>, content: seq<seq<Row>>, clock: nat -> int): (r: seq<seq<Row>>)
    requires |order| == |content|
    ensures |r| == |order|
  {
    seq(|order|, i requires 0 <= i < |order| => Stamped(order[i], content[i], clock))
  }

  function Batches(rows: seq<Row>): seq<seq<Row>>
    decreases |rows|
  {
    if |rows| >= BATCH then [rows[..BATCH]] + Batches(rows[BATCH..])
    else if rows == [] then []
    else [rows]
  }

  function InsertAll(t: Table, batches: seq<seq<Row>>): seq<Statement> {
    if batches == [] then [] else [Insert(t, batches[0])] + InsertAll(t, batches[1..])
  }

  function ClearAll(names: seq<string>): seq<Statement> {
    if names == [] then [] else [Clear(names[0])] + ClearAll(names[1..])
  }

  /** Names of the first n tables, last one first. */
  function Backwards(order: seq<Table>, n: nat): seq<string>
    requires n <= |order|
  {
    if n == 0 then [] else [order[n - 1].name] + Backwards(order, n - 1)
  }

  function InsertsFrom(order: seq<Table>, content: seq<seq<Row>>, i: nat): seq<Statement>
    requires |order| == |content| && i <= |order|
    decreases |order| - i
  {
    if i == |order| then [] else InsertAll(order[i], Batches(content[i])) + InsertsFrom(order, content, i + 1)
  }

  function NamesOf(tables: seq<Table>): seq<string> {
    seq(|tables|, i requires 0 <= i < |tables| => tables[i].name)
  }

  /** `excluded` are the tables that are emptied but never exported. */
  function Plan(order: seq<Table>, excluded: seq<Table>, content: seq<seq<Row>>): seq<Statement>
    requires |order| == |content|
  {
    ClearAll(NamesOf(excluded)) + (ClearAll(Backwards(order, |order|)) + InsertsFrom(order, content, 0))
  }

  // ---------------------------------------------------------------- what a plan does

  ghost predicate Apart(order: seq<Table>, excluded: seq<Table>) {
    forall i, t :: 0 <= i < |order| && t in excluded ==> order[i].name != t.name
  }

  /** The excluded tables hang off the exported ones and nothing points to them. */
  ghost predicate WholeSchema(order: seq<Table>, excluded: seq<Table>) {
    && WellFormed(order)
    && Apart(order, excluded)
    && (forall t, k :: t in excluded && k in t.columns && t.columns[k].parent.Some? ==>
          exists j :: 0 <= j < |order| && order[j].name == t.columns[k].parent.value)
  }

  ghost predicate Holds(order: seq<Table>, excluded: seq<Table>, db: Db) {
    forall name :: name in db <==> (exists t :: t in order + excluded && t.name == name)
  }

  /** The database holds exactly the given rows in the exported tables, and the excluded tables are empty. */
  ghost predicate IsRestored(order: seq<Table>, excluded: seq<Table>, content: seq<seq<Row>>, db: Db)
    requires |order| == |content|
  {
    && Holds(order, excluded, db)
    && (forall i :: 0 <= i < |order| ==> order[i] in order && db[order[i].name] == Load(content[i]))
    && (forall t :: t in excluded ==> t in order + excluded && db[t.name] == map[])
  }

  lemma RestoredUnique(order: seq<Table>, excluded: seq<Table>, content: seq<seq<Row>>, x: Db, y: Db)
    requires |order| == |content| && IsRestored(order, excluded, content, x) && IsRestored(order, excluded, content, y)
    ensures x == y
  {
    forall name | name in x
      ensures name in y && x[name] == y[name]
    {
      var t :| t in order + excluded && t.name == name;
      if t in order {
        var i :| 0 <= i < |order| && order[i] == t;
        assert x[order[i].name] == Load(content[i]) == y[order[i].name];
      }
    }
    assert x.Keys == y.Keys;
  }

  lemma {:induction false} LoadKeys(rows: seq<Row>)
    ensures Load(rows).Keys == Ids(rows)
  {
    if rows != [] {
      var n := |rows| - 1;
      LoadKeys(rows[..n]);
      assert rows == rows[..n] + [rows[n]];
      assert Ids(rows) == Ids(rows[..n]) + {RowId(rows[n])};
    }
  }

  lemma {:induction false} LoadValues(rows: seq<Row>, id: string)
    requires id in Load(rows)
    ensures Load(rows)[id] in rows && RowId(Load(rows)[id]) == id
  {
    var n := |rows| - 1;
    if id != RowId(rows[n]) {
      LoadValues(rows[..n], id);
    }
  }

  lemma {:induction false} LoadAt(rows: seq<Row>, i: nat)
    requires DistinctIds(rows) && i < |rows|
    ensures RowId(rows[i]) in Load(rows) && Load(rows)[RowId(rows[i])] == rows[i]
  {
    var n := |rows| - 1;
    if i < n {
      LoadAt(rows[..n], i);
    }
  }

  lemma {:induction false} LoadAppend(a: seq<Row>, b: seq<Row>)
    ensures Load(a + b) == Load(a) + Load(b)
    decreases |b|
  {
    if b == [] {
      assert a + b == a;
    } else {
      var n := |b| - 1;
      assert (a + b)[..|a + b| - 1] == a + b[..n];
      LoadAppend(a, b[..n]);
    }
  }

  lemma {:induction false} BatchesConcat(rows: seq<Row>)
    ensures Concat(Batches(rows)) == rows
    ensures forall b :: b in Batches(rows) ==> 0 < |b| <= BATCH
    decreases |rows|
  {
    if |rows| >= BATCH {
      BatchesConcat(rows[BATCH..]);
      assert Batches(rows)[1..] == Batches(rows[BATCH..]);
    } else if rows != [] {
      assert Batches(rows)[1..] == [];
    }
  }

  /** One batch: it goes in exactly when the rows so far and its own keep the constraints. */
  lemma InsertBatch(t: Table, db: Db, done: seq<Row>, batch: seq<Row>)
    requires t.name in db && db[t.name] == Load(done) && DistinctIds(done + batch)
    ensures Execute(db, Insert(t, batch)) == if Admissible(t, Load(done + batch))
                                             then Some(db[t.name := Load(done + batch)]) else None
  {
    var all := done + batch;
    forall i, j | 0 <= i < j < |batch|
      ensures RowId(batch[i]) != RowId(batch[j])
    {
      assert all[|done| + i] == batch[i] && all[|done| + j] == batch[j];
    }
    LoadKeys(done);
    forall r | r in batch
      ensures RowId(r) !in Ids(done)
    {
      var j :| 0 <= j < |batch| && batch[j] == r;
      assert all[|done| + j] == r;
      forall i | 0 <= i < |done|
        ensures RowId(done[i]) != RowId(r)
      {
        assert all[i] == done[i];
      }
    }
    LoadAppend(done, batch);
  }

  lemma ConstraintsShrink(t: Table, a: seq<Row>, b: seq<Row>)
    requires DistinctIds(a + b) && Admissible(t, Load(a + b))
    ensures Admissible(t, Load(a))
  {
    var all := a + b;
    forall id | id in Load(a)
      ensures id in Load(all) && Load(all)[id] == Load(a)[id]
    {
      LoadValues(a, id);
      var i :| 0 <= i < |a| && a[i] == Load(a)[id];
      assert all[i] == a[i];
      LoadAt(all, i);
    }
  }

  /** Tables before i are loaded, table i holds `done`, the tables after it and the excluded ones are empty. */
  ghost predicate Filled(order: seq<Table>, excluded: seq<Table>, content: seq<seq<Row>>, db: Db, i: nat,
                         done: seq<Row>)
    requires |order| == |content| && i <= |order|
  {
    && (forall j :: 0 <= j < |order| ==> order[j] in order && order[j].name in db)
    && (forall j :: 0 <= j < i ==> db[order[j].name] == Load(content[j]))
    && (i < |order| ==> db[order[i].name] == Load(done))
    && (forall j :: i < j < |order| ==> db[order[j].name] == map[])
    && (forall t :: t in excluded ==> t in order + excluded && t.name in db && db[t.name] == map[])
  }

  ghost predicate Level(order: seq<Table>, excluded: seq<Table>, content: seq<seq<Row>>, db: Db, i: nat, done: seq<Row>)
    requires |order| == |content| && i <= |order|
  {
    Holds(order, excluded, db) && Filled(order, excluded, content, db, i, done)
  }

  ghost predicate AllDistinct(content: seq<seq<Row>>) {
    forall i :: 0 <= i < |content| ==> DistinctIds(content[i])
  }

  /** Rows whose keys are distinct and whose references resolve. */
  ghost predicate Sound(order: seq<Table>, content: seq<seq<Row>>) {
    |content| == |order| && AllDistinct(content) && ForeignKeysOk(order, content)
  }

  /** A reference of table i leads to a table before i that holds the row. */
  lemma ReferenceResolves(order: seq<Table>, content: seq<seq<Row>>, i: nat, row: Row,
                          ref: (string, Cell)) returns (j: nat)
    requires WellFormed(order) && Sound(order, content) && i < |order| && row in content[i]
      && ref in References(order[i], row)
    ensures j < i && order[j].name == ref.0 && ref.1.Text? && ref.1.text in Load(content[j])
  {
    assert Resolves(order, content, ref);
    j :| 0 <= j < |order| && order[j].name == ref.0 && ref.1.Text? && ref.1.text in Ids(content[j]);
    var k :| k in order[i].columns && order[i].columns[k].parent.Some? && ref.0 == order[i].columns[k].parent.value;
    LoadKeys(content[j]);
  }

  lemma LevelRow(order: seq<Table>, excluded: seq<Table>, content: seq<seq<Row>>, db: Db, i: nat, done: seq<Row>,
                 t: Table, id: string)
    returns (n: nat)
    requires WellFormed(order) && |content| == |order| && i <= |order| && Filled(order, excluded, content, db, i, done)
    requires i < |order| ==> done <= content[i]
    requires t in order + excluded && t.name in db && id in db[t.name]
    ensures n <= i && n < |order| && order[n] == t && db[t.name][id] in content[n]
  {
    assert t in order;
    n :| 0 <= n < |order| && order[n] == t;
    assert n <= i;
    if n < i {
      LoadValues(content[n], id);
    } else {
      LoadValues(done, id);
    }
  }

  lemma LevelReference(order: seq<Table>, excluded: seq<Table>, content: seq<seq<Row>>, db: Db, i: nat, done: seq<Row>,
                       n: nat, row: Row, ref: (string, Cell))
    requires WellFormed(order) && Sound(order, content) && i <= |order| && Filled(order, excluded, content, db, i, done)
    requires n <= i && n < |order| && row in content[n] && ref in References(order[n], row)
    ensures Present(db, ref)
  {
    var j := ReferenceResolves(order, content, n, row, ref);
    assert db[order[j].name] == Load(content[j]);
  }

  lemma LevelPoint(order: seq<Table>, excluded: seq<Table>, content: seq<seq<Row>>, db: Db, i: nat, done: seq<Row>,
                   t: Table, id: string, ref: (string, Cell))
    requires WellFormed(order) && Sound(order, content) && i <= |order| && Filled(order, excluded, content, db, i, done)
    requires i < |order| ==> done <= content[i]
    requires Refers(order + excluded, db, t, id, ref)
    ensures Present(db, ref)
  {
    var row := db[t.name][id];
    var n := LevelRow(order, excluded, content, db, i, done, t, id);
    LevelReference(order, excluded, content, db, i, done, n, row, ref);
  }

  lemma LevelIntact(order: seq<Table>, excluded: seq<Table>, content: seq<seq<Row>>, db: Db, i: nat, done: seq<Row>)
    requires WellFormed(order) && Sound(order, content) && i <= |order| && Filled(order, excluded, content, db, i, done)
    requires i < |order| ==> done <= content[i]
    ensures Intact(order + excluded, db)
  {
    forall t, id, ref | Refers(order + excluded, db, t, id, ref)
      ensures Present(db, ref)
    {
      LevelPoint(order, excluded, content, db, i, done, t, id, ref);
    }
  }

  // ---------------------------------------------------------------- the two phases

  function Emptied(db: Db, names: seq<string>): Db
    decreases |names|
  {
    if names == [] then db else Emptied(db[names[0] := map[]], names[1..])
  }

  /** No row outside the table itself can refer to it. */
  ghost predicate Unreferenced(schema: seq<Table>, db: Db, name: string) {
    forall t, k :: (t in schema && t.name in db && t.name != name && db[t.name] != map[]
      && k in t.columns && t.columns[k].parent.Some?) ==> t.columns[k].parent.value != name
  }

  /** Clearing these tables in this order never leaves a dangling reference. */
  ghost predicate Clearable(schema: seq<Table>, db: Db, names: seq<string>)
    decreases |names|
  {
    names == [] || (Unreferenced(schema, db, names[0]) && Clearable(schema, db[names[0] := map[]], names[1..]))
  }

  lemma {:induction false} ClearRun(db: Db, names: seq<string>, rest: seq<Statement>)
    ensures Run(db, ClearAll(names) + rest) == Run(Emptied(db, names), rest)
    decreases |names|
  {
    if names == [] {
      assert ClearAll(names) + rest == rest;
    } else {
      RunStep(db, Clear(names[0]), ClearAll(names[1..]) + rest);
      assert ClearAll(names) + rest == [Clear(names[0])] + (ClearAll(names[1..]) + rest);
      ClearRun(db[names[0] := map[]], names[1..], rest);
    }
  }

  lemma {:induction false} ClearIntact(schema: seq<Table>, db: Db, names: seq<string>, rest: seq<Statement>)
    requires Intact(schema, db) && Clearable(schema, db, names)
    ensures Intact(schema, Emptied(db, names))
    ensures AlwaysIntact(schema, Emptied(db, names), rest) ==> AlwaysIntact(schema, db, ClearAll(names) + rest)
    decreases |names|
  {
    if names == [] {
      assert ClearAll(names) + rest == rest;
    } else {
      var next := db[names[0] := map[]];
      OneClear(schema, db, names[0]);
      ClearIntact(schema, next, names[1..], rest);
      assert ClearAll(names) + rest == [Clear(names[0])] + (ClearAll(names[1..]) + rest);
      if AlwaysIntact(schema, Emptied(db, names), rest) {
        IntactStep(schema, db, Clear(names[0]), ClearAll(names[1..]) + rest);
      }
    }
  }

  lemma OneClear(schema: seq<Table>, db: Db, name: string)
    requires Intact(schema, db) && Unreferenced(schema, db, name)
    ensures Intact(schema, db[name := map[]])
  {
    var next := db[name := map[]];
    forall t, id, ref | Refers(schema, next, t, id, ref)
      ensures Present(next, ref)
    {
      assert Refers(schema, db, t, id, ref);
    }
  }

  lemma {:induction false} EmptiedAt(db: Db, names: seq<string>, name: string)
    ensures name in db ==> name in Emptied(db, names) && Emptied(db, names)[name] == if name in names then map[]
      else db[name]
    ensures Emptied(db, names).Keys == db.Keys + (set n | n in names)
    decreases |names|
  {
    if names != [] {
      EmptiedAt(db[names[0] := map[]], names[1..], name);
    }
  }

  lemma OthersKept(order: seq<Table>, excluded: seq<Table>, db: Db, i: nat, x: map<string, Row>)
    requires DistinctTables(order) && Apart(order, excluded) && i < |order| && order[i].name in db
    ensures var next := db[order[i].name := x];
      && (forall name :: name in next <==> name in db)
      && (forall j :: 0 <= j < |order| && j != i && order[j].name in db ==> next[order[j].name] == db[order[j].name])
      && (forall t :: t in excluded && t.name in db ==> next[t.name] == db[t.name])
  {
    assert forall j :: 0 <= j < |order| && j != i ==> order[j].name != order[i].name;
  }

  lemma LevelNext(order: seq<Table>, excluded: seq<Table>, content: seq<seq<Row>>, db: Db, i: nat, done: seq<Row>,
                  more: seq<Row>)
    requires DistinctTables(order) && Apart(order, excluded)
    requires |content| == |order| && i < |order| && Level(order, excluded, content, db, i, done)
    ensures Level(order, excluded, content, db[order[i].name := Load(more)], i, more)
  {
    OthersKept(order, excluded, db, i, Load(more));
  }

  lemma LevelDone(order: seq<Table>, excluded: seq<Table>, content: seq<seq<Row>>, db: Db, i: nat)
    requires |content| == |order| && i < |order| && Level(order, excluded, content, db, i, content[i])
    ensures Level(order, excluded, content, db, i + 1, [])
  {
    assert Load([]) == map[];
  }

  lemma Overwrite(db: Db, name: string, x: map<string, Row>, y: map<string, Row>)
    ensures db[name := x][name := y] == db[name := y]
    ensures name in db && db[name] == y ==> db[name := y] == db
  {
  }

  lemma BatchesCons(t: Table, done: seq<Row>, batches: seq<seq<Row>>, rest: seq<Statement>)
    ensures batches == [] ==> done + Concat(batches) == done && InsertAll(t, batches) + rest == rest
    ensures batches != [] ==> done + batches[0] + Concat(batches[1..]) == done + Concat(batches)
    ensures batches != [] ==>
      InsertAll(t, batches) + rest == [Insert(t, batches[0])] + (InsertAll(t, batches[1..]) + rest)
  {
  }

  lemma RunStep(db: Db, s: Statement, rest: seq<Statement>)
    ensures Run(db, [s] + rest) == match Execute(db, s) case None => None case Some(next) => Run(next, rest)
  {
    assert ([s] + rest)[1..] == rest;
  }

  /** The batches of a table succeed exactly when all of its rows together keep the constraints. */
  lemma {:induction false} InsertPhase(t: Table, db: Db, done: seq<Row>, batches: seq<seq<Row>>, rest: seq<Statement>)
    requires t.name in db && db[t.name] == Load(done) && DistinctIds(done + Concat(batches))
      && Admissible(t, Load(done))
    ensures var all := done + Concat(batches);
            Run(db, InsertAll(t, batches) + rest) == if Admissible(t, Load(all)) then Run(db[t.name := Load(all)], rest)
                                                     else None
    decreases |batches|
  {
    var all := done + Concat(batches);
    BatchesCons(t, done, batches, rest);
    if batches == [] {
      Overwrite(db, t.name, map[], Load(done));
    } else {
      var more := done + batches[0];
      DistinctPrefix(more, Concat(batches[1..]));
      InsertBatch(t, db, done, batches[0]);
      RunStep(db, Insert(t, batches[0]), InsertAll(t, batches[1..]) + rest);
      if Admissible(t, Load(more)) {
        InsertPhase(t, db[t.name := Load(more)], more, batches[1..], rest);
        Overwrite(db, t.name, Load(more), Load(all));
      } else if Admissible(t, Load(all)) {
        ConstraintsShrink(t, more, Concat(batches[1..]));
      }
    }
  }

  lemma DistinctPrefix(a: seq<Row>, b: seq<Row>)
    requires DistinctIds(a + b)
    ensures DistinctIds(a)
  {
    var all := a + b;
    forall i, j | 0 <= i < j < |a|
      ensures RowId(a[i]) != RowId(a[j])
    {
      assert a[i] == all[i] && a[j] == all[j];
    }
  }

  lemma IntactStep(schema: seq<Table>, db: Db, s: Statement, rest: seq<Statement>)
    requires Intact(schema, db) && (Execute(db, s).Some? ==> AlwaysIntact(schema, Execute(db, s).value, rest))
    ensures AlwaysIntact(schema, db, [s] + rest)
  {
    assert ([s] + rest)[1..] == rest;
  }

  /** The state after one more batch, if the batch goes through. */
  lemma BatchNext(order: seq<Table>, excluded: seq<Table>, content: seq<seq<Row>>, db: Db, i: nat, done: seq<Row>,
                  batch: seq<Row>, rest: seq<Row>)
    requires WholeSchema(order, excluded) && Sound(order, content) && i < |order|
    requires Level(order, excluded, content, db, i, done) && done + batch + rest == content[i]
    ensures Intact(order + excluded, db)
    ensures Level(order, excluded, content, db[order[i].name := Load(done + batch)], i, done + batch)
    ensures Execute(db, Insert(order[i], batch)).Some? ==>
      Execute(db, Insert(order[i], batch)).value == db[order[i].name := Load(done + batch)]
  {
    LevelIntact(order, excluded, content, db, i, done);
    LevelNext(order, excluded, content, db, i, done, done + batch);
    assert DistinctIds(content[i]);
    DistinctPrefix(done + batch, rest);
    InsertBatch(order[i], db, done, batch);
  }

  /** No batch of a table ever leaves a dangling reference, whether or not the batches go through. */
  lemma {:induction false} InsertIntact(order: seq<Table>, excluded: seq<Table>, content: seq<seq<Row>>, db: Db, i: nat,
                                        done: seq<Row>, batches: seq<seq<Row>>, rest: seq<Statement>)
    requires WholeSchema(order, excluded) && Sound(order, content) && i < |order|
    requires Level(order, excluded, content, db, i, done) && done + Concat(batches) == content[i]
    requires AlwaysIntact(order + excluded, db[order[i].name := Load(content[i])], rest)
    ensures AlwaysIntact(order + excluded, db, InsertAll(order[i], batches) + rest)
    decreases |batches|
  {
    var t := order[i];
    BatchesCons(t, done, batches, rest);
    if batches == [] {
      Overwrite(db, t.name, map[], Load(done));
    } else {
      var more := done + batches[0];
      BatchNext(order, excluded, content, db, i, done, batches[0], Concat(batches[1..]));
      Overwrite(db, t.name, Load(more), Load(content[i]));
      InsertIntact(order, excluded, content, db[t.name := Load(more)], i, more, batches[1..], rest);
      IntactStep(order + excluded, db, Insert(t, batches[0]), InsertAll(t, batches[1..]) + rest);
    }
  }

  // ---------------------------------------------------------------- the whole plan

  ghost predicate AllAdmissible(order: seq<Table>, content: seq<seq<Row>>, i: nat)
    requires |order| == |content|
  {
    forall j :: i <= j < |order| ==> Admissible(order[j], Load(content[j]))
  }

  lemma LevelEnd(order: seq<Table>, excluded: seq<Table>, content: seq<seq<Row>>, db: Db)
    requires |content| == |order| && Level(order, excluded, content, db, |order|, [])
    ensures IsRestored(order, excluded, content, db)
  {
  }

  /** An empty table, ready for all rows of the archive. */
  lemma TableStart(t: Table, db: Db, rows: seq<Row>)
    requires t.name in db && db[t.name] == Load([]) && DistinctIds(rows)
    ensures [] + Concat(Batches(rows)) == rows && DistinctIds([] + Concat(Batches(rows))) && Admissible(t, Load([]))
  {
    BatchesConcat(rows);
    assert [] + Concat(Batches(rows)) == rows;
  }

  /** The level after a whole table. */
  lemma LevelUp(order: seq<Table>, excluded: seq<Table>, content: seq<seq<Row>>, db: Db, i: nat)
    requires DistinctTables(order) && Apart(order, excluded)
    requires |content| == |order| && i < |order| && Level(order, excluded, content, db, i, [])
    ensures Level(order, excluded, content, db[order[i].name := Load(content[i])], i + 1, [])
  {
    LevelNext(order, excluded, content, db, i, [], content[i]);
    LevelDone(order, excluded, content, db[order[i].name := Load(content[i])], i);
  }

  lemma UniqueFrom(order: seq<Table>, content: seq<seq<Row>>, i: nat)
    requires |order| == |content| && i < |order|
    ensures AllAdmissible(order, content, i) <==>
      Admissible(order[i], Load(content[i])) && AllAdmissible(order, content, i + 1)
  {
  }

  /** One table of the insert phase. */
  lemma InsertsRunStep(order: seq<Table>, content: seq<seq<Row>>, db: Db, i: nat)
    requires |content| == |order| && i < |order| && DistinctIds(content[i])
    requires order[i].name in db && db[order[i].name] == Load([])
    ensures Run(db, InsertsFrom(order, content, i)) ==
            if Admissible(order[i], Load(content[i]))
              then Run(db[order[i].name := Load(content[i])], InsertsFrom(order, content, i + 1))
            else None
  {
    TableStart(order[i], db, content[i]);
    InsertPhase(order[i], db, [], Batches(content[i]), InsertsFrom(order, content, i + 1));
  }

  /** The tables from i on, each as a whole. */
  ghost function Loaded(order: seq<Table>, content: seq<seq<Row>>, db: Db, i: nat): Option<Db>
    requires |order| == |content| && i <= |order|
    decreases |order| - i
  {
    if i == |order| then Some(db)
    else if Admissible(order[i], Load(content[i]))
         then Loaded(order, content, db[order[i].name := Load(content[i])], i + 1)
    else None
  }

  lemma {:induction false} LoadedIff(order: seq<Table>, content: seq<seq<Row>>, db: Db, i: nat)
    requires |content| == |order| && i <= |order|
    ensures Loaded(order, content, db, i).Some? <==> AllAdmissible(order, content, i)
    decreases |order| - i
  {
    if i < |order| {
      LoadedIff(order, content, db[order[i].name := Load(content[i])], i + 1);
      UniqueFrom(order, content, i);
    }
  }

  lemma {:induction false} LoadedRestores(order: seq<Table>, excluded: seq<Table>, content: seq<seq<Row>>, db: Db,
                                          i: nat)
    requires DistinctTables(order) && Apart(order, excluded) && |content| == |order|
    requires i <= |order| && Level(order, excluded, content, db, i, []) && Loaded(order, content, db, i).Some?
    ensures IsRestored(order, excluded, content, Loaded(order, content, db, i).value)
    decreases |order| - i
  {
    if i == |order| {
      LevelEnd(order, excluded, content, db);
    } else {
      LevelUp(order, excluded, content, db, i);
      LoadedRestores(order, excluded, content, db[order[i].name := Load(content[i])], i + 1);
    }
  }

  ghost predicate EmptyFrom(order: seq<Table>, db: Db, i: nat) {
    forall j :: i <= j < |order| ==> order[j].name in db && db[order[j].name] == map[]
  }

  lemma EmptyFromNext(order: seq<Table>, db: Db, i: nat, x: map<string, Row>)
    requires DistinctTables(order) && i < |order| && EmptyFrom(order, db, i)
    ensures EmptyFrom(order, db[order[i].name := x], i + 1)
    ensures order[i].name in db && db[order[i].name] == Load([])
  {
    assert forall j :: i < j < |order| ==> order[j].name != order[i].name;
  }

  /** The batched inserts load table after table. */
  lemma {:induction false} InsertsRun(order: seq<Table>, content: seq<seq<Row>>, db: Db, i: nat)
    requires DistinctTables(order) && |content| == |order| && AllDistinct(content)
    requires i <= |order| && EmptyFrom(order, db, i)
    ensures Run(db, InsertsFrom(order, content, i)) == Loaded(order, content, db, i)
    decreases |order| - i
  {
    if i < |order| {
      var next := db[order[i].name := Load(content[i])];
      assert DistinctIds(content[i]);
      EmptyFromNext(order, db, i, Load(content[i]));
      InsertsRun(order, content, next, i + 1);
      InsertsRunStep(order, content, db, i);
    }
  }

  lemma FromTable(order: seq<Table>, content: seq<seq<Row>>, i: nat)
    requires |order| == |content| && i < |order|
    ensures InsertsFrom(order, content, i) ==
      InsertAll(order[i], Batches(content[i])) + InsertsFrom(order, content, i + 1)
  {
  }

  lemma BatchesFromNothing(rows: seq<Row>)
    ensures [] + Concat(Batches(rows)) == rows
  {
    BatchesConcat(rows);
  }

  lemma InsertsIntactStep(order: seq<Table>, excluded: seq<Table>, content: seq<seq<Row>>, db: Db, i: nat)
    requires WholeSchema(order, excluded) && Sound(order, content) && i < |order|
      && Level(order, excluded, content, db, i, [])
    requires AlwaysIntact(order + excluded, db[order[i].name := Load(content[i])], InsertsFrom(order, content, i + 1))
    ensures AlwaysIntact(order + excluded, db, InsertsFrom(order, content, i))
  {
    var rest := InsertsFrom(order, content, i + 1);
    BatchesFromNothing(content[i]);
    InsertIntact(order, excluded, content, db, i, [], Batches(content[i]), rest);
    FromTable(order, content, i);
  }

  lemma {:induction false} InsertsIntact(order: seq<Table>, excluded: seq<Table>, content: seq<seq<Row>>, db: Db,
                                         i: nat)
    requires WholeSchema(order, excluded) && Sound(order, content) && i <= |order|
      && Level(order, excluded, content, db, i, [])
    ensures AlwaysIntact(order + excluded, db, InsertsFrom(order, content, i))
    decreases |order| - i
  {
    if i == |order| {
      LevelIntact(order, excluded, content, db, i, []);
    } else {
      var next := db[order[i].name := Load(content[i])];
      LevelUp(order, excluded, content, db, i);
      InsertsIntact(order, excluded, content, next, i + 1);
      InsertsIntactStep(order, excluded, content, db, i);
    }
  }

  /** No foreign key points to an excluded table. */
  lemma NothingPointsOut(order: seq<Table>, excluded: seq<Table>, t: Table, k: string, x: Table)
    requires WholeSchema(order, excluded) && t in order + excluded && x in excluded && k in t.columns
      && t.columns[k].parent.Some?
    ensures t.columns[k].parent.value != x.name
  {
    if t in order {
      var i :| 0 <= i < |order| && order[i] == t;
      assert k in order[i].columns;
      var j :| 0 <= j < i && order[j].name == order[i].columns[k].parent.value;
    } else {
      var j :| 0 <= j < |order| && order[j].name == t.columns[k].parent.value;
    }
  }

  lemma {:induction false} ExcludedClearable(order: seq<Table>, excluded: seq<Table>, db: Db, names: seq<string>)
    requires WholeSchema(order, excluded)
    requires forall n :: n in names ==> exists t :: t in excluded && t.name == n
    ensures Clearable(order + excluded, db, names)
    decreases |names|
  {
    if names != [] {
      assert names[0] in names && forall n :: n in names[1..] ==> n in names;
      var x :| x in excluded && x.name == names[0];
      forall t, k | t in order + excluded && k in t.columns && t.columns[k].parent.Some?
        ensures t.columns[k].parent.value != names[0]
      {
        NothingPointsOut(order, excluded, t, k, x);
      }
      assert Unreferenced(order + excluded, db, names[0]);
      ExcludedClearable(order, excluded, db[names[0] := map[]], names[1..]);
    }
  }

  /** Tables from n on, and the excluded ones, are empty. */
  ghost predicate Cleared(order: seq<Table>, excluded: seq<Table>, db: Db, n: nat) {
    && (forall j :: n <= j < |order| ==> order[j].name in db && db[order[j].name] == map[])
    && (forall t :: t in excluded ==> t.name in db && db[t.name] == map[])
  }

  lemma ParentIsEarlier(order: seq<Table>, m: nat, k: string, n: nat)
    requires WellFormed(order) && m < n <= |order| && k in order[m].columns && order[m].columns[k].parent.Some?
    ensures order[m].columns[k].parent.value != order[n - 1].name
  {
    var j :| 0 <= j < m && order[j].name == order[m].columns[k].parent.value;
  }

  /** Only a table before n still holds rows. */
  lemma StillHolding(order: seq<Table>, excluded: seq<Table>, db: Db, n: nat, t: Table) returns (m: nat)
    requires n <= |order| && Cleared(order, excluded, db, n)
    requires t in order + excluded && t.name in db && db[t.name] != map[]
    ensures m < n && order[m] == t
  {
    assert t in order;
    m :| 0 <= m < |order| && order[m] == t;
  }

  /** Nothing that still holds rows points to the last table. */
  lemma LastUnreferenced(order: seq<Table>, excluded: seq<Table>, db: Db, n: nat)
    requires WholeSchema(order, excluded) && 0 < n <= |order| && Cleared(order, excluded, db, n)
    ensures Unreferenced(order + excluded, db, order[n - 1].name)
  {
    var name := order[n - 1].name;
    forall t, k | t in order + excluded && t.name in db && t.name != name && db[t.name] != map[] && k in t.columns
      && t.columns[k].parent.Some?
      ensures t.columns[k].parent.value != name
    {
      var m := StillHolding(order, excluded, db, n, t);
      ParentIsEarlier(order, m, k, n);
    }
  }

  lemma ClearedMore(order: seq<Table>, excluded: seq<Table>, db: Db, n: nat)
    requires 0 < n <= |order| && Cleared(order, excluded, db, n)
    ensures Cleared(order, excluded, db[order[n - 1].name := map[]], n - 1)
  {
  }

  lemma BackwardsStep(order: seq<Table>, excluded: seq<Table>, db: Db, n: nat)
    requires WholeSchema(order, excluded) && 0 < n <= |order| && Cleared(order, excluded, db, n)
    requires Clearable(order + excluded, db[order[n - 1].name := map[]], Backwards(order, n - 1))
    ensures Clearable(order + excluded, db, Backwards(order, n))
  {
    LastUnreferenced(order, excluded, db, n);
    assert Backwards(order, n)[1..] == Backwards(order, n - 1);
  }

  lemma {:induction false} BackwardsClearable(order: seq<Table>, excluded: seq<Table>, db: Db, n: nat)
    requires WholeSchema(order, excluded) && n <= |order| && Cleared(order, excluded, db, n)
    ensures Clearable(order + excluded, db, Backwards(order, n))
    decreases n
  {
    if n > 0 {
      ClearedMore(order, excluded, db, n);
      BackwardsClearable(order, excluded, db[order[n - 1].name := map[]], n - 1);
      BackwardsStep(order, excluded, db, n);
    }
  }

  lemma {:induction false} BackwardsClears(order: seq<Table>, excluded: seq<Table>, db: Db, n: nat)
    requires n <= |order| && Cleared(order, excluded, db, n)
    ensures Cleared(order, excluded, Emptied(db, Backwards(order, n)), 0)
    decreases n
  {
    if n > 0 {
      ClearedMore(order, excluded, db, n);
      BackwardsClears(order, excluded, db[order[n - 1].name := map[]], n - 1);
      assert Backwards(order, n)[1..] == Backwards(order, n - 1);
    }
  }

  lemma ClearedIsLevel(order: seq<Table>, excluded: seq<Table>, content: seq<seq<Row>>, db: Db)
    requires WholeSchema(order, excluded) && |content| == |order| && Holds(order, excluded, db)
      && Cleared(order, excluded, db, 0)
    ensures Level(order, excluded, content, db, 0, [])
  {
    assert Load([]) == map[];
  }

  /** The database once both delete loops are through. */
  lemma AfterClears(order: seq<Table>, excluded: seq<Table>, content: seq<seq<Row>>, db: Db)
    requires WholeSchema(order, excluded) && |content| == |order| && Holds(order, excluded, db)
    ensures var first := Emptied(db, NamesOf(excluded)); var second := Emptied(first, Backwards(order, |order|));
      && Clearable(order + excluded, db, NamesOf(excluded))
      && Clearable(order + excluded, first, Backwards(order, |order|))
      && Level(order, excluded, content, second, 0, [])
  {
    var names := NamesOf(excluded);
    var first := Emptied(db, names);
    forall n | n in names
      ensures exists t :: t in excluded && t.name == n
    {
      var i :| 0 <= i < |names| && names[i] == n;
      assert excluded[i] in excluded;
    }
    ExcludedClearable(order, excluded, db, names);
    forall t | t in excluded
      ensures t.name in first && first[t.name] == map[]
    {
      var i :| 0 <= i < |excluded| && excluded[i] == t;
      assert names[i] in names && t in order + excluded;
      EmptiedAt(db, names, t.name);
    }
    BackwardsClearable(order, excluded, first, |order|);
    BackwardsClears(order, excluded, first, |order|);
    EmptiedAt(db, names, "");
    BackwardsNames(order, |order|);
    EmptiedAt(first, Backwards(order, |order|), "");
    var second := Emptied(first, Backwards(order, |order|));
    forall name
      ensures name in second <==> name in db
    {
      if name in names {
        var t :| t in excluded && t.name == name;
        assert t in order + excluded;
      }
      if name in Backwards(order, |order|) {
        var i :| 0 <= i < |order| && order[i].name == name;
        assert order[i] in order + excluded;
      }
    }
    ClearedIsLevel(order, excluded, content, second);
  }

  lemma {:induction false} BackwardsNames(order: seq<Table>, n: nat)
    requires n <= |order|
    ensures forall name :: name in Backwards(order, n) ==> exists i :: 0 <= i < n && order[i].name == name
  {
    if n > 0 {
      BackwardsNames(order, n - 1);
    }
  }

  /**
    A restore plan goes through exactly when the archive's rows keep the constraints, and then leaves exactly
    those rows, whatever the database held before.
   */
  lemma PlanRuns(order: seq<Table>, excluded: seq<Table>, content: seq<seq<Row>>, db: Db)
    requires WholeSchema(order, excluded) && Sound(order, content) && Holds(order, excluded, db)
    ensures Run(db, Plan(order, excluded, content)).Some? <==> AllAdmissible(order, content, 0)
    ensures AllAdmissible(order, content, 0) ==>
      IsRestored(order, excluded, content, Run(db, Plan(order, excluded, content)).value)
  {
    var inserts := InsertsFrom(order, content, 0);
    var first := Emptied(db, NamesOf(excluded));
    AfterClears(order, excluded, content, db);
    ClearRun(db, NamesOf(excluded), ClearAll(Backwards(order, |order|)) + inserts);
    ClearRun(first, Backwards(order, |order|), inserts);
    var second := Emptied(first, Backwards(order, |order|));
    InsertsRun(order, content, second, 0);
    LoadedIff(order, content, second, 0);
    if AllAdmissible(order, content, 0) {
      LoadedRestores(order, excluded, content, second, 0);
    }
  }

  /** Starting from intact references, every statement of the plan that is reached keeps every reference intact. */
  lemma PlanKeepsReferences(order: seq<Table>, excluded: seq<Table>, content: seq<seq<Row>>, db: Db)
    requires WholeSchema(order, excluded) && Sound(order, content) && Holds(order, excluded, db)
      && Intact(order + excluded, db)
    ensures AlwaysIntact(order + excluded, db, Plan(order, excluded, content))
  {
    var inserts := InsertsFrom(order, content, 0);
    var first := Emptied(db, NamesOf(excluded));
    AfterClears(order, excluded, content, db);
    ClearIntact(order + excluded, db, NamesOf(excluded), ClearAll(Backwards(order, |order|)) + inserts);
    ClearIntact(order + excluded, first, Backwards(order, |order|), inserts);
    InsertsIntact(order, excluded, content, Emptied(first, Backwards(order, |order|)), 0);
  }
}
