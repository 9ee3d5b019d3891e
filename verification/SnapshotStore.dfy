/** The restore operation on a live database, and the round trip through an archive. */
module SnapshotStore {
  import opened Common
  import opened SnapshotRows
  import opened SnapshotArchive
  import opened SnapshotPreflight
  import opened SnapshotTheorems
  import opened SnapshotRestore

  // ---------------------------------------------------------------- revoking launch authorizations

  lemma RevokeKeeps(t: Table, row: Row, at: int)
    requires "decision" in t.columns && t.columns["decision"].parent.None?
    requires "revoked_at" in t.columns && t.columns["revoked_at"].parent.None?
    ensures RowId(Revoke(row, at)) == RowId(row) && References(t, Revoke(row, at)) == References(t, row)
  {
    var after := Revoke(row, at);
    assert forall k ::
      k != "decision" && k != "revoked_at" ==> (k in after <==> k in row) && (k in row ==> after[k] == row[k]);
  }

  lemma RevokeClash(u: seq<string>, x: Row, y: Row, a: int, b: int)
    requires "decision" !in u && "revoked_at" !in u
    ensures Clash(u, Revoke(x, a), Revoke(y, b)) <==> Clash(u, x, y)
  {
  }

  ghost predicate LaunchTable(t: Table) {
    t.name == LAUNCHES ==>
      && "decision" in t.columns && t.columns["decision"].parent.None? && !t.columns["decision"].kind.KInt?
      && "revoked_at" in t.columns && t.columns["revoked_at"].parent.None? && !t.columns["revoked_at"].kind.KInt?
      && forall u :: u in t.uniques ==> "decision" !in u && "revoked_at" !in u
  }

  /** The row as it was, except that its decision is "revoked" and its time of revocation is this. */
  ghost predicate RevokedAt(x: Row, y: Row, at: int) {
    && "decision" in y && y["decision"] == Text("revoked")
    && "revoked_at" in y && y["revoked_at"] == Instant(at)
    && forall k :: k != "decision" && k != "revoked_at" ==> (k in y <==> k in x) && (k in x ==> y[k] == x[k])
  }

  lemma RevokeRevokes(x: Row, y: Row, at: int)
    ensures y == Revoke(x, at) <==> RevokedAt(x, y, at)
  {
    if RevokedAt(x, y, at) {
      assert y.Keys == Revoke(x, at).Keys;
    }
  }

  /** The same rows come back, and launch authorizations differ only by being revoked. */
  ghost predicate SameButRevoked(t: Table, original: map<string, Row>, restored: map<string, Row>, clock: nat -> int) {
    && restored.Keys == original.Keys
    && (t.name != LAUNCHES ==> restored == original)
    && (t.name == LAUNCHES ==>
          forall id :: id in original ==> exists k: nat :: RevokedAt(original[id], restored[id], clock(k)))
  }

  lemma AnyRevoked(t: Table, original: map<string, Row>, restored: map<string, Row>, clock: nat -> int,
                   id: string) returns (k: nat)
    requires SameButRevoked(t, original, restored, clock) && t.name == LAUNCHES && id in original
    ensures restored[id] == Revoke(original[id], clock(k))
  {
    k :| RevokedAt(original[id], restored[id], clock(k));
    RevokeRevokes(original[id], restored[id], clock(k));
  }

  lemma StampedRows(t: Table, rows: seq<Row>, clock: nat -> int)
    requires LaunchTable(t)
    ensures forall k :: 0 <= k < |rows| ==> RowId(Stamped(t, rows, clock)[k]) == RowId(rows[k])
    ensures forall k :: 0 <= k < |rows| ==> References(t, Stamped(t, rows, clock)[k]) == References(t, rows[k])
    ensures DistinctIds(rows) ==> DistinctIds(Stamped(t, rows, clock))
    ensures Ids(Stamped(t, rows, clock)) == Ids(rows)
  {
    var after := Stamped(t, rows, clock);
    if t.name == LAUNCHES {
      forall k | 0 <= k < |rows|
        ensures RowId(after[k]) == RowId(rows[k]) && References(t, after[k]) == References(t, rows[k])
      {
        RevokeKeeps(t, rows[k], clock(k));
      }
      forall id
        ensures id in Ids(after) <==> id in Ids(rows)
      {
        if id in Ids(rows) {
          var k :| 0 <= k < |rows| && RowId(rows[k]) == id;
          assert after[k] in after;
        }
        if id in Ids(after) {
          var k :| 0 <= k < |after| && RowId(after[k]) == id;
          assert rows[k] in rows;
        }
      }
    }
  }

  lemma StampedLoad(t: Table, rows: seq<Row>, clock: nat -> int)
    requires LaunchTable(t) && DistinctIds(rows)
    ensures SameButRevoked(t, Load(rows), Load(Stamped(t, rows, clock)), clock)
  {
    var after := Stamped(t, rows, clock);
    StampedRows(t, rows, clock);
    LoadKeys(rows);
    LoadKeys(after);
    if t.name == LAUNCHES {
      forall id | id in Load(rows)
        ensures exists k: nat :: RevokedAt(Load(rows)[id], Load(after)[id], clock(k))
      {
        LoadValues(rows, id);
        var k :| 0 <= k < |rows| && rows[k] == Load(rows)[id];
        LoadAt(rows, k);
        LoadAt(after, k);
        RevokeRevokes(rows[k], after[k], clock(k));
      }
    }
  }

  lemma StampedInRange(t: Table, rows: seq<Row>, clock: nat -> int)
    requires LaunchTable(t) && DistinctIds(rows)
    ensures InRange(t, Load(Stamped(t, rows, clock))) <==> InRange(t, Load(rows))
  {
    var x, y := Load(rows), Load(Stamped(t, rows, clock));
    StampedLoad(t, rows, clock);
    if t.name == LAUNCHES {
      forall id, k | id in x && k in t.columns && t.columns[k].kind.KInt?
        ensures (k in y[id] <==> k in x[id]) && (k in x[id] ==> y[id][k] == x[id][k])
      {
        var i := AnyRevoked(t, x, y, clock, id);
      }
    }
  }

  lemma StampedUnique(t: Table, rows: seq<Row>, clock: nat -> int)
    requires LaunchTable(t) && DistinctIds(rows)
    ensures UniqueOk(t, Load(Stamped(t, rows, clock))) <==> UniqueOk(t, Load(rows))
  {
    var x, y := Load(rows), Load(Stamped(t, rows, clock));
    StampedLoad(t, rows, clock);
    if t.name == LAUNCHES {
      forall u, a, b | u in t.uniques && a in x && b in x
        ensures Clash(u, y[a], y[b]) <==> Clash(u, x[a], x[b])
      {
        var i := AnyRevoked(t, x, y, clock, a);
        var j := AnyRevoked(t, x, y, clock, b);
        RevokeClash(u, x[a], x[b], clock(i), clock(j));
      }
    }
  }

  /** Stamping changes neither identities nor references nor constraints. */
  lemma StampedSound(order: seq<Table>, content: seq<seq<Row>>, clock: nat -> int)
    requires WellFormed(order) && Sound(order, content)
    ensures Sound(order, StampedAll(order, content, clock))
    ensures AllAdmissible(order, StampedAll(order, content, clock), 0) <==> AllAdmissible(order, content, 0)
    ensures forall i :: 0 <= i < |order| ==> LaunchTable(order[i])
  {
    var after := StampedAll(order, content, clock);
    forall i | 0 <= i < |order|
      ensures LaunchTable(order[i]) && DistinctIds(after[i]) && Ids(after[i]) == Ids(content[i])
      ensures Admissible(order[i], Load(after[i])) <==> Admissible(order[i], Load(content[i]))
      ensures forall r :: r in after[i] ==>
        exists r0 :: r0 in content[i] && References(order[i], r) == References(order[i], r0)
    {
      assert DistinctIds(content[i]);
      StampedRows(order[i], content[i], clock);
      StampedUnique(order[i], content[i], clock);
      StampedInRange(order[i], content[i], clock);
      forall r | r in after[i]
        ensures exists r0 :: r0 in content[i] && References(order[i], r) == References(order[i], r0)
      {
        var k :| 0 <= k < |after[i]| && after[i][k] == r;
        assert content[i][k] in content[i];
      }
    }
    forall i, r, ref | 0 <= i < |order| && r in after[i] && ref in References(order[i], r)
      ensures Resolves(order, after, ref)
    {
      var r0 :| r0 in content[i] && References(order[i], r) == References(order[i], r0);
      assert Resolves(order, content, ref);
    }
  }

  // ---------------------------------------------------------------- the live database

  /** An archive that can be restored: preflight accepts it and its rows keep the constraints. */
  ghost predicate Restorable(c: Codec, lim: Limits, order: seq<Table>, a: Archive, content: seq<seq<Row>>) {
    AcceptsAs(c, lim, order, a, content) && AllAdmissible(order, content, 0)
  }

  lemma AcceptedIsSound(c: Codec, lim: Limits, order: seq<Table>, a: Archive, content: seq<seq<Row>>)
    requires AcceptsAs(c, lim, order, a, content)
    ensures Sound(order, content)
  {
    var m := Header(c, order, a).value;
    forall i | 0 <= i < |order|
      ensures DistinctIds(content[i])
    {
      assert TableHolds(c, order[i], m, a, content[i]);
    }
  }

  /** The rows preflight reads are the only ones an archive can be accepted with. */
  lemma AcceptedOnce(c: Codec, lim: Limits, order: seq<Table>, a: Archive, x: seq<seq<Row>>, y: seq<seq<Row>>)
    requires AcceptsAs(c, lim, order, a, x) && AcceptsAs(c, lim, order, a, y)
    ensures x == y
  {
    ContentForced(c, order, Header(c, order, a).value, a, x, y);
  }

  lemma TakeOne(batch: seq<Row>, all: seq<Row>, k: nat)
    requires k < |all|
    ensures batch + all[k..] == batch + [all[k]] + all[k + 1..]
  {
  }

  /** A full batch is written at once. */
  lemma FullBatch(db: Db, t: Table, batch: seq<Row>, tail: seq<Row>, rest: seq<Statement>)
    requires |batch| == BATCH
    ensures Run(db, InsertAll(t, Batches(batch + tail)) + rest)
         == match Execute(db, Insert(t, batch))
            case None => None
            case Some(next) => Run(next, InsertAll(t, Batches(tail)) + rest)
  {
    assert (batch + tail)[..BATCH] == batch && (batch + tail)[BATCH..] == tail;
    var batches := Batches(batch + tail);
    assert batches == [batch] + Batches(tail) && batches[1..] == Batches(tail);
    BatchesCons(t, [], batches, rest);
    RunStep(db, Insert(t, batch), InsertAll(t, Batches(tail)) + rest);
  }

  /** The rows left over at the end are written once, if there are any. */
  lemma LastBatch(db: Db, t: Table, batch: seq<Row>, rest: seq<Statement>)
    requires |batch| < BATCH
    ensures Run(db, InsertAll(t, Batches(batch)) + rest)
         == if batch == [] then Run(db, rest)
            else match Execute(db, Insert(t, batch)) case None => None case Some(next) => Run(next, rest)
  {
    var batches := Batches(batch);
    BatchesCons(t, [], batches, rest);
    if batch != [] {
      assert batches == [batch] && batches[1..] == [];
      BatchesCons(t, [], [], rest);
      RunStep(db, Insert(t, batch), rest);
    }
  }

  /** What decides a restore once preflight has read the rows. */
  lemma RestoreDecided(c: Codec, lim: Limits, order: seq<Table>, excluded: seq<Table>, a: Archive, rows: seq<seq<Row>>,
                       clock: nat -> int, db: Db)
    requires WholeSchema(order, excluded) && Holds(order, excluded, db) && AcceptsAs(c, lim, order, a, rows)
    ensures var result := Run(db, Plan(order, excluded, StampedAll(order, rows, clock)));
      && (result.Some? <==> exists content :: Restorable(c, lim, order, a, content))
      && (result.Some? ==> forall content :: AcceptsAs(c, lim, order, a, content) ==>
            IsRestored(order, excluded, StampedAll(order, content, clock), result.value))
  {
    AcceptedIsSound(c, lim, order, a, rows);
    StampedSound(order, rows, clock);
    PlanRuns(order, excluded, StampedAll(order, rows, clock), db);
    forall other | AcceptsAs(c, lim, order, a, other)
      ensures other == rows
    {
      AcceptedOnce(c, lim, order, a, rows, other);
    }
    if AllAdmissible(order, rows, 0) {
      assert Restorable(c, lim, order, a, rows);
    }
  }

  class Store {
    var db: Db

    constructor (db: Db)
      ensures this.db == db
    {
      this.db := db;
    }

    /** The delete loops. */
    method ClearTables(names: seq<string>, ghost rest: seq<Statement>)
      modifies this
      ensures db == Emptied(old(db), names)
      ensures Run(old(db), ClearAll(names) + rest) == Run(db, rest)
    {
      ClearRun(db, names, rest);
      var k := 0;
      while k < |names|
        invariant 0 <= k <= |names|
        invariant Emptied(old(db), names) == Emptied(db, names[k..])
      {
        db := db[names[k] := map[]];
        k := k + 1;
      }
    }

    /** Adds a row to the batch and writes the batch once it is full. */
    method Push(t: Table, batch: seq<Row>, row: Row, ghost tail: seq<Row>,
                ghost rest: seq<Statement>) returns (ok: bool, next: seq<Row>)
      requires |batch| < BATCH
      modifies this
      ensures |next| < BATCH
      ensures ok ==>
        Run(old(db), InsertAll(t, Batches(batch + [row] + tail)) + rest) ==
          Run(db, InsertAll(t, Batches(next + tail)) + rest)
      ensures !ok ==> Run(old(db), InsertAll(t, Batches(batch + [row] + tail)) + rest).None?
    {
      ok, next := true, batch + [row];
      if |next| == BATCH {
        FullBatch(db, t, next, tail, rest);
        var after := Execute(db, Insert(t, next));
        next := [];
        if after.None? {
          return false, next;
        }
        db := after.value;
        assert next + tail == tail;
      }
    }

    /** Writes what is left at the end of a table. */
    method FlushLast(t: Table, batch: seq<Row>, ghost rest: seq<Statement>) returns (ok: bool)
      requires |batch| < BATCH
      modifies this
      ensures ok ==> Run(old(db), InsertAll(t, Batches(batch)) + rest) == Run(db, rest)
      ensures !ok ==> Run(old(db), InsertAll(t, Batches(batch)) + rest).None?
    {
      LastBatch(db, t, batch, rest);
      if batch != [] {
        var next := Execute(db, Insert(t, batch));
        if next.None? {
          return false;
        }
        db := next.value;
      }
      ok := true;
    }

    /** The insert loop of one table: rows gather in a batch that is written whenever it is full, and once at the
        end. */
    method InsertTable(t: Table, rows: seq<Row>, clock: nat -> int, ghost rest: seq<Statement>) returns (ok: bool)
      modifies this
      ensures ok ==> Run(old(db), InsertAll(t, Batches(Stamped(t, rows, clock))) + rest) == Run(db, rest)
      ensures !ok ==> Run(old(db), InsertAll(t, Batches(Stamped(t, rows, clock))) + rest).None?
    {
      ghost var all := Stamped(t, rows, clock);
      ghost var goal := Run(db, InsertAll(t, Batches(all)) + rest);
      var batch: seq<Row> := [];
      var k := 0;
      ghost var remaining := all;
      while k < |rows|
        invariant 0 <= k <= |rows| && |batch| < BATCH
        invariant remaining == batch + all[k..]
        invariant goal == Run(db, InsertAll(t, Batches(remaining)) + rest)
      {
        TakeOne(batch, all, k);
        var row := if t.name == LAUNCHES then Revoke(rows[k], clock(k)) else rows[k];
        ok, batch := Push(t, batch, row, all[k + 1..], rest);
        if !ok {
          return;
        }
        k := k + 1;
        remaining := batch + all[k..];
      }
      assert remaining == batch;
      ok := FlushLast(t, batch, rest);
    }

    /** All insert loops. */
    method InsertTables(order: seq<Table>, content: seq<seq<Row>>, clock: nat -> int) returns (ok: bool)
      requires |order| == |content|
      modifies this
      ensures ok ==> Run(old(db), InsertsFrom(order, StampedAll(order, content, clock), 0)) == Some(db)
      ensures !ok ==> Run(old(db), InsertsFrom(order, StampedAll(order, content, clock), 0)).None?
    {
      ghost var all := StampedAll(order, content, clock);
      var i := 0;
      while i < |order|
        invariant 0 <= i <= |order|
        invariant Run(old(db), InsertsFrom(order, all, 0)) == Run(db, InsertsFrom(order, all, i))
      {
        var done := InsertTable(order[i], content[i], clock, InsertsFrom(order, all, i + 1));
        if !done {
          return false;
        }
        i := i + 1;
      }
      ok := true;
    }

    /** The transaction: all statements of the plan, or none of them. */
    method Replace(order: seq<Table>, excluded: seq<Table>, content: seq<seq<Row>>,
                   clock: nat -> int) returns (ok: bool)
      requires |order| == |content|
      modifies this
      ensures var result := Run(old(db), Plan(order, excluded, StampedAll(order, content, clock)));
              ok == result.Some? && db == if ok then result.value else old(db)
    {
      var savepoint := db;
      ghost var inserts := InsertsFrom(order, StampedAll(order, content, clock), 0);
      ClearTables(NamesOf(excluded), ClearAll(Backwards(order, |order|)) + inserts);
      ClearTables(Backwards(order, |order|), inserts);
      ok := InsertTables(order, content, clock);
      if !ok {
        db := savepoint;
      }
    }

    /**
      Restore is all or nothing: it succeeds exactly when the archive is restorable, then leaves exactly its rows; in
      every other case the database stays as it was.
     */
    method Restore(c: Codec, lim: Limits, order: seq<Table>, excluded: seq<Table>, a: Archive,
                   clock: nat -> int) returns (ok: bool)
      requires WholeSchema(order, excluded) && Holds(order, excluded, db)
      modifies this
      ensures ok <==> exists content :: Restorable(c, lim, order, a, content)
      ensures !ok ==> db == old(db)
      ensures ok ==> forall content :: AcceptsAs(c, lim, order, a, content) ==>
                       IsRestored(order, excluded, StampedAll(order, content, clock), db)
    {
      var content := Preflight(c, lim, order, a);
      if content.None? {
        return false;
      }
      RestoreDecided(c, lim, order, excluded, a, content.value, clock, db);
      ok := Replace(order, excluded, content.value, clock);
    }
  }

  // ---------------------------------------------------------------- the round trip

  /** The rows of a table in the order of a listing of its keys. */
  function Listed(rows: map<string, Row>, keys: seq<string>): seq<Row>
    requires forall k :: k in keys ==> k in rows
  {
    seq(|keys|, i requires 0 <= i < |keys| => rows[keys[i]])
  }

  /** Every row is stored under its own key and typed by its table. */
  ghost predicate WellKept(t: Table, rows: map<string, Row>) {
    && (forall id :: id in rows ==> RowId(rows[id]) == id && RowTyped(t, rows[id]))
    && Admissible(t, rows)
  }

  lemma ListedIds(t: Table, rows: map<string, Row>, keys: seq<string>)
    requires WellKept(t, rows) && Enumerates(keys, rows.Keys)
    ensures forall i :: 0 <= i < |keys| ==> RowId(Listed(rows, keys)[i]) == keys[i]
    ensures DistinctIds(Listed(rows, keys)) && Ids(Listed(rows, keys)) == rows.Keys
  {
    var listed := Listed(rows, keys);
    forall i | 0 <= i < |keys|
      ensures RowId(listed[i]) == keys[i]
    {
      assert keys[i] in keys;
    }
    forall id
      ensures id in Ids(listed) <==> id in rows
    {
      if id in rows {
        assert id in keys;
        var i :| 0 <= i < |keys| && keys[i] == id;
        assert listed[i] in listed;
      }
    }
  }

  lemma ListedLoads(t: Table, rows: map<string, Row>, keys: seq<string>)
    requires WellKept(t, rows) && Enumerates(keys, rows.Keys)
    ensures DistinctIds(Listed(rows, keys)) && Load(Listed(rows, keys)) == rows
  {
    var listed := Listed(rows, keys);
    ListedIds(t, rows, keys);
    LoadKeys(listed);
    forall id | id in rows
      ensures Load(listed)[id] == rows[id]
    {
      assert id in keys;
      var i :| 0 <= i < |keys| && keys[i] == id;
      LoadAt(listed, i);
    }
  }

  /** The database being exported. */
  ghost predicate Exportable(order: seq<Table>, source: Db, keys: seq<seq<string>>) {
    && |keys| == |order|
    && (forall i :: 0 <= i < |order| ==>
          && order[i].name in source && WellKept(order[i], source[order[i].name])
          && Enumerates(keys[i], source[order[i].name].Keys))
  }

  function Export(order: seq<Table>, source: Db, keys: seq<seq<string>>): (content: seq<seq<Row>>)
    requires |keys| == |order|
    requires forall i :: 0 <= i < |order| ==>
      order[i].name in source && forall k :: k in keys[i] ==> k in source[order[i].name]
    ensures |content| == |order|
  {
    seq(|order|, i requires 0 <= i < |order| => Listed(source[order[i].name], keys[i]))
  }

  lemma ExportTyped(order: seq<Table>, source: Db, keys: seq<seq<string>>)
    requires Exportable(order, source, keys)
    ensures ContentTyped(order, Export(order, source, keys))
    ensures forall i :: 0 <= i < |order| ==> Load(Export(order, source, keys)[i]) == source[order[i].name]
    ensures AllAdmissible(order, Export(order, source, keys), 0)
  {
    var content := Export(order, source, keys);
    forall i | 0 <= i < |order|
      ensures DistinctIds(content[i]) && Load(content[i]) == source[order[i].name]
      ensures forall r :: r in content[i] ==> RowTyped(order[i], r)
    {
      ListedLoads(order[i], source[order[i].name], keys[i]);
    }
  }

  /** Every exported table is back, with launch authorizations revoked; the excluded tables are empty. */
  ghost predicate GivesBack(order: seq<Table>, excluded: seq<Table>, source: Db, clock: nat -> int, result: Db) {
    && (forall t ::
      t in order ==> t.name in source && t.name in result && SameButRevoked(t, source[t.name], result[t.name], clock))
    && (forall t :: t in excluded ==> t.name in result && result[t.name] == map[])
  }

  lemma ContentGivesBack(order: seq<Table>, excluded: seq<Table>, content: seq<seq<Row>>, source: Db,
                         clock: nat -> int, result: Db)
    requires WellFormed(order) && Sound(order, content)
    requires forall i :: 0 <= i < |order| ==> order[i].name in source && Load(content[i]) == source[order[i].name]
    requires IsRestored(order, excluded, StampedAll(order, content, clock), result)
    ensures GivesBack(order, excluded, source, clock, result)
  {
    forall t | t in order
      ensures t.name in source && t.name in result && SameButRevoked(t, source[t.name], result[t.name], clock)
    {
      var i :| 0 <= i < |order| && order[i] == t;
      StampedSound(order, content, clock);
      assert DistinctIds(content[i]);
      StampedLoad(t, content[i], clock);
      assert result[order[i].name] == Load(StampedAll(order, content, clock)[i]);
    }
  }

  /** The archive can be restored as this content, and doing so gives the database back. */
  ghost predicate Returns(c: Codec, lim: Limits, order: seq<Table>, excluded: seq<Table>, source: Db,
                          content: seq<seq<Row>>, a: Archive, target: Db, clock: nat -> int)
    requires |order| == |content|
  {
    var result := Run(target, Plan(order, excluded, StampedAll(order, content, clock)));
    Restorable(c, lim, order, a, content) && result.Some? && GivesBack(order, excluded, source, clock, result.value)
  }

  /**
    Writing a database and restoring the archive into any other one gives the first database back on every exported
    table, except that launch authorizations come back revoked; the excluded tables end up empty.
   */
  lemma RestoreRoundTrip(c: Codec, lim: Limits, order: seq<Table>, excluded: seq<Table>, source: Db,
                         keys: seq<seq<string>>,
                         salts: seq<int>, extra: map<string, Json>, target: Db, clock: nat -> int)
    requires Lawful(c) && WholeSchema(order, excluded) && ExtraOk(extra) && |salts| == |order|
    requires Exportable(order, source, keys) && Holds(order, excluded, target)
    requires BuildSucceeds(c, lim, order, Export(order, source, keys), salts)
    requires Accepts(c, lim, order, Built(c, order, Export(order, source, keys), salts, extra))
    ensures var content := Export(order, source, keys);
            Returns(c, lim, order, excluded, source, content, Built(c, order, content, salts, extra), target, clock)
  {
    var content := Export(order, source, keys);
    var a := Built(c, order, content, salts, extra);
    ExportTyped(order, source, keys);
    WrittenIsAcceptedIff(c, lim, order, content, salts, extra);
    assert Restorable(c, lim, order, a, content);
    AcceptedIsSound(c, lim, order, a, content);
    ContentRestores(order, excluded, content, source, target, clock);
  }

  /** What the exported rows have to be like for their backup to be restorable, whatever it is restored into. */
  ghost predicate Restores(c: Codec, lim: Limits, order: seq<Table>, content: seq<seq<Row>>, salts: seq<int>,
                           extra: map<string, Json>)
    requires |order| == |content| == |salts|
  {
    && ContentTyped(order, content) && ContentReadable(order, content) && ContentAccepted(c, order, content)
    && BuildSucceeds(c, lim, order, content, salts) && WithinReserve(c, lim, order, content, salts, extra)
  }

  lemma BackupAccepted(c: Codec, lim: Limits, order: seq<Table>, source: Db, keys: seq<seq<string>>, salts: seq<int>,
                       extra: map<string, Json>)
    requires Lawful(c) && WellFormed(order) && ExtraOk(extra) && |salts| == |order|
    requires Exportable(order, source, keys) && Restores(c, lim, order, Export(order, source, keys), salts, extra)
    ensures Accepts(c, lim, order, Built(c, order, Export(order, source, keys), salts, extra))
  {
    ExportTyped(order, source, keys);
    WriteThenAccept(c, lim, order, Export(order, source, keys), salts, extra);
  }

  /**
    The same from the database alone: within the reserve, a build that succeeds restores whenever the rows are readable
    and the relations sound.
   */
  lemma BackupRestores(c: Codec, lim: Limits, order: seq<Table>, excluded: seq<Table>, source: Db,
                       keys: seq<seq<string>>, salts: seq<int>, extra: map<string, Json>, target: Db, clock: nat -> int)
    requires Lawful(c) && WholeSchema(order, excluded) && ExtraOk(extra) && |salts| == |order|
    requires Exportable(order, source, keys) && Restores(c, lim, order, Export(order, source, keys), salts, extra)
    requires Holds(order, excluded, target)
    ensures var content := Export(order, source, keys);
            Returns(c, lim, order, excluded, source, content, Built(c, order, content, salts, extra), target, clock)
  {
    BackupAccepted(c, lim, order, source, keys, salts, extra);
    RestoreRoundTrip(c, lim, order, excluded, source, keys, salts, extra, target, clock);
  }

  lemma ContentRestores(order: seq<Table>, excluded: seq<Table>, content: seq<seq<Row>>, source: Db, target: Db,
                        clock: nat -> int)
    requires WholeSchema(order, excluded) && Sound(order, content) && AllAdmissible(order, content, 0)
      && Holds(order, excluded, target)
    requires forall i :: 0 <= i < |order| ==> order[i].name in source && Load(content[i]) == source[order[i].name]
    ensures var result := Run(target, Plan(order, excluded, StampedAll(order, content, clock)));
            result.Some? && GivesBack(order, excluded, source, clock, result.value)
  {
    StampedSound(order, content, clock);
    PlanRuns(order, excluded, StampedAll(order, content, clock), target);
    ContentGivesBack(order, excluded, content, source, clock,
                     Run(target, Plan(order, excluded, StampedAll(order, content, clock))).value);
  }

  /** The same rows, up to the time at which launch authorizations were revoked. */
  ghost predicate SameButTime(t: Table, x: map<string, Row>, y: map<string, Row>) {
    && x.Keys == y.Keys
    && (t.name != LAUNCHES ==> x == y)
    && (t.name == LAUNCHES ==> forall id :: id in x ==> x[id] - {"revoked_at"} == y[id] - {"revoked_at"})
  }

  ghost predicate AllSameButTime(tables: seq<Table>, x: Db, y: Db) {
    forall t :: t in tables ==> t.name in x && t.name in y && SameButTime(t, x[t.name], y[t.name])
  }

  lemma RevokedTwice(row: Row, a: int, b: int)
    ensures Revoke(row, a) - {"revoked_at"} == Revoke(row, b) - {"revoked_at"}
  {
  }

  lemma StampedTwice(t: Table, rows: seq<Row>, first: nat -> int, second: nat -> int)
    requires LaunchTable(t) && DistinctIds(rows)
    ensures SameButTime(t, Load(Stamped(t, rows, first)), Load(Stamped(t, rows, second)))
  {
    StampedLoad(t, rows, first);
    StampedLoad(t, rows, second);
    RevokedApart(t, Load(rows), Load(Stamped(t, rows, first)), Load(Stamped(t, rows, second)), first, second);
  }

  lemma RevokedApart(t: Table, x: map<string, Row>, y: map<string, Row>, z: map<string, Row>, first: nat -> int,
                     second: nat -> int)
    requires SameButRevoked(t, x, y, first) && SameButRevoked(t, x, z, second)
    ensures SameButTime(t, y, z)
  {
    if t.name == LAUNCHES {
      forall id | id in y
        ensures y[id] - {"revoked_at"} == z[id] - {"revoked_at"}
      {
        var i := AnyRevoked(t, x, y, first, id);
        var j := AnyRevoked(t, x, z, second, id);
        RevokedTwice(x[id], first(i), second(j));
      }
    }
  }

  lemma RestoredTwice(order: seq<Table>, excluded: seq<Table>, content: seq<seq<Row>>, first: nat -> int,
                      second: nat -> int, x: Db, y: Db)
    requires WellFormed(order) && Sound(order, content) && Apart(order, excluded)
    requires IsRestored(order, excluded, StampedAll(order, content, first), x)
    requires IsRestored(order, excluded, StampedAll(order, content, second), y)
    ensures AllSameButTime(order + excluded, x, y)
  {
    StampedSound(order, content, first);
    forall t | t in order + excluded
      ensures t.name in x && t.name in y && SameButTime(t, x[t.name], y[t.name])
    {
      if t in order {
        var i :| 0 <= i < |order| && order[i] == t;
        assert DistinctIds(content[i]);
        StampedTwice(t, content[i], first, second);
        assert x[order[i].name] == Load(StampedAll(order, content, first)[i]);
        assert y[order[i].name] == Load(StampedAll(order, content, second)[i]);
      }
    }
  }

  /** Restoring the same archive again changes nothing but the time of revocation. */
  lemma RestoreTwice(order: seq<Table>, excluded: seq<Table>, content: seq<seq<Row>>, target: Db, first: nat -> int,
                     second: nat -> int)
    requires WholeSchema(order, excluded) && Sound(order, content) && AllAdmissible(order, content, 0)
      && Holds(order, excluded, target)
    ensures var once := Run(target, Plan(order, excluded, StampedAll(order, content, first)));
      && once.Some?
      && var twice := Run(once.value, Plan(order, excluded, StampedAll(order, content, second)));
      && twice.Some? && AllSameButTime(order + excluded, once.value, twice.value)
      && twice == Run(target, Plan(order, excluded, StampedAll(order, content, second)))
  {
    StampedSound(order, content, first);
    StampedSound(order, content, second);
    PlanRuns(order, excluded, StampedAll(order, content, first), target);
    var once := Run(target, Plan(order, excluded, StampedAll(order, content, first))).value;
    PlanRuns(order, excluded, StampedAll(order, content, second), target);
    PlanRuns(order, excluded, StampedAll(order, content, second), once);
    RestoredUnique(order, excluded, StampedAll(order, content, second),
                   Run(target, Plan(order, excluded, StampedAll(order, content, second))).value,
                   Run(once, Plan(order, excluded, StampedAll(order, content, second))).value);
    RestoredTwice(order, excluded, content, first, second, once,
                  Run(once, Plan(order, excluded, StampedAll(order, content, second))).value);
  }
}
