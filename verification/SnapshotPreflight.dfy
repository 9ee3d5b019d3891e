/** The loops of preflight, which decide exactly the conditions put on an archive. */
module SnapshotPreflight {
  import opened Common
  import opened SnapshotRows
  import opened SnapshotArchive

  // ---------------------------------------------------------------- the loops of preflight

  lemma {:induction false} NamesCount(entries: seq<Entry>)
    ensures |Names(entries)| <= |entries|
    ensures |Names(entries)| == |entries| <==>
            forall i, j :: 0 <= i < j < |entries| ==> entries[i].name != entries[j].name
  {
    if entries != [] {
      var n := |entries| - 1;
      NamesCount(entries[..n]);
      assert entries == entries[..n] + [entries[n]];
      assert Names(entries) == Names(entries[..n]) + {entries[n].name};
    }
  }

  /** The member loop: sizes, kinds and ratios, with a running total. */
  method CheckLimits(lim: Limits, a: Archive) returns (ok: bool)
    ensures ok <==> LimitsFit(lim, a)
  {
    if a.length > lim.maxUpload || |a.entries| > lim.maxMembers {
      return false;
    }
    var total, k := 0, 0;
    while k < |a.entries|
      invariant 0 <= k <= |a.entries|
      invariant total == TotalSize(a.entries[..k])
      invariant forall e :: e in a.entries[..k] ==> EntryFits(lim, e)
    {
      var e := a.entries[k];
      assert a.entries[..k + 1][..k] == a.entries[..k];
      if !EntryFits(lim, e) {
        assert e in a.entries;
        return false;
      }
      total := total + |e.data|;
      k := k + 1;
    }
    assert a.entries[..k] == a.entries;
    ok := total <= lim.maxExpanded && |DataOf(a, MANIFEST)| <= 65536;
  }

  lemma {:induction false} VerifierScanPrefix(c: Codec, rows: seq<Row>, found: bool, k: nat)
    requires k <= |rows| && VerifierScan(c, rows[..k], found).None?
    ensures VerifierScan(c, rows, found).None?
  {
    if k < |rows| {
      assert rows[..|rows| - 1][..k] == rows[..k];
      VerifierScanPrefix(c, rows[..|rows| - 1], found, k);
    } else {
      assert rows[..k] == rows;
    }
  }

  function RefsOf(t: Table, rows: seq<Row>): set<(string, Cell)> {
    set r, ref | r in rows && ref in References(t, r) :: ref
  }

  /** What one pass over a data member finds out. */
  datatype Findings = Findings(rows: seq<Row>, found: bool, references: set<(string, Cell)>)

  ghost predicate TableSound(c: Codec, t: Table, data: Bytes, found: bool) {
    var rows := ReadRows(c, t, data);
    rows.Some? && DistinctIds(rows.value) && (t.name == SETTINGS ==> VerifierScan(c, rows.value, found).Some?)
  }

  lemma PrependNothing<T>(all: Option<seq<T>>)
    ensures Prepend([], all) == all
  {
    if all.Some? {
      assert [] + all.value == all.value;
    }
  }

  lemma PrependTwice<T>(rows: seq<T>, row: T, tail: Option<seq<T>>)
    ensures Prepend(rows, Prepend([row], tail)) == Prepend(rows + [row], tail)
    ensures tail.Some? ==> rows + [row] <= Prepend(rows + [row], tail).value
  {
    if tail.Some? {
      assert rows + ([row] + tail.value) == rows + [row] + tail.value;
    }
  }

  /** Reading one more line keeps the rows read so far a prefix of all rows. */
  lemma RowStep(c: Codec, t: Table, data: Bytes, rows: seq<Row>, rest: Bytes, n: nat)
    requires rest != [] && n == LineLength(rest, MAX_ROW * 2 + 1)
    requires ReadRows(c, t, data) == Prepend(rows, ReadRows(c, t, rest))
    ensures ReadLine(c, t, rest[..n]).None? ==> ReadRows(c, t, data).None?
    ensures ReadLine(c, t, rest[..n]).Some? ==>
      && ReadRows(c, t, data) == Prepend(rows + [ReadLine(c, t, rest[..n]).value], ReadRows(c, t, rest[n..]))
      && (ReadRows(c, t, data).Some? ==> rows + [ReadLine(c, t, rest[..n]).value] <= ReadRows(c, t, data).value)
  {
    var line := ReadLine(c, t, rest[..n]);
    if line.Some? {
      assert ReadRows(c, t, rest) == Prepend([line.value], ReadRows(c, t, rest[n..]));
      PrependTwice(rows, line.value, ReadRows(c, t, rest[n..]));
    }
  }

  /** A repeated id or a settings row that raises spoils the table, whatever follows. */
  lemma RowSpoils(c: Codec, t: Table, all: seq<Row>, found: bool, rows: seq<Row>, row: Row)
    requires rows + [row] <= all
    requires RowId(row) in Ids(rows) || (t.name == SETTINGS && VerifierScan(c, rows + [row], found).None?)
    ensures !DistinctIds(all) || (t.name == SETTINGS && VerifierScan(c, all, found).None?)
  {
    if RowId(row) in Ids(rows) {
      var i :| 0 <= i < |rows| && RowId(rows[i]) == RowId(row);
      assert all[i] == (rows + [row])[i] && all[|rows|] == (rows + [row])[|rows|];
    } else {
      assert all[..|rows| + 1] == rows + [row];
      VerifierScanPrefix(c, all, found, |rows| + 1);
    }
  }

  lemma VerifierScanSnoc(c: Codec, rows: seq<Row>, row: Row, found: bool, flag: bool)
    requires VerifierScan(c, rows, found) == Some(flag)
    ensures VerifierScan(c, rows + [row], found) == VerifierStep(c, flag, row)
  {
    assert (rows + [row])[..|rows|] == rows;
  }

  lemma IdsSnoc(t: Table, rows: seq<Row>, row: Row)
    requires DistinctIds(rows)
    ensures RowId(row) !in Ids(rows) ==> DistinctIds(rows + [row])
    ensures Ids(rows + [row]) == Ids(rows) + {RowId(row)}
    ensures RefsOf(t, rows + [row]) == RefsOf(t, rows) + References(t, row)
  {
    if RowId(row) !in Ids(rows) {
      forall i | 0 <= i < |rows|
        ensures RowId(rows[i]) != RowId(row)
      {
        assert rows[i] in rows;
      }
    }
  }

  /** The row loop: decrypts line by line, collects ids and references, and follows the verifier. */
  method CheckTable(c: Codec, t: Table, data: Bytes, found: bool) returns (result: Option<Findings>)
    ensures result.Some? <==> TableSound(c, t, data, found)
    ensures result.Some? ==>
      && ReadRows(c, t, data) == Some(result.value.rows)
      && result.value.references == RefsOf(t, result.value.rows)
      && Some(result.value.found) == if t.name == SETTINGS then VerifierScan(c, result.value.rows, found)
                                     else Some(found)
  {
    var rest, rows, flag := data, [], found;
    var ids: set<string> := {};
    var references: set<(string, Cell)> := {};
    PrependNothing(ReadRows(c, t, data));
    while rest != []
      invariant ReadRows(c, t, data) == Prepend(rows, ReadRows(c, t, rest))
      invariant DistinctIds(rows) && ids == Ids(rows) && references == RefsOf(t, rows)
      invariant Some(flag) == if t.name == SETTINGS then VerifierScan(c, rows, found) else Some(found)
      decreases |rest|
    {
      var n := LineLength(rest, MAX_ROW * 2 + 1);
      var line := ReadLine(c, t, rest[..n]);
      RowStep(c, t, data, rows, rest, n);
      if line.None? {
        return None;
      }
      var row := line.value;
      IdsSnoc(t, rows, row);
      var step := if t.name == SETTINGS then VerifierStep(c, flag, row) else Some(flag);
      if t.name == SETTINGS {
        VerifierScanSnoc(c, rows, row, found, flag);
      }
      if RowId(row) in ids || step.None? {
        if ReadRows(c, t, data).Some? {
          RowSpoils(c, t, ReadRows(c, t, data).value, found, rows, row);
        }
        return None;
      }
      ids, references, rows, flag := ids + {RowId(row)}, references + References(t, row), rows + [row], step.value;
      rest := rest[n..];
    }
    assert rows + [] == rows;
    return Some(Findings(rows, flag, references));
  }

  lemma {:induction false} VerifierAfterPrefix(c: Codec, order: seq<Table>, x: seq<seq<Row>>, y: seq<seq<Row>>, n: nat)
    requires n <= |order| && n <= |x| && n <= |y| && x[..n] == y[..n]
    ensures VerifierAfter(c, order, x, n) == VerifierAfter(c, order, y, n)
  {
    if n > 0 {
      assert x[..n - 1] == x[..n][..n - 1] == y[..n - 1];
      assert x[n - 1] == x[..n][n - 1] == y[n - 1];
      VerifierAfterPrefix(c, order, x, y, n - 1);
    }
  }

  lemma {:induction false} VerifierAfterNone(c: Codec, order: seq<Table>, x: seq<seq<Row>>, n: nat, m: nat)
    requires n <= m <= |order| && m <= |x| && VerifierAfter(c, order, x, n).None?
    ensures VerifierAfter(c, order, x, m).None?
    decreases m
  {
    if n < m {
      VerifierAfterNone(c, order, x, n, m - 1);
    }
  }

  /** The tables read so far leave no choice: an accepted content starts with exactly them. */
  lemma ContentForced(c: Codec, order: seq<Table>, m: map<string, Json>, a: Archive, read: seq<seq<Row>>,
                      content: seq<seq<Row>>)
    requires TablesHold(c, order, m, a, read) && TablesHold(c, order, m, a, content) && |read| <= |content|
    ensures content[..|read|] == read
  {
    forall i | 0 <= i < |read|
      ensures content[i] == read[i]
    {
      assert TableHolds(c, order[i], m, a, read[i]) && TableHolds(c, order[i], m, a, content[i]);
    }
  }

  lemma VerifierForced(c: Codec, order: seq<Table>, read: seq<seq<Row>>, found: bool, content: seq<seq<Row>>)
    requires |read| < |order| == |content| && content[..|read|] == read
    requires VerifierAfter(c, order, read, |read|) == Some(found) && VerifierAfter(c, order, content, |order|).Some?
    ensures order[|read|].name == SETTINGS ==> VerifierScan(c, content[|read|], found).Some?
  {
    var i := |read|;
    VerifierAfterPrefix(c, order, read, content, i);
    if VerifierAfter(c, order, content, i + 1).None? {
      VerifierAfterNone(c, order, content, i + 1, |order|);
    }
  }

  /** If the next table fails its checks, no content passes the checks of all tables. */
  lemma Refuted(c: Codec, order: seq<Table>, m: map<string, Json>, a: Archive, read: seq<seq<Row>>, found: bool,
                content: seq<seq<Row>>)
    requires TablesHold(c, order, m, a, read) && |read| < |order|
    requires VerifierAfter(c, order, read, |read|) == Some(found)
    requires TablesHold(c, order, m, a, content) && |content| == |order|
    requires VerifierAfter(c, order, content, |order|).Some?
    ensures TableSound(c, order[|read|], DataOf(a, MemberName(order[|read|].name)), found)
    ensures TableHolds(c, order[|read|], m, a, content[|read|])
  {
    assert content[..|read|] == read by {
      ContentForced(c, order, m, a, read, content);
    }
    VerifierForced(c, order, read, found, content);
  }

  ghost predicate Named(order: seq<Table>, content: seq<seq<Row>>, identities: map<string, set<string>>)
    requires |content| <= |order|
  {
    && (forall name :: name in identities <==> exists j :: 0 <= j < |content| && order[j].name == name)
    && (forall j :: 0 <= j < |content| ==> order[j].name in identities && identities[order[j].name] == Ids(content[j]))
  }

  ghost predicate Gathered(order: seq<Table>, content: seq<seq<Row>>, foreign: set<(string, Cell)>)
    requires |content| <= |order|
  {
    forall ref :: ref in foreign <==> exists j :: 0 <= j < |content| && ref in RefsOf(order[j], content[j])
  }

  predicate Known(identities: map<string, set<string>>, ref: (string, Cell)) {
    ref.0 in identities && ref.1.Text? && ref.1.text in identities[ref.0]
  }

  lemma KnownResolves(order: seq<Table>, content: seq<seq<Row>>, identities: map<string, set<string>>,
                      ref: (string, Cell))
    requires |content| == |order| && Named(order, content, identities)
    ensures Known(identities, ref) <==> Resolves(order, content, ref)
  {
    if Known(identities, ref) {
      var j :| 0 <= j < |content| && order[j].name == ref.0;
      assert ref.1.text in Ids(content[j]);
    }
  }

  /** The collected references and ids decide referential integrity. */
  lemma ForeignDecided(order: seq<Table>, content: seq<seq<Row>>, identities: map<string, set<string>>,
                       foreign: set<(string, Cell)>)
    requires |content| == |order| && Named(order, content, identities) && Gathered(order, content, foreign)
    ensures (forall ref :: ref in foreign ==> Known(identities, ref)) <==> ForeignKeysOk(order, content)
  {
    forall ref | ref in foreign
      ensures Known(identities, ref) <==> Resolves(order, content, ref)
    {
      KnownResolves(order, content, identities, ref);
    }
    ForeignGathered(order, content, foreign);
  }

  lemma ForeignGathered(order: seq<Table>, content: seq<seq<Row>>, foreign: set<(string, Cell)>)
    requires |content| == |order| && Gathered(order, content, foreign)
    ensures (forall ref :: ref in foreign ==> Resolves(order, content, ref)) <==> ForeignKeysOk(order, content)
  {
    forall i, r, ref | 0 <= i < |order| && r in content[i] && ref in References(order[i], r)
      ensures ref in foreign
    {
      assert ref in RefsOf(order[i], content[i]);
    }
    if ForeignKeysOk(order, content) {
      forall ref | ref in foreign
        ensures Resolves(order, content, ref)
      {
        var j :| 0 <= j < |content| && ref in RefsOf(order[j], content[j]);
        var r :| r in content[j] && ref in References(order[j], r);
      }
    }
  }

  lemma TablesHoldStep(c: Codec, order: seq<Table>, m: map<string, Json>, a: Archive, content: seq<seq<Row>>,
                       rows: seq<Row>)
    requires TablesHold(c, order, m, a, content) && |content| < |order|
    requires TableHolds(c, order[|content|], m, a, rows)
    ensures TablesHold(c, order, m, a, content + [rows])
  {
    var more := content + [rows];
    forall i | 0 <= i < |more|
      ensures TableHolds(c, order[i], m, a, more[i])
    {
      if i < |content| {
        assert more[i] == content[i];
      }
    }
  }

  lemma NamedStep(order: seq<Table>, content: seq<seq<Row>>, rows: seq<Row>, identities: map<string, set<string>>)
    requires DistinctTables(order) && |content| < |order| && Named(order, content, identities)
    ensures Named(order, content + [rows], identities[order[|content|].name := Ids(rows)])
  {
    var more := content + [rows];
    forall j | 0 <= j < |more|
      ensures order[j].name == order[|content|].name <==> j == |content|
    {
    }
  }

  lemma GatheredStep(order: seq<Table>, content: seq<seq<Row>>, rows: seq<Row>, foreign: set<(string, Cell)>)
    requires |content| < |order| && Gathered(order, content, foreign)
    ensures Gathered(order, content + [rows], foreign + RefsOf(order[|content|], rows))
  {
    var more := content + [rows];
    assert more[|content|] == rows && forall j :: 0 <= j < |content| ==> more[j] == content[j];
  }

  /** What the table loop knows after reading some tables. */
  datatype Survey = Survey(content: seq<seq<Row>>, found: bool, identities: map<string, set<string>>,
                           foreign: set<(string, Cell)>)

  ghost predicate SurveyOk(c: Codec, order: seq<Table>, m: map<string, Json>, a: Archive, s: Survey) {
    && TablesHold(c, order, m, a, s.content)
    && VerifierAfter(c, order, s.content, |s.content|) == Some(s.found)
    && Named(order, s.content, s.identities)
    && Gathered(order, s.content, s.foreign)
  }

  function Extended(t: Table, s: Survey, f: Findings): Survey {
    Survey(s.content + [f.rows], f.found, s.identities[t.name := Ids(f.rows)], s.foreign + f.references)
  }

  ghost predicate Finds(c: Codec, t: Table, data: Bytes, found: bool, f: Findings) {
    && ReadRows(c, t, data) == Some(f.rows)
    && f.references == RefsOf(t, f.rows)
    && Some(f.found) == if t.name == SETTINGS then VerifierScan(c, f.rows, found) else Some(found)
  }

  lemma VerifierExtends(c: Codec, order: seq<Table>, content: seq<seq<Row>>, found: bool, rows: seq<Row>, next: bool)
    requires |content| < |order| && VerifierAfter(c, order, content, |content|) == Some(found)
    requires Some(next) == if order[|content|].name == SETTINGS then VerifierScan(c, rows, found) else Some(found)
    ensures VerifierAfter(c, order, content + [rows], |content| + 1) == Some(next)
  {
    assert (content + [rows])[..|content|] == content[..|content|];
    VerifierAfterPrefix(c, order, content, content + [rows], |content|);
  }

  lemma SurveyStep(c: Codec, order: seq<Table>, m: map<string, Json>, a: Archive, s: Survey, f: Findings)
    requires DistinctTables(order) && SurveyOk(c, order, m, a, s) && |s.content| < |order|
    requires var t := order[|s.content|];
             Finds(c, t, DataOf(a, MemberName(t.name)), s.found, f) && TableHolds(c, t, m, a, f.rows)
    ensures SurveyOk(c, order, m, a, Extended(order[|s.content|], s, f))
  {
    var more := s.content + [f.rows];
    assert VerifierAfter(c, order, more, |more|) == Some(f.found) by {
      VerifierExtends(c, order, s.content, s.found, f.rows, f.found);
    }
    assert TablesHold(c, order, m, a, more) by {
      TablesHoldStep(c, order, m, a, s.content, f.rows);
    }
    assert Named(order, more, Extended(order[|s.content|], s, f).identities) by {
      NamedStep(order, s.content, f.rows, s.identities);
    }
    assert Gathered(order, more, Extended(order[|s.content|], s, f).foreign) by {
      GatheredStep(order, s.content, f.rows, s.foreign);
    }
  }

  /** Some content passes the per-table checks of preflight. */
  ghost predicate Surveyed(c: Codec, order: seq<Table>, m: map<string, Json>, a: Archive, content: seq<seq<Row>>) {
    |content| == |order| && TablesHold(c, order, m, a, content) && VerifierAfter(c, order, content, |order|).Some?
  }

  lemma SurveyRefutes(c: Codec, order: seq<Table>, m: map<string, Json>, a: Archive, s: Survey)
    requires SurveyOk(c, order, m, a, s) && |s.content| < |order|
    requires var t := order[|s.content|]; var data := DataOf(a, MemberName(t.name));
             TableSound(c, t, data, s.found) ==> !TableHolds(c, t, m, a, ReadRows(c, t, data).value)
    ensures !exists content :: Surveyed(c, order, m, a, content)
  {
    forall other | Surveyed(c, order, m, a, other)
      ensures false
    {
      Refuted(c, order, m, a, s.content, s.found, other);
    }
  }

  /** The table loop of preflight. */
  method CheckTables(c: Codec, order: seq<Table>, m: map<string, Json>, a: Archive) returns (result: Option<Survey>)
    requires WellFormed(order) && Get(m, "members").JObj? && m["members"].fields.Keys == Allowed(order) - {MANIFEST}
    ensures result.Some? ==> |result.value.content| == |order| && SurveyOk(c, order, m, a, result.value)
    ensures result.None? ==> !exists content :: Surveyed(c, order, m, a, content)
  {
    var s := Survey([], false, map[], {});
    while |s.content| < |order|
      invariant |s.content| <= |order| && SurveyOk(c, order, m, a, s)
    {
      var t := order[|s.content|];
      var name := MemberName(t.name);
      MemberNameInjective(t.name, t.name);
      assert t in order;
      var findings := CheckTable(c, t, DataOf(a, name), s.found);
      if findings.None? || !InfoMatches(c, m["members"].fields[name], DataOf(a, name), |findings.value.rows|) {
        SurveyRefutes(c, order, m, a, s);
        return None;
      }
      SurveyStep(c, order, m, a, s, findings.value);
      s := Extended(t, s, findings.value);
    }
    return Some(s);
  }

  /** A complete survey settles the verdict: only its own content can be accepted. */
  lemma SurveyDecides(c: Codec, lim: Limits, order: seq<Table>, a: Archive, s: Survey)
    requires WellFormed(order) && Header(c, order, a).Some?
    requires SurveyOk(c, order, Header(c, order, a).value, a, s) && |s.content| == |order|
    requires LimitsFit(lim, a) && NamesFit(order, a)
    ensures AcceptsAs(c, lim, order, a, s.content) <==>
      s.found && forall ref :: ref in s.foreign ==> Known(s.identities, ref)
    ensures Accepts(c, lim, order, a) ==> AcceptsAs(c, lim, order, a, s.content)
  {
    ForeignDecided(order, s.content, s.identities, s.foreign);
    forall other | AcceptsAs(c, lim, order, a, other)
      ensures other == s.content
    {
      ContentForced(c, order, Header(c, order, a).value, a, s.content, other);
    }
  }

  /** Preflight itself: it accepts exactly the archives of `Accepts` and then knows their rows. */
  method Preflight(c: Codec, lim: Limits, order: seq<Table>, a: Archive) returns (result: Option<seq<seq<Row>>>)
    requires WellFormed(order)
    ensures result.Some? ==> AcceptsAs(c, lim, order, a, result.value)
    ensures result.None? ==> !Accepts(c, lim, order, a)
  {
    var fits := CheckLimits(lim, a);
    NamesCount(a.entries);
    if !fits || |Names(a.entries)| != |a.entries| || Names(a.entries) != Allowed(order) {
      return None;
    }
    var header := Header(c, order, a);
    if header.None? {
      return None;
    }
    var survey := CheckTables(c, order, header.value, a);
    if survey.None? {
      forall other | AcceptsAs(c, lim, order, a, other)
        ensures Surveyed(c, order, header.value, a, other)
      {
      }
      return None;
    }
    var s := survey.value;
    SurveyDecides(c, lim, order, a, s);
    if s.found && forall ref | ref in s.foreign :: Known(s.identities, ref) {
      return Some(s.content);
    }
    return None;
  }
}
