/** The parts of a snapshot archive, the conditions preflight puts on them, and the writer. */
module SnapshotArchive {
  import opened Common
  import opened SnapshotRows

  const SCHEMA := "perimetr.full-backup.v4"
  const MODE := "full-replace"
  const SERVICE := "perimetr"
  const REVISION := "0007"
  const ENCRYPTION := "fernet-row-v1"
  const MANIFEST := "manifest.json"
  const SETTINGS := "system_settings"
  const PREFERENCES := "perimetr.preferences"
  const LAUNCHES := "launch_authorizations"
  const RESERVE := 65536

  datatype Limits = Limits(maxUpload: nat, maxMember: nat, maxExpanded: nat, maxMembers: nat, maxRatio: nat)

  /** A ZIP member. `plain` says it is no link, no directory and not encrypted by ZIP itself. */
  datatype Entry = Entry(name: string, data: Bytes, stored: nat, plain: bool)

  /** `length` is the size of the whole file. */
  datatype Archive = Archive(entries: seq<Entry>, length: nat)

  // ---------------------------------------------------------------- the schema

  function MemberName(table: string): string {
    "data/" + table + ".jsonl"
  }

  lemma MemberNameInjective(a: string, b: string)
    ensures MemberName(a) == MemberName(b) <==> a == b
    ensures MemberName(a) != MANIFEST
  {
    var x, y := MemberName(a), MemberName(b);
    assert x[0] == 'd';
    if x == y {
      assert |a| == |b|;
      assert a == x[5..5 + |a|] && b == y[5..5 + |b|];
    }
  }

  ghost predicate DistinctTables(order: seq<Table>) {
    forall i, j :: 0 <= i < j < |order| ==> order[i].name != order[j].name
  }

  /** Distinct keyed tables, parents before children, with the columns the restore touches. */
  ghost predicate WellFormed(order: seq<Table>) {
    && DistinctTables(order)
    && (forall i :: 0 <= i < |order| ==> Keyed(order[i]))
    && (forall i, k :: 0 <= i < |order| && k in order[i].columns && order[i].columns[k].parent.Some? ==>
          exists j :: 0 <= j < i && order[j].name == order[i].columns[k].parent.value)
    && (forall i :: 0 <= i < |order| && order[i].name == SETTINGS ==>
          "key" in order[i].columns && "value" in order[i].columns)
    && (forall i :: 0 <= i < |order| && order[i].name == LAUNCHES ==>
          && "decision" in order[i].columns && order[i].columns["decision"] == Column(KString(32), false, None)
          && "revoked_at" in order[i].columns && order[i].columns["revoked_at"] == Column(KTime, true, None)
          && !(exists u :: u in order[i].uniques && ("decision" in u || "revoked_at" in u)))
  }

  // ---------------------------------------------------------------- what preflight demands

  function Find(entries: seq<Entry>, name: string): Option<Bytes> {
    if entries == [] then None
    else if entries[0].name == name then Some(entries[0].data)
    else Find(entries[1..], name)
  }

  function DataOf(a: Archive, name: string): Bytes {
    match Find(a.entries, name) case Some(d) => d case None => []
  }

  function Names(entries: seq<Entry>): set<string> {
    set e | e in entries :: e.name
  }

  function Allowed(order: seq<Table>): set<string> {
    (set t | t in order :: MemberName(t.name)) + {MANIFEST}
  }

  function TotalSize(entries: seq<Entry>): nat {
    if entries == [] then 0 else TotalSize(entries[..|entries| - 1]) + |entries[|entries| - 1].data|
  }

  predicate EntryFits(lim: Limits, e: Entry) {
    e.plain && |e.data| <= lim.maxMember && |e.data| <= (if e.stored > 1 then e.stored else 1) * lim.maxRatio
  }

  predicate LimitsFit(lim: Limits, a: Archive) {
    && a.length <= lim.maxUpload
    && |a.entries| <= lim.maxMembers
    && (forall e | e in a.entries :: EntryFits(lim, e))
    && TotalSize(a.entries) <= lim.maxExpanded
    && |DataOf(a, MANIFEST)| <= 65536
  }

  ghost predicate NamesFit(order: seq<Table>, a: Archive) {
    && (forall i, j :: 0 <= i < j < |a.entries| ==> a.entries[i].name != a.entries[j].name)
    && Names(a.entries) == Allowed(order)
  }

  function Get(m: map<string, Json>, key: string): Json {
    if key in m then m[key] else JNull
  }

  function Power(base: int, n: nat): int {
    if n == 0 then 1 else base * Power(base, n - 1)
  }

  /** Python's == between a JSON value and an int. */
  predicate EqualsInt(j: Json, n: int) {
    match j
    case JInt(i) => i == n
    case JFloat(d) => d.exponent >= 0 && d.mantissa * Power(2, d.exponent) == n
    case JBool(b) => n == if b then 1 else 0
    case _ => false
  }

  predicate HeaderOk(c: Codec, order: seq<Table>, m: map<string, Json>) {
    && Get(m, "schema") == JStr(SCHEMA) && Get(m, "mode") == JStr(MODE) && Get(m, "service") == JStr(SERVICE)
    && Get(m, "database_revision") == JStr(REVISION) && Get(m, "encryption") == JStr(ENCRYPTION)
    && (if "authentication" in m then m["authentication"] else JStr(""))
       == JStr(c.mac(c.render(JObj(m - {"authentication"}))))
    && Get(m, "members").JObj? && m["members"].fields.Keys == Allowed(order) - {MANIFEST}
  }

  /** The manifest of an archive, when it is an authentic one for this schema. */
  function Header(c: Codec, order: seq<Table>, a: Archive): Option<map<string, Json>> {
    match c.parse(DataOf(a, MANIFEST))
    case Some(JObj(m)) => if HeaderOk(c, order, m) then Some(m) else None
    case _ => None
  }

  predicate InfoMatches(c: Codec, info: Json, data: Bytes, rows: nat) {
    && info.JObj?
    && EqualsInt(Get(info.fields, "size"), |data|)
    && Get(info.fields, "sha256") == JStr(c.digest(data))
    && EqualsInt(Get(info.fields, "rows"), rows)
  }

  ghost predicate DistinctIds(rows: seq<Row>) {
    forall i, j :: 0 <= i < j < |rows| ==> RowId(rows[i]) != RowId(rows[j])
  }

  function Ids(rows: seq<Row>): set<string> {
    set r | r in rows :: RowId(r)
  }

  /** The verifier flag after a settings row; None where the row makes the reader raise. */
  function VerifierStep(c: Codec, found: bool, row: Row): Option<bool> {
    if "key" in row && row["key"] == Text(PREFERENCES) then
      if "value" in row && row["value"].Doc? && row["value"].json.JObj? then
        var auth := if "auth" in row["value"].json.fields then row["value"].json.fields["auth"] else JObj(map[]);
        if auth.JObj? then Some(c.isVerifier(Get(auth.fields, "access_key_hash"))) else None
      else None
    else Some(found)
  }

  /** The flag after all rows, starting from `found`. */
  function VerifierScan(c: Codec, rows: seq<Row>, found: bool): Option<bool> {
    if rows == [] then Some(found)
    else match VerifierScan(c, rows[..|rows| - 1], found)
      case None => None
      case Some(f) => VerifierStep(c, f, rows[|rows| - 1])
  }

  /** The verifier flag after the first n tables. */
  function VerifierAfter(c: Codec, order: seq<Table>, content: seq<seq<Row>>, n: nat): Option<bool>
    requires n <= |order| && n <= |content|
  {
    if n == 0 then Some(false)
    else match VerifierAfter(c, order, content, n - 1)
      case None => None
      case Some(f) => if order[n - 1].name == SETTINGS then VerifierScan(c, content[n - 1], f) else Some(f)
  }

  /** The references a row makes: (parent table, key). */
  function References(t: Table, row: Row): set<(string, Cell)> {
    set k | k in t.columns && t.columns[k].parent.Some? && k in row && row[k] != Null ::
      (t.columns[k].parent.value, row[k])
  }

  ghost predicate Resolves(order: seq<Table>, content: seq<seq<Row>>, ref: (string, Cell))
    requires |order| == |content|
  {
    exists j :: 0 <= j < |order| && order[j].name == ref.0 && ref.1.Text? && ref.1.text in Ids(content[j])
  }

  ghost predicate ForeignKeysOk(order: seq<Table>, content: seq<seq<Row>>)
    requires |order| == |content|
  {
    forall i, r, ref ::
      0 <= i < |order| && r in content[i] && ref in References(order[i], r) ==> Resolves(order, content, ref)
  }

  /** What preflight checks about one data member that holds these rows. */
  ghost predicate TableHolds(c: Codec, t: Table, m: map<string, Json>, a: Archive, rows: seq<Row>) {
    var name := MemberName(t.name);
    && Get(m, "members").JObj? && name in m["members"].fields
    && InfoMatches(c, m["members"].fields[name], DataOf(a, name), |rows|)
    && ReadRows(c, t, DataOf(a, name)) == Some(rows)
    && DistinctIds(rows)
  }

  ghost predicate TablesHold(c: Codec, order: seq<Table>, m: map<string, Json>, a: Archive, content: seq<seq<Row>>) {
    |content| <= |order| && forall i :: 0 <= i < |content| ==> TableHolds(c, order[i], m, a, content[i])
  }

  ghost predicate ContentAccepted(c: Codec, order: seq<Table>, content: seq<seq<Row>>)
    requires |order| == |content|
  {
    VerifierAfter(c, order, content, |order|) == Some(true) && ForeignKeysOk(order, content)
  }

  /** The archives preflight accepts, with the rows they hold. */
  ghost predicate AcceptsAs(c: Codec, lim: Limits, order: seq<Table>, a: Archive, content: seq<seq<Row>>) {
    && LimitsFit(lim, a) && NamesFit(order, a)
    && Header(c, order, a).Some?
    && |content| == |order|
    && TablesHold(c, order, Header(c, order, a).value, a, content)
    && ContentAccepted(c, order, content)
  }

  ghost predicate Accepts(c: Codec, lim: Limits, order: seq<Table>, a: Archive) {
    exists content :: AcceptsAs(c, lim, order, a, content)
  }

  // ---------------------------------------------------------------- what build writes

  /** Bytes written to a ZIP file once these members are stored: a 30-byte header, the name and the data of each. */
  function Tell(entries: seq<Entry>): nat {
    if entries == [] then 0
    else var e := entries[|entries| - 1];
      Tell(entries[..|entries| - 1]) + 30 + |e.name| + |e.data|
  }

  /** Bytes of the central directory. */
  function Directory(entries: seq<Entry>): nat {
    if entries == [] then 0 else Directory(entries[..|entries| - 1]) + 46 + |entries[|entries| - 1].name|
  }

  function Packed(entries: seq<Entry>): Archive {
    Archive(entries, Tell(entries) + Directory(entries) + 22)
  }

  function Stored(name: string, data: Bytes): Entry {
    Entry(name, data, |data|, true)
  }

  function DataMembers(c: Codec, order: seq<Table>, content: seq<seq<Row>>, salts: seq<int>): (es: seq<Entry>)
    requires |order| == |content| == |salts|
    ensures |es| == |order|
  {
    seq(|order|, i requires 0 <= i < |order| => Stored(MemberName(order[i].name), Frame(c, salts[i], content[i])))
  }

  function Info(c: Codec, data: Bytes, rows: nat): Json {
    JObj(map["size" := JInt(|data|), "sha256" := JStr(c.digest(data)), "rows" := JInt(rows)])
  }

  /** A dictionary filled member by member. */
  function Tabulate(members: seq<Entry>, values: seq<Json>): map<string, Json>
    requires |members| == |values|
  {
    if members == [] then map[]
    else
      var n := |members| - 1;
      Tabulate(members[..n], values[..n])[members[n].name := values[n]]
  }

  /** The manifest's entry for every member. */
  function Infos(c: Codec, members: seq<Entry>, content: seq<seq<Row>>): map<string, Json>
    requires |members| == |content|
  {
    Tabulate(members, seq(|members|, i requires 0 <= i < |members| => Info(c, members[i].data, |content[i]|)))
  }

  lemma InfosSnoc(c: Codec, members: seq<Entry>, content: seq<seq<Row>>, e: Entry, rows: seq<Row>)
    requires |members| == |content|
    ensures Infos(c, members + [e], content + [rows]) == Infos(c, members, content)[e.name := Info(c, e.data, |rows|)]
  {
    var n := |members|;
    var values := seq(n, i requires 0 <= i < n => Info(c, members[i].data, |content[i]|));
    var more, moreContent := members + [e], content + [rows];
    var moreValues := seq(n + 1, i requires 0 <= i < n + 1 => Info(c, more[i].data, |moreContent[i]|));
    assert more[..n] == members;
    assert moreValues[..n] == values;
  }

  /** The manifest without its signature; version, creation time and the fixed texts come in as `extra`. */
  function Unsigned(extra: map<string, Json>, infos: map<string, Json>): map<string, Json> {
    extra["schema" := JStr(SCHEMA)]["service" := JStr(SERVICE)]["mode" := JStr(MODE)]
         ["database_revision" := JStr(REVISION)]["encryption" := JStr(ENCRYPTION)]["members" := JObj(infos)]
  }

  function Signed(c: Codec, m: map<string, Json>): map<string, Json> {
    m["authentication" := JStr(c.mac(c.render(JObj(m))))]
  }

  function ManifestEntry(c: Codec, extra: map<string, Json>, members: seq<Entry>, content: seq<seq<Row>>): Entry
    requires |members| == |content|
  {
    Stored(MANIFEST, c.render(JObj(Signed(c, Unsigned(extra, Infos(c, members, content))))))
  }

  function Built(c: Codec, order: seq<Table>, content: seq<seq<Row>>, salts: seq<int>,
                 extra: map<string, Json>): Archive
    requires |order| == |content| == |salts|
  {
    var members := DataMembers(c, order, content, salts);
    Packed(members + [ManifestEntry(c, extra, members, content)])
  }

  /** The size budget of table i, stated once for all of its rows. */
  ghost predicate TableBudget(c: Codec, lim: Limits, order: seq<Table>, content: seq<seq<Row>>, salts: seq<int>, i: nat)
    requires i < |order| == |content| == |salts|
  {
    && (forall r :: r in content[i] ==> WithinRowLimit(c, r))
    && (content[i] != [] ==>
          && |Frame(c, salts[i], content[i])| <= lim.maxMember
          && Tell(DataMembers(c, order, content, salts)[..i + 1]) <= lim.maxUpload - RESERVE)
  }

  ghost predicate BuildSucceeds(c: Codec, lim: Limits, order: seq<Table>, content: seq<seq<Row>>, salts: seq<int>)
    requires |order| == |content| == |salts|
  {
    forall i :: 0 <= i < |order| ==> TableBudget(c, lim, order, content, salts, i)
  }

  lemma {:induction false} FramePrefix(c: Codec, nonce: int, rows: seq<Row>, k: nat)
    requires k <= |rows|
    ensures |Frame(c, nonce, rows[..k])| <= |Frame(c, nonce, rows)|
    decreases |rows|
  {
    if k > 0 {
      assert rows[..k][1..] == rows[1..][..k - 1];
      FramePrefix(c, nonce + 1, rows[1..], k - 1);
    }
  }

  /** The member loop of the writer: the running checks fail on some row exactly when the whole table breaks its
      budget. */
  method BuildMember(c: Codec, lim: Limits, nonce: int, rows: seq<Row>, tellBefore: nat) returns (result: Option<Bytes>)
    ensures result.Some? <==>
      && (forall r :: r in rows ==> WithinRowLimit(c, r))
      && (rows != [] ==>
          |Frame(c, nonce, rows)| <= lim.maxMember && tellBefore + |Frame(c, nonce, rows)| <= lim.maxUpload - RESERVE)
    ensures result.Some? ==> result.value == Frame(c, nonce, rows)
  {
    var data: Bytes := [];
    var k := 0;
    while k < |rows|
      invariant 0 <= k <= |rows|
      invariant data == Frame(c, nonce, rows[..k])
      invariant forall r :: r in rows[..k] ==> WithinRowLimit(c, r)
      invariant k > 0 ==> |data| <= lim.maxMember && tellBefore + |data| <= lim.maxUpload - RESERVE
    {
      var row := rows[k];
      var raw := c.render(EncodeRow(c, row));
      assert row in rows;
      if |raw| > MAX_ROW {
        return None;
      }
      var line := c.seal(nonce + k, raw) + [NEWLINE];
      assert rows[..k + 1] == rows[..k] + [row];
      FrameAppend(c, nonce, rows[..k], row);
      FramePrefix(c, nonce, rows, k + 1);
      if |data| + |line| > lim.maxMember || tellBefore + |data| + |line| > lim.maxUpload - RESERVE {
        return None;
      }
      data := data + line;
      k := k + 1;
    }
    assert rows[..k] == rows;
    return Some(data);
  }

  /** What one more member adds to the file, its offset and the manifest, and the budget it has to meet. */
  lemma MemberStep(c: Codec, lim: Limits, order: seq<Table>, content: seq<seq<Row>>, salts: seq<int>, i: nat)
    requires i < |order| == |content| == |salts|
    ensures var all := DataMembers(c, order, content, salts);
            var e := Stored(MemberName(order[i].name), Frame(c, salts[i], content[i]));
      && all[..i + 1] == all[..i] + [e]
      && Tell(all[..i + 1]) == Tell(all[..i]) + 30 + |e.name| + |e.data|
      && Infos(c, all[..i + 1], content[..i + 1]) ==
        Infos(c, all[..i], content[..i])[e.name := Info(c, e.data, |content[i]|)]
  {
    var all := DataMembers(c, order, content, salts);
    var e := Stored(MemberName(order[i].name), Frame(c, salts[i], content[i]));
    assert all[..i + 1] == all[..i] + [e] && (all[..i] + [e])[..i] == all[..i];
    assert content[..i + 1] == content[..i] + [content[i]];
    InfosSnoc(c, all[..i], content[..i], e, content[i]);
  }

  /** The budget of a table, as the member loop checks it. */
  lemma BudgetStep(c: Codec, lim: Limits, order: seq<Table>, content: seq<seq<Row>>, salts: seq<int>, i: nat)
    requires i < |order| == |content| == |salts|
    ensures var size := |Frame(c, salts[i], content[i])|;
            var before := Tell(DataMembers(c, order, content, salts)[..i]) + 30 + |MemberName(order[i].name)|;
      TableBudget(c, lim, order, content, salts, i) <==>
        (forall r :: r in content[i] ==> WithinRowLimit(c, r))
        && (content[i] != [] ==> size <= lim.maxMember && before + size <= lim.maxUpload - RESERVE)
  {
    MemberStep(c, lim, order, content, salts, i);
  }

  lemma EndOfMembers(c: Codec, order: seq<Table>, content: seq<seq<Row>>, salts: seq<int>)
    requires |order| == |content| == |salts|
    ensures var all := DataMembers(c, order, content, salts); all[..|order|] == all && content[..|order|] == content
  {
  }

  /** The whole writer: it fails exactly when some table breaks its budget, and otherwise writes `Built`. */
  method BuildSnapshot(c: Codec, lim: Limits, order: seq<Table>, content: seq<seq<Row>>, salts: seq<int>,
                       extra: map<string, Json>)
    returns (result: Option<Archive>)
    requires |order| == |content| == |salts|
    ensures result.Some? <==> BuildSucceeds(c, lim, order, content, salts)
    ensures result.Some? ==> result.value == Built(c, order, content, salts, extra)
  {
    var members: seq<Entry> := [];
    var infos: map<string, Json> := map[];
    var tell := 0;
    ghost var all := DataMembers(c, order, content, salts);
    var i := 0;
    while i < |order|
      invariant 0 <= i <= |order|
      invariant members == all[..i] && tell == Tell(all[..i]) && infos == Infos(c, all[..i], content[..i])
      invariant forall j :: 0 <= j < i ==> TableBudget(c, lim, order, content, salts, j)
    {
      MemberStep(c, lim, order, content, salts, i);
      BudgetStep(c, lim, order, content, salts, i);
      var name := MemberName(order[i].name);
      var data := BuildMember(c, lim, salts[i], content[i], tell + 30 + |name|);
      if data.None? {
        assert !TableBudget(c, lim, order, content, salts, i);
        return None;
      }
      members := members + [Stored(name, data.value)];
      tell := tell + 30 + |name| + |data.value|;
      infos := infos[name := Info(c, data.value, |content[i]|)];
      i := i + 1;
    }
    EndOfMembers(c, order, content, salts);
    return Some(Packed(members + [Stored(MANIFEST, c.render(JObj(Signed(c, Unsigned(extra, infos)))))]));
  }
}
