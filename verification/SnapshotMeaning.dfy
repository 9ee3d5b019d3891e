/** What an accepted archive is, and what a restore leaves, without the functions preflight is built from. */
module SnapshotMeaning {
  import opened Common
  import opened SnapshotRows
  import opened SnapshotArchive
  import opened SnapshotPreflight
  import opened SnapshotTheorems
  import opened SnapshotRestore
  import opened SnapshotStore

  // ---------------------------------------------------------------- the operator's verifier

  predicate Preferences(row: Row) {
    "key" in row && row["key"] == Text("perimetr.preferences")
  }

  function Field(j: Json, key: string): Json {
    if j.JObj? && key in j.fields then j.fields[key] else JNull
  }

  /** The document of a row; a row without one has none. */
  function Document(row: Row): Json {
    if "value" in row && row["value"].Doc? then row["value"].json else JNull
  }

  /** The stored hash of the access key: value.auth.access_key_hash. */
  function StoredHash(row: Row): Json {
    Field(Field(Document(row), "auth"), "access_key_hash")
  }

  /** The preferences are a JSON object, and so is their auth part if there is one. */
  predicate WellShaped(row: Row) {
    Document(row).JObj? && ("auth" in Document(row).fields ==> Document(row).fields["auth"].JObj?)
  }

  /** In order: all preferences are well shaped, and the last of them, if any, holds a verifier. */
  ghost predicate LastHolds(c: Codec, rows: seq<Row>) {
    exists k :: 0 <= k < |rows| && Preferences(rows[k]) && c.isVerifier(StoredHash(rows[k]))
                && forall j :: k < j < |rows| ==> !Preferences(rows[j])
  }

  ghost predicate AllShaped(rows: seq<Row>) {
    forall r :: r in rows && Preferences(r) ==> WellShaped(r)
  }

  ghost predicate NonePreferred(rows: seq<Row>) {
    forall r :: r in rows ==> !Preferences(r)
  }

  lemma StepMeans(c: Codec, found: bool, row: Row)
    ensures !Preferences(row) ==> VerifierStep(c, found, row) == Some(found)
    ensures Preferences(row) && WellShaped(row) ==> VerifierStep(c, found, row) == Some(c.isVerifier(StoredHash(row)))
    ensures Preferences(row) && !WellShaped(row) ==> VerifierStep(c, found, row) == None
  {
  }

  lemma {:induction false} ScanMeans(c: Codec, rows: seq<Row>, found: bool)
    ensures VerifierScan(c, rows, found).Some? <==> AllShaped(rows)
    ensures VerifierScan(c, rows, found) == Some(true) <==>
      AllShaped(rows) && (LastHolds(c, rows) || (found && NonePreferred(rows)))
    decreases |rows|
  {
    if rows != [] {
      var n := |rows| - 1;
      var init, last := rows[..n], rows[n];
      assert rows == init + [last];
      ScanMeans(c, init, found);
      StepMeans(c, true, last);
      StepMeans(c, false, last);
      LastStep(c, init, last);
    }
  }

  lemma LastStep(c: Codec, init: seq<Row>, last: Row)
    ensures AllShaped(init + [last]) <==> AllShaped(init) && (Preferences(last) ==> WellShaped(last))
    ensures NonePreferred(init + [last]) <==> NonePreferred(init) && !Preferences(last)
    ensures LastHolds(c, init + [last]) <==>
      if Preferences(last) then c.isVerifier(StoredHash(last)) else LastHolds(c, init)
  {
    assert forall r :: r in init + [last] <==> r in init || r == last;
    if LastHolds(c, init + [last]) {
      HeldBefore(c, init, last);
    }
    if if Preferences(last) then c.isVerifier(StoredHash(last)) else LastHolds(c, init) {
      HeldAfter(c, init, last);
    }
  }

  lemma HeldBefore(c: Codec, init: seq<Row>, last: Row)
    requires LastHolds(c, init + [last])
    ensures if Preferences(last) then c.isVerifier(StoredHash(last)) else LastHolds(c, init)
  {
    var rows, n := init + [last], |init|;
    var k :| 0 <= k < |rows| && Preferences(rows[k]) && c.isVerifier(StoredHash(rows[k]))
             && forall j :: k < j < |rows| ==> !Preferences(rows[j]);
    assert rows[n] == last;
    if k < n {
      assert Preferences(init[k]) && forall j :: k < j < n ==> init[j] == rows[j];
    }
  }

  lemma HeldAfter(c: Codec, init: seq<Row>, last: Row)
    requires if Preferences(last) then c.isVerifier(StoredHash(last)) else LastHolds(c, init)
    ensures LastHolds(c, init + [last])
  {
    var rows, n := init + [last], |init|;
    assert rows[n] == last;
    if !Preferences(last) {
      var k :| 0 <= k < n && Preferences(init[k]) && c.isVerifier(StoredHash(init[k]))
               && forall j :: k < j < n ==> !Preferences(init[j]);
      assert Preferences(rows[k]) && forall j :: k < j < n ==> rows[j] == init[j];
    }
  }

  /** The settings table is one of these, at this place. */
  ghost predicate SettingsAt(order: seq<Table>, s: nat) {
    s < |order| && order[s].name == SETTINGS
  }

  lemma {:induction false} AfterMeans(c: Codec, order: seq<Table>, content: seq<seq<Row>>, s: nat, n: nat)
    requires DistinctTables(order) && |content| == |order| && SettingsAt(order, s) && n <= |order|
    ensures VerifierAfter(c, order, content, n) == if s < n then VerifierScan(c, content[s], false) else Some(false)
  {
    if n > 0 {
      AfterMeans(c, order, content, s, n - 1);
    }
  }

  /** A reference in the fields themselves: a column with a parent table holds a key, and that table has the row. */
  ghost predicate Points(order: seq<Table>, content: seq<seq<Row>>, i: nat, r: Row, k: string)
    requires i < |order| == |content| && k in order[i].columns && order[i].columns[k].parent.Some? && k in r
  {
    exists j, parent: Row :: 0 <= j < |order| && order[j].name == order[i].columns[k].parent.value
                        && parent in content[j] && r[k].Text? && RowId(parent) == r[k].text
  }

  ghost predicate AllPoint(order: seq<Table>, content: seq<seq<Row>>)
    requires |order| == |content|
  {
    forall i, r, k |
      0 <= i < |order| && r in content[i] && k in order[i].columns && k in r
      && order[i].columns[k].parent.Some? && r[k] != Null ::
      Points(order, content, i, r, k)
  }

  lemma ForeignKeysIff(order: seq<Table>, content: seq<seq<Row>>)
    requires |order| == |content|
    ensures ForeignKeysOk(order, content) <==> AllPoint(order, content)
  {
    if ForeignKeysOk(order, content) {
      forall i, r, k | 0 <= i < |order| && r in content[i] && k in order[i].columns && k in r
                       && order[i].columns[k].parent.Some? && r[k] != Null
        ensures Points(order, content, i, r, k)
      {
        var ref := (order[i].columns[k].parent.value, r[k]);
        assert ref in References(order[i], r);
        assert Resolves(order, content, ref);
        var j :| 0 <= j < |order| && order[j].name == ref.0 && ref.1.Text? && ref.1.text in Ids(content[j]);
        var parent :| parent in content[j] && RowId(parent) == ref.1.text;
      }
    }
    if AllPoint(order, content) {
      forall i: int, r: Row, ref: (string, Cell) | 0 <= i < |order| && r in content[i] && ref in References(order[i], r)
        ensures Resolves(order, content, ref)
      {
        var k: string :| k in order[i].columns && order[i].columns[k].parent.Some? && k in r && r[k] != Null
                 && ref == (order[i].columns[k].parent.value, r[k]);
        assert Points(order, content, i, r, k);
        var j, parent: Row :| 0 <= j < |order| && order[j].name == order[i].columns[k].parent.value
                         && parent in content[j] && r[k].Text? && RowId(parent) == r[k].text;
        assert ref.1.text in Ids(content[j]);
      }
    }
  }

  /** What preflight demands of the rows: references that resolve, preferences of the right shape, and a verifier in the
      last of them. */
  lemma ContentAcceptedIff(c: Codec, order: seq<Table>, content: seq<seq<Row>>, s: nat)
    requires DistinctTables(order) && |content| == |order| && SettingsAt(order, s)
    ensures ContentAccepted(c, order, content) <==>
      AllPoint(order, content) && AllShaped(content[s]) && LastHolds(c, content[s])
  {
    AfterMeans(c, order, content, s, |order|);
    ScanMeans(c, content[s], false);
    ForeignKeysIff(order, content);
  }

  ghost predicate DistinctKeys(rows: seq<Row>) {
    forall i, j :: 0 <= i < j < |rows| && "key" in rows[i] && "key" in rows[j] ==> rows[i]["key"] != rows[j]["key"]
  }

  /** Where no two settings share a key there is one row that matters, and it holds the verifier. */
  lemma OneVerifierRow(c: Codec, order: seq<Table>, content: seq<seq<Row>>, s: nat)
    requires DistinctTables(order) && |content| == |order| && SettingsAt(order, s) && DistinctKeys(content[s])
    ensures ContentAccepted(c, order, content) <==>
      AllPoint(order, content)
      && exists r :: r in content[s] && Preferences(r) && WellShaped(r) && c.isVerifier(StoredHash(r))
  {
    ContentAcceptedIff(c, order, content, s);
    var rows := content[s];
    if AllShaped(rows) && LastHolds(c, rows) {
      var k :| 0 <= k < |rows| && Preferences(rows[k]) && c.isVerifier(StoredHash(rows[k]))
               && forall j :: k < j < |rows| ==> !Preferences(rows[j]);
      assert rows[k] in rows;
    }
    if r :| r in rows && Preferences(r) && WellShaped(r) && c.isVerifier(StoredHash(r)) {
      var k :| 0 <= k < |rows| && rows[k] == r;
      forall j | 0 <= j < |rows| && j != k
        ensures !Preferences(rows[j])
      {
      }
      assert AllShaped(rows);
    }
  }

  // ---------------------------------------------------------------- an authentic manifest for this service

  /** The signature the manifest claims to have. */
  function Claim(m: map<string, Json>): Json {
    if "authentication" in m then m["authentication"] else JStr("")
  }

  /** It is the keyed digest of everything else in the manifest. */
  ghost predicate Authentic(c: Codec, m: map<string, Json>) {
    Claim(m) == JStr(c.mac(c.render(JObj(map k | k in m && k != "authentication" :: m[k]))))
  }

  /** The fixed texts of a snapshot of this version of the service. */
  ghost predicate OfThisKind(m: map<string, Json>) {
    var j := JObj(m);
    && Field(j, "schema") == JStr("perimetr.full-backup.v4") && Field(j, "mode") == JStr("full-replace")
    && Field(j, "service") == JStr("perimetr") && Field(j, "database_revision") == JStr("0007")
    && Field(j, "encryption") == JStr("fernet-row-v1")
  }

  /** The manifest describes the data members of these tables and nothing else. */
  ghost predicate ListsMembers(order: seq<Table>, m: map<string, Json>) {
    && Field(JObj(m), "members").JObj?
    && forall name :: name in Field(JObj(m), "members").fields <==>
         exists t :: t in order && name == "data/" + t.name + ".jsonl"
  }

  lemma NotTheManifest(t: Table)
    ensures "data/" + t.name + ".jsonl" == MemberName(t.name) != "manifest.json"
  {
    MemberNameInjective(t.name, t.name);
  }

  lemma AllowedMeans(order: seq<Table>, name: string)
    ensures name in Allowed(order) <==>
      name == "manifest.json" || exists t :: t in order && name == "data/" + t.name + ".jsonl"
    ensures name in Allowed(order) - {MANIFEST} <==> exists t :: t in order && name == "data/" + t.name + ".jsonl"
  {
    forall t | t in order
      ensures "data/" + t.name + ".jsonl" == MemberName(t.name) != "manifest.json"
    {
      NotTheManifest(t);
    }
  }

  lemma WithoutClaim(m: map<string, Json>)
    ensures (map k | k in m && k != "authentication" :: m[k]) == m - {"authentication"}
  {
  }

  /** The manifest is taken exactly if it is authentic, of this kind, and lists exactly the members. */
  lemma HeaderIff(c: Codec, order: seq<Table>, a: Archive, m: map<string, Json>)
    ensures Header(c, order, a) == Some(m) <==>
      c.parse(DataOf(a, "manifest.json")) == Some(JObj(m)) && Authentic(c, m) && OfThisKind(m) && ListsMembers(order, m)
  {
    WithoutClaim(m);
    forall name
      ensures name in Allowed(order) - {MANIFEST} <==> exists t :: t in order && name == "data/" + t.name + ".jsonl"
    {
      AllowedMeans(order, name);
    }
    KindIff(c, order, m);
  }

  lemma KindIff(c: Codec, order: seq<Table>, m: map<string, Json>)
    requires forall name ::
      name in Allowed(order) - {MANIFEST} <==> exists t :: t in order && name == "data/" + t.name + ".jsonl"
    requires (map k | k in m && k != "authentication" :: m[k]) == m - {"authentication"}
    ensures HeaderOk(c, order, m) <==> Authentic(c, m) && OfThisKind(m) && ListsMembers(order, m)
  {
    if ListsMembers(order, m) {
      assert m["members"].fields.Keys == Allowed(order) - {MANIFEST};
    }
  }

  /** A manifest with a wrong signature is refused, whatever else the archive holds. */
  lemma ForgedIsRefused(c: Codec, lim: Limits, order: seq<Table>, a: Archive, m: map<string, Json>)
    requires c.parse(DataOf(a, "manifest.json")) == Some(JObj(m)) && !Authentic(c, m)
    ensures !Accepts(c, lim, order, a)
  {
    if content :| AcceptsAs(c, lim, order, a, content) {
      HeaderIff(c, order, a, Header(c, order, a).value);
    }
  }

  // ---------------------------------------------------------------- members

  /** The number a JSON value stands for, as far as Python compares it with integers. */
  ghost predicate Counts(j: Json, n: nat) {
    || j == JInt(n)
    || (j.JBool? && n == (if j.flag then 1 else 0))
    || (j.JFloat? && j.value.exponent >= 0 && Doubled(j.value.mantissa, j.value.exponent) == n)
  }

  /** A number doubled this many times. */
  function Doubled(m: int, times: nat): int
    decreases times
  {
    if times == 0 then m else Doubled(2 * m, times - 1)
  }

  lemma {:induction false} DoubledIs(m: int, times: nat)
    ensures Doubled(m, times) == m * Power(2, times)
    decreases times
  {
    if times > 0 {
      DoubledIs(2 * m, times - 1);
      assert m * (2 * Power(2, times - 1)) == 2 * m * Power(2, times - 1);
    }
  }

  lemma CountsIff(j: Json, n: nat)
    ensures EqualsInt(j, n) <==> Counts(j, n)
  {
    if j.JFloat? && j.value.exponent >= 0 {
      DoubledIs(j.value.mantissa, j.value.exponent);
    }
  }

  /** What the manifest says about a member is so: its size, its digest, and how many rows it has. */
  ghost predicate Described(c: Codec, info: Json, data: Bytes, rows: nat) {
    info.JObj? && Counts(Field(info, "size"), |data|) && Field(info, "sha256") == JStr(c.digest(data))
    && Counts(Field(info, "rows"), rows)
  }

  /** What an accepted archive holds for every table: the described member, read row by row, no id twice. */
  lemma AcceptedMember(c: Codec, lim: Limits, order: seq<Table>, a: Archive, content: seq<seq<Row>>, i: nat)
    requires AcceptsAs(c, lim, order, a, content) && i < |order|
    ensures var name := "data/" + order[i].name + ".jsonl"; var data := DataOf(a, name);
      && Described(c, Field(Field(JObj(Header(c, order, a).value), "members"), name), data, |content[i]|)
      && ReadRows(c, order[i], data) == Some(content[i])
      && forall x, y :: 0 <= x < y < |content[i]| ==> RowId(content[i][x]) != RowId(content[i][y])
  {
    NotTheManifest(order[i]);
    assert TableHolds(c, order[i], Header(c, order, a).value, a, content[i]);
    var info := Field(Field(JObj(Header(c, order, a).value), "members"), MemberName(order[i].name));
    CountsIff(Field(info, "size"), |DataOf(a, MemberName(order[i].name))|);
    CountsIff(Field(info, "rows"), |content[i]|);
  }

  /** An authentic manifest fixes the rows: two accepted archives with the same one hold the same rows, as long as no
      two members have the same digest. */
  lemma ManifestFixesRows(c: Codec, lim: Limits, order: seq<Table>, a: Archive, b: Archive, x: seq<seq<Row>>,
                          y: seq<seq<Row>>)
    requires AcceptsAs(c, lim, order, a, x) && AcceptsAs(c, lim, order, b, y)
    requires DataOf(a, "manifest.json") == DataOf(b, "manifest.json")
    requires forall p, q :: c.digest(p) == c.digest(q) ==> p == q
    ensures x == y
  {
    forall i | 0 <= i < |order|
      ensures x[i] == y[i]
    {
      MemberFixed(c, lim, order, a, b, x, y, i);
    }
  }

  lemma MemberFixed(c: Codec, lim: Limits, order: seq<Table>, a: Archive, b: Archive, x: seq<seq<Row>>,
                    y: seq<seq<Row>>, i: nat)
    requires AcceptsAs(c, lim, order, a, x) && AcceptsAs(c, lim, order, b, y) && i < |order|
    requires DataOf(a, "manifest.json") == DataOf(b, "manifest.json")
    requires forall p, q :: c.digest(p) == c.digest(q) ==> p == q
    ensures x[i] == y[i]
  {
    AcceptedMember(c, lim, order, a, x, i);
    AcceptedMember(c, lim, order, b, y, i);
    assert Header(c, order, a) == Header(c, order, b);
  }

  /** What the limits ask of a member. */
  lemma EntryFitsIff(lim: Limits, e: Entry)
    ensures EntryFits(lim, e) <==>
      && e.plain && |e.data| <= lim.maxMember
      && (e.stored == 0 ==> |e.data| <= lim.maxRatio) && (e.stored > 0 ==> |e.data| <= e.stored * lim.maxRatio)
  {
  }

  /** What the limits ask of the archive as a whole. */
  lemma LimitsIff(lim: Limits, a: Archive)
    ensures LimitsFit(lim, a) <==>
      && a.length <= lim.maxUpload && |a.entries| <= lim.maxMembers && |DataOf(a, "manifest.json")| <= 65536
      && (forall e :: e in a.entries ==> EntryFits(lim, e))
      && Sum(Sizes(a.entries)) <= lim.maxExpanded
  {
    TotalIsSum(a.entries);
  }

  /** A name that a snapshot of these tables has. */
  ghost predicate Expected(order: seq<Table>, name: string) {
    name == "manifest.json" || exists t :: t in order && name == "data/" + t.name + ".jsonl"
  }

  ghost predicate Has(a: Archive, name: string) {
    exists e :: e in a.entries && e.name == name
  }

  /** The members are the manifest and one for every table, each once. */
  lemma NamesIff(order: seq<Table>, a: Archive)
    ensures NamesFit(order, a) <==>
      && (forall i, j :: 0 <= i < j < |a.entries| ==> a.entries[i].name != a.entries[j].name)
      && forall name :: Has(a, name) <==> Expected(order, name)
  {
    forall name
      ensures (name in Allowed(order) <==> Expected(order, name)) && (name in Names(a.entries) <==> Has(a, name))
    {
      AllowedMeans(order, name);
    }
    if forall name :: Has(a, name) <==> Expected(order, name) {
      assert Names(a.entries) == Allowed(order);
    }
  }

  /** What is accepted keeps to the limits, has the members it should have, and its rows are accepted. */
  lemma AcceptedKeeps(c: Codec, lim: Limits, order: seq<Table>, a: Archive, content: seq<seq<Row>>)
    requires AcceptsAs(c, lim, order, a, content)
    ensures a.length <= lim.maxUpload && |a.entries| <= lim.maxMembers && |DataOf(a, "manifest.json")| <= 65536
    ensures Sum(Sizes(a.entries)) <= lim.maxExpanded
    ensures forall e :: e in a.entries ==> e.plain && |e.data| <= lim.maxMember
    ensures forall name :: Has(a, name) <==> Expected(order, name)
    ensures |content| == |order| && ContentAccepted(c, order, content) && Header(c, order, a).Some?
  {
    LimitsIff(lim, a);
    NamesIff(order, a);
  }

  function Sizes(entries: seq<Entry>): seq<nat> {
    seq(|entries|, j requires 0 <= j < |entries| => |entries[j].data|)
  }

  function Sum(sizes: seq<nat>): nat {
    if sizes == [] then 0 else sizes[0] + Sum(sizes[1..])
  }

  lemma {:induction false} SumSnoc(sizes: seq<nat>, last: nat)
    ensures Sum(sizes + [last]) == Sum(sizes) + last
  {
    if sizes == [] {
      assert [] + [last] == [last];
    } else {
      assert (sizes + [last])[1..] == sizes[1..] + [last];
      SumSnoc(sizes[1..], last);
    }
  }

  lemma {:induction false} TotalIsSum(entries: seq<Entry>)
    ensures TotalSize(entries) == Sum(Sizes(entries))
  {
    if entries != [] {
      var n := |entries| - 1;
      TotalIsSum(entries[..n]);
      assert Sizes(entries) == Sizes(entries[..n]) + [|entries[n].data|];
      SumSnoc(Sizes(entries[..n]), |entries[n].data|);
    }
  }

  // ---------------------------------------------------------------- rows

  /** A cell the reader gives out fits its column: right type, no missing required value, no text beyond its length. */
  lemma DecodedFits(c: Codec, col: Column, j: Json, cell: Cell)
    requires DecodeCell(c, col, j) == Some(cell)
    ensures Typed(col, cell) && (cell.Null? ==> col.nullable)
    ensures cell.Text? && col.kind.KString? && col.kind.limit > 0 ==> |cell.text| <= col.kind.limit
    ensures cell.Int? ==> j == JInt(cell.number)
    ensures cell.Bool? ==> j == JBool(cell.flag)
    ensures cell.Text? ==> j == JStr(cell.text)
    ensures cell.Instant? ==> j.JStr? && c.fromIso(j.text) == Some(cell.at)
    ensures cell.Doc? ==> j == cell.json
  {
  }

  /** A row the reader gives out has exactly the columns of its table, each with a fitting cell. */
  lemma DecodedRowFits(c: Codec, t: Table, j: Json, row: Row)
    requires DecodeRow(c, t, j) == Some(row)
    ensures RowTyped(t, row) && forall k :: k in row ==> (row[k].Null? ==> t.columns[k].nullable)
  {
    forall k | k in row
      ensures Typed(t.columns[k], row[k]) && (row[k].Null? ==> t.columns[k].nullable)
    {
      DecodedFits(c, t.columns[k], j.fields[k], row[k]);
    }
  }

  /** A line is read only if it ends, keeps to twice the row limit, and holds a token that decrypts to a fitting row. */
  lemma LineIsToken(c: Codec, t: Table, line: Bytes, row: Row)
    requires ReadLine(c, t, line) == Some(row)
    ensures 0 < |line| <= 25165824 && line[|line| - 1] == 10
    ensures exists token, raw, j :: Trimmed(line, token) && c.unseal(token) == Some(raw) && c.parse(raw) == Some(j)
                                    && DecodeRow(c, t, j) == Some(row)
    ensures RowTyped(t, row)
  {
    StripTrims(line);
    var raw := c.unseal(Strip(line)).value;
    var j := c.parse(raw).value;
    DecodedRowFits(c, t, j, row);
    assert Trimmed(line, Strip(line)) && c.unseal(Strip(line)) == Some(raw) && c.parse(raw) == Some(j);
  }

  /** Every row that is read fits its table. */
  lemma {:induction false} ReadRowsFit(c: Codec, t: Table, data: Bytes, rows: seq<Row>, r: Row)
    requires ReadRows(c, t, data) == Some(rows) && r in rows
    ensures RowTyped(t, r) && forall k :: k in r ==> (r[k].Null? ==> t.columns[k].nullable)
    decreases |data|
  {
    var n := LineLength(data, MAX_ROW * 2 + 1);
    var first := ReadLine(c, t, data[..n]).value;
    var rest := ReadRows(c, t, data[n..]).value;
    assert rows == [first] + rest;
    if r == first {
      var raw := c.unseal(Strip(data[..n])).value;
      DecodedRowFits(c, t, c.parse(raw).value, first);
    } else {
      ReadRowsFit(c, t, data[n..], rest, r);
    }
  }

  lemma MemberId(c: Codec, t: Table, data: Bytes, rows: seq<Row>, r: Row)
    requires Keyed(t) && ReadRows(c, t, data) == Some(rows) && r in rows
    ensures RowTyped(t, r) && "id" in r && r["id"] == Text(RowId(r))
  {
    ReadRowsFit(c, t, data, rows, r);
  }

  /** In an accepted archive the id of a row is its column of that name. */
  lemma AcceptedId(c: Codec, lim: Limits, order: seq<Table>, a: Archive, content: seq<seq<Row>>, i: nat, r: Row)
    requires WellFormed(order) && AcceptsAs(c, lim, order, a, content) && i < |order| && r in content[i]
    ensures RowTyped(order[i], r) && "id" in r && r["id"] == Text(RowId(r))
  {
    assert Keyed(order[i]);
    assert TableHolds(c, order[i], Header(c, order, a).value, a, content[i]);
    MemberId(c, order[i], DataOf(a, MemberName(order[i].name)), content[i], r);
  }

  predicate White(b: Byte) {
    b in {9, 10, 11, 12, 13, 32}
  }

  /** The line without the white space around it. */
  ghost predicate Trimmed(line: Bytes, core: Bytes) {
    && (core != [] ==> !White(core[0]) && !White(core[|core| - 1]))
    && exists i, j :: 0 <= i <= j <= |line| && core == line[i..j]
                      && (forall k :: 0 <= k < i ==> White(line[k])) && (forall k :: j <= k < |line| ==> White(line[k]))
  }

  lemma TrimmedBy(line: Bytes, core: Bytes, i: nat, j: nat)
    requires i <= j <= |line| && core == line[i..j]
    requires (forall k :: 0 <= k < i ==> White(line[k])) && (forall k :: j <= k < |line| ==> White(line[k]))
    requires core != [] ==> !White(core[0]) && !White(core[|core| - 1])
    ensures Trimmed(line, core)
  {
  }

  lemma TrimFront(line: Bytes, core: Bytes)
    requires line != [] && White(line[0]) && Trimmed(line[1..], core)
    ensures Trimmed(line, core)
  {
    var rest := line[1..];
    var i: nat, j: nat :| i <= j <= |rest| && core == rest[i..j]
      && (forall k :: 0 <= k < i ==> White(rest[k])) && (forall k :: j <= k < |rest| ==> White(rest[k]));
    forall k | 0 <= k < i + 1
      ensures White(line[k])
    {
      assert k > 0 ==> line[k] == rest[k - 1];
    }
    forall k | j + 1 <= k < |line|
      ensures White(line[k])
    {
      assert line[k] == rest[k - 1];
    }
    TrimmedBy(line, core, i + 1, j + 1);
  }

  lemma TrimBack(line: Bytes, core: Bytes)
    requires line != [] && White(line[|line| - 1]) && Trimmed(line[..|line| - 1], core)
    ensures Trimmed(line, core)
  {
    var init := line[..|line| - 1];
    var i: nat, j: nat :| i <= j <= |init| && core == init[i..j]
      && (forall k :: 0 <= k < i ==> White(init[k])) && (forall k :: j <= k < |init| ==> White(init[k]));
    forall k | 0 <= k < i || j <= k < |line|
      ensures White(line[k])
    {
      assert k < |init| ==> line[k] == init[k];
    }
    TrimmedBy(line, core, i, j);
  }

  lemma {:induction false} StripTrims(line: Bytes)
    ensures Trimmed(line, Strip(line))
    decreases |line|
  {
    var core := Strip(line);
    if line == [] {
      TrimmedBy(line, core, 0, 0);
    } else if Blank(line[0]) {
      StripTrims(line[1..]);
      TrimFront(line, core);
    } else if Blank(line[|line| - 1]) {
      StripTrims(line[..|line| - 1]);
      TrimBack(line, core);
    } else {
      TrimmedBy(line, core, 0, |line|);
    }
  }

  lemma TrimBounds(line: Bytes, core: Bytes) returns (i: nat, j: nat)
    requires Trimmed(line, core)
    ensures i <= j <= |line| && core == line[i..j]
    ensures forall k :: 0 <= k < |line| && (k < i || j <= k) ==> White(line[k])
    ensures i < j ==> !White(line[i]) && !White(line[j - 1])
  {
    i, j :| i <= j <= |line| && core == line[i..j]
      && (forall k :: 0 <= k < i ==> White(line[k])) && (forall k :: j <= k < |line| ==> White(line[k]));
    if i < j {
      assert core[0] == line[i] && core[|core| - 1] == line[j - 1];
    }
  }

  /** There is only one way to trim a line. */
  lemma TrimmedOnce(line: Bytes, x: Bytes, y: Bytes)
    requires Trimmed(line, x) && Trimmed(line, y)
    ensures x == y
  {
    var i, j := TrimBounds(line, x);
    var u, v := TrimBounds(line, y);
    if i < j {
      assert u <= i && j <= v;
    }
    if u < v {
      assert i <= u && v <= j;
    }
  }

  /** And every such line is read: whatever is at most that long, ends, and trims to a token of a fitting row. */
  lemma TokenIsRead(c: Codec, t: Table, line: Bytes, token: Bytes)
    requires Trimmed(line, token) && 0 < |line| <= 25165824 && line[|line| - 1] == 10
    ensures ReadLine(c, t, line) ==
      match c.unseal(token)
      case None => None
      case Some(raw) =>
        match c.parse(raw)
        case None => None
        case Some(j) => DecodeRow(c, t, j)
  {
    StripTrims(line);
    TrimmedOnce(line, token, Strip(line));
  }

  // ---------------------------------------------------------------- what a restore leaves

  lemma LoadedRow(rows: seq<Row>, r: Row)
    requires DistinctIds(rows) && r in rows
    ensures RowId(r) in Load(rows) && Load(rows)[RowId(r)] == r
  {
    var k :| 0 <= k < |rows| && rows[k] == r;
    LoadAt(rows, k);
  }

  /** The rows that are inserted for a table: as they were, or as launch authorizations that are revoked now. */
  lemma StampedRow(t: Table, rows: seq<Row>, clock: nat -> int, r: Row)
    requires LaunchTable(t) && DistinctIds(rows) && r in rows
    ensures var held := Load(Stamped(t, rows, clock));
      && RowId(r) in held
      && if t.name == "launch_authorizations" then exists k: nat :: RevokedAt(r, held[RowId(r)], clock(k))
         else held[RowId(r)] == r
  {
    StampedLoad(t, rows, clock);
    LoadedRow(rows, r);
  }

  /** Every row of an accepted archive is in the database after a restore, as it was or as a revoked authorization;
      and no other row is. */
  lemma RestoredRow(order: seq<Table>, excluded: seq<Table>, content: seq<seq<Row>>, clock: nat -> int, db: Db, i: nat,
                    r: Row)
    requires WellFormed(order) && Sound(order, content) && i < |order| && r in content[i]
    requires IsRestored(order, excluded, StampedAll(order, content, clock), db)
    ensures var t := order[i];
      && t.name in db && RowId(r) in db[t.name]
      && if t.name == "launch_authorizations" then exists k: nat :: RevokedAt(r, db[t.name][RowId(r)], clock(k))
         else db[t.name][RowId(r)] == r
  {
    StampedSound(order, content, clock);
    assert DistinctIds(content[i]);
    StampedRow(order[i], content[i], clock, r);
    assert db[order[i].name] == Load(StampedAll(order, content, clock)[i]);
  }

  lemma NothingElse(order: seq<Table>, excluded: seq<Table>, content: seq<seq<Row>>, clock: nat -> int, db: Db, i: nat,
                    id: string)
    requires WellFormed(order) && Sound(order, content) && i < |order|
    requires IsRestored(order, excluded, StampedAll(order, content, clock), db)
    ensures order[i].name in db && (id in db[order[i].name] ==> exists r :: r in content[i] && RowId(r) == id)
  {
    StampedSound(order, content, clock);
    StampedRows(order[i], content[i], clock);
    LoadKeys(Stamped(order[i], content[i], clock));
    assert db[order[i].name] == Load(StampedAll(order, content, clock)[i]);
  }
}
