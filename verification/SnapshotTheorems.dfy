/** When preflight accepts what the writer wrote. */
module SnapshotTheorems {
  import opened Common
  import opened SnapshotRows
  import opened SnapshotArchive

  /** Rows as the database holds them: typed by their table and with distinct primary keys. */
  ghost predicate ContentTyped(order: seq<Table>, content: seq<seq<Row>>) {
    && |content| == |order|
    && (forall i :: 0 <= i < |order| ==> DistinctIds(content[i]))
    && (forall i, r :: 0 <= i < |order| && r in content[i] ==> RowTyped(order[i], r))
  }

  ghost predicate TableReadable(t: Table, rows: seq<Row>)
    requires forall r :: r in rows ==> RowTyped(t, r)
  {
    forall r :: r in rows ==> RowReadable(t, r)
  }

  ghost predicate ContentReadable(order: seq<Table>, content: seq<seq<Row>>)
    requires ContentTyped(order, content)
  {
    forall i :: 0 <= i < |order| ==> TableReadable(order[i], content[i])
  }

  /** The free part of the manifest: plain JSON that does not name the signature. */
  ghost predicate ExtraOk(extra: map<string, Json>) {
    "authentication" !in extra && forall k :: k in extra ==> Finite(extra[k])
  }

  ghost predicate DistinctNames(entries: seq<Entry>) {
    forall i, j :: 0 <= i < j < |entries| ==> entries[i].name != entries[j].name
  }

  lemma {:induction false} FindAt(entries: seq<Entry>, k: nat)
    requires k < |entries| && DistinctNames(entries)
    ensures Find(entries, entries[k].name) == Some(entries[k].data)
  {
    if k > 0 {
      assert entries[1..][k - 1] == entries[k];
      FindAt(entries[1..], k - 1);
    }
  }

  lemma WithLast(members: seq<Entry>, last: Entry)
    requires DistinctNames(members) && last.name !in Names(members)
    ensures DistinctNames(members + [last])
    ensures Names(members + [last]) == Names(members) + {last.name}
    ensures Find(members + [last], last.name) == Some(last.data)
    ensures forall k :: 0 <= k < |members| ==> Find(members + [last], members[k].name) == Some(members[k].data)
  {
    var es := members + [last];
    forall i, j | 0 <= i < j < |es|
      ensures es[i].name != es[j].name
    {
      assert es[i] in members;
    }
    assert Names(es) == Names(members) + {last.name};
    assert es[|members|] == last;
    FindAt(es, |members|);
    forall k | 0 <= k < |members|
      ensures Find(es, members[k].name) == Some(members[k].data)
    {
      assert es[k] == members[k];
      FindAt(es, k);
    }
  }

  lemma MembersDistinct(c: Codec, order: seq<Table>, content: seq<seq<Row>>, salts: seq<int>)
    requires DistinctTables(order) && |order| == |content| == |salts|
    ensures DistinctNames(DataMembers(c, order, content, salts))
  {
    var members := DataMembers(c, order, content, salts);
    forall i, j | 0 <= i < j < |members|
      ensures members[i].name != members[j].name
    {
      MemberNameInjective(order[i].name, order[j].name);
    }
  }

  lemma MembersCover(c: Codec, order: seq<Table>, content: seq<seq<Row>>, salts: seq<int>)
    requires |order| == |content| == |salts|
    ensures var members := DataMembers(c, order, content, salts);
            Names(members) == (set t | t in order :: MemberName(t.name)) && MANIFEST !in Names(members)
  {
    var members := DataMembers(c, order, content, salts);
    forall e | e in members
      ensures e.name != MANIFEST && exists t :: t in order && e.name == MemberName(t.name)
    {
      var i :| 0 <= i < |members| && members[i] == e;
      MemberNameInjective(order[i].name, "");
      assert order[i] in order;
    }
    forall t | t in order
      ensures MemberName(t.name) in Names(members)
    {
      var i :| 0 <= i < |order| && order[i] == t;
      assert members[i] in members;
    }
  }

  lemma MemberNames(c: Codec, order: seq<Table>, content: seq<seq<Row>>, salts: seq<int>)
    requires DistinctTables(order) && |order| == |content| == |salts|
    ensures var members := DataMembers(c, order, content, salts);
      DistinctNames(members) && Names(members) == Allowed(order) - {MANIFEST} && MANIFEST !in Names(members)
  {
    MembersDistinct(c, order, content, salts);
    MembersCover(c, order, content, salts);
  }

  /** What the archive of a build offers to preflight: the right names, and the written bytes under each of them. */
  lemma BuiltMembers(c: Codec, order: seq<Table>, content: seq<seq<Row>>, salts: seq<int>, extra: map<string, Json>)
    requires WellFormed(order) && |order| == |content| == |salts|
    ensures var a := Built(c, order, content, salts, extra);
      && NamesFit(order, a)
      && (forall i :: 0 <= i < |order| ==> DataOf(a, MemberName(order[i].name)) == Frame(c, salts[i], content[i]))
      && DataOf(a, MANIFEST) == ManifestEntry(c, extra, DataMembers(c, order, content, salts), content).data
  {
    var a := Built(c, order, content, salts, extra);
    var members := DataMembers(c, order, content, salts);
    MemberNames(c, order, content, salts);
    WithLast(members, ManifestEntry(c, extra, members, content));
    forall i | 0 <= i < |order|
      ensures DataOf(a, MemberName(order[i].name)) == Frame(c, salts[i], content[i])
    {
      assert members[i] == Stored(MemberName(order[i].name), Frame(c, salts[i], content[i]));
    }
  }

  lemma InfoFinite(c: Codec, data: Bytes, rows: nat)
    ensures Finite(Info(c, data, rows)) && InfoMatches(c, Info(c, data, rows), data, rows)
  {
  }

  ghost predicate AllFinite(m: map<string, Json>) {
    forall k :: k in m ==> Finite(m[k])
  }

  lemma {:induction false} TabulateKeys(members: seq<Entry>, values: seq<Json>)
    requires |members| == |values|
    ensures Tabulate(members, values).Keys == Names(members)
    ensures (forall v :: v in values ==> Finite(v)) ==> AllFinite(Tabulate(members, values))
    decreases |members|
  {
    if members != [] {
      var n := |members| - 1;
      TabulateKeys(members[..n], values[..n]);
      assert members == members[..n] + [members[n]];
      assert Names(members) == Names(members[..n]) + {members[n].name};
      assert values[n] in values && forall v :: v in values[..n] ==> v in values;
    }
  }

  lemma {:induction false} TabulateAt(members: seq<Entry>, values: seq<Json>, k: nat)
    requires |members| == |values| && DistinctNames(members) && k < |members|
    ensures members[k].name in Tabulate(members, values) && Tabulate(members, values)[members[k].name] == values[k]
    decreases |members|
  {
    var n := |members| - 1;
    if k < n {
      TabulateAt(members[..n], values[..n], k);
    }
  }

  lemma InfosAt(c: Codec, members: seq<Entry>, content: seq<seq<Row>>)
    requires |members| == |content| && DistinctNames(members)
    ensures Infos(c, members, content).Keys == Names(members) && AllFinite(Infos(c, members, content))
    ensures forall k :: 0 <= k < |members| ==>
      (members[k].name in Infos(c, members, content)
        && Infos(c, members, content)[members[k].name] == Info(c, members[k].data, |content[k]|))
  {
    var values := seq(|members|, i requires 0 <= i < |members| => Info(c, members[i].data, |content[i]|));
    forall v | v in values
      ensures Finite(v)
    {
      var i :| 0 <= i < |values| && values[i] == v;
      InfoFinite(c, members[i].data, |content[i]|);
    }
    TabulateKeys(members, values);
    forall k | 0 <= k < |members|
      ensures Tabulate(members, values)[members[k].name] == values[k]
    {
      TabulateAt(members, values, k);
    }
  }

  lemma SignedFinite(c: Codec, extra: map<string, Json>, infos: map<string, Json>)
    requires ExtraOk(extra) && AllFinite(infos)
    ensures Finite(JObj(Signed(c, Unsigned(extra, infos))))
    ensures Signed(c, Unsigned(extra, infos)) - {"authentication"} == Unsigned(extra, infos)
  {
    var m := Signed(c, Unsigned(extra, infos));
    assert Finite(JObj(infos));
    forall k | k in m
      ensures Finite(m[k])
    {
    }
  }

  lemma SignedFields(c: Codec, extra: map<string, Json>, infos: map<string, Json>)
    ensures var m := Signed(c, Unsigned(extra, infos));
      && Get(m, "schema") == JStr(SCHEMA) && Get(m, "mode") == JStr(MODE) && Get(m, "service") == JStr(SERVICE)
      && Get(m, "database_revision") == JStr(REVISION) && Get(m, "encryption") == JStr(ENCRYPTION)
      && Get(m, "members") == JObj(infos)
  {
  }

  lemma BuiltHeaderOk(c: Codec, order: seq<Table>, content: seq<seq<Row>>, salts: seq<int>, extra: map<string, Json>)
    requires WellFormed(order) && |order| == |content| == |salts| && ExtraOk(extra)
    ensures var m := Signed(c, Unsigned(extra, Infos(c, DataMembers(c, order, content, salts), content)));
            Finite(JObj(m)) && HeaderOk(c, order, m)
  {
    var members := DataMembers(c, order, content, salts);
    var infos := Infos(c, members, content);
    MemberNames(c, order, content, salts);
    InfosAt(c, members, content);
    SignedFinite(c, extra, infos);
    SignedFields(c, extra, infos);
  }

  /** The manifest the writer prints comes back from the parser and passes every manifest check. */
  lemma BuiltHeader(c: Codec, order: seq<Table>, content: seq<seq<Row>>, salts: seq<int>, extra: map<string, Json>)
    requires JsonLaws(c) && WellFormed(order) && |order| == |content| == |salts| && ExtraOk(extra)
    ensures var a := Built(c, order, content, salts, extra);
            Header(c, order, a) ==
              Some(Signed(c, Unsigned(extra, Infos(c, DataMembers(c, order, content, salts), content))))
  {
    var m := Signed(c, Unsigned(extra, Infos(c, DataMembers(c, order, content, salts), content)));
    BuiltHeaderOk(c, order, content, salts, extra);
    BuiltMembers(c, order, content, salts, extra);
    assert c.parse(c.render(JObj(m))) == Some(JObj(m));
  }

  /** A written data member passes the checks of preflight exactly when its rows are readable. */
  lemma BuiltInfo(c: Codec, order: seq<Table>, content: seq<seq<Row>>, salts: seq<int>, extra: map<string, Json>,
                  i: nat)
    requires JsonLaws(c) && WellFormed(order) && |order| == |content| == |salts| && ExtraOk(extra) && i < |order|
    ensures var a := Built(c, order, content, salts, extra); var name := MemberName(order[i].name);
      var m := Header(c, order, a);
      && m.Some? && Get(m.value, "members").JObj? && name in m.value["members"].fields
      && InfoMatches(c, m.value["members"].fields[name], Frame(c, salts[i], content[i]), |content[i]|)
  {
    var members := DataMembers(c, order, content, salts);
    BuiltHeader(c, order, content, salts, extra);
    MemberNames(c, order, content, salts);
    InfosAt(c, members, content);
    SignedFields(c, extra, Infos(c, members, content));
    assert members[i] == Stored(MemberName(order[i].name), Frame(c, salts[i], content[i]));
    InfoFinite(c, members[i].data, |content[i]|);
  }

  lemma BuiltTable(c: Codec, order: seq<Table>, content: seq<seq<Row>>, salts: seq<int>, extra: map<string, Json>,
                   i: nat)
    requires Lawful(c) && WellFormed(order) && ContentTyped(order, content) && |salts| == |order| && ExtraOk(extra)
    requires i < |order| && forall r :: r in content[i] ==> WithinRowLimit(c, r)
    ensures var a := Built(c, order, content, salts, extra);
      && Header(c, order, a).Some?
      && (ReadRows(c, order[i], DataOf(a, MemberName(order[i].name))).Some? <==> TableReadable(order[i], content[i]))
      && (TableReadable(order[i], content[i]) ==> TableHolds(c, order[i], Header(c, order, a).value, a, content[i]))
  {
    BuiltInfo(c, order, content, salts, extra, i);
    BuiltMembers(c, order, content, salts, extra);
    FrameRoundTrip(c, order[i], salts[i], content[i]);
  }

  /**
    Preflight accepts an archive the writer produced exactly when the archive keeps to the upload limits, every row is
    readable, the operator's verifier is valid and no reference dangles. Names, digests, sizes, counts, identities,
    framing and the manifest's signature never stand in the way.
   */
  lemma WrittenIsAcceptedIff(c: Codec, lim: Limits, order: seq<Table>, content: seq<seq<Row>>, salts: seq<int>,
                             extra: map<string, Json>)
    requires Lawful(c) && WellFormed(order) && ContentTyped(order, content) && |salts| == |order| && ExtraOk(extra)
    requires BuildSucceeds(c, lim, order, content, salts)
    ensures var a := Built(c, order, content, salts, extra);
      && (Accepts(c, lim, order, a) <==>
            LimitsFit(lim, a) && ContentReadable(order, content) && ContentAccepted(c, order, content))
      && (forall other :: AcceptsAs(c, lim, order, a, other) ==> other == content)
  {
    var a := Built(c, order, content, salts, extra);
    BuiltHeader(c, order, content, salts, extra);
    var m := Header(c, order, a).value;
    forall i | 0 <= i < |order|
      ensures ReadRows(c, order[i], DataOf(a, MemberName(order[i].name))).Some? <==> TableReadable(order[i], content[i])
      ensures TableReadable(order[i], content[i]) ==> TableHolds(c, order[i], m, a, content[i])
    {
      assert TableBudget(c, lim, order, content, salts, i);
      BuiltTable(c, order, content, salts, extra, i);
    }
    BuiltMembers(c, order, content, salts, extra);
    AcceptedIsContent(c, lim, order, content, a);
  }

  /** One NaN or infinity anywhere in a JSON column, and the archive the writer made cannot be restored. */
  lemma NonFiniteRefused(c: Codec, lim: Limits, order: seq<Table>, content: seq<seq<Row>>, salts: seq<int>,
                         extra: map<string, Json>, i: nat, row: Row, k: string)
    requires Lawful(c) && WellFormed(order) && ContentTyped(order, content) && |salts| == |order| && ExtraOk(extra)
    requires BuildSucceeds(c, lim, order, content, salts)
    requires i < |order| && row in content[i] && k in row && row[k].Doc? && !Finite(row[k].json)
    ensures !Accepts(c, lim, order, Built(c, order, content, salts, extra))
  {
    WrittenIsAcceptedIff(c, lim, order, content, salts, extra);
    assert RowTyped(order[i], row) && !Readable(order[i].columns[k], row[k]);
    assert !RowReadable(order[i], row) && !TableReadable(order[i], content[i]);
  }

  lemma AcceptedIsContent(c: Codec, lim: Limits, order: seq<Table>, content: seq<seq<Row>>, a: Archive)
    requires ContentTyped(order, content) && Header(c, order, a).Some? && NamesFit(order, a)
    requires forall i :: 0 <= i < |order| ==>
      (ReadRows(c, order[i], DataOf(a, MemberName(order[i].name))).Some? <==> TableReadable(order[i], content[i]))
    requires forall i :: 0 <= i < |order| ==>
      TableReadable(order[i], content[i]) ==> TableHolds(c, order[i], Header(c, order, a).value, a, content[i])
    ensures Accepts(c, lim, order, a) <==>
      LimitsFit(lim, a) && ContentReadable(order, content) && ContentAccepted(c, order, content)
    ensures forall other :: AcceptsAs(c, lim, order, a, other) ==> other == content
  {
    var m := Header(c, order, a).value;
    forall other | AcceptsAs(c, lim, order, a, other)
      ensures ContentReadable(order, content) && other == content
    {
      ContentFixed(c, order, content, m, a, other);
    }
    if ContentReadable(order, content) {
      assert TablesHold(c, order, m, a, content);
    }
    assert AcceptsAs(c, lim, order, a, content) <==>
      LimitsFit(lim, a) && TablesHold(c, order, m, a, content) && ContentAccepted(c, order, content);
  }

  lemma ContentFixed(c: Codec, order: seq<Table>, content: seq<seq<Row>>, m: map<string, Json>, a: Archive,
                     other: seq<seq<Row>>)
    requires ContentTyped(order, content) && |other| == |order| && TablesHold(c, order, m, a, other)
    requires forall i :: 0 <= i < |order| ==>
      (ReadRows(c, order[i], DataOf(a, MemberName(order[i].name))).Some? <==> TableReadable(order[i], content[i]))
    requires forall i :: 0 <= i < |order| ==>
      TableReadable(order[i], content[i]) ==> TableHolds(c, order[i], m, a, content[i])
    ensures ContentReadable(order, content) && other == content
  {
    forall i | 0 <= i < |order|
      ensures TableReadable(order[i], content[i]) && other[i] == content[i]
    {
      assert TableHolds(c, order[i], m, a, other[i]);
    }
  }

  // ---------------------------------------------------------------- the size budget

  /** Everything in the file that is not member data. */
  function Overhead(entries: seq<Entry>): nat {
    if entries == [] then 22 else Overhead(entries[..|entries| - 1]) + 76 + 2 * |entries[|entries| - 1].name|
  }

  lemma {:induction false} LengthSplits(entries: seq<Entry>)
    ensures Packed(entries).length == TotalSize(entries) + Overhead(entries)
    ensures TotalSize(entries) <= Tell(entries)
  {
    if entries != [] {
      LengthSplits(entries[..|entries| - 1]);
    }
  }

  /** The member data of a successful build stays a whole reserve below the upload limit. */
  lemma {:induction false} DataBudget(c: Codec, lim: Limits, order: seq<Table>, content: seq<seq<Row>>,
                                      salts: seq<int>, n: nat)
    requires |order| == |content| == |salts| && n <= |order| && BuildSucceeds(c, lim, order, content, salts)
    ensures var size := TotalSize(DataMembers(c, order, content, salts)[..n]);
            size == 0 || size <= lim.maxUpload - RESERVE
  {
    if n > 0 {
      var members := DataMembers(c, order, content, salts);
      assert members[..n][..n - 1] == members[..n - 1];
      DataBudget(c, lim, order, content, salts, n - 1);
      assert TableBudget(c, lim, order, content, salts, n - 1);
      LengthSplits(members[..n]);
    }
  }

  /** Limits that leave room for the reserve, and headers and a manifest that fit into it. */
  ghost predicate WithinReserve(c: Codec, lim: Limits, order: seq<Table>, content: seq<seq<Row>>, salts: seq<int>,
                                extra: map<string, Json>)
    requires |order| == |content| == |salts|
  {
    var a := Built(c, order, content, salts, extra);
    && RESERVE <= lim.maxUpload <= lim.maxExpanded && RESERVE <= lim.maxMember && 1 <= lim.maxRatio
    && |order| < lim.maxMembers
    && Overhead(a.entries) + |DataOf(a, MANIFEST)| <= RESERVE
  }

  lemma EntriesFit(c: Codec, lim: Limits, order: seq<Table>, content: seq<seq<Row>>, salts: seq<int>,
                   extra: map<string, Json>)
    requires WellFormed(order) && |order| == |content| == |salts| && BuildSucceeds(c, lim, order, content, salts)
    requires WithinReserve(c, lim, order, content, salts, extra)
    ensures forall e :: e in Built(c, order, content, salts, extra).entries ==> EntryFits(lim, e)
  {
    var a := Built(c, order, content, salts, extra);
    BuiltMembers(c, order, content, salts, extra);
    forall e | e in a.entries
      ensures EntryFits(lim, e)
    {
      var i :| 0 <= i < |a.entries| && a.entries[i] == e;
      assert i < |order| ==> TableBudget(c, lim, order, content, salts, i);
      RatioOfStored(|e.data|, lim.maxRatio);
    }
  }

  /**
    The reserve: if the ZIP overhead and the manifest together fit into it, a successful build always keeps to the
    limits that preflight enforces, whatever the data.
   */
  lemma ReserveSuffices(c: Codec, lim: Limits, order: seq<Table>, content: seq<seq<Row>>, salts: seq<int>,
                        extra: map<string, Json>)
    requires WellFormed(order) && |order| == |content| == |salts| && BuildSucceeds(c, lim, order, content, salts)
    requires WithinReserve(c, lim, order, content, salts, extra)
    ensures LimitsFit(lim, Built(c, order, content, salts, extra))
  {
    var a := Built(c, order, content, salts, extra);
    var members := DataMembers(c, order, content, salts);
    var n := |order|;
    BuiltMembers(c, order, content, salts, extra);
    assert a.entries[..n] == members == members[..n];
    LengthSplits(a.entries);
    DataBudget(c, lim, order, content, salts, n);
    EntriesFit(c, lim, order, content, salts, extra);
  }

  lemma RatioOfStored(size: nat, ratio: nat)
    requires 1 <= ratio
    ensures size <= (if size > 1 then size else 1) * ratio
  {
  }

  /** With such limits, what the writer writes is accepted exactly when its rows are readable and its relations
      sound. */
  lemma WriteThenAccept(c: Codec, lim: Limits, order: seq<Table>, content: seq<seq<Row>>, salts: seq<int>,
                        extra: map<string, Json>)
    requires Lawful(c) && WellFormed(order) && ContentTyped(order, content) && |salts| == |order| && ExtraOk(extra)
    requires BuildSucceeds(c, lim, order, content, salts)
    requires WithinReserve(c, lim, order, content, salts, extra)
    ensures Accepts(c, lim, order, Built(c, order, content, salts, extra)) <==>
            ContentReadable(order, content) && ContentAccepted(c, order, content)
  {
    ReserveSuffices(c, lim, order, content, salts, extra);
    WrittenIsAcceptedIff(c, lim, order, content, salts, extra);
  }
}
