/** The tables of the service, in one of the orders in which parents come before children. */
module SnapshotSchema {
  import opened Common
  import opened SnapshotRows
  import opened SnapshotArchive
  import opened SnapshotRestore

  datatype Field = Required(name: string, kind: Kind) | Optional(name: string, kind: Kind)

  /** Columns without foreign keys. */
  function Plain(fields: seq<Field>): (columns: map<string, Column>)
    ensures forall k :: k in columns ==> columns[k].parent.None?
  {
    if fields == [] then map[]
    else Plain(fields[1..])[fields[0].name := Column(fields[0].kind, fields[0].Optional?, None)]
  }

  /** The parents a table may point to. */
  ghost predicate PointsTo(columns: map<string, Column>, parents: set<string>) {
    forall k :: k in columns && columns[k].parent.Some? ==> columns[k].parent.value in parents
  }

  function Key(columns: map<string, Column>, limit: nat): (keyed: map<string, Column>)
    requires PointsTo(columns, {})
    ensures PointsTo(keyed, {}) && "id" in keyed && keyed["id"] == Column(KString(limit), false, None)
    ensures forall k :: k in columns && k != "id" ==> k in keyed && keyed[k] == columns[k]
  {
    columns["id" := Column(KString(limit), false, None)]
  }

  /** Adds a foreign key; its type is that of the column it points to. */
  function Link(columns: map<string, Column>, name: string, limit: nat, nullable: bool,
                parent: string): (linked: map<string, Column>)
    requires name != "id"
    ensures forall parents :: PointsTo(columns, parents) ==> PointsTo(linked, parents + {parent})
    ensures forall k :: k in columns && k != name ==> k in linked && linked[k] == columns[k]
  {
    columns[name := Column(KString(limit), nullable, Some(parent))]
  }

  /** 64 bits in SQLite, the default database. */
  const INTEGER := KInt(0x8000_0000_0000_0000)

  const STAMPS: seq<Field> := [Required("created_at", KTime), Required("updated_at", KTime)]

  const POLICIES := Table("access_policies", Key(Plain([
    Required("scope_type", KString(64)), Required("scope_id", KString(32)), Required("rules", KJson),
    Required("status", KString(32))] + STAMPS), 32), [])

  const EVENTS := Table("audit_events", Key(Plain([
    Required("actor_type", KString(64)), Required("actor_id", KString(128)), Required("action", KString(128)),
    Required("target_type", KString(64)), Required("target_id", KString(128)), Required("payload", KJson),
    Required("result", KJson), Required("created_at", KTime)]), 32), [])

  const OBJECTS := Table("objects", Key(Plain([
    Required("entity_id", KString(16)), Required("name", KString(255)), Required("kind", KString(32)),
    Required("description", KText), Required("tags", KJson), Required("image_data", KText),
    Required("image_media_type", KString(64))] + STAMPS), 64), [["entity_id"]])

  const DENYLIST := Table("pod_denylist", Key(Plain([
    Optional("pod_id", KString(64)), Optional("subject_id", KString(64)), Required("identifier_type", KString(64)),
    Required("identifier_value", KString(512)), Required("reason", KString(255))] + STAMPS), 32),
    [["identifier_type", "identifier_value"]])

  const SYSTEM_SETTINGS := Table(SETTINGS, Key(Plain([Required("scope", KString(64))] + STAMPS)
    ["key" := Column(KString(128), false, None)]["value" := Column(KJson, false, None)], 32), [["key"]])

  const SUBJECTS := Table("subjects", Link(Link(Key(Plain([
    Required("entity_id", KString(16)), Required("name", KString(255)), Required("kind", KString(32)),
    Required("description", KText), Required("tags", KJson), Required("image_data", KText),
    Required("image_media_type", KString(64)), Required("runtime_type", KString(32)), Optional("pod_id", KString(32)),
    Optional("primary_route", KString(255)), Required("vless_uri_encrypted", KText),
    Required("network_profile_version", INTEGER), Required("system_tabs", KJson),
    Required("system_tabs_profile_version", INTEGER), Required("update_channel", KString(32)),
    Required("ui_policy", KJson), Required("security_policy", KJson)] + STAMPS), 64),
    "object_id", 64, true, "objects"), "access_policy_id", 32, true, "access_policies"), [["entity_id"]])

  const RECORDS := Table("pod_provisioning_records", Link(Key(Plain([
    Required("name", KString(255)), Required("login", KString(255)), Required("password_hash", KText),
    Required("decoy_password_hash", KText), Required("status", KString(32)),
    Required("enrollment_token_hash", KString(255)),
    Required("enrollment_token_encrypted", KText), Required("bundle_version", KString(64)),
    Required("artifact_sha256", KString(64)), Required("download_count", INTEGER), Optional("downloaded_at", KTime),
    Optional("expires_at", KTime), Optional("activated_at", KTime), Optional("revoked_at", KTime),
    Required("metadata_json", KJson)] + STAMPS), 32),
    "subject_id", 64, false, "subjects"), [["enrollment_token_hash"]])

  const PODS := Table("pods", Link(Link(Key(Plain([
    Required("name", KString(255)), Required("login", KString(255)), Required("password_hash", KText),
    Required("decoy_password_hash", KText), Required("status", KString(32)), Required("host_id", KString(128)),
    Required("path", KString(1024)), Required("launcher_path", KString(1024)), Required("runtime_state", KJson),
    Required("is_portable", KBool), Optional("last_materialized_at", KTime), Required("public_key_pem", KText),
    Required("identity_certificate", KText), Required("certificate_fingerprint", KString(255)),
    Required("device_binding_fingerprint", KString(255)), Required("device_binding_status", KString(32)),
    Required("pod_version", KString(64)), Required("xray_version", KString(64)),
    Required("network_profile_version", INTEGER),
    Required("system_tabs_profile_version", INTEGER), Required("heartbeat_sequence", INTEGER),
    Optional("last_seen_at", KTime),
    Optional("last_heartbeat_at", KTime), Optional("activated_at", KTime), Optional("revoked_at", KTime),
    Required("revoke_reason", KText)] + STAMPS), 32),
    "subject_id", 64, false, "subjects"), "provisioning_id", 32, true, "pod_provisioning_records"), [])

  const AUTHORIZATIONS := Table(LAUNCHES, Link(Link(Key(Plain([
    Required("reason", KText), Optional("issued_at", KTime), Optional("expires_at", KTime)] + STAMPS)
    ["decision" := Column(KString(32), false, None)]["revoked_at" := Column(KTime, true, None)], 32),
    "subject_id", 64, false, "subjects"), "pod_id", 32, false, "pods"), [])

  const LEASES := Table("session_leases", Link(Link(Key(Plain([
    Required("status", KString(32)), Required("session_key_hash", KString(255)), Required("access_scope", KString(64)),
    Optional("transport", KString(32)), Required("started_at", KTime), Optional("expires_at", KTime),
    Optional("ended_at", KTime)] + STAMPS), 32),
    "subject_id", 64, true, "subjects"), "pod_id", 32, true, "pods"), [])

  const BACKUPS := Table("backup_manifests", Key(Plain([
    Required("backup_id", KString(128)), Required("entity_type", KString(64)), Required("entity_id", KString(128)),
    Required("payload", KJson)] + STAMPS), 32), [])

  const ORDER := [POLICIES, EVENTS, OBJECTS, DENYLIST, SYSTEM_SETTINGS, SUBJECTS, RECORDS, PODS, AUTHORIZATIONS]
  const EXCLUDED := [LEASES, BACKUPS]

  function NameAt(i: nat): string
    requires i < 11
  {
    if i == 0 then "access_policies" else if i == 1 then "audit_events" else if i == 2 then "objects"
    else if i == 3 then "pod_denylist" else if i == 4 then SETTINGS else if i == 5 then "subjects"
    else if i == 6 then "pod_provisioning_records" else if i == 7 then "pods" else if i == 8 then LAUNCHES
    else if i == 9 then "session_leases" else "backup_manifests"
  }

  lemma NamesDiffer(i: nat, j: nat)
    requires i < j < 11
    ensures NameAt(i) != NameAt(j)
  {
    var lengths := [15, 12, 7, 12, 15, 8, 24, 4, 21, 14, 16];
    assert |NameAt(i)| == lengths[i] && |NameAt(j)| == lengths[j];
    assert i == 0 && j == 4 ==> NameAt(i)[0] == 'a' && NameAt(j)[0] == 's';
    assert i == 1 && j == 3 ==> NameAt(i)[0] == 'a' && NameAt(j)[0] == 'p';
  }

  /** Table i: its name, its key, and foreign keys to earlier exported tables only. */
  ghost predicate Shaped(t: Table, i: nat)
    requires i < 11
  {
    && t.name == NameAt(i) && Keyed(t)
    && forall k :: k in t.columns && t.columns[k].parent.Some? ==>
         exists j :: 0 <= j < i && j < 9 && t.columns[k].parent.value == NameAt(j)
  }

  lemma PointsToEarlier(t: Table, i: nat, parents: set<string>, indices: set<nat>)
    requires i < 11 && PointsTo(t.columns, parents) && t.name == NameAt(i) && Keyed(t)
    requires forall j :: j in indices ==> j < i && j < 9
    requires forall p :: p in parents ==> exists j :: j in indices && p == NameAt(j)
    ensures Shaped(t, i)
  {
    forall k | k in t.columns && t.columns[k].parent.Some?
      ensures exists j :: 0 <= j < i && j < 9 && t.columns[k].parent.value == NameAt(j)
    {
      assert t.columns[k].parent.value in parents;
      var j :| j in indices && t.columns[k].parent.value == NameAt(j);
    }
  }

  lemma Roots()
    ensures Shaped(POLICIES, 0) && Shaped(EVENTS, 1) && Shaped(OBJECTS, 2) && Shaped(DENYLIST, 3) && Shaped(BACKUPS, 10)
  {
  }

  lemma SettingsShape()
    ensures Shaped(SYSTEM_SETTINGS, 4) && "key" in SYSTEM_SETTINGS.columns && "value" in SYSTEM_SETTINGS.columns
  {
  }

  lemma SubjectsShape()
    ensures Shaped(SUBJECTS, 5)
  {
    PointsToEarlier(SUBJECTS, 5, {"objects"} + {"access_policies"}, {0, 2});
  }

  lemma RecordsShape()
    ensures Shaped(RECORDS, 6)
  {
    PointsToEarlier(RECORDS, 6, {} + {"subjects"}, {5});
  }

  lemma PodsShape()
    ensures Shaped(PODS, 7)
  {
    PointsToEarlier(PODS, 7, {"subjects"} + {"pod_provisioning_records"}, {5, 6});
  }

  lemma LeasesShape()
    ensures Shaped(LEASES, 9)
  {
    PointsToEarlier(LEASES, 9, {"subjects"} + {"pods"}, {5, 7});
  }

  ghost predicate LaunchColumns(t: Table) {
    && t.uniques == []
    && "decision" in t.columns && t.columns["decision"] == Column(KString(32), false, None)
    && "revoked_at" in t.columns && t.columns["revoked_at"] == Column(KTime, true, None)
  }

  lemma AuthorizationsShape()
    ensures Shaped(AUTHORIZATIONS, 8) && LaunchColumns(AUTHORIZATIONS)
  {
    PointsToEarlier(AUTHORIZATIONS, 8, {"subjects"} + {"pods"}, {5, 7});
  }

  lemma ShapedDistinct(order: seq<Table>)
    requires |order| == 9 && forall i :: 0 <= i < 9 ==> Shaped(order[i], i)
    ensures DistinctTables(order)
  {
    forall i, j | 0 <= i < j < 9
      ensures order[i].name != order[j].name
    {
      assert Shaped(order[i], i) && Shaped(order[j], j);
      NamesDiffer(i, j);
    }
  }

  lemma ShapedParents(order: seq<Table>, i: nat, k: string)
    requires |order| == 9 && forall i :: 0 <= i < 9 ==> Shaped(order[i], i)
    requires i < 9 && k in order[i].columns && order[i].columns[k].parent.Some?
    ensures exists j :: 0 <= j < i && order[j].name == order[i].columns[k].parent.value
  {
    assert Shaped(order[i], i);
    var j :| 0 <= j < i && order[i].columns[k].parent.value == NameAt(j);
    assert Shaped(order[j], j);
  }

  lemma ShapedNames(order: seq<Table>, i: nat)
    requires |order| == 9 && forall i :: 0 <= i < 9 ==> Shaped(order[i], i)
    requires i < 9
    ensures Keyed(order[i]) && (order[i].name == SETTINGS ==> i == 4) && (order[i].name == LAUNCHES ==> i == 8)
  {
    assert Shaped(order[i], i);
    if i != 4 {
      NamesDiffer(if i < 4 then i else 4, if i < 4 then 4 else i);
    }
    if i != 8 {
      NamesDiffer(i, 8);
    }
  }

  lemma ShapesFit(order: seq<Table>, excluded: seq<Table>)
    requires |order| == 9 && |excluded| == 2
    requires forall i :: 0 <= i < 9 ==> Shaped(order[i], i)
    requires Shaped(excluded[0], 9) && Shaped(excluded[1], 10)
    requires "key" in order[4].columns && "value" in order[4].columns && LaunchColumns(order[8])
    ensures WholeSchema(order, excluded)
  {
    ShapedDistinct(order);
    forall i, k | 0 <= i < 9 && k in order[i].columns && order[i].columns[k].parent.Some?
      ensures exists j :: 0 <= j < i && order[j].name == order[i].columns[k].parent.value
    {
      ShapedParents(order, i, k);
    }
    forall i | 0 <= i < 9
      ensures Keyed(order[i]) && (order[i].name == SETTINGS ==> i == 4) && (order[i].name == LAUNCHES ==> i == 8)
    {
      ShapedNames(order, i);
    }
    ExcludedFit(order, excluded);
  }

  lemma ExcludedFit(order: seq<Table>, excluded: seq<Table>)
    requires |order| == 9 && |excluded| == 2
    requires forall i :: 0 <= i < 9 ==> Shaped(order[i], i)
    requires Shaped(excluded[0], 9) && Shaped(excluded[1], 10)
    ensures forall i, t :: 0 <= i < |order| && t in excluded ==> order[i].name != t.name
    ensures forall t, k :: t in excluded && k in t.columns && t.columns[k].parent.Some? ==>
      exists j :: 0 <= j < |order| && order[j].name == t.columns[k].parent.value
  {
    forall i, t | 0 <= i < 9 && t in excluded
      ensures order[i].name != t.name
    {
      assert Shaped(order[i], i);
      NamesDiffer(i, 9);
      NamesDiffer(i, 10);
    }
    forall t, k | t in excluded && k in t.columns && t.columns[k].parent.Some?
      ensures exists j :: 0 <= j < |order| && order[j].name == t.columns[k].parent.value
    {
      var j :| 0 <= j < 9 && t.columns[k].parent.value == NameAt(j);
      assert Shaped(order[j], j);
    }
  }

  lemma Assemble(a: Table, b: Table, c: Table, d: Table, e: Table, f: Table, g: Table, h: Table, i: Table, x: Table,
                 y: Table)
    requires Shaped(a, 0) && Shaped(b, 1) && Shaped(c, 2) && Shaped(d, 3) && Shaped(e, 4) && Shaped(f, 5)
    requires Shaped(g, 6) && Shaped(h, 7) && Shaped(i, 8) && Shaped(x, 9) && Shaped(y, 10)
    requires "key" in e.columns && "value" in e.columns && LaunchColumns(i)
    ensures WholeSchema([a, b, c, d, e, f, g, h, i], [x, y])
  {
    ShapesFit([a, b, c, d, e, f, g, h, i], [x, y]);
  }

  /** The service's own tables satisfy everything the snapshot theorems ask of a schema. */
  lemma SchemaFits()
    ensures WholeSchema(ORDER, EXCLUDED)
  {
    Roots();
    SettingsShape();
    SubjectsShape();
    RecordsShape();
    PodsShape();
    LeasesShape();
    AuthorizationsShape();
    Assemble(POLICIES, EVENTS, OBJECTS, DENYLIST, SYSTEM_SETTINGS, SUBJECTS, RECORDS, PODS, AUTHORIZATIONS, LEASES,
             BACKUPS);
  }
}
