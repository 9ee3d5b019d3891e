/** The versions that refreshes of the Pod runtime serve, one after the other. */
module ArtifactServing {
  import opened Common
  import opened Versions
  import opened ArtifactCache
  import opened ArtifactFailures

  /** An artifact as the state file records it. */
  function AsCurrent(a: Artifact): Current {
    Current(a.version, a.sha256)
  }

  /** What is served is the fallback, or the artifact of a manifest that raised no objection, which is then recorded. */
  ghost predicate Serves(r: Outcome<Served>, fallback: Option<Artifact>, e: Env) {
    r.Ok? ==>
      || Some(r.value.artifact) == fallback
      || (e.discovery.Found? && Objection(fallback, e.discovery.manifest).None?
          && AsCurrent(r.value.artifact) == Current(e.discovery.manifest.version, e.discovery.manifest.sha256)
          && r.writes != [] && r.writes[|r.writes| - 1] == PutState(Stored(Some(AsCurrent(r.value.artifact)), "")))
  }

  lemma InstallServes(cfg: Config, c: Cache, state: Stored, fallback: Option<Artifact>, e: Env, before: seq<Write>)
    requires EnvOk(e) && e.discovery.Found?
    ensures Serves(Install(cfg, c, state, fallback, e.discovery.manifest, e, before), fallback, e)
  {
    DownloadPlain(cfg, c, e.discovery.manifest, e.transfer, e.metaError);
  }

  lemma RefreshServes(cfg: Config, c: Cache, e: Env)
    requires EnvOk(e)
    ensures Refresh(cfg, c, e).Ok? ==> Fallback(cfg, c, e.factory).Ok?
    ensures Fallback(cfg, c, e.factory).Ok? ==> Serves(Refresh(cfg, c, e), Fallback(cfg, c, e.factory).value, e)
  {
    var f := Fallback(cfg, c, e.factory);
    if f.Ok? && e.discovery.Found? {
      InstallServes(cfg, PutAll(c, f.writes), Recorded(c.state, f.value), f.value, e, f.writes);
    }
  }

  /** The fallback, while something is recorded: the recorded version and digest. */
  lemma FallbackIsRecord(cfg: Config, c: Cache, e: Env)
    requires Inv(cfg, c) && HexHash(cfg) && c.state.current.Some?
    ensures var f := Fallback(cfg, c, e.factory);
      && f.Ok? && f.value.Some? && f.value.value.version == c.state.current.value.version
      && f.value.value.sha256 == LowerAll(c.state.current.value.sha256) == LowerAll(f.value.value.sha256)
      && Semver(f.value.value.version).Some?
  {
    FallbackSafe(cfg, c, e.factory);
    DigestLower(LowerAll(c.state.current.value.sha256));
  }

  /** What is served is never below the record. */
  lemma ServedNotBelow(cfg: Config, c: Cache, e: Env)
    requires Inv(cfg, c) && HexHash(cfg) && EnvOk(e) && c.state.current.Some? && Refresh(cfg, c, e).Ok?
    ensures NotBelow(c.state.current.value, Some(AsCurrent(Refresh(cfg, c, e).value.artifact)))
  {
    FallbackIsRecord(cfg, c, e);
    RefreshServes(cfg, c, e);
    NotBelowSelf(c.state.current.value);
    var f := Fallback(cfg, c, e.factory);
    if Some(Refresh(cfg, c, e).value.artifact) != f.value {
      NoObjection(c.state.current.value, f.value.value, e.discovery.manifest);
    }
  }

  // ---------------------------------------------------------------- what a refresh leaves recorded

  lemma StateWritten(c: Cache, ws: seq<Write>, state: Stored)
    ensures PutAll(c, ws + [PutState(state)]).state == state
  {
    PutAllAppend(c, ws, [PutState(state)]);
  }

  /** The last check is recent enough, and there is something to serve. */
  predicate Skips(fallback: Option<Artifact>, e: Env) {
    e.repository && e.setupError.None? && e.recent && fallback.Some?
  }

  /** A refresh that does not fail leaves what it installed recorded, or the fallback; the shortcut of a recent check
      writes nothing. */
  ghost predicate Leaves(c: Cache, r: Outcome<Served>, fallback: Option<Artifact>, e: Env) {
    r.Ok? ==>
      var after := PutAll(c, r.writes).state.current;
      if Skips(fallback, e) then Some(r.value.artifact) == fallback && after == c.state.current
      else after == Some(AsCurrent(r.value.artifact))
           || (Some(r.value.artifact) == fallback && after == Recorded(c.state, fallback).current)
  }

  lemma AsksInstall(cfg: Config, c: Cache, e: Env)
    requires Cause(cfg, c, e).None? && e.repository && e.discovery.Found? && Fallback(cfg, c, e.factory).Ok?
    requires !Skips(Fallback(cfg, c, e.factory).value, e)
    ensures var f := Fallback(cfg, c, e.factory); var m := e.discovery.manifest;
            var d := Download(cfg, PutAll(c, f.writes), m, e.transfer, e.metaError);
      && Refresh(cfg, c, e) == Install(cfg, PutAll(c, f.writes), Recorded(c.state, f.value), f.value, m, e, f.writes)
      && Objection(f.value, m).None? && d.Ok? && e.stateError.None?
  {
  }

  lemma InstallLeaves(cfg: Config, c: Cache, e: Env)
    requires EnvOk(e) && Cause(cfg, c, e).None? && e.repository && e.discovery.Found? && Fallback(cfg, c, e.factory).Ok?
    requires !Skips(Fallback(cfg, c, e.factory).value, e)
    ensures Leaves(c, Refresh(cfg, c, e), Fallback(cfg, c, e.factory).value, e)
  {
    var f := Fallback(cfg, c, e.factory);
    var d := Download(cfg, PutAll(c, f.writes), e.discovery.manifest, e.transfer, e.metaError);
    AsksInstall(cfg, c, e);
    StateWritten(c, f.writes + d.writes, Stored(Some(Current(d.value.version, d.value.sha256)), ""));
  }

  lemma SkipLeaves(cfg: Config, c: Cache, e: Env)
    requires Fallback(cfg, c, e.factory).Ok? && Skips(Fallback(cfg, c, e.factory).value, e)
    ensures Leaves(c, Refresh(cfg, c, e), Fallback(cfg, c, e.factory).value, e)
  {
    FallbackPlain(cfg, c, e.factory);
    FilesLeaveState(c, Fallback(cfg, c, e.factory).writes);
  }

  lemma AnswerLeaves(cfg: Config, c: Cache, e: Env)
    requires Cause(cfg, c, e).None? && e.repository && !e.discovery.Found? && Fallback(cfg, c, e.factory).Ok?
    requires !Skips(Fallback(cfg, c, e.factory).value, e)
    ensures Leaves(c, Refresh(cfg, c, e), Fallback(cfg, c, e.factory).value, e)
  {
    var f := Fallback(cfg, c, e.factory);
    StateWritten(c, f.writes, Recorded(c.state, f.value).(error := ""));
  }

  lemma LocalLeaves(cfg: Config, c: Cache, e: Env)
    requires !e.repository && Fallback(cfg, c, e.factory).Ok?
    ensures Leaves(c, Refresh(cfg, c, e), Fallback(cfg, c, e.factory).value, e)
  {
    var f := Fallback(cfg, c, e.factory);
    FallbackPlain(cfg, c, e.factory);
    FilesLeaveState(c, f.writes);
    StateWritten(c, f.writes, Recorded(c.state, f.value).(error := ""));
  }

  lemma QuietLeaves(cfg: Config, c: Cache, e: Env)
    requires EnvOk(e) && Cause(cfg, c, e).None? && Fallback(cfg, c, e.factory).Ok?
    ensures Leaves(c, Refresh(cfg, c, e), Fallback(cfg, c, e.factory).value, e)
  {
    if !e.repository {
      LocalLeaves(cfg, c, e);
    } else if Skips(Fallback(cfg, c, e.factory).value, e) {
      SkipLeaves(cfg, c, e);
    } else if e.discovery.Found? {
      InstallLeaves(cfg, c, e);
    } else {
      AnswerLeaves(cfg, c, e);
    }
  }

  /** Every fallback, recorded or stored just now, is a version the cache holds. */
  lemma FallbackValid(cfg: Config, c: Cache, e: Env)
    requires Inv(cfg, c) && HexHash(cfg) && Fallback(cfg, c, e.factory).Ok? && Fallback(cfg, c, e.factory).value.Some?
    ensures Semver(Fallback(cfg, c, e.factory).value.value.version).Some?
    ensures NotBelow(AsCurrent(Fallback(cfg, c, e.factory).value.value),
                     Recorded(c.state, Fallback(cfg, c, e.factory).value).current)
  {
    FallbackSafe(cfg, c, e.factory);
    var f := Fallback(cfg, c, e.factory).value;
    NotBelowSelf(AsCurrent(f.value));
    if c.state.current.Some? {
      FallbackIsRecord(cfg, c, e);
    }
  }

  /** What a failing refresh leaves recorded is not below the fallback it serves. */
  lemma FailureNotBelow(cfg: Config, c: Cache, e: Env)
    requires Inv(cfg, c) && HexHash(cfg) && EnvOk(e) && Cause(cfg, c, e).Some? && Refresh(cfg, c, e).Ok?
    ensures var r := Refresh(cfg, c, e); NotBelow(AsCurrent(r.value.artifact), PutAll(c, r.writes).state.current)
  {
    FailingRefresh(cfg, c, e);
    FallbackValid(cfg, c, e);
    var f := Fallback(cfg, c, e.factory).value;
    if LateFailure(cfg, c, e) {
      FallbackDigest(cfg, c, e);
      NoObjection(AsCurrent(f.value), f.value, e.discovery.manifest);
    }
  }

  lemma FallbackDigest(cfg: Config, c: Cache, e: Env)
    requires Inv(cfg, c) && HexHash(cfg) && Fallback(cfg, c, e.factory).Ok? && Fallback(cfg, c, e.factory).value.Some?
    ensures var d := Fallback(cfg, c, e.factory).value.value.sha256; LowerAll(d) == d
  {
    if c.state.current.Some? {
      FallbackIsRecord(cfg, c, e);
    } else {
      StoreLocalLoads(cfg, c, e.factory.value);
      DigestLower(cfg.hash(e.factory.value.bytes));
    }
  }

  /** What is recorded after a refresh, if anything is, is not below what it served. */
  lemma RecordNotBelow(cfg: Config, c: Cache, e: Env)
    requires Inv(cfg, c) && HexHash(cfg) && EnvOk(e) && Refresh(cfg, c, e).Ok?
    ensures var r := Refresh(cfg, c, e); var after := PutAll(c, r.writes).state.current;
            after.Some? ==> NotBelow(AsCurrent(r.value.artifact), after)
  {
    RefreshServes(cfg, c, e);
    if Cause(cfg, c, e).Some? {
      FailureNotBelow(cfg, c, e);
    } else {
      QuietLeaves(cfg, c, e);
      QuietNotBelow(cfg, c, e);
    }
  }

  lemma QuietNotBelow(cfg: Config, c: Cache, e: Env)
    requires Inv(cfg, c) && HexHash(cfg) && EnvOk(e) && Refresh(cfg, c, e).Ok? && Fallback(cfg, c, e.factory).Ok?
    requires Serves(Refresh(cfg, c, e), Fallback(cfg, c, e.factory).value, e)
    requires Leaves(c, Refresh(cfg, c, e), Fallback(cfg, c, e.factory).value, e)
    ensures var r := Refresh(cfg, c, e); var after := PutAll(c, r.writes).state.current;
            after.Some? ==> NotBelow(AsCurrent(r.value.artifact), after)
  {
    var r := Refresh(cfg, c, e);
    if Some(r.value.artifact) == Fallback(cfg, c, e.factory).value {
      FallbackValid(cfg, c, e);
    }
    NotBelowSelf(AsCurrent(r.value.artifact));
  }

  // ---------------------------------------------------------------- histories

  /** Event i is a refresh that runs to its end and serves this artifact. */
  ghost predicate ServesAt(cfg: Config, caches: seq<Cache>, events: seq<Event>, cuts: seq<nat>, i: nat, a: Artifact)
    requires |caches| == |events| + 1 && |cuts| == |events| && i < |events|
  {
    && events[i].Refreshing?
    && cuts[i] == |Writes(cfg, caches[i], events[i])|
    && Refresh(cfg, caches[i], events[i].e).Ok?
    && Refresh(cfg, caches[i], events[i].e).value.artifact == a
  }

  lemma ServedThenRecorded(cfg: Config, caches: seq<Cache>, events: seq<Event>, cuts: seq<nat>, i: nat, a: Artifact)
    requires IsHistory(cfg, caches, events, cuts) && i < |events| && ServesAt(cfg, caches, events, cuts, i, a)
    requires caches[i + 1].state.current.Some?
    ensures NotBelow(AsCurrent(a), caches[i + 1].state.current)
  {
    HistoryHolds(cfg, caches, events, cuts, i);
    assert EventOk(events[i]);
    RecordNotBelow(cfg, caches[i], events[i].e);
    var ws := Writes(cfg, caches[i], events[i]);
    assert ws[..|ws|] == ws;
  }

  lemma RecordedThenServed(cfg: Config, caches: seq<Cache>, events: seq<Event>, cuts: seq<nat>, j: nat, b: Artifact)
    requires IsHistory(cfg, caches, events, cuts) && j < |events| && ServesAt(cfg, caches, events, cuts, j, b)
    requires caches[j].state.current.Some?
    ensures NotBelow(caches[j].state.current.value, Some(AsCurrent(b)))
  {
    HistoryHolds(cfg, caches, events, cuts, j);
    assert EventOk(events[j]);
    ServedNotBelow(cfg, caches[j], events[j].e);
  }

  /**
    Over every history, crashes included, a later refresh never serves a lower version than an earlier one, and never
    another digest under the same version, once the earlier one has left anything recorded.
   */
  lemma ServedNeverFalls(cfg: Config, caches: seq<Cache>, events: seq<Event>, cuts: seq<nat>, i: nat, j: nat,
                         a: Artifact, b: Artifact)
    requires IsHistory(cfg, caches, events, cuts) && i < j < |events|
    requires ServesAt(cfg, caches, events, cuts, i, a) && ServesAt(cfg, caches, events, cuts, j, b)
    requires caches[i + 1].state.current.Some?
    ensures NotBelow(AsCurrent(a), Some(AsCurrent(b)))
  {
    ServedThenRecorded(cfg, caches, events, cuts, i, a);
    var first := caches[i + 1].state.current.value;
    if i + 1 < j {
      VersionsNeverDecrease(cfg, caches, events, cuts, i + 1, j);
      NotBelowChain(AsCurrent(a), first, caches[j].state.current);
    }
    RecordedThenServed(cfg, caches, events, cuts, j, b);
    NotBelowChain(AsCurrent(a), caches[j].state.current.value, Some(AsCurrent(b)));
  }

  /** A refresh that serves something leaves nothing recorded exactly if nothing was, and a recent check spares it
      the rest. */
  lemma UnrecordedIff(cfg: Config, c: Cache, e: Env)
    requires EnvOk(e) && Refresh(cfg, c, e).Ok?
    ensures PutAll(c, Refresh(cfg, c, e).writes).state.current.None? <==>
            c.state.current.None? && Skips(Fallback(cfg, c, e.factory).value, e)
  {
    RefreshServes(cfg, c, e);
    if Cause(cfg, c, e).Some? {
      FailingRefresh(cfg, c, e);
    } else {
      QuietLeaves(cfg, c, e);
    }
  }

  lemma StoredAs(cfg: Config, c: Cache, bytes: Bytes, version: string)
    requires cfg == Config(TwoFiles, 10) && bytes in {OLD, NEW} && c.state == Stored(None, "")
      && TwoFiles(bytes) !in c.exes
    requires Semver(version).Some?
    ensures var d := TwoFiles(bytes);
            Fallback(cfg, c, Some(Factory(bytes, bytes, version, None, None, None)))
            == Ok(Some(Artifact(version, d, "factory")), [PutExe(d, bytes), PutMeta(d, Meta(version, "factory"))])
  {
  }

  /** While recent checks keep anything from being recorded, a factory runtime of a lower version is served after a
      higher one. */
  lemma ServedFalls(cfg: Config, c: Cache, first: Env, second: Env)
    requires cfg == Config(TwoFiles, 10) && c == Cache(map[], map[], Stored(None, ""))
    requires first ==
      Env(Some(Factory(NEW, NEW, "2.0.0", None, None, None)), true, None, true, NotModified, Broken(Bare("")), None,
          None, None)
    requires second ==
      Env(Some(Factory(OLD, OLD, "1.0.0", None, None, None)), true, None, true, NotModified, Broken(Bare("")), None,
          None, None)
    ensures var r := Refresh(cfg, c, first); r.Ok? && r.value.artifact.version == "2.0.0"
    ensures var r := Refresh(cfg, PutAll(c, Refresh(cfg, c, first).writes), second);
      r.Ok? && r.value.artifact.version == "1.0.0"
  {
    Digests();
    TwoVersions();
    StoredAs(cfg, c, NEW, "2.0.0");
    var ws := Refresh(cfg, c, first).writes;
    TwoWrites(c, ws[0], ws[1]);
    assert ws == [ws[0], ws[1]];
    StoredAs(cfg, PutAll(c, ws), OLD, "1.0.0");
  }
}
