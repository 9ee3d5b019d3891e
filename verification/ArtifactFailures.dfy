/** What a failing refresh of the Pod runtime serves and records, and what it serves from a damaged cache. */
module ArtifactFailures {
  import opened Common
  import opened Versions
  import opened ArtifactCache

  // ---------------------------------------------------------------- failing refreshes

  /** The text of the exception that ends a refresh in its handler, if one does. */
  function Cause(cfg: Config, c: Cache, e: Env): Option<string> {
    match Fallback(cfg, c, e.factory)
    case Err(_, _) => None
    case Ok(fallback, before) =>
      if !e.repository then None
      else if e.setupError.Some? then e.setupError
      else if e.recent && fallback.Some? then None
      else match e.discovery
        case Failed(message) => Some(message)
        case NotModified => if fallback.None? then Some("HTTP Error 304") else e.stateError
        case Found(m) =>
          if Objection(fallback, m).Some? then Objection(fallback, m)
          else match Download(cfg, PutAll(c, before), m, e.transfer, e.metaError)
            case Err(message, _) => Some(message)
            case Ok(_, _) => e.stateError
  }

  /** The refresh got as far as writing the new state, and that write failed. */
  ghost predicate LateFailure(cfg: Config, c: Cache, e: Env) {
    && e.repository && e.setupError.None? && e.discovery.Found? && e.stateError.Some?
    && Fallback(cfg, c, e.factory).Ok? && !(e.recent && Fallback(cfg, c, e.factory).value.Some?)
    && Objection(Fallback(cfg, c, e.factory).value, e.discovery.manifest).None?
    && Download(cfg, PutAll(c, Fallback(cfg, c, e.factory).writes), e.discovery.manifest, e.transfer, e.metaError).Ok?
  }

  lemma {:induction false} FilesLeaveState(c: Cache, ws: seq<Write>)
    requires forall w :: w in ws ==> !w.PutState?
    ensures PutAll(c, ws).state == c.state
    decreases |ws|
  {
    if ws != [] {
      FilesLeaveState(c, ws[..|ws| - 1]);
    }
  }

  /** A failure as the handler leaves it: the fallback with the text of the failure exactly if there is a fallback
      and the failure can be recorded; a record of `current` with that text if it can, and the old state file if it
      cannot. */
  ghost predicate Handled(c: Cache, r: Outcome<Served>, fallback: Option<Artifact>, current: Option<Current>,
                          message: string, e: Env) {
    var after := PutAll(c, r.writes).state;
    && (r.Ok? <==> fallback.Some? && e.reportError.None?)
    && (r.Ok? ==> r.value == Served(fallback.value, true, message))
    && after == if e.reportError.Some? then c.state else Stored(current, message)
  }

  lemma ReportHandles(c: Cache, state: Stored, fallback: Option<Artifact>, message: string, e: Env, writes: seq<Write>)
    requires forall w :: w in writes ==> !w.PutState?
    ensures Handled(c, Report(state, fallback, message, e, writes), fallback, state.current, message, e)
  {
    FilesLeaveState(c, writes);
    PutAllAppend(c, writes, [PutState(state.(error := message))]);
  }

  lemma InstallHandles(cfg: Config, c: Cache, state: Stored, fallback: Option<Artifact>, m: Manifest, e: Env,
                       before: seq<Write>)
    requires ManifestOk(m) && forall w :: w in before ==> !w.PutState?
    ensures var d := Download(cfg, PutAll(c, before), m, e.transfer, e.metaError);
            var r := Install(cfg, PutAll(c, before), state, fallback, m, e, before);
      && (Objection(fallback, m).Some? ==> Handled(c, r, fallback, state.current, Objection(fallback, m).value, e))
      && (Objection(fallback, m).None? && d.Err? ==> Handled(c, r, fallback, state.current, d.message, e))
      && (Objection(fallback, m).None? && d.Ok? && e.stateError.Some? ==>
            Handled(c, r, fallback, Some(Current(m.version, m.sha256)), e.stateError.value, e))
  {
    var d := Download(cfg, PutAll(c, before), m, e.transfer, e.metaError);
    DownloadPlain(cfg, PutAll(c, before), m, e.transfer, e.metaError);
    if Objection(fallback, m).Some? {
      ReportHandles(c, state, fallback, Objection(fallback, m).value, e, before);
    } else if d.Err? {
      ReportHandles(c, state, fallback, d.message, e, before + d.writes);
    } else if e.stateError.Some? {
      ReportHandles(c, Stored(Some(Current(m.version, m.sha256)), ""), fallback, e.stateError.value, e,
                    before + d.writes);
    }
  }

  lemma AnswerHandles(c: Cache, state: Stored, fallback: Option<Artifact>, e: Env, before: seq<Write>)
    requires !e.discovery.Found? && forall w :: w in before ==> !w.PutState?
    ensures var r := Answer(state, fallback, e, before);
      && (e.discovery.Failed? ==> Handled(c, r, fallback, state.current, e.discovery.message, e))
      && (e.discovery.NotModified? && fallback.None? ==> Handled(c, r, fallback, state.current, "HTTP Error 304", e))
      && (e.discovery.NotModified? && fallback.Some? && e.stateError.Some? ==>
            Handled(c, r, fallback, state.current, e.stateError.value, e))
  {
    match e.discovery {
      case Failed(message) => ReportHandles(c, state, fallback, message, e, before);
      case NotModified =>
        if fallback.None? {
          ReportHandles(c, state, fallback, "HTTP Error 304", e, before);
        } else if e.stateError.Some? {
          ReportHandles(c, state.(error := ""), fallback, e.stateError.value, e, before);
        }
    }
  }

  lemma FallbackPlain(cfg: Config, c: Cache, factory: Option<Factory>)
    ensures forall w :: w in Fallback(cfg, c, factory).writes ==> !w.PutState?
  {
  }

  /**
    Every failing refresh, whatever the cache holds: it serves the fallback with the text of the failure exactly if
    there is a fallback and the failure itself can be recorded; otherwise it raises. The record then is the old one, or
    the fallback where nothing was recorded, with that text; only a failed write of the new state leaves the new
    artifact recorded. If the failure cannot be recorded, nothing changes in the state file.
   */
  lemma FailingRefresh(cfg: Config, c: Cache, e: Env)
    requires EnvOk(e) && Cause(cfg, c, e).Some?
    ensures var f := Fallback(cfg, c, e.factory).value;
            var current := if LateFailure(cfg, c, e)
                           then Some(Current(e.discovery.manifest.version, e.discovery.manifest.sha256))
                           else Recorded(c.state, f).current;
            Handled(c, Refresh(cfg, c, e), f, current, Cause(cfg, c, e).value, e)
  {
    var f := Fallback(cfg, c, e.factory);
    var state := Recorded(c.state, f.value);
    FallbackPlain(cfg, c, e.factory);
    if e.setupError.Some? {
      ReportHandles(c, state, f.value, e.setupError.value, e, f.writes);
    } else if e.discovery.Found? {
      InstallHandles(cfg, c, state, f.value, e.discovery.manifest, e, f.writes);
    } else {
      AnswerHandles(c, state, f.value, e, f.writes);
    }
  }

  /** While the recorded artifact loads, a failing refresh serves it exactly if the failure can be recorded, and the
      record of the artifact stays unless the failed step was the write of the new state. */
  lemma FailingRefreshServes(cfg: Config, c: Cache, e: Env)
    requires c.state.current.Some? && CurrentHeld(cfg, c) && EnvOk(e) && Cause(cfg, c, e).Some?
    ensures var r := Refresh(cfg, c, e); var after := PutAll(c, r.writes).state; var current := c.state.current.value;
      && (r.Ok? <==> e.reportError.None?)
      && (r.Ok? ==> r.value.failed && r.value.artifact.version == current.version
                    && r.value.artifact.sha256 == LowerAll(current.sha256) && r.value.error == after.error)
      && (after.current == c.state.current <==>
            e.reportError.Some? || !LateFailure(cfg, c, e)
            || current == Current(e.discovery.manifest.version, e.discovery.manifest.sha256))
  {
    FailingRefresh(cfg, c, e);
  }

  /** A refresh that does not fail serves no error. */
  lemma OnlyFailuresFail(cfg: Config, c: Cache, e: Env)
    requires EnvOk(e)
    ensures Refresh(cfg, c, e).Ok? ==> (Refresh(cfg, c, e).value.failed <==> Cause(cfg, c, e).Some?)
    ensures Refresh(cfg, c, e).Ok? && !Refresh(cfg, c, e).value.failed ==> Refresh(cfg, c, e).value.error == ""
  {
    if Cause(cfg, c, e).Some? {
      FailingRefresh(cfg, c, e);
    }
  }

  /** Every text that comes from outside and is passed on as it is says something. */
  predicate Speaks(e: Env) {
    && e.setupError != Some("") && e.discovery != Failed("") && e.stateError != Some("")
    && e.transfer != Broken(Bare("")) && e.metaError != Some(Bare(""))
  }

  /** Where a failure without a text comes from. */
  predicate Silent(cfg: Config, c: Cache, e: Env) {
    var f := Fallback(cfg, c, e.factory);
    if !f.Ok? || !e.repository then false
    else if e.setupError.Some? then e.setupError == Some("")
    else if e.recent && f.value.Some? then false
    else match e.discovery
      case Failed(message) => message == ""
      case NotModified => f.value.Some? && e.stateError == Some("")
      case Found(m) =>
        && Objection(f.value, m).None?
        && (Download(cfg, PutAll(c, f.writes), m, e.transfer, e.metaError).Ok? ==> e.stateError == Some(""))
        && (Download(cfg, PutAll(c, f.writes), m, e.transfer, e.metaError).Err? ==>
              LoadArtifact(cfg, PutAll(c, f.writes), m.sha256).None?
              && (e.transfer == Broken(Bare("")) ||
                  (e.transfer.Fetched? && e.metaError == Some(Bare(""))
                   && Download(cfg, PutAll(c, f.writes), m, e.transfer, None).Ok?)))
  }

  lemma DownloadSilence(cfg: Config, c: Cache, m: Manifest, transfer: Transfer, metaError: Option<Failure>)
    requires Download(cfg, c, m, transfer, metaError).Err?
    ensures Download(cfg, c, m, transfer, metaError).message == "" <==>
            LoadArtifact(cfg, c, m.sha256).None?
            && (transfer == Broken(Bare("")) ||
                (transfer.Fetched? && metaError == Some(Bare("")) && Download(cfg, c, m, transfer, None).Ok?))
  {
    assert forall f: Failure :: Text(f) == "" <==> f == Bare("");
  }

  lemma SilentIff(cfg: Config, c: Cache, e: Env)
    requires Cause(cfg, c, e).Some?
    ensures Cause(cfg, c, e) == Some("") <==> Silent(cfg, c, e)
  {
    if e.discovery.Found? {
      var before := Fallback(cfg, c, e.factory).writes;
      if Download(cfg, PutAll(c, before), e.discovery.manifest, e.transfer, e.metaError).Err? {
        DownloadSilence(cfg, PutAll(c, before), e.discovery.manifest, e.transfer, e.metaError);
      }
    }
  }

  /** The error a failing refresh serves is empty exactly for those failures, and never if every outside text says
      something. */
  lemma SilentFailure(cfg: Config, c: Cache, e: Env)
    requires EnvOk(e) && Refresh(cfg, c, e).Ok? && Refresh(cfg, c, e).value.failed
    ensures Refresh(cfg, c, e).value.error == "" <==> Silent(cfg, c, e)
    ensures Speaks(e) ==> Refresh(cfg, c, e).value.error != ""
  {
    OnlyFailuresFail(cfg, c, e);
    FailingRefresh(cfg, c, e);
    SilentIff(cfg, c, e);
  }

  // ---------------------------------------------------------------- a file that is already there

  /** Storing the factory runtime trusts a file already present: the result is sound exactly when that file is. */
  lemma StoreTrustsCache(cfg: Config, c: Cache, f: Factory)
    requires StoreLocal(cfg, c, f).Ok?
    ensures var r := StoreLocal(cfg, c, f); var d := r.value.sha256; var after := PutAll(c, r.writes);
      d in after.exes && (Good(cfg, d, after.exes[d]) <==> d !in c.exes || Good(cfg, d, c.exes[d]))
  {
    var r := StoreLocal(cfg, c, f);
    var meta := r.writes[|r.writes| - 1];
    if |r.writes| == 1 {
      assert r.writes == [] + [meta];
      PutAllAppend(c, [], [meta]);
    } else {
      assert r.writes == [r.writes[0]] + [meta];
      PutAllAppend(c, [r.writes[0]], [meta]);
    }
  }

  lemma StoreLocalPresent(cfg: Config, c: Cache, f: Factory)
    requires StoreLocal(cfg, c, f).Ok?
    ensures StoreLocal(cfg, c, f).value.sha256 == cfg.hash(f.bytes)
    ensures cfg.hash(f.bytes) in c.exes || Rewritten(StoreLocal(cfg, c, f).writes, cfg.hash(f.bytes))
  {
    if cfg.hash(f.bytes) !in c.exes {
      assert StoreLocal(cfg, c, f).writes[0].PutExe?;
    }
  }

  /** The recorded artifact does not load and the factory runtime is stored over a bad file that lies in its place. */
  ghost predicate BadInPlace(cfg: Config, c: Cache, e: Env) {
    && (c.state.current.Some? ==> LoadArtifact(cfg, c, c.state.current.value.sha256).None?)
    && e.factory.Some? && StoreLocal(cfg, c, e.factory.value).Ok?
    && cfg.hash(e.factory.value.bytes) in c.exes
    && !HasGood(cfg, c, cfg.hash(e.factory.value.bytes))
  }

  /** What is known of a fallback: its file is good, or it is the factory runtime over a bad file. */
  lemma FallbackFile(cfg: Config, c: Cache, e: Env)
    requires Fallback(cfg, c, e.factory).Ok? && Fallback(cfg, c, e.factory).value.Some?
    ensures var r := Fallback(cfg, c, e.factory); var d := r.value.value.sha256;
      && (d in c.exes || Rewritten(r.writes, d))
      && (HasGood(cfg, c, d) || Rewritten(r.writes, d)
          || (BadInPlace(cfg, c, e) && d == cfg.hash(e.factory.value.bytes)))
  {
    if c.state.current.None? || LoadArtifact(cfg, c, c.state.current.value.sha256).None? {
      StoreLocalPresent(cfg, c, e.factory.value);
    }
  }

  lemma DownloadFile(cfg: Config, c: Cache, m: Manifest, transfer: Transfer, metaError: Option<Failure>)
    requires ManifestOk(m) && Download(cfg, c, m, transfer, metaError).Ok?
    ensures var r := Download(cfg, c, m, transfer, metaError);
      HasGood(cfg, c, r.value.sha256) || Rewritten(r.writes, r.value.sha256)
  {
    DigestLower(m.sha256);
    var r := Download(cfg, c, m, transfer, metaError);
    if r.writes != [] {
      assert r.writes[0].PutExe? && r.writes[0] in r.writes;
    }
  }

  /** The writes made before come first, and what is served is the fallback or has a good file. */
  ghost predicate ServedFrom(cfg: Config, d: Cache, r: Outcome<Served>, fallback: Option<Artifact>,
                             before: seq<Write>) {
    && before <= r.writes
    && (r.Ok? ==>
          || (fallback.Some? && r.value.artifact == fallback.value)
          || HasGood(cfg, d, r.value.artifact.sha256) || Rewritten(r.writes, r.value.artifact.sha256))
  }

  lemma InstallFrom(cfg: Config, d: Cache, state: Stored, fallback: Option<Artifact>, m: Manifest, e: Env,
                    before: seq<Write>)
    requires ManifestOk(m)
    ensures ServedFrom(cfg, d, Install(cfg, d, state, fallback, m, e, before), fallback, before)
  {
    var x := Download(cfg, d, m, e.transfer, e.metaError);
    if Objection(fallback, m).None? && x.Ok? && e.stateError.None? {
      DownloadFile(cfg, d, m, e.transfer, e.metaError);
      assert forall w ::
        w in x.writes ==>
          w in before + x.writes + [PutState(Stored(Some(Current(x.value.version, x.value.sha256)), ""))];
    }
  }

  lemma AnswerFrom(cfg: Config, d: Cache, state: Stored, fallback: Option<Artifact>, e: Env, before: seq<Write>)
    requires !e.discovery.Found?
    ensures ServedFrom(cfg, d, Answer(state, fallback, e, before), fallback, before)
  {
  }

  lemma OnlineFrom(cfg: Config, c: Cache, state: Stored, fallback: Option<Artifact>, e: Env, before: seq<Write>)
    requires EnvOk(e)
    ensures ServedFrom(cfg, PutAll(c, before), Online(cfg, c, state, fallback, e, before), fallback, before)
  {
    if e.discovery.Found? {
      InstallFrom(cfg, PutAll(c, before), state, fallback, e.discovery.manifest, e, before);
    } else {
      AnswerFrom(cfg, PutAll(c, before), state, fallback, e, before);
    }
  }

  lemma RefreshFrom(cfg: Config, c: Cache, e: Env)
    requires EnvOk(e) && Fallback(cfg, c, e.factory).Ok?
    ensures var f := Fallback(cfg, c, e.factory);
      ServedFrom(cfg, PutAll(c, f.writes), Refresh(cfg, c, e), f.value, f.writes)
  {
    var f := Fallback(cfg, c, e.factory);
    OnlineFrom(cfg, c, Recorded(c.state, f.value), f.value, e, f.writes);
  }

  /**
    Whatever the cache held before: the file behind a served artifact is there, and it is good exactly if it was good
    before or this refresh wrote it. A bad one is served only as the factory runtime over a bad file already in its
    place.
   */
  lemma ServedIsGoodIff(cfg: Config, c: Cache, e: Env)
    requires EnvOk(e) && Refresh(cfg, c, e).Ok?
    ensures var r := Refresh(cfg, c, e); var d := r.value.artifact.sha256; var after := PutAll(c, r.writes);
      && d in after.exes
      && (Good(cfg, d, after.exes[d]) <==> HasGood(cfg, c, d) || Rewritten(r.writes, d))
      && (!Good(cfg, d, after.exes[d]) ==> BadInPlace(cfg, c, e) && d == cfg.hash(e.factory.value.bytes))
  {
    var r := Refresh(cfg, c, e);
    var f := Fallback(cfg, c, e.factory);
    var d := r.value.artifact.sha256;
    RefreshFrom(cfg, c, e);
    RefreshGood(cfg, c, e);
    FileAfter(cfg, c, r.writes, d);
    assert GoodWrites(cfg, f.writes) && (Rewritten(f.writes, d) ==> Rewritten(r.writes, d)) by {
      assert forall w :: w in f.writes ==> w in r.writes;
    }
    FileAfter(cfg, c, f.writes, d);
    if f.value.Some? && r.value.artifact == f.value.value {
      FallbackFile(cfg, c, e);
    }
  }

  // ---------------------------------------------------------------- concrete inputs

  /** A digest that is all one digit. */
  function Digest(c: char): string {
    seq(64, _ => c)
  }

  const OLD: Bytes := [77, 90]
  const NEW: Bytes := [77, 90, 0]

  /** A hash that tells these two runtimes apart. */
  function TwoFiles(bytes: Bytes): string {
    if bytes == OLD then Digest('1') else Digest('2')
  }

  lemma Digests()
    ensures IsDigest(Digest('1')) && IsDigest(Digest('2')) && Digest('1') != Digest('2')
    ensures LowerAll(Digest('1')) == Digest('1') && LowerAll(Digest('2')) == Digest('2')
  {
    assert Digest('1')[0] != Digest('2')[0];
    DigestLower(Digest('1'));
    DigestLower(Digest('2'));
  }

  lemma TwoVersions()
    ensures Semver("1.0.0") == Some(Version(1, 0, 0, RELEASE)) && Semver("2.0.0") == Some(Version(2, 0, 0, RELEASE))
  {
    PlainVersion('1', '0', '0');
    PlainVersion('2', '0', '0');
    assert "1.0.0" == ['1', '.', '0', '.', '0'] && "2.0.0" == ['2', '.', '0', '.', '0'];
  }

  lemma LateDownload(cfg: Config, c: Cache)
    requires cfg == Config(TwoFiles, 10)
    requires c ==
      Cache(map[Digest('1') := OLD], map[Digest('1') := Meta("1.0.0", "remote")],
            Stored(Some(Current("1.0.0", Digest('1'))), ""))
    ensures Download(cfg, c, Manifest("2.0.0", Digest('2'), None), Fetched([NEW]), None).Ok?
  {
    Digests();
    assert Received([NEW]) == NEW by {
      assert [NEW][1..] == [];
    }
  }

  lemma RecordedLoads(cfg: Config, c: Cache)
    requires cfg == Config(TwoFiles, 10)
    requires c ==
      Cache(map[Digest('1') := OLD], map[Digest('1') := Meta("1.0.0", "remote")],
            Stored(Some(Current("1.0.0", Digest('1'))), ""))
    ensures LoadArtifact(cfg, c, Digest('1')) == Some(Artifact("1.0.0", Digest('1'), "remote"))
    ensures Objection(Some(Artifact("1.0.0", Digest('1'), "remote")), Manifest("2.0.0", Digest('2'), None)).None?
  {
    Digests();
    TwoVersions();
  }

  /** Version 1.0.0 is recorded and loads; 2.0.0 is downloaded, the write of the new state fails once, and the error is
      recorded: 1.0.0 is served, and 2.0.0 recorded. */
  lemma LateFailureRecords(cfg: Config, c: Cache, e: Env)
    requires cfg == Config(TwoFiles, 10)
    requires c ==
      Cache(map[Digest('1') := OLD], map[Digest('1') := Meta("1.0.0", "remote")],
            Stored(Some(Current("1.0.0", Digest('1'))), ""))
    requires e ==
      Env(None, true, None, false, Found(Manifest("2.0.0", Digest('2'), None)), Fetched([NEW]), None,
          Some("disk full"), None)
    ensures var r := Refresh(cfg, c, e);
      && r.Ok? && r.value.artifact.version == "1.0.0" && r.value.error == "disk full"
      && PutAll(c, r.writes).state.current == Some(Current("2.0.0", Digest('2')))
  {
    RecordedLoads(cfg, c);
    LateDownload(cfg, c);
    Digests();
    TwoVersions();
    FailingRefresh(cfg, c, e);
  }

  lemma StoredOverBadFile(cfg: Config, c: Cache)
    requires cfg == Config(TwoFiles, 10) && c == Cache(map[Digest('1') := []], map[], Stored(None, ""))
    ensures StoreLocal(cfg, c, Factory(OLD, OLD, "1.0.0", None, None, None))
         == Ok(Artifact("1.0.0", Digest('1'), "factory"), [PutMeta(Digest('1'), Meta("1.0.0", "factory"))])
  {
    TwoVersions();
  }

  lemma FallbackOverBadFile(cfg: Config, c: Cache)
    requires cfg == Config(TwoFiles, 10) && c == Cache(map[Digest('1') := []], map[], Stored(None, ""))
    ensures Fallback(cfg, c, Some(Factory(OLD, OLD, "1.0.0", None, None, None)))
         == Ok(Some(Artifact("1.0.0", Digest('1'), "factory")), [PutMeta(Digest('1'), Meta("1.0.0", "factory"))])
  {
    StoredOverBadFile(cfg, c);
  }

  lemma {:induction false} FilesStay(c: Cache, ws: seq<Write>)
    requires forall w :: w in ws ==> !w.PutExe?
    ensures PutAll(c, ws).exes == c.exes
    decreases |ws|
  {
    if ws != [] {
      FilesStay(c, ws[..|ws| - 1]);
    }
  }

  /** A damaged file lies where the factory runtime belongs, and nothing is recorded: it is served. */
  lemma BadFileServed(cfg: Config, c: Cache, e: Env)
    requires cfg == Config(TwoFiles, 10) && c == Cache(map[Digest('1') := []], map[], Stored(None, ""))
    requires e ==
      Env(Some(Factory(OLD, OLD, "1.0.0", None, None, None)), false, None, false, NotModified, Broken(Bare("")), None,
          None, None)
    ensures var r := Refresh(cfg, c, e);
      && r.Ok? && r.value.artifact.sha256 == Digest('1')
      && Digest('1') in PutAll(c, r.writes).exes && PutAll(c, r.writes).exes[Digest('1')] == []
  {
    FallbackOverBadFile(cfg, c);
    assert Refresh(cfg, c, e).writes == [PutMeta(Digest('1'), Meta("1.0.0", "factory")),
                                         PutState(Stored(Some(Current("1.0.0", Digest('1'))), ""))];
    FilesStay(c, Refresh(cfg, c, e).writes);
  }

  /** While the error cannot be recorded, nothing is served although the recorded artifact loads. */
  lemma NothingServed(cfg: Config, c: Cache, e: Env)
    requires c.state.current.Some? && CurrentHeld(cfg, c)
    requires e.repository && e.setupError.None? && !e.recent && e.discovery.Failed? && e.reportError.Some?
    ensures Refresh(cfg, c, e) == Err(e.reportError.value, [])
  {
  }
}
