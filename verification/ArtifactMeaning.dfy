/** When the Pod runtime cache does what it is asked for, and with which result, in terms of files and answers alone. */
module ArtifactMeaning {
  import opened Common
  import opened Versions
  import opened ArtifactCache
  import opened ArtifactFailures
  import opened ArtifactServing

  // ---------------------------------------------------------------- loading, storing and downloading

  /** A runnable file within the limit. */
  ghost predicate Runnable(cfg: Config, bytes: Bytes) {
    MZ <= bytes && |bytes| <= cfg.maxBytes
  }

  /** The cache can hand out this digest: a runnable file that hashes to it, and metadata with a valid version. */
  ghost predicate Available(cfg: Config, c: Cache, d: string) {
    && IsDigest(d) && d in c.exes && Runnable(cfg, c.exes[d]) && cfg.hash(c.exes[d]) == d
    && d in c.metas && Semver(c.metas[d].version).Some?
  }

  lemma GoodIff(cfg: Config, d: string, bytes: Bytes)
    ensures Good(cfg, d, bytes) <==> Runnable(cfg, bytes) && cfg.hash(bytes) == d
  {
    if |bytes| >= 2 {
      assert bytes == [bytes[0], bytes[1]] + bytes[2..];
    }
  }

  /** What loads is exactly what is available, under the version and the source of its metadata. */
  lemma LoadsIff(cfg: Config, c: Cache, digest: string)
    ensures var d := LowerAll(digest); var r := LoadArtifact(cfg, c, digest);
      && (r.Some? <==> Available(cfg, c, d))
      && (r.Some? ==> r.value == Artifact(c.metas[d].version, d, c.metas[d].source))
  {
    var d := LowerAll(digest);
    if d in c.exes {
      GoodIff(cfg, d, c.exes[d]);
    }
  }

  /** The factory runtime can be stored: it is readable and valid, and its copy is in place or arrives unchanged. */
  ghost predicate Storable(cfg: Config, c: Cache, f: Factory) {
    && Semver(f.version).Some? && f.readError == None && Runnable(cfg, f.bytes) && f.metaError == None
    && (cfg.hash(f.bytes) !in c.exes ==>
          && f.copyError == None && Runnable(cfg, f.copied)
          && cfg.hash(f.copied) == cfg.hash(f.bytes) && |f.copied| == |f.bytes|)
  }

  lemma StoreDoneIff(cfg: Config, c: Cache, f: Factory)
    ensures var r := StoreLocal(cfg, c, f); var d := cfg.hash(f.bytes);
      && (r.Ok? <==> Storable(cfg, c, f))
      && (r.Ok? ==> r.value == Artifact(f.version, d, "factory"))
  {
    GoodIff(cfg, cfg.hash(f.bytes), f.bytes);
    GoodIff(cfg, cfg.hash(f.bytes), f.copied);
  }

  /** What storing leaves: a file in place stays, a missing one is the copy, and the metadata names the version. */
  lemma StoreLeaves(cfg: Config, c: Cache, f: Factory)
    requires StoreLocal(cfg, c, f).Ok?
    ensures var d := cfg.hash(f.bytes);
      PutAll(c, StoreLocal(cfg, c, f).writes) ==
        c.(exes := if d in c.exes then c.exes else c.exes[d := f.copied],
           metas := c.metas[d := Meta(f.version, "factory")])
  {
    var d := cfg.hash(f.bytes);
    var exe, meta := PutExe(d, f.copied), PutMeta(d, Meta(f.version, "factory"));
    StoreWrites(cfg, c, f);
    TwoWrites(c, exe, meta);
    TwoWrites(c, meta, meta);
  }

  lemma StoreWrites(cfg: Config, c: Cache, f: Factory)
    requires StoreLocal(cfg, c, f).Ok?
    ensures var d := cfg.hash(f.bytes); var exe, meta := PutExe(d, f.copied), PutMeta(d, Meta(f.version, "factory"));
      StoreLocal(cfg, c, f).writes == if d in c.exes then [meta] else [exe, meta]
  {
  }

  /** The runtime the manifest names arrives: whole, of the right size and digest, with the header in its first
      chunk. */
  ghost predicate Arrives(cfg: Config, m: Manifest, transfer: Transfer) {
    && transfer.Fetched? && transfer.chunks != [] && MZ <= transfer.chunks[0]
    && |Received(transfer.chunks)| <= cfg.maxBytes && cfg.hash(Received(transfer.chunks)) == m.sha256
    && (m.size.Some? ==> m.size.value == |Received(transfer.chunks)|)
  }

  lemma HeaderIff(chunks: seq<Bytes>)
    ensures Header(chunks) == MZ <==> chunks != [] && MZ <= chunks[0]
  {
    if chunks != [] && |chunks[0]| >= 2 {
      assert chunks[0] == [chunks[0][0], chunks[0][1]] + chunks[0][2..];
    }
  }

  /** A download is done exactly if the digest is in the cache under this version, or is not there and arrives. */
  lemma DownloadDoneIff(cfg: Config, c: Cache, m: Manifest, transfer: Transfer, metaError: Option<Failure>)
    requires ManifestOk(m)
    ensures var r := Download(cfg, c, m, transfer, metaError); var held := Available(cfg, c, m.sha256);
      && (r.Ok? <==> if held then c.metas[m.sha256].version == m.version
                     else Arrives(cfg, m, transfer) && metaError == None)
      && (r.Ok? ==> r.value == Artifact(m.version, m.sha256, if held then "verified-cache" else "remote"))
      && (held ==> r.writes == [])
  {
    DigestLower(m.sha256);
    LoadsIff(cfg, c, m.sha256);
    if transfer.Fetched? {
      HeaderIff(transfer.chunks);
    }
  }

  lemma DownloadLeaves(cfg: Config, c: Cache, m: Manifest, transfer: Transfer, metaError: Option<Failure>)
    requires ManifestOk(m) && !Available(cfg, c, m.sha256) && Arrives(cfg, m, transfer) && metaError == None
    ensures PutAll(c, Download(cfg, c, m, transfer, metaError).writes) ==
      c.(exes := c.exes[m.sha256 := Received(transfer.chunks)], metas := c.metas[m.sha256 := Meta(m.version, "remote")])
  {
    DigestLower(m.sha256);
    LoadsIff(cfg, c, m.sha256);
    HeaderIff(transfer.chunks);
    TwoWrites(c, PutExe(m.sha256, Received(transfer.chunks)), PutMeta(m.sha256, Meta(m.version, "remote")));
  }

  /** A pinned resolution is done exactly if the digest is there under this version, or is not and the manifest on
      record names both and its runtime arrives. */
  lemma ResolveDoneIff(cfg: Config, c: Cache, digest: string, version: string, manifest: Option<Manifest>,
                       transfer: Transfer, metaError: Option<Failure>)
    requires manifest.Some? ==> ManifestOk(manifest.value)
    ensures var d := LowerAll(digest); var r := Resolve(cfg, c, digest, version, manifest, transfer, metaError);
      && (r.Ok? <==>
            if Available(cfg, c, d) then c.metas[d].version == version
            else manifest.Some? && manifest.value.sha256 == d && manifest.value.version == version
                 && Arrives(cfg, manifest.value, transfer) && metaError == None)
      && (r.Ok? ==>
          r.value == Artifact(version, d, if Available(cfg, c, d) then "pinned-cache" else "pinned-redownload"))
  {
    LoadsIff(cfg, c, digest);
    if manifest.Some? {
      DownloadDoneIff(cfg, c, manifest.value, transfer, metaError);
    }
  }

  // ---------------------------------------------------------------- the fallback

  /** The recorded artifact can be handed out. */
  ghost predicate RecordLoads(cfg: Config, c: Cache) {
    c.state.current.Some? && Available(cfg, c, LowerAll(c.state.current.value.sha256))
  }

  /** The fallback is the recorded artifact if it loads, and otherwise the factory runtime, which then has to be
      storable. */
  lemma FallbackMeans(cfg: Config, c: Cache, factory: Option<Factory>)
    ensures var r := Fallback(cfg, c, factory);
      && (RecordLoads(cfg, c) ==>
            && r.Ok? && r.value.Some? && r.writes == []
            && var d := LowerAll(c.state.current.value.sha256);
               r.value.value == Artifact(c.metas[d].version, d, "last-known-good"))
      && (!RecordLoads(cfg, c) && factory.None? ==> r == Ok(None, []))
      && (!RecordLoads(cfg, c) && factory.Some? ==>
            && (r.Ok? <==> Storable(cfg, c, factory.value))
            && (r.Ok? ==> r.value == Some(Artifact(factory.value.version, cfg.hash(factory.value.bytes), "factory"))))
  {
    if c.state.current.Some? {
      LoadsIff(cfg, c, c.state.current.value.sha256);
    }
    if factory.Some? {
      StoreDoneIff(cfg, c, factory.value);
    }
  }

  // ---------------------------------------------------------------- refreshes that do what they are for

  /** The refresh gets as far as asking the repository. */
  ghost predicate Asks(cfg: Config, c: Cache, e: Env) {
    && e.repository && e.setupError == None && Fallback(cfg, c, e.factory).Ok?
    && (Fallback(cfg, c, e.factory).value.Some? ==> !e.recent)
  }

  /** The manifest is an update: there is nothing to fall back on, or it is newer, or the same version and digest
      again. */
  ghost predicate Updates(fallback: Option<Artifact>, m: Manifest) {
    fallback.Some? ==>
      var order := CompareVersions(m.version, fallback.value.version);
      order.Some? && (order.value > 0 || (order.value == 0 && m.sha256 == fallback.value.sha256))
  }

  /** The runtime of the manifest can be had: it is in the cache under this version, or it arrives and can be stored. */
  ghost predicate Obtained(cfg: Config, c: Cache, m: Manifest, e: Env) {
    if Available(cfg, c, m.sha256) then c.metas[m.sha256].version == m.version
    else Arrives(cfg, m, e.transfer) && e.metaError == None
  }

  /** The cache once the fallback is known. */
  function Prepared(cfg: Config, c: Cache, e: Env): Cache {
    PutAll(c, Fallback(cfg, c, e.factory).writes)
  }

  lemma ObjectionIff(fallback: Option<Artifact>, m: Manifest)
    ensures Objection(fallback, m).None? <==> Updates(fallback, m)
  {
  }

  lemma AsksOnline(cfg: Config, c: Cache, e: Env)
    requires Asks(cfg, c, e) && e.discovery.Found?
    ensures var f := Fallback(cfg, c, e.factory);
      Refresh(cfg, c, e) ==
        Install(cfg, Prepared(cfg, c, e), Recorded(c.state, f.value), f.value, e.discovery.manifest, e, f.writes)
  {
  }

  /** The stage after discovery: it ends without a failure exactly if the update can be had and recorded. */
  lemma InstallDoneIff(cfg: Config, d: Cache, state: Stored, fallback: Option<Artifact>, m: Manifest, e: Env,
                       before: seq<Write>)
    requires ManifestOk(m)
    ensures var r := Install(cfg, d, state, fallback, m, e, before);
      && (r.Ok? && !r.value.failed <==> Updates(fallback, m) && Obtained(cfg, d, m, e) && e.stateError == None)
      && (r.Ok? && !r.value.failed ==>
            && r.value.error == "" && AsCurrent(r.value.artifact) == Current(m.version, m.sha256) && r.writes != []
            && r.writes[|r.writes| - 1] == PutState(Stored(Some(Current(m.version, m.sha256)), "")))
      && (r.Ok? && r.value.failed ==> Some(r.value.artifact) == fallback)
  {
    ObjectionIff(fallback, m);
    DownloadDoneIff(cfg, d, m, e.transfer, e.metaError);
  }

  /**
    A refresh that asks the repository and is offered a manifest ends without a failure exactly if the manifest is an
    update, its runtime can be had, and the new state can be written. Then it serves exactly that version and digest,
    and leaves exactly that recorded. In every other case that answers at all it keeps the fallback.
   */
  lemma UpdateInstalledIff(cfg: Config, c: Cache, e: Env)
    requires EnvOk(e) && Asks(cfg, c, e) && e.discovery.Found?
    ensures var r := Refresh(cfg, c, e); var m := e.discovery.manifest; var f := Fallback(cfg, c, e.factory).value;
      && (r.Ok? && !r.value.failed <==>
          Updates(f, m) && Obtained(cfg, Prepared(cfg, c, e), m, e) && e.stateError == None)
      && (r.Ok? && !r.value.failed ==>
            && r.value.error == "" && AsCurrent(r.value.artifact) == Current(m.version, m.sha256)
            && PutAll(c, r.writes).state == Stored(Some(Current(m.version, m.sha256)), ""))
      && (r.Ok? && r.value.failed ==> Some(r.value.artifact) == f)
  {
    var f := Fallback(cfg, c, e.factory);
    var r := Refresh(cfg, c, e);
    AsksOnline(cfg, c, e);
    InstallDoneIff(cfg, Prepared(cfg, c, e), Recorded(c.state, f.value), f.value, e.discovery.manifest, e, f.writes);
    if r.Ok? && !r.value.failed {
      LastIsState(c, r.writes);
    }
  }

  lemma LastIsState(c: Cache, ws: seq<Write>)
    requires ws != [] && ws[|ws| - 1].PutState?
    ensures PutAll(c, ws).state == ws[|ws| - 1].state
  {
  }

  /** An answer that nothing has changed serves the fallback, if there is one and the check can be recorded. */
  lemma UnchangedServes(cfg: Config, c: Cache, e: Env)
    requires Asks(cfg, c, e) && e.discovery.NotModified?
    ensures var r := Refresh(cfg, c, e); var f := Fallback(cfg, c, e.factory).value;
      && (r.Ok? && !r.value.failed <==> f.Some? && e.stateError == None)
      && (r.Ok? ==> Some(r.value.artifact) == f)
      && (r.Ok? && !r.value.failed ==>
            && r.value.error == "" && PutAll(c, r.writes).state == Stored(Recorded(c.state, f).current, ""))
  {
    var r := Refresh(cfg, c, e);
    if r.Ok? && !r.value.failed {
      LastIsState(c, r.writes);
    }
  }

  /** A recent check spares the repository, an installation without one never asks: both serve the fallback. */
  lemma QuietServes(cfg: Config, c: Cache, e: Env)
    requires Fallback(cfg, c, e.factory).Ok?
    requires !e.repository || (e.setupError == None && e.recent && Fallback(cfg, c, e.factory).value.Some?)
    ensures var r := Refresh(cfg, c, e); var f := Fallback(cfg, c, e.factory).value;
      && (r.Ok? ==> Some(r.value.artifact) == f && !r.value.failed && r.value.error == "")
      && (e.repository ==> r.Ok?)
      && (!e.repository ==> (r.Ok? <==> f.Some? && (c.state.current.None? ==> e.stateError == None)))
  {
  }

  /** Where nothing is recorded, an installation without a repository records the factory runtime it serves. */
  lemma LocalRecords(cfg: Config, c: Cache, e: Env)
    requires !e.repository && Refresh(cfg, c, e).Ok?
    ensures var r := Refresh(cfg, c, e); var after := PutAll(c, r.writes).state;
      && (c.state.current.Some? ==> after == c.state)
      && (c.state.current.None? ==> after == Stored(Some(AsCurrent(r.value.artifact)), ""))
  {
    var r := Refresh(cfg, c, e);
    FallbackPlain(cfg, c, e.factory);
    FilesLeaveState(c, Fallback(cfg, c, e.factory).writes);
    if c.state.current.None? {
      LastIsState(c, r.writes);
    }
  }

  /** A discovery that fails is a failure of the refresh; so is one before it, and one of the fallback is passed on. */
  lemma FailureFails(cfg: Config, c: Cache, e: Env)
    requires e.repository && Fallback(cfg, c, e.factory).Ok?
    requires e.setupError.Some? || (e.discovery.Failed? && (Fallback(cfg, c, e.factory).value.Some? ==> !e.recent))
    ensures Refresh(cfg, c, e).Ok? ==> Refresh(cfg, c, e).value.failed
  {
  }

  lemma NoFallbackNoRefresh(cfg: Config, c: Cache, e: Env)
    requires Fallback(cfg, c, e.factory).Err?
    ensures Refresh(cfg, c, e) == Err(Fallback(cfg, c, e.factory).message, Fallback(cfg, c, e.factory).writes)
  {
  }
}
