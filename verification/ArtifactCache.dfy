/** The Pod runtime cache: content-addressed files, a persisted state, refresh and pinned resolution. */
module ArtifactCache {
  import opened Common
  import opened Versions

  // ---------------------------------------------------------------- files

  /** `hash` is the hex digest of SHA-256. */
  datatype Config = Config(hash: Bytes -> string, maxBytes: nat)

  datatype Meta = Meta(version: string, source: string)
  datatype Current = Current(version: string, sha256: string)
  datatype Stored = Stored(current: Option<Current>, error: string)

  /** The cache directory: pod.exe and manifest.json under each digest, and state.json. */
  datatype Cache = Cache(exes: map<string, Bytes>, metas: map<string, Meta>, state: Stored)

  /** Atomic file replacements; a crash can only fall between them. */
  datatype Write = PutExe(digest: string, bytes: Bytes) | PutMeta(digest: string, meta: Meta) | PutState(state: Stored)

  function Put(c: Cache, w: Write): Cache {
    match w
    case PutExe(d, bytes) => c.(exes := c.exes[d := bytes])
    case PutMeta(d, meta) => c.(metas := c.metas[d := meta])
    case PutState(state) => c.(state := state)
  }

  function PutAll(c: Cache, ws: seq<Write>): Cache {
    if ws == [] then c else Put(PutAll(c, ws[..|ws| - 1]), ws[|ws| - 1])
  }

  predicate IsDigest(d: string) {
    |d| == 64 && forall i | 0 <= i < 64 :: Digit(d[i]) || 'a' <= d[i] <= 'f'
  }

  /** Bytes that may be run under a digest: within the limit, a Windows executable, and hashing to it. */
  predicate Good(cfg: Config, digest: string, bytes: Bytes) {
    2 <= |bytes| <= cfg.maxBytes && bytes[0] == 77 && bytes[1] == 90 && cfg.hash(bytes) == digest
  }

  datatype Artifact = Artifact(version: string, sha256: string, source: string)

  /** What the cache holds under a digest, if its file and its metadata check out. */
  function LoadArtifact(cfg: Config, c: Cache, digest: string): Option<Artifact> {
    var d := LowerAll(digest);
    if !IsDigest(d) || d !in c.exes || !Good(cfg, d, c.exes[d]) then None
    else if d !in c.metas || Semver(c.metas[d].version).None? then None
    else Some(Artifact(c.metas[d].version, d, c.metas[d].source))
  }

  // ---------------------------------------------------------------- storing and downloading

  /** A result together with the writes made on the way. */
  datatype Outcome<T> = Ok(value: T, writes: seq<Write>) | Err(message: string, writes: seq<Write>)

  /** The factory runtime: its bytes when hashed, its bytes when copied, its configured version, and the I/O errors
      met when it is read, when its copy is put in place, and when its metadata is written. */
  datatype Factory = Factory(bytes: Bytes, copied: Bytes, version: string, readError: Option<string>,
                             copyError: Option<string>, metaError: Option<string>)

  function StoreLocal(cfg: Config, c: Cache, f: Factory): Outcome<Artifact> {
    var d := cfg.hash(f.bytes);
    if Semver(f.version).None? then Err("invalid version", [])
    else if f.readError.Some? then Err(f.readError.value, [])
    else if !Good(cfg, d, f.bytes) then Err("not a Pod executable", [])
    else
      var exe := PutExe(d, f.copied);
      if d !in c.exes && f.copyError.Some? then Err(f.copyError.value, [])
      else if d !in c.exes && (!Good(cfg, d, f.copied) || |f.copied| != |f.bytes|)
           then Err("changed while it was cached", [])
      else
        var before := if d in c.exes then [] else [exe];
        match f.metaError
        case Some(message) => Err(message, before)
        case None => Ok(Artifact(f.version, d, "factory"), before + [PutMeta(d, Meta(f.version, "factory"))])
  }

  /** A manifest whose signature and fields were verified. */
  datatype Manifest = Manifest(version: string, sha256: string, size: Option<nat>)

  predicate ManifestOk(m: Manifest) {
    Semver(m.version).Some? && Semver(m.version).value.suffix == RELEASE && IsDigest(m.sha256)
  }

  /** A transfer: the chunks read until the first empty one, or the exception it ended with. */
  datatype Transfer = Fetched(chunks: seq<Bytes>) | Broken(failure: Failure)

  /** An exception with its text: an I/O or value error is wrapped by the download, any other one passes through. */
  datatype Failure = Wrapped(text: string) | Bare(text: string)

  function Text(f: Failure): string {
    if f.Wrapped? then "Pod artifact download failed: " + f.text else f.text
  }

  function Received(chunks: seq<Bytes>): Bytes {
    if chunks == [] || chunks[0] == [] then [] else chunks[0] + Received(chunks[1..])
  }

  /** The first two bytes of the first chunk, which is all the header check looks at. */
  function Header(chunks: seq<Bytes>): Bytes {
    if chunks == [] then [] else chunks[0][..if |chunks[0]| < 2 then |chunks[0]| else 2]
  }

  const MZ: Bytes := [77, 90]

  lemma HeaderStarts(chunks: seq<Bytes>)
    requires Header(chunks) == MZ
    ensures 2 <= |Received(chunks)| && Received(chunks)[0] == 77 && Received(chunks)[1] == 90
  {
    assert Header(chunks)[0] == chunks[0][0] && Header(chunks)[1] == chunks[0][1];
  }

  /** A transfer of a runtime that would pass every other check is accepted exactly if its first chunk has both
      header bytes. */
  lemma DownloadAcceptsIff(cfg: Config, c: Cache, m: Manifest, chunks: seq<Bytes>)
    requires LoadArtifact(cfg, c, m.sha256).None?
    requires Good(cfg, m.sha256, Received(chunks)) && (m.size.Some? ==> |Received(chunks)| == m.size.value)
    ensures Download(cfg, c, m, Fetched(chunks), None).Ok? <==> |chunks[0]| >= 2
    ensures (exists size :: size >= 2 && FullReads(chunks, size)) ==> Download(cfg, c, m, Fetched(chunks), None).Ok?
  {
    if |chunks[0]| >= 2 {
      assert Received(chunks)[..2] == MZ;
      HeaderIsFirst(chunks);
    }
    if size :| size >= 2 && FullReads(chunks, size) {
      assert Received(chunks)[..2] == MZ;
      HeaderExact(chunks, size);
    }
  }

  lemma HeaderIsFirst(chunks: seq<Bytes>)
    requires chunks != [] && |chunks[0]| >= 2
    ensures Header(chunks) == MZ <==> Received(chunks)[..2] == MZ
  {
    assert Received(chunks)[..2] == chunks[0][..2];
  }

  /** Reads of `size` bytes return that much until the last one. */
  ghost predicate FullReads(chunks: seq<Bytes>, size: nat) {
    forall i :: 0 <= i < |chunks| - 1 && chunks[i] != [] && chunks[i + 1] != [] ==> |chunks[i]| == size
  }

  /** With full reads the header check is exact: it passes for the byte strings that start with MZ. */
  lemma HeaderExact(chunks: seq<Bytes>, size: nat)
    requires FullReads(chunks, size) && size >= 2
    ensures Header(chunks) == MZ <==> |Received(chunks)| >= 2 && Received(chunks)[..2] == MZ
  {
    if chunks != [] && chunks[0] != [] {
      if |chunks[0]| >= 2 {
        HeaderIsFirst(chunks);
      } else {
        assert chunks[1..] == [] || chunks[1..][0] == chunks[1];
        assert Received(chunks) == chunks[0] + [];
      }
    }
  }

  /** `metaError` is set when the metadata file cannot be written after the executable. */
  function Download(cfg: Config, c: Cache, m: Manifest, transfer: Transfer,
                    metaError: Option<Failure>): Outcome<Artifact> {
    var cached := LoadArtifact(cfg, c, m.sha256);
    if cached.Some? then
      if cached.value.version != m.version then Err("cached version differs", [])
      else Ok(cached.value.(source := "verified-cache"), [])
    else match transfer
      case Broken(failure) => Err(Text(failure), [])
      case Fetched(chunks) =>
        var bytes := Received(chunks);
        if |bytes| > cfg.maxBytes then Err("too large", [])
        else if Header(chunks) != MZ then Err("not a Windows executable", [])
        else if cfg.hash(bytes) != m.sha256 then Err("checksum mismatch", [])
        else if m.size.Some? && |bytes| != m.size.value then Err("size mismatch", [])
        else
          var exe := PutExe(m.sha256, bytes);
          match metaError
          case Some(failure) => Err(Text(failure), [exe])
          case None => Ok(Artifact(m.version, m.sha256, "remote"), [exe, PutMeta(m.sha256, Meta(m.version, "remote"))])
  }

  // ---------------------------------------------------------------- refreshing

  datatype Discovery = Found(manifest: Manifest) | NotModified | Failed(message: string)

  /** Everything outside the cache that a refresh meets. */
  datatype Env = Env(factory: Option<Factory>, repository: bool, setupError: Option<string>, recent: bool,
                     discovery: Discovery, transfer: Transfer, metaError: Option<Failure>,
                     stateError: Option<string>, reportError: Option<string>)

  /** An artifact with the error of a failed refresh; "" when the refresh did not fail. */
  datatype Served = Served(artifact: Artifact, failed: bool, error: string)

  function Fallback(cfg: Config, c: Cache, factory: Option<Factory>): Outcome<Option<Artifact>> {
    var cached := match c.state.current
                  case Some(current) => LoadArtifact(cfg, c, current.sha256)
                  case None => None;
    if cached.Some? then Ok(Some(cached.value.(source := "last-known-good")), [])
    else match factory
      case None => Ok(None, [])
      case Some(f) =>
        match StoreLocal(cfg, c, f)
        case Ok(artifact, writes) => Ok(Some(artifact), writes)
        case Err(message, writes) => Err(message, writes)
  }

  /** The state in memory once the fallback is known: it becomes current if nothing was recorded. */
  function Recorded(state: Stored, fallback: Option<Artifact>): Stored {
    if state.current.None? && fallback.Some?
    then state.(current := Some(Current(fallback.value.version, fallback.value.sha256))) else state
  }

  /** The exception handler: it records the error and serves the fallback. */
  function Report(state: Stored, fallback: Option<Artifact>, message: string, e: Env,
                  writes: seq<Write>): Outcome<Served> {
    if e.reportError.Some? then Err(e.reportError.value, writes)
    else
      var all := writes + [PutState(state.(error := message))];
      match fallback
      case Some(artifact) => Ok(Served(artifact, true, message), all)
      case None => Err(message, all)
  }

  /** Why a verified manifest is turned down, if it is. */
  function Objection(fallback: Option<Artifact>, m: Manifest): Option<string> {
    if fallback.None? then None
    else
      var order := CompareVersions(m.version, fallback.value.version);
      if order.None? then Some("invalid semantic version")
      else if order.value < 0 then Some("attempted a version downgrade")
      else if order.value == 0 && m.sha256 != fallback.value.sha256
           then Some("reused a version with a different checksum")
      else None
  }

  /** Installing a manifest: objections, download, and the write of the new state. */
  function Install(cfg: Config, c: Cache, state: Stored, fallback: Option<Artifact>, m: Manifest, e: Env,
                   before: seq<Write>): Outcome<Served> {
    if Objection(fallback, m).Some? then Report(state, fallback, Objection(fallback, m).value, e, before)
    else match Download(cfg, c, m, e.transfer, e.metaError)
      case Err(message, writes) => Report(state, fallback, message, e, before + writes)
      case Ok(artifact, writes) =>
        var next := Stored(Some(Current(artifact.version, artifact.sha256)), "");
        if e.stateError.Some? then Report(next, fallback, e.stateError.value, e, before + writes)
        else Ok(Served(artifact, false, ""), before + writes + [PutState(next)])
  }

  /** What follows an answer that offers no artifact. */
  function Answer(state: Stored, fallback: Option<Artifact>, e: Env, before: seq<Write>): Outcome<Served>
    requires !e.discovery.Found?
  {
    match e.discovery
    case Failed(message) => Report(state, fallback, message, e, before)
    case NotModified =>
      if fallback.None? then Report(state, fallback, "HTTP Error 304", e, before)
      else if e.stateError.Some? then Report(state.(error := ""), fallback, e.stateError.value, e, before)
      else Ok(Served(fallback.value, false, ""), before + [PutState(state.(error := ""))])
  }

  /** The part of a refresh that asks the repository. */
  function Online(cfg: Config, c: Cache, state: Stored, fallback: Option<Artifact>, e: Env,
                  before: seq<Write>): Outcome<Served> {
    if e.setupError.Some? then Report(state, fallback, e.setupError.value, e, before)
    else if e.recent && fallback.Some? then Ok(Served(fallback.value, false, ""), before)
    else if e.discovery.Found? then Install(cfg, PutAll(c, before), state, fallback, e.discovery.manifest, e, before)
    else Answer(state, fallback, e, before)
  }

  /** ensure_latest_pod_artifact. */
  function Refresh(cfg: Config, c: Cache, e: Env): Outcome<Served> {
    match Fallback(cfg, c, e.factory)
    case Err(message, writes) => Err(message, writes)
    case Ok(fallback, before) =>
      var state := Recorded(c.state, fallback);
      if !e.repository then
        if fallback.None? then Err("no verified Pod runtime is available", before)
        else if state == c.state then Ok(Served(fallback.value, false, ""), before)
        else if e.stateError.Some? then Err(e.stateError.value, before)
        else Ok(Served(fallback.value, false, ""), before + [PutState(state.(error := ""))])
      else Online(cfg, c, state, fallback, e, before)
  }

  /** resolve_pinned_pod_artifact; `manifest` is the stored one if it still verifies. */
  function Resolve(cfg: Config, c: Cache, digest: string, version: string, manifest: Option<Manifest>,
                   transfer: Transfer, metaError: Option<Failure>): Outcome<Artifact> {
    var cached := LoadArtifact(cfg, c, digest);
    if cached.Some? then
      if cached.value.version != version then Err("version does not match", [])
      else Ok(cached.value.(source := "pinned-cache"), [])
    else match manifest
      case None => Err("pinned runtime is unavailable", [])
      case Some(m) =>
        if m.sha256 != LowerAll(digest) then Err("manifest does not match the checksum", [])
        else if m.version != version then Err("manifest does not match the version", [])
        else match Download(cfg, c, m, transfer, metaError)
          case Err(message, writes) => Err(message, writes)
          case Ok(artifact, writes) => Ok(artifact.(source := "pinned-redownload"), writes)
  }

  // ---------------------------------------------------------------- soundness at every crash point

  /** Every cached executable is what its directory says. */
  ghost predicate Sound(cfg: Config, c: Cache) {
    forall d :: d in c.exes ==> Good(cfg, d, c.exes[d])
  }

  /** The cache holds a sound artifact of this digest and version. */
  predicate Holds(cfg: Config, c: Cache, digest: string, version: string) {
    LoadArtifact(cfg, c, digest).Some? && LoadArtifact(cfg, c, digest).value.version == version
  }

  /** The recorded current artifact is in the cache, under the recorded version. */
  ghost predicate CurrentHeld(cfg: Config, c: Cache) {
    c.state.current.Some? ==> Holds(cfg, c, c.state.current.value.sha256, c.state.current.value.version)
  }

  ghost predicate Inv(cfg: Config, c: Cache) {
    Sound(cfg, c) && CurrentHeld(cfg, c)
  }

  /** The invariant holds after every prefix of the writes, that is at every crash point. */
  ghost predicate SafeThroughout(cfg: Config, c: Cache, ws: seq<Write>) {
    forall k :: 0 <= k <= |ws| ==> Inv(cfg, PutAll(c, ws[..k]))
  }

  /** Every executable these writes put down is what its directory says. */
  ghost predicate GoodWrites(cfg: Config, ws: seq<Write>) {
    forall w :: w in ws && w.PutExe? ==> Good(cfg, w.digest, w.bytes)
  }

  predicate Rewritten(ws: seq<Write>, d: string) {
    exists w | w in ws :: w.PutExe? && w.digest == d
  }

  predicate HasGood(cfg: Config, c: Cache, d: string) {
    d in c.exes && Good(cfg, d, c.exes[d])
  }

  /** A file is good afterwards exactly if it was before or has been written; none is lost. */
  lemma {:induction false} FileAfter(cfg: Config, c: Cache, ws: seq<Write>, d: string)
    requires GoodWrites(cfg, ws)
    ensures HasGood(cfg, PutAll(c, ws), d) <==> HasGood(cfg, c, d) || Rewritten(ws, d)
    ensures d in PutAll(c, ws).exes <==> d in c.exes || Rewritten(ws, d)
    decreases |ws|
  {
    if ws != [] {
      var n := |ws| - 1;
      assert ws == ws[..n] + [ws[n]];
      FileAfter(cfg, c, ws[..n], d);
    }
  }

  /** Good writes keep a sound cache sound after each of them, whatever the state file records. */
  lemma GoodWritesSound(cfg: Config, c: Cache, ws: seq<Write>, k: nat)
    requires Sound(cfg, c) && GoodWrites(cfg, ws) && k <= |ws|
    ensures Sound(cfg, PutAll(c, ws[..k]))
  {
    var d := PutAll(c, ws[..k]);
    forall x | x in d.exes
      ensures Good(cfg, x, d.exes[x])
    {
      FileAfter(cfg, c, ws[..k], x);
    }
  }

  lemma StoreLocalGood(cfg: Config, c: Cache, f: Factory)
    ensures GoodWrites(cfg, StoreLocal(cfg, c, f).writes)
  {
  }

  lemma DownloadGood(cfg: Config, c: Cache, m: Manifest, transfer: Transfer, metaError: Option<Failure>)
    ensures GoodWrites(cfg, Download(cfg, c, m, transfer, metaError).writes)
  {
    if Download(cfg, c, m, transfer, metaError).writes != [] {
      HeaderStarts(transfer.chunks);
    }
  }

  lemma InstallGood(cfg: Config, c: Cache, state: Stored, fallback: Option<Artifact>, m: Manifest, e: Env,
                    before: seq<Write>)
    requires GoodWrites(cfg, before)
    ensures GoodWrites(cfg, Install(cfg, c, state, fallback, m, e, before).writes)
  {
    DownloadGood(cfg, c, m, e.transfer, e.metaError);
  }

  lemma OnlineGood(cfg: Config, c: Cache, state: Stored, fallback: Option<Artifact>, e: Env, before: seq<Write>)
    requires GoodWrites(cfg, before)
    ensures GoodWrites(cfg, Online(cfg, c, state, fallback, e, before).writes)
  {
    if e.discovery.Found? {
      InstallGood(cfg, PutAll(c, before), state, fallback, e.discovery.manifest, e, before);
    }
  }

  lemma FallbackGood(cfg: Config, c: Cache, factory: Option<Factory>)
    ensures GoodWrites(cfg, Fallback(cfg, c, factory).writes)
  {
    if factory.Some? {
      StoreLocalGood(cfg, c, factory.value);
    }
  }

  lemma RefreshGood(cfg: Config, c: Cache, e: Env)
    ensures GoodWrites(cfg, Refresh(cfg, c, e).writes)
  {
    var f := Fallback(cfg, c, e.factory);
    FallbackGood(cfg, c, e.factory);
    if f.Ok? {
      OnlineGood(cfg, c, Recorded(c.state, f.value), f.value, e, f.writes);
    }
  }

  /** At every crash point of storing the factory runtime, of a download, a refresh or a pinned resolution, a sound
      cache is sound; nothing is asked of the recorded artifact or of the world outside. */
  lemma StoreLocalSound(cfg: Config, c: Cache, f: Factory, k: nat)
    requires Sound(cfg, c) && k <= |StoreLocal(cfg, c, f).writes|
    ensures Sound(cfg, PutAll(c, StoreLocal(cfg, c, f).writes[..k]))
  {
    StoreLocalGood(cfg, c, f);
    GoodWritesSound(cfg, c, StoreLocal(cfg, c, f).writes, k);
  }

  lemma DownloadSound(cfg: Config, c: Cache, m: Manifest, transfer: Transfer, metaError: Option<Failure>, k: nat)
    requires Sound(cfg, c) && k <= |Download(cfg, c, m, transfer, metaError).writes|
    ensures Sound(cfg, PutAll(c, Download(cfg, c, m, transfer, metaError).writes[..k]))
  {
    DownloadGood(cfg, c, m, transfer, metaError);
    GoodWritesSound(cfg, c, Download(cfg, c, m, transfer, metaError).writes, k);
  }

  lemma RefreshSound(cfg: Config, c: Cache, e: Env, k: nat)
    requires Sound(cfg, c) && k <= |Refresh(cfg, c, e).writes|
    ensures Sound(cfg, PutAll(c, Refresh(cfg, c, e).writes[..k]))
  {
    RefreshGood(cfg, c, e);
    GoodWritesSound(cfg, c, Refresh(cfg, c, e).writes, k);
  }

  lemma ResolveSound(cfg: Config, c: Cache, digest: string, version: string, manifest: Option<Manifest>,
                     transfer: Transfer, metaError: Option<Failure>, k: nat)
    requires Sound(cfg, c) && k <= |Resolve(cfg, c, digest, version, manifest, transfer, metaError).writes|
    ensures Sound(cfg, PutAll(c, Resolve(cfg, c, digest, version, manifest, transfer, metaError).writes[..k]))
  {
    if manifest.Some? {
      DownloadGood(cfg, c, manifest.value, transfer, metaError);
    }
    GoodWritesSound(cfg, c, Resolve(cfg, c, digest, version, manifest, transfer, metaError).writes, k);
  }

  /** What a download returns is in the cache, whatever else the cache holds. */
  lemma DownloadHolds(cfg: Config, c: Cache, m: Manifest, transfer: Transfer, metaError: Option<Failure>)
    requires ManifestOk(m) && Download(cfg, c, m, transfer, metaError).Ok?
    ensures var r := Download(cfg, c, m, transfer, metaError);
            r.value.version == m.version && r.value.sha256 == m.sha256
              && Holds(cfg, PutAll(c, r.writes), m.sha256, m.version)
  {
    var r := Download(cfg, c, m, transfer, metaError);
    DigestLower(m.sha256);
    if r.writes != [] {
      HeaderStarts(transfer.chunks);
      TwoWrites(c, r.writes[0], r.writes[1]);
      assert r.writes == [r.writes[0], r.writes[1]];
    }
  }

  lemma TwoWrites(c: Cache, a: Write, b: Write)
    ensures PutAll(c, [a]) == Put(c, a) && PutAll(c, [a, b]) == Put(Put(c, a), b)
  {
    assert [a][..0] == [] && [a, b][..1] == [a];
  }

  /** Pinned resolution gives exactly the digest and version asked for, and it is in the cache, or it fails. */
  lemma ResolveExact(cfg: Config, c: Cache, digest: string, version: string, manifest: Option<Manifest>,
                     transfer: Transfer, metaError: Option<Failure>)
    requires manifest.Some? ==> ManifestOk(manifest.value)
    ensures var r := Resolve(cfg, c, digest, version, manifest, transfer, metaError);
            r.Ok? ==> r.value.sha256 == LowerAll(digest) && r.value.version == version
                      && Holds(cfg, PutAll(c, r.writes), digest, version)
  {
    if manifest.Some? && Resolve(cfg, c, digest, version, manifest, transfer, metaError).Ok?
      && LoadArtifact(cfg, c, digest).None? {
      DownloadHolds(cfg, c, manifest.value, transfer, metaError);
      DigestLower(manifest.value.sha256);
    }
  }

  ghost predicate EnvOk(e: Env) {
    e.discovery.Found? ==> ManifestOk(e.discovery.manifest)
  }

  lemma {:induction false} PutAllAppend(c: Cache, a: seq<Write>, b: seq<Write>)
    ensures PutAll(c, a + b) == PutAll(PutAll(c, a), b)
    decreases |b|
  {
    if b == [] {
      assert a + b == a;
    } else {
      assert (a + b)[..|a + b| - 1] == a + b[..|b| - 1];
      PutAllAppend(c, a, b[..|b| - 1]);
    }
  }

  lemma SafeAppend(cfg: Config, c: Cache, a: seq<Write>, b: seq<Write>)
    requires SafeThroughout(cfg, c, a) && SafeThroughout(cfg, PutAll(c, a), b)
    ensures SafeThroughout(cfg, c, a + b)
  {
    forall k | 0 <= k <= |a + b|
      ensures Inv(cfg, PutAll(c, (a + b)[..k]))
    {
      if k <= |a| {
        assert (a + b)[..k] == a[..k];
      } else {
        assert (a + b)[..k] == a + b[..k - |a|];
        PutAllAppend(c, a, b[..k - |a|]);
      }
    }
  }

  lemma SafeOne(cfg: Config, c: Cache, w: Write)
    requires Inv(cfg, c) && Inv(cfg, Put(c, w))
    ensures SafeThroughout(cfg, c, [w]) && PutAll(c, [w]) == Put(c, w)
  {
    assert [w][..0] == [];
    assert [w][..1] == [w];
  }

  lemma SafeTwo(cfg: Config, c: Cache, a: Write, b: Write)
    requires Inv(cfg, c) && Inv(cfg, Put(c, a)) && Inv(cfg, Put(Put(c, a), b))
    ensures SafeThroughout(cfg, c, [a, b]) && PutAll(c, [a, b]) == Put(Put(c, a), b)
  {
    SafeOne(cfg, c, a);
    SafeOne(cfg, Put(c, a), b);
    SafeAppend(cfg, c, [a], [b]);
    TwoWrites(c, a, b);
    assert [a] + [b] == [a, b];
  }

  lemma SafeNone(cfg: Config, c: Cache)
    requires Inv(cfg, c)
    ensures SafeThroughout(cfg, c, []) && PutAll(c, []) == c
  {
  }

  /** Metadata may change under any digest that is not a loadable current one. */
  lemma PutMetaSafe(cfg: Config, c: Cache, d: string, meta: Meta)
    requires Inv(cfg, c) && (c.state.current.Some? ==> LowerAll(c.state.current.value.sha256) != d)
    ensures Inv(cfg, Put(c, PutMeta(d, meta)))
  {
  }

  lemma DigestLower(d: string)
    requires IsDigest(d)
    ensures LowerAll(d) == d
  {
  }

  lemma StoreOverSafe(cfg: Config, c: Cache, f: Factory)
    requires Inv(cfg, c) && c.state.current.None? && cfg.hash(f.bytes) in c.exes
    ensures SafeThroughout(cfg, c, StoreLocal(cfg, c, f).writes)
  {
    SafeNone(cfg, c);
    SafeOne(cfg, c, PutMeta(cfg.hash(f.bytes), Meta(f.version, "factory")));
  }

  lemma StoreCopySafe(cfg: Config, c: Cache, f: Factory)
    requires Inv(cfg, c) && c.state.current.None? && cfg.hash(f.bytes) !in c.exes
    ensures SafeThroughout(cfg, c, StoreLocal(cfg, c, f).writes)
  {
    var r := StoreLocal(cfg, c, f);
    var exe, meta := PutExe(cfg.hash(f.bytes), f.copied), PutMeta(cfg.hash(f.bytes), Meta(f.version, "factory"));
    SafeNone(cfg, c);
    if r.writes != [] {
      SafeOne(cfg, c, exe);
      SafeTwo(cfg, c, exe, meta);
      assert [exe] + [meta] == [exe, meta];
    }
  }

  lemma StoreLocalLoads(cfg: Config, c: Cache, f: Factory)
    requires Sound(cfg, c) && IsDigest(cfg.hash(f.bytes))
    ensures var r := StoreLocal(cfg, c, f);
      && PutAll(c, r.writes).state == c.state
      && (r.Ok? ==>
          r.value.sha256 == cfg.hash(f.bytes)
            && LoadArtifact(cfg, PutAll(c, r.writes), r.value.sha256) == Some(r.value))
  {
    var exe, meta := PutExe(cfg.hash(f.bytes), f.copied), PutMeta(cfg.hash(f.bytes), Meta(f.version, "factory"));
    DigestLower(cfg.hash(f.bytes));
    TwoWrites(c, exe, meta);
    TwoWrites(c, meta, meta);
    assert [exe] + [meta] == [exe, meta] && [] + [meta] == [meta];
  }

  lemma StoreLocalSafe(cfg: Config, c: Cache, f: Factory)
    requires Inv(cfg, c) && c.state.current.None? && IsDigest(cfg.hash(f.bytes))
    ensures var r := StoreLocal(cfg, c, f);
      && SafeThroughout(cfg, c, r.writes)
      && PutAll(c, r.writes).state == c.state
      && (r.Ok? ==>
          r.value.sha256 == cfg.hash(f.bytes)
            && LoadArtifact(cfg, PutAll(c, r.writes), r.value.sha256) == Some(r.value))
  {
    StoreLocalLoads(cfg, c, f);
    if cfg.hash(f.bytes) in c.exes {
      StoreOverSafe(cfg, c, f);
    } else {
      StoreCopySafe(cfg, c, f);
    }
  }

  lemma DownloadSafe(cfg: Config, c: Cache, m: Manifest, transfer: Transfer, metaError: Option<Failure>)
    requires Inv(cfg, c) && ManifestOk(m)
    ensures var r := Download(cfg, c, m, transfer, metaError);
      && SafeThroughout(cfg, c, r.writes)
      && PutAll(c, r.writes).state == c.state
  {
    var r := Download(cfg, c, m, transfer, metaError);
    DigestLower(m.sha256);
    SafeNone(cfg, c);
    if r.writes != [] {
      HeaderStarts(transfer.chunks);
      var exe := PutExe(m.sha256, Received(transfer.chunks));
      SafeOne(cfg, c, exe);
      if r.Ok? {
        PutMetaSafe(cfg, Put(c, exe), m.sha256, Meta(m.version, "remote"));
        SafeTwo(cfg, c, exe, PutMeta(m.sha256, Meta(m.version, "remote")));
      }
    }
  }

  /** SHA-256 digests are 64 lower-case hex digits. */
  ghost predicate HexHash(cfg: Config) {
    forall bytes :: IsDigest(cfg.hash(bytes))
  }

  lemma FallbackSafe(cfg: Config, c: Cache, factory: Option<Factory>)
    requires Inv(cfg, c) && HexHash(cfg)
    ensures var r := Fallback(cfg, c, factory);
      && SafeThroughout(cfg, c, r.writes)
      && PutAll(c, r.writes).state == c.state
      && (r.Ok? && r.value.Some? ==> Holds(cfg, PutAll(c, r.writes), r.value.value.sha256, r.value.value.version))
      && (c.state.current.Some? ==>
          r.Ok? && r.value.Some? && r.writes == [] && r.value.value.version == c.state.current.value.version)
      && (c.state.current.Some? ==> r.value.value.sha256 == LowerAll(c.state.current.value.sha256))
  {
    SafeNone(cfg, c);
    if c.state.current.None? && factory.Some? {
      StoreLocalSafe(cfg, c, factory.value);
    }
    if c.state.current.Some? {
      DigestLower(LowerAll(c.state.current.value.sha256));
    }
  }

  /** A state that may be recorded now: its current artifact is the recorded one, or one the cache holds. */
  predicate StateFits(cfg: Config, c: Cache, state: Stored) {
    state.current == c.state.current
      || (state.current.Some? && Holds(cfg, c, state.current.value.sha256, state.current.value.version))
  }

  predicate FallbackFits(cfg: Config, c: Cache, fallback: Option<Artifact>) {
    fallback.Some? ==> Holds(cfg, c, fallback.value.sha256, fallback.value.version)
  }

  lemma PutStateSafe(cfg: Config, c: Cache, state: Stored)
    requires Inv(cfg, c)
    requires StateFits(cfg, c, state)
    ensures Inv(cfg, Put(c, PutState(state)))
  {
  }

  /** Writes that are safe, followed by one that records a state whose current artifact is held, are safe. */
  lemma SafeThenState(cfg: Config, c: Cache, ws: seq<Write>, state: Stored)
    requires SafeThroughout(cfg, c, ws)
    requires StateFits(cfg, PutAll(c, ws), state)
    ensures SafeThroughout(cfg, c, ws + [PutState(state)])
    ensures PutAll(c, ws + [PutState(state)]) == Put(PutAll(c, ws), PutState(state))
  {
    var d := PutAll(c, ws);
    assert ws[..|ws|] == ws;
    PutStateSafe(cfg, d, state);
    SafeOne(cfg, d, PutState(state));
    SafeAppend(cfg, c, ws, [PutState(state)]);
    PutAllAppend(c, ws, [PutState(state)]);
  }

  /** What a refresh does to the recorded current artifact, and what it serves. */
  ghost predicate RefreshOk(cfg: Config, c: Cache, r: Outcome<Served>) {
    && SafeThroughout(cfg, c, r.writes)
    && (r.Ok? ==> Holds(cfg, PutAll(c, r.writes), r.value.artifact.sha256, r.value.artifact.version))
  }

  lemma ReportSafe(cfg: Config, c: Cache, state: Stored, fallback: Option<Artifact>, message: string, e: Env,
                   writes: seq<Write>)
    requires SafeThroughout(cfg, c, writes)
    requires StateFits(cfg, PutAll(c, writes), state) && FallbackFits(cfg, PutAll(c, writes), fallback)
    ensures RefreshOk(cfg, c, Report(state, fallback, message, e, writes))
  {
    if e.reportError.None? {
      SafeThenState(cfg, c, writes, state.(error := message));
    }
  }

  /** Downloading never spoils an artifact the cache already holds. */
  lemma DownloadKeeps(cfg: Config, c: Cache, m: Manifest, transfer: Transfer, metaError: Option<Failure>,
                      digest: string, version: string)
    requires Inv(cfg, c) && ManifestOk(m) && Holds(cfg, c, digest, version)
    ensures Holds(cfg, PutAll(c, Download(cfg, c, m, transfer, metaError).writes), digest, version)
  {
    var r := Download(cfg, c, m, transfer, metaError);
    DigestLower(m.sha256);
    if r.writes != [] {
      HeaderStarts(transfer.chunks);
      var exe := PutExe(m.sha256, Received(transfer.chunks));
      assert PutAll(c, [exe]) == Put(c, exe) by {
        assert [exe][..0] == [];
      }
      if |r.writes| == 2 {
        PutAllAppend(c, [exe], [r.writes[1]]);
        assert [exe] + [r.writes[1]] == r.writes;
        assert [r.writes[1]][..0] == [];
      }
    }
  }

  /** After the download the earlier writes and the download's own are safe, and state and fallback still fit. */
  lemma DownloadStage(cfg: Config, c0: Cache, state: Stored, fallback: Option<Artifact>, m: Manifest, e: Env,
                      before: seq<Write>)
    requires SafeThroughout(cfg, c0, before) && ManifestOk(m)
    requires StateFits(cfg, PutAll(c0, before), state) && FallbackFits(cfg, PutAll(c0, before), fallback)
    ensures var r := Download(cfg, PutAll(c0, before), m, e.transfer, e.metaError);
      var d := PutAll(c0, before + r.writes);
      && SafeThroughout(cfg, c0, before + r.writes)
      && StateFits(cfg, d, state) && FallbackFits(cfg, d, fallback)
      && d.state == PutAll(c0, before).state
      && (r.Ok? ==> r.value.version == m.version && r.value.sha256 == m.sha256 && Holds(cfg, d, m.sha256, m.version))
  {
    var c := PutAll(c0, before);
    assert before[..|before|] == before;
    var r := Download(cfg, c, m, e.transfer, e.metaError);
    DownloadSafe(cfg, c, m, e.transfer, e.metaError);
    if r.Ok? {
      DownloadHolds(cfg, c, m, e.transfer, e.metaError);
    }
    SafeAppend(cfg, c0, before, r.writes);
    PutAllAppend(c0, before, r.writes);
    if fallback.Some? {
      DownloadKeeps(cfg, c, m, e.transfer, e.metaError, fallback.value.sha256, fallback.value.version);
    }
    if state.current.Some? && Holds(cfg, c, state.current.value.sha256, state.current.value.version) {
      DownloadKeeps(cfg, c, m, e.transfer, e.metaError, state.current.value.sha256, state.current.value.version);
    }
  }

  lemma RecordedSafe(cfg: Config, c0: Cache, next: Stored, served: Artifact, writes: seq<Write>)
    requires SafeThroughout(cfg, c0, writes) && StateFits(cfg, PutAll(c0, writes), next)
    requires Holds(cfg, PutAll(c0, writes), served.sha256, served.version)
    ensures RefreshOk(cfg, c0, Ok(Served(served, false, ""), writes + [PutState(next)]))
  {
    SafeThenState(cfg, c0, writes, next);
  }

  /** The last stage: the new state is written, or its failure is reported. */
  lemma RecordSafe(cfg: Config, c0: Cache, next: Stored, fallback: Option<Artifact>, served: Artifact, e: Env,
                   writes: seq<Write>)
    requires SafeThroughout(cfg, c0, writes)
    requires StateFits(cfg, PutAll(c0, writes), next) && FallbackFits(cfg, PutAll(c0, writes), fallback)
    requires Holds(cfg, PutAll(c0, writes), served.sha256, served.version)
    ensures RefreshOk(cfg, c0, if e.stateError.Some? then Report(next, fallback, e.stateError.value, e, writes)
                               else Ok(Served(served, false, ""), writes + [PutState(next)]))
  {
    if e.stateError.Some? {
      ReportSafe(cfg, c0, next, fallback, e.stateError.value, e, writes);
    } else {
      RecordedSafe(cfg, c0, next, served, writes);
    }
  }

  lemma InstalledSafe(cfg: Config, c0: Cache, state: Stored, fallback: Option<Artifact>, m: Manifest, e: Env,
                      before: seq<Write>)
    requires SafeThroughout(cfg, c0, before) && ManifestOk(m) && Objection(fallback, m).None?
    requires StateFits(cfg, PutAll(c0, before), state) && FallbackFits(cfg, PutAll(c0, before), fallback)
    ensures RefreshOk(cfg, c0, Install(cfg, PutAll(c0, before), state, fallback, m, e, before))
  {
    var r := Download(cfg, PutAll(c0, before), m, e.transfer, e.metaError);
    DownloadStage(cfg, c0, state, fallback, m, e, before);
    if r.Err? {
      ReportSafe(cfg, c0, state, fallback, r.message, e, before + r.writes);
    } else {
      RecordSafe(cfg, c0, Stored(Some(Current(r.value.version, r.value.sha256)), ""), fallback, r.value, e,
                 before + r.writes);
    }
  }

  lemma InstallSafe(cfg: Config, c0: Cache, state: Stored, fallback: Option<Artifact>, m: Manifest, e: Env,
                    before: seq<Write>)
    requires SafeThroughout(cfg, c0, before) && ManifestOk(m)
    requires StateFits(cfg, PutAll(c0, before), state) && FallbackFits(cfg, PutAll(c0, before), fallback)
    ensures RefreshOk(cfg, c0, Install(cfg, PutAll(c0, before), state, fallback, m, e, before))
  {
    if Objection(fallback, m).Some? {
      ReportSafe(cfg, c0, state, fallback, Objection(fallback, m).value, e, before);
    } else {
      InstalledSafe(cfg, c0, state, fallback, m, e, before);
    }
  }

  lemma LocalSafe(cfg: Config, c: Cache, e: Env)
    requires Inv(cfg, c) && HexHash(cfg) && !e.repository && Fallback(cfg, c, e.factory).Ok?
    ensures RefreshOk(cfg, c, Refresh(cfg, c, e))
  {
    var f := Fallback(cfg, c, e.factory);
    FallbackSafe(cfg, c, e.factory);
    SafeThenState(cfg, c, f.writes, Recorded(c.state, f.value).(error := ""));
  }

  /**
    A refresh is sound at every crash point: whatever happens outside, each file it leaves is what its directory says,
    the recorded current artifact stays loadable, and the artifact it serves is one of those files.
   */
  lemma RefreshSafe(cfg: Config, c: Cache, e: Env)
    requires Inv(cfg, c) && HexHash(cfg) && EnvOk(e)
    ensures RefreshOk(cfg, c, Refresh(cfg, c, e))
  {
    var f := Fallback(cfg, c, e.factory);
    FallbackSafe(cfg, c, e.factory);
    if f.Ok? {
      if e.repository {
        OnlineSafe(cfg, c, Recorded(c.state, f.value), f.value, e, f.writes);
      } else {
        LocalSafe(cfg, c, e);
      }
    }
  }

  lemma UnchangedSafe(cfg: Config, c: Cache, state: Stored, fallback: Option<Artifact>, e: Env, before: seq<Write>)
    requires SafeThroughout(cfg, c, before) && e.discovery.NotModified?
    requires StateFits(cfg, PutAll(c, before), state) && FallbackFits(cfg, PutAll(c, before), fallback)
    ensures RefreshOk(cfg, c, Answer(state, fallback, e, before))
  {
    if fallback.None? {
      ReportSafe(cfg, c, state, fallback, "HTTP Error 304", e, before);
    } else {
      RecordSafe(cfg, c, state.(error := ""), fallback, fallback.value, e, before);
    }
  }

  /** What the repository's answer leads to. */
  lemma AnswerSafe(cfg: Config, c: Cache, state: Stored, fallback: Option<Artifact>, e: Env, before: seq<Write>)
    requires SafeThroughout(cfg, c, before) && EnvOk(e) && !e.discovery.Found?
    requires StateFits(cfg, PutAll(c, before), state) && FallbackFits(cfg, PutAll(c, before), fallback)
    ensures RefreshOk(cfg, c, Answer(state, fallback, e, before))
  {
    if e.discovery.Failed? {
      ReportSafe(cfg, c, state, fallback, e.discovery.message, e, before);
    } else {
      UnchangedSafe(cfg, c, state, fallback, e, before);
    }
  }

  lemma OnlineSafe(cfg: Config, c: Cache, state: Stored, fallback: Option<Artifact>, e: Env, before: seq<Write>)
    requires SafeThroughout(cfg, c, before) && EnvOk(e)
    requires StateFits(cfg, PutAll(c, before), state) && FallbackFits(cfg, PutAll(c, before), fallback)
    ensures RefreshOk(cfg, c, Online(cfg, c, state, fallback, e, before))
  {
    if e.setupError.Some? {
      ReportSafe(cfg, c, state, fallback, e.setupError.value, e, before);
    } else if !(e.recent && fallback.Some?) {
      if e.discovery.Found? {
        InstallSafe(cfg, c, state, fallback, e.discovery.manifest, e, before);
      } else {
        AnswerSafe(cfg, c, state, fallback, e, before);
      }
    }
  }

  /** Pinned resolution is as safe. */
  lemma ResolveSafe(cfg: Config, c: Cache, digest: string, version: string, manifest: Option<Manifest>,
                    transfer: Transfer, metaError: Option<Failure>)
    requires Inv(cfg, c) && (manifest.Some? ==> ManifestOk(manifest.value))
    ensures var r := Resolve(cfg, c, digest, version, manifest, transfer, metaError);
      && SafeThroughout(cfg, c, r.writes)
      && PutAll(c, r.writes).state == c.state
  {
    SafeNone(cfg, c);
    if manifest.Some? {
      DownloadSafe(cfg, c, manifest.value, transfer, metaError);
    }
  }

  // ---------------------------------------------------------------- versions never go back

  /** The later record is no older, and an equal version means the same artifact. */
  ghost predicate NotBelow(a: Current, b: Option<Current>) {
    && b.Some?
    && CompareVersions(b.value.version, a.version).Some?
    && CompareVersions(b.value.version, a.version).value >= 0
    && (CompareVersions(b.value.version, a.version).value == 0 ==> LowerAll(b.value.sha256) == LowerAll(a.sha256))
  }

  lemma NotBelowSelf(a: Current)
    requires Semver(a.version).Some?
    ensures NotBelow(a, Some(a))
  {
    CompareVersionsTotal(a.version, a.version, a.version);
  }

  lemma NotBelowChain(a: Current, b: Current, c: Option<Current>)
    requires NotBelow(a, Some(b)) && NotBelow(b, c)
    ensures NotBelow(a, c)
  {
    var x, y, z := Semver(a.version).value, Semver(b.version).value, Semver(c.value.version).value;
    CompareOrders();
    assert Compare(x, y) == -Compare(y, x) && Compare(y, z) == -Compare(z, y) && Compare(x, z) == -Compare(z, x);
    assert Compare(x, y) < 0 && Compare(y, z) < 0 ==> Compare(x, z) < 0;
    assert (Compare(x, y) == 0 <==> x == y) && (Compare(y, z) == 0 <==> y == z);
  }

  /** No write records anything below `floor`. */
  ghost predicate WritesNotBelow(floor: Current, ws: seq<Write>) {
    forall w :: w in ws && w.PutState? ==> NotBelow(floor, w.state.current)
  }

  lemma {:induction false} PrefixNotBelow(c: Cache, floor: Current, ws: seq<Write>, k: nat)
    requires NotBelow(floor, c.state.current) && WritesNotBelow(floor, ws) && k <= |ws|
    ensures NotBelow(floor, PutAll(c, ws[..k]).state.current)
  {
    if k > 0 {
      assert ws[..k][..k - 1] == ws[..k - 1] && ws[k - 1] in ws;
      PrefixNotBelow(c, floor, ws, k - 1);
    }
  }

  lemma WritesAppend(floor: Current, a: seq<Write>, w: Write)
    requires WritesNotBelow(floor, a) && (w.PutState? ==> NotBelow(floor, w.state.current))
    ensures WritesNotBelow(floor, a + [w])
  {
  }

  lemma ReportNotBelow(floor: Current, state: Stored, fallback: Option<Artifact>, message: string, e: Env,
                       writes: seq<Write>)
    requires WritesNotBelow(floor, writes) && NotBelow(floor, state.current)
    ensures WritesNotBelow(floor, Report(state, fallback, message, e, writes).writes)
  {
    WritesAppend(floor, writes, PutState(state.(error := message)));
  }

  /** A manifest that raises no objection against the fallback is not below it. */
  lemma NoObjection(floor: Current, fallback: Artifact, m: Manifest)
    requires fallback.version == floor.version && fallback.sha256 == LowerAll(floor.sha256)
    requires ManifestOk(m) && Objection(Some(fallback), m).None?
    ensures NotBelow(floor, Some(Current(m.version, m.sha256)))
  {
    DigestLower(m.sha256);
  }

  lemma DownloadPlain(cfg: Config, c: Cache, m: Manifest, transfer: Transfer, metaError: Option<Failure>)
    requires ManifestOk(m)
    ensures var r := Download(cfg, c, m, transfer, metaError);
      && (forall w :: w in r.writes ==> !w.PutState?)
      && (r.Ok? ==> r.value.version == m.version && r.value.sha256 == m.sha256)
  {
    DigestLower(m.sha256);
  }

  lemma InstalledNotBelow(cfg: Config, c: Cache, state: Stored, fallback: Artifact, m: Manifest, e: Env, floor: Current)
    requires ManifestOk(m) && NotBelow(floor, state.current) && Objection(Some(fallback), m).None?
    requires NotBelow(floor, Some(Current(m.version, m.sha256)))
    ensures WritesNotBelow(floor, Install(cfg, c, state, Some(fallback), m, e, []).writes)
  {
    DownloadPlain(cfg, c, m, e.transfer, e.metaError);
    var r := Download(cfg, c, m, e.transfer, e.metaError);
    assert [] + r.writes == r.writes;
    if r.Err? {
      ReportNotBelow(floor, state, Some(fallback), r.message, e, r.writes);
    } else {
      var next := Stored(Some(Current(r.value.version, r.value.sha256)), "");
      if e.stateError.Some? {
        ReportNotBelow(floor, next, Some(fallback), e.stateError.value, e, r.writes);
      } else {
        WritesAppend(floor, r.writes, PutState(next));
      }
    }
  }

  lemma InstallNotBelow(cfg: Config, c: Cache, state: Stored, fallback: Artifact, m: Manifest, e: Env, floor: Current)
    requires Inv(cfg, c) && ManifestOk(m) && NotBelow(floor, state.current)
    requires fallback.version == floor.version && fallback.sha256 == LowerAll(floor.sha256)
    ensures WritesNotBelow(floor, Install(cfg, c, state, Some(fallback), m, e, []).writes)
  {
    if Objection(Some(fallback), m).Some? {
      ReportNotBelow(floor, state, Some(fallback), Objection(Some(fallback), m).value, e, []);
    } else {
      NoObjection(floor, fallback, m);
      InstalledNotBelow(cfg, c, state, fallback, m, e, floor);
    }
  }

  lemma RefreshNotBelow(cfg: Config, c: Cache, e: Env)
    requires Inv(cfg, c) && HexHash(cfg) && EnvOk(e) && c.state.current.Some?
    ensures WritesNotBelow(c.state.current.value, Refresh(cfg, c, e).writes)
  {
    var floor := c.state.current.value;
    FallbackSafe(cfg, c, e.factory);
    NotBelowSelf(floor);
    var f := Fallback(cfg, c, e.factory);
    if e.repository && e.setupError.Some? {
      ReportNotBelow(floor, c.state, f.value, e.setupError.value, e, []);
    } else if e.repository && !e.recent {
      match e.discovery {
        case Failed(message) => ReportNotBelow(floor, c.state, f.value, message, e, []);
        case NotModified =>
          if e.stateError.Some? {
            ReportNotBelow(floor, c.state.(error := ""), f.value, e.stateError.value, e, []);
          } else {
            WritesAppend(floor, [], PutState(c.state.(error := "")));
          }
        case Found(m) => InstallNotBelow(cfg, c, c.state, f.value.value, m, e, floor);
      }
    }
  }

  /** One event of the cache's life: a refresh or a pinned resolution, cut short after any number of its writes. */
  datatype Event = Refreshing(e: Env) | Resolving(digest: string, version: string, manifest: Option<Manifest>,
                              transfer: Transfer, metaError: Option<Failure>)

  function Writes(cfg: Config, c: Cache, event: Event): seq<Write> {
    match event
    case Refreshing(e) => Refresh(cfg, c, e).writes
    case Resolving(digest, version, manifest, transfer, metaError) =>
      Resolve(cfg, c, digest, version, manifest, transfer, metaError).writes
  }

  ghost predicate EventOk(event: Event) {
    match event
    case Refreshing(e) => EnvOk(e)
    case Resolving(_, _, manifest, _, _) => manifest.Some? ==> ManifestOk(manifest.value)
  }

  /** The cache after each event, with crashes anywhere. */
  ghost predicate Unfolds(cfg: Config, caches: seq<Cache>, events: seq<Event>, cuts: seq<nat>) {
    && |caches| == |events| + 1 && |cuts| == |events|
    && forall i :: 0 <= i < |events| ==>
         cuts[i] <= |Writes(cfg, caches[i], events[i])|
         && caches[i + 1] == PutAll(caches[i], Writes(cfg, caches[i], events[i])[..cuts[i]])
  }

  /** A history that starts with a recorded artifact that loads, or none. */
  ghost predicate IsHistory(cfg: Config, caches: seq<Cache>, events: seq<Event>, cuts: seq<nat>) {
    && HexHash(cfg) && Unfolds(cfg, caches, events, cuts)
    && Inv(cfg, caches[0])
    && forall i :: 0 <= i < |events| ==> EventOk(events[i])
  }

  /** Over every history, crashes included, every file stays what its directory says, whatever is recorded. */
  lemma {:induction false} HistorySound(cfg: Config, caches: seq<Cache>, events: seq<Event>, cuts: seq<nat>, i: nat)
    requires Unfolds(cfg, caches, events, cuts) && Sound(cfg, caches[0]) && i <= |events|
    ensures Sound(cfg, caches[i])
  {
    if i > 0 {
      HistorySound(cfg, caches, events, cuts, i - 1);
      var c, event := caches[i - 1], events[i - 1];
      assert caches[i - 1 + 1] == PutAll(c, Writes(cfg, c, event)[..cuts[i - 1]]);
      match event {
        case Refreshing(e) => RefreshSound(cfg, c, e, cuts[i - 1]);
        case Resolving(digest, version, manifest, transfer, metaError) =>
          ResolveSound(cfg, c, digest, version, manifest, transfer, metaError, cuts[i - 1]);
      }
    }
  }

  lemma EventSafe(cfg: Config, c: Cache, event: Event, cut: nat)
    requires HexHash(cfg) && Inv(cfg, c) && EventOk(event) && cut <= |Writes(cfg, c, event)|
    ensures Inv(cfg, PutAll(c, Writes(cfg, c, event)[..cut]))
  {
    match event {
      case Refreshing(e) => RefreshSafe(cfg, c, e);
      case Resolving(digest, version, manifest, transfer, metaError) =>
        ResolveSafe(cfg, c, digest, version, manifest, transfer, metaError);
    }
  }

  lemma EventNotBelow(cfg: Config, c: Cache, event: Event, cut: nat)
    requires HexHash(cfg) && Inv(cfg, c) && EventOk(event) && cut <= |Writes(cfg, c, event)| && c.state.current.Some?
    ensures NotBelow(c.state.current.value, PutAll(c, Writes(cfg, c, event)[..cut]).state.current)
  {
    var ws := Writes(cfg, c, event);
    NotBelowSelf(c.state.current.value);
    if event.Refreshing? {
      RefreshNotBelow(cfg, c, event.e);
    }
    PrefixNotBelow(c, c.state.current.value, ws, cut);
  }

  /** A recorded artifact that loads at the start loads at every moment of a history. */
  lemma {:induction false} HistoryHolds(cfg: Config, caches: seq<Cache>, events: seq<Event>, cuts: seq<nat>, i: nat)
    requires IsHistory(cfg, caches, events, cuts) && i <= |events|
    ensures Inv(cfg, caches[i])
  {
    if i > 0 {
      HistoryHolds(cfg, caches, events, cuts, i - 1);
      EventSafe(cfg, caches[i - 1], events[i - 1], cuts[i - 1]);
    }
  }

  lemma HistoryStep(cfg: Config, caches: seq<Cache>, events: seq<Event>, cuts: seq<nat>, i: nat)
    requires IsHistory(cfg, caches, events, cuts) && i < |events| && caches[i].state.current.Some?
    ensures NotBelow(caches[i].state.current.value, caches[i + 1].state.current)
    ensures Semver(caches[i].state.current.value.version).Some?
  {
    HistoryHolds(cfg, caches, events, cuts, i);
    EventNotBelow(cfg, caches[i], events[i], cuts[i]);
  }

  /** A recorded artifact is followed by one that is not below it. */
  ghost predicate Follows(a: Option<Current>, b: Option<Current>) {
    a.Some? ==> Semver(a.value.version).Some? && NotBelow(a.value, b)
  }

  lemma FollowsChain(a: Option<Current>, b: Option<Current>, c: Option<Current>)
    requires Follows(a, b) && Follows(b, c)
    ensures Follows(a, c)
  {
    if a.Some? {
      NotBelowChain(a.value, b.value, c);
    }
  }

  lemma {:induction false} FollowsForever(records: seq<Option<Current>>, i: nat, j: nat)
    requires i < j < |records| && forall k :: 0 <= k < |records| - 1 ==> Follows(records[k], records[k + 1])
    ensures Follows(records[i], records[j])
    decreases j
  {
    if i + 1 < j {
      FollowsForever(records, i, j - 1);
      assert Follows(records[j - 1], records[j - 1 + 1]);
      FollowsChain(records[i], records[j - 1], records[j]);
    } else {
      assert Follows(records[i], records[i + 1]);
    }
  }

  /** Over every history, crashes included, the recorded version never decreases, and equal versions keep their
      digest. */
  lemma VersionsNeverDecrease(cfg: Config, caches: seq<Cache>, events: seq<Event>, cuts: seq<nat>, i: nat, j: nat)
    requires IsHistory(cfg, caches, events, cuts) && i < j <= |events| && caches[i].state.current.Some?
    ensures NotBelow(caches[i].state.current.value, caches[j].state.current)
  {
    var records := seq(|caches|, k requires 0 <= k < |caches| => caches[k].state.current);
    forall k | 0 <= k < |records| - 1
      ensures Follows(records[k], records[k + 1])
    {
      if caches[k].state.current.Some? {
        HistoryStep(cfg, caches, events, cuts, k);
      }
    }
    FollowsForever(records, i, j);
  }
}
