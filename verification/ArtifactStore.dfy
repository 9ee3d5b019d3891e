/** The Pod runtime cache as code: chunked transfers, file replacements, and the state dictionary. */
module ArtifactStore {
  import opened Common
  import opened Versions
  import A = ArtifactCache

  class Store {
    const cfg: A.Config
    var cache: A.Cache

    constructor (cfg: A.Config, cache: A.Cache)
      ensures this.cfg == cfg && this.cache == cache
    {
      this.cfg, this.cache := cfg, cache;
    }

    /** One atomic replacement. */
    method Replace(w: A.Write, ghost start: A.Cache, ghost done: seq<A.Write>) returns (ghost all: seq<A.Write>)
      requires cache == A.PutAll(start, done)
      modifies this`cache
      ensures all == done + [w] && cache == A.PutAll(start, all)
    {
      A.PutAllAppend(start, done, [w]);
      assert A.PutAll(cache, [w]) == A.Put(cache, w) by {
        assert [w][..0] == [];
      }
      cache := A.Put(cache, w);
      all := done + [w];
    }

    /** The transfer loop: it adds up chunk by chunk and stops as soon as the limit is passed. */
    method Receive(chunks: seq<Bytes>) returns (body: Option<Bytes>, header: Bytes)
      ensures body.Some? <==> |A.Received(chunks)| <= cfg.maxBytes
      ensures body.Some? ==> body.value == A.Received(chunks) && header == A.Header(chunks)
    {
      var bytes: Bytes := [];
      header := [];
      var k := 0;
      while k < |chunks| && chunks[k] != []
        invariant 0 <= k <= |chunks| && |bytes| <= cfg.maxBytes
        invariant A.Received(chunks) == bytes + A.Received(chunks[k..])
        invariant k == 0 ==> bytes == [] && header == []
        invariant k > 0 ==> header == A.Header(chunks) && header != []
      {
        assert chunks[k..][0] == chunks[k] && chunks[k..][1..] == chunks[k + 1..];
        if header == [] {
          header := chunks[k][..if |chunks[k]| < 2 then |chunks[k]| else 2];
        }
        bytes := bytes + chunks[k];
        k := k + 1;
        if |bytes| > cfg.maxBytes {
          return None, header;
        }
      }
      assert A.Received(chunks[k..]) == [];
      return Some(bytes), header;
    }

    method StoreLocal(f: A.Factory) returns (r: A.Outcome<A.Artifact>)
      modifies this`cache
      ensures r == A.StoreLocal(cfg, old(cache), f) && cache == A.PutAll(old(cache), r.writes)
    {
      var d := cfg.hash(f.bytes);
      if Semver(f.version).None? {
        return A.Err("invalid version", []);
      }
      if f.readError.Some? {
        return A.Err(f.readError.value, []);
      }
      if !A.Good(cfg, d, f.bytes) {
        return A.Err("not a Pod executable", []);
      }
      var meta := A.PutMeta(d, A.Meta(f.version, "factory"));
      var before: seq<A.Write> := [];
      ghost var writes: seq<A.Write> := [];
      if d !in cache.exes {
        if f.copyError.Some? {
          return A.Err(f.copyError.value, []);
        }
        if !A.Good(cfg, d, f.copied) || |f.copied| != |f.bytes| {
          return A.Err("changed while it was cached", []);
        }
        before := [A.PutExe(d, f.copied)];
        writes := Replace(before[0], old(cache), []);
      }
      if f.metaError.Some? {
        return A.Err(f.metaError.value, before);
      }
      writes := Replace(meta, old(cache), before);
      r := A.Ok(A.Artifact(f.version, d, "factory"), before + [meta]);
    }

    method Download(m: A.Manifest, transfer: A.Transfer,
                    metaError: Option<A.Failure>) returns (r: A.Outcome<A.Artifact>)
      modifies this`cache
      ensures r == A.Download(cfg, old(cache), m, transfer, metaError) && cache == A.PutAll(old(cache), r.writes)
    {
      var cached := A.LoadArtifact(cfg, cache, m.sha256);
      if cached.Some? {
        if cached.value.version != m.version {
          return A.Err("cached version differs", []);
        }
        return A.Ok(cached.value.(source := "verified-cache"), []);
      }
      if transfer.Broken? {
        return A.Err(A.Text(transfer.failure), []);
      }
      var body, header := Receive(transfer.chunks);
      if body.None? {
        return A.Err("too large", []);
      }
      if header != A.MZ {
        return A.Err("not a Windows executable", []);
      }
      if cfg.hash(body.value) != m.sha256 {
        return A.Err("checksum mismatch", []);
      }
      if m.size.Some? && |body.value| != m.size.value {
        return A.Err("size mismatch", []);
      }
      var exe := A.PutExe(m.sha256, body.value);
      ghost var writes := Replace(exe, old(cache), []);
      if metaError.Some? {
        return A.Err(A.Text(metaError.value), [exe]);
      }
      var meta := A.PutMeta(m.sha256, A.Meta(m.version, "remote"));
      writes := Replace(meta, old(cache), writes);
      r := A.Ok(A.Artifact(m.version, m.sha256, "remote"), [exe, meta]);
    }

    method Fallback(factory: Option<A.Factory>) returns (r: A.Outcome<Option<A.Artifact>>)
      modifies this`cache
      ensures r == A.Fallback(cfg, old(cache), factory) && cache == A.PutAll(old(cache), r.writes)
    {
      if cache.state.current.Some? {
        var cached := A.LoadArtifact(cfg, cache, cache.state.current.value.sha256);
        if cached.Some? {
          return A.Ok(Some(cached.value.(source := "last-known-good")), []);
        }
      }
      if factory.None? {
        return A.Ok(None, []);
      }
      var stored := StoreLocal(factory.value);
      match stored
      case Ok(artifact, writes) => r := A.Ok(Some(artifact), writes);
      case Err(message, writes) => r := A.Err(message, writes);
    }

    /** The exception handler. */
    method Report(state: A.Stored, fallback: Option<A.Artifact>, message: string, e: A.Env, start: A.Cache,
                  writes: seq<A.Write>)
      returns (r: A.Outcome<A.Served>)
      requires cache == A.PutAll(start, writes)
      modifies this`cache
      ensures r == A.Report(state, fallback, message, e, writes) && cache == A.PutAll(start, r.writes)
    {
      if e.reportError.Some? {
        return A.Err(e.reportError.value, writes);
      }
      var w := A.PutState(state.(error := message));
      ghost var all := Replace(w, start, writes);
      match fallback
      case Some(artifact) => r := A.Ok(A.Served(artifact, true, message), writes + [w]);
      case None => r := A.Err(message, writes + [w]);
    }

    method Install(state: A.Stored, fallback: Option<A.Artifact>, m: A.Manifest, e: A.Env, start: A.Cache,
                   before: seq<A.Write>)
      returns (r: A.Outcome<A.Served>)
      requires cache == A.PutAll(start, before)
      modifies this`cache
      ensures r == A.Install(cfg, old(cache), state, fallback, m, e, before) && cache == A.PutAll(start, r.writes)
    {
      var objection := A.Objection(fallback, m);
      if objection.Some? {
        r := Report(state, fallback, objection.value, e, start, before);
        return;
      }
      var download := Download(m, e.transfer, e.metaError);
      A.PutAllAppend(start, before, download.writes);
      if download.Err? {
        r := Report(state, fallback, download.message, e, start, before + download.writes);
        return;
      }
      var next := A.Stored(Some(A.Current(download.value.version, download.value.sha256)), "");
      if e.stateError.Some? {
        r := Report(next, fallback, e.stateError.value, e, start, before + download.writes);
        return;
      }
      ghost var all := Replace(A.PutState(next), start, before + download.writes);
      r := A.Ok(A.Served(download.value, false, ""), before + download.writes + [A.PutState(next)]);
    }

    /** ensure_latest_pod_artifact: it makes exactly the writes of `Refresh`, in that order. */
    method EnsureLatest(e: A.Env) returns (r: A.Outcome<A.Served>)
      modifies this`cache
      ensures r == A.Refresh(cfg, old(cache), e) && cache == A.PutAll(old(cache), r.writes)
    {
      var start := cache;
      var f := Fallback(e.factory);
      if f.Err? {
        return A.Err(f.message, f.writes);
      }
      var fallback, before := f.value, f.writes;
      var state := A.Recorded(start.state, fallback);
      if !e.repository {
        if fallback.None? {
          return A.Err("no verified Pod runtime is available", before);
        }
        if state != start.state {
          if e.stateError.Some? {
            return A.Err(e.stateError.value, before);
          }
          ghost var all := Replace(A.PutState(state.(error := "")), start, before);
          before := before + [A.PutState(state.(error := ""))];
        }
        return A.Ok(A.Served(fallback.value, false, ""), before);
      }
      if e.setupError.Some? {
        r := Report(state, fallback, e.setupError.value, e, start, before);
        return;
      }
      if e.recent && fallback.Some? {
        return A.Ok(A.Served(fallback.value, false, ""), before);
      }
      match e.discovery {
        case Failed(message) =>
          r := Report(state, fallback, message, e, start, before);
        case NotModified =>
          if fallback.None? {
            r := Report(state, fallback, "HTTP Error 304", e, start, before);
          } else {
            state := state.(error := "");
            if e.stateError.Some? {
              r := Report(state, fallback, e.stateError.value, e, start, before);
            } else {
              ghost var all := Replace(A.PutState(state), start, before);
              r := A.Ok(A.Served(fallback.value, false, ""), before + [A.PutState(state)]);
            }
          }
        case Found(m) =>
          r := Install(state, fallback, m, e, start, before);
      }
    }
  }
}
