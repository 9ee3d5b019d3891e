/** The login rate limiter: trimmed deques per client, checked against a plain log of failures. */
module LoginLimiter {
  import opened Common

  // ---------------------------------------------------------------- the plain log

  predicate Sorted(s: seq<real>) {
    forall i, j | 0 <= i < j < |s| :: s[i] <= s[j]
  }

  /** How many entries lie after `cutoff` and not after `now`. */
  function CountIn(s: seq<real>, cutoff: real, now: real): nat {
    if s == [] then 0
    else CountIn(s[..|s| - 1], cutoff, now) + if cutoff < s[|s| - 1] <= now then 1 else 0
  }

  /** Entries dropped from the front while they are too old. */
  function Trimmed(s: seq<real>, cutoff: real): seq<real> {
    if s == [] || s[0] > cutoff then s else Trimmed(s[1..], cutoff)
  }

  lemma {:induction false} TrimmedIsTail(s: seq<real>, cutoff: real)
    ensures Tail(Trimmed(s, cutoff), s, cutoff)
    ensures Trimmed(s, cutoff) != [] ==> Trimmed(s, cutoff)[0] > cutoff
  {
    if s != [] && s[0] <= cutoff {
      TrimmedIsTail(s[1..], cutoff);
      var r := Trimmed(s, cutoff);
      forall i | 0 <= i < |s| - |r|
        ensures s[i] <= cutoff
      {
        if i > 0 {
          assert s[i] == s[1..][i - 1];
        }
      }
    }
  }

  lemma {:induction false} CountAllOrNothing(s: seq<real>, cutoff: real, now: real)
    ensures CountIn(s, cutoff, now) <= |s|
    ensures (forall i :: 0 <= i < |s| ==> cutoff < s[i] <= now) ==> CountIn(s, cutoff, now) == |s|
    ensures (forall i :: 0 <= i < |s| ==> s[i] <= cutoff) ==> CountIn(s, cutoff, now) == 0
  {
    if s != [] {
      CountAllOrNothing(s[..|s| - 1], cutoff, now);
    }
  }

  lemma {:induction false} CountConcat(a: seq<real>, b: seq<real>, cutoff: real, now: real)
    ensures CountIn(a + b, cutoff, now) == CountIn(a, cutoff, now) + CountIn(b, cutoff, now)
    decreases |b|
  {
    if b == [] {
      assert a + b == a;
    } else {
      assert (a + b)[..|a + b| - 1] == a + b[..|b| - 1];
      CountConcat(a, b[..|b| - 1], cutoff, now);
    }
  }

  lemma {:induction false} CountWider(s: seq<real>, cutoff: real, now: real, cutoff': real, now': real)
    requires cutoff' <= cutoff && (now <= now' || forall i :: 0 <= i < |s| ==> s[i] <= now')
    ensures CountIn(s, cutoff, now) <= CountIn(s, cutoff', now')
  {
    if s != [] {
      CountWider(s[..|s| - 1], cutoff, now, cutoff', now');
    }
  }

  /** What a deque keeps of a log: everything but some leading entries that are out of the window for good. */
  ghost predicate Tail(kept: seq<real>, log: seq<real>, cutoff: real) {
    && |kept| <= |log| && kept == log[|log| - |kept|..]
    && forall i :: 0 <= i < |log| - |kept| ==> log[i] <= cutoff
  }

  lemma TailOfTail(r: seq<real>, kept: seq<real>, log: seq<real>, before: real, cutoff: real)
    requires before <= cutoff && Tail(kept, log, before) && Tail(r, kept, cutoff)
    ensures Tail(r, log, cutoff)
  {
    var k := |log| - |kept|;
    forall i | k <= i < |log| - |r|
      ensures log[i] <= cutoff
    {
      assert log[i] == kept[i - k];
    }
  }

  lemma SplitCounts(past: seq<real>, recent: seq<real>, cutoff: real, now: real)
    requires forall i :: 0 <= i < |past| ==> past[i] <= cutoff
    requires forall i :: 0 <= i < |recent| ==> cutoff < recent[i] <= now
    ensures CountIn(past + recent, cutoff, now) == |recent|
  {
    CountConcat(past, recent, cutoff, now);
    CountAllOrNothing(past, cutoff, now);
    CountAllOrNothing(recent, cutoff, now);
  }

  lemma TailCounts(r: seq<real>, log: seq<real>, cutoff: real, now: real)
    requires Tail(r, log, cutoff) && forall i :: 0 <= i < |r| ==> cutoff < r[i] <= now
    ensures |r| == CountIn(log, cutoff, now)
  {
    var d := |log| - |r|;
    assert log[..d] + r == log;
    SplitCounts(log[..d], r, cutoff, now);
  }

  /** Trimming a kept tail leaves exactly the entries of the log inside the window. */
  lemma TrimCounts(kept: seq<real>, log: seq<real>, before: real, cutoff: real, now: real)
    requires Sorted(log) && (forall i :: 0 <= i < |log| ==> log[i] <= now) && before <= cutoff
      && Tail(kept, log, before)
    ensures Tail(Trimmed(kept, cutoff), log, cutoff) && |Trimmed(kept, cutoff)| == CountIn(log, cutoff, now)
  {
    TrimmedIsTail(kept, cutoff);
    var r := Trimmed(kept, cutoff);
    TailOfTail(r, kept, log, before, cutoff);
    var d := |log| - |r|;
    forall i | 0 <= i < |r|
      ensures cutoff < r[i] <= now
    {
      assert r[0] == log[d] && r[i] == log[d + i];
    }
    TailCounts(r, log, cutoff, now);
  }

  // ---------------------------------------------------------------- no window overflows

  /** Entries in the window that ends at `now`. */
  function InWindow(s: seq<real>, window: real, now: real): nat {
    CountIn(s, now - window, now)
  }

  /** No window of this length holds more than `most` entries. */
  ghost predicate Bounded(s: seq<real>, window: real, most: nat) {
    forall x: real :: InWindow(s, window, x) <= most
  }

  lemma CountOne(t: real, cutoff: real, now: real)
    ensures CountIn([t], cutoff, now) == if cutoff < t <= now then 1 else 0
  {
    assert [t][..0] == [];
  }

  /** A failure recorded after an allowed check keeps every window within the limit. */
  lemma FailureKeepsBound(s: seq<real>, window: real, most: nat, checked: real, now: real)
    requires 0.0 <= window && (forall i :: 0 <= i < |s| ==> s[i] <= checked) && checked <= now
      && Bounded(s, window, most)
    requires InWindow(s, window, checked) < most
    ensures Bounded(s + [now], window, most)
  {
    forall x: real
      ensures InWindow(s + [now], window, x) <= most
    {
      CountConcat(s, [now], x - window, x);
      CountOne(now, x - window, x);
      assert InWindow(s, window, x) <= most;
      if now <= x {
        CountWider(s, x - window, x, checked - window, checked);
      }
    }
  }

  // ---------------------------------------------------------------- the limiter

  /** The tracked clients once this one is among them: a new one goes to the end, and the oldest one goes if it is
      too many. */
  function Admitted(clients: seq<string>, key: string, most: nat): seq<string> {
    if key in clients then clients
    else (if |clients| >= most && clients != [] then clients[1..] else clients) + [key]
  }

  /** Nobody but the client tracked longest ever goes, and only for a new one when there is no room. */
  lemma AdmittedMeans(clients: seq<string>, key: string, most: nat)
    ensures var after := Admitted(clients, key, most);
      && key in after && (key in clients ==> after == clients)
      && (key !in clients ==> after[|after| - 1] == key)
      && (key !in clients && |clients| < most ==> after == clients + [key])
      && (key !in clients && |clients| >= most && clients != [] ==> [clients[0]] + after == clients + [key])
      && (|clients| <= most && 1 <= most ==> |after| <= most)
  {
  }

  datatype Decision = Allowed(delay: real) | Blocked(retryAfter: int)

  function MaxInt(a: int, b: int): (m: int)
    ensures a <= m && b <= m && (m == a || m == b)
  {
    if a < b then b else a
  }

  /** The delay grows with the failures, up to its limit. */
  function Delay(base: real, maximum: real, failures: nat): (delay: real)
    ensures delay <= maximum && delay <= base * failures as real
    ensures delay == maximum || delay == base * failures as real
  {
    if maximum < base * failures as real then maximum else base * failures as real
  }

  /** A client's log is in order, and its deque lacks only what has left the window. */
  ghost predicate KeyOk(kept: seq<real>, entries: seq<real>, clock: real, window: real) {
    && Sorted(entries) && (forall i :: 0 <= i < |entries| ==> entries[i] <= clock)
    && Tail(kept, entries, clock - window)
  }

  lemma KeyLater(kept: seq<real>, entries: seq<real>, clock: real, later: real, window: real)
    requires KeyOk(kept, entries, clock, window) && clock <= later
    ensures KeyOk(kept, entries, later, window)
    ensures KeyOk(Trimmed(kept, later - window), entries, later, window)
    ensures |Trimmed(kept, later - window)| == InWindow(entries, window, later)
  {
    TrimCounts(kept, entries, clock - window, later - window, later);
  }

  /** A new failure goes to the end of both. */
  lemma KeyAppend(kept: seq<real>, entries: seq<real>, clock: real, window: real)
    requires KeyOk(kept, entries, clock, window)
    ensures KeyOk(kept + [clock], entries + [clock], clock, window)
  {
  }

  ghost function At(m: map<string, seq<real>>, key: string): seq<real> {
    if key in m then m[key] else []
  }

  ghost predicate AllOk(attempts: map<string, seq<real>>, log: map<string, seq<real>>, clock: real, window: real) {
    forall key {:trigger KeyOk(At(attempts, key), At(log, key), clock, window)} ::
      KeyOk(At(attempts, key), At(log, key), clock, window)
  }

  lemma AllLater(attempts: map<string, seq<real>>, log: map<string, seq<real>>, clock: real, later: real, window: real)
    requires AllOk(attempts, log, clock, window) && clock <= later
    ensures AllOk(attempts, log, later, window)
  {
    forall key
      ensures KeyOk(At(attempts, key), At(log, key), later, window)
    {
      KeyLater(At(attempts, key), At(log, key), clock, later, window);
    }
  }

  /** One client's entries may be replaced, or dropped if its log is expired. */
  lemma AllSet(attempts: map<string, seq<real>>, log: map<string, seq<real>>, clock: real, window: real, key: string,
               attempts': map<string, seq<real>>, log': map<string, seq<real>>)
    requires AllOk(attempts, log, clock, window) && KeyOk(At(attempts', key), At(log', key), clock, window)
    requires attempts' - {key} == attempts - {key} && log' - {key} == log - {key}
    ensures AllOk(attempts', log', clock, window)
  {
    forall k
      ensures KeyOk(At(attempts', k), At(log', k), clock, window)
    {
      if k != key {
        assert k in attempts' <==> k in attempts' - {key};
        assert k in attempts <==> k in attempts - {key};
        assert k in log' <==> k in log' - {key};
        assert k in log <==> k in log - {key};
        assert At(attempts', k) == At(attempts, k) && At(log', k) == At(log, k);
        assert KeyOk(At(attempts, k), At(log, k), clock, window);
      }
    }
  }

  lemma SameClients(m: map<string, seq<real>>, key: string, entries: seq<real>)
    requires key in m
    ensures m[key := entries].Keys == m.Keys
  {
  }

  lemma EmptyEntry(m: map<string, seq<real>>, key: string)
    requires key !in m
    ensures m[key := []] - {key} == m - {key} && At(m[key := []], key) == [] == At(m, key)
  {
  }

  /** A client that is not tracked has nothing left in the window, so an empty deque is right for it. */
  lemma EmptyDeque(attempts: map<string, seq<real>>, log: map<string, seq<real>>, clock: real, window: real,
                   key: string)
    requires AllOk(attempts, log, clock, window) && key !in attempts
    ensures AllOk(attempts[key := []], log, clock, window)
  {
    assert KeyOk(At(attempts, key), At(log, key), clock, window);
    EmptyEntry(attempts, key);
    AllSet(attempts, log, clock, window, key, attempts[key := []], log);
  }

  lemma EmptyOk(clock: real, window: real)
    ensures KeyOk([], [], clock, window)
  {
  }

  lemma KeyTrimmed(held: seq<real>, entries: seq<real>, clock: real, now: real, window: real)
    requires KeyOk(held, entries, clock, window) && clock <= now
    ensures var kept := Trimmed(held, now - window);
      && |kept| == InWindow(entries, window, now) && |kept| <= |entries|
      && (kept != [] ==> kept[0] == entries[|entries| - |kept|] && kept[0] > now - window)
      && KeyOk(kept, entries, now, window)
  {
    KeyLater(held, entries, clock, now, window);
    TrimmedIsTail(held, now - window);
  }

  /** What a check finds: the trimmed deque counts the window, starts with its oldest failure, and may replace the
      old one. */
  lemma CheckFacts(attempts: map<string, seq<real>>, log: map<string, seq<real>>, clock: real, now: real, window: real,
                   key: string)
    requires AllOk(attempts, log, clock, window) && clock <= now
    ensures var kept := Trimmed(At(attempts, key), now - window);
      && |kept| == InWindow(At(log, key), window, now) && |kept| <= |At(log, key)|
      && (kept != [] ==> kept[0] == At(log, key)[|At(log, key)| - |kept|] && kept[0] > now - window)
    ensures AllOk(attempts, log, now, window)
    ensures AllOk(attempts[key := Trimmed(At(attempts, key), now - window)], log, now, window)
    ensures Trimmed(At(attempts, key), now - window) == [] ==> AllOk(attempts - {key}, log, now, window)
  {
    var kept := Trimmed(At(attempts, key), now - window);
    assert KeyOk(At(attempts, key), At(log, key), clock, window);
    KeyTrimmed(At(attempts, key), At(log, key), clock, now, window);
    AllLater(attempts, log, clock, now, window);
    Replace(attempts, log, now, window, key, kept);
  }

  lemma Replace(attempts: map<string, seq<real>>, log: map<string, seq<real>>, now: real, window: real, key: string,
                kept: seq<real>)
    requires AllOk(attempts, log, now, window) && KeyOk(kept, At(log, key), now, window)
    ensures AllOk(attempts[key := kept], log, now, window)
    ensures kept == [] ==> AllOk(attempts - {key}, log, now, window)
  {
    AllSet(attempts, log, now, window, key, attempts[key := kept], log);
    if kept == [] {
      AllSet(attempts, log, now, window, key, attempts - {key}, log);
    }
  }

  /** What a failure adds. */
  lemma FailFacts(attempts: map<string, seq<real>>, log: map<string, seq<real>>, clock: real, now: real, window: real,
                  key: string)
    requires AllOk(attempts, log, clock, window) && clock <= now
    ensures AllOk(attempts[key := Trimmed(At(attempts, key), now - window) + [now]], log[key := At(log, key) + [now]],
                  now, window)
  {
    var kept := Trimmed(At(attempts, key), now - window);
    assert KeyOk(At(attempts, key), At(log, key), clock, window);
    KeyLater(At(attempts, key), At(log, key), clock, now, window);
    KeyAppend(kept, At(log, key), now, window);
    AllLater(attempts, log, clock, now, window);
    AllSet(attempts, log, now, window, key, attempts[key := kept + [now]], log[key := At(log, key) + [now]]);
  }

  lemma RetryMath(expiry: real)
    requires 0.0 < expiry
    ensures RetryFits(MaxInt(1, (expiry + 0.999).Floor), expiry)
  {
  }

  lemma NewClient(clients: seq<string>, keys: set<string>, key: string)
    requires Enumerates(clients, keys) && key !in keys
    ensures Enumerates(clients + [key], keys + {key})
  {
  }

  class Limiter {
    const maxAttempts: nat
    const window: real
    const baseDelay: real
    const maximumDelay: real
    const maxClients: nat

    var attempts: map<string, seq<real>>
    /** The clients in the order in which the dictionary holds them. */
    var clients: seq<string>

    /** Every failure of a client since its last success or eviction, and the time of the last call. */
    ghost var log: map<string, seq<real>>
    ghost var clock: real

    ghost function Log(key: string): seq<real>
      reads this
    {
      At(log, key)
    }

    ghost predicate Tracked()
      reads this
    {
      && 0.0 <= window && 1 <= maxClients
      && Enumerates(clients, attempts.Keys) && |clients| <= maxClients
      && AllOk(attempts, log, clock, window)
    }

    ghost predicate Valid()
      reads this
    {
      Tracked() && forall key :: key in attempts ==> attempts[key] != []
    }

    constructor (maxAttempts: nat, window: real, baseDelay: real, maximumDelay: real, maxClients: nat)
      requires 0.0 <= window && 1 <= maxClients
      ensures Valid() && log == map[]
      ensures this.maxAttempts == maxAttempts && this.window == window && this.maxClients == maxClients
    {
      this.maxAttempts, this.window, this.baseDelay, this.maximumDelay, this.maxClients := maxAttempts, window,
        baseDelay, maximumDelay, maxClients;
      attempts, clients, log, clock := map[], [], map[], 0.0;
    }

    method Trim(s: seq<real>, now: real) returns (r: seq<real>)
      ensures r == Trimmed(s, now - window)
    {
      var cutoff := now - window;
      r := s;
      while r != [] && r[0] <= cutoff
        invariant Trimmed(s, cutoff) == Trimmed(r, cutoff)
        decreases |r|
      {
        r := r[1..];
      }
    }

    /** Takes a client out of the dictionary. */
    method Forget(key: string)
      requires Enumerates(clients, attempts.Keys)
      modifies `attempts, `clients
      ensures attempts == old(attempts) - {key}
      ensures Enumerates(clients, attempts.Keys)
      ensures clients == Dropped(old(clients), key)
      ensures |clients| == |old(clients)| - if key in old(attempts) then 1 else 0
    {
      if key in attempts {
        var i := 0;
        while clients[i] != key
          invariant 0 <= i < |clients| && key in clients[i..] && key !in clients[..i]
          decreases |clients| - i
        {
          i := i + 1;
        }
        RemoveAt(clients, attempts.Keys, i);
        DroppedAt(clients, key, i);
        clients := clients[..i] + clients[i + 1..];
        attempts := attempts - {key};
      } else {
        assert attempts == attempts - {key};
        DroppedNone(clients, key);
      }
    }

    /** Whether, and for how long, a client has to wait. */
    method Check(key: string, now: real) returns (d: Decision)
      requires Valid() && clock <= now
      modifies this
      ensures Valid() && log == old(log) && clock == now
      ensures var count := InWindow(Log(key), window, now);
        && (d.Blocked? <==> 0 < count && maxAttempts <= count)
        && count <= |Log(key)|
        && (d.Blocked? ==> RetryFits(d.retryAfter, Log(key)[|Log(key)| - count] + window - now))
        && (d.Allowed? ==> d.delay == if count == 0 then 0.0 else Delay(baseDelay, maximumDelay, count))
    {
      CheckFacts(attempts, log, clock, now, window, key);
      clock := now;
      if key !in attempts {
        return Allowed(0.0);
      }
      var kept := Trim(attempts[key], now);
      if kept == [] {
        Forget(key);
        return Allowed(0.0);
      }
      SameClients(attempts, key, kept);
      attempts := attempts[key := kept];
      d := Judge(kept, now);
    }

    /** The verdict on a client with these failures in the window. */
    method Judge(kept: seq<real>, now: real) returns (d: Decision)
      requires kept != [] && kept[0] > now - window
      ensures d.Blocked? <==> maxAttempts <= |kept|
      ensures d.Blocked? ==> RetryFits(d.retryAfter, kept[0] + window - now)
      ensures d.Allowed? ==> d.delay == Delay(baseDelay, maximumDelay, |kept|)
    {
      if |kept| >= maxAttempts {
        RetryMath(window - (now - kept[0]));
        return Blocked(MaxInt(1, (window - (now - kept[0]) + 0.999).Floor));
      }
      d := Allowed(Delay(baseDelay, maximumDelay, |kept|));
    }

    /** Drops the client the dictionary has held longest, and its failures with it. */
    method Evict()
      requires Valid() && clients != []
      modifies this
      ensures Valid() && clock == old(clock)
      ensures clients == old(clients)[1..] && attempts == old(attempts) - {old(clients)[0]}
      ensures log == old(log)[old(clients)[0] := []]
    {
      var victim := clients[0];
      assert victim in clients;
      EmptyOk(clock, window);
      AllSet(attempts, log, clock, window, victim, attempts - {victim}, log[victim := []]);
      log := log[victim := []];
      Forget(victim);
    }

    /** Makes sure a client is tracked; a new one may push out the one the dictionary has held longest. */
    method MakeRoom(key: string)
      requires Valid()
      modifies this
      ensures Tracked() && clock == old(clock) && key in attempts
      ensures forall k :: k in attempts && k != key ==> attempts[k] != []
      ensures clients == Admitted(old(clients), key, maxClients)
      ensures forall client ::
        Log(client) == if client in old(clients) && client !in clients then [] else old(Log(client))
    {
      if key !in attempts {
        if |clients| >= maxClients {
          Evict();
        }
        EmptyDeque(attempts, log, clock, window, key);
        NewClient(clients, attempts.Keys, key);
        assert attempts[key := []].Keys == attempts.Keys + {key};
        attempts := attempts[key := []];
        clients := clients + [key];
      }
    }

    /** Adds a failure to the deque of a tracked client. */
    method Append(key: string, now: real)
      requires Tracked() && clock <= now && key in attempts
      requires forall k :: k in attempts && k != key ==> attempts[k] != []
      modifies this
      ensures Valid() && clock == now && clients == old(clients)
      ensures log == old(log)[key := old(Log(key)) + [now]]
    {
      FailFacts(attempts, log, clock, now, window, key);
      var kept := Trim(attempts[key], now);
      assert attempts[key := kept + [now]].Keys == attempts.Keys;
      clock := now;
      attempts := attempts[key := kept + [now]];
      log := log[key := Log(key) + [now]];
    }

    /** Records a failure: it goes to the end of the client's log, and an evicted client loses its own. */
    method Fail(key: string, now: real)
      requires Valid() && clock <= now
      modifies this
      ensures Valid() && clock == now
      ensures Log(key) == old(Log(key)) + [now]
      ensures clients == Admitted(old(clients), key, maxClients)
      ensures forall other :: other != key ==>
        Log(other) == if other in old(clients) && other !in clients then [] else old(Log(other))
    {
      MakeRoom(key);
      assert key in clients;
      Append(key, now);
    }

    /** A success wipes the client's record. */
    method Success(key: string)
      requires Valid()
      modifies this
      ensures Valid() && clock == old(clock)
      ensures Log(key) == [] && forall other :: other != key ==> Log(other) == old(Log(other))
    {
      EmptyOk(clock, window);
      AllSet(attempts, log, clock, window, key, attempts - {key}, log[key := []]);
      Forget(key);
      log := log[key := []];
    }

    /** No client's failures ever fill a window beyond the limit. */
    ghost predicate WithinLimit()
      reads this
    {
      forall key :: Bounded(Log(key), window, maxAttempts)
    }

    /** One login under the request lock: check, then what the login comes to, with nothing in between. A login that
        ends in a server error is neither accepted nor refused. */
    method Attempt(key: string, checked: real, finished: real, outcome: Option<bool>) returns (d: Decision)
      requires Valid() && clock <= checked <= finished && 1 <= maxAttempts && WithinLimit()
      modifies this
      ensures Valid() && WithinLimit()
      ensures d.Blocked? <==> maxAttempts <= InWindow(old(Log(key)), window, checked)
      ensures d.Blocked? || outcome.None? ==> log == old(log)
      ensures d.Allowed? && outcome == Some(true) ==>
        Log(key) == [] && forall other :: other != key ==> Log(other) == old(Log(other))
      ensures d.Allowed? && outcome == Some(false) ==>
        Log(key) == old(Log(key)) + [finished] && forall other :: other != key ==> Log(other) in {old(Log(other)), []}
    {
      assert Bounded(Log(key), window, maxAttempts);
      BoundedEmpty(window, maxAttempts);
      d := Check(key, checked);
      assert forall k :: Log(k) == old(Log(k));
      if d.Allowed? && outcome.Some? {
        if outcome.value {
          Success(key);
        } else {
          assert KeyOk(At(attempts, key), Log(key), clock, window);
          FailureKeepsBound(Log(key), window, maxAttempts, checked, finished);
          Fail(key, finished);
        }
        forall k
          ensures Bounded(Log(k), window, maxAttempts)
        {
          if k != key {
            assert Bounded(old(Log(k)), window, maxAttempts);
            assert Log(k) == old(Log(k)) || Log(k) == [];
          }
        }
      }
    }
  }

  /** How the waiting time relates to the time until the oldest failure leaves the window. */
  predicate RetryFits(retryAfter: int, expiry: real) {
    && 0.0 < expiry
    && expiry - 0.001 < retryAfter as real
    && 1 <= retryAfter
    && (retryAfter as real <= expiry + 0.999 || retryAfter == 1)
  }

  lemma BoundedEmpty(window: real, most: nat)
    ensures Bounded([], window, most)
  {
  }

  /** The sequence without the first occurrence of an element. */
  function Dropped(s: seq<string>, x: string): seq<string> {
    if s == [] then [] else if s[0] == x then s[1..] else [s[0]] + Dropped(s[1..], x)
  }

  lemma {:induction false} DroppedAt(s: seq<string>, x: string, i: nat)
    requires i < |s| && s[i] == x && x !in s[..i]
    ensures Dropped(s, x) == s[..i] + s[i + 1..]
    decreases i
  {
    if i > 0 {
      assert s[0] in s[..i] && s[1..][..i - 1] == s[..i][1..];
      DroppedAt(s[1..], x, i - 1);
      assert [s[0]] + (s[1..][..i - 1] + s[1..][i..]) == s[..i] + s[i + 1..];
    }
  }

  lemma {:induction false} DroppedNone(s: seq<string>, x: string)
    requires x !in s
    ensures Dropped(s, x) == s
  {
    if s != [] {
      DroppedNone(s[1..], x);
    }
  }

  lemma RemoveAt(s: seq<string>, all: set<string>, i: nat)
    requires Enumerates(s, all) && i < |s|
    ensures Enumerates(s[..i] + s[i + 1..], all - {s[i]})
  {
    var r := s[..i] + s[i + 1..];
    forall k | 0 <= k < |r|
      ensures r[k] == s[if k < i then k else k + 1]
    {
    }
    forall x
      ensures x in r <==> x in all - {s[i]}
    {
      if x in all && x != s[i] {
        assert x in s;
        var k :| 0 <= k < |s| && s[k] == x;
        assert r[if k < i then k else k - 1] == x;
      }
      if x in r {
        var k :| 0 <= k < |r| && r[k] == x;
        assert s[if k < i then k else k + 1] in s;
      }
    }
  }
}
