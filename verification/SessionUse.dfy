/** What a request means for the sessions and the preferences, in terms of the stored fields alone. */
module SessionUse {
  import opened Common
  import opened Sessions

  // ---------------------------------------------------------------- the end of a session

  /** What the passing of time does to a session: an active one whose end is reached has expired now. */
  ghost predicate AgesTo(a: Lease, b: Lease, now: int) {
    if a.status == Active && a.expires.Some? && a.expires.value <= now
    then b == Lease(Expired, a.digest, a.scope, a.transport, a.subject, a.expires, Some(now))
    else b == a
  }

  /** Every session but one is as the passing of time leaves it. */
  ghost predicate OthersAge(s: State, t: State, id: Id, now: int) {
    forall other ::
      other in s.leases && other != id ==> other in t.leases && AgesTo(s.leases[other], t.leases[other], now)
  }

  /** Cookies open a session exactly if it is direct, for this service, active, before its end, and the key is its
      key. */
  lemma OpensIff(s: State, h: Hashes, id: Id, key: string, now: int)
    ensures Opens(s, h, id, key, now) <==>
      && id != "" && key != "" && id in s.leases
      && s.leases[id].status == Active && (s.leases[id].expires.Some? ==> now < s.leases[id].expires.value)
      && s.leases[id].digest == h.digest(key) && s.leases[id].scope == "perimetr" && s.leases[id].transport == "direct"
  {
  }

  /** A request without valid cookies is refused, and changes nothing but what has expired. */
  lemma ClosedDoor(s: State, step: Step, config: Config, h: Hashes)
    requires !step.Login? && !step.Subject? && !Opens(s, h, step.id, step.key, step.now)
    ensures var (reply, t) := Apply(s, step, config, h);
      && reply == Denied && t.prefs == s.prefs && t.leases.Keys == s.leases.Keys
      && forall id :: id in s.leases ==> AgesTo(s.leases[id], t.leases[id], step.now)
  {
  }

  /** A visit changes nothing but what has expired. */
  lemma VisitChangesNothing(s: State, step: Step, config: Config, h: Hashes)
    requires step.Touch? && Opens(s, h, step.id, step.key, step.now)
    ensures var (reply, t) := Apply(s, step, config, h);
      && reply == Done && t.prefs == s.prefs && t.leases.Keys == s.leases.Keys
      && t.leases[step.id] == s.leases[step.id]
      && forall id :: id in s.leases ==> AgesTo(s.leases[id], t.leases[id], step.now)
  {
  }

  /** A logout is done exactly for cookies that open the session, ends it now, and touches no other one. */
  lemma LogoutCloses(s: State, step: Step, config: Config, h: Hashes)
    requires step.Logout?
    ensures var (reply, t) := Apply(s, step, config, h);
      && (reply == Done <==> Opens(s, h, step.id, step.key, step.now)) && (reply != Done ==> reply == Denied)
      && t.prefs == s.prefs && t.leases.Keys == s.leases.Keys && OthersAge(s, t, step.id, step.now)
      && (reply == Done ==> t.leases[step.id] == s.leases[step.id].(status := Revoked, ended := Some(step.now)))
  {
  }

  /** After a logout the session opens with no key at any time, in every state of every later run. */
  lemma LogoutEnds(s: State, step: Step, later: seq<Step>, config: Config, h: Hashes, key: string, now: int)
    requires step.Logout? && Apply(s, step, config, h).0 == Done
      && FairRun(Apply(s, step, config, h).1, later, config, h)
    ensures !Opens(Run(Apply(s, step, config, h).1, later, config, h), h, step.id, key, now)
  {
    LogoutCloses(s, step, config, h);
    EndedNeverOpens(Apply(s, step, config, h).1, later, config, h, step.id, key, now);
  }

  /** A session whose end is reached when any request but a login with a wrong target is handled never opens again. */
  lemma ExpiryEnds(s: State, step: Step, later: seq<Step>, config: Config, h: Hashes, id: Id, key: string, now: int)
    requires id in s.leases && s.leases[id].expires.Some? && s.leases[id].expires.value <= step.now
    requires !step.Login? && !step.Subject? && Fair(s, step, h)
    requires FairRun(Apply(s, step, config, h).1, later, config, h)
    ensures !Opens(Run(Apply(s, step, config, h).1, later, config, h), h, id, key, now)
  {
    ExpiredHere(s, step, config, h, id);
    EndedNeverOpens(Apply(s, step, config, h).1, later, config, h, id, key, now);
  }

  lemma ExpiredHere(s: State, step: Step, config: Config, h: Hashes, id: Id)
    requires id in s.leases && s.leases[id].expires.Some? && s.leases[id].expires.value <= step.now
    requires !step.Login? && !step.Subject? && Fair(s, step, h)
    ensures var t := Apply(s, step, config, h).1; id in t.leases && t.leases[id].status != Active
  {
    var aged := Expire(s, step.now);
    assert id in aged.leases && aged.leases[id].status != Active;
    if step.Rotate? && Opens(s, h, step.id, step.key, step.now) {
      RotationKeepsClosed(aged, step, config, h, id);
    }
  }

  /** Closing a Subject's access ends its active sessions now and touches nothing else. */
  lemma SubjectCloses(s: State, step: Step, config: Config, h: Hashes)
    requires step.Subject?
    ensures var (reply, t) := Apply(s, step, config, h);
      && reply == Done && t.prefs == s.prefs && t.leases.Keys == s.leases.Keys
      && forall id :: id in s.leases ==>
           if s.leases[id].subject == Some(step.subject) && s.leases[id].status == Active
           then t.leases[id] == s.leases[id].(status := Revoked, ended := Some(step.now))
           else t.leases[id] == s.leases[id]
  {
  }

  /** From then on none of the Subject's sessions opens, whatever follows. */
  lemma SubjectEnds(s: State, step: Step, later: seq<Step>, config: Config, h: Hashes, id: Id, key: string, now: int)
    requires step.Subject? && FairRun(Apply(s, step, config, h).1, later, config, h)
    requires id in s.leases && s.leases[id].subject == Some(step.subject)
    ensures !Opens(Run(Apply(s, step, config, h).1, later, config, h), h, id, key, now)
  {
    SubjectCloses(s, step, config, h);
    EndedNeverOpens(Apply(s, step, config, h).1, later, config, h, id, key, now);
  }

  // ---------------------------------------------------------------- the verifier an installation settles on

  predicate Present(text: Option<string>) {
    text.Some? && text.value != ""
  }

  /** The verifier on record: the access key hash, or the older field where that one is missing or empty. */
  ghost predicate OnRecord(auth: Auth, verifier: string) {
    if Present(auth.accessKeyHash) then auth.accessKeyHash == Some(verifier)
    else if Present(auth.passwordHash) then auth.passwordHash == Some(verifier)
    else verifier == ""
  }

  lemma RecordMeans(auth: Auth)
    ensures OnRecord(auth, Sessions.Stored(auth))
  {
  }

  /** Nothing was ever stored as a verifier. */
  predicate Uninitialized(auth: Auth) {
    auth.accessKeyHash.None? && auth.passwordHash.None?
  }

  /** The preferences on record, or empty ones. */
  function Recorded(s: State): Prefs {
    match s.prefs case None => EMPTY case Some(p) => p
  }

  /**
    Preferences settle exactly if a valid verifier is on record, or none was ever stored and the installation brings a
    valid one or a key to hash. A valid one on record is kept, the configured one comes before a seed, and a stored one
    that is not valid is never replaced.
   */
  lemma SettlesIff(s: State, config: Config, h: Hashes, made: string)
    requires !h.isVerifier("")
    ensures var auth := Recorded(s).auth; var t := Ensure(s, config, h, made);
            var kept := exists v :: OnRecord(auth, v) && h.isVerifier(v);
            var configured := h.isVerifier(config.accessKeyHash);
      && (t.Some? <==>
          kept || (Uninitialized(auth) && (configured || Present(auth.password) || config.accessKey != "")))
      && (t.Some? && kept ==> OnRecord(auth, Verifier(t.value)))
      && (t.Some? && !kept && configured ==> Verifier(t.value) == config.accessKeyHash)
      && (t.Some? && !kept && !configured && made != "" ==> Verifier(t.value) == made)
  {
    RecordMeans(Recorded(s).auth);
  }

  /** Settling keeps the sessions and every preference on record, fills in what is missing, and leaves one verifier. */
  lemma SettlingKeeps(s: State, config: Config, h: Hashes, made: string)
    requires Ensure(s, config, h, made).Some?
    ensures var p := Recorded(s); var t := Ensure(s, config, h, made).value;
      && t.leases == s.leases && t.prefs.Some?
      && t.prefs.value.auth == Auth(Some(t.prefs.value.auth.accessKeyHash.value), None, None)
      && t.prefs.value.accent == (if p.accent.Some? then p.accent else Some("#00A8FF"))
      && t.prefs.value.autoHide == (if p.autoHide.Some? then p.autoHide else Some(false))
      && t.prefs.value.initialized == (if p.initialized.Some? then p.initialized else Some(false))
      && t.prefs.value.revision == (if p.revision.Some? then p.revision else Some(1))
      && t.prefs.value.layout.Some? && (p.layout.Some? ==> t.prefs.value.layout == p.layout)
      && (p.layout.None? ==> t.prefs.value.layout.value == map["navigation" := [], "dashboard" := [], "settings" := []])
  {
  }

  // ---------------------------------------------------------------- logging in

  /** With a valid verifier on record a login is done exactly for this service with a key it accepts; otherwise
      refused. */
  lemma LoginDoneIff(s: State, step: Step, config: Config, h: Hashes)
    requires step.Login? && h.isVerifier(Verifier(s)) && !h.isVerifier("")
    ensures Apply(s, step, config, h).0 ==
      if step.target == "perimetr" && step.access != "" && h.verify(step.access, Verifier(s)) then Done else Denied
  {
  }

  /** A login adds one session and no other change than expiry; a refused one adds none. */
  lemma LoginAdds(s: State, step: Step, config: Config, h: Hashes)
    requires step.Login? && Fair(s, step, h)
    ensures var (reply, t) := Apply(s, step, config, h);
      && t.leases.Keys == s.leases.Keys + (if reply == Done then {step.id} else {})
      && (step.target == "perimetr" && reply != Crashed ==> OthersAge(s, t, step.id, step.now))
      && (step.target != "perimetr" || reply == Crashed ==> t == s)
  {
  }

  /** The end of a session that is opened now: the lifetime counted from the last whole second. */
  ghost predicate EndsAt(config: Config, now: int, end: int) {
    exists second :: second * 1_000_000 <= now < (second + 1) * 1_000_000 && end == second * 1_000_000 + config.lifetime
  }

  lemma WholeSecond(now: int)
    ensures now / 1_000_000 * 1_000_000 <= now < (now / 1_000_000 + 1) * 1_000_000
    ensures now - now % 1_000_000 == now / 1_000_000 * 1_000_000
  {
  }

  lemma EndOfLogin(config: Config, now: int)
    ensures EndsAt(config, now, now - now % 1_000_000 + config.lifetime)
  {
    WholeSecond(now);
  }

  /** The new session opens exactly with its own key, until its end. */
  lemma LoginOpens(s: State, step: Step, config: Config, h: Hashes, key: string, now: int)
    requires Injective(h) && step.Login? && Fair(s, step, h) && Apply(s, step, config, h).0 == Done
    ensures var t := Apply(s, step, config, h).1;
      && step.id in t.leases && t.leases[step.id].expires.Some?
        && EndsAt(config, step.now, t.leases[step.id].expires.value)
      && (Opens(t, h, step.id, key, now) <==> key == step.key && now < t.leases[step.id].expires.value)
  {
    EndOfLogin(config, step.now);
  }

  // ---------------------------------------------------------------- changing the access key

  /** With a valid verifier on record: an access key change is done exactly with open cookies, the current key, and the
      same non-empty new key twice. */
  lemma RotationDoneIff(s: State, step: Step, config: Config, h: Hashes)
    requires step.Rotate? && h.isVerifier(Verifier(s)) && !h.isVerifier("")
    ensures Apply(s, step, config, h).0 ==
      if Opens(s, h, step.id, step.key, step.now) && step.wanted != "" && step.wanted == step.confirmed
         && h.verify(step.current, Verifier(s))
      then Done else Denied
  {
  }

  /** It keeps every preference and the revision, and every session that is not direct. */
  lemma RotationKeeps(s: State, step: Step, config: Config, h: Hashes)
    requires step.Rotate? && Apply(s, step, config, h).0 == Done && s.prefs.Some? && s.prefs.value.layout.Some?
    ensures var t := Apply(s, step, config, h).1; var p := s.prefs.value;
      && t.prefs.Some? && t.prefs.value.auth == Auth(Some(step.verifier), None, None)
      && (p.accent.Some? ==> t.prefs.value.accent == p.accent)
        && (p.autoHide.Some? ==> t.prefs.value.autoHide == p.autoHide)
      && t.prefs.value.layout == p.layout
      && (p.initialized.Some? ==> t.prefs.value.initialized == p.initialized)
      && Revision(t) == Revision(s) && t.leases.Keys == s.leases.Keys
      && forall id :: id in s.leases && s.leases[id].transport != "direct" ==>
           AgesTo(s.leases[id], t.leases[id], step.now)
  {
  }

  /** A direct session that was active before is revoked now, unless it is the current one, which keeps what it is
      for. */
  lemma RotationCloses(s: State, step: Step, config: Config, h: Hashes, id: Id)
    requires step.Rotate? && Apply(s, step, config, h).0 == Done && id in s.leases && s.leases[id].transport == "direct"
    ensures var t := Apply(s, step, config, h).1;
      && id in t.leases
      && if id == step.id
         then t.leases[id] ==
           s.leases[id].(digest := h.digest(step.newKey), expires := Some(step.now + config.lifetime))
         else if s.leases[id].status == Active
           && !(s.leases[id].expires.Some? && s.leases[id].expires.value <= step.now)
         then t.leases[id] == s.leases[id].(status := Revoked, ended := Some(step.now))
         else AgesTo(s.leases[id], t.leases[id], step.now)
  {
  }

  // ---------------------------------------------------------------- editing the preferences

  /** The code points of a name: the ASCII digits and letters, the hyphen and the underscore. */
  predicate InName(c: char) {
    var n := c as int;
    48 <= n < 58 || 65 <= n < 91 || 97 <= n < 123 || n == 45 || n == 95
  }

  /** One column of the layout: a short list of distinct short names. */
  ghost predicate ListFits(items: seq<string>) {
    |items| <= 32 && Distinct(items)
    && forall item :: item in items ==> 0 < |item| <= 64 && forall c :: c in item ==> InName(c)
  }

  lemma ListFitsIff(items: seq<string>)
    ensures OrderOk(items) <==> ListFits(items)
  {
    assert forall c :: NameChar(c) <==> InName(c);
    forall item | item in items
      ensures ItemOk(item) <==> 0 < |item| <= 64 && forall c :: c in item ==> InName(c)
    {
    }
  }

  /** A layout in which only the three columns occur and every one fits. */
  ghost predicate LayoutFits(layout: Layout) {
    forall name :: name in layout ==> name in ["navigation", "dashboard", "settings"] && ListFits(layout[name])
  }

  lemma LayoutFitsIff(layout: Layout)
    ensures LayoutOk(layout) <==> LayoutFits(layout)
  {
    forall name | name in layout
      ensures OrderOk(layout[name]) <==> ListFits(layout[name])
    {
      ListFitsIff(layout[name]);
    }
    assert layout.Keys <= SCOPES <==> forall name :: name in layout ==> name in ["navigation", "dashboard", "settings"];
  }

  /** A change that is well formed: known keys only, no value of a wrong shape, a layout that fits, no reset. */
  ghost predicate Proper(edit: Edit) {
    && edit.unknown == false
    && edit.accent != Some(None) && edit.autoHide != Some(None) && edit.layout != Some(None)
    && (edit.layout.Some? && edit.layout.value.Some? ==> LayoutFits(edit.layout.value.value))
    && edit.initialized != Some(false)
  }

  /** With settled preferences on record: a change is done exactly with open cookies, the current revision and a proper
      body; the order of the refusals is cookies, revision, body. */
  lemma ChangeDoneIff(s: State, step: Step, config: Config, h: Hashes)
    requires step.Change? && h.isVerifier(Verifier(s)) && !h.isVerifier("")
    ensures Apply(s, step, config, h).0 ==
      if !Opens(s, h, step.id, step.key, step.now) then Denied
      else if step.edit.expected != Some(Revision(s)) then Conflict
      else if Proper(step.edit) then Done else Invalid
  {
    if step.edit.layout.Some? && step.edit.layout.value.Some? {
      LayoutFitsIff(step.edit.layout.value.value);
    }
  }

  /** A change that is done gives every key it names the new value and keeps every other preference, and the
      verifier; one that is not changes no preference. */
  lemma ChangeMeans(s: State, step: Step, config: Config, h: Hashes)
    requires step.Change? && s.prefs.Some? && h.isVerifier(Verifier(s)) && !h.isVerifier("")
    ensures var (reply, t) := Apply(s, step, config, h); var p := s.prefs.value;
      && t.leases.Keys == s.leases.Keys
        && (forall id :: id in s.leases ==> AgesTo(s.leases[id], t.leases[id], step.now))
      && (reply != Done ==> t.prefs == s.prefs)
      && (reply == Done ==> t.prefs.Some? && Verifier(t) == Verifier(s) && t.prefs.value.initialized == Some(true))
      && (reply == Done && step.edit.accent.Some? ==> t.prefs.value.accent == step.edit.accent.value)
      && (reply == Done && step.edit.accent.None? && p.accent.Some? ==> t.prefs.value.accent == p.accent)
      && (reply == Done && step.edit.autoHide.Some? ==> t.prefs.value.autoHide == step.edit.autoHide.value)
      && (reply == Done && step.edit.autoHide.None? && p.autoHide.Some? ==> t.prefs.value.autoHide == p.autoHide)
  {
  }

  /** The layout afterwards: columns that the change names are replaced, the others stay. */
  lemma ChangedLayout(s: State, step: Step, config: Config, h: Hashes, name: string)
    requires step.Change? && s.prefs.Some? && s.prefs.value.layout.Some? && Apply(s, step, config, h).0 == Done
    ensures var t := Apply(s, step, config, h).1; var was := s.prefs.value.layout.value; var edit := step.edit.layout;
      && t.prefs.Some? && t.prefs.value.layout.Some?
      && var now := t.prefs.value.layout.value;
      && (name in now <==> name in was || (edit.Some? && name in edit.value.value))
      && (name in now ==>
          now[name] == if edit.Some? && name in edit.value.value then edit.value.value[name] else was[name])
  {
  }

  /** Over every run, a layout that fits keeps fitting. */
  ghost predicate LayoutIntact(s: State) {
    s.prefs.Some? && s.prefs.value.layout.Some? ==> LayoutFits(s.prefs.value.layout.value)
  }

  lemma SettlingKeepsLayout(s: State, config: Config, h: Hashes, made: string)
    requires LayoutIntact(s) && Ensure(s, config, h, made).Some?
    ensures LayoutIntact(Ensure(s, config, h, made).value)
  {
  }

  lemma EditKeepsLayout(p: Prefs, edit: Edit)
    requires EditOk(edit) && p.layout.Some? && p.revision.Some? && LayoutFits(p.layout.value)
    ensures LayoutFits(Edited(p, edit).layout.value)
  {
    if edit.layout.Some? {
      LayoutFitsIff(edit.layout.value.value);
    }
  }

  lemma ChangeKeepsLayout(s: State, step: Step, config: Config, h: Hashes)
    requires step.Change? && LayoutIntact(s)
    ensures LayoutIntact(ChangePrefs(s, step, config, h).1)
  {
    var aged := Expire(s, step.now);
    match Ensure(aged, config, h, step.made) {
      case None =>
      case Some(t) =>
        SettlingKeepsLayout(aged, config, h, step.made);
        if EditOk(step.edit) {
          EditKeepsLayout(t.prefs.value, step.edit);
        }
    }
  }

  lemma RotationKeepsLayout(s: State, step: Step, config: Config, h: Hashes)
    requires step.Rotate? && LayoutIntact(s)
    ensures LayoutIntact(Apply(s, step, config, h).1)
  {
  }

  lemma LoginKeepsLayout(s: State, step: Step, config: Config, h: Hashes)
    requires step.Login? && LayoutIntact(s)
    ensures LayoutIntact(LogIn(s, step, config, h).1)
  {
  }

  lemma StepKeepsLayout(s: State, step: Step, config: Config, h: Hashes)
    requires LayoutIntact(s)
    ensures LayoutIntact(Apply(s, step, config, h).1)
  {
    if step.Change? {
      ChangeKeepsLayout(s, step, config, h);
    } else if step.Rotate? {
      RotationKeepsLayout(s, step, config, h);
    } else if step.Login? {
      LoginKeepsLayout(s, step, config, h);
    }
  }

  lemma {:induction false} LayoutStaysIntact(s: State, steps: seq<Step>, config: Config, h: Hashes)
    requires LayoutIntact(s)
    ensures LayoutIntact(Run(s, steps, config, h))
    decreases |steps|
  {
    if steps != [] {
      StepKeepsLayout(s, steps[0], config, h);
      LayoutStaysIntact(Apply(s, steps[0], config, h).1, steps[1..], config, h);
    }
  }

  /** Reading settles the preferences as any other request does, or fails and stores nothing. */
  lemma ReadMeans(s: State, step: Step, config: Config, h: Hashes)
    requires step.Read? && Opens(s, h, step.id, step.key, step.now) && h.isVerifier(Verifier(s)) && !h.isVerifier("")
    ensures var (reply, t) := Apply(s, step, config, h);
      && reply == Done && Verifier(t) == Verifier(s) && Revision(t) == Revision(s)
      && t.leases.Keys == s.leases.Keys && forall id :: id in s.leases ==> AgesTo(s.leases[id], t.leases[id], step.now)
  {
  }
}
