/** Operator sessions, the stored access key verifier and the revision of the preferences. */
module Sessions {
  import opened Common

  type Id = string

  datatype Status = Active | Expired | Revoked

  /** Times are microseconds. */
  datatype Lease = Lease(status: Status, digest: string, scope: string, transport: string, subject: Option<Id>,
                         expires: Option<int>, ended: Option<int>)

  /** The auth part of the stored preferences: today's verifier, an older one, and a plain password of old
      installations. */
  datatype Auth = Auth(accessKeyHash: Option<string>, passwordHash: Option<string>, password: Option<string>)

  type Layout = map<string, seq<string>>

  datatype Prefs = Prefs(auth: Auth, accent: Option<string>, autoHide: Option<bool>, layout: Option<Layout>,
                         initialized: Option<bool>, revision: Option<int>)

  datatype State = State(leases: map<Id, Lease>, prefs: Option<Prefs>)

  /** Settings of the installation; lifetimes are microseconds. */
  datatype Config = Config(accessKey: string, accessKeyHash: string, lifetime: int)

  /** What is assumed of the hash functions. */
  datatype Hashes = Hashes(isVerifier: string -> bool, verify: (string, string) -> bool, digest: string -> string)

  ghost predicate Injective(h: Hashes) {
    forall a, b :: h.digest(a) == h.digest(b) ==> a == b
  }

  datatype Reply = Done | Denied | Conflict | Invalid | Crashed

  // ---------------------------------------------------------------- leases

  predicate Stale(lease: Lease, now: int) {
    lease.status == Active && lease.expires.Some? && lease.expires.value <= now
  }

  function Aged(lease: Lease, now: int): Lease {
    if Stale(lease, now) then lease.(status := Expired, ended := Some(now)) else lease
  }

  function Expire(s: State, now: int): State {
    s.(leases := map id | id in s.leases :: Aged(s.leases[id], now))
  }

  /** Does this pair of cookies open a session now? */
  predicate Opens(s: State, h: Hashes, id: Id, key: string, now: int) {
    && id != "" && key != "" && id in s.leases
    && var lease := Aged(s.leases[id], now);
       lease.status == Active && lease.digest == h.digest(key) && lease.scope == "perimetr"
         && lease.transport == "direct"
  }

  function Close(s: State, id: Id, now: int): State
    requires id in s.leases
  {
    s.(leases := s.leases[id := s.leases[id].(status := Revoked, ended := Some(now))])
  }

  function RevokeSubject(s: State, subject: Id, now: int): State {
    s.(leases := map id | id in s.leases ::
      if s.leases[id].subject == Some(subject) && s.leases[id].status == Active
      then s.leases[id].(status := Revoked, ended := Some(now)) else s.leases[id])
  }

  // ---------------------------------------------------------------- preferences

  const EMPTY := Prefs(Auth(None, None, None), None, None, None, None, None)

  function Or<T>(value: Option<T>, default: T): T {
    if value.Some? then value.value else default
  }

  /** The verifier a record holds: the access key hash unless it is empty, else the older field. */
  function Stored(auth: Auth): string {
    if Or(auth.accessKeyHash, "") != "" then auth.accessKeyHash.value else Or(auth.passwordHash, "")
  }

  function Verifier(s: State): string {
    Stored(Or(s.prefs, EMPTY).auth)
  }

  function Revision(s: State): int {
    Or(Or(s.prefs, EMPTY).revision, 1)
  }

  /** The password that seeds an installation without a verifier. */
  function Seed(auth: Auth, config: Config): string {
    if Or(auth.password, "") != "" then auth.password.value else config.accessKey
  }

  /** The verifier ensure_preferences settles on; `made` is a fresh hash of the seed. None where it raises. */
  function Settled(auth: Auth, config: Config, h: Hashes, made: string): Option<string> {
    if h.isVerifier(Stored(auth)) then Some(Stored(auth))
    else if auth.accessKeyHash.Some? || auth.passwordHash.Some? then None
    else if h.isVerifier(config.accessKeyHash) then Some(config.accessKeyHash)
    else if Seed(auth, config) != "" then Some(made)
    else None
  }

  function Filled(prefs: Prefs, verifier: string): Prefs {
    Prefs(Auth(Some(verifier), None, None), Some(Or(prefs.accent, "#00A8FF")), Some(Or(prefs.autoHide, false)),
          Some(Or(prefs.layout, map["navigation" := [], "dashboard" := [], "settings" := []])),
          Some(Or(prefs.initialized, false)), Some(Or(prefs.revision, 1)))
  }

  function Ensure(s: State, config: Config, h: Hashes, made: string): Option<State> {
    var prefs := Or(s.prefs, EMPTY);
    match Settled(prefs.auth, config, h, made)
    case None => None
    case Some(verifier) => Some(s.(prefs := Some(Filled(prefs, verifier))))
  }

  /** The body of a preferences request. None in a field is an absent key, Some(None) a value of the wrong shape. */
  datatype Edit = Edit(expected: Option<int>, unknown: bool, accent: Option<Option<string>>,
                       autoHide: Option<Option<bool>>, layout: Option<Option<Layout>>, initialized: Option<bool>)

  predicate NameChar(c: char) {
    'A' <= c <= 'Z' || 'a' <= c <= 'z' || '0' <= c <= '9' || c == '_' || c == '-'
  }

  predicate ItemOk(item: string) {
    1 <= |item| <= 64 && forall i | 0 <= i < |item| :: NameChar(item[i])
  }

  predicate OrderOk(items: seq<string>) {
    && |items| <= 32
    && (forall i | 0 <= i < |items| :: ItemOk(items[i]))
    && forall i, j | 0 <= i < j < |items| :: items[i] != items[j]
  }

  const SCOPES := {"navigation", "dashboard", "settings"}

  predicate LayoutOk(layout: Layout) {
    layout.Keys <= SCOPES && forall name | name in layout :: OrderOk(layout[name])
  }

  predicate EditOk(edit: Edit) {
    && !edit.unknown
    && (edit.accent.Some? ==> edit.accent.value.Some?)
    && (edit.autoHide.Some? ==> edit.autoHide.value.Some?)
    && (edit.layout.Some? ==> edit.layout.value.Some? && LayoutOk(edit.layout.value.value))
    && (edit.initialized.Some? ==> edit.initialized.value)
  }

  function Edited(prefs: Prefs, edit: Edit): Prefs
    requires EditOk(edit) && prefs.layout.Some? && prefs.revision.Some?
  {
    prefs.(accent := if edit.accent.Some? then edit.accent.value else prefs.accent,
           autoHide := if edit.autoHide.Some? then edit.autoHide.value else prefs.autoHide,
           layout := if edit.layout.Some? then Some(prefs.layout.value + edit.layout.value.value) else prefs.layout,
           initialized := Some(true),
           revision := Some(prefs.revision.value + 1))
  }

  // ---------------------------------------------------------------- requests

  datatype Step =
    | Touch(id: Id, key: string, now: int)
    | Login(target: string, access: string, id: Id, key: string, made: string, now: int)
    | Logout(id: Id, key: string, now: int)
    | Rotate(id: Id, key: string, current: string, wanted: string, confirmed: string, verifier: string, newKey: string,
             made: string, now: int)
    | Change(id: Id, key: string, edit: Edit, made: string, now: int)
    | Read(id: Id, key: string, made: string, now: int)
    | Subject(subject: Id, now: int)

  /** What the random parts of a step may be: a new lease id, and hashes that are hashes. */
  predicate Fair(s: State, step: Step, h: Hashes) {
    match step
    case Login(_, _, id, key, made, _) => id != "" && id !in s.leases && key != "" && h.isVerifier(made)
    case Rotate(_, _, _, wanted, _, verifier, newKey, made, _) =>
      h.isVerifier(verifier) && h.verify(wanted, verifier) && newKey != "" && h.isVerifier(made)
    case Change(_, _, _, made, _) => h.isVerifier(made)
    case Read(_, _, made, _) => h.isVerifier(made)
    case _ => true
  }

  /** The session a login opens; its end is counted from a whole second. */
  function Opened(h: Hashes, config: Config, key: string, now: int): Lease {
    Lease(Active, h.digest(key), "perimetr", "direct", None, Some(now - now % 1_000_000 + config.lifetime), None)
  }

  function LogIn(s: State, step: Step, config: Config, h: Hashes): (Reply, State)
    requires step.Login?
  {
    if step.target != "perimetr" then (Denied, s)
    else
      match Ensure(Expire(s, step.now), config, h, step.made)
      case None => (Crashed, s)
      case Some(t) =>
        if step.access == "" || !h.verify(step.access, Verifier(t)) then (Denied, t)
        else (Done, t.(leases := t.leases[step.id := Opened(h, config, step.key, step.now)]))
  }

  /** Every other direct session is closed; the current one gets a new key and a new end. */
  function OnlyKept(leases: map<Id, Lease>, kept: Id, digest: string, ends: int, now: int): map<Id, Lease> {
    map id | id in leases ::
      if id == kept then leases[id].(digest := digest, expires := Some(ends))
      else if leases[id].status == Active && leases[id].transport == "direct"
      then leases[id].(status := Revoked, ended := Some(now))
      else leases[id]
  }

  /** update_access_key, for a session the request was let in with. */
  function RotateKey(s: State, step: Step, config: Config, h: Hashes): (Reply, State)
    requires step.Rotate?
  {
    if step.wanted == "" || step.wanted != step.confirmed then (Denied, s)
    else
      match Ensure(s, config, h, step.made)
      case None => (Crashed, s)
      case Some(t) =>
        if !h.verify(step.current, Verifier(t)) then (Denied, t)
        else (Done, State(OnlyKept(t.leases, step.id, h.digest(step.newKey), step.now + config.lifetime, step.now),
                          Some(t.prefs.value.(auth := Auth(Some(step.verifier), None, None)))))
  }

  function ChangePrefs(s: State, step: Step, config: Config, h: Hashes): (Reply, State)
    requires step.Change?
  {
    var s := Expire(s, step.now);
    match Ensure(s, config, h, step.made)
    case None => (Crashed, s)
    case Some(t) =>
      if step.edit.expected != Some(Revision(t)) then (Conflict, s)
      else if !EditOk(step.edit) then (Invalid, s)
      else (Done, t.(prefs := Some(Edited(t.prefs.value, step.edit))))
  }

  function ReadPrefs(s: State, step: Step, config: Config, h: Hashes): (Reply, State)
    requires step.Read?
  {
    var s := Expire(s, step.now);
    match Ensure(s, config, h, step.made)
    case None => (Crashed, s)
    case Some(t) => (Done, t)
  }

  /** Every step but a login and the close of a Subject's access first asks for an open session. */
  function Apply(s: State, step: Step, config: Config, h: Hashes): (Reply, State) {
    if step.Login? then LogIn(s, step, config, h)
    else if step.Subject? then (Done, RevokeSubject(s, step.subject, step.now))
    else if !Opens(s, h, step.id, step.key, step.now) then (Denied, Expire(s, step.now))
    else if step.Touch? then (Done, Expire(s, step.now))
    else if step.Logout? then (Done, Close(Expire(s, step.now), step.id, step.now))
    else if step.Rotate? then RotateKey(Expire(s, step.now), step, config, h)
    else if step.Change? then ChangePrefs(s, step, config, h)
    else ReadPrefs(s, step, config, h)
  }

  function Run(s: State, steps: seq<Step>, config: Config, h: Hashes): State
    decreases |steps|
  {
    if steps == [] then s else Run(Apply(s, steps[0], config, h).1, steps[1..], config, h)
  }

  ghost predicate FairRun(s: State, steps: seq<Step>, config: Config, h: Hashes)
    decreases |steps|
  {
    steps == [] || (Fair(s, steps[0], h) && FairRun(Apply(s, steps[0], config, h).1, steps[1..], config, h))
  }

  // ---------------------------------------------------------------- leases never come back

  lemma ExpireKeepsClosed(s: State, now: int, id: Id)
    requires id in s.leases && s.leases[id].status != Active
    ensures id in Expire(s, now).leases && Expire(s, now).leases[id] == s.leases[id]
  {
  }

  lemma RotationKeepsClosed(s: State, step: Step, config: Config, h: Hashes, id: Id)
    requires step.Rotate? && step.id in s.leases && s.leases[step.id].status == Active
    requires id in s.leases && s.leases[id].status != Active
    ensures var t := RotateKey(s, step, config, h).1; id in t.leases && t.leases[id] == s.leases[id]
  {
  }

  /** Nothing about a lease that has left active ever changes. */
  lemma StepKeepsClosed(s: State, step: Step, config: Config, h: Hashes, id: Id)
    requires Fair(s, step, h)
    requires id in s.leases && s.leases[id].status != Active
    ensures var t := Apply(s, step, config, h).1; id in t.leases && t.leases[id] == s.leases[id]
  {
    if !step.Subject? {
      ExpireKeepsClosed(s, step.now, id);
    }
    if step.Rotate? && Opens(s, h, step.id, step.key, step.now) {
      RotationKeepsClosed(Expire(s, step.now), step, config, h, id);
    }
  }

  lemma {:induction false} ClosedNeverReturns(s: State, steps: seq<Step>, config: Config, h: Hashes, id: Id)
    requires FairRun(s, steps, config, h)
    requires id in s.leases && s.leases[id].status != Active
    ensures var t := Run(s, steps, config, h); id in t.leases && t.leases[id] == s.leases[id]
    decreases |steps|
  {
    if steps != [] {
      StepKeepsClosed(s, steps[0], config, h, id);
      ClosedNeverReturns(Apply(s, steps[0], config, h).1, steps[1..], config, h, id);
    }
  }

  /** A session that has ended opens nothing again, whatever key is tried. */
  lemma EndedNeverOpens(s: State, steps: seq<Step>, config: Config, h: Hashes, id: Id, key: string, now: int)
    requires FairRun(s, steps, config, h)
    requires id in s.leases && s.leases[id].status != Active
    ensures !Opens(Run(s, steps, config, h), h, id, key, now)
  {
    ClosedNeverReturns(s, steps, config, h, id);
  }

  // ---------------------------------------------------------------- rotation

  /** Right after an accepted rotation one direct session is open, and only its new key opens it. */
  lemma RotationLeavesOne(s: State, step: Step, config: Config, h: Hashes)
    requires step.Rotate? && Fair(s, step, h) && Apply(s, step, config, h).0 == Done
    ensures var t := Apply(s, step, config, h).1;
            forall id ::
              id in t.leases && t.leases[id].status == Active && t.leases[id].transport == "direct" <==> id == step.id
  {
  }

  lemma OnlyNewKeyOpens(s: State, step: Step, config: Config, h: Hashes, id: Id, key: string, now: int)
    requires Injective(h) && step.Rotate? && Fair(s, step, h) && Apply(s, step, config, h).0 == Done
    ensures Opens(Apply(s, step, config, h).1, h, id, key, now) <==>
            id == step.id && key == step.newKey && now < step.now + config.lifetime
  {
    RotationLeavesOne(s, step, config, h);
  }

  /** From then on the new access key is the one that logs in. */
  lemma NewKeyLogsIn(s: State, rotation: Step, login: Step, config: Config, h: Hashes)
    requires rotation.Rotate? && Fair(s, rotation, h) && Apply(s, rotation, config, h).0 == Done
    requires login.Login? && login.target == "perimetr" && login.access != ""
    ensures Apply(Apply(s, rotation, config, h).1, login, config, h).0 ==
            if h.verify(login.access, rotation.verifier) then Done else Denied
  {
  }

  // ---------------------------------------------------------------- the verifier

  predicate Rotates(s: State, step: Step, config: Config, h: Hashes) {
    step.Rotate? && Apply(s, step, config, h).0 == Done
  }

  /** Once valid, the stored verifier stays valid, and changes in an accepted rotation only. */
  lemma StepKeepsVerifier(s: State, step: Step, config: Config, h: Hashes)
    requires Fair(s, step, h) && h.isVerifier(Verifier(s)) && !h.isVerifier("")
    ensures h.isVerifier(Verifier(Apply(s, step, config, h).1))
    ensures Verifier(Apply(s, step, config, h).1) == if Rotates(s, step, config, h) then step.verifier else Verifier(s)
  {
  }

  ghost predicate NoRotation(s: State, steps: seq<Step>, config: Config, h: Hashes)
    decreases |steps|
  {
    steps == []
      || (!Rotates(s, steps[0], config, h) && NoRotation(Apply(s, steps[0], config, h).1, steps[1..], config, h))
  }

  lemma {:induction false} VerifierOnlyRotates(s: State, steps: seq<Step>, config: Config, h: Hashes)
    requires FairRun(s, steps, config, h) && h.isVerifier(Verifier(s)) && !h.isVerifier("")
    ensures h.isVerifier(Verifier(Run(s, steps, config, h)))
    ensures NoRotation(s, steps, config, h) ==> Verifier(Run(s, steps, config, h)) == Verifier(s)
    decreases |steps|
  {
    if steps != [] {
      StepKeepsVerifier(s, steps[0], config, h);
      VerifierOnlyRotates(Apply(s, steps[0], config, h).1, steps[1..], config, h);
    }
  }

  // ---------------------------------------------------------------- revisions

  predicate Accepts(s: State, step: Step, config: Config, h: Hashes) {
    step.Change? && Apply(s, step, config, h).0 == Done
  }

  /** The revision goes up by one in an accepted edit, which named the revision it replaces, and stays elsewhere. */
  lemma StepRevision(s: State, step: Step, config: Config, h: Hashes)
    ensures Revision(Apply(s, step, config, h).1) == Revision(s) + if Accepts(s, step, config, h) then 1 else 0
    ensures Accepts(s, step, config, h) ==> step.edit.expected == Some(Revision(s))
  {
  }

  ghost function AcceptedEdits(s: State, steps: seq<Step>, config: Config, h: Hashes): nat
    decreases |steps|
  {
    if steps == [] then 0
    else (if Accepts(s, steps[0], config, h) then 1 else 0)
         + AcceptedEdits(Apply(s, steps[0], config, h).1, steps[1..], config, h)
  }

  lemma {:induction false} RevisionCounts(s: State, steps: seq<Step>, config: Config, h: Hashes)
    ensures Revision(Run(s, steps, config, h)) == Revision(s) + AcceptedEdits(s, steps, config, h)
    decreases |steps|
  {
    if steps != [] {
      StepRevision(s, steps[0], config, h);
      RevisionCounts(Apply(s, steps[0], config, h).1, steps[1..], config, h);
    }
  }

  /** Of two edits that expect the same revision at most one is accepted, whatever happens in between. */
  lemma OneEditWins(s: State, first: Step, between: seq<Step>, second: Step, config: Config, h: Hashes)
    requires first.Change? && second.Change? && first.edit.expected == second.edit.expected
    requires Accepts(s, first, config, h)
    ensures !Accepts(Run(Apply(s, first, config, h).1, between, config, h), second, config, h)
  {
    var t := Apply(s, first, config, h).1;
    StepRevision(s, first, config, h);
    RevisionCounts(t, between, config, h);
    StepRevision(Run(t, between, config, h), second, config, h);
  }
}
