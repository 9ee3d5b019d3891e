/** What every run of the pod protocol keeps, and what it can never do again. */
module PodInvariants {
  import opened Common
  import opened PodProtocol

  // ---------------------------------------------------------------- the invariant

  /** Foreign keys hold; a pod's record is active, belongs to the same subject and has no other pod. */
  ghost predicate Linked(s: State) {
    && (forall p :: p in s.pods ==> s.pods[p].subject in s.subjects)
    && (forall r :: r in s.records ==> s.records[r].subject in s.subjects)
    && (forall p :: p in s.pods && s.pods[p].record.Some? ==>
          && s.pods[p].record.value in s.records
          && s.records[s.pods[p].record.value].subject == s.pods[p].subject
          && s.records[s.pods[p].record.value].status == Active)
    && (forall p, q ::
      p in s.pods && q in s.pods && p != q && s.pods[p].record.Some? ==> s.pods[p].record != s.pods[q].record)
  }

  /** A record's token is erased exactly when it is active or removed, exactly when its hash is denied. */
  ghost predicate TokensOk(s: State) {
    && (forall r :: r in s.records ==> (s.records[r].token == "" <==> s.records[r].status in {Active, Removed}))
    && (forall r :: r in s.records ==> (s.records[r].token == "" <==> TokenHash(s.records[r].hash) in s.deny))
    && (forall q, r :: q in s.records && r in s.records && q != r ==> s.records[q].hash != s.records[r].hash)
  }

  /** An enrolled pod's certificate is its own, and denied exactly when the pod is revoked. */
  ghost predicate IdentitiesOk(s: State) {
    && (forall p :: p in s.pods ==> (Keyed(s.pods[p]) <==> s.pods[p].fingerprint != ""))
    && (forall p, q ::
      p in s.pods && q in s.pods && p != q && Keyed(s.pods[p]) ==> s.pods[p].fingerprint != s.pods[q].fingerprint)
    && (forall p :: p in s.pods && Keyed(s.pods[p]) ==>
          (s.pods[p].status == Revoked <==> Certificate(s.pods[p].fingerprint) in s.deny))
    && (forall p :: p in s.pods && Keyed(s.pods[p]) && s.pods[p].status == Revoked && s.pods[p].device != "" ==>
          Device(s.pods[p].device) in s.deny)
    && (forall p :: p in s.pods ==> p != "")
    && Device("") !in s.deny
  }

  /** A subject points to one of its own pods, and never to a revoked enrolled one. */
  ghost predicate CurrentOk(s: State) {
    forall x :: x in s.subjects && s.subjects[x].Some? ==>
      && s.subjects[x].value in s.pods
      && s.pods[s.subjects[x].value].subject == x
      && (Keyed(s.pods[s.subjects[x].value]) ==> s.pods[s.subjects[x].value].status != Revoked)
  }

  ghost predicate Inv(s: State) {
    Linked(s) && TokensOk(s) && IdentitiesOk(s) && CurrentOk(s)
  }

  lemma EmptyStateOk()
    ensures Inv(State(map[], map[], map[], {}))
  {
  }

  // ---------------------------------------------------------------- every step keeps it

  /** Only status, sequence and heartbeat time of pods change, and no enrolled pod becomes revoked or leaves it. */
  ghost predicate OnlyStatus(s: State, t: State) {
    && t.subjects == s.subjects && t.records == s.records && t.deny == s.deny && t.pods.Keys == s.pods.Keys
    && forall p :: p in s.pods ==>
         && t.pods[p] ==
           s.pods[p].(status := t.pods[p].status, sequence := t.pods[p].sequence, heartbeat := t.pods[p].heartbeat)
         && (Keyed(s.pods[p]) ==> (t.pods[p].status == Revoked <==> s.pods[p].status == Revoked))
  }

  lemma OnlyStatusKeeps(s: State, t: State)
    requires Inv(s) && OnlyStatus(s, t)
    ensures Inv(t)
  {
    assert Linked(t) && CurrentOk(t);
    assert TokensOk(t);
  }

  lemma ListSubjectKeeps(s: State, subject: Id, now: int, offlineAfter: int)
    ensures OnlyStatus(s, ListSubject(s, subject, now, offlineAfter).1)
  {
  }

  lemma ListAllKeeps(s: State, now: int, offlineAfter: int)
    ensures OnlyStatus(s, ListAll(s, now, offlineAfter).1)
  {
  }

  lemma BeatKeeps(s: State, id: Id, h: Heartbeat, now: int)
    ensures OnlyStatus(s, Beat(s, id, h, now).1)
  {
  }

  lemma ListingKeeps(s: State, step: Step)
    requires step.DoListSubject? || step.DoListAll? || step.DoVerify? || step.DoBeat?
    ensures OnlyStatus(s, Apply(s, step).1)
  {
    match step
    case DoListSubject(subject, now, offlineAfter) => ListSubjectKeeps(s, subject, now, offlineAfter);
    case DoListAll(now, offlineAfter) => ListAllKeeps(s, now, offlineAfter);
    case DoBeat(id, h, now) => BeatKeeps(s, id, h, now);
    case DoVerify(id, credentials) =>
  }

  lemma CreateRecordKeeps(s: State, subject: Id, valid: bool, id: Id, hash: string, token: string, expires: Option<int>)
    requires Inv(s) && Fresh(s, DoCreateRecord(subject, valid, id, hash, token, expires))
    ensures Inv(CreateRecord(s, subject, valid, id, hash, token, expires).1)
  {
    var t := CreateRecord(s, subject, valid, id, hash, token, expires).1;
    CreateRecordLinked(s, subject, valid, id, hash, token, expires);
    CreateRecordTokens(s, subject, valid, id, hash, token, expires);
    assert t.pods == s.pods && t.deny == s.deny && t.subjects == s.subjects;
  }

  lemma CreateRecordLinked(s: State, subject: Id, valid: bool, id: Id, hash: string, token: string,
                           expires: Option<int>)
    requires Linked(s)
    ensures Linked(CreateRecord(s, subject, valid, id, hash, token, expires).1)
  {
  }

  lemma CreateRecordTokens(s: State, subject: Id, valid: bool, id: Id, hash: string, token: string,
                           expires: Option<int>)
    requires TokensOk(s) && Fresh(s, DoCreateRecord(subject, valid, id, hash, token, expires))
    ensures TokensOk(CreateRecord(s, subject, valid, id, hash, token, expires).1)
  {
  }

  lemma DownloadTokens(s: State, subject: Id, id: Id, now: int, artifact: bool)
    requires TokensOk(s)
    ensures TokensOk(Download(s, subject, id, now, artifact).1)
  {
  }

  lemma DownloadLinked(s: State, subject: Id, id: Id, now: int, artifact: bool)
    requires Linked(s)
    ensures Linked(Download(s, subject, id, now, artifact).1)
  {
  }

  lemma DownloadKeeps(s: State, subject: Id, id: Id, now: int, artifact: bool)
    requires Inv(s)
    ensures Inv(Download(s, subject, id, now, artifact).1)
  {
    var t := Download(s, subject, id, now, artifact).1;
    DownloadTokens(s, subject, id, now, artifact);
    DownloadLinked(s, subject, id, now, artifact);
    assert t.pods == s.pods && t.deny == s.deny && t.subjects == s.subjects;
  }

  lemma DeletePendingTokens(s: State, subject: Id, id: Id)
    requires TokensOk(s)
    ensures TokensOk(DeletePending(s, subject, id).1)
  {
  }

  lemma DeletePendingLinked(s: State, subject: Id, id: Id)
    requires Linked(s)
    ensures Linked(DeletePending(s, subject, id).1)
  {
  }

  lemma DeletePendingIdentities(s: State, subject: Id, id: Id)
    requires IdentitiesOk(s)
    ensures IdentitiesOk(DeletePending(s, subject, id).1)
  {
  }

  lemma DeletePendingKeeps(s: State, subject: Id, id: Id)
    requires Inv(s)
    ensures Inv(DeletePending(s, subject, id).1)
  {
    DeletePendingTokens(s, subject, id);
    DeletePendingLinked(s, subject, id);
    DeletePendingIdentities(s, subject, id);
    assert DeletePending(s, subject, id).1.pods == s.pods && DeletePending(s, subject, id).1.subjects == s.subjects;
  }

  lemma CreateSubjectLinked(s: State, subject: Id, pod: Option<Id>)
    requires Linked(s)
    ensures Linked(CreateSubject(s, subject, pod).1)
  {
  }

  lemma CreateSubjectCurrent(s: State, subject: Id, pod: Option<Id>)
    requires Inv(s)
    ensures CurrentOk(CreateSubject(s, subject, pod).1)
  {
  }

  lemma CreateSubjectIdentities(s: State, subject: Id, pod: Option<Id>)
    requires IdentitiesOk(s) && Fresh(s, DoCreateSubject(subject, pod))
    ensures IdentitiesOk(CreateSubject(s, subject, pod).1)
  {
  }

  lemma CreateSubjectKeeps(s: State, subject: Id, pod: Option<Id>)
    requires Inv(s) && Fresh(s, DoCreateSubject(subject, pod))
    ensures Inv(CreateSubject(s, subject, pod).1)
  {
    CreateSubjectLinked(s, subject, pod);
    CreateSubjectCurrent(s, subject, pod);
    CreateSubjectIdentities(s, subject, pod);
    assert CreateSubject(s, subject, pod).1.records == s.records && CreateSubject(s, subject, pod).1.deny == s.deny;
  }

  /** The deletion denies the subject's own certificates and no one else's. */
  lemma DeniedForDeletion(s: State, subject: Id, p: Id)
    requires IdentitiesOk(s) && p in s.pods && Keyed(s.pods[p])
    ensures Certificate(s.pods[p].fingerprint) in DeniedWith(s, subject) <==>
            s.pods[p].subject == subject || Certificate(s.pods[p].fingerprint) in s.deny
  {
    var x := Certificate(s.pods[p].fingerprint);
    if s.pods[p].subject == subject {
      assert p in PodsOf(s, subject) && x in Identifiers(p, s.pods[p]);
    }
    if x in DeniedWith(s, subject) && x !in s.deny {
      var id :| id in PodsOf(s, subject) && x in Identifiers(id, s.pods[id]);
      assert id == p;
    }
  }

  lemma DeletionCertificates(s: State, subject: Id)
    requires IdentitiesOk(s)
    ensures forall p :: p in s.pods && s.pods[p].subject != subject && Keyed(s.pods[p]) ==>
      (s.pods[p].status == Revoked <==> Certificate(s.pods[p].fingerprint) in DeniedWith(s, subject))
  {
    forall p | p in s.pods && s.pods[p].subject != subject && Keyed(s.pods[p])
      ensures s.pods[p].status == Revoked <==> Certificate(s.pods[p].fingerprint) in DeniedWith(s, subject)
    {
      DeniedForDeletion(s, subject, p);
    }
  }

  lemma DeletionDevices(s: State, subject: Id)
    requires Device("") !in s.deny
    ensures Device("") !in DeniedWith(s, subject) && s.deny <= DeniedWith(s, subject)
  {
    assert forall id, x :: id in PodsOf(s, subject) && x in Identifiers(id, s.pods[id]) ==> x != Device("");
  }

  lemma DeleteSubjectIdentities(s: State, subject: Id)
    requires IdentitiesOk(s) && subject in s.subjects && !Collides(s, subject)
    ensures IdentitiesOk(DeleteSubject(s, subject).1)
  {
    DeletionCertificates(s, subject);
    DeletionDevices(s, subject);
  }

  lemma DeleteSubjectKeeps(s: State, subject: Id)
    requires Inv(s)
    ensures Inv(DeleteSubject(s, subject).1)
  {
    var t := DeleteSubject(s, subject).1;
    if t != s {
      DeleteSubjectIdentities(s, subject);
      DeleteSubjectRest(s, subject);
      DeleteSubjectTokens(s, subject);
    }
  }

  lemma DeleteSubjectRest(s: State, subject: Id)
    requires Inv(s)
    ensures Linked(DeleteSubject(s, subject).1) && CurrentOk(DeleteSubject(s, subject).1)
  {
  }

  lemma DeleteSubjectTokens(s: State, subject: Id)
    requires TokensOk(s)
    ensures TokensOk(DeleteSubject(s, subject).1)
  {
  }

  lemma EnrollLinked(s: State, e: Enrollment, now: int)
    requires Linked(s)
    ensures Linked(Enroll(s, e, now).1)
  {
  }

  lemma EnrollCurrent(s: State, e: Enrollment, now: int)
    requires Inv(s)
    ensures CurrentOk(Enroll(s, e, now).1)
  {
  }

  lemma EnrollTokens(s: State, e: Enrollment, now: int)
    requires Inv(s)
    ensures TokensOk(Enroll(s, e, now).1)
  {
  }

  /** A new pod with a free certificate spoils nothing. */
  lemma AdmitKeepsIdentities(s: State, t: State, id: Id, pod: Pod, hash: string)
    requires IdentitiesOk(s) && id !in s.pods && id != "" && Keyed(pod) && pod.fingerprint != ""
      && pod.status != Revoked
    requires Certificate(pod.fingerprint) !in s.deny && !Registered(s, pod.fingerprint)
    requires t.pods == s.pods[id := pod] && s.deny <= t.deny <= s.deny + {TokenHash(hash)}
    ensures IdentitiesOk(t)
  {
    forall p | p in s.pods
      ensures s.pods[p].fingerprint != pod.fingerprint
    {
      assert Keyed(s.pods[p]) ==> (s.pods[p].status == Revoked <==> Certificate(s.pods[p].fingerprint) in s.deny);
    }
  }

  lemma EnrollIdentities(s: State, e: Enrollment, now: int)
    requires IdentitiesOk(s) && Fresh(s, DoEnroll(e, now))
    ensures IdentitiesOk(Enroll(s, e, now).1)
  {
    var (reply, t) := Enroll(s, e, now);
    if reply == Done {
      var hash := if e.source.FromRecord? then s.records[e.source.id].hash else "";
      AdmitKeepsIdentities(s, t, e.id, t.pods[e.id], hash);
    }
  }

  lemma RevokeLinked(s: State, id: Id)
    requires Linked(s)
    ensures Linked(Revoke(s, id).1)
  {
  }

  lemma RevokeCurrent(s: State, id: Id)
    requires CurrentOk(s)
    ensures CurrentOk(Revoke(s, id).1)
  {
  }

  lemma RevokeTokens(s: State, id: Id)
    requires TokensOk(s)
    ensures TokensOk(Revoke(s, id).1)
  {
  }

  lemma RevokeIdentities(s: State, id: Id)
    requires IdentitiesOk(s)
    ensures IdentitiesOk(Revoke(s, id).1)
  {
  }

  /** Every step of the protocol keeps the invariant. */
  lemma StepKeeps(s: State, step: Step)
    requires Inv(s) && Fresh(s, step)
    ensures Inv(Apply(s, step).1)
  {
    match step
    case DoCreateSubject(subject, pod) => CreateSubjectKeeps(s, subject, pod);
    case DoDeleteSubject(subject) => DeleteSubjectKeeps(s, subject);
    case DoCreateRecord(subject, valid, id, hash, token, expires) =>
      CreateRecordKeeps(s, subject, valid, id, hash, token, expires);
    case DoDownload(subject, id, now, artifact) => DownloadKeeps(s, subject, id, now, artifact);
    case DoDeletePending(subject, id) => DeletePendingKeeps(s, subject, id);
    case DoEnroll(e, now) =>
      EnrollLinked(s, e, now);
      EnrollCurrent(s, e, now);
      EnrollTokens(s, e, now);
      EnrollIdentities(s, e, now);
    case DoRevoke(id) =>
      RevokeLinked(s, id);
      RevokeCurrent(s, id);
      RevokeTokens(s, id);
      RevokeIdentities(s, id);
    case _ =>
      ListingKeeps(s, step);
      OnlyStatusKeeps(s, Apply(s, step).1);
  }

  // ---------------------------------------------------------------- runs

  /** The requests in order, with the states between them. */
  ghost predicate Chained(states: seq<State>, steps: seq<Step>) {
    && |states| == |steps| + 1
    && forall i :: 0 <= i < |steps| ==> states[i + 1] == Apply(states[i], steps[i]).1
  }

  /** A run: it starts in an intact state, and whatever is generated is new. */
  ghost predicate IsRun(states: seq<State>, steps: seq<Step>) {
    && Chained(states, steps)
    && Inv(states[0])
    && forall i :: 0 <= i < |steps| ==> Fresh(states[i], steps[i])
  }

  lemma {:induction false} RunKeeps(states: seq<State>, steps: seq<Step>, i: nat)
    requires IsRun(states, steps) && i <= |steps|
    ensures Inv(states[i])
  {
    if i > 0 {
      RunKeeps(states, steps, i - 1);
      StepKeeps(states[i - 1], steps[i - 1]);
    }
  }

  lemma DenyGrows(s: State, step: Step)
    ensures s.deny <= Apply(s, step).1.deny
  {
  }

  lemma {:induction false} DenyForever(states: seq<State>, steps: seq<Step>, i: nat, j: nat)
    requires Chained(states, steps) && i <= j <= |steps|
    ensures states[i].deny <= states[j].deny
    decreases j
  {
    if i < j {
      DenyForever(states, steps, i, j - 1);
      DenyGrows(states[j - 1], steps[j - 1]);
    }
  }

  /** Step i is an enrollment of this identity that succeeds. */
  ghost predicate Enrolls(states: seq<State>, steps: seq<Step>, i: nat, e: Enrollment)
    requires i < |steps| < |states|
  {
    steps[i].DoEnroll? && steps[i].e == e && Apply(states[i], steps[i]).0 == Done
  }

  // ---------------------------------------------------------------- one pod per certificate, for ever

  /** The certificate cannot be enrolled: it is denied, or a pod that is not revoked holds it. */
  ghost predicate Taken(s: State, fingerprint: string) {
    Certificate(fingerprint) in s.deny || Registered(s, fingerprint)
  }

  lemma EnrollKeepsPods(s: State, e: Enrollment, now: int, p: Id)
    requires p in s.pods
    ensures p in Enroll(s, e, now).1.pods && Enroll(s, e, now).1.pods[p] == s.pods[p]
  {
  }

  /** The pod still holds the certificate, or the certificate is denied. */
  ghost predicate Holds(t: State, p: Id, fingerprint: string) {
    || Certificate(fingerprint) in t.deny
    || (p in t.pods && t.pods[p].fingerprint == fingerprint && t.pods[p].status != Revoked)
  }

  lemma HolderDeletion(s: State, subject: Id, p: Id)
    requires IdentitiesOk(s) && p in s.pods && Keyed(s.pods[p]) && s.pods[p].status != Revoked
    ensures Holds(DeleteSubject(s, subject).1, p, s.pods[p].fingerprint)
  {
    DeniedForDeletion(s, subject, p);
  }

  lemma HolderRevocation(s: State, id: Id, p: Id)
    requires IdentitiesOk(s) && p in s.pods && Keyed(s.pods[p]) && s.pods[p].status != Revoked
    ensures Holds(Revoke(s, id).1, p, s.pods[p].fingerprint)
  {
  }

  /** The holder of a certificate keeps it, unless the step denies the certificate. */
  lemma HolderStays(s: State, step: Step, p: Id)
    requires IdentitiesOk(s) && p in s.pods && Keyed(s.pods[p]) && s.pods[p].status != Revoked
    ensures Holds(Apply(s, step).1, p, s.pods[p].fingerprint)
  {
    match step {
      case DoDeleteSubject(subject) => HolderDeletion(s, subject, p);
      case DoEnroll(e, now) => EnrollKeepsPods(s, e, now, p);
      case DoListSubject(_, _, _) => ListingKeeps(s, step);
      case DoListAll(_, _) => ListingKeeps(s, step);
      case DoBeat(_, _, _) => ListingKeeps(s, step);
      case DoRevoke(id) => HolderRevocation(s, id, p);
      case _ =>
    }
  }

  lemma TakenStays(s: State, step: Step, fingerprint: string)
    requires Inv(s) && fingerprint != "" && Taken(s, fingerprint)
    ensures Taken(Apply(s, step).1, fingerprint)
  {
    DenyGrows(s, step);
    if Registered(s, fingerprint) {
      var p :| p in s.pods && s.pods[p].fingerprint == fingerprint && s.pods[p].status != Revoked;
      HolderStays(s, step, p);
    }
  }

  /** A successful enrollment finds its certificate free and takes it. */
  lemma EnrollTakes(s: State, e: Enrollment, now: int)
    requires Enroll(s, e, now).0 == Done
    ensures e.fingerprint != "" && !Taken(s, e.fingerprint) && Taken(Enroll(s, e, now).1, e.fingerprint)
    ensures Device(e.device) !in s.deny
  {
    var t := Enroll(s, e, now).1;
    assert e.id in t.pods && t.pods[e.id].fingerprint == e.fingerprint && t.pods[e.id].status != Revoked;
  }

  lemma {:induction false} TakenForever(states: seq<State>, steps: seq<Step>, i: nat, j: nat, fingerprint: string)
    requires IsRun(states, steps) && i <= j <= |steps| && fingerprint != "" && Taken(states[i], fingerprint)
    ensures Taken(states[j], fingerprint)
    decreases j
  {
    if i < j {
      TakenForever(states, steps, i, j - 1, fingerprint);
      RunKeeps(states, steps, j - 1);
      TakenStays(states[j - 1], steps[j - 1], fingerprint);
    }
  }

  /** In every run, a certificate is enrolled at most once: it belongs to at most one pod ever. */
  lemma CertificateEnrolledOnce(states: seq<State>, steps: seq<Step>, i: nat, j: nat, e: Enrollment, f: Enrollment)
    requires IsRun(states, steps) && i < j < |steps| && Enrolls(states, steps, i, e) && e.fingerprint == f.fingerprint
    ensures !Enrolls(states, steps, j, f)
  {
    EnrollTakes(states[i], e, steps[i].now);
    TakenForever(states, steps, i + 1, j, e.fingerprint);
    if Enrolls(states, steps, j, f) {
      EnrollTakes(states[j], f, steps[j].now);
    }
  }

  /** At every moment after its enrollment a certificate is either denied or held by exactly one pod that is not
      revoked. */
  lemma CertificateHeldOrDenied(states: seq<State>, steps: seq<Step>, i: nat, j: nat, e: Enrollment)
    requires IsRun(states, steps) && i < j <= |steps| && Enrolls(states, steps, i, e)
    ensures Certificate(e.fingerprint) in states[j].deny <==> !Registered(states[j], e.fingerprint)
    ensures forall p, q | p in states[j].pods && q in states[j].pods ::
              states[j].pods[p].fingerprint == e.fingerprint == states[j].pods[q].fingerprint ==> p == q
  {
    EnrollTakes(states[i], e, steps[i].now);
    TakenForever(states, steps, i + 1, j, e.fingerprint);
    RunKeeps(states, steps, j);
  }

  // ---------------------------------------------------------------- revocation is final

  /** The identities of a revoked pod, and of the pods of a deleted subject, can never be enrolled again. */
  lemma DeniedNeverEnrolls(states: seq<State>, steps: seq<Step>, i: nat, j: nat, e: Enrollment)
    requires IsRun(states, steps) && i <= j < |steps|
    requires Certificate(e.fingerprint) in states[i].deny || (e.device != "" && Device(e.device) in states[i].deny)
    ensures !Enrolls(states, steps, j, e)
  {
    DenyForever(states, steps, i, j);
    if Enrolls(states, steps, j, e) {
      EnrollTakes(states[j], e, steps[j].now);
    }
  }

  lemma RevokedNeverEnrolls(states: seq<State>, steps: seq<Step>, i: nat, j: nat, id: Id, e: Enrollment)
    requires IsRun(states, steps) && i < j < |steps| && steps[i] == DoRevoke(id) && id in states[i].pods
      && Keyed(states[i].pods[id])
    requires e.fingerprint == states[i].pods[id].fingerprint
      || (e.device != "" && e.device == states[i].pods[id].device)
    ensures !Enrolls(states, steps, j, e)
  {
    RunKeeps(states, steps, i);
    DeniedNeverEnrolls(states, steps, i + 1, j, e);
  }

  lemma DeletedNeverEnrolls(states: seq<State>, steps: seq<Step>, i: nat, j: nat, subject: Id, id: Id, e: Enrollment)
    requires IsRun(states, steps) && i < j < |steps| && steps[i] == DoDeleteSubject(subject)
    requires Apply(states[i], steps[i]).0 == Done
    requires id in states[i].pods && states[i].pods[id].subject == subject && Keyed(states[i].pods[id])
    requires e.fingerprint == states[i].pods[id].fingerprint
      || (e.device != "" && e.device == states[i].pods[id].device)
    ensures !Enrolls(states, steps, j, e)
  {
    RunKeeps(states, steps, i);
    var s := states[i];
    assert id in PodsOf(s, subject);
    assert Certificate(s.pods[id].fingerprint) in Identifiers(id, s.pods[id]);
    assert s.pods[id].device != "" ==> Device(s.pods[id].device) in Identifiers(id, s.pods[id]);
    DeniedNeverEnrolls(states, steps, i + 1, j, e);
  }

  lemma OnlyDeletionRemoves(s: State, step: Step, p: Id)
    requires p in s.pods && p !in Apply(s, step).1.pods
    ensures step.DoDeleteSubject? && Apply(s, step).0 == Done && s.pods[p].subject == step.subject
  {
  }

  /** A pod that leaves the table is denied by its id, so that the id never comes back. */
  lemma GoneIsDenied(s: State, step: Step, p: Id)
    requires Inv(s) && p in s.pods && p !in Apply(s, step).1.pods
    ensures PodId(p) in Apply(s, step).1.deny
  {
    OnlyDeletionRemoves(s, step, p);
    assert p in PodsOf(s, step.subject) && PodId(p) in Identifiers(p, s.pods[p]);
  }

  lemma NoReturn(s: State, step: Step, p: Id)
    requires Fresh(s, step) && p !in s.pods && PodId(p) in s.deny
    ensures p !in Apply(s, step).1.pods
  {
  }

  lemma {:induction false} GoneStaysGone(states: seq<State>, steps: seq<Step>, i: nat, j: nat, p: Id)
    requires IsRun(states, steps) && i <= j <= |steps| && p !in states[i].pods && PodId(p) in states[i].deny
    ensures p !in states[j].pods
    decreases j
  {
    if i < j {
      GoneStaysGone(states, steps, i, j - 1, p);
      DenyForever(states, steps, i, j - 1);
      NoReturn(states[j - 1], steps[j - 1], p);
    }
  }

  /** A pod that has left the table at some moment of a run never comes back. */
  lemma {:induction false} LeftNeverReturns(states: seq<State>, steps: seq<Step>, i: nat, j: nat, k: nat, p: Id)
    requires IsRun(states, steps) && i < j <= k <= |steps| && p in states[i].pods && p !in states[j].pods
    ensures p !in states[k].pods
    decreases j - i
  {
    assert states[i + 1] == Apply(states[i], steps[i]).1;
    if p in states[i + 1].pods {
      LeftNeverReturns(states, steps, i + 1, j, k, p);
    } else {
      RunKeeps(states, steps, i);
      GoneIsDenied(states[i], steps[i], p);
      GoneStaysGone(states, steps, i + 1, k, p);
    }
  }

  /** What never changes about an enrolled pod, what only grows, and what is final. */
  ghost predicate Continues(a: Pod, b: Pod) {
    && b.subject == a.subject && b.record == a.record && b.key == a.key && b.fingerprint == a.fingerprint
      && b.device == a.device
    && (Keyed(a) ==> a.sequence <= b.sequence && (a.status == Revoked ==> b.status == Revoked))
  }

  lemma PodContinues(s: State, step: Step, p: Id)
    requires p in s.pods && p in Apply(s, step).1.pods
    ensures Continues(s.pods[p], Apply(s, step).1.pods[p])
  {
  }

  /** Revocation is absorbing and sequence numbers never fall, over any part of any run. */
  lemma {:induction false} PodContinuesForever(states: seq<State>, steps: seq<Step>, i: nat, j: nat, p: Id)
    requires IsRun(states, steps) && i <= j <= |steps| && p in states[i].pods && p in states[j].pods
    ensures Continues(states[i].pods[p], states[j].pods[p])
    decreases j - i
  {
    if i < j {
      if p !in states[i + 1].pods {
        RunKeeps(states, steps, i);
        GoneIsDenied(states[i], steps[i], p);
        GoneStaysGone(states, steps, i + 1, j, p);
      } else {
        PodContinues(states[i], steps[i], p);
        PodContinuesForever(states, steps, i + 1, j, p);
      }
    }
  }

  /** Step i is a heartbeat of this enrolled pod that is accepted. */
  ghost predicate Accepts(states: seq<State>, steps: seq<Step>, i: nat, p: Id)
    requires i < |steps| < |states|
  {
    steps[i].DoBeat? && steps[i].id == p && p in states[i].pods && Keyed(states[i].pods[p])
      && Apply(states[i], steps[i]).0 == Done
  }

  /** Accepted heartbeats of a pod carry strictly increasing sequence numbers in every run. */
  lemma HeartbeatsIncrease(states: seq<State>, steps: seq<Step>, i: nat, j: nat, p: Id)
    requires IsRun(states, steps) && i < j < |steps| && Accepts(states, steps, i, p) && Accepts(states, steps, j, p)
    ensures steps[i].beat.sequence < steps[j].beat.sequence
  {
    PodContinuesForever(states, steps, i + 1, j, p);
  }

  /** The sequence number announced by a verification is above every one accepted before. */
  lemma NextIsAbove(states: seq<State>, steps: seq<Step>, i: nat, j: nat, p: Id, credentials: bool)
    requires IsRun(states, steps) && i < j < |steps| && Accepts(states, steps, i, p)
    requires steps[j] == DoVerify(p, credentials) && Apply(states[j], steps[j]).0.Next?
    ensures steps[i].beat.sequence < Apply(states[j], steps[j]).0.sequence
  {
    PodContinuesForever(states, steps, i + 1, j, p);
  }

  /** A suspicious enrolled pod stays so until an accepted heartbeat, its revocation, or the deletion of its subject. */
  lemma SuspicionLeft(s: State, step: Step, p: Id)
    requires p in s.pods && Keyed(s.pods[p]) && s.pods[p].status == Suspicious
    ensures var (reply, t) := Apply(s, step);
            (p in t.pods && t.pods[p].status == Suspicious)
            || (step.DoBeat? && step.id == p && reply == Done && t.pods[p].status == Online)
            || (step == DoRevoke(p) && t.pods[p].status == Revoked)
            || step == DoDeleteSubject(s.pods[p].subject)
  {
  }

  lemma RevokedIsShutOut(s: State, step: Step, p: Id)
    requires p in s.pods && Keyed(s.pods[p]) && s.pods[p].status == Revoked
    requires (step.DoBeat? || step.DoVerify?) && step.id == p
    ensures Apply(s, step) == (Refused(403), s)
  {
  }

  /** Once revoked, or gone after that, a pod gets neither a heartbeat nor a verification through in the rest of the
      run. */
  lemma RevokedIsShutOutForever(states: seq<State>, steps: seq<Step>, i: nat, j: nat, p: Id)
    requires IsRun(states, steps) && i <= j < |steps| && p in states[i].pods && Keyed(states[i].pods[p])
      && states[i].pods[p].status == Revoked
    requires (steps[j].DoBeat? || steps[j].DoVerify?) && steps[j].id == p
    ensures Apply(states[j], steps[j]).0.Refused? && Apply(states[j], steps[j]).1 == states[j]
  {
    if p in states[j].pods {
      PodContinuesForever(states, steps, i, j, p);
      RevokedIsShutOut(states[j], steps[j], p);
    }
  }

  // ---------------------------------------------------------------- provisioning records

  /** An active record stays active for as long as it exists, and counts only grow. */
  lemma RecordContinues(s: State, step: Step, r: Id)
    requires r in s.records && r in Apply(s, step).1.records
    ensures var (reply, t) := Apply(s, step);
      && t.records[r].hash == s.records[r].hash && t.records[r].subject == s.records[r].subject
      && (s.records[r].status == Active ==> t.records[r] == s.records[r])
      && t.records[r].downloads == s.records[r].downloads
           + if step.DoDownload? && step.id == r && reply == Done then 1 else 0
  {
  }

  /** The step is a successful download of the record. */
  predicate Fetches(s: State, step: Step, r: Id) {
    step.DoDownload? && step.id == r && Download(s, step.subject, step.id, step.now, step.artifact).0 == Done
  }

  /** How often the record is downloaded between two moments of a run. */
  ghost function Downloads(states: seq<State>, steps: seq<Step>, r: Id, i: nat, j: nat): nat
    requires i <= j <= |steps| < |states|
    decreases j
  {
    if i == j then 0
    else Downloads(states, steps, r, i, j - 1)
         + if Fetches(states[j - 1], steps[j - 1], r) then 1 else 0
  }

  lemma CreatedEmpty(s: State, step: Step)
    requires step.DoCreateRecord? && Apply(s, step).0 == Done
    ensures step.id in Apply(s, step).1.records && Apply(s, step).1.records[step.id].downloads == 0
  {
  }

  lemma CountStep(states: seq<State>, steps: seq<Step>, r: Id, i: nat, j: nat)
    requires Chained(states, steps) && i < j <= |steps| && r in states[j - 1].records && r in states[j].records
    requires states[j - 1].records[r].downloads == Downloads(states, steps, r, i, j - 1)
    ensures states[j].records[r].downloads == Downloads(states, steps, r, i, j)
  {
    assert states[j - 1 + 1] == Apply(states[j - 1], steps[j - 1]).1;
    RecordContinues(states[j - 1], steps[j - 1], r);
  }

  lemma {:induction false} CountFrom(states: seq<State>, steps: seq<Step>, r: Id, i: nat, j: nat)
    requires Chained(states, steps) && i <= j <= |steps|
    requires forall k :: i <= k <= j ==> r in states[k].records
    requires states[i].records[r].downloads == 0
    ensures states[j].records[r].downloads == Downloads(states, steps, r, i, j)
    decreases j
  {
    if i < j {
      CountFrom(states, steps, r, i, j - 1);
      CountStep(states, steps, r, i, j);
    }
  }

  /** The stored count is the number of successful downloads since the record was created. */
  lemma CountIsDownloads(states: seq<State>, steps: seq<Step>, r: Id, i: nat, j: nat)
    requires IsRun(states, steps) && i < j <= |steps|
    requires steps[i].DoCreateRecord? && steps[i].id == r && Apply(states[i], steps[i]).0 == Done
    requires forall k :: i < k <= j ==> r in states[k].records
    ensures states[j].records[r].downloads == Downloads(states, steps, r, i + 1, j)
  {
    CreatedEmpty(states[i], steps[i]);
    CountFrom(states, steps, r, i + 1, j);
  }

  /** In every run, an enrollment token is consumed at most once: its record gives at most one pod. */
  lemma TokenConsumedOnce(states: seq<State>, steps: seq<Step>, i: nat, j: nat, e: Enrollment, f: Enrollment)
    requires IsRun(states, steps) && i < j < |steps| && Enrolls(states, steps, i, e)
    requires e.source.FromRecord? && f.source.FromRecord? && e.source.hash == f.source.hash
    ensures !Enrolls(states, steps, j, f)
  {
    DenyForever(states, steps, i + 1, j);
    assert TokenHash(e.source.hash.value) in states[i + 1].deny;
  }

  /** A second removal of a record fails on the deny-list's uniqueness, and nothing but an active or removed record
      stops one. */
  lemma RemovalSucceedsIff(s: State, subject: Id, id: Id)
    requires Inv(s) && id in s.records && s.records[id].subject == subject
    ensures DeletePending(s, subject, id).0 == Done <==> s.records[id].status !in {Active, Removed}
    ensures s.records[id].status == Removed ==> DeletePending(s, subject, id) == (Crashed, s)
  {
  }

  // ---------------------------------------------------------------- deleting a subject

  /** Two pods of a subject share a device binding that is not denied yet. */
  ghost predicate SharedDevice(s: State, subject: Id) {
    exists p, q :: p in s.pods && q in s.pods && p != q && s.pods[p].subject == subject && s.pods[q].subject == subject
      && s.pods[p].device != "" && s.pods[p].device == s.pods[q].device && Device(s.pods[p].device) !in s.deny
  }

  lemma CollisionIsDevice(s: State, p: Id, q: Id)
    requires IdentitiesOk(s) && p in s.pods && q in s.pods && p != q
    ensures (Identifiers(p, s.pods[p]) * Identifiers(q, s.pods[q])) - s.deny != {} <==>
            s.pods[p].device != "" && s.pods[p].device == s.pods[q].device && Device(s.pods[p].device) !in s.deny
  {
    var common := Identifiers(p, s.pods[p]) * Identifiers(q, s.pods[q]);
    assert forall x :: x in common ==> x == Device(s.pods[p].device);
    if s.pods[p].device != "" && s.pods[p].device == s.pods[q].device {
      assert Device(s.pods[p].device) in common;
    }
  }

  /** Deleting a subject goes through exactly when no two of its pods share such a binding; otherwise nothing
      changes. */
  lemma DeletionSucceedsIff(s: State, subject: Id)
    requires Inv(s) && subject in s.subjects
    ensures DeleteSubject(s, subject).0 == Done <==> !SharedDevice(s, subject)
    ensures SharedDevice(s, subject) ==> DeleteSubject(s, subject) == (Crashed, s)
  {
    forall p, q | p in PodsOf(s, subject) && q in PodsOf(s, subject) && p != q
      ensures (Identifiers(p, s.pods[p]) * Identifiers(q, s.pods[q])) - s.deny != {} <==>
              s.pods[p].device != "" && s.pods[p].device == s.pods[q].device && Device(s.pods[p].device) !in s.deny
    {
      CollisionIsDevice(s, p, q);
    }
    assert Collides(s, subject) <==> SharedDevice(s, subject);
  }
}
