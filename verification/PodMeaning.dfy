/** When a pod request is done and what it leaves behind, in terms of the stored fields alone. */
module PodMeaning {
  import opened Common
  import opened PodProtocol
  import opened PodInvariants
  import opened PodUse

  // ---------------------------------------------------------------- heartbeats

  /** The heartbeat is the pod's own: its certificate, not denied, and its device. */
  ghost predicate OwnBeat(s: State, p: Id, h: Heartbeat)
    requires p in s.pods
  {
    h.fingerprint == s.pods[p].fingerprint && Certificate(h.fingerprint) !in s.deny && h.device == s.pods[p].device
  }

  /**
    A heartbeat of an enrolled pod is accepted exactly if the pod is not revoked, the heartbeat is its own, its number
    is new, and it is in time, signed and granted. Every other one is refused.
   */
  lemma BeatAcceptedIff(s: State, p: Id, h: Heartbeat, now: int)
    requires p in s.pods && s.pods[p].key != ""
    ensures Beat(s, p, h, now).0 == Done <==>
      s.pods[p].status != Revoked && OwnBeat(s, p, h) && s.pods[p].sequence < h.sequence && h.timely && h.signed
        && h.granted
    ensures Beat(s, p, h, now).0 != Done ==> Beat(s, p, h, now).0.Refused?
  {
  }

  /** The same in every state of every run, where a certificate is denied exactly if its pod is revoked. */
  lemma BeatAcceptedInRuns(states: seq<State>, steps: seq<Step>, i: nat, p: Id)
    requires IsRun(states, steps) && i < |steps| && steps[i].DoBeat? && steps[i].id == p
    requires p in states[i].pods && states[i].pods[p].key != ""
    ensures Accepts(states, steps, i, p) <==>
      var pod, h := states[i].pods[p], steps[i].beat;
      && pod.status != Revoked && h.fingerprint == pod.fingerprint && h.device == pod.device
      && pod.sequence < h.sequence && h.timely && h.signed && h.granted
  {
    RunKeeps(states, steps, i);
    BeatAcceptedIff(states[i], p, steps[i].beat, steps[i].now);
  }

  /** Which of the refusals a heartbeat gets: a replay and a late one are told apart from a foreign or an improper
      one. */
  lemma BeatRefusals(s: State, p: Id, h: Heartbeat, now: int)
    requires p in s.pods && s.pods[p].key != "" && Beat(s, p, h, now).0 != Done
    ensures var known := s.pods[p].status != Revoked && OwnBeat(s, p, h); var reply := Beat(s, p, h, now).0;
      && (reply == Refused(409) <==> known && h.sequence <= s.pods[p].sequence)
      && (reply == Refused(400) <==> known && s.pods[p].sequence < h.sequence && !h.timely)
      && (reply == Refused(403) <==> !known || (s.pods[p].sequence < h.sequence && h.timely))
  {
  }

  /** A heartbeat makes a pod suspicious exactly if it has the certificate of the pod and comes from another device. */
  lemma BeatSuspectsIff(s: State, p: Id, h: Heartbeat, now: int)
    requires p in s.pods && s.pods[p].key != "" && s.pods[p].status != Suspicious
    ensures Beat(s, p, h, now).1.pods[p].status == Suspicious <==>
      && s.pods[p].status != Revoked && Certificate(h.fingerprint) !in s.deny
      && h.fingerprint == s.pods[p].fingerprint && h.device != s.pods[p].device
  {
  }

  /** A pod that is not enrolled may report any status; nothing else about it changes. */
  lemma LegacyBeat(s: State, p: Id, h: Heartbeat, now: int)
    requires p in s.pods && s.pods[p].key == ""
    ensures var (reply, t) := Beat(s, p, h, now);
      && reply == Done && t == s.(pods := t.pods) && t.pods.Keys == s.pods.Keys
      && t.pods[p].status == h.status && t.pods[p].heartbeat == Some(h.observed)
      && t.pods[p] == s.pods[p].(status := h.status, heartbeat := Some(h.observed))
      && forall q :: q in s.pods && q != p ==> t.pods[q] == s.pods[q]
  {
  }

  lemma UnknownPod(s: State, p: Id, h: Heartbeat, now: int, credentials: bool)
    requires p !in s.pods
    ensures Beat(s, p, h, now) == (Refused(404), s) && Verify(s, p, credentials) == (Refused(404), s)
    ensures Revoke(s, p) == (Refused(404), s)
  {
  }

  // ---------------------------------------------------------------- verification and listing

  /** A verification answers exactly with the right credentials for a pod that is neither revoked nor denied, and
      changes nothing. */
  lemma VerifyAnswersIff(s: State, p: Id, credentials: bool)
    requires p in s.pods
    ensures var (reply, t) := Verify(s, p, credentials);
      && t == s
      && (reply.Next? <==> s.pods[p].status != Revoked && PodId(p) !in s.deny && credentials)
      && (reply.Next? ==> reply.sequence == s.pods[p].sequence + 1)
      && (!reply.Next? ==> reply == Refused(403))
  {
  }

  /** The pod was seen within this time. */
  ghost predicate SeenWithin(pod: Pod, now: int, span: int) {
    exists seen :: pod.heartbeat == Some(seen) && seen + span >= now
  }

  /** The pod after a listing: online exactly if it was seen lately, unless it is revoked or suspicious. */
  ghost predicate Listed(a: Pod, b: Pod, now: int, span: int) {
    && b == a.(status := b.status)
    && (a.status == Revoked || a.status == Suspicious ==> b.status == a.status)
    && (a.status != Revoked && a.status != Suspicious ==> b.status == if SeenWithin(a, now, span) then Online
                                                                      else Offline)
  }

  lemma RefreshLists(pod: Pod, now: int, span: int)
    ensures Listed(pod, Refreshed(pod, now, span), now, span)
  {
    if pod.heartbeat.Some? && now - pod.heartbeat.value <= span {
      assert pod.heartbeat == Some(pod.heartbeat.value);
    }
  }

  /** Listing a subject shows each of its pods with its right status, and touches no other pod and nothing else. */
  lemma ListSubjectMeans(s: State, subject: Id, now: int, span: int)
    ensures var (reply, t) := ListSubject(s, subject, now, span);
      && (reply == Done <==> subject in s.subjects) && (reply != Done ==> reply == Refused(404) && t == s)
      && t == s.(pods := t.pods) && t.pods.Keys == s.pods.Keys
      && (reply == Done ==> forall p :: p in s.pods ==>
            if s.pods[p].subject == subject then Listed(s.pods[p], t.pods[p], now, span) else t.pods[p] == s.pods[p])
  {
    forall p | p in s.pods
      ensures Listed(s.pods[p], Refreshed(s.pods[p], now, span), now, span)
    {
      RefreshLists(s.pods[p], now, span);
    }
  }

  /** The same for all pods whose subject exists, which in every run are all of them. */
  lemma ListAllMeans(s: State, now: int, span: int)
    ensures var (reply, t) := ListAll(s, now, span);
      && reply == Done && t == s.(pods := t.pods) && t.pods.Keys == s.pods.Keys
      && forall p :: p in s.pods ==>
           if s.pods[p].subject in s.subjects then Listed(s.pods[p], t.pods[p], now, span) else t.pods[p] == s.pods[p]
  {
    forall p | p in s.pods
      ensures Listed(s.pods[p], Refreshed(s.pods[p], now, span), now, span)
    {
      RefreshLists(s.pods[p], now, span);
    }
  }

  // ---------------------------------------------------------------- provisioning records

  /** The record can still be used: it waits, has its token, and has not reached its end. */
  ghost predicate Usable(record: Record, now: int) {
    && (record.status.Ready? || record.status.Downloaded?) && record.token != ""
    && (record.expires.Some? ==> now < record.expires.value)
  }

  /** The record is past its end, and nobody has noticed yet. */
  ghost predicate RunsOut(record: Record, now: int) {
    && (record.status.Ready? || record.status.Downloaded?) && record.token != ""
    && record.expires.Some? && record.expires.value <= now
  }

  /** The bookkeeping of a record that has run out: it is marked, and nothing else changes. */
  ghost predicate OnlyMarked(s: State, t: State, id: Id) {
    && id in s.records && t.records.Keys == s.records.Keys && t == s.(records := t.records)
    && t.records[id] == s.records[id].(status := RecordStatus.Expired)
    && forall r :: r in s.records && r != id ==> t.records[r] == s.records[r]
  }

  lemma CreateRecordIff(s: State, subject: Id, valid: bool, id: Id, hash: string, token: string, expires: Option<int>)
    ensures var (reply, t) := CreateRecord(s, subject, valid, id, hash, token, expires);
      && (reply == Done <==> subject in s.subjects && valid && id !in s.records
                             && forall r :: r in s.records ==> s.records[r].hash != hash)
      && (reply != Done ==> t == s)
      && (reply == Refused(404) <==> subject !in s.subjects)
      && (reply == Refused(400) <==> subject in s.subjects && !valid)
      && (reply == Done ==>
            && t == s.(records := t.records) && t.records.Keys == s.records.Keys + {id}
            && (forall r :: r in s.records ==> t.records[r] == s.records[r])
            && t.records[id].subject == subject && t.records[id].status == Ready && t.records[id].downloads == 0
            && t.records[id].hash == hash && t.records[id].token == token && t.records[id].expires == expires)
  {
  }

  /** The pending record of this subject. */
  ghost predicate Holds(s: State, subject: Id, id: Id) {
    subject in s.subjects && id in s.records && s.records[id].subject == subject
  }

  /** A download is done exactly for a usable record of the subject while a runtime can be had. */
  lemma DownloadDoneIff(s: State, subject: Id, id: Id, now: int, artifact: bool)
    ensures var (reply, t) := Download(s, subject, id, now, artifact);
      && (reply == Done <==> Holds(s, subject, id) && Usable(s.records[id], now) && artifact)
      && (reply == Refused(404) <==> !Holds(s, subject, id))
      && (reply == Refused(410) <==> Holds(s, subject, id) && RunsOut(s.records[id], now))
      && (reply == Refused(503) <==> Holds(s, subject, id) && Usable(s.records[id], now) && !artifact)
      && (reply == Refused(410) ==> OnlyMarked(s, t, id))
      && (reply.Refused? && reply != Refused(410) ==> t == s)
  {
  }

  lemma DownloadRefusals(s: State, subject: Id, id: Id, now: int, artifact: bool)
    ensures var reply := Download(s, subject, id, now, artifact).0;
      reply in {Done, Refused(404), Refused(409), Refused(410), Refused(503)}
  {
  }

  /** What a removal does: the token is gone, its hash is denied, and nothing else changes. */
  lemma RemovalMeans(s: State, subject: Id, id: Id)
    requires TokensOk(s)
    ensures var (reply, t) := DeletePending(s, subject, id);
      && (reply == Done <==> Holds(s, subject, id) && s.records[id].status !in {Active, Removed})
      && (reply == Refused(404) <==> !Holds(s, subject, id))
      && (reply == Refused(409) <==> Holds(s, subject, id) && s.records[id].status == Active)
      && (reply != Done ==> t == s)
      && (reply == Done ==>
            && t.subjects == s.subjects && t.pods == s.pods && t.records.Keys == s.records.Keys
            && t.records[id] == s.records[id].(status := Removed, token := "")
            && (forall r :: r in s.records && r != id ==> t.records[r] == s.records[r])
            && t.deny == s.deny + {TokenHash(s.records[id].hash)})
  {
  }

  // ---------------------------------------------------------------- enrollment

  /** The request names something it may enroll from. */
  ghost predicate OpensFrom(s: State, e: Enrollment, now: int) {
    match e.source
    case FromRecord(id, hash) =>
      id in s.records && hash == Some(s.records[id].hash) && Usable(s.records[id], now)
        && s.records[id].subject in s.subjects
    case FromPod(id) => id in s.pods && s.pods[id].subject in s.subjects
    case FromNothing => false
  }

  /** The new identity may be enrolled: the checks outside pass, and nothing denies it or holds its certificate. */
  ghost predicate Welcome(s: State, e: Enrollment) {
    && e.credentials && e.configured && e.keyMatches && e.key != "" && e.fingerprint != ""
    && Certificate(e.fingerprint) !in s.deny && Device(e.device) !in s.deny
    && forall p :: p in s.pods && s.pods[p].fingerprint == e.fingerprint ==> s.pods[p].status == Revoked
  }

  /** The subject the new pod belongs to. */
  function SubjectOf(s: State, e: Enrollment): Id {
    match e.source
    case FromRecord(id, _) => if id in s.records then s.records[id].subject else ""
    case FromPod(id) => if id in s.pods then s.pods[id].subject else ""
    case FromNothing => ""
  }

  /** In every state a run can reach, an enrollment is done exactly from a usable source with a welcome identity. */
  lemma EnrollDoneIff(s: State, e: Enrollment, now: int)
    requires Inv(s)
    ensures Enroll(s, e, now).0 == Done <==> OpensFrom(s, e, now) && Welcome(s, e) && e.id !in s.pods
  {
    EnrollIdentityIff(s, e);
  }

  lemma EnrollIdentityIff(s: State, e: Enrollment)
    ensures CheckIdentity(s, e) == Done <==> Welcome(s, e)
  {
  }

  /** One that is not done changes nothing, except that it marks a record that has run out. */
  lemma EnrollRefused(s: State, e: Enrollment, now: int)
    requires Enroll(s, e, now).0 != Done
    ensures var (reply, t) := Enroll(s, e, now);
      if e.source.FromRecord? && e.source.id in s.records && e.source.hash == Some(s.records[e.source.id].hash)
         && RunsOut(s.records[e.source.id], now)
      then reply == Refused(410) && OnlyMarked(s, t, e.source.id)
      else t == s
  {
  }

  /** Why a source is not open: unknown, the wrong token, used up, run out, or without its subject. */
  lemma SourceReplies(s: State, e: Enrollment, now: int)
    requires !OpensFrom(s, e, now)
    ensures var reply := Enroll(s, e, now).0;
      match e.source
      case FromNothing => reply == Refused(400)
      case FromPod(_) => reply == Refused(404)
      case FromRecord(id, hash) =>
        && (id !in s.records || hash == None ==> reply == Refused(404))
        && (id in s.records && hash.Some? && hash.value != s.records[id].hash ==> reply == Refused(403))
        && (id in s.records && hash == Some(s.records[id].hash) ==>
              reply == if RunsOut(s.records[id], now) then Refused(410)
                       else if Usable(s.records[id], now) then Refused(404) else Refused(409))
  {
  }

  /** Why an identity is not welcome: wrong credentials, a malformed request, a denied identity, or one that is
      taken. */
  lemma IdentityReplies(s: State, e: Enrollment, now: int)
    requires OpensFrom(s, e, now) && !Welcome(s, e)
    ensures var reply := Enroll(s, e, now).0;
            var formed := e.configured && e.keyMatches && e.key != "" && e.fingerprint != "";
            var denied := Certificate(e.fingerprint) in s.deny || Device(e.device) in s.deny;
      && (reply == Refused(400) <==> e.credentials && !formed)
      && (reply == Refused(409) <==> e.credentials && formed && !denied)
      && (reply == Refused(403) <==> !e.credentials || (formed && denied))
  {
  }

  /** What an enrollment leaves behind: one new pod with the identity of the request, which the subject now points
      to. */
  lemma EnrollAddsPod(s: State, e: Enrollment, now: int)
    requires Enroll(s, e, now).0 == Done
    ensures var t := Enroll(s, e, now).1; var x := SubjectOf(s, e);
      && t.pods.Keys == s.pods.Keys + {e.id} && (forall p :: p in s.pods ==> t.pods[p] == s.pods[p])
      && t.subjects.Keys == s.subjects.Keys && x in s.subjects && t.subjects[x] == Some(e.id)
      && (forall y :: y in s.subjects && y != x ==> t.subjects[y] == s.subjects[y])
  {
  }

  lemma EnrolledPod(s: State, e: Enrollment, now: int)
    requires Enroll(s, e, now).0 == Done
    ensures var t := Enroll(s, e, now).1;
      && e.id in t.pods
      && var pod := t.pods[e.id];
      && pod.subject == SubjectOf(s, e) && pod.key == e.key && pod.fingerprint == e.fingerprint
        && pod.device == e.device
      && pod.status == Offline && pod.sequence == 0 && pod.heartbeat == None
      && pod.record == if e.source.FromRecord? then Some(e.source.id) else None
  {
  }

  /** The record is consumed: active, without its token, whose hash is denied; a clone touches no record. */
  lemma EnrollConsumes(s: State, e: Enrollment, now: int)
    requires Enroll(s, e, now).0 == Done
    ensures var t := Enroll(s, e, now).1;
      && t.records.Keys == s.records.Keys
      && (forall r :: r in s.records && !(e.source.FromRecord? && r == e.source.id) ==> t.records[r] == s.records[r])
      && (e.source.FromRecord? ==>
            && e.source.id in s.records
            && t.records[e.source.id] == s.records[e.source.id].(status := Active, token := "")
            && t.deny == s.deny + {TokenHash(s.records[e.source.id].hash)})
      && (!e.source.FromRecord? ==> t.deny == s.deny)
  {
  }

  // ---------------------------------------------------------------- creating and ending

  lemma CreateSubjectMeans(s: State, subject: Id, pod: Option<Id>)
    ensures var (reply, t) := CreateSubject(s, subject, pod);
      && (reply == Done <==> subject !in s.subjects && (pod.Some? ==> pod.value !in s.pods))
      && (reply != Done ==> reply == Crashed && t == s)
      && (reply == Done ==> t.records == s.records && t.deny == s.deny && t.subjects == s.subjects[subject := pod])
      && (reply == Done && pod.None? ==> t.pods == s.pods)
      && (reply == Done && pod.Some? ==>
            && t.pods.Keys == s.pods.Keys + {pod.value}
            && (forall p :: p in s.pods ==> t.pods[p] == s.pods[p])
            && t.pods[pod.value].subject == subject && t.pods[pod.value].status == Pending
              && t.pods[pod.value].key == ""
            && t.pods[pod.value].sequence == 0 && t.pods[pod.value].heartbeat == None)
  {
  }

  /** After a deletion nothing of the subject is left, and the identities of its pods are denied. */
  lemma DeletionErases(s: State, subject: Id)
    requires DeleteSubject(s, subject).0 == Done
    ensures var t := DeleteSubject(s, subject).1;
      && t.subjects.Keys == s.subjects.Keys - {subject}
        && (forall y :: y in t.subjects ==> t.subjects[y] == s.subjects[y])
      && (forall r :: r in t.records <==> r in s.records && s.records[r].subject != subject)
      && (forall r :: r in t.records ==> t.records[r] == s.records[r])
      && (forall p :: p in t.pods <==> p in s.pods && s.pods[p].subject != subject)
      && (forall p :: p in t.pods ==> t.pods[p] == s.pods[p])
  {
  }

  /** What is denied for a pod when it ends. */
  ghost predicate Names(x: Identifier, p: Id, pod: Pod) {
    match x
    case TokenHash(_) => false
    case PodId(id) => id == p && id != ""
    case Certificate(f) => f == pod.fingerprint && f != ""
    case Device(d) => d == pod.device && d != ""
  }

  lemma IdentifiersName(p: Id, pod: Pod, x: Identifier)
    ensures x in Identifiers(p, pod) <==> Names(x, p, pod)
  {
  }

  lemma DeletionDenies(s: State, subject: Id, x: Identifier)
    requires DeleteSubject(s, subject).0 == Done
    ensures x in DeleteSubject(s, subject).1.deny <==>
      x in s.deny || exists p :: p in s.pods && s.pods[p].subject == subject && Names(x, p, s.pods[p])
  {
    forall p | p in s.pods
      ensures x in Identifiers(p, s.pods[p]) <==> Names(x, p, s.pods[p])
    {
      IdentifiersName(p, s.pods[p], x);
    }
    assert PodsOf(s, subject) == set p | p in s.pods && s.pods[p].subject == subject;
  }

  lemma DeletionRefusals(s: State, subject: Id)
    ensures var (reply, t) := DeleteSubject(s, subject);
      && (reply == Refused(404) <==> subject !in s.subjects) && (reply != Done ==> t == s)
  {
  }

  /** Revoking ends one pod: it is revoked, its identities are denied, its subject lets go of it, and nothing else
      changes. */
  lemma RevocationMeans(s: State, p: Id)
    requires p in s.pods
    ensures var (reply, t) := Revoke(s, p);
      && reply == Done && t.records == s.records && t.pods.Keys == s.pods.Keys
        && t.pods[p] == s.pods[p].(status := Revoked)
      && (forall q :: q in s.pods && q != p ==> t.pods[q] == s.pods[q])
      && t.subjects.Keys == s.subjects.Keys
      && (s.pods[p].status == Revoked ==> t.deny == s.deny && t.subjects == s.subjects)
      && (s.pods[p].status != Revoked ==> forall x :: x in s.subjects ==>
            t.subjects[x] == if x == s.pods[p].subject && s.subjects[x] == Some(p) then None else s.subjects[x])
  {
  }

  lemma RevocationDenies(s: State, p: Id, x: Identifier)
    requires p in s.pods && s.pods[p].status != Revoked
    ensures x in Revoke(s, p).1.deny <==> x in s.deny || Names(x, p, s.pods[p])
  {
    IdentifiersName(p, s.pods[p], x);
  }
}
