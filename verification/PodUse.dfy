/** What one request of the pod protocol means for the others. */
module PodUse {
  import opened Common
  import opened PodProtocol
  import opened PodInvariants

  // ---------------------------------------------------------------- one subject does not touch another

  function RecordsOf(s: State, x: Id): map<Id, Record> {
    map r | r in s.records && s.records[r].subject == x :: s.records[r]
  }

  function PodsHeld(s: State, x: Id): map<Id, Pod> {
    map p | p in s.pods && s.pods[p].subject == x :: s.pods[p]
  }

  /** The step is about this subject. */
  predicate Concerns(s: State, step: Step, x: Id) {
    match step
    case DoCreateSubject(subject, _) => subject == x
    case DoDeleteSubject(subject) => subject == x
    case DoCreateRecord(subject, _, _, _, _, _) => subject == x
    case DoDownload(subject, _, _, _) => subject == x
    case DoDeletePending(subject, _) => subject == x
    case DoEnroll(e, _) =>
      (match e.source
       case FromRecord(id, _) => id in s.records && s.records[id].subject == x
       case FromPod(id) => id in s.pods && s.pods[id].subject == x
       case FromNothing => false)
    case DoListSubject(subject, _, _) => subject == x
    case DoListAll(_, _) => true
    case DoVerify(_, _) => false
    case DoBeat(id, _, _) => id in s.pods && s.pods[id].subject == x
    case DoRevoke(id) => id in s.pods && s.pods[id].subject == x
  }

  /** Subject, records and pods are as they were. */
  ghost predicate Untouched(s: State, t: State, x: Id) {
    && (x in s.subjects <==> x in t.subjects) && (x in s.subjects ==> t.subjects[x] == s.subjects[x])
    && RecordsOf(t, x) == RecordsOf(s, x) && PodsHeld(t, x) == PodsHeld(s, x)
  }

  lemma EnrollmentRecords(s: State, e: Enrollment, now: int, x: Id)
    requires !Concerns(s, DoEnroll(e, now), x)
    ensures RecordsOf(Enroll(s, e, now).1, x) == RecordsOf(s, x)
  {
  }

  lemma EnrollmentPods(s: State, e: Enrollment, now: int, x: Id)
    requires !Concerns(s, DoEnroll(e, now), x)
    ensures PodsHeld(Enroll(s, e, now).1, x) == PodsHeld(s, x)
  {
  }

  lemma EnrollmentElsewhere(s: State, e: Enrollment, now: int, x: Id)
    requires !Concerns(s, DoEnroll(e, now), x)
    ensures Untouched(s, Enroll(s, e, now).1, x)
  {
    EnrollmentRecords(s, e, now, x);
    EnrollmentPods(s, e, now, x);
  }

  lemma DeletionElsewhere(s: State, subject: Id, x: Id)
    requires subject != x
    ensures Untouched(s, DeleteSubject(s, subject).1, x)
  {
  }

  lemma CreationElsewhere(s: State, subject: Id, pod: Option<Id>, x: Id)
    requires subject != x
    ensures Untouched(s, CreateSubject(s, subject, pod).1, x)
  {
  }

  lemma NewRecordElsewhere(s: State, subject: Id, valid: bool, id: Id, hash: string, token: string,
                           expires: Option<int>, x: Id)
    requires subject != x
    ensures Untouched(s, CreateRecord(s, subject, valid, id, hash, token, expires).1, x)
  {
  }

  lemma DownloadElsewhere(s: State, subject: Id, id: Id, now: int, artifact: bool, x: Id)
    requires subject != x
    ensures Untouched(s, Download(s, subject, id, now, artifact).1, x)
  {
  }

  lemma RemovalElsewhere(s: State, subject: Id, id: Id, x: Id)
    requires subject != x
    ensures Untouched(s, DeletePending(s, subject, id).1, x)
  {
  }

  lemma ListingElsewhere(s: State, subject: Id, now: int, offlineAfter: int, x: Id)
    requires subject != x
    ensures Untouched(s, ListSubject(s, subject, now, offlineAfter).1, x)
  {
  }

  lemma BeatElsewhere(s: State, id: Id, h: Heartbeat, now: int, x: Id)
    requires id in s.pods ==> s.pods[id].subject != x
    ensures Untouched(s, Beat(s, id, h, now).1, x)
  {
  }

  lemma RevocationElsewhere(s: State, id: Id, x: Id)
    requires id in s.pods ==> s.pods[id].subject != x
    ensures Untouched(s, Revoke(s, id).1, x)
  {
  }

  /** A request about one subject leaves every other subject, its records and its pods alone. */
  lemma OthersUntouched(s: State, step: Step, x: Id)
    requires !Concerns(s, step, x)
    ensures Untouched(s, Apply(s, step).1, x)
  {
    match step
    case DoCreateSubject(subject, pod) => CreationElsewhere(s, subject, pod, x);
    case DoDeleteSubject(subject) => DeletionElsewhere(s, subject, x);
    case DoCreateRecord(subject, valid, id, hash, token, expires) =>
      NewRecordElsewhere(s, subject, valid, id, hash, token, expires, x);
    case DoDownload(subject, id, now, artifact) => DownloadElsewhere(s, subject, id, now, artifact, x);
    case DoDeletePending(subject, id) => RemovalElsewhere(s, subject, id, x);
    case DoEnroll(e, now) => EnrollmentElsewhere(s, e, now, x);
    case DoListSubject(subject, now, offlineAfter) => ListingElsewhere(s, subject, now, offlineAfter, x);
    case DoVerify(_, _) =>
    case DoBeat(id, beat, now) => BeatElsewhere(s, id, beat, now, x);
    case DoRevoke(id) => RevocationElsewhere(s, id, x);
  }

  lemma UntouchedChains(s: State, t: State, u: State, x: Id)
    requires Untouched(s, t, x) && Untouched(t, u, x)
    ensures Untouched(s, u, x)
  {
  }

  lemma UntouchedStep(states: seq<State>, steps: seq<Step>, k: nat, x: Id)
    requires Chained(states, steps) && k < |steps| && !Concerns(states[k], steps[k], x)
    ensures Untouched(states[k], states[k + 1], x)
  {
    OthersUntouched(states[k], steps[k], x);
  }

  ghost predicate Still(states: seq<State>, i: nat, j: nat, x: Id)
    requires j < |states|
  {
    forall k :: i <= k < j ==> Untouched(states[k], states[k + 1], x)
  }

  lemma {:induction false} StillChains(states: seq<State>, i: nat, j: nat, x: Id)
    requires i <= j < |states| && Still(states, i, j, x)
    ensures Untouched(states[i], states[j], x)
    decreases j
  {
    if i < j {
      StillChains(states, i, j - 1, x);
      assert Untouched(states[j - 1], states[j - 1 + 1], x);
      UntouchedChains(states[i], states[j - 1], states[j], x);
    }
  }

  /** Over any part of a run without a request about it, nothing of a subject changes. */
  lemma OthersUntouchedForever(states: seq<State>, steps: seq<Step>, i: nat, j: nat, x: Id)
    requires Chained(states, steps) && i <= j <= |steps|
    requires forall k :: i <= k < j ==> !Concerns(states[k], steps[k], x)
    ensures Untouched(states[i], states[j], x)
  {
    forall k | i <= k < j
      ensures Untouched(states[k], states[k + 1], x)
    {
      UntouchedStep(states, steps, k, x);
    }
    StillChains(states, i, j, x);
  }

  // ---------------------------------------------------------------- requests that follow one another

  lemma LegacyDenied(s: State, subject: Id, id: Id)
    requires Linked(s) && id != "" && subject !in s.subjects && id !in s.pods
    ensures var t := CreateSubject(s, subject, Some(id)).1;
      PodsOf(t, subject) == {id} && Identifiers(id, t.pods[id]) == {PodId(id)}
  {
  }

  lemma LegacyCreationUndone(s: State, subject: Id, id: Id)
    requires Linked(s) && id != "" && subject !in s.subjects && id !in s.pods
    ensures DeleteSubject(CreateSubject(s, subject, Some(id)).1, subject) == (Done, s.(deny := s.deny + {PodId(id)}))
  {
    var t := CreateSubject(s, subject, Some(id)).1;
    LegacyDenied(s, subject, id);
    assert DeniedWith(t, subject) == s.deny + {PodId(id)} by {
      assert PodId(id) in Identifiers(id, t.pods[id]);
    }
    assert !Collides(t, subject);
    var u := DeleteSubject(t, subject).1;
    assert u.subjects == s.subjects && u.records == s.records && u.pods == s.pods;
  }

  lemma PlainCreationUndone(s: State, subject: Id)
    requires Linked(s) && subject !in s.subjects
    ensures DeleteSubject(CreateSubject(s, subject, None).1, subject) == (Done, s)
  {
    var t := CreateSubject(s, subject, None).1;
    assert PodsOf(t, subject) == {};
    var u := DeleteSubject(t, subject).1;
    assert u.subjects == s.subjects && u.records == s.records && u.pods == s.pods && u.deny == s.deny;
  }

  /** Deleting a subject right after its creation gives back the tables; only the id of its legacy pod stays denied. */
  lemma CreationUndone(s: State, subject: Id, pod: Option<Id>)
    requires Inv(s) && Fresh(s, DoCreateSubject(subject, pod)) && CreateSubject(s, subject, pod).0 == Done
    ensures DeleteSubject(CreateSubject(s, subject, pod).1, subject)
         == (Done, s.(deny := s.deny + match pod case None => {} case Some(id) => {PodId(id)}))
  {
    match pod
    case None =>
      PlainCreationUndone(s, subject);
      assert s.(deny := s.deny + {}) == s;
    case Some(id) => LegacyCreationUndone(s, subject, id);
  }

  /** A new record is good for exactly one thing more than its token: an identity that passes the checks, in time. */
  lemma NewRecordEnrolls(s: State, subject: Id, valid: bool, id: Id, hash: string, token: string, expires: Option<int>,
                         e: Enrollment, now: int)
    requires Inv(s) && Fresh(s, DoCreateRecord(subject, valid, id, hash, token, expires))
    requires CreateRecord(s, subject, valid, id, hash, token, expires).0 == Done && e.source.FromRecord?
      && e.source.id == id
    ensures Enroll(CreateRecord(s, subject, valid, id, hash, token, expires).1, e, now).0 == Done <==>
            e.source.hash == Some(hash) && !(expires.Some? && expires.value <= now) && CheckIdentity(s, e) == Done
              && e.id !in s.pods
  {
    var t := CreateRecord(s, subject, valid, id, hash, token, expires).1;
    assert CheckIdentity(t, e) == CheckIdentity(s, e);
  }

  /** Downloading does not use up the token: every enrollment is answered as before, and the record changes in
      nothing but its status and its count. */
  lemma DownloadKeepsEnrollment(s: State, subject: Id, id: Id, now: int, artifact: bool, e: Enrollment, later: int)
    requires Download(s, subject, id, now, artifact).0 == Done
    ensures var t := Download(s, subject, id, now, artifact).1;
      && Enroll(t, e, later).0 == Enroll(s, e, later).0
      && t == s.(records := s.records[id := s.records[id].(status := Downloaded,
                                                           downloads := s.records[id].downloads + 1)])
      && (Download(t, subject, id, later, true).0 == Done <==> !Overdue(s.records[id], later))
  {
    var t := Download(s, subject, id, now, artifact).1;
    assert CheckIdentity(t, e) == CheckIdentity(s, e);
  }

  /** A heartbeat of an enrolled pod touches that pod only. Accepted, it raises the sequence and sets status and
      time; refused, it changes nothing, except that a foreign device makes the pod suspicious. The same number is
      never accepted again. */
  lemma BeatIsLocal(s: State, p: Id, h: Heartbeat, now: int)
    requires p in s.pods && Keyed(s.pods[p])
    ensures var (reply, t) := Beat(s, p, h, now);
      && t == s.(pods := s.pods[p := t.pods[p]])
      && (reply == Done ==> s.pods[p].sequence < h.sequence
                            && t.pods[p] ==
                              s.pods[p].(status := Online, sequence := h.sequence, heartbeat := Some(now)))
      && (reply != Done ==> t.pods[p] == s.pods[p].(status := t.pods[p].status)
                            && (t != s ==> t.pods[p].status == Suspicious && h.device != s.pods[p].device))
  {
    assert s.pods[p := s.pods[p]] == s.pods;
  }

  /** A heartbeat with the identity of the pod, in time, signed and granted. */
  predicate Proper(pod: Pod, h: Heartbeat) {
    h.fingerprint == pod.fingerprint && h.device == pod.device && h.timely && h.signed && h.granted
  }

  lemma ProperAccepted(s: State, p: Id, h: Heartbeat, now: int)
    requires Inv(s) && p in s.pods && Keyed(s.pods[p]) && s.pods[p].status != Revoked && Proper(s.pods[p], h)
    ensures Beat(s, p, h, now).0 == Done <==> h.sequence > s.pods[p].sequence
  {
  }

  /** Nothing but an accepted heartbeat of the pod changes its sequence. */
  lemma SequenceStep(s: State, step: Step, p: Id)
    requires p in s.pods && Keyed(s.pods[p]) && p in Apply(s, step).1.pods
    requires !(step.DoBeat? && step.id == p && Apply(s, step).0 == Done)
    ensures Apply(s, step).1.pods[p].sequence == s.pods[p].sequence
  {
    match step {
      case DoBeat(id, h, now) =>
        if id == p {
          BeatIsLocal(s, p, h, now);
        }
      case _ =>
    }
  }

  /** No heartbeat of the pod is accepted between these moments. */
  ghost predicate Quiet(states: seq<State>, steps: seq<Step>, i: nat, j: nat, p: Id)
    requires j <= |steps| < |states|
  {
    forall k :: i <= k < j ==> !Accepts(states, steps, k, p)
  }

  lemma {:induction false} SequenceStays(states: seq<State>, steps: seq<Step>, i: nat, j: nat, p: Id)
    requires IsRun(states, steps) && i <= j <= |steps| && Quiet(states, steps, i, j, p)
    requires p in states[i].pods && Keyed(states[i].pods[p]) && p in states[j].pods
    ensures states[j].pods[p].sequence == states[i].pods[p].sequence
    decreases j - i
  {
    if i < j {
      if p !in states[i + 1].pods {
        LeftNeverReturns(states, steps, i, i + 1, j, p);
      } else {
        assert !Accepts(states, steps, i, p);
        SequenceStep(states[i], steps[i], p);
        PodContinues(states[i], steps[i], p);
        SequenceStays(states, steps, i + 1, j, p);
      }
    }
  }

  /**
    The number a verification announces stays the least one that works: at every later moment of the run before the next
    accepted heartbeat, a proper heartbeat gets through exactly with that number or a higher one, unless the pod is
    revoked or gone.
   */
  lemma AnnouncedNumberStays(states: seq<State>, steps: seq<Step>, i: nat, j: nat, p: Id, credentials: bool,
                             h: Heartbeat, now: int)
    requires IsRun(states, steps) && i < j <= |steps| && Quiet(states, steps, i, j, p)
    requires steps[i] == DoVerify(p, credentials) && Apply(states[i], steps[i]).0.Next? && Keyed(states[i].pods[p])
    requires p in states[j].pods && states[j].pods[p].status != Revoked && Proper(states[j].pods[p], h)
    ensures Beat(states[j], p, h, now).0 == Done <==> h.sequence >= Apply(states[i], steps[i]).0.sequence
  {
    RunKeeps(states, steps, j);
    PodContinuesForever(states, steps, i, j, p);
    SequenceStays(states, steps, i, j, p);
    ProperAccepted(states[j], p, h, now);
  }

  /** After an accepted heartbeat none with the same or a lower number is accepted, in the whole rest of the run. */
  lemma ReplayRefused(states: seq<State>, steps: seq<Step>, i: nat, j: nat, p: Id)
    requires IsRun(states, steps) && i < j < |steps| && Accepts(states, steps, i, p)
    requires steps[j].DoBeat? && steps[j].id == p && steps[j].beat.sequence <= steps[i].beat.sequence
    ensures Apply(states[j], steps[j]).0 != Done
  {
    if p in states[j].pods {
      assert p in states[i + 1].pods;
      PodContinuesForever(states, steps, i + 1, j, p);
      if Accepts(states, steps, j, p) {
        HeartbeatsIncrease(states, steps, i, j, p);
      }
    }
  }

  // ---------------------------------------------------------------- runs that end in a failure

  function Nothing(): State {
    State(map[], map[], map[], {})
  }

  /** One subject and two records that are ready. */
  function TwoRecords(): State {
    State(map["s" := None],
          map["r" := Record("s", Ready, "hash", "token", None, 0),
              "r2" := Record("s", Ready, "hash of r2", "token of r2", None, 0)],
          map[], {})
  }

  /** The pod of one record on the machine both of them share. */
  function PodOn(record: Id, fingerprint: string): Pod {
    Pod("s", Some(record), Offline, "key", fingerprint, "machine", 0, None)
  }

  function OnePod(): State {
    State(map["s" := Some("p")],
          map["r" := Record("s", Active, "hash", "", None, 0),
              "r2" := Record("s", Ready, "hash of r2", "token of r2", None, 0)],
          map["p" := PodOn("r", "f")],
          {TokenHash("hash")})
  }

  function TwoPods(): State {
    State(map["s" := Some("p2")],
          map["r" := Record("s", Active, "hash", "", None, 0), "r2" := Record("s", Active, "hash of r2", "", None, 0)],
          map["p" := PodOn("r", "f"), "p2" := PodOn("r2", "f2")],
          {TokenHash("hash"), TokenHash("hash of r2")})
  }

  /** An enrollment that passes every check that does not read the tables. */
  function Enrolling(record: Id, hash: string, fingerprint: string, id: Id): Step {
    DoEnroll(Enrollment(FromRecord(record, Some(hash)), true, true, true, "key", fingerprint, "machine", id), 0)
  }

  /** One more request makes a longer run. */
  lemma RunGrows(states: seq<State>, steps: seq<Step>, step: Step)
    requires IsRun(states, steps) && Fresh(states[|steps|], step)
    ensures IsRun(states + [Apply(states[|steps|], step).1], steps + [step])
  {
  }

  lemma FirstPodReached()
    ensures Apply(TwoRecords(), Enrolling("r", "hash", "f", "p")).1 == OnePod()
  {
  }

  lemma SecondPodReached()
    ensures Apply(OnePod(), Enrolling("r2", "hash of r2", "f2", "p2")).1 == TwoPods()
  {
  }

  lemma TwoPodsCollide()
    ensures Collides(TwoPods(), "s")
  {
    var s := TwoPods();
    assert "p" in PodsOf(s, "s") && "p2" in PodsOf(s, "s");
    assert Device("machine") in (Identifiers("p", s.pods["p"]) * Identifiers("p2", s.pods["p2"])) - s.deny;
  }

  function OneSubject(): State {
    CreateSubject(Nothing(), "s", None).1
  }

  function OneRecord(): State {
    CreateRecord(OneSubject(), "s", true, "r", "hash", "token", None).1
  }

  /** From nothing: a subject and a record. */
  function Beginning(): seq<Step> {
    [DoCreateSubject("s", None)] + [DoCreateRecord("s", true, "r", "hash", "token", None)]
  }

  /** And a second record. */
  function Preparation(): seq<Step> {
    Beginning() + [DoCreateRecord("s", true, "r2", "hash of r2", "token of r2", None)]
  }

  function Begun(): seq<State> {
    [Nothing()] + [OneSubject()] + [OneRecord()]
  }

  function Prepared(): seq<State> {
    Begun() + [TwoRecords()]
  }

  lemma SubjectRuns()
    ensures IsRun([Nothing()] + [OneSubject()], [DoCreateSubject("s", None)])
  {
    EmptyStateOk();
    RunGrows([Nothing()], [], DoCreateSubject("s", None));
    assert [] + [DoCreateSubject("s", None)] == [DoCreateSubject("s", None)];
  }

  lemma BeginningRuns()
    ensures IsRun(Begun(), Beginning())
  {
    SubjectRuns();
    RunGrows([Nothing()] + [OneSubject()], [DoCreateSubject("s", None)],
             DoCreateRecord("s", true, "r", "hash", "token", None));
  }

  lemma SecondRecordReached()
    ensures Apply(OneRecord(), DoCreateRecord("s", true, "r2", "hash of r2", "token of r2", None)).1 == TwoRecords()
  {
  }

  lemma PreparationRuns()
    ensures IsRun(Prepared(), Preparation())
  {
    BeginningRuns();
    SecondRecordReached();
    RunGrows(Begun(), Beginning(), DoCreateRecord("s", true, "r2", "hash of r2", "token of r2", None));
  }

  /** Two enrollments on one machine. */
  function Twice(): seq<Step> {
    Preparation() + [Enrolling("r", "hash", "f", "p")] + [Enrolling("r2", "hash of r2", "f2", "p2")]
  }

  /** Two pods of one subject on one machine, enrolled from nothing: the subject cannot be deleted. */
  lemma DeletionCanFail()
    ensures IsRun(Prepared() + [OnePod()] + [TwoPods()], Twice())
    ensures "s" in TwoPods().subjects && DeleteSubject(TwoPods(), "s") == (Crashed, TwoPods())
  {
    PreparationRuns();
    FirstPodReached();
    RunGrows(Prepared(), Preparation(), Enrolling("r", "hash", "f", "p"));
    SecondPodReached();
    RunGrows(Prepared() + [OnePod()], Preparation() + [Enrolling("r", "hash", "f", "p")],
             Enrolling("r2", "hash of r2", "f2", "p2"));
    TwoPodsCollide();
  }

  /** A record that is removed as soon as it is created, from nothing: the second removal fails. */
  lemma RemovalTwiceFails()
    ensures IsRun(Begun() + [DeletePending(OneRecord(), "s", "r").1], Beginning() + [DoDeletePending("s", "r")])
    ensures var t := DeletePending(OneRecord(), "s", "r").1;
      && "r" in t.records && DeletePending(t, "s", "r") == (Crashed, t)
  {
    BeginningRuns();
    RunGrows(Begun(), Beginning(), DoDeletePending("s", "r"));
  }
}
