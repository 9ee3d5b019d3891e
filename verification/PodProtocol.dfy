/** The pod identity protocol: stored state, and what each request does to it. */
module PodProtocol {
  import opened Common

  type Id = string

  datatype RecordStatus = Ready | Downloaded | Expired | Active | Removed

  /** A provisioning record; an erased enrollment token is the empty string. */
  datatype Record = Record(subject: Id, status: RecordStatus, hash: string, token: string, expires: Option<int>,
                           downloads: nat)

  datatype PodStatus = Pending | Offline | Online | Suspicious | Revoked | Other(text: string)

  datatype Pod = Pod(subject: Id, record: Option<Id>, status: PodStatus, key: string, fingerprint: string,
                     device: string, sequence: int, heartbeat: Option<int>)

  datatype Identifier =
    | TokenHash(hash: string) | PodId(id: Id) | Certificate(fingerprint: string) | Device(binding: string)

  /** `subjects` maps a subject to the pod it currently points to; `deny` is the deny-list. */
  datatype State = State(subjects: map<Id, Option<Id>>, records: map<Id, Record>, pods: map<Id, Pod>,
                         deny: set<Identifier>)

  /** `Crashed` is a failed database constraint: the transaction is rolled back. */
  datatype Reply = Done | Next(sequence: int) | Refused(code: nat) | Crashed

  predicate Keyed(pod: Pod) {
    pod.key != ""
  }

  // ---------------------------------------------------------------- subjects

  /** An Object becomes a Subject, with a legacy pod if the request describes one. */
  function CreateSubject(s: State, subject: Id, pod: Option<Id>): (Reply, State) {
    if subject in s.subjects || (pod.Some? && pod.value in s.pods) then (Crashed, s)
    else
      var t := s.(subjects := s.subjects[subject := pod]);
      match pod
      case None => (Done, t)
      case Some(id) => (Done, t.(pods := t.pods[id := Pod(subject, None, Pending, "", "", "", 0, None)]))
  }

  function PodsOf(s: State, subject: Id): set<Id> {
    set id | id in s.pods && s.pods[id].subject == subject
  }

  /** What the deletion loop wants to deny for one pod. */
  function Identifiers(id: Id, pod: Pod): set<Identifier> {
    (if id != "" then {PodId(id)} else {})
    + (if pod.fingerprint != "" then {Certificate(pod.fingerprint)} else {})
    + (if pod.device != "" then {Device(pod.device)} else {})
  }

  /** Two pods of the subject add the same deny-list row: the existence query does not see the row added before. */
  predicate Collides(s: State, subject: Id) {
    exists p, q | p in PodsOf(s, subject) && q in PodsOf(s, subject) ::
      p != q && (Identifiers(p, s.pods[p]) * Identifiers(q, s.pods[q])) - s.deny != {}
  }

  function DeniedWith(s: State, subject: Id): set<Identifier> {
    s.deny + (set id, x | id in PodsOf(s, subject) && x in Identifiers(id, s.pods[id]) :: x)
  }

  function DeleteSubject(s: State, subject: Id): (Reply, State) {
    if subject !in s.subjects then (Refused(404), s)
    else if Collides(s, subject) then (Crashed, s)
    else (Done, State(
      s.subjects - {subject},
      map r | r in s.records && s.records[r].subject != subject :: s.records[r],
      map p | p in s.pods && s.pods[p].subject != subject :: s.pods[p],
      DeniedWith(s, subject)))
  }

  // ---------------------------------------------------------------- provisioning records

  function CreateRecord(s: State, subject: Id, valid: bool, id: Id, hash: string, token: string,
                        expires: Option<int>): (Reply, State) {
    if subject !in s.subjects then (Refused(404), s)
    else if !valid then (Refused(400), s)
    else if id in s.records || exists r | r in s.records :: s.records[r].hash == hash then (Crashed, s)
    else (Done, s.(records := s.records[id := Record(subject, Ready, hash, token, expires, 0)]))
  }

  predicate Overdue(record: Record, now: int) {
    record.expires.Some? && record.expires.value <= now
  }

  function Download(s: State, subject: Id, id: Id, now: int, artifact: bool): (Reply, State) {
    if subject !in s.subjects || id !in s.records || s.records[id].subject != subject then (Refused(404), s)
    else
      var record := s.records[id];
      if record.status in {Removed, Expired, Active} || record.token == "" then (Refused(409), s)
      else if Overdue(record, now) then (Refused(410), s.(records := s.records[id := record.(status := Expired)]))
      else if !artifact then (Refused(503), s)
      else (Done, s.(records := s.records[id := record.(status := Downloaded, downloads := record.downloads + 1)]))
  }

  function DeletePending(s: State, subject: Id, id: Id): (Reply, State) {
    if subject !in s.subjects || id !in s.records || s.records[id].subject != subject then (Refused(404), s)
    else
      var record := s.records[id];
      if record.status == Active then (Refused(409), s)
      else if TokenHash(record.hash) in s.deny then (Crashed, s)
      else (Done,
            s.(records := s.records[id := record.(status := Removed, token := "")],
               deny := s.deny + {TokenHash(record.hash)}))
  }

  // ---------------------------------------------------------------- enrollment

  datatype Source = FromRecord(id: Id, hash: Option<string>) | FromPod(id: Id) | FromNothing

  /** An enrollment request with the outcome of the checks that do not read the protocol state. */
  datatype Enrollment = Enrollment(source: Source, credentials: bool, configured: bool, keyMatches: bool,
                                   key: string, fingerprint: string, device: string, id: Id)

  /** Finds the record to consume, or the reason to refuse; an overdue record is marked on the way. */
  function OpenRecord(s: State, id: Id, hash: Option<string>, now: int): (Reply, State) {
    if id !in s.records || hash.None? then (Refused(404), s)
    else
      var record := s.records[id];
      if hash.value != record.hash then (Refused(403), s)
      else if record.status in {Active, Removed, Expired} || record.token == "" then (Refused(409), s)
      else if Overdue(record, now) then (Refused(410), s.(records := s.records[id := record.(status := Expired)]))
      else if record.subject !in s.subjects then (Refused(404), s)
      else (Done, s)
  }

  function OpenSource(s: State, source: Source, now: int): (Reply, State) {
    match source
    case FromRecord(id, hash) => OpenRecord(s, id, hash, now)
    case FromPod(id) => if id !in s.pods || s.pods[id].subject !in s.subjects then (Refused(404), s) else (Done, s)
    case FromNothing => (Refused(400), s)
  }

  predicate Registered(s: State, fingerprint: string) {
    exists p | p in s.pods :: s.pods[p].fingerprint == fingerprint && s.pods[p].status != Revoked
  }

  /** The checks on the new identity. */
  function CheckIdentity(s: State, e: Enrollment): Reply {
    if !e.credentials then Refused(403)
    else if !e.configured then Refused(400)
    else if e.key == "" || e.fingerprint == "" || !e.keyMatches then Refused(400)
    else if Certificate(e.fingerprint) in s.deny then Refused(403)
    else if Device(e.device) in s.deny then Refused(403)
    else if Registered(s, e.fingerprint) then Refused(409)
    else Done
  }

  function NewPod(subject: Id, e: Enrollment): Pod {
    var record := if e.source.FromRecord? then Some(e.source.id) else None;
    Pod(subject, record, Offline, e.key, e.fingerprint, e.device, 0, None)
  }

  function Enroll(s: State, e: Enrollment, now: int): (Reply, State) {
    var (verdict, t) := OpenSource(s, e.source, now);
    if verdict != Done then (verdict, t)
    else if CheckIdentity(s, e) != Done then (CheckIdentity(s, e), s)
    else if e.id in s.pods then (Crashed, s)
    else match e.source
      case FromRecord(id, _) =>
        var record := s.records[id];
        if TokenHash(record.hash) in s.deny then (Crashed, s)
        else (Done, State(
          s.subjects[record.subject := Some(e.id)],
          s.records[id := record.(status := Active, token := "")],
          s.pods[e.id := NewPod(record.subject, e)],
          s.deny + {TokenHash(record.hash)}))
      case FromPod(id) =>
        var subject := s.pods[id].subject;
        (Done, s.(subjects := s.subjects[subject := Some(e.id)], pods := s.pods[e.id := NewPod(subject, e)]))
      case FromNothing => (Refused(400), s)
  }

  // ---------------------------------------------------------------- pods

  /** What listing does to the status of a pod that is neither revoked nor suspicious. */
  function Refreshed(pod: Pod, now: int, offlineAfter: int): Pod {
    if pod.status == Revoked || pod.status == Suspicious then pod
    else pod.(status := if pod.heartbeat.Some? && now - pod.heartbeat.value <= offlineAfter then Online else Offline)
  }

  function ListSubject(s: State, subject: Id, now: int, offlineAfter: int): (Reply, State) {
    if subject !in s.subjects then (Refused(404), s)
    else (Done, s.(pods := map p | p in s.pods ::
      if s.pods[p].subject == subject then Refreshed(s.pods[p], now, offlineAfter) else s.pods[p]))
  }

  function ListAll(s: State, now: int, offlineAfter: int): (Reply, State) {
    (Done, s.(pods := map p | p in s.pods ::
      if s.pods[p].subject in s.subjects then Refreshed(s.pods[p], now, offlineAfter) else s.pods[p]))
  }

  function Verify(s: State, id: Id, credentials: bool): (Reply, State) {
    if id !in s.pods then (Refused(404), s)
    else if s.pods[id].status == Revoked || PodId(id) in s.deny then (Refused(403), s)
    else if !credentials then (Refused(403), s)
    else (Next(s.pods[id].sequence + 1), s)
  }

  /** A heartbeat with the outcome of its timestamp, signature and grant checks; `status` is used by legacy pods
      only. */
  datatype Heartbeat = Heartbeat(fingerprint: string, device: string, sequence: int, timely: bool, signed: bool,
                                 granted: bool, status: PodStatus, observed: int)

  function Beat(s: State, id: Id, h: Heartbeat, now: int): (Reply, State) {
    if id !in s.pods then (Refused(404), s)
    else
      var pod := s.pods[id];
      if !Keyed(pod) then (Done, s.(pods := s.pods[id := pod.(status := h.status, heartbeat := Some(h.observed))]))
      else if pod.status == Revoked then (Refused(403), s)
      else if Certificate(h.fingerprint) in s.deny then (Refused(403), s)
      else if h.fingerprint != pod.fingerprint then (Refused(403), s)
      else if h.device != pod.device then (Refused(403), s.(pods := s.pods[id := pod.(status := Suspicious)]))
      else if h.sequence <= pod.sequence then (Refused(409), s)
      else if !h.timely then (Refused(400), s)
      else if !h.signed || !h.granted then (Refused(403), s)
      else (Done, s.(pods := s.pods[id := pod.(status := Online, sequence := h.sequence, heartbeat := Some(now))]))
  }

  function Revoke(s: State, id: Id): (Reply, State) {
    if id !in s.pods then (Refused(404), s)
    else if s.pods[id].status == Revoked then (Done, s)
    else
      var pod := s.pods[id];
      (Done, s.(
        pods := s.pods[id := pod.(status := PodStatus.Revoked)],
        deny := s.deny + Identifiers(id, pod),
        subjects := if pod.subject in s.subjects && s.subjects[pod.subject] == Some(id)
                    then s.subjects[pod.subject := None] else s.subjects))
  }

  // ---------------------------------------------------------------- steps

  datatype Step =
    | DoCreateSubject(subject: Id, pod: Option<Id>)
    | DoDeleteSubject(subject: Id)
    | DoCreateRecord(subject: Id, valid: bool, id: Id, hash: string, token: string, expires: Option<int>)
    | DoDownload(subject: Id, id: Id, now: int, artifact: bool)
    | DoDeletePending(subject: Id, id: Id)
    | DoEnroll(e: Enrollment, now: int)
    | DoListSubject(subject: Id, now: int, offlineAfter: int)
    | DoListAll(now: int, offlineAfter: int)
    | DoVerify(id: Id, credentials: bool)
    | DoBeat(id: Id, beat: Heartbeat, now: int)
    | DoRevoke(id: Id)

  function Apply(s: State, step: Step): (Reply, State) {
    match step
    case DoCreateSubject(subject, pod) => CreateSubject(s, subject, pod)
    case DoDeleteSubject(subject) => DeleteSubject(s, subject)
    case DoCreateRecord(subject, valid, id, hash, token, expires) =>
      CreateRecord(s, subject, valid, id, hash, token, expires)
    case DoDownload(subject, id, now, artifact) => Download(s, subject, id, now, artifact)
    case DoDeletePending(subject, id) => DeletePending(s, subject, id)
    case DoEnroll(e, now) => Enroll(s, e, now)
    case DoListSubject(subject, now, offlineAfter) => ListSubject(s, subject, now, offlineAfter)
    case DoListAll(now, offlineAfter) => ListAll(s, now, offlineAfter)
    case DoVerify(id, credentials) => Verify(s, id, credentials)
    case DoBeat(id, beat, now) => Beat(s, id, beat, now)
    case DoRevoke(id) => Revoke(s, id)
  }

  /** What random generation gives: non-empty pod ids and tokens never handed out before. */
  predicate Fresh(s: State, step: Step) {
    match step
    case DoCreateSubject(_, pod) => pod.Some? ==> pod.value != "" && PodId(pod.value) !in s.deny
    case DoCreateRecord(_, _, _, hash, token, _) => token != "" && TokenHash(hash) !in s.deny
    case DoEnroll(e, _) => e.id != "" && PodId(e.id) !in s.deny
    case _ => true
  }
}
