/** The request handlers, as they change the tables one write at a time. */
module PodService {
  import opened Common
  import P = PodProtocol

  class Service {
    var subjects: map<P.Id, Option<P.Id>>
    var records: map<P.Id, P.Record>
    var pods: map<P.Id, P.Pod>
    var deny: set<P.Identifier>

    ghost function Tables(): P.State
      reads this
    {
      P.State(subjects, records, pods, deny)
    }

    constructor ()
      ensures Tables() == P.State(map[], map[], map[], {})
    {
      subjects, records, pods, deny := map[], map[], map[], {};
    }

    method CreateSubject(subject: P.Id, pod: Option<P.Id>) returns (reply: P.Reply)
      modifies this
      ensures (reply, Tables()) == P.CreateSubject(old(Tables()), subject, pod)
    {
      if subject in subjects {
        return P.Crashed;
      }
      if pod.Some? {
        if pod.value in pods {
          return P.Crashed;
        }
        pods := pods[pod.value := P.Pod(subject, None, P.Pending, "", "", "", 0, None)];
      }
      subjects := subjects[subject := pod];
      reply := P.Done;
    }

    method CreateRecord(subject: P.Id, valid: bool, id: P.Id, hash: string, token: string,
                        expires: Option<int>) returns (reply: P.Reply)
      modifies this`records
      ensures (reply, Tables()) == P.CreateRecord(old(Tables()), subject, valid, id, hash, token, expires)
    {
      if subject !in subjects {
        return P.Refused(404);
      }
      if !valid {
        return P.Refused(400);
      }
      if id in records || exists r | r in records :: records[r].hash == hash {
        return P.Crashed;
      }
      records := records[id := P.Record(subject, P.Ready, hash, token, expires, 0)];
      reply := P.Done;
    }

    method Download(subject: P.Id, id: P.Id, now: int, artifact: bool) returns (reply: P.Reply)
      modifies this`records
      ensures (reply, Tables()) == P.Download(old(Tables()), subject, id, now, artifact)
    {
      if subject !in subjects || id !in records || records[id].subject != subject {
        return P.Refused(404);
      }
      if records[id].status in {P.Removed, P.Expired, P.Active} || records[id].token == "" {
        return P.Refused(409);
      }
      if P.Overdue(records[id], now) {
        records := records[id := records[id].(status := P.Expired)];
        return P.Refused(410);
      }
      if !artifact {
        return P.Refused(503);
      }
      records := records[id := records[id].(status := P.Downloaded)];
      records := records[id := records[id].(downloads := records[id].downloads + 1)];
      assert Tables() == P.Download(old(Tables()), subject, id, now, artifact).1 by {
        assert records == P.Download(old(Tables()), subject, id, now, artifact).1.records;
      }
      reply := P.Done;
    }

    /** The writes come first; the deny-list's uniqueness is only noticed when they are flushed. */
    method DeletePending(subject: P.Id, id: P.Id) returns (reply: P.Reply)
      modifies this`records, this`deny
      ensures (reply, Tables()) == P.DeletePending(old(Tables()), subject, id)
    {
      if subject !in subjects || id !in records || records[id].subject != subject {
        return P.Refused(404);
      }
      if records[id].status == P.Active {
        return P.Refused(409);
      }
      var savepoint := records;
      records := records[id := records[id].(status := P.Removed)];
      records := records[id := records[id].(token := "")];
      if P.TokenHash(records[id].hash) in deny {
        records := savepoint;
        return P.Crashed;
      }
      deny := deny + {P.TokenHash(records[id].hash)};
      assert records == P.DeletePending(old(Tables()), subject, id).1.records;
      reply := P.Done;
    }

    method Enroll(e: P.Enrollment, now: int) returns (reply: P.Reply)
      modifies this
      ensures (reply, Tables()) == P.Enroll(old(Tables()), e, now)
    {
      var record: Option<P.Id> := None;
      var subject: P.Id;
      match e.source {
        case FromRecord(id, hash) =>
          if id !in records || hash.None? {
            return P.Refused(404);
          }
          if hash.value != records[id].hash {
            return P.Refused(403);
          }
          if records[id].status in {P.Active, P.Removed, P.Expired} || records[id].token == "" {
            return P.Refused(409);
          }
          if P.Overdue(records[id], now) {
            records := records[id := records[id].(status := P.Expired)];
            return P.Refused(410);
          }
          record, subject := Some(id), records[id].subject;
        case FromPod(id) =>
          if id !in pods {
            return P.Refused(404);
          }
          subject := pods[id].subject;
        case FromNothing =>
          return P.Refused(400);
      }
      if subject !in subjects {
        return P.Refused(404);
      }
      if !e.credentials {
        return P.Refused(403);
      }
      if !e.configured || e.key == "" || e.fingerprint == "" || !e.keyMatches {
        return P.Refused(400);
      }
      if P.Certificate(e.fingerprint) in deny || P.Device(e.device) in deny {
        return P.Refused(403);
      }
      if exists p | p in pods :: pods[p].fingerprint == e.fingerprint && pods[p].status != P.Revoked {
        return P.Refused(409);
      }
      if e.id in pods {
        return P.Crashed;
      }
      var savepoint := pods;
      pods := pods[e.id := P.Pod(subject, record, P.Offline, e.key, e.fingerprint, e.device, 0, None)];
      if record.Some? {
        if P.TokenHash(records[record.value].hash) in deny {
          pods := savepoint;
          return P.Crashed;
        }
        deny := deny + {P.TokenHash(records[record.value].hash)};
        records := records[record.value := records[record.value].(status := P.Active, token := "")];
      }
      subjects := subjects[subject := Some(e.id)];
      reply := P.Done;
    }

    /** The listing loop: every pod of the subject is looked at, one after the other. */
    method ListSubject(subject: P.Id, now: int, offlineAfter: int) returns (reply: P.Reply)
      modifies this`pods
      ensures (reply, Tables()) == P.ListSubject(old(Tables()), subject, now, offlineAfter)
    {
      if subject !in subjects {
        return P.Refused(404);
      }
      var instances := set p | p in pods && pods[p].subject == subject;
      var left := instances;
      while left != {}
        invariant left <= instances && instances == P.PodsOf(old(Tables()), subject)
        invariant pods.Keys == old(pods).Keys
        invariant forall p :: p in pods ==>
          pods[p] == if p in instances && p !in left then P.Refreshed(old(pods)[p], now, offlineAfter) else old(pods)[p]
      {
        var p :| p in left;
        if pods[p].status != P.Revoked && pods[p].status != P.Suspicious {
          var status := if pods[p].heartbeat.Some? && now - pods[p].heartbeat.value <= offlineAfter then P.Online
                        else P.Offline;
          pods := pods[p := pods[p].(status := status)];
        }
        left := left - {p};
      }
      assert pods == P.ListSubject(old(Tables()), subject, now, offlineAfter).1.pods;
      reply := P.Done;
    }

    /** The same loop over the pods of all subjects. */
    method ListAll(now: int, offlineAfter: int) returns (reply: P.Reply)
      modifies this`pods
      ensures (reply, Tables()) == P.ListAll(old(Tables()), now, offlineAfter)
    {
      var instances := set p | p in pods && pods[p].status != P.Revoked;
      var left := instances;
      while left != {}
        invariant left <= instances && pods.Keys == old(pods).Keys
        invariant forall p :: p in pods ==>
          pods[p] == if p in instances && p !in left && old(pods)[p].subject in subjects
                     then P.Refreshed(old(pods)[p], now, offlineAfter) else old(pods)[p]
      {
        var p :| p in left;
        if pods[p].subject in subjects && pods[p].status != P.Suspicious {
          var status := if pods[p].heartbeat.Some? && now - pods[p].heartbeat.value <= offlineAfter then P.Online
                        else P.Offline;
          pods := pods[p := pods[p].(status := status)];
        }
        left := left - {p};
      }
      assert pods == P.ListAll(old(Tables()), now, offlineAfter).1.pods;
      reply := P.Done;
    }

    method Verify(id: P.Id, credentials: bool) returns (reply: P.Reply)
      ensures (reply, Tables()) == P.Verify(Tables(), id, credentials)
    {
      if id !in pods {
        return P.Refused(404);
      }
      if pods[id].status == P.Revoked || P.PodId(id) in deny || !credentials {
        return P.Refused(403);
      }
      reply := P.Next(pods[id].sequence + 1);
    }

    method Beat(id: P.Id, h: P.Heartbeat, now: int) returns (reply: P.Reply)
      modifies this`pods
      ensures (reply, Tables()) == P.Beat(old(Tables()), id, h, now)
    {
      if id !in pods {
        return P.Refused(404);
      }
      if pods[id].key == "" {
        pods := pods[id := pods[id].(status := h.status)];
        pods := pods[id := pods[id].(heartbeat := Some(h.observed))];
        assert pods == P.Beat(old(Tables()), id, h, now).1.pods;
        return P.Done;
      }
      if pods[id].status == P.Revoked || P.Certificate(h.fingerprint) in deny || h.fingerprint != pods[id].fingerprint {
        return P.Refused(403);
      }
      if h.device != pods[id].device {
        pods := pods[id := pods[id].(status := P.Suspicious)];
        return P.Refused(403);
      }
      if h.sequence <= pods[id].sequence {
        return P.Refused(409);
      }
      if !h.timely {
        return P.Refused(400);
      }
      if !h.signed || !h.granted {
        return P.Refused(403);
      }
      pods := pods[id := pods[id].(sequence := h.sequence)];
      pods := pods[id := pods[id].(status := P.Online)];
      pods := pods[id := pods[id].(heartbeat := Some(now))];
      assert pods == P.Beat(old(Tables()), id, h, now).1.pods;
      reply := P.Done;
    }

    /** Revocation looks up each identifier before it adds it. */
    method Revoke(id: P.Id) returns (reply: P.Reply)
      modifies this
      ensures (reply, Tables()) == P.Revoke(old(Tables()), id)
    {
      if id !in pods {
        return P.Refused(404);
      }
      if pods[id].status != P.Revoked {
        var pod := pods[id];
        var values := [(id, P.PodId(id)), (pod.fingerprint, P.Certificate(pod.fingerprint)),
                       (pod.device, P.Device(pod.device))];
        var k := 0;
        while k < |values|
          invariant 0 <= k <= |values|
          invariant deny == old(deny) + (set n | 0 <= n < k && values[n].0 != "" :: values[n].1)
          invariant subjects == old(subjects) && records == old(records) && pods == old(pods)
        {
          if values[k].0 != "" && values[k].1 !in deny {
            deny := deny + {values[k].1};
          }
          k := k + 1;
        }
        assert (set n | 0 <= n < 3 && values[n].0 != "" :: values[n].1) == P.Identifiers(id, pod) by {
          assert forall x :: x in P.Identifiers(id, pod) ==> exists n ::
            0 <= n < 3 && values[n].0 != "" && values[n].1 == x by {
            assert values[0].1 == P.PodId(id) && values[1].1 == P.Certificate(pod.fingerprint)
              && values[2].1 == P.Device(pod.device);
          }
        }
        pods := pods[id := pod.(status := P.PodStatus.Revoked)];
        if pod.subject in subjects && subjects[pod.subject] == Some(id) {
          subjects := subjects[pod.subject := None];
        }
      }
      reply := P.Done;
    }

    /** The deny-list rows the deletion adds, each checked against the stored rows only. */
    method Gather(subject: P.Id) returns (pending: set<P.Identifier>, clash: bool)
      ensures pending == Wanted(Tables(), P.PodsOf(Tables(), subject))
      ensures clash <==> P.Collides(Tables(), subject)
    {
      var instances := set p | p in pods && pods[p].subject == subject;
      var left := instances;
      pending, clash := {}, false;
      while left != {}
        invariant left <= instances && pending == Wanted(Tables(), instances - left)
        invariant clash <==> ClashAmong(Tables(), instances - left)
      {
        var p :| p in left;
        var added := P.Identifiers(p, pods[p]) - deny;
        WantedStep(Tables(), instances - left, p);
        assert instances - left + {p} == instances - (left - {p});
        if added * pending != {} {
          clash := true;
        }
        pending := pending + added;
        left := left - {p};
      }
      assert instances - left == P.PodsOf(Tables(), subject);
    }

    /** The deletion adds rows the existence query does not see; a repeated one fails the flush and the request as a
        whole. */
    method DeleteSubject(subject: P.Id) returns (reply: P.Reply)
      modifies this
      ensures (reply, Tables()) == P.DeleteSubject(old(Tables()), subject)
    {
      if subject !in subjects {
        return P.Refused(404);
      }
      var pending, clash := Gather(subject);
      if clash {
        return P.Crashed;
      }
      assert deny + pending == P.DeniedWith(Tables(), subject);
      deny := deny + pending;
      pods := map p | p in pods && pods[p].subject != subject :: pods[p];
      records := map r | r in records && records[r].subject != subject :: records[r];
      subjects := subjects - {subject};
      reply := P.Done;
    }
  }

  ghost function Wanted(s: P.State, done: set<P.Id>): set<P.Identifier> {
    set p, x | p in done && p in s.pods && x in P.Identifiers(p, s.pods[p]) && x !in s.deny :: x
  }

  ghost predicate ClashAmong(s: P.State, done: set<P.Id>) {
    exists p, q :: p in done && q in done && p in s.pods && q in s.pods && p != q
      && (P.Identifiers(p, s.pods[p]) * P.Identifiers(q, s.pods[q])) - s.deny != {}
  }

  lemma WantedGrows(s: P.State, done: set<P.Id>, p: P.Id)
    requires p in s.pods && p !in done
    ensures Wanted(s, done + {p}) == Wanted(s, done) + (P.Identifiers(p, s.pods[p]) - s.deny)
  {
  }

  lemma ClashFound(s: P.State, done: set<P.Id>, p: P.Id, x: P.Identifier)
    requires p in s.pods && p !in done && x in P.Identifiers(p, s.pods[p]) && x !in s.deny && x in Wanted(s, done)
    ensures ClashAmong(s, done + {p})
  {
    var q :| q in done && q in s.pods && x in P.Identifiers(q, s.pods[q]);
    assert x in (P.Identifiers(p, s.pods[p]) * P.Identifiers(q, s.pods[q])) - s.deny;
  }

  lemma ClashIsNew(s: P.State, done: set<P.Id>, p: P.Id) returns (x: P.Identifier)
    requires p in s.pods && p !in done && ClashAmong(s, done + {p}) && !ClashAmong(s, done)
    ensures x in P.Identifiers(p, s.pods[p]) && x !in s.deny && x in Wanted(s, done)
  {
    var a, b :| a in done + {p} && b in done + {p} && a in s.pods && b in s.pods && a != b
      && (P.Identifiers(a, s.pods[a]) * P.Identifiers(b, s.pods[b])) - s.deny != {};
    x :| x in (P.Identifiers(a, s.pods[a]) * P.Identifiers(b, s.pods[b])) - s.deny;
  }

  lemma WantedStep(s: P.State, done: set<P.Id>, p: P.Id)
    requires p in s.pods && p !in done
    ensures Wanted(s, done + {p}) == Wanted(s, done) + (P.Identifiers(p, s.pods[p]) - s.deny)
    ensures ClashAmong(s, done + {p}) <==>
            ClashAmong(s, done) || (P.Identifiers(p, s.pods[p]) - s.deny) * Wanted(s, done) != {}
  {
    WantedGrows(s, done, p);
    if x :| x in (P.Identifiers(p, s.pods[p]) - s.deny) * Wanted(s, done) {
      ClashFound(s, done, p, x);
    }
    if ClashAmong(s, done + {p}) && !ClashAmong(s, done) {
      var x := ClashIsNew(s, done, p);
      assert x in (P.Identifiers(p, s.pods[p]) - s.deny) * Wanted(s, done);
    }
  }
}
