/** The session and preference handlers, as they change the stored rows. */
module SessionService {
  import opened Common
  import S = Sessions

  class Service {
    const config: S.Config
    const h: S.Hashes
    var leases: map<S.Id, S.Lease>
    var prefs: Option<S.Prefs>

    constructor (config: S.Config, h: S.Hashes)
      ensures this.config == config && this.h == h && Rows() == S.State(map[], None)
    {
      this.config, this.h := config, h;
      leases, prefs := map[], None;
    }

    ghost function Rows(): S.State
      reads this
    {
      S.State(leases, prefs)
    }

    /** expire_stale_sessions: the stale rows are selected first, then changed one by one. */
    method ExpireStale(now: int)
      modifies `leases
      ensures Rows() == S.Expire(old(Rows()), now)
    {
      var todo := set id | id in leases && S.Stale(leases[id], now);
      ghost var stale := todo;
      while todo != {}
        invariant todo <= stale && prefs == old(prefs)
        invariant leases.Keys == old(leases).Keys
        invariant forall id :: id in leases ==>
          leases[id] == if id in stale && id !in todo then S.Aged(old(leases)[id], now) else old(leases)[id]
        decreases |todo|
      {
        var id :| id in todo;
        leases := leases[id := leases[id].(status := S.Expired, ended := Some(now))];
        todo := todo - {id};
      }
      assert leases == S.Expire(old(Rows()), now).leases;
    }

    /** ensure_preferences; false where it raises and nothing is stored. */
    method Ensure(made: string) returns (ok: bool)
      modifies `prefs
      ensures ok == S.Ensure(old(Rows()), config, h, made).Some?
      ensures Rows() == if ok then S.Ensure(old(Rows()), config, h, made).value else old(Rows())
    {
      var current := if prefs.Some? then prefs.value else S.EMPTY;
      var verifier := S.Stored(current.auth);
      if !h.isVerifier(verifier) {
        if current.auth.accessKeyHash.Some? || current.auth.passwordHash.Some? {
          return false;
        }
        if h.isVerifier(config.accessKeyHash) {
          verifier := config.accessKeyHash;
        } else if S.Seed(current.auth, config) != "" {
          verifier := made;
        } else {
          return false;
        }
      }
      current := current.(auth := S.Auth(Some(verifier), None, None));
      if current.accent.None? {
        current := current.(accent := Some("#00A8FF"));
      }
      if current.autoHide.None? {
        current := current.(autoHide := Some(false));
      }
      if current.layout.None? {
        current := current.(layout := Some(map["navigation" := [], "dashboard" := [], "settings" := []]));
      }
      if current.initialized.None? {
        current := current.(initialized := Some(false));
      }
      if current.revision.None? {
        current := current.(revision := Some(1));
      }
      prefs := Some(current);
      ok := true;
    }

    /** require_core_access, up to the request headers: stale sessions expire for good, then the cookies are checked. */
    method Guard(id: S.Id, key: string, now: int) returns (ok: bool)
      modifies `leases
      ensures Rows() == S.Expire(old(Rows()), now) && ok == S.Opens(old(Rows()), h, id, key, now)
    {
      ExpireStale(now);
      if id == "" || key == "" || id !in leases {
        return false;
      }
      var lease := leases[id];
      ok := lease.status == S.Active && lease.digest == h.digest(key) && lease.scope == "perimetr"
        && lease.transport == "direct";
    }

    /** create_direct_session with the transaction of its caller. */
    method Login(target: string, access: string, id: S.Id, key: string, made: string, now: int) returns (reply: S.Reply)
      modifies `leases, `prefs
      ensures (reply, Rows()) == S.Apply(old(Rows()), S.Login(target, access, id, key, made, now), config, h)
    {
      if target != "perimetr" {
        return S.Denied;
      }
      var before := leases;
      ExpireStale(now);
      var ok := Ensure(made);
      if !ok {
        leases := before;
        return S.Crashed;
      }
      if access == "" || !h.verify(access, S.Stored(prefs.value.auth)) {
        return S.Denied;
      }
      leases := leases[id := S.Opened(h, config, key, now)];
      reply := S.Done;
    }

    method Logout(id: S.Id, key: string, now: int) returns (reply: S.Reply)
      modifies `leases
      ensures (reply, Rows()) == S.Apply(old(Rows()), S.Logout(id, key, now), config, h)
    {
      var ok := Guard(id, key, now);
      if !ok {
        return S.Denied;
      }
      leases := leases[id := leases[id].(status := S.Revoked, ended := Some(now))];
      reply := S.Done;
    }

    method Read(id: S.Id, key: string, made: string, now: int) returns (reply: S.Reply)
      modifies `leases, `prefs
      ensures (reply, Rows()) == S.Apply(old(Rows()), S.Read(id, key, made, now), config, h)
    {
      var ok := Guard(id, key, now);
      if !ok {
        return S.Denied;
      }
      ok := Ensure(made);
      reply := if ok then S.Done else S.Crashed;
    }

    /** The loop of revoke_subject_access. */
    method RevokeSubject(subject: S.Id, now: int)
      modifies `leases
      ensures Rows() == S.RevokeSubject(old(Rows()), subject, now)
    {
      var todo := set id | id in leases && leases[id].subject == Some(subject) && leases[id].status == S.Active;
      ghost var chosen := todo;
      while todo != {}
        invariant todo <= chosen && prefs == old(prefs)
        invariant leases.Keys == old(leases).Keys
        invariant forall id :: id in leases ==>
          leases[id] == if id in chosen && id !in todo then old(leases)[id].(status := S.Revoked, ended := Some(now))
                        else old(leases)[id]
        decreases |todo|
      {
        var id :| id in todo;
        leases := leases[id := leases[id].(status := S.Revoked, ended := Some(now))];
        todo := todo - {id};
      }
      assert leases == S.RevokeSubject(old(Rows()), subject, now).leases;
    }

    /** The loop of update_access_key. */
    method RevokeOthers(kept: S.Id, now: int)
      requires kept in leases
      modifies `leases
      ensures leases.Keys == old(leases).Keys && leases[kept] == old(leases)[kept]
      ensures forall id :: id in leases && id != kept ==>
        leases[id] == if old(leases)[id].status == S.Active && old(leases)[id].transport == "direct"
                      then old(leases)[id].(status := S.Revoked, ended := Some(now)) else old(leases)[id]
    {
      var todo := set id | id in leases && leases[id].status == S.Active && leases[id].transport == "direct";
      ghost var chosen := todo;
      while todo != {}
        invariant todo <= chosen
        invariant leases.Keys == old(leases).Keys && leases[kept] == old(leases)[kept]
        invariant forall id :: id in leases && id != kept ==>
          leases[id] == if id in chosen && id !in todo then old(leases)[id].(status := S.Revoked, ended := Some(now))
                        else old(leases)[id]
        decreases |todo|
      {
        var id :| id in todo;
        if id != kept {
          leases := leases[id := leases[id].(status := S.Revoked, ended := Some(now))];
        }
        todo := todo - {id};
      }
    }

    /** The writes of an accepted access key change. */
    method Install(id: S.Id, verifier: string, newKey: string, now: int)
      requires id in leases && prefs.Some?
      modifies `leases, `prefs
      ensures leases == S.OnlyKept(old(leases), id, h.digest(newKey), now + config.lifetime, now)
      ensures prefs == Some(old(prefs).value.(auth := S.Auth(Some(verifier), None, None)))
    {
      prefs := Some(prefs.value.(auth := S.Auth(Some(verifier), None, None)));
      RevokeOthers(id, now);
      leases := leases[id := leases[id].(digest := h.digest(newKey), expires := Some(now + config.lifetime))];
    }

    /** update_access_key: settings come into being even when the current key is wrong. */
    method UpdateKey(step: S.Step) returns (reply: S.Reply)
      requires step.Rotate? && step.id in leases
      modifies `leases, `prefs
      ensures (reply, Rows()) == S.RotateKey(old(Rows()), step, config, h)
    {
      if step.wanted == "" || step.wanted != step.confirmed {
        return S.Denied;
      }
      var ok := Ensure(step.made);
      if !ok {
        return S.Crashed;
      }
      if !h.verify(step.current, S.Stored(prefs.value.auth)) {
        return S.Denied;
      }
      Install(step.id, step.verifier, step.newKey, step.now);
      reply := S.Done;
    }

    method Rotate(step: S.Step) returns (reply: S.Reply)
      requires step.Rotate?
      modifies `leases, `prefs
      ensures (reply, Rows()) == S.Apply(old(Rows()), step, config, h)
    {
      var ok := Guard(step.id, step.key, step.now);
      if !ok {
        return S.Denied;
      }
      reply := UpdateKey(step);
    }

    /** update_preferences: a refusal is rolled back, stored defaults included. */
    method Change(id: S.Id, key: string, edit: S.Edit, made: string, now: int) returns (reply: S.Reply)
      modifies `leases, `prefs
      ensures (reply, Rows()) == S.Apply(old(Rows()), S.Change(id, key, edit, made, now), config, h)
    {
      var ok := Guard(id, key, now);
      if !ok {
        return S.Denied;
      }
      var before := prefs;
      ok := Ensure(made);
      if !ok {
        return S.Crashed;
      }
      var current := prefs.value;
      if edit.expected != current.revision {
        prefs := before;
        return S.Conflict;
      }
      var valid := Check(edit);
      if !valid {
        prefs := before;
        return S.Invalid;
      }
      if edit.accent.Some? {
        current := current.(accent := edit.accent.value);
      }
      if edit.autoHide.Some? {
        current := current.(autoHide := edit.autoHide.value);
      }
      if edit.layout.Some? {
        current := current.(layout := Some(current.layout.value + edit.layout.value.value));
      }
      prefs := Some(current.(initialized := Some(true), revision := Some(current.revision.value + 1)));
      reply := S.Done;
    }
  }

  /** The checks of update_preferences after the revision, in their order. */
  method Check(edit: S.Edit) returns (ok: bool)
    ensures ok == S.EditOk(edit)
  {
    if edit.unknown || (edit.accent.Some? && edit.accent.value.None?)
      || (edit.autoHide.Some? && edit.autoHide.value.None?) {
      return false;
    }
    if edit.layout.Some? {
      if edit.layout.value.None? {
        return false;
      }
      ok := CheckLayout(edit.layout.value.value);
      if !ok {
        return false;
      }
    }
    ok := edit.initialized.Some? ==> edit.initialized.value;
  }

  method CheckLayout(layout: S.Layout) returns (ok: bool)
    ensures ok == S.LayoutOk(layout)
  {
    if layout.Keys - S.SCOPES != {} {
      return false;
    }
    var todo := layout.Keys;
    while todo != {}
      invariant todo <= layout.Keys
      invariant forall name :: name in layout && name !in todo ==> S.OrderOk(layout[name])
      decreases |todo|
    {
      var name :| name in todo;
      if !S.OrderOk(layout[name]) {
        return false;
      }
      todo := todo - {name};
    }
    ok := true;
  }
}
