/** The session store and the callback handler as they are written: methods on a Redis connection.

Each method is proved to do exactly what the undisturbed worker of the state machine does. */
module SessionStorage {
  import opened Wrappers
  import opened RedisStore
  import opened SessionProtocol

  class RedisStorage {
    const cfg: Config
    const client: RedisClient

    constructor (cfg: Config, client: RedisClient)
      ensures this.cfg == cfg && this.client == client
    {
      this.cfg := cfg;
      this.client := client;
    }

    method AddSession(e: Entity)
      requires cfg.ttl > 0
      modifies client
      ensures (client.store, Inserted, []) == RunAlone(cfg, old(client.store), AddSess(e), NO_ENV)
      ensures forall k :: k != SessKey(e.id) && k != StateKey(e.state) ==> Get(client.store, k) == Get(old(client.store), k)
    {
      ghost var s0 := client.store;
      var _ := client.SetKey(SessKey(e.id), Doc(e), false, cfg.ttl);
      ghost var s1 := client.store;
      var _ := client.SetKey(StateKey(e.state), Sid(e.id), false, cfg.ttl);
      assert RunAlone(cfg, s1, AddState(e), NO_ENV) == (client.store, Inserted, []) by {
        assert RunAlone(cfg, client.store, Done(Inserted), NO_ENV) == (client.store, Inserted, []);
      }
    }

    /** Stores the document again; a live one keeps its expiry, a dead one gets the default. */
    method UpdateSession(e: Entity)
      requires cfg.ttl > 0
      modifies client
      ensures client.store == old(client.store).(keys := old(client.store.keys)[SessKey(e.id) := Entry(Doc(e),
                if Live(old(client.store), SessKey(e.id)) then old(client.store).keys[SessKey(e.id)].expiry
                else old(client.store).now + cfg.ttl)])
    {
      var key := SessKey(e.id);
      var ttl := client.TtlOf(key);
      var ex := if ttl > 0 then ttl else cfg.ttl;
      var _ := client.SetKey(key, Doc(e), false, ex);
    }

    /** Called with the request it serves as a ghost, to name the worker it stands for. */
    method ConsumeSession(state: string, ghost req: Request) returns (r: Option<Entity>)
      requires cfg.ttl > 0 && StoresOwnIds(client.store)
      requires Reaches(req) && req.state == state
      modifies client
      ensures ConsumeAlone(cfg, old(client.store), req)
           == (client.store, if r.Some? then CheckRequest(req, r.value) else LookState(req))
      ensures r.Some? ==> r.value.completed
    {
      ghost var s0 := client.store;
      if state == "" {
        return None;
      }
      var found := client.GetKey(StateKey(state));
      if found.None? || !found.value.Sid? || found.value.id == "" {
        return None;
      }
      var sid := found.value.id;
      var key := SessKey(sid);
      var ttl := client.TtlOf(key);
      assert ConsumeAlone(cfg, s0, req) == FinishConsume(cfg, s0, MarkUsed(req, sid, ttl)) by {
        assert ConsumeAlone(cfg, s0, req) == FinishConsume(cfg, s0, ReadTtl(req, sid));
      }
      var won := client.SetKey(UsedKey(state), Mark, true, if ttl > 0 then ttl else cfg.ttl);
      if !won {
        assert FinishConsume(cfg, s0, LookState(req)) == (s0, LookState(req));
        return None;
      }
      ghost var s1 := client.store;
      assert FinishConsume(cfg, s0, MarkUsed(req, sid, ttl)) == FinishConsume(cfg, s1, ReadDoc(req, sid));
      var doc := client.GetKey(key);
      if doc.None? || !doc.value.Doc? {
        assert FinishConsume(cfg, s1, LookState(req)) == (s1, LookState(req));
        return None;
      }
      var entity := doc.value.entity;
      if AlreadyUsed(entity) {
        assert FinishConsume(cfg, s1, LookState(req)) == (s1, LookState(req));
        return None;
      }
      entity := entity.(completed := true);
      UpdateSession(entity);
      ghost var again := UpdateSet(req, entity, Consume, Ttl(s1, key));
      assert FinishConsume(cfg, s1, again) == (client.store, CheckRequest(req, entity));
      assert FinishConsume(cfg, s1, UpdateTtl(req, entity, Consume)) == FinishConsume(cfg, s1, again);
      return Some(entity);
    }

    method GetSessions(state: string) returns (r: seq<Entity>)
      ensures r == (match LookedUp(client.store, state) case Some(e) => [e] case None => [])
    {
      r := [];
      var found := client.GetKey(StateKey(state));
      if found.Some? && found.value.Sid? && found.value.id != "" {
        var doc := client.GetKey(SessKey(found.value.id));
        if doc.Some? && doc.value.Doc? {
          r := [doc.value.entity];
        }
      }
    }
  }

  class CallbackHandler {
    const cfg: Config
    const storage: RedisStorage

    constructor (cfg: Config, storage: RedisStorage)
      requires storage.cfg == cfg
      ensures this.cfg == cfg && this.storage == storage
    {
      this.cfg := cfg;
      this.storage := storage;
    }

    /** The handler of one callback. `calls` lists what it did that can be done only once. */
    method Endpoint(req: Request, env: Env) returns (outcome: Outcome, calls: seq<Event>)
      requires cfg.ttl > 0 && storage.cfg == cfg
      requires StoresOwnIds(storage.client.store)
      modifies storage.client
      ensures (storage.client.store, outcome, calls) == RunAlone(cfg, old(storage.client.store), Enter(req), env)
    {
      calls := [];
      if req.error || !req.satosaState {
        OneStep(cfg, storage.client.store, Enter(req), env);
        return Handled, calls;
      }
      ghost var s0 := storage.client.store;
      var consumed := storage.ConsumeSession(req.state, req);
      ConsumeThenRun(cfg, s0, req, env);
      if consumed.None? {
        var existing := storage.GetSessions(req.state);
        LookAlone(cfg, storage.client.store, req, env);
        return Rejected(|existing| > 0 && AlreadyUsed(existing[0])), calls;
      }
      var auth := consumed.value.(completed := true);
      ghost var s1 := storage.client.store;
      calls := [Consumed(req.state)];
      var later;
      outcome, later := Exchange(req, auth, env);
      calls := calls + later;
    }

    /** The callback after a successful consume. */
    method Exchange(req: Request, consumed: Entity, env: Env) returns (outcome: Outcome, calls: seq<Event>)
      requires cfg.ttl > 0 && storage.cfg == cfg
      modifies storage.client
      ensures (storage.client.store, outcome, calls)
           == RunAlone(cfg, old(storage.client.store), CheckRequest(req, consumed), env)
    {
      hide RunAlone;
      var auth := consumed;
      ghost var s0 := storage.client.store;
      OneStep(cfg, s0, CheckRequest(req, auth), env);
      if req.iss.None? || !CheckProvider(auth.providerId, req.iss.value) || auth.clientId != cfg.clientId || !env.dataOk {
        DoneAlone(cfg, s0, Done(Rejected(false)), env);
        return Rejected(false), [];
      }
      auth := auth.(code := req.code);
      calls := [Redeemed(req.state, auth.code)];
      OneStep(cfg, s0, Redeem(req, auth), env);
      if env.token.None? || !env.verified {
        DoneAlone(cfg, s0, Done(Rejected(false)), env);
        return Rejected(false), calls;
      }
      auth := auth.(accessToken := Some(env.token.value.accessToken));
      if env.tokenValid {
        ghost var ttl := Ttl(s0, SessKey(auth.id));
        storage.UpdateSession(auth);
        OneStep(cfg, s0, UpdateTtl(req, auth, Token(env.token.value.refreshToken)), env);
        OneStep(cfg, s0, UpdateSet(req, auth, Token(env.token.value.refreshToken), ttl), env);
      }
      var later;
      outcome, later := Conclude(req, auth, env.token.value.refreshToken, env);
      calls := calls + later;
    }

    /** The user info and the client callback. */
    method Conclude(req: Request, redeemed: Entity, refresh: Option<string>, env: Env)
      returns (outcome: Outcome, calls: seq<Event>)
      requires cfg.ttl > 0 && storage.cfg == cfg
      modifies storage.client
      ensures (storage.client.store, outcome, calls)
           == RunAlone(cfg, old(storage.client.store), UserInfo(req, redeemed, refresh), env)
    {
      hide RunAlone;
      ghost var s1 := storage.client.store;
      OneStep(cfg, s1, UserInfo(req, redeemed, refresh), env);
      if env.user.None? {
        DoneAlone(cfg, s1, Done(Rejected(false)), env);
        return Rejected(false), [];
      }
      var auth := redeemed;
      if refresh.Some? && refresh.value != "" {
        auth := auth.(refreshToken := refresh);
      }
      auth := auth.(user := env.user);
      if env.userValid {
        ghost var ttl := Ttl(s1, SessKey(auth.id));
        storage.UpdateSession(auth);
        OneStep(cfg, s1, UpdateTtl(req, auth, User), env);
        OneStep(cfg, s1, UpdateSet(req, auth, User, ttl), env);
      }
      OneStep(cfg, storage.client.store, ClientCallback(req, auth), env);
      DoneAlone(cfg, storage.client.store, Done(Completed), env);
      return Completed, [ClientCalled(req.state)];
    }
  }

  /** The look at the session that decides between the two refusals. */
  lemma {:induction false} LookAlone(cfg: Config, s: Store, req: Request, env: Env)
    ensures RunAlone(cfg, s, LookState(req), env)
         == (s, Rejected(LookedUp(s, req.state).Some? && AlreadyUsed(LookedUp(s, req.state).value)), [])
  {
    hide RunAlone;
    var w := WorkerStep(cfg, s, LookState(req), env).worker;
    OneStep(cfg, s, LookState(req), env);
    if w.LookDoc? {
      OneStep(cfg, s, w, env);
      DoneAlone(cfg, s, WorkerStep(cfg, s, w, env).worker, env);
    } else {
      DoneAlone(cfg, s, w, env);
    }
  }

  lemma DoneAlone(cfg: Config, s: Store, w: Worker, env: Env)
    requires w.Done?
    ensures RunAlone(cfg, s, w, env) == (s, w.outcome, [])
  {
  }
}
