/** Workers of the CIE callback, as a state machine with one step per Redis command or outside call.

A worker either inserts a session (authorization endpoint) or serves one callback. All workers share one
store; between two steps of a worker any number of steps of other workers and clock ticks may happen. */
module SessionProtocol {
  import opened Wrappers
  import opened RedisStore

  datatype Config = Config(ttl: int, clientId: string)

  /** What a callback request brings. An absent `state` parameter is the empty text. */
  datatype Request = Request(error: bool, satosaState: bool, state: string, code: Option<string>, iss: Option<string>)

  datatype TokenResponse = TokenResponse(accessToken: string, refreshToken: Option<string>)

  /** Results of the calls the model does not look into: token endpoint, token checks, user info, validation. */
  datatype Env = Env(dataOk: bool, token: Option<TokenResponse>, verified: bool, user: Option<string>,
                     tokenValid: bool, userValid: bool)

  /** The three places that store the session again: the consume itself, the tokens, the user. */
  datatype Phase = Consume | Token(refresh: Option<string>) | User

  datatype Outcome = Inserted | Handled | Rejected(replay: bool) | Completed

  datatype Worker =
    | AddSess(entity: Entity)
    | AddState(entity: Entity)
    | Enter(req: Request)
    | ReadTtl(req: Request, sid: string)
    | MarkUsed(req: Request, sid: string, ttl: int)
    | ReadDoc(req: Request, sid: string)
    | UpdateTtl(req: Request, auth: Entity, phase: Phase)
    | UpdateSet(req: Request, auth: Entity, phase: Phase, ttl: int)
    | CheckRequest(req: Request, auth: Entity)
    | Redeem(req: Request, auth: Entity)
    | UserInfo(req: Request, auth: Entity, refresh: Option<string>)
    | ClientCallback(req: Request, auth: Entity)
    | LookState(req: Request)
    | LookDoc(req: Request, sid: string)
    | Done(outcome: Outcome)

  datatype Event =
    | Consumed(state: string)
    | Redeemed(state: string, code: Option<string>)
    | ClientCalled(state: string)

  datatype StepResult = StepResult(store: Store, worker: Worker, events: seq<Event>)

  predicate EndsWithSlash(s: string) {
    |s| > 0 && s[|s| - 1] == '/'
  }

  /** Provider and issuer agree up to one trailing slash. */
  predicate CheckProvider(provider: string, iss: string) {
    if EndsWithSlash(provider) && !EndsWithSlash(iss) then provider == iss + "/"
    else if !EndsWithSlash(provider) && EndsWithSlash(iss) then provider == iss[..|iss| - 1]
    else provider == iss
  }

  /** A refresh token is taken over if there is one. */
  function WithRefresh(e: Entity, refresh: Option<string>): Entity {
    if Truthy(refresh) then e.(refreshToken := refresh) else e
  }

  /** Where the callback goes on after each of the three updates. */
  function AfterUpdate(phase: Phase, req: Request, auth: Entity): Worker {
    match phase
    case Consume => CheckRequest(req, auth)
    case Token(refresh) => UserInfo(req, auth, refresh)
    case User => ClientCallback(req, auth)
  }

  /** One step of a worker: at most one Redis command or one outside call. */
  function WorkerStep(cfg: Config, s: Store, w: Worker, env: Env): StepResult {
    match w
    case AddSess(e) =>
      StepResult(SetEx(s, SessKey(e.id), Doc(e), cfg.ttl), AddState(e), [])
    case AddState(e) =>
      StepResult(SetEx(s, StateKey(e.state), Sid(e.id), cfg.ttl), Done(Inserted), [])
    case Enter(req) =>
      if req.error || !req.satosaState then StepResult(s, Done(Handled), [])
      else if req.state == "" then StepResult(s, LookState(req), [])
      else (
        match Get(s, StateKey(req.state))
        case Some(Sid(sid)) => StepResult(s, if sid == "" then LookState(req) else ReadTtl(req, sid), [])
        case _ => StepResult(s, LookState(req), []))
    case ReadTtl(req, sid) =>
      StepResult(s, MarkUsed(req, sid, Ttl(s, SessKey(sid))), [])
    case MarkUsed(req, sid, ttl) =>
      if Live(s, UsedKey(req.state)) then StepResult(s, LookState(req), [])
      else StepResult(SetEx(s, UsedKey(req.state), Mark, ExpiryArg(cfg.ttl, ttl)), ReadDoc(req, sid), [])
    case ReadDoc(req, sid) =>
      (match Get(s, SessKey(sid))
       case Some(Doc(e)) =>
         if AlreadyUsed(e) then StepResult(s, LookState(req), [])
         else StepResult(s, UpdateTtl(req, e.(completed := true), Consume), [])
       case _ => StepResult(s, LookState(req), []))
    case UpdateTtl(req, auth, phase) =>
      StepResult(s, UpdateSet(req, auth, phase, Ttl(s, SessKey(auth.id))), [])
    case UpdateSet(req, auth, phase, ttl) =>
      StepResult(SetEx(s, SessKey(auth.id), Doc(auth), ExpiryArg(cfg.ttl, ttl)), AfterUpdate(phase, req, auth),
                 if phase == Consume then [Consumed(req.state)] else [])
    case CheckRequest(req, auth) =>
      if req.iss.None? || !CheckProvider(auth.providerId, req.iss.value) || auth.clientId != cfg.clientId || !env.dataOk
      then StepResult(s, Done(Rejected(false)), [])
      else StepResult(s, Redeem(req, auth.(code := req.code)), [])
    case Redeem(req, auth) =>
      if env.token.None? || !env.verified then StepResult(s, Done(Rejected(false)), [Redeemed(req.state, auth.code)])
      else
        var auth' := auth.(accessToken := Some(env.token.value.accessToken));
        var refresh := env.token.value.refreshToken;
        StepResult(s, if env.tokenValid then UpdateTtl(req, auth', Token(refresh)) else UserInfo(req, auth', refresh),
                   [Redeemed(req.state, auth.code)])
    case UserInfo(req, auth, refresh) =>
      if env.user.None? then StepResult(s, Done(Rejected(false)), [])
      else
        var auth' := WithRefresh(auth, refresh).(user := env.user);
        StepResult(s, if env.userValid then UpdateTtl(req, auth', User) else ClientCallback(req, auth'), [])
    case ClientCallback(req, auth) =>
      StepResult(s, Done(Completed), [ClientCalled(req.state)])
    case LookState(req) =>
      (match Get(s, StateKey(req.state))
       case Some(Sid(sid)) => StepResult(s, if sid == "" then Done(Rejected(false)) else LookDoc(req, sid), [])
       case _ => StepResult(s, Done(Rejected(false)), []))
    case LookDoc(req, sid) =>
      (match Get(s, SessKey(sid))
       case Some(Doc(e)) => StepResult(s, Done(Rejected(AlreadyUsed(e))), [])
       case _ => StepResult(s, Done(Rejected(false)), []))
    case Done(_) => StepResult(s, w, [])
  }

  // The whole system -------------------------------------------------------------------------------

  datatype Logged = Logged(worker: nat, event: Event)

  datatype System = System(store: Store, workers: seq<Worker>, log: seq<Logged>)

  datatype Action =
    | Tick(ticks: nat)
    | Insert(entity: Entity)
    | Callback(req: Request)
    | Step(worker: nat, env: Env)

  const START := System(Store(map[], 0), [], [])

  function LogAll(worker: nat, events: seq<Event>): seq<Logged> {
    seq(|events|, i requires 0 <= i < |events| => Logged(worker, events[i]))
  }

  function Apply(cfg: Config, s: System, a: Action): System {
    match a
    case Tick(n) => s.(store := s.store.(now := s.store.now + n))
    case Insert(e) => s.(workers := s.workers + [AddSess(e)])
    case Callback(req) => s.(workers := s.workers + [Enter(req)])
    case Step(i, env) =>
      if i >= |s.workers| then s
      else
        var r := WorkerStep(cfg, s.store, s.workers[i], env);
        System(r.store, s.workers[i := r.worker], s.log + LogAll(i, r.events))
  }

  function Exec(cfg: Config, actions: seq<Action>): System {
    if actions == [] then START
    else Apply(cfg, Exec(cfg, actions[..|actions| - 1]), actions[|actions| - 1])
  }

  /** Each state and each session id is inserted once: both are drawn at random by the inserting request. */
  ghost predicate InsertedOnce(actions: seq<Action>) {
    forall i, j :: 0 <= i < j < |actions| && actions[i].Insert? && actions[j].Insert? ==>
      actions[i].entity.state != actions[j].entity.state && actions[i].entity.id != actions[j].entity.id
  }

  // One call without interference --------------------------------------------------------------------

  /** How far a worker is; every step of a worker that is not done moves it forward. */
  function Rank(w: Worker): nat {
    match w
    case AddSess(_) => 1
    case AddState(_) => 2
    case Enter(_) => 1
    case ReadTtl(_, _) => 2
    case MarkUsed(_, _, _) => 3
    case ReadDoc(_, _) => 4
    case UpdateTtl(_, _, p) => if p == Consume then 5 else if p.Token? then 9 else 12
    case UpdateSet(_, _, p, _) => if p == Consume then 6 else if p.Token? then 10 else 13
    case CheckRequest(_, _) => 7
    case Redeem(_, _) => 8
    case UserInfo(_, _, _) => 11
    case ClientCallback(_, _) => 14
    case LookState(_) => 20
    case LookDoc(_, _) => 21
    case Done(_) => 22
  }

  lemma StepMovesForward(cfg: Config, s: Store, w: Worker, env: Env)
    requires !w.Done?
    ensures Rank(WorkerStep(cfg, s, w, env).worker) > Rank(w)
  {
  }

  predicate InConsume(w: Worker) {
    w.ReadTtl? || w.MarkUsed? || w.ReadDoc? || ((w.UpdateTtl? || w.UpdateSet?) && w.phase == Consume)
  }

  const NO_ENV := Env(false, None, false, None, false, false)

  /** The rest of a consume when no other worker and no tick interferes. */
  function FinishConsume(cfg: Config, s: Store, w: Worker): (Store, Worker)
    decreases 22 - Rank(w)
  {
    if InConsume(w) then
      var r := WorkerStep(cfg, s, w, NO_ENV);
      StepMovesForward(cfg, s, w, NO_ENV);
      FinishConsume(cfg, r.store, r.worker)
    else (s, w)
  }

  /** A whole undisturbed consume, from its first command. */
  function ConsumeAlone(cfg: Config, s: Store, req: Request): (Store, Worker) {
    var r := WorkerStep(cfg, s, Enter(req), NO_ENV);
    FinishConsume(cfg, r.store, r.worker)
  }

  /** A callback request that gets as far as the session store. */
  predicate Reaches(req: Request) {
    !req.error && req.satosaState
  }

  /** A document is stored under its own id. */
  ghost predicate StoresOwnIds(s: Store) {
    forall id :: SessKey(id) in s.keys && s.keys[SessKey(id)].value.Doc? ==> s.keys[SessKey(id)].value.entity.id == id
  }

  /** The session a consume of `state` would hand out, if the store has one. */
  ghost predicate Offers(s: Store, state: string, e: Entity) {
    && state != "" && e.id != ""
    && Get(s, StateKey(state)) == Some(Sid(e.id))
    && !Live(s, UsedKey(state))
    && Get(s, SessKey(e.id)) == Some(Doc(e))
    && !AlreadyUsed(e)
  }

  /** An undisturbed consume returns a session exactly when the store offers one; it then leaves the document
  completed and the marker set, both to expire when the document would have, and nothing else changed. */
  lemma {:induction false} ConsumeAloneIff(cfg: Config, s: Store, req: Request)
    requires cfg.ttl > 0 && Reaches(req) && StoresOwnIds(s)
    ensures ConsumeAlone(cfg, s, req).1.CheckRequest? <==> exists e :: Offers(s, req.state, e)
    ensures forall e :: Offers(s, req.state, e) ==>
      var due := s.keys[SessKey(e.id)].expiry;
      ConsumeAlone(cfg, s, req) ==
        (s.(keys := s.keys[UsedKey(req.state) := Entry(Mark, due)]
                          [SessKey(e.id) := Entry(Doc(e.(completed := true)), due)]),
         CheckRequest(req, e.(completed := true)))
  {
    var r := WorkerStep(cfg, s, Enter(req), NO_ENV);
    if r.worker.ReadTtl? {
      var sid := r.worker.sid;
      var w1 := WorkerStep(cfg, s, r.worker, NO_ENV);
      var w2 := WorkerStep(cfg, w1.store, w1.worker, NO_ENV);
      if w2.worker.ReadDoc? {
        var w3 := WorkerStep(cfg, w2.store, w2.worker, NO_ENV);
        assert Get(w2.store, SessKey(sid)) == Get(s, SessKey(sid));
        if w3.worker.UpdateTtl? {
          var e := s.keys[SessKey(sid)].value.entity;
          assert Offers(s, req.state, e);
          var w4 := WorkerStep(cfg, w3.store, w3.worker, NO_ENV);
          var w5 := WorkerStep(cfg, w4.store, w4.worker, NO_ENV);
          assert !InConsume(w5.worker);
          assert FinishConsume(cfg, w4.store, w4.worker) == (w5.store, w5.worker);
          assert FinishConsume(cfg, w3.store, w3.worker) == (w5.store, w5.worker);
        }
        assert FinishConsume(cfg, w2.store, w2.worker) == FinishConsume(cfg, w3.store, w3.worker);
      }
      assert FinishConsume(cfg, w1.store, w1.worker) == FinishConsume(cfg, w2.store, w2.worker);
    }
  }

  /** What the authorization endpoint inserts is offered until it expires. */
  lemma {:induction false} InsertedIsOffered(cfg: Config, s: Store, e: Entity, ticks: nat)
    requires e.id != "" && e.state != "" && !AlreadyUsed(e) && !Live(s, UsedKey(e.state)) && cfg.ttl > 0
    ensures var s' := RunAlone(cfg, s, AddSess(e), NO_ENV).0;
            Offers(s'.(now := s'.now + ticks), e.state, e) <==> ticks < cfg.ttl
  {
    var s1 := SetEx(s, SessKey(e.id), Doc(e), cfg.ttl);
    var s2 := SetEx(s1, StateKey(e.state), Sid(e.id), cfg.ttl);
    assert RunAlone(cfg, s2, Done(Inserted), NO_ENV) == (s2, Inserted, []);
    assert RunAlone(cfg, s1, AddState(e), NO_ENV).0 == s2;
    assert RunAlone(cfg, s, AddSess(e), NO_ENV).0 == s2;
  }

  /** Concatenation, with the empty cases spelled out. */
  function Join(a: seq<Event>, b: seq<Event>): (r: seq<Event>)
    ensures r == a + b
  {
    if a == [] then b else if b == [] then a else a + b
  }

  /** The rest of a worker's life when no other worker and no tick interferes, with the calls it makes. */
  function RunAlone(cfg: Config, s: Store, w: Worker, env: Env): (Store, Outcome, seq<Event>)
    decreases 22 - Rank(w)
  {
    if w.Done? then (s, w.outcome, [])
    else
      var r := WorkerStep(cfg, s, w, env);
      StepMovesForward(cfg, s, w, env);
      var (s', outcome, events) := RunAlone(cfg, r.store, r.worker, env);
      (s', outcome, Join(r.events, events))
  }

  /** The document a state leads to at this moment, whatever its condition. */
  function LookedUp(s: Store, state: string): Option<Entity> {
    match Get(s, StateKey(state))
    case Some(Sid(sid)) =>
      if sid == "" then None
      else (
        match Get(s, SessKey(sid))
        case Some(Doc(e)) => Some(e)
        case _ => None)
    case _ => None
  }

  /** The text without one trailing slash. */
  function StripSlash(s: string): string {
    if EndsWithSlash(s) then s[..|s| - 1] else s
  }

  lemma CheckProviderIff(provider: string, iss: string)
    ensures CheckProvider(provider, iss) <==> StripSlash(provider) == StripSlash(iss)
  {
    if EndsWithSlash(provider) { assert provider == StripSlash(provider) + "/"; }
    if EndsWithSlash(iss) { assert iss == StripSlash(iss) + "/"; }
  }

  /** The conditions under which the callback logs the user in. */
  ghost predicate GoodCallback(cfg: Config, s: Store, req: Request, env: Env, e: Entity) {
    && !req.error && req.satosaState && Offers(s, req.state, e)
    && req.iss.Some? && StripSlash(e.providerId) == StripSlash(req.iss.value) && e.clientId == cfg.clientId
    && env.dataOk && env.token.Some? && env.verified && env.user.Some? && env.tokenValid && env.userValid
  }

  /** An undisturbed good callback consumes, redeems its own code and calls the client, once each and in this
  order, and leaves the document with everything it learned, still due to expire when it was. */
  lemma {:induction false} GoodCallbackCompletes(cfg: Config, s: Store, req: Request, env: Env, e: Entity)
    requires cfg.ttl > 0 && StoresOwnIds(s) && GoodCallback(cfg, s, req, env, e)
    ensures var (s', outcome, events) := RunAlone(cfg, s, Enter(req), env);
            var stored := WithRefresh(e, env.token.value.refreshToken)
                          .(completed := true, code := req.code, accessToken := Some(env.token.value.accessToken), user := env.user);
            && outcome == Completed
            && events == [Consumed(req.state), Redeemed(req.state, req.code), ClientCalled(req.state)]
            && s' == s.(keys := s.keys[UsedKey(req.state) := Entry(Mark, s.keys[SessKey(e.id)].expiry)]
                                      [SessKey(e.id) := Entry(Doc(stored), s.keys[SessKey(e.id)].expiry)])
  {
    hide RunAlone, StripSlash;
    ConsumeAloneIff(cfg, s, req);
    ConsumeThenRun(cfg, s, req, env);
    var (s1, w) := ConsumeAlone(cfg, s, req);
    AfterConsume(cfg, s1, req, w.auth, env);
    var rest := RunAlone(cfg, s1, w, env);
    assert [Consumed(req.state)] + rest.2 == [Consumed(req.state), Redeemed(req.state, req.code), ClientCalled(req.state)];
  }

  lemma {:induction false} AfterConsume(cfg: Config, s: Store, req: Request, e: Entity, env: Env)
    requires cfg.ttl > 0 && Live(s, SessKey(e.id))
    requires req.iss.Some? && StripSlash(e.providerId) == StripSlash(req.iss.value) && e.clientId == cfg.clientId
    requires env.dataOk && env.token.Some? && env.verified && env.user.Some? && env.tokenValid && env.userValid
    ensures var stored := WithRefresh(e, env.token.value.refreshToken)
                          .(code := req.code, accessToken := Some(env.token.value.accessToken), user := env.user);
            RunAlone(cfg, s, CheckRequest(req, e), env)
              == (s.(keys := s.keys[SessKey(e.id) := Entry(Doc(stored), s.keys[SessKey(e.id)].expiry)]),
                  Completed, [Redeemed(req.state, req.code), ClientCalled(req.state)])
  {
    CheckProviderIff(e.providerId, req.iss.value);
    var e2 := e.(code := req.code);
    OneStep(cfg, s, CheckRequest(req, e), env);
    AfterRedeem(cfg, s, req, e2, env);
  }

  lemma {:induction false} AfterRedeem(cfg: Config, s: Store, req: Request, e: Entity, env: Env)
    requires cfg.ttl > 0 && Live(s, SessKey(e.id))
    requires env.token.Some? && env.verified && env.user.Some? && env.tokenValid && env.userValid
    ensures var stored := WithRefresh(e, env.token.value.refreshToken)
                          .(accessToken := Some(env.token.value.accessToken), user := env.user);
            RunAlone(cfg, s, Redeem(req, e), env)
              == (s.(keys := s.keys[SessKey(e.id) := Entry(Doc(stored), s.keys[SessKey(e.id)].expiry)]),
                  Completed, [Redeemed(req.state, e.code), ClientCalled(req.state)])
  {
    var e3, refresh := e.(accessToken := Some(env.token.value.accessToken)), env.token.value.refreshToken;
    assert WorkerStep(cfg, s, Redeem(req, e), env)
        == StepResult(s, UpdateTtl(req, e3, Token(refresh)), [Redeemed(req.state, e.code)]);
    OneStep(cfg, s, Redeem(req, e), env);
    UpdateAlone(cfg, s, req, e3, Token(refresh), env);
    var s3 := s.(keys := s.keys[SessKey(e.id) := Entry(Doc(e3), s.keys[SessKey(e.id)].expiry)]);
    AfterToken(cfg, s3, req, e3, refresh, env);
    assert RunAlone(cfg, s, UpdateTtl(req, e3, Token(refresh)), env) == RunAlone(cfg, s3, UserInfo(req, e3, refresh), env);
    assert Join([Redeemed(req.state, e.code)], [ClientCalled(req.state)]) == [Redeemed(req.state, e.code), ClientCalled(req.state)];
    var stored := Entry(Doc(WithRefresh(e3, refresh).(user := env.user)), s.keys[SessKey(e.id)].expiry);
    assert s3.(keys := s3.keys[SessKey(e.id) := stored]) == s.(keys := s.keys[SessKey(e.id) := stored]) by {
      assert s3.keys[SessKey(e.id) := stored] == s.keys[SessKey(e.id) := stored];
    }
  }

  lemma {:induction false} AfterToken(cfg: Config, s: Store, req: Request, e: Entity, refresh: Option<string>, env: Env)
    requires cfg.ttl > 0 && Live(s, SessKey(e.id)) && env.user.Some? && env.userValid
    ensures var stored := WithRefresh(e, refresh).(user := env.user);
            RunAlone(cfg, s, UserInfo(req, e, refresh), env)
              == (s.(keys := s.keys[SessKey(e.id) := Entry(Doc(stored), s.keys[SessKey(e.id)].expiry)]),
                  Completed, [ClientCalled(req.state)])
  {
    var e4 := WithRefresh(e, refresh).(user := env.user);
    var s4 := s.(keys := s.keys[SessKey(e.id) := Entry(Doc(e4), s.keys[SessKey(e.id)].expiry)]);
    OneStep(cfg, s, UserInfo(req, e, refresh), env);
    hide RunAlone;
    UpdateAlone(cfg, s, req, e4, User, env);
    LastStep(cfg, s4, req, e4, env);
  }

  lemma {:induction false} LastStep(cfg: Config, s: Store, req: Request, e: Entity, env: Env)
    ensures RunAlone(cfg, s, ClientCallback(req, e), env) == (s, Completed, [ClientCalled(req.state)])
  {
    OneStep(cfg, s, ClientCallback(req, e), env);
    assert RunAlone(cfg, s, Done(Completed), env) == (s, Completed, []);
  }

  lemma {:induction false} OneStep(cfg: Config, s: Store, w: Worker, env: Env)
    requires !w.Done?
    ensures var r := WorkerStep(cfg, s, w, env);
            var rest := RunAlone(cfg, r.store, r.worker, env);
            RunAlone(cfg, s, w, env) == (rest.0, rest.1, Join(r.events, rest.2))
  {
  }

  /** An undisturbed callback is its consume followed by what comes after. */
  lemma {:induction false} ConsumeThenRun(cfg: Config, s: Store, req: Request, env: Env)
    requires Reaches(req)
    ensures var (s', w) := ConsumeAlone(cfg, s, req);
            var rest := RunAlone(cfg, s', w, env);
            (w == LookState(req) || (w.CheckRequest? && w.req == req)) &&
            RunAlone(cfg, s, Enter(req), env)
              == (rest.0, rest.1, Join(if w.CheckRequest? then [Consumed(req.state)] else [], rest.2))
  {
    var r := WorkerStep(cfg, s, Enter(req), env);
    assert r == WorkerStep(cfg, s, Enter(req), NO_ENV);
    FinishThenRun(cfg, r.store, r.worker, req, env);
  }

  lemma {:induction false} FinishThenRun(cfg: Config, s: Store, w: Worker, req: Request, env: Env)
    requires w == LookState(req) || (InConsume(w) && w.req == req)
    ensures var (s', w') := FinishConsume(cfg, s, w);
            var rest := RunAlone(cfg, s', w', env);
            (w' == LookState(req) || (w'.CheckRequest? && w'.req == req)) &&
            RunAlone(cfg, s, w, env)
              == (rest.0, rest.1, Join(if w'.CheckRequest? then [Consumed(req.state)] else [], rest.2))
    decreases 22 - Rank(w)
  {
    if InConsume(w) {
      StepMovesForward(cfg, s, w, env);
      var r := WorkerStep(cfg, s, w, env);
      assert r == WorkerStep(cfg, s, w, NO_ENV);
      if !r.worker.CheckRequest? {
        FinishThenRun(cfg, r.store, r.worker, req, env);
      }
    }
  }

  /** Two undisturbed steps of an update keep the expiry of a live document. */
  lemma {:induction false} UpdateAlone(cfg: Config, s: Store, req: Request, auth: Entity, phase: Phase, env: Env)
    requires Live(s, SessKey(auth.id))
    ensures var s' := s.(keys := s.keys[SessKey(auth.id) := Entry(Doc(auth), s.keys[SessKey(auth.id)].expiry)]);
            var rest := RunAlone(cfg, s', AfterUpdate(phase, req, auth), env);
            RunAlone(cfg, s, UpdateTtl(req, auth, phase), env)
              == (rest.0, rest.1, Join(if phase == Consume then [Consumed(req.state)] else [], rest.2))
  {
    var w := WorkerStep(cfg, s, UpdateTtl(req, auth, phase), env).worker;
    assert w == UpdateSet(req, auth, phase, Ttl(s, SessKey(auth.id)));
    var r := WorkerStep(cfg, s, w, env);
    var s' := s.(keys := s.keys[SessKey(auth.id) := Entry(Doc(auth), s.keys[SessKey(auth.id)].expiry)]);
    assert r.store == s';
    var rest := RunAlone(cfg, s', AfterUpdate(phase, req, auth), env);
    assert RunAlone(cfg, s, w, env) == (rest.0, rest.1, Join(r.events, rest.2));
  }
}
