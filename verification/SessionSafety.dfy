/** Single use of a CIE session, over every interleaving of any number of workers with clock ticks.

The proof follows two facts. The original document of a session, the only one not completed, dies at a fixed
tick. Every marker set for its state outlives that tick, because its TTL was read off the document. So before
the tick one worker at most gets the marker, and after the tick there is nothing left to consume. */
module SessionSafety {
  import opened RedisStore
  import opened SessionProtocol

  /** History of a run: when each document was due to expire, which document a state stands for, and which
  worker got the marker of a state while its original document was still due. */
  datatype Aux = Aux(due: map<string, int>, owner: map<string, string>, claims: map<string, nat>)

  ghost function AuxStep(cfg: Config, s: System, x: Aux, a: Action): Aux {
    match a
    case Tick(_) => x
    case Insert(e) => x.(owner := x.owner[e.state := e.id])
    case Callback(_) => x
    case Step(i, _) =>
      if i >= |s.workers| then x
      else (match s.workers[i]
            case AddSess(e) => x.(due := x.due[e.id := s.store.now + cfg.ttl])
            case MarkUsed(req, sid, _) =>
              if !Live(s.store, UsedKey(req.state)) && sid in x.due && s.store.now < x.due[sid]
              then x.(claims := x.claims[req.state := i]) else x
            case _ => x)
  }

  ghost function AuxExec(cfg: Config, actions: seq<Action>): Aux {
    if actions == [] then Aux(map[], map[], map[])
    else
      var before := actions[..|actions| - 1];
      AuxStep(cfg, Exec(cfg, before), AuxExec(cfg, before), actions[|actions| - 1])
  }

  // The invariant -----------------------------------------------------------------------------------

  /** `sid` is the document of `state`, and has been stored. */
  ghost predicate Bound(x: Aux, state: string, sid: string) {
    state in x.owner && x.owner[state] == sid && sid in x.due
  }

  /** Worker `i` holds the session of its state. */
  ghost predicate Holds(x: Aux, i: nat, state: string, auth: Entity) {
    Bound(x, state, auth.id) && auth.completed && state in x.claims && x.claims[state] == i
  }

  ghost predicate WorkerOk(cfg: Config, s: Store, x: Aux, i: nat, w: Worker) {
    match w
    case AddSess(e) =>
      e.state in x.owner && x.owner[e.state] == e.id && SessKey(e.id) !in s.keys && e.id !in x.due
    case AddState(e) => Bound(x, e.state, e.id)
    case ReadTtl(req, sid) => Bound(x, req.state, sid)
    case MarkUsed(req, sid, ttl) =>
      Bound(x, req.state, sid) && s.now + ExpiryArg(cfg.ttl, ttl) >= x.due[sid]
    case ReadDoc(req, sid) =>
      Bound(x, req.state, sid) && (s.now < x.due[sid] ==> req.state in x.claims && x.claims[req.state] == i)
    case UpdateTtl(req, auth, _) => Holds(x, i, req.state, auth)
    case UpdateSet(req, auth, _, ttl) =>
      Holds(x, i, req.state, auth) && s.now + ExpiryArg(cfg.ttl, ttl) >= x.due[auth.id]
    case CheckRequest(req, auth) => Holds(x, i, req.state, auth)
    case Redeem(req, auth) => Holds(x, i, req.state, auth)
    case UserInfo(req, auth, _) => Holds(x, i, req.state, auth)
    case ClientCallback(req, auth) => Holds(x, i, req.state, auth)
    case _ => true
  }

  ghost predicate EntryOk(x: Aux, k: Key, e: Entry) {
    match k
    case SessKey(id) =>
      && id in x.due && e.value.Doc? && e.value.entity.id == id && e.expiry >= x.due[id]
      && (!e.value.entity.completed ==> e.expiry == x.due[id])
    case StateKey(state) => e.value.Sid? && Bound(x, state, e.value.id)
    case UsedKey(state) => state in x.owner && x.owner[state] in x.due && e.expiry >= x.due[x.owner[state]]
  }

  ghost predicate StoreOk(s: Store, x: Aux) {
    && (forall k :: k in s.keys ==> EntryOk(x, k, s.keys[k]))
    && (forall id :: id in x.due ==> SessKey(id) in s.keys)
    && (forall state :: state in x.claims ==>
         state in x.owner && x.owner[state] in x.due && UsedKey(state) in s.keys)
  }

  ghost predicate WorkersOk(cfg: Config, s: Store, x: Aux, workers: seq<Worker>) {
    && (forall i :: 0 <= i < |workers| ==> WorkerOk(cfg, s, x, i, workers[i]))
    && (forall i, j :: 0 <= i < j < |workers| && workers[i].AddSess? && workers[j].AddSess? ==>
         workers[i].entity.id != workers[j].entity.id)
  }

  /** The rank of the step that emits an event. */
  function EventRank(e: Event): nat {
    match e
    case Consumed(_) => 6
    case Redeemed(_, _) => 8
    case ClientCalled(_) => 14
  }

  /** Two uses of the same kind of the same session. */
  predicate SameUse(a: Event, b: Event) {
    EventRank(a) == EventRank(b) && a.state == b.state
  }

  ghost predicate LogOk(s: System, x: Aux) {
    && (forall n :: 0 <= n < |s.log| ==>
         && s.log[n].worker < |s.workers|
         && s.log[n].event.state in x.claims && x.claims[s.log[n].event.state] == s.log[n].worker
         && Rank(s.workers[s.log[n].worker]) > EventRank(s.log[n].event))
    && (forall m, n :: 0 <= m < n < |s.log| ==> !SameUse(s.log[m].event, s.log[n].event))
  }

  ghost predicate Inv(cfg: Config, s: System, x: Aux) {
    StoreOk(s.store, x) && WorkersOk(cfg, s.store, x, s.workers) && LogOk(s, x)
  }

  // Each kind of step keeps it ----------------------------------------------------------------------

  /** The history grows without changing what other workers rely on. */
  ghost predicate Grows(s: Store, s': Store, x: Aux, x': Aux) {
    && s.now <= s'.now
    && (forall state :: state in x.owner ==> state in x'.owner && x'.owner[state] == x.owner[state])
    && (forall id :: id in x.due ==> id in x'.due && x'.due[id] == x.due[id])
    && (forall state :: state in x.claims ==> state in x'.claims && x'.claims[state] == x.claims[state])
  }

  lemma {:induction false} OthersKeep(cfg: Config, s: Store, s': Store, x: Aux, x': Aux, i: nat, w: Worker)
    requires WorkerOk(cfg, s, x, i, w)
    requires Grows(s, s', x, x')
    requires w.AddSess? ==> SessKey(w.entity.id) !in s'.keys && w.entity.id !in x'.due
    ensures WorkerOk(cfg, s', x', i, w)
  {
  }

  /** A TTL that was just read never falls short of the original expiry. */
  lemma {:induction false} TtlReachesDue(cfg: Config, s: Store, x: Aux, id: string)
    requires StoreOk(s, x) && id in x.due
    ensures s.now + ExpiryArg(cfg.ttl, Ttl(s, SessKey(id))) >= x.due[id] || cfg.ttl <= 0
  {
    assert EntryOk(x, SessKey(id), s.keys[SessKey(id)]);
  }

  /** Writing one good entry keeps the store good, under a history that grew for that entry only. */
  lemma {:induction false} PutKeeps(s: Store, x: Aux, x': Aux, k: Key, e: Entry)
    requires StoreOk(s, x) && Grows(s, s, x, x') && EntryOk(x', k, e)
    requires forall id :: id in x'.due && id !in x.due ==> k == SessKey(id)
    requires forall state :: state in x'.claims && state !in x.claims ==>
               k == UsedKey(state) && state in x'.owner && x'.owner[state] in x'.due
    ensures StoreOk(s.(keys := s.keys[k := e]), x')
  {
    var s' := s.(keys := s.keys[k := e]);
    forall k' | k' in s'.keys
      ensures EntryOk(x', k', s'.keys[k'])
    {
      if k' != k {
        assert EntryOk(x, k', s.keys[k']);
      }
    }
  }

  lemma {:induction false} MarkStep(cfg: Config, s: System, x: Aux, i: nat, env: Env)
    requires cfg.ttl > 0 && StoreOk(s.store, x) && i < |s.workers|
    requires s.workers[i].MarkUsed? && WorkerOk(cfg, s.store, x, i, s.workers[i])
    ensures var r := WorkerStep(cfg, s.store, s.workers[i], env);
            var x' := AuxStep(cfg, s, x, Step(i, env));
            StoreOk(r.store, x') && Grows(s.store, r.store, x, x')
  {
    hide StoreOk;
    var MarkUsed(req, sid, ttl) := s.workers[i];
    if Live(s.store, UsedKey(req.state)) {
      assert AuxStep(cfg, s, x, Step(i, env)) == x;
    } else {
      NewMark(s.store, x, req.state, sid, i, s.store.now + ExpiryArg(cfg.ttl, ttl));
    }
  }

  /** A marker in a free place, with a claim if the document was still due. */
  lemma {:induction false} NewMark(s: Store, x: Aux, state: string, sid: string, i: nat, expiry: int)
    requires StoreOk(s, x) && Bound(x, state, sid) && expiry >= x.due[sid] && !Live(s, UsedKey(state))
    ensures var x' := if s.now < x.due[sid] then x.(claims := x.claims[state := i]) else x;
            var s' := s.(keys := s.keys[UsedKey(state) := Entry(Mark, expiry)]);
            StoreOk(s', x') && Grows(s, s', x, x')
  {
    if state in x.claims {
      assert EntryOk(x, UsedKey(state), s.keys[UsedKey(state)]);
    }
    PutKeeps(s, x, if s.now < x.due[sid] then x.(claims := x.claims[state := i]) else x, UsedKey(state), Entry(Mark, expiry));
  }

  lemma {:induction false} StoreStep(cfg: Config, s: System, x: Aux, i: nat, env: Env)
    requires cfg.ttl > 0 && StoreOk(s.store, x) && i < |s.workers|
    requires WorkerOk(cfg, s.store, x, i, s.workers[i])
    ensures var r := WorkerStep(cfg, s.store, s.workers[i], env);
            var x' := AuxStep(cfg, s, x, Step(i, env));
            StoreOk(r.store, x') && Grows(s.store, r.store, x, x')
  {
    var w := s.workers[i];
    if w.AddSess? {
      AddSessStep(cfg, s, x, i, env);
    } else if w.AddState? {
      AddStateStep(cfg, s, x, i, env);
    } else if w.MarkUsed? {
      MarkStep(cfg, s, x, i, env);
    } else if w.UpdateSet? {
      UpdateStep(cfg, s, x, i, env);
    } else {
      ReadsOnly(cfg, s.store, w, env);
    }
  }

  lemma {:induction false} ReadsOnly(cfg: Config, s: Store, w: Worker, env: Env)
    requires !w.AddSess? && !w.AddState? && !w.MarkUsed? && !w.UpdateSet?
    ensures WorkerStep(cfg, s, w, env).store == s
  {
  }

  lemma {:induction false} AddSessStep(cfg: Config, s: System, x: Aux, i: nat, env: Env)
    requires cfg.ttl > 0 && StoreOk(s.store, x) && i < |s.workers|
    requires s.workers[i].AddSess? && WorkerOk(cfg, s.store, x, i, s.workers[i])
    ensures var r := WorkerStep(cfg, s.store, s.workers[i], env);
            var x' := AuxStep(cfg, s, x, Step(i, env));
            StoreOk(r.store, x') && Grows(s.store, r.store, x, x')
  {
    var e := s.workers[i].entity;
    PutKeeps(s.store, x, AuxStep(cfg, s, x, Step(i, env)), SessKey(e.id), Entry(Doc(e), s.store.now + cfg.ttl));
  }

  lemma {:induction false} AddStateStep(cfg: Config, s: System, x: Aux, i: nat, env: Env)
    requires cfg.ttl > 0 && StoreOk(s.store, x) && i < |s.workers|
    requires s.workers[i].AddState? && WorkerOk(cfg, s.store, x, i, s.workers[i])
    ensures var r := WorkerStep(cfg, s.store, s.workers[i], env);
            var x' := AuxStep(cfg, s, x, Step(i, env));
            StoreOk(r.store, x') && Grows(s.store, r.store, x, x')
  {
    var e := s.workers[i].entity;
    PutKeeps(s.store, x, x, StateKey(e.state), Entry(Sid(e.id), s.store.now + cfg.ttl));
  }

  lemma {:induction false} UpdateStep(cfg: Config, s: System, x: Aux, i: nat, env: Env)
    requires cfg.ttl > 0 && StoreOk(s.store, x) && i < |s.workers|
    requires s.workers[i].UpdateSet? && WorkerOk(cfg, s.store, x, i, s.workers[i])
    ensures var r := WorkerStep(cfg, s.store, s.workers[i], env);
            var x' := AuxStep(cfg, s, x, Step(i, env));
            StoreOk(r.store, x') && Grows(s.store, r.store, x, x')
  {
    var w := s.workers[i];
    PutKeeps(s.store, x, x, SessKey(w.auth.id), Entry(Doc(w.auth), s.store.now + ExpiryArg(cfg.ttl, w.ttl)));
  }

  /** Worker `i` is in order after its next step. */
  ghost predicate NextOk(cfg: Config, s: System, x: Aux, i: nat, env: Env)
    requires i < |s.workers|
  {
    var r := WorkerStep(cfg, s.store, s.workers[i], env);
    WorkerOk(cfg, r.store, AuxStep(cfg, s, x, Step(i, env)), i, r.worker)
  }

  lemma {:induction false} WorkerOkStep(cfg: Config, s: System, x: Aux, i: nat, env: Env)
    requires cfg.ttl > 0 && StoreOk(s.store, x) && i < |s.workers|
    requires WorkerOk(cfg, s.store, x, i, s.workers[i])
    ensures NextOk(cfg, s, x, i, env)
  {
    hide StoreOk, WorkerOk, NextOk;
    match s.workers[i] {
      case AddSess(_) => AddSessNext(cfg, s, x, i, env);
      case Enter(_) => ReadNext(cfg, s, x, i, env);
      case ReadDoc(_, _) => ReadNext(cfg, s, x, i, env);
      case ReadTtl(_, _) => ReadTtlNext(cfg, s, x, i, env);
      case MarkUsed(_, _, _) => MarkUsedNext(cfg, s, x, i, env);
      case UpdateTtl(_, _, _) => UpdateTtlNext(cfg, s, x, i, env);
      case UpdateSet(_, _, _, _) => UpdateSetNext(cfg, s, x, i, env);
      case CheckRequest(_, _) => HolderNext(cfg, s, x, i, env);
      case Redeem(_, _) => HolderNext(cfg, s, x, i, env);
      case UserInfo(_, _, _) => HolderNext(cfg, s, x, i, env);
      case _ => LastNext(cfg, s, x, i, env);
    }
  }

  /** A stored document is due, so its state may be stored. */
  lemma {:induction false} AddSessNext(cfg: Config, s: System, x: Aux, i: nat, env: Env)
    requires cfg.ttl > 0 && StoreOk(s.store, x) && i < |s.workers|
    requires s.workers[i].AddSess?
    requires WorkerOk(cfg, s.store, x, i, s.workers[i])
    ensures NextOk(cfg, s, x, i, env)
  {
  }

  /** What was read is as the history says, and reading changes nothing. */
  lemma {:induction false} ReadNext(cfg: Config, s: System, x: Aux, i: nat, env: Env)
    requires cfg.ttl > 0 && StoreOk(s.store, x) && i < |s.workers|
    requires s.workers[i].Enter? || s.workers[i].ReadDoc?
    requires WorkerOk(cfg, s.store, x, i, s.workers[i])
    ensures NextOk(cfg, s, x, i, env)
  {
    ReadStep(cfg, s, x, i, env);
    ReadsOnly(cfg, s.store, s.workers[i], env);
  }

  /** The TTL just read reaches the due tick. */
  lemma {:induction false} ReadTtlNext(cfg: Config, s: System, x: Aux, i: nat, env: Env)
    requires cfg.ttl > 0 && StoreOk(s.store, x) && i < |s.workers|
    requires s.workers[i].ReadTtl?
    requires WorkerOk(cfg, s.store, x, i, s.workers[i])
    ensures NextOk(cfg, s, x, i, env)
  {
    TtlReachesDue(cfg, s.store, x, s.workers[i].sid);
  }

  /** The worker that sets the marker claims the state while its document is due. */
  lemma {:induction false} MarkUsedNext(cfg: Config, s: System, x: Aux, i: nat, env: Env)
    requires cfg.ttl > 0 && StoreOk(s.store, x) && i < |s.workers|
    requires s.workers[i].MarkUsed?
    requires WorkerOk(cfg, s.store, x, i, s.workers[i])
    ensures NextOk(cfg, s, x, i, env)
  {
    hide StoreOk;
  }

  /** The TTL just read reaches the due tick, before an update. */
  lemma {:induction false} UpdateTtlNext(cfg: Config, s: System, x: Aux, i: nat, env: Env)
    requires cfg.ttl > 0 && StoreOk(s.store, x) && i < |s.workers|
    requires s.workers[i].UpdateTtl?
    requires WorkerOk(cfg, s.store, x, i, s.workers[i])
    ensures NextOk(cfg, s, x, i, env)
  {
    TtlReachesDue(cfg, s.store, x, s.workers[i].auth.id);
  }

  /** A worker that updates still holds its session. */
  lemma {:induction false} UpdateSetNext(cfg: Config, s: System, x: Aux, i: nat, env: Env)
    requires cfg.ttl > 0 && StoreOk(s.store, x) && i < |s.workers|
    requires s.workers[i].UpdateSet?
    requires WorkerOk(cfg, s.store, x, i, s.workers[i])
    ensures NextOk(cfg, s, x, i, env)
  {
    hide StoreOk;
  }

  /** A worker between two updates still holds its session. */
  lemma {:induction false} HolderNext(cfg: Config, s: System, x: Aux, i: nat, env: Env)
    requires cfg.ttl > 0 && StoreOk(s.store, x) && i < |s.workers|
    requires var w := s.workers[i]; w.CheckRequest? || w.Redeem? || w.UserInfo?
    requires WorkerOk(cfg, s.store, x, i, s.workers[i])
    ensures NextOk(cfg, s, x, i, env)
  {
    hide StoreOk;
  }

  /** The other steps end a worker, or lead to an end. */
  lemma {:induction false} LastNext(cfg: Config, s: System, x: Aux, i: nat, env: Env)
    requires cfg.ttl > 0 && StoreOk(s.store, x) && i < |s.workers|
    requires var w := s.workers[i]; w.AddState? || w.ClientCallback? || w.LookState? || w.LookDoc? || w.Done?
    requires WorkerOk(cfg, s.store, x, i, s.workers[i])
    ensures NextOk(cfg, s, x, i, env)
  {
    hide StoreOk;
  }

  /** What is read from the store is as the history says. */
  lemma {:induction false} ReadStep(cfg: Config, s: System, x: Aux, i: nat, env: Env)
    requires StoreOk(s.store, x) && i < |s.workers| && (s.workers[i].Enter? || s.workers[i].ReadDoc?)
    requires WorkerOk(cfg, s.store, x, i, s.workers[i])
    ensures WorkerOk(cfg, s.store, x, i, WorkerStep(cfg, s.store, s.workers[i], env).worker)
  {
    match s.workers[i] {
      case Enter(req) =>
        if Live(s.store, StateKey(req.state)) {
          assert EntryOk(x, StateKey(req.state), s.store.keys[StateKey(req.state)]);
        }
      case ReadDoc(req, sid) =>
        if Live(s.store, SessKey(sid)) {
          assert EntryOk(x, SessKey(sid), s.store.keys[SessKey(sid)]);
        }
    }
  }

  /** Only the insertion of a session makes its document appear. */
  lemma {:induction false} NewDocument(cfg: Config, s: System, x: Aux, i: nat, env: Env, id: string)
    requires i < |s.workers| && WorkerOk(cfg, s.store, x, i, s.workers[i])
    requires forall d :: d in x.due ==> SessKey(d) in s.store.keys
    requires SessKey(id) !in s.store.keys
    requires !(s.workers[i].AddSess? && s.workers[i].entity.id == id)
    ensures SessKey(id) !in WorkerStep(cfg, s.store, s.workers[i], env).store.keys
    ensures id !in AuxStep(cfg, s, x, Step(i, env)).due
  {
  }

  lemma {:induction false} WorkersStep(cfg: Config, s: System, x: Aux, i: nat, env: Env)
    requires cfg.ttl > 0 && StoreOk(s.store, x) && WorkersOk(cfg, s.store, x, s.workers) && i < |s.workers|
    ensures var s' := Apply(cfg, s, Step(i, env));
            WorkersOk(cfg, s'.store, AuxStep(cfg, s, x, Step(i, env)), s'.workers)
  {
    var r, x' := WorkerStep(cfg, s.store, s.workers[i], env), AuxStep(cfg, s, x, Step(i, env));
    assert WorkerOk(cfg, s.store, x, i, s.workers[i]);
    StoreStep(cfg, s, x, i, env);
    WorkerOkStep(cfg, s, x, i, env);
    NoInserter(cfg, s.store, s.workers[i], env);
    hide WorkerOk, WorkerStep, AuxStep, Grows;
    forall j | 0 <= j < |s.workers| && j != i
      ensures WorkerOk(cfg, r.store, x', j, s.workers[j])
    {
      assert WorkerOk(cfg, s.store, x, j, s.workers[j]);
      if s.workers[j].AddSess? {
        NewDocument(cfg, s, x, i, env, s.workers[j].entity.id);
      }
      OthersKeep(cfg, s.store, r.store, x, x', j, s.workers[j]);
    }
    OneReplaced(cfg, r.store, x', s.workers, i, r.worker);
  }

  lemma {:induction false} NoInserter(cfg: Config, s: Store, w: Worker, env: Env)
    ensures !WorkerStep(cfg, s, w, env).worker.AddSess?
  {
  }

  lemma {:induction false} OneReplaced(cfg: Config, s: Store, x: Aux, workers: seq<Worker>, i: nat, w: Worker)
    requires i < |workers| && WorkerOk(cfg, s, x, i, w) && !w.AddSess?
    requires forall j :: 0 <= j < |workers| && j != i ==> WorkerOk(cfg, s, x, j, workers[j])
    requires forall j, k :: 0 <= j < k < |workers| && workers[j].AddSess? && workers[k].AddSess? ==>
               workers[j].entity.id != workers[k].entity.id
    ensures WorkersOk(cfg, s, x, workers[i := w])
  {
  }

  /** A worker emits an event only while it holds the session, and at the event's own rank. */
  lemma {:induction false} EmitsHolding(cfg: Config, s: Store, x: Aux, i: nat, w: Worker, env: Env)
    requires WorkerOk(cfg, s, x, i, w)
    ensures var events := WorkerStep(cfg, s, w, env).events;
            |events| <= 1 &&
            (events != [] ==>
               && EventRank(events[0]) == Rank(w) && !w.Done?
               && events[0].state in x.claims && x.claims[events[0].state] == i)
  {
  }

  lemma {:induction false} LogStep(cfg: Config, s: System, x: Aux, i: nat, env: Env)
    requires cfg.ttl > 0 && Inv(cfg, s, x) && i < |s.workers|
    ensures LogOk(Apply(cfg, s, Step(i, env)), AuxStep(cfg, s, x, Step(i, env)))
  {
    var w := s.workers[i];
    var s', x' := Apply(cfg, s, Step(i, env)), AuxStep(cfg, s, x, Step(i, env));
    assert WorkerOk(cfg, s.store, x, i, w);
    StoreStep(cfg, s, x, i, env);
    EmitsHolding(cfg, s.store, x, i, w, env);
    if !w.Done? {
      StepMovesForward(cfg, s.store, w, env);
    }
    var r := WorkerStep(cfg, s.store, w, env);
    LogGrows(s, x, x', i, r.worker, r.events, r.store);
  }

  lemma {:induction false} LogGrows(s: System, x: Aux, x': Aux, i: nat, w': Worker, events: seq<Event>, store': Store)
    requires LogOk(s, x) && i < |s.workers| && |events| <= 1
    requires forall state :: state in x.claims ==> state in x'.claims && x'.claims[state] == x.claims[state]
    requires w' == s.workers[i] || Rank(w') > Rank(s.workers[i])
    requires events != [] ==>
               && EventRank(events[0]) == Rank(s.workers[i]) && w' != s.workers[i]
               && events[0].state in x.claims && x.claims[events[0].state] == i
    ensures LogOk(System(store', s.workers[i := w'], s.log + LogAll(i, events)), x')
  {
    var log' := s.log + LogAll(i, events);
    forall m, n | 0 <= m < n < |log'|
      ensures !SameUse(log'[m].event, log'[n].event)
    {
      assert log'[m] == s.log[m];
      assert s.log[m].event.state in x.claims && Rank(s.workers[s.log[m].worker]) > EventRank(s.log[m].event);
    }
  }

  lemma {:induction false} StepKeeps(cfg: Config, s: System, x: Aux, i: nat, env: Env)
    requires cfg.ttl > 0 && Inv(cfg, s, x)
    ensures Inv(cfg, Apply(cfg, s, Step(i, env)), AuxStep(cfg, s, x, Step(i, env)))
  {
    if i < |s.workers| {
      StoreStep(cfg, s, x, i, env);
      WorkersStep(cfg, s, x, i, env);
      LogStep(cfg, s, x, i, env);
    }
  }

  lemma {:induction false} OtherKeeps(cfg: Config, s: System, x: Aux, a: Action)
    requires Inv(cfg, s, x) && !a.Step?
    requires a.Insert? ==> a.entity.state !in x.owner && a.entity.id !in x.due && SessKey(a.entity.id) !in s.store.keys
    requires a.Insert? ==> forall j :: 0 <= j < |s.workers| && s.workers[j].AddSess? ==>
               s.workers[j].entity.id != a.entity.id
    ensures Inv(cfg, Apply(cfg, s, a), AuxStep(cfg, s, x, a))
  {
    var s', x' := Apply(cfg, s, a), AuxStep(cfg, s, x, a);
    OtherGrows(cfg, s, x, a);
    forall j | 0 <= j < |s'.workers|
      ensures WorkerOk(cfg, s'.store, x', j, s'.workers[j])
    {
      if j < |s.workers| {
        assert WorkerOk(cfg, s.store, x, j, s.workers[j]);
        OthersKeep(cfg, s.store, s'.store, x, x', j, s.workers[j]);
      }
    }
  }

  lemma {:induction false} OtherGrows(cfg: Config, s: System, x: Aux, a: Action)
    requires !a.Step? && StoreOk(s.store, x) && LogOk(s, x)
    requires a.Insert? ==> a.entity.state !in x.owner
    ensures var s', x' := Apply(cfg, s, a), AuxStep(cfg, s, x, a);
            Grows(s.store, s'.store, x, x') && StoreOk(s'.store, x') && LogOk(s', x') && s'.store.keys == s.store.keys
  {
    var x' := AuxStep(cfg, s, x, a);
    forall k | k in s.store.keys ensures EntryOk(x', k, s.store.keys[k]) {
      assert EntryOk(x, k, s.store.keys[k]);
    }
  }

  // Whole runs ------------------------------------------------------------------------------------

  ghost predicate InsertsState(actions: seq<Action>, state: string) {
    exists n :: 0 <= n < |actions| && actions[n].Insert? && actions[n].entity.state == state
  }

  ghost predicate InsertsId(actions: seq<Action>, id: string) {
    exists n :: 0 <= n < |actions| && actions[n].Insert? && actions[n].entity.id == id
  }

  /** Everything a state, a document or an inserting worker stands for was inserted by the run. */
  ghost predicate FromInserts(actions: seq<Action>, s: System, x: Aux) {
    && (forall state :: state in x.owner ==> InsertsState(actions, state))
    && (forall id :: id in x.due ==> InsertsId(actions, id))
    && (forall j :: 0 <= j < |s.workers| && s.workers[j].AddSess? ==> InsertsId(actions, s.workers[j].entity.id))
  }

  lemma {:induction false} InsertsMore(before: seq<Action>, a: Action)
    ensures forall state :: InsertsState(before, state) ==> InsertsState(before + [a], state)
    ensures forall id :: InsertsId(before, id) ==> InsertsId(before + [a], id)
    ensures a.Insert? ==> InsertsState(before + [a], a.entity.state) && InsertsId(before + [a], a.entity.id)
  {
    var actions := before + [a];
    assert actions[|before|] == a;
    forall state | InsertsState(before, state)
      ensures InsertsState(actions, state)
    {
      var n :| 0 <= n < |before| && before[n].Insert? && before[n].entity.state == state;
      assert actions[n] == before[n];
    }
    forall id | InsertsId(before, id)
      ensures InsertsId(actions, id)
    {
      var n :| 0 <= n < |before| && before[n].Insert? && before[n].entity.id == id;
      assert actions[n] == before[n];
    }
  }

  lemma {:induction false} FromInsertsStep(cfg: Config, before: seq<Action>, a: Action, s: System, x: Aux)
    requires FromInserts(before, s, x)
    ensures FromInserts(before + [a], Apply(cfg, s, a), AuxStep(cfg, s, x, a))
  {
    InsertsMore(before, a);
    if a.Step? && a.worker < |s.workers| {
      NoInserter(cfg, s.store, s.workers[a.worker], a.env);
    }
  }

  lemma {:induction false} StoredIsDue(s: Store, x: Aux, id: string)
    requires StoreOk(s, x)
    ensures SessKey(id) in s.keys ==> id in x.due
  {
    if SessKey(id) in s.keys {
      assert EntryOk(x, SessKey(id), s.keys[SessKey(id)]);
    }
  }

  /** What an insertion needs to be new: nothing the run inserted so far has its state or its id. */
  lemma {:induction false} InsertIsNew(actions: seq<Action>, e: Entity)
    requires InsertedOnce(actions + [Insert(e)])
    ensures !InsertsState(actions, e.state) && !InsertsId(actions, e.id)
  {
    var all := actions + [Insert(e)];
    assert forall n :: 0 <= n < |actions| ==> actions[n] == all[n];
    assert all[|actions|] == Insert(e);
  }

  lemma {:induction false} RunKeeps(cfg: Config, actions: seq<Action>)
    requires cfg.ttl > 0 && InsertedOnce(actions)
    ensures Inv(cfg, Exec(cfg, actions), AuxExec(cfg, actions))
    ensures FromInserts(actions, Exec(cfg, actions), AuxExec(cfg, actions))
  {
    if actions != [] {
      var before, a := actions[..|actions| - 1], actions[|actions| - 1];
      assert actions == before + [a];
      InsertedOncePrefix(before, actions);
      RunKeeps(cfg, before);
      var s, x := Exec(cfg, before), AuxExec(cfg, before);
      if a.Step? {
        StepKeeps(cfg, s, x, a.worker, a.env);
      } else {
        if a.Insert? {
          InsertIsNew(before, a.entity);
          StoredIsDue(s.store, x, a.entity.id);
        }
        OtherKeeps(cfg, s, x, a);
      }
      FromInsertsStep(cfg, before, a, s, x);
    }
  }

  /** MAIN RESULT. In every run a session is consumed at most once, its code is redeemed at most once, and
  the client callback runs at most once. */
  lemma {:induction false} SingleUse(cfg: Config, actions: seq<Action>, m: nat, n: nat)
    requires cfg.ttl > 0 && InsertedOnce(actions)
    requires m < n < |Exec(cfg, actions).log|
    ensures !SameUse(Exec(cfg, actions).log[m].event, Exec(cfg, actions).log[n].event)
  {
    RunKeeps(cfg, actions);
  }

  // Order of the three uses -------------------------------------------------------------------------

  /** The log has `e` for worker `i`, before position `n`. */
  ghost predicate LoggedBefore(log: seq<Logged>, n: int, i: nat, rank: nat, state: string) {
    exists m :: 0 <= m < n && m < |log| && log[m].worker == i && EventRank(log[m].event) == rank && log[m].event.state == state
  }

  /** A worker past the consume has logged it, and one past the redemption has logged that. */
  ghost predicate PastOk(log: seq<Logged>, i: nat, w: Worker) {
    (w.UpdateTtl? || w.UpdateSet? || w.CheckRequest? || w.Redeem? || w.UserInfo? || w.ClientCallback?) ==>
      && (Rank(w) > 6 ==> LoggedBefore(log, |log|, i, 6, w.req.state))
      && (Rank(w) > 8 ==> LoggedBefore(log, |log|, i, 8, w.req.state))
  }

  ghost predicate OrderOk(s: System) {
    && (forall i :: 0 <= i < |s.workers| ==> PastOk(s.log, i, s.workers[i]))
    && (forall n :: 0 <= n < |s.log| ==> EntryOrdered(s.log, n))
  }

  /** What must have come before an entry: a consume before a redemption, a redemption before a callback. */
  ghost predicate EntryOrdered(log: seq<Logged>, n: int)
    requires 0 <= n < |log|
  {
    match log[n].event
    case Consumed(_) => true
    case Redeemed(state, _) => LoggedBefore(log, n, log[n].worker, 6, state)
    case ClientCalled(state) => LoggedBefore(log, n, log[n].worker, 8, state)
  }

  lemma {:induction false} LoggedStays(log: seq<Logged>, more: seq<Logged>, n: int, i: nat, rank: nat, state: string)
    requires LoggedBefore(log, n, i, rank, state)
    ensures LoggedBefore(log + more, n, i, rank, state)
    ensures n <= |log| ==> LoggedBefore(log + more, |log + more|, i, rank, state)
  {
    var m :| 0 <= m < n && m < |log| && log[m].worker == i && EventRank(log[m].event) == rank && log[m].event.state == state;
    assert (log + more)[m] == log[m];
  }

  lemma {:induction false} OrderStep(cfg: Config, s: System, i: nat, env: Env)
    requires OrderOk(s) && i < |s.workers|
    ensures OrderOk(Apply(cfg, s, Step(i, env)))
  {
    var w := s.workers[i];
    var r := WorkerStep(cfg, s.store, w, env);
    var s', more := Apply(cfg, s, Step(i, env)), LogAll(i, r.events);
    assert s'.log == s.log + more;
    if more != [] {
      assert s'.log[|s.log|] == Logged(i, r.events[0]);
      assert PastOk(s.log, i, w);
      assert EntryOrdered(s'.log, |s.log|) by {
        if Rank(w) > 6 { LoggedStays(s.log, more, |s.log|, i, 6, w.req.state); }
        if Rank(w) > 8 { LoggedStays(s.log, more, |s.log|, i, 8, w.req.state); }
      }
    }
    forall n | 0 <= n < |s.log|
      ensures EntryOrdered(s'.log, n)
    {
      assert EntryOrdered(s.log, n);
      var e := s.log[n];
      if e.event.Redeemed? { LoggedStays(s.log, more, n, e.worker, 6, e.event.state); }
      if e.event.ClientCalled? { LoggedStays(s.log, more, n, e.worker, 8, e.event.state); }
    }
    forall j | 0 <= j < |s'.workers|
      ensures PastOk(s'.log, j, s'.workers[j])
    {
      assert PastOk(s.log, j, s.workers[j]);
      PastStep(s, more, j, s.workers[j], s'.workers[j]);
    }
  }

  lemma {:induction false} PastStep(s: System, more: seq<Logged>, j: nat, w: Worker, w': Worker)
    requires PastOk(s.log, j, w)
    requires w' == w || (exists cfg: Config, env: Env {:trigger WorkerStep(cfg, s.store, w, env)} ::
               w' == WorkerStep(cfg, s.store, w, env).worker && more == LogAll(j, WorkerStep(cfg, s.store, w, env).events))
    ensures PastOk(s.log + more, j, w')
  {
    var log' := s.log + more;
    var held := w.UpdateTtl? || w.UpdateSet? || w.CheckRequest? || w.Redeem? || w.UserInfo? || w.ClientCallback?;
    if held && Rank(w) > 6 { LoggedStays(s.log, more, |s.log|, j, 6, w.req.state); }
    if held && Rank(w) > 8 { LoggedStays(s.log, more, |s.log|, j, 8, w.req.state); }
    if more != [] && w' != w {
      assert log'[|s.log|] == more[0];
    }
  }

  /** MAIN RESULT. In every run a code is redeemed only by a worker that consumed the session before, and the
  client callback runs only for a worker that redeemed the code before. */
  lemma {:induction false} UsesInOrder(cfg: Config, actions: seq<Action>)
    ensures forall n :: 0 <= n < |Exec(cfg, actions).log| ==> EntryOrdered(Exec(cfg, actions).log, n)
    ensures OrderOk(Exec(cfg, actions))
  {
    if actions != [] {
      var before, a := actions[..|actions| - 1], actions[|actions| - 1];
      UsesInOrder(cfg, before);
      var s := Exec(cfg, before);
      if a.Step? && a.worker < |s.workers| {
        OrderStep(cfg, s, a.worker, a.env);
      }
    }
  }

  // Completed documents stay completed --------------------------------------------------------------

  /** The store keeps a completed document under this id, dead or alive. */
  predicate CompletedIn(s: System, id: string) {
    && SessKey(id) in s.store.keys
    && s.store.keys[SessKey(id)].value.Doc?
    && s.store.keys[SessKey(id)].value.entity.completed
  }

  lemma {:induction false} CompletedStep(cfg: Config, s: System, x: Aux, a: Action, id: string)
    requires cfg.ttl > 0 && Inv(cfg, s, x) && CompletedIn(s, id)
    ensures CompletedIn(Apply(cfg, s, a), id)
  {
    if a.Step? && a.worker < |s.workers| {
      assert WorkerOk(cfg, s.store, x, a.worker, s.workers[a.worker]);
    }
  }

  /** MAIN RESULT. Once the stored document of a session is completed, it is completed in every later state of
  the run, also when a slow worker writes it again after it expired. */
  lemma {:induction false} CompletedForGood(cfg: Config, actions: seq<Action>, later: seq<Action>, id: string)
    requires cfg.ttl > 0 && InsertedOnce(actions + later)
    requires CompletedIn(Exec(cfg, actions), id)
    ensures CompletedIn(Exec(cfg, actions + later), id)
    ensures Get(Exec(cfg, actions + later).store, SessKey(id)).Some? ==>
              Get(Exec(cfg, actions + later).store, SessKey(id)).value.entity.completed
    decreases |later|
  {
    if later == [] {
      assert actions + later == actions;
    } else {
      var all := actions + later;
      var some := later[..|later| - 1];
      assert all[..|all| - 1] == actions + some;
      InsertedOncePrefix(actions + some, all);
      CompletedForGood(cfg, actions, some, id);
      CompletedLast(cfg, all, id);
    }
  }

  lemma {:induction false} InsertedOncePrefix(some: seq<Action>, all: seq<Action>)
    requires some <= all && InsertedOnce(all)
    ensures InsertedOnce(some)
  {
    assert forall i :: 0 <= i < |some| ==> some[i] == all[i];
  }

  lemma {:induction false} CompletedLast(cfg: Config, all: seq<Action>, id: string)
    requires cfg.ttl > 0 && InsertedOnce(all) && all != []
    requires CompletedIn(Exec(cfg, all[..|all| - 1]), id)
    ensures CompletedIn(Exec(cfg, all), id)
  {
    var before := all[..|all| - 1];
    InsertedOncePrefix(before, all);
    RunKeeps(cfg, before);
    CompletedStep(cfg, Exec(cfg, before), AuxExec(cfg, before), all[|all| - 1], id);
  }
}
