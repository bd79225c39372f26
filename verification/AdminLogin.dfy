/** The administrator's login: password, second factor, enrolment, log-out, idle expiry.

A session lives in a signed cookie, so a browser may present any cookie it was ever given: every reply issues
a cookie, and a visit names the one it presents. Visits are taken one at a time; `at` is the time of the checks
at the start of a visit, `done` the time of its effects, and `stamp` the one that the database gives to a stored failure.
Times are in microseconds. */
module AdminLogin {
  import opened Wrappers
  import Limiter = RateLimiter
  import Totp = AdminTotp

  const SECOND := Totp.SECOND
  const PENDING_TTL := 300 * SECOND

  datatype Config = Config(user: string, password: string, twofa: bool, maxAge: int, limits: Limiter.Limits)

  datatype PendingLogin = PendingLogin(user: string, ts: int)

  datatype Session = Session(user: Option<string>, pending: Option<PendingLogin>, lastActivity: Option<int>)

  const EMPTY_SESSION := Session(None, None, None)

  datatype Form =
    | Password(username: string, password: string)
    | Code(code: string)
    | SetupPage(newSecret: string)
    | SetupCode(code: string, newSecret: string)
    | TwofaPage
    | Logout
    | AdminPage

  /** What a visit came to. */
  datatype Note =
    | Nothing
    | PasswordAccepted(user: string)
    | PasswordRejected
    | CodeAccepted(user: string, counter: int)
    | CodeRejected
    | Blocked(minutes: int)
    | Undecryptable
    | Expired

  /** The database and the signing secret. */
  datatype World = World(attempts: Limiter.Table, key: string, totp: Option<Totp.Row>)

  datatype Reply = Reply(world: World, session: Session, note: Note)

  /** The user of a pending login that is not too old. */
  function PendingUser(s: Session, now: int): Option<string> {
    if s.pending.Some? && s.pending.value.user != "" && 0 <= now - s.pending.value.ts * SECOND <= PENDING_TTL
    then Some(s.pending.value.user) else None
  }

  function LoggedIn(user: string, done: int): Session {
    Session(Some(user), None, Some(done / SECOND))
  }

  function LoginPost(cfg: Config, w: World, s: Session, ip: string, at: int, stamp: int, done: int, f: Form): Reply
    requires f.Password?
  {
    var ban := Limiter.IsBanned(cfg.limits, w.attempts, ip, at);
    if ban.0 then Reply(w, s, Blocked(ban.1))
    else if f.username == cfg.user && f.password == cfg.password then
      if !cfg.twofa then
        Reply(w.(attempts := Limiter.Without(w.attempts, ip)),
              s.(user := Some(f.username), lastActivity := Some(done / SECOND)), PasswordAccepted(f.username))
      else
        Reply(w, Session(None, Some(PendingLogin(f.username, done / SECOND)), None), PasswordAccepted(f.username))
    else Reply(w.(attempts := Limiter.RecordFailed(w.attempts, ip, stamp, done)), s, PasswordRejected)
  }

  /** The common end of the two code forms. */
  function AfterVerdict(w: World, row: Totp.Row, s: Session, user: string, ip: string, stamp: int, done: int, v: Totp.Verdict)
    : Reply
  {
    var stamped := w.(totp := Some(Totp.Stamped(row, v, done)));
    match v
    case Undecryptable => Reply(stamped, s, Undecryptable)
    case Refused => Reply(stamped.(attempts := Limiter.RecordFailed(w.attempts, ip, stamp, done)), s, CodeRejected)
    case Accepted(counter) =>
      Reply(stamped.(attempts := Limiter.Without(w.attempts, ip)), LoggedIn(user, done), CodeAccepted(user, counter))
  }

  function TwofaSubmit(cfg: Config, otp: Totp.Otp, w: World, s: Session, ip: string, at: int, stamp: int, done: int,
                       code: string): Reply {
    if !cfg.twofa then Reply(w, s, Nothing)
    else
      match PendingUser(s, at)
      case None => Reply(w, EMPTY_SESSION, Nothing)
      case Some(user) =>
        if !Totp.Confirmed(w.totp) then Reply(w, s, Nothing)
        else
          var ban := Limiter.IsBanned(cfg.limits, w.attempts, ip, at);
          if ban.0 then Reply(w, s, Blocked(ban.1))
          else AfterVerdict(w, w.totp.value, s, user, ip, stamp, done, Totp.Judge(otp, w.key, w.totp.value, code, done))
  }

  /** A page of the setup makes the row that its form works on, also for a banned address. */
  function SetupRow(w: World, newSecret: string): World {
    w.(totp := Some(Totp.Pending(w.key, w.totp, newSecret)))
  }

  function SetupGet(cfg: Config, w: World, s: Session, at: int, newSecret: string): Reply {
    if !cfg.twofa then Reply(w, s, Nothing)
    else if PendingUser(s, at).None? then Reply(w, EMPTY_SESSION, Nothing)
    else if Totp.Confirmed(w.totp) then Reply(w, s, Nothing)
    else Reply(SetupRow(w, newSecret), s, Nothing)
  }

  function SetupSubmit(cfg: Config, otp: Totp.Otp, w: World, s: Session, ip: string, at: int, stamp: int, done: int,
                       code: string, newSecret: string): Reply {
    if !cfg.twofa then Reply(w, s, Nothing)
    else
      match PendingUser(s, at)
      case None => Reply(w, EMPTY_SESSION, Nothing)
      case Some(user) =>
        if Totp.Confirmed(w.totp) then Reply(w, s, Nothing)
        else
          var w' := SetupRow(w, newSecret);
          var ban := Limiter.IsBanned(cfg.limits, w.attempts, ip, at);
          if ban.0 then Reply(w', s, Blocked(ban.1))
          else AfterVerdict(w', w'.totp.value, s, user, ip, stamp, done, Totp.Judge(otp, w.key, w'.totp.value, code, done))
  }

  function TwofaGet(cfg: Config, w: World, s: Session, at: int): Reply {
    if cfg.twofa && PendingUser(s, at).None? then Reply(w, EMPTY_SESSION, Nothing) else Reply(w, s, Nothing)
  }

  /** The middleware in front of every admin page. */
  function Guard(cfg: Config, w: World, s: Session, at: int): Reply {
    var now := at / SECOND;
    if s.user.None? || s.user.value == "" then Reply(w, s, Nothing)
    else if s.lastActivity.Some? && s.lastActivity.value != 0 && now - s.lastActivity.value > cfg.maxAge
    then Reply(w, EMPTY_SESSION, Expired)
    else Reply(w, s.(lastActivity := Some(now)), Nothing)
  }

  function Handle(cfg: Config, otp: Totp.Otp, w: World, s: Session, ip: string, at: int, stamp: int, done: int, f: Form): Reply {
    match f
    case Password(_, _) => LoginPost(cfg, w, s, ip, at, stamp, done, f)
    case Code(code) => TwofaSubmit(cfg, otp, w, s, ip, at, stamp, done, code)
    case SetupPage(secret) => SetupGet(cfg, w, s, at, secret)
    case SetupCode(code, secret) => SetupSubmit(cfg, otp, w, s, ip, at, stamp, done, code, secret)
    case TwofaPage => TwofaGet(cfg, w, s, at)
    case Logout => Reply(w, EMPTY_SESSION, Nothing)
    case AdminPage => Guard(cfg, w, s, at)
  }

  // Cookies and runs --------------------------------------------------------------------------------

  /** A cookie with the reply it came in; `page` for the reply to an admin page. */
  datatype Issued = Issued(session: Session, key: string, at: int, done: int, parent: Option<nat>, note: Note, page: bool)

  datatype Visit = Visit(cookie: Option<nat>, ip: string, at: int, stamp: int, done: int, form: Form)

  /** A restart brings a new signing secret; a reset is the console command that forgets the TOTP row. */
  datatype Action = Visits(visit: Visit) | Restarts(key: string) | Resets

  datatype Server = Server(world: World, issued: seq<Issued>)

  /** The cookie counts while its signature fits the secret and it is not older than the session age. */
  function Presented(cfg: Config, srv: Server, v: Visit): Option<nat> {
    if v.cookie.Some? && v.cookie.value < |srv.issued|
       && srv.issued[v.cookie.value].key == srv.world.key
       && v.at - srv.issued[v.cookie.value].done <= cfg.maxAge * SECOND
    then v.cookie else None
  }

  function SessionOf(cfg: Config, srv: Server, v: Visit): Session {
    var p := Presented(cfg, srv, v);
    if p.Some? then srv.issued[p.value].session else EMPTY_SESSION
  }

  function ReplyTo(cfg: Config, otp: Totp.Otp, srv: Server, v: Visit): Reply {
    Handle(cfg, otp, srv.world, SessionOf(cfg, srv, v), v.ip, v.at, v.stamp, v.done, v.form)
  }

  function Act(cfg: Config, otp: Totp.Otp, srv: Server, a: Action): Server {
    match a
    case Visits(v) =>
      var r := ReplyTo(cfg, otp, srv, v);
      var c := Issued(r.session, srv.world.key, v.at, v.done, Presented(cfg, srv, v), r.note, v.form.AdminPage?);
      Server(r.world, srv.issued + [c])
    case Restarts(key) => srv.(world := srv.world.(key := key))
    case Resets => srv.(world := srv.world.(totp := None))
  }

  function Run(cfg: Config, otp: Totp.Otp, srv: Server, actions: seq<Action>): Server {
    if actions == [] then srv
    else Act(cfg, otp, Run(cfg, otp, srv, actions[..|actions| - 1]), actions[|actions| - 1])
  }

  /** A server that has given no cookie yet and seen no failure. */
  function FirstServer(key: string, totp: Option<Totp.Row>): Server {
    Server(World([], key, totp), [])
  }

  // Who is logged in --------------------------------------------------------------------------------

  /** Cookie `k` descends from cookie `i`: each was issued to the visit that presented the one before. */
  ghost predicate Descends(issued: seq<Issued>, i: nat, k: nat)
    decreases k
  {
    k < |issued| &&
    (i == k || (issued[k].parent.Some? && issued[k].parent.value < k && Descends(issued, i, issued[k].parent.value)))
  }

  lemma {:induction false} DescendsBound(issued: seq<Issued>, i: nat, k: nat)
    requires Descends(issued, i, k)
    ensures i <= k
    decreases k
  {
    if i != k {
      DescendsBound(issued, i, issued[k].parent.value);
    }
  }

  /** The reply to an accepted password for this user at second `ts`. */
  predicate PasswordAt(c: Issued, user: string, ts: int) {
    c.note == PasswordAccepted(user) && c.done / SECOND == ts
  }

  /** Cookie `k` descends from an accepted password for this user at second `ts`. */
  ghost predicate FromPassword(issued: seq<Issued>, k: nat, user: string, ts: int) {
    exists i: nat :: i < |issued| && PasswordAt(issued[i], user, ts) && Descends(issued, i, k)
  }

  /** Cookie `j` is the reply to an accepted code, sent with a cookie that descends from an accepted password
  of the same user at most 300 seconds before. */
  ghost predicate SecondFactorAt(issued: seq<Issued>, j: nat, user: string) {
    && j < |issued| && issued[j].note.CodeAccepted? && issued[j].note.user == user
    && issued[j].parent.Some? && issued[j].parent.value < j
    && exists ts :: FromPassword(issued, issued[j].parent.value, user, ts) && 0 <= issued[j].at - ts * SECOND <= PENDING_TTL
  }

  ghost predicate CookieOk(issued: seq<Issued>, k: nat)
    requires k < |issued|
  {
    && (issued[k].session.pending.Some? ==>
         FromPassword(issued, k, issued[k].session.pending.value.user, issued[k].session.pending.value.ts))
    && (issued[k].session.user.Some? ==>
         exists j: nat :: Descends(issued, j, k) && SecondFactorAt(issued, j, issued[k].session.user.value))
    && (issued[k].parent.Some? ==> issued[k].parent.value < k)
  }

  ghost predicate CookiesOk(issued: seq<Issued>) {
    forall k :: 0 <= k < |issued| ==> CookieOk(issued, k)
  }

  /** What a handler can do to a session. */
  lemma SessionEffects(cfg: Config, otp: Totp.Otp, w: World, s: Session, ip: string, at: int, stamp: int, done: int, f: Form)
    requires cfg.twofa
    ensures var r := Handle(cfg, otp, w, s, ip, at, stamp, done, f);
            && (r.session.pending.Some? ==>
                 r.session.pending == s.pending ||
                 (r.note == PasswordAccepted(r.session.pending.value.user) && r.session.pending.value.ts == done / SECOND))
            && (r.session.user.Some? ==>
                 r.session.user == s.user ||
                 (r.note.CodeAccepted? && r.session.user == Some(r.note.user) && PendingUser(s, at) == r.session.user))
  {
  }

  lemma {:induction false} DescendsLater(issued: seq<Issued>, more: seq<Issued>, i: nat, k: nat)
    requires Descends(issued, i, k)
    ensures Descends(issued + more, i, k)
    decreases k
  {
    if i != k {
      DescendsLater(issued, more, i, issued[k].parent.value);
    }
  }

  lemma {:induction false} FromPasswordLater(issued: seq<Issued>, more: seq<Issued>, k: nat, user: string, ts: int)
    requires FromPassword(issued, k, user, ts)
    ensures FromPassword(issued + more, k, user, ts)
  {
    var i: nat :| i < |issued| && PasswordAt(issued[i], user, ts) && Descends(issued, i, k);
    DescendsLater(issued, more, i, k);
    assert PasswordAt((issued + more)[i], user, ts);
  }

  lemma {:induction false} SecondFactorLater(issued: seq<Issued>, more: seq<Issued>, j: nat, user: string)
    requires SecondFactorAt(issued, j, user)
    ensures SecondFactorAt(issued + more, j, user)
  {
    var p := issued[j].parent.value;
    var ts :| FromPassword(issued, p, user, ts) && 0 <= issued[j].at - ts * SECOND <= PENDING_TTL;
    FromPasswordLater(issued, more, p, user, ts);
    assert (issued + more)[j] == issued[j];
  }

  lemma {:induction false} CookieOkLater(issued: seq<Issued>, more: seq<Issued>, k: nat)
    requires k < |issued| && CookieOk(issued, k)
    ensures CookieOk(issued + more, k)
  {
    var c := issued[k];
    assert (issued + more)[k] == c;
    if c.session.pending.Some? {
      FromPasswordLater(issued, more, k, c.session.pending.value.user, c.session.pending.value.ts);
    }
    if c.session.user.Some? {
      var j :| Descends(issued, j, k) && SecondFactorAt(issued, j, c.session.user.value);
      DescendsLater(issued, more, j, k);
      SecondFactorLater(issued, more, j, c.session.user.value);
    }
  }

  lemma {:induction false} NewCookieOk(cfg: Config, otp: Totp.Otp, srv: Server, v: Visit)
    requires cfg.twofa && CookiesOk(srv.issued)
    ensures CookieOk(Act(cfg, otp, srv, Visits(v)).issued, |srv.issued|)
  {
    var s, p := SessionOf(cfg, srv, v), Presented(cfg, srv, v);
    var r := ReplyTo(cfg, otp, srv, v);
    var c := Issued(r.session, srv.world.key, v.at, v.done, p, r.note, v.form.AdminPage?);
    var all, k := srv.issued + [c], |srv.issued|;
    assert all[k] == c;
    SessionEffects(cfg, otp, srv.world, s, v.ip, v.at, v.stamp, v.done, v.form);
    if p.Some? {
      CookieOkLater(srv.issued, [c], p.value);
      assert all[p.value] == srv.issued[p.value];
    }
    if r.session.pending.Some? {
      PendingOrigin(all, k, s);
    }
    if r.session.user.Some? {
      if r.session.user == s.user {
        var j :| Descends(all, j, p.value) && SecondFactorAt(all, j, s.user.value);
        assert Descends(all, j, k);
      } else {
        assert FromPassword(all, p.value, s.pending.value.user, s.pending.value.ts);
        assert SecondFactorAt(all, k, r.note.user);
        assert Descends(all, k, k);
      }
    }
  }

  lemma {:induction false} PendingOrigin(all: seq<Issued>, k: nat, s: Session)
    requires k < |all| && all[k].session.pending.Some?
    requires all[k].parent.Some? ==>
               all[k].parent.value < k && CookieOk(all, all[k].parent.value) && s == all[all[k].parent.value].session
    requires all[k].parent.None? ==> s == EMPTY_SESSION
    requires all[k].session.pending == s.pending ||
             (all[k].note == PasswordAccepted(all[k].session.pending.value.user)
              && all[k].session.pending.value.ts == all[k].done / SECOND)
    ensures FromPassword(all, k, all[k].session.pending.value.user, all[k].session.pending.value.ts)
  {
    var pending := all[k].session.pending.value;
    if all[k].note == PasswordAccepted(pending.user) && pending.ts == all[k].done / SECOND {
      assert PasswordAt(all[k], pending.user, pending.ts) && Descends(all, k, k);
    } else {
      var p := all[k].parent.value;
      var i: nat :| i < |all| && PasswordAt(all[i], pending.user, pending.ts) && Descends(all, i, p);
      assert Descends(all, i, k);
    }
  }

  lemma {:induction false} RunCookies(cfg: Config, otp: Totp.Otp, key: string, totp: Option<Totp.Row>, actions: seq<Action>)
    requires cfg.twofa
    ensures CookiesOk(Run(cfg, otp, FirstServer(key, totp), actions).issued)
  {
    if actions != [] {
      var before, a := actions[..|actions| - 1], actions[|actions| - 1];
      RunCookies(cfg, otp, key, totp, before);
      var srv := Run(cfg, otp, FirstServer(key, totp), before);
      if a.Visits? {
        NewCookieOk(cfg, otp, srv, a.visit);
        var all := Act(cfg, otp, srv, a).issued;
        assert all == srv.issued + [all[|srv.issued|]];
        forall k | 0 <= k < |srv.issued|
          ensures CookieOk(all, k)
        {
          CookieOkLater(srv.issued, [all[|srv.issued|]], k);
        }
      }
    }
  }

  /** With the second factor on, a cookie holds a user only if it descends from the reply to an accepted code, which came
  with a cookie that descends from the reply to an accepted password at most 300 seconds before. */
  lemma {:induction false} UserDescends(cfg: Config, otp: Totp.Otp, key: string, totp: Option<Totp.Row>,
                                        actions: seq<Action>, k: nat)
    requires cfg.twofa
    requires k < |Run(cfg, otp, FirstServer(key, totp), actions).issued|
    requires Run(cfg, otp, FirstServer(key, totp), actions).issued[k].session.user.Some?
    ensures var issued := Run(cfg, otp, FirstServer(key, totp), actions).issued;
            exists j: nat :: Descends(issued, j, k) && SecondFactorAt(issued, j, issued[k].session.user.value)
  {
    RunCookies(cfg, otp, key, totp, actions);
    assert CookieOk(Run(cfg, otp, FirstServer(key, totp), actions).issued, k);
  }

  // What was submitted for it -----------------------------------------------------------------------

  /** The server after the first `i` actions. */
  function ServerAt(cfg: Config, otp: Totp.Otp, srv: Server, actions: seq<Action>, i: nat): Server
    requires i <= |actions|
  {
    Run(cfg, otp, srv, actions[..i])
  }

  lemma {:induction false} NextServer(cfg: Config, otp: Totp.Otp, srv: Server, actions: seq<Action>, i: nat)
    requires i < |actions|
    ensures ServerAt(cfg, otp, srv, actions, i + 1) == Act(cfg, otp, ServerAt(cfg, otp, srv, actions, i), actions[i])
  {
    assert actions[..i + 1][..i] == actions[..i];
  }

  /** Cookie `j` was issued by action `n`, a visit. */
  ghost predicate IssuedBy(cfg: Config, otp: Totp.Otp, srv: Server, actions: seq<Action>, n: nat, j: nat) {
    n < |actions| && actions[n].Visits? && |ServerAt(cfg, otp, srv, actions, n).issued| == j
  }

  /** The reply in the cookie is that to the visit that was issued it. */
  predicate RepliesTo(cfg: Config, otp: Totp.Otp, srv: Server, v: Visit, c: Issued) {
    && c.note == ReplyTo(cfg, otp, srv, v).note && c.at == v.at && c.done == v.done
  }

  lemma {:induction false} IssuingVisit(cfg: Config, otp: Totp.Otp, srv: Server, actions: seq<Action>, j: nat) returns (n: nat)
    requires srv.issued == [] && j < |Run(cfg, otp, srv, actions).issued|
    ensures IssuedBy(cfg, otp, srv, actions, n, j)
    ensures RepliesTo(cfg, otp, ServerAt(cfg, otp, srv, actions, n), actions[n].visit, Run(cfg, otp, srv, actions).issued[j])
  {
    var before, a := actions[..|actions| - 1], actions[|actions| - 1];
    if j < |Run(cfg, otp, srv, before).issued| {
      n := IssuingVisit(cfg, otp, srv, before, j);
      assert actions[..n] == before[..n];
    } else {
      n := |actions| - 1;
      assert actions[..n] == before;
    }
  }

  /** The visit submits the configured user and password, from an address that is not banned. */
  predicate GivesPassword(cfg: Config, srv: Server, v: Visit) {
    v.form == Password(cfg.user, cfg.password) && !Limiter.IsBanned(cfg.limits, srv.world.attempts, v.ip, v.at).0
  }

  /** The visit submits a code that passes, from an address that is not banned: against the confirmed row stored at that
  moment, or at the enrolment against the pending one. */
  predicate GivesCode(cfg: Config, otp: Totp.Otp, srv: Server, v: Visit) {
    && !Limiter.IsBanned(cfg.limits, srv.world.attempts, v.ip, v.at).0
    && match v.form
       case Code(code) =>
         Totp.Confirmed(srv.world.totp) && Totp.Judge(otp, srv.world.key, srv.world.totp.value, code, v.done).Accepted?
       case SetupCode(code, secret) =>
         && !Totp.Confirmed(srv.world.totp)
         && Totp.Judge(otp, srv.world.key, Totp.Pending(srv.world.key, srv.world.totp, secret), code, v.done).Accepted?
       case _ => false
  }

  lemma AcceptedForms(cfg: Config, otp: Totp.Otp, srv: Server, v: Visit)
    ensures ReplyTo(cfg, otp, srv, v).note.PasswordAccepted? ==>
              GivesPassword(cfg, srv, v) && ReplyTo(cfg, otp, srv, v).note.user == cfg.user
    ensures ReplyTo(cfg, otp, srv, v).note.CodeAccepted? ==> GivesCode(cfg, otp, srv, v)
  {
    hide Totp.Judge, Totp.Pending, Limiter.IsBanned, Limiter.RecordFailed, Limiter.Without, PendingUser;
  }

  /** Cookie `i` answers the user and password. */
  ghost predicate PasswordGiven(cfg: Config, otp: Totp.Otp, srv: Server, actions: seq<Action>, i: nat) {
    exists m: nat :: IssuedBy(cfg, otp, srv, actions, m, i)
                     && GivesPassword(cfg, ServerAt(cfg, otp, srv, actions, m), actions[m].visit)
  }

  ghost predicate CodeGiven(cfg: Config, otp: Totp.Otp, srv: Server, actions: seq<Action>, j: nat) {
    exists n: nat :: IssuedBy(cfg, otp, srv, actions, n, j)
                     && GivesCode(cfg, otp, ServerAt(cfg, otp, srv, actions, n), actions[n].visit)
  }

  /** Cookie `j` answers a passing code that came with a cookie of the line of cookie `i`, which answers the password, at
  most 300 seconds after it, counted from its whole second. */
  ghost predicate BothGiven(cfg: Config, otp: Totp.Otp, srv: Server, actions: seq<Action>, i: nat, j: nat) {
    var issued := Run(cfg, otp, srv, actions).issued;
    && i < j < |issued| && issued[j].parent.Some? && Descends(issued, i, issued[j].parent.value)
    && PasswordGiven(cfg, otp, srv, actions, i) && CodeGiven(cfg, otp, srv, actions, j)
    && 0 <= issued[j].at - issued[i].done / SECOND * SECOND <= PENDING_TTL
  }

  /** MAIN RESULT. With the second factor on, in every run, with cookies presented again in any order, a cookie holds a user
  only if that is the configured one and, in its own line of cookies, the configured user and password were submitted and,
  at most 300 seconds later, a code that passed against the row stored at that visit. */
  lemma {:induction false} UserNeedsBothFactors(cfg: Config, otp: Totp.Otp, key: string, totp: Option<Totp.Row>,
                                                actions: seq<Action>, k: nat)
    requires cfg.twofa
    requires k < |Run(cfg, otp, FirstServer(key, totp), actions).issued|
    requires Run(cfg, otp, FirstServer(key, totp), actions).issued[k].session.user.Some?
    ensures var srv := FirstServer(key, totp);
            var issued := Run(cfg, otp, srv, actions).issued;
            && issued[k].session.user == Some(cfg.user)
            && exists i: nat, j: nat :: BothGiven(cfg, otp, srv, actions, i, j) && Descends(issued, j, k)
  {
    var srv := FirstServer(key, totp);
    var issued := Run(cfg, otp, srv, actions).issued;
    UserDescends(cfg, otp, key, totp, actions, k);
    var user := issued[k].session.user.value;
    var j: nat :| Descends(issued, j, k) && SecondFactorAt(issued, j, user);
    var p := issued[j].parent.value;
    var ts :| FromPassword(issued, p, user, ts) && 0 <= issued[j].at - ts * SECOND <= PENDING_TTL;
    var i: nat :| i < |issued| && PasswordAt(issued[i], user, ts) && Descends(issued, i, p);
    hide Run, Act, ReplyTo, GivesCode, GivesPassword;
    DescendsBound(issued, i, p);
    var m := IssuingVisit(cfg, otp, srv, actions, i);
    var n := IssuingVisit(cfg, otp, srv, actions, j);
    AcceptedForms(cfg, otp, ServerAt(cfg, otp, srv, actions, m), actions[m].visit);
    AcceptedForms(cfg, otp, ServerAt(cfg, otp, srv, actions, n), actions[n].visit);
    assert BothGiven(cfg, otp, srv, actions, i, j);
  }

  // Banned addresses --------------------------------------------------------------------------------

  /** Two forms that differ at most in the username, the password or the code. */
  predicate SameKind(f: Form, g: Form) {
    f == g || (f.Password? && g.Password?) || (f.Code? && g.Code?)
    || (f.SetupCode? && g.SetupCode? && f.newSecret == g.newSecret)
  }

  /** The same action, or two visits of a banned address that differ at most in what it submits. */
  predicate AlikeIfBanned(cfg: Config, srv: Server, a: Action, b: Action) {
    a == b || (a.Visits? && b.Visits? && a.visit == b.visit.(form := a.visit.form) && SameKind(a.visit.form, b.visit.form)
               && Limiter.IsBanned(cfg.limits, srv.world.attempts, a.visit.ip, a.visit.at).0)
  }

  lemma {:induction false} BannedReply(cfg: Config, otp: Totp.Otp, srv: Server, a: Action, b: Action)
    requires AlikeIfBanned(cfg, srv, a, b)
    ensures Act(cfg, otp, srv, a) == Act(cfg, otp, srv, b)
    ensures a != b ==> Act(cfg, otp, srv, a).world.attempts == srv.world.attempts
  {
    hide Totp.Judge, PendingUser;
  }

  /** The runs differ only in what visits submit while their address is banned. */
  ghost predicate AlikeRuns(cfg: Config, otp: Totp.Otp, srv: Server, xs: seq<Action>, ys: seq<Action>) {
    |xs| == |ys|
    && forall i :: 0 <= i < |xs| ==> AlikeIfBanned(cfg, ServerAt(cfg, otp, srv, xs, i), xs[i], ys[i])
  }

  lemma {:induction false} BlindUpTo(cfg: Config, otp: Totp.Otp, srv: Server, xs: seq<Action>, ys: seq<Action>, k: nat)
    requires AlikeRuns(cfg, otp, srv, xs, ys) && k <= |xs|
    ensures ServerAt(cfg, otp, srv, xs, k) == ServerAt(cfg, otp, srv, ys, k)
  {
    if k == 0 {
      assert xs[..0] == ys[..0];
    } else {
      BlindUpTo(cfg, otp, srv, xs, ys, k - 1);
      NextServer(cfg, otp, srv, xs, k - 1);
      NextServer(cfg, otp, srv, ys, k - 1);
      BannedReply(cfg, otp, ServerAt(cfg, otp, srv, xs, k - 1), xs[k - 1], ys[k - 1]);
    }
  }

  /** MAIN RESULT. Two runs that differ only in the usernames, passwords and codes of visits made while their address is
  banned end in the same server state, with the same replies and cookies; and no such visit stores or clears a failure. */
  lemma {:induction false} BannedIsBlind(cfg: Config, otp: Totp.Otp, srv: Server, xs: seq<Action>, ys: seq<Action>)
    requires AlikeRuns(cfg, otp, srv, xs, ys)
    ensures Run(cfg, otp, srv, xs) == Run(cfg, otp, srv, ys)
    ensures forall i :: 0 <= i < |xs| && xs[i] != ys[i] ==>
              ServerAt(cfg, otp, srv, xs, i + 1).world.attempts == ServerAt(cfg, otp, srv, xs, i).world.attempts
  {
    BlindUpTo(cfg, otp, srv, xs, ys, |xs|);
    assert xs[..|xs|] == xs && ys[..|ys|] == ys;
    forall i | 0 <= i < |xs| && xs[i] != ys[i]
      ensures ServerAt(cfg, otp, srv, xs, i + 1).world.attempts == ServerAt(cfg, otp, srv, xs, i).world.attempts
    {
      NextServer(cfg, otp, srv, xs, i);
      BannedReply(cfg, otp, ServerAt(cfg, otp, srv, xs, i), xs[i], ys[i]);
    }
  }

  // The second factor over whole runs ---------------------------------------------------------------

  /** What a visit does to the TOTP row, as the row's own events. */
  function TotpEvents(cfg: Config, srv: Server, v: Visit): seq<Totp.Event> {
    var s := SessionOf(cfg, srv, v);
    var banned := Limiter.IsBanned(cfg.limits, srv.world.attempts, v.ip, v.at).0;
    var serving := cfg.twofa && PendingUser(s, v.at).Some?;
    match v.form
    case Code(code) =>
      if serving && Totp.Confirmed(srv.world.totp) && !banned then [Totp.Verifies(code, v.done)] else []
    case SetupPage(secret) =>
      if serving && !Totp.Confirmed(srv.world.totp) then [Totp.Enrols(secret)] else []
    case SetupCode(code, secret) =>
      if serving && !Totp.Confirmed(srv.world.totp)
      then if banned then [Totp.Enrols(secret)] else [Totp.Enrols(secret), Totp.Verifies(code, v.done)]
      else []
    case _ => []
  }

  function ActionEvents(cfg: Config, srv: Server, a: Action): seq<Totp.Event> {
    match a
    case Visits(v) => TotpEvents(cfg, srv, v)
    case Restarts(key) => [Totp.Restarts(key)]
    case Resets => []
  }

  function AllEvents(cfg: Config, otp: Totp.Otp, srv: Server, actions: seq<Action>): seq<Totp.Event> {
    if actions == [] then []
    else
      var before := actions[..|actions| - 1];
      AllEvents(cfg, otp, srv, before) + ActionEvents(cfg, Run(cfg, otp, srv, before), actions[|actions| - 1])
  }

  /** The accepted codes among some replies. */
  function UsesIn(issued: seq<Issued>): seq<Totp.Use> {
    if issued == [] then []
    else
      var c := issued[|issued| - 1];
      var some := UsesIn(issued[..|issued| - 1]);
      if c.note.CodeAccepted? then some + [Totp.Use(c.note.counter, c.done)] else some
  }

  lemma {:induction false} RunAppend(otp: Totp.Otp, s: Totp.State, es: seq<Totp.Event>, fs: seq<Totp.Event>)
    ensures Totp.Run(otp, s, es + fs) == Totp.Run(otp, Totp.Run(otp, s, es), fs)
    decreases |fs|
  {
    if fs == [] {
      assert es + fs == es;
    } else {
      assert (es + fs)[..|es + fs| - 1] == es + fs[..|fs| - 1];
      RunAppend(otp, s, es, fs[..|fs| - 1]);
    }
  }

  /** One and two events, run. */
  lemma {:induction false} RunFew(otp: Totp.Otp, s: Totp.State, e: Totp.Event, e': Totp.Event)
    ensures Totp.Run(otp, s, [e]) == Totp.Step(otp, s, e)
    ensures Totp.Run(otp, s, [e, e']) == Totp.Step(otp, Totp.Step(otp, s, e), e')
  {
    assert [e][..0] == [] && [e, e'][..1] == [e];
  }

  lemma {:induction false} VisitUses(cfg: Config, otp: Totp.Otp, srv: Server, v: Visit, uses: seq<Totp.Use>)
    ensures var r := ReplyTo(cfg, otp, srv, v);
            var s := Totp.Run(otp, Totp.State(srv.world.key, srv.world.totp, uses), TotpEvents(cfg, srv, v));
            && s.key == srv.world.key == r.world.key && s.row == r.world.totp
            && s.uses == if r.note.CodeAccepted? then uses + [Totp.Use(r.note.counter, v.done)] else uses
  {
    var s0, es := Totp.State(srv.world.key, srv.world.totp, uses), TotpEvents(cfg, srv, v);
    if |es| > 0 {
      RunFew(otp, s0, es[0], if |es| > 1 then es[1] else es[0]);
      assert es == [es[0]] || es == [es[0], es[1]];
    }
  }

  lemma {:induction false} ActionUses(cfg: Config, otp: Totp.Otp, srv: Server, a: Action, uses: seq<Totp.Use>)
    requires !a.Resets?
    ensures var srv' := Act(cfg, otp, srv, a);
            var s := Totp.Run(otp, Totp.State(srv.world.key, srv.world.totp, uses), ActionEvents(cfg, srv, a));
            && s.key == srv'.world.key && s.row == srv'.world.totp
            && s.uses == uses + UsesIn(srv'.issued[|srv.issued|..])
  {
    if a.Visits? {
      VisitUses(cfg, otp, srv, a.visit, uses);
      hide ReplyTo, TotpEvents, Totp.Run;
      var srv' := Act(cfg, otp, srv, a);
      var c := srv'.issued[|srv.issued|];
      assert srv'.issued[|srv.issued|..] == [c];
      UseOfOne(c);
    } else {
      RunFew(otp, Totp.State(srv.world.key, srv.world.totp, uses), Totp.Restarts(a.key), Totp.Restarts(a.key));
    }
  }

  lemma {:induction false} UseOfOne(c: Issued)
    ensures UsesIn([c]) == if c.note.CodeAccepted? then [Totp.Use(c.note.counter, c.done)] else []
  {
    assert [c][..0] == [];
    assert UsesIn([]) == [];
  }

  lemma {:induction false} UsesInAppend(a: seq<Issued>, b: seq<Issued>)
    ensures UsesIn(a + b) == UsesIn(a) + UsesIn(b)
    decreases |b|
  {
    if b == [] {
      assert a + b == a;
    } else {
      assert (a + b)[..|a + b| - 1] == a + b[..|b| - 1];
      UsesInAppend(a, b[..|b| - 1]);
    }
  }

  /** Without a reset in between, the login uses the second factor as a run of the row's own events. */
  lemma {:induction false} RunUses(cfg: Config, otp: Totp.Otp, srv: Server, actions: seq<Action>)
    requires srv.world.totp == None && forall a :: a in actions ==> !a.Resets?
    ensures var srv' := Run(cfg, otp, srv, actions);
            && |srv'.issued| >= |srv.issued|
            && Totp.Run(otp, Totp.AfterReset(srv.world.key), AllEvents(cfg, otp, srv, actions))
                 == Totp.State(srv'.world.key, srv'.world.totp, UsesIn(srv'.issued[|srv.issued|..]))
  {
    var srv' := Run(cfg, otp, srv, actions);
    if actions == [] {
      assert srv'.issued[|srv.issued|..] == [];
    } else {
      var before, a := actions[..|actions| - 1], actions[|actions| - 1];
      RunUses(cfg, otp, srv, before);
      var mid := Run(cfg, otp, srv, before);
      var s := Totp.AfterReset(srv.world.key);
      RunAppend(otp, s, AllEvents(cfg, otp, srv, before), ActionEvents(cfg, mid, a));
      var uses := UsesIn(mid.issued[|srv.issued|..]);
      ActionUses(cfg, otp, mid, a, uses);
      UsesInAppend(mid.issued[|srv.issued|..], srv'.issued[|mid.issued|..]);
      assert srv'.issued[|srv.issued|..] == mid.issued[|srv.issued|..] + srv'.issued[|mid.issued|..];
    }
  }

  /** The codes that logged in since the given server state. */
  function UsesSince(cfg: Config, otp: Totp.Otp, srv: Server, actions: seq<Action>): seq<Totp.Use> {
    var issued := Run(cfg, otp, srv, actions).issued;
    if |issued| < |srv.issued| then [] else UsesIn(issued[|srv.issued|..])
  }

  /** MAIN RESULT. From a reset on, the counters of the codes that log in strictly increase. */
  lemma {:induction false} LoginCountersIncrease(cfg: Config, otp: Totp.Otp, srv: Server, actions: seq<Action>, i: nat, j: nat)
    requires srv.world.totp == None && forall a :: a in actions ==> !a.Resets?
    requires i < j < |UsesSince(cfg, otp, srv, actions)|
    ensures UsesSince(cfg, otp, srv, actions)[i].counter < UsesSince(cfg, otp, srv, actions)[j].counter
  {
    RunUses(cfg, otp, srv, actions);
    Totp.CountersIncrease(otp, srv.world.key, AllEvents(cfg, otp, srv, actions), i, j);
  }

  /** MAIN RESULT. Of the codes that log in one after the other from time t0 to t1 without a reset, there are at
  most floor(t1/30) - floor(t0/30) + 3. */
  lemma {:induction false} LoginCodesBounded(cfg: Config, otp: Totp.Otp, srv: Server, actions: seq<Action>,
                                             i: nat, j: nat, t0: int, t1: int)
    requires srv.world.totp == None && forall a :: a in actions ==> !a.Resets?
    requires i <= j <= |UsesSince(cfg, otp, srv, actions)| && t0 <= t1
    requires forall k :: i <= k < j ==> t0 <= UsesSince(cfg, otp, srv, actions)[k].at <= t1
    ensures j - i <= t1 / Totp.STEP - t0 / Totp.STEP + 3
  {
    RunUses(cfg, otp, srv, actions);
    Totp.UsesBounded(otp, srv.world.key, AllEvents(cfg, otp, srv, actions), i, j, t0, t1);
  }

  /** No visit and no restart changes a TOTP secret that is confirmed, or that still opens. */
  lemma {:induction false} SecretKept(cfg: Config, otp: Totp.Otp, srv: Server, a: Action)
    requires !a.Resets? && srv.world.totp.Some?
    requires Totp.Confirmed(srv.world.totp) || Totp.Open(srv.world.key, srv.world.totp.value.sealed).Some?
    ensures var w := Act(cfg, otp, srv, a).world;
            && w.totp.Some? && w.totp.value.sealed == srv.world.totp.value.sealed
            && (Totp.Confirmed(srv.world.totp) ==> Totp.Confirmed(w.totp))
            && w.key == if a.Restarts? then a.key else srv.world.key
  {
  }

  /** MAIN RESULT. Over every run without a reset a confirmed TOTP secret stays as it is, whatever keys the server is
  restarted with; and so does one that opens, as long as the key stays. */
  lemma {:induction false} SecretKeptInRun(cfg: Config, otp: Totp.Otp, srv: Server, actions: seq<Action>)
    requires srv.world.totp.Some? && forall a :: a in actions ==> !a.Resets?
    requires Totp.Confirmed(srv.world.totp)
             || (Totp.Open(srv.world.key, srv.world.totp.value.sealed).Some?
                 && forall a :: a in actions && a.Restarts? ==> a.key == srv.world.key)
    ensures var w := Run(cfg, otp, srv, actions).world;
            && w.totp.Some? && w.totp.value.sealed == srv.world.totp.value.sealed
            && (Totp.Confirmed(srv.world.totp) ==> Totp.Confirmed(w.totp))
            && (!Totp.Confirmed(srv.world.totp) ==> w.key == srv.world.key)
  {
    if actions != [] {
      var before, a := actions[..|actions| - 1], actions[|actions| - 1];
      assert a in actions && forall b :: b in before ==> b in actions;
      SecretKeptInRun(cfg, otp, srv, before);
      SecretKept(cfg, otp, Run(cfg, otp, srv, before), a);
    }
  }
}
