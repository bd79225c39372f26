/** The rate limiter under the administrator's login: which runs of visits keep its bound.

A password is checked for a ban before the database is asked for anything, so that its failure is stamped after the
check. The code forms ask for the TOTP row first: their failures are stamped with the start of that transaction, which
lies before the check. */
module AdminLimit {
  import opened AdminLogin
  import opened Wrappers
  import Limiter = RateLimiter
  import Totp = AdminTotp

  /** The rate limiter's view of a visit, if it is one of a submission. */
  function SubmissionOf(cfg: Config, otp: Totp.Otp, srv: Server, v: Visit): Option<Limiter.Submission> {
    match ReplyTo(cfg, otp, srv, v).note
    case PasswordRejected => Some(Limiter.Submission(v.ip, v.at, v.stamp, v.done, true))
    case CodeRejected => Some(Limiter.Submission(v.ip, v.at, v.stamp, v.done, true))
    case CodeAccepted(_, _) => Some(Limiter.Submission(v.ip, v.at, v.stamp, v.done, false))
    case PasswordAccepted(_) => if cfg.twofa then None else Some(Limiter.Submission(v.ip, v.at, v.stamp, v.done, false))
    case _ => None
  }

  function Submissions(cfg: Config, otp: Totp.Otp, srv: Server, actions: seq<Action>): seq<Limiter.Submission> {
    if actions == [] then []
    else
      var before, a := actions[..|actions| - 1], actions[|actions| - 1];
      WithSubmission(cfg, otp, Run(cfg, otp, srv, before), Submissions(cfg, otp, srv, before), a)
  }

  lemma {:induction false} VisitSubmits(cfg: Config, otp: Totp.Otp, srv: Server, v: Visit)
    ensures var sub := SubmissionOf(cfg, otp, srv, v);
            ReplyTo(cfg, otp, srv, v).world.attempts
              == if sub.Some? then Limiter.Submit(cfg.limits, srv.world.attempts, sub.value) else srv.world.attempts
  {
    hide Limiter.IsBanned, Limiter.RecordFailed, Limiter.Without, Totp.Judge, Totp.Pending, PendingUser;
  }

  /** Visits come one after the other, each checked and stamped before it is done. */
  ghost predicate OneAtATime(actions: seq<Action>) {
    && (forall i :: 0 <= i < |actions| && actions[i].Visits? ==> InTime(actions[i].visit))
    && (forall i, j :: 0 <= i < j < |actions| && actions[i].Visits? && actions[j].Visits? ==>
          actions[i].visit.done <= actions[j].visit.at && actions[i].visit.done <= actions[j].visit.stamp)
  }

  predicate InTime(v: Visit) {
    v.at <= v.done && v.stamp <= v.done
  }

  /** The submission is that of some visit, with its times. */
  ghost predicate VisitDone(actions: seq<Action>, s: Limiter.Submission) {
    exists i :: 0 <= i < |actions| && IsVisitOf(actions[i], s)
  }

  predicate IsVisitOf(a: Action, s: Limiter.Submission) {
    a.Visits? && a.visit.at == s.checkedAt && a.visit.stamp == s.stamp && a.visit.done == s.doneAt
  }

  lemma {:induction false} VisitDoneLater(actions: seq<Action>, a: Action, s: Limiter.Submission)
    requires VisitDone(actions, s)
    ensures VisitDone(actions + [a], s)
  {
    var i :| 0 <= i < |actions| && IsVisitOf(actions[i], s);
    assert (actions + [a])[i] == actions[i];
  }

  lemma {:induction false} SerialAppend(subs: seq<Limiter.Submission>, s: Limiter.Submission)
    requires Limiter.Serial(subs) && s.checkedAt <= s.doneAt && s.stamp <= s.doneAt
    requires forall q :: q in subs ==> q.doneAt <= s.checkedAt && q.doneAt <= s.stamp
    ensures Limiter.Serial(subs + [s])
  {
    var all := subs + [s];
    forall i, j | 0 <= i < j < |all|
      ensures all[i].doneAt <= all[j].checkedAt && all[i].doneAt <= all[j].stamp
    {
      assert all[i] == subs[i] && subs[i] in subs;
      assert j < |subs| ==> all[j] == subs[j];
    }
  }

  /** A submission of an earlier visit was done before a later visit began. */
  lemma {:induction false} DoneBefore(before: seq<Action>, a: Action, s: Limiter.Submission)
    requires OneAtATime(before + [a]) && a.Visits? && VisitDone(before, s)
    ensures s.doneAt <= a.visit.at && s.doneAt <= a.visit.stamp
  {
    var i :| 0 <= i < |before| && IsVisitOf(before[i], s);
    assert (before + [a])[i] == before[i] && (before + [a])[|before|] == a;
  }

  /** The table of failures is what the limiter makes of the run's submissions, taken serially. */
  ghost predicate SubmitsOk(limits: Limiter.Limits, attempts: Limiter.Table, subs: seq<Limiter.Submission>,
                            actions: seq<Action>) {
    && attempts == Limiter.Exec(limits, subs)
    && Limiter.Serial(subs)
    && (forall s :: s in subs ==> VisitDone(actions, s))
  }

  lemma {:induction false} SubmitsLater(limits: Limiter.Limits, attempts: Limiter.Table, subs: seq<Limiter.Submission>,
                                        before: seq<Action>, a: Action)
    requires SubmitsOk(limits, attempts, subs, before)
    ensures SubmitsOk(limits, attempts, subs, before + [a])
  {
    forall s | s in subs
      ensures VisitDone(before + [a], s)
    {
      VisitDoneLater(before, a, s);
    }
  }

  lemma {:induction false} SubmitsMore(cfg: Config, attempts: Limiter.Table, subs: seq<Limiter.Submission>,
                                       before: seq<Action>, v: Visit, s: Limiter.Submission)
    requires SubmitsOk(cfg.limits, attempts, subs, before) && OneAtATime(before + [Visits(v)])
    requires IsVisitOf(Visits(v), s)
    ensures SubmitsOk(cfg.limits, Limiter.Submit(cfg.limits, attempts, s), subs + [s], before + [Visits(v)])
  {
    var actions := before + [Visits(v)];
    assert actions[|before|] == Visits(v);
    SubmitsLater(cfg.limits, attempts, subs, before, Visits(v));
    forall q | q in subs
      ensures q.doneAt <= s.checkedAt && q.doneAt <= s.stamp
    {
      DoneBefore(before, Visits(v), q);
    }
    SubmitLast(cfg, subs, s);
    SerialAppend(subs, s);
    assert VisitDone(actions, s);
  }

  /** The submissions so far and the one of this action, if it makes one. */
  function WithSubmission(cfg: Config, otp: Totp.Otp, srv: Server, subs: seq<Limiter.Submission>, a: Action)
    : seq<Limiter.Submission>
  {
    if !a.Visits? then subs
    else
      match SubmissionOf(cfg, otp, srv, a.visit)
      case Some(s) => subs + [s]
      case None => subs
  }

  lemma {:induction false} ActionSubmits(cfg: Config, otp: Totp.Otp, srv: Server, subs: seq<Limiter.Submission>,
                                         before: seq<Action>, a: Action)
    requires SubmitsOk(cfg.limits, srv.world.attempts, subs, before) && OneAtATime(before + [a])
    ensures SubmitsOk(cfg.limits, Act(cfg, otp, srv, a).world.attempts, WithSubmission(cfg, otp, srv, subs, a), before + [a])
  {
    hide SubmitsOk, OneAtATime, SubmissionOf, ReplyTo;
    SubmitsLater(cfg.limits, srv.world.attempts, subs, before, a);
    if a.Visits? {
      VisitSubmits(cfg, otp, srv, a.visit);
      var sub := SubmissionOf(cfg, otp, srv, a.visit);
      if sub.Some? {
        SubmittedAt(cfg, otp, srv, a.visit);
        SubmitsMore(cfg, srv.world.attempts, subs, before, a.visit, sub.value);
      }
    }
  }

  lemma SubmittedAt(cfg: Config, otp: Totp.Otp, srv: Server, v: Visit)
    requires SubmissionOf(cfg, otp, srv, v).Some?
    ensures IsVisitOf(Visits(v), SubmissionOf(cfg, otp, srv, v).value)
  {
  }

  lemma OneAtATimeBefore(before: seq<Action>, a: Action)
    requires OneAtATime(before + [a])
    ensures OneAtATime(before)
  {
    assert forall i :: 0 <= i < |before| ==> (before + [a])[i] == before[i];
  }

  lemma {:induction false} RunSubmits(cfg: Config, otp: Totp.Otp, key: string, totp: Option<Totp.Row>, actions: seq<Action>)
    requires OneAtATime(actions)
    ensures var srv := FirstServer(key, totp);
            SubmitsOk(cfg.limits, Run(cfg, otp, srv, actions).world.attempts, Submissions(cfg, otp, srv, actions), actions)
  {
    if actions != [] {
      hide SubmitsOk, OneAtATime, SubmissionOf, Act;
      var first := FirstServer(key, totp);
      var before, a := actions[..|actions| - 1], actions[|actions| - 1];
      assert actions == before + [a];
      OneAtATimeBefore(before, a);
      RunSubmits(cfg, otp, key, totp, before);
      ActionSubmits(cfg, otp, Run(cfg, otp, first, before), Submissions(cfg, otp, first, before), before, a);
    }
  }

  lemma {:induction false} SubmitLast(cfg: Config, subs: seq<Limiter.Submission>, s: Limiter.Submission)
    ensures Limiter.Exec(cfg.limits, subs + [s]) == Limiter.Submit(cfg.limits, Limiter.Exec(cfg.limits, subs), s)
  {
    assert (subs + [s])[..|subs|] == subs;
  }

  // Stamps ------------------------------------------------------------------------------------------

  /** No visit is stamped before its check but that of a code form, and that by at most `lag`. */
  ghost predicate StampsFit(actions: seq<Action>, lag: nat) {
    forall a :: a in actions && a.Visits? ==> StampFits(a.visit, lag)
  }

  predicate StampFits(v: Visit, lag: nat) {
    v.at - (if v.form.Password? then 0 else lag) <= v.stamp
  }

  /** A code can come with the cookie of an earlier moment: the second factor is on, a login can be pending, and cookies
  are good for some time. */
  predicate CodesReach(cfg: Config) {
    cfg.twofa && cfg.user != "" && cfg.maxAge > 0
  }

  /** Only the configured user's login is ever pending, and every cookie was issued by a visit of the run. */
  ghost predicate CookiesOf(cfg: Config, issued: seq<Issued>, actions: seq<Action>) {
    forall c :: c in issued ==>
      && (c.session.pending.Some? ==> c.session.pending.value.user == cfg.user)
      && exists i :: 0 <= i < |actions| && actions[i].Visits? && actions[i].visit.done == c.done
  }

  lemma PendingIsUser(cfg: Config, otp: Totp.Otp, w: World, s: Session, v: Visit)
    requires s.pending.Some? ==> s.pending.value.user == cfg.user
    ensures var r := Handle(cfg, otp, w, s, v.ip, v.at, v.stamp, v.done, v.form);
            r.session.pending.Some? ==> r.session.pending.value.user == cfg.user
  {
    hide Limiter.IsBanned, Limiter.RecordFailed, Limiter.Without, Totp.Judge, Totp.Pending;
  }

  lemma {:induction false} RunCookiesOf(cfg: Config, otp: Totp.Otp, key: string, totp: Option<Totp.Row>, actions: seq<Action>)
    ensures CookiesOf(cfg, Run(cfg, otp, FirstServer(key, totp), actions).issued, actions)
  {
    if actions != [] {
      var before, a := actions[..|actions| - 1], actions[|actions| - 1];
      RunCookiesOf(cfg, otp, key, totp, before);
      CookiesOfNext(cfg, otp, Run(cfg, otp, FirstServer(key, totp), before), before, a);
      assert actions == before + [a];
    }
  }

  lemma {:induction false} CookiesOfNext(cfg: Config, otp: Totp.Otp, srv: Server, before: seq<Action>, a: Action)
    requires CookiesOf(cfg, srv.issued, before)
    ensures CookiesOf(cfg, Act(cfg, otp, srv, a).issued, before + [a])
  {
    var actions, issued := before + [a], Act(cfg, otp, srv, a).issued;
    if a.Visits? {
      PendingIsUser(cfg, otp, srv.world, SessionOf(cfg, srv, a.visit), a.visit);
    }
    hide Handle;
    forall c | c in issued
      ensures c.session.pending.Some? ==> c.session.pending.value.user == cfg.user
      ensures exists i :: 0 <= i < |actions| && actions[i].Visits? && actions[i].visit.done == c.done
    {
      if c in srv.issued {
        var i :| 0 <= i < |before| && before[i].Visits? && before[i].visit.done == c.done;
        assert actions[i] == before[i];
      } else {
        assert actions[|before|] == a;
      }
    }
  }

  /** A submission that reaches the ban check is stamped after it, unless codes can come with an earlier cookie. */
  lemma {:induction false} SubmissionOnTime(cfg: Config, otp: Totp.Otp, srv: Server, v: Visit, lag: nat)
    requires SubmissionOf(cfg, otp, srv, v).Some? && StampFits(v, lag)
    requires forall c :: c in srv.issued ==>
               (c.session.pending.Some? ==> c.session.pending.value.user == cfg.user) && c.done <= v.stamp
    requires lag == 0 || !CodesReach(cfg)
    ensures v.at <= v.stamp
  {
    if lag > 0 && !v.form.Password? {
      CodeNeedsPending(cfg, otp, srv, v);
      var p := Presented(cfg, srv, v);
      assert srv.issued[p.value] in srv.issued;
      assert v.at - srv.issued[p.value].done <= cfg.maxAge * SECOND;
    }
  }

  /** Apart from passwords only codes are submissions, with the second factor on and a login pending. */
  lemma CodeNeedsPending(cfg: Config, otp: Totp.Otp, srv: Server, v: Visit)
    requires SubmissionOf(cfg, otp, srv, v).Some? && !v.form.Password?
    ensures cfg.twofa && PendingUser(SessionOf(cfg, srv, v), v.at).Some?
  {
    hide Limiter.IsBanned, Limiter.RecordFailed, Limiter.Without, Totp.Judge, Totp.Pending, PendingUser;
  }

  lemma {:induction false} RunOnTime(cfg: Config, otp: Totp.Otp, key: string, totp: Option<Totp.Row>,
                                     actions: seq<Action>, lag: nat)
    requires OneAtATime(actions) && StampsFit(actions, lag) && (lag == 0 || !CodesReach(cfg))
    ensures forall s :: s in Submissions(cfg, otp, FirstServer(key, totp), actions) ==> s.checkedAt <= s.stamp
  {
    if actions != [] {
      var before, a := actions[..|actions| - 1], actions[|actions| - 1];
      assert actions == before + [a];
      OneAtATimeBefore(before, a);
      assert a in actions && forall b :: b in before ==> b in actions;
      RunOnTime(cfg, otp, key, totp, before, lag);
      hide SubmissionOf, OneAtATime, CodesReach, CookiesOf;
      var srv := Run(cfg, otp, FirstServer(key, totp), before);
      RunCookiesOf(cfg, otp, key, totp, before);
      if a.Visits? && SubmissionOf(cfg, otp, srv, a.visit).Some? {
        CookiesEarlier(cfg, srv.issued, before, a.visit);
        SubmissionOnTime(cfg, otp, srv, a.visit, lag);
        SubmittedAt(cfg, otp, srv, a.visit);
      }
    }
  }

  /** Every cookie was issued before the next visit's transaction began. */
  lemma {:induction false} CookiesEarlier(cfg: Config, issued: seq<Issued>, before: seq<Action>, v: Visit)
    requires CookiesOf(cfg, issued, before) && OneAtATime(before + [Visits(v)])
    ensures forall c :: c in issued ==>
              (c.session.pending.Some? ==> c.session.pending.value.user == cfg.user) && c.done <= v.stamp
  {
    var actions := before + [Visits(v)];
    forall c | c in issued ensures c.done <= v.stamp {
      var i :| 0 <= i < |before| && before[i].Visits? && before[i].visit.done == c.done;
      assert actions[i] == before[i] && actions[|before|] == Visits(v);
    }
  }

  /** Over every run of password, code and setup submissions, no closed span of one window length holds more than the
  allowed number of stored failures of one address, if the ban is long enough and no failure can be stamped early or the
  window is at least the day that failures are kept. */
  lemma {:induction false} LoginWithinLimit(cfg: Config, otp: Totp.Otp, key: string, totp: Option<Totp.Row>,
                                            actions: seq<Action>, lag: nat)
    requires OneAtATime(actions) && StampsFit(actions, lag)
    requires cfg.limits.max >= 1 && cfg.limits.ban > Limiter.Min(cfg.limits.window, Limiter.DAY)
    requires cfg.limits.window >= Limiter.DAY || lag == 0 || !CodesReach(cfg)
    ensures Limiter.WithinLimit(cfg.limits, Run(cfg, otp, FirstServer(key, totp), actions).world.attempts)
  {
    var subs := Submissions(cfg, otp, FirstServer(key, totp), actions);
    RunSubmits(cfg, otp, key, totp, actions);
    if cfg.limits.window < Limiter.DAY {
      RunOnTime(cfg, otp, key, totp, actions, lag);
    }
    Limiter.RunKeepsLimit(cfg.limits, subs);
  }

  // Runs that break it otherwise ------------------------------------------------------------------------

  function Guess(cfg: Config, ip: string, at: int): Action {
    Visits(Visit(None, ip, at, at, at, Password(cfg.user + "x", cfg.password)))
  }

  /** Wrong passwords from one address at time 0. */
  function Guesses(cfg: Config, n: nat, ip: string): seq<Action> {
    seq(n, _ => Guess(cfg, ip, 0))
  }

  lemma OneMoreAction(cfg: Config, otp: Totp.Otp, srv: Server, actions: seq<Action>, a: Action)
    ensures Run(cfg, otp, srv, actions + [a]) == Act(cfg, otp, Run(cfg, otp, srv, actions), a)
  {
    assert (actions + [a])[..|actions|] == actions;
  }

  lemma GuessFails(cfg: Config, otp: Totp.Otp, srv: Server, ip: string, at: int)
    requires !Limiter.IsBanned(cfg.limits, srv.world.attempts, ip, at).0
    ensures var srv' := Act(cfg, otp, srv, Guess(cfg, ip, at));
            && srv'.world == srv.world.(attempts := Limiter.RecordFailed(srv.world.attempts, ip, at, at))
            && |srv'.issued| == |srv.issued| + 1
  {
    assert |cfg.user + "x"| == |cfg.user| + 1;
  }

  lemma FloodMore(lim: Limiter.Limits, n: nat, ip: string)
    requires n < lim.max && lim.window >= 0
    ensures !Limiter.IsBanned(lim, Limiter.Flood(n, ip), ip, 0).0
    ensures Limiter.RecordFailed(Limiter.Flood(n, ip), ip, 0, 0) == Limiter.Flood(n + 1, ip)
  {
    Limiter.FloodCount(n, ip, -lim.window);
    Limiter.FloodGrows(lim, n, ip);
  }

  lemma {:induction false} GuessesFlood(cfg: Config, otp: Totp.Otp, key: string, totp: Option<Totp.Row>, n: nat, ip: string)
    requires n <= cfg.limits.max && cfg.limits.window >= 0
    ensures var srv := Run(cfg, otp, FirstServer(key, totp), Guesses(cfg, n, ip));
            srv.world == World(Limiter.Flood(n, ip), key, totp) && |srv.issued| == n
  {
    if n > 0 {
      hide Act, Limiter.IsBanned, Limiter.RecordFailed;
      GuessesFlood(cfg, otp, key, totp, n - 1, ip);
      assert Guesses(cfg, n, ip) == Guesses(cfg, n - 1, ip) + [Guess(cfg, ip, 0)];
      OneMoreAction(cfg, otp, FirstServer(key, totp), Guesses(cfg, n - 1, ip), Guess(cfg, ip, 0));
      FloodMore(cfg.limits, n - 1, ip);
      GuessFails(cfg, otp, Run(cfg, otp, FirstServer(key, totp), Guesses(cfg, n - 1, ip)), ip, 0);
    }
  }

  lemma {:induction false} OneMoreVisit(actions: seq<Action>, v: Visit, lag: nat)
    requires OneAtATime(actions) && StampsFit(actions, lag) && InTime(v) && StampFits(v, lag)
    requires forall a :: a in actions && a.Visits? ==> a.visit.done <= v.at && a.visit.done <= v.stamp
    ensures OneAtATime(actions + [Visits(v)]) && StampsFit(actions + [Visits(v)], lag)
  {
    var all := actions + [Visits(v)];
    forall i, j | 0 <= i < j < |all| && all[i].Visits? && all[j].Visits?
      ensures all[i].visit.done <= all[j].visit.at && all[i].visit.done <= all[j].visit.stamp
    {
      assert all[i] == actions[i] && actions[i] in actions;
      assert j < |actions| ==> all[j] == actions[j];
    }
  }

  /** As many wrong passwords as are allowed, and one more when their ban has ended. */
  function ShortBanRun(cfg: Config, ip: string): seq<Action>
    requires cfg.limits.max >= 0
  {
    Guesses(cfg, cfg.limits.max, ip) + [Guess(cfg, ip, if cfg.limits.ban > 0 then cfg.limits.ban else 0)]
  }

  lemma {:induction false} ShortBanLogin(cfg: Config, otp: Totp.Otp, key: string, totp: Option<Totp.Row>, lag: nat, ip: string)
    requires cfg.limits.max >= 1 && cfg.limits.window >= 0
    requires cfg.limits.ban <= Limiter.Min(cfg.limits.window, Limiter.DAY)
    ensures OneAtATime(ShortBanRun(cfg, ip)) && StampsFit(ShortBanRun(cfg, ip), lag)
    ensures !Limiter.WithinLimit(cfg.limits, Run(cfg, otp, FirstServer(key, totp), ShortBanRun(cfg, ip)).world.attempts)
  {
    var n, end := cfg.limits.max, if cfg.limits.ban > 0 then cfg.limits.ban else 0;
    OneMoreVisit(Guesses(cfg, n, ip), Guess(cfg, ip, end).visit, lag);
    hide OneAtATime, StampsFit, Act;
    GuessesFlood(cfg, otp, key, totp, n, ip);
    OneMoreAction(cfg, otp, FirstServer(key, totp), Guesses(cfg, n, ip), Guess(cfg, ip, end));
    Limiter.FloodLast(n, ip);
    GuessFails(cfg, otp, Run(cfg, otp, FirstServer(key, totp), Guesses(cfg, n, ip)), ip, end);
    Limiter.FloodAndOne(cfg.limits, ip, end, end);
  }

  /** A code that is none. */
  function NoCode(totp: Option<Totp.Row>): Form {
    if Totp.Confirmed(totp) then Code("") else SetupCode("", "")
  }

  /** As many wrong passwords from one address as are allowed; the right password from another when their window ends; and
  just after it, from the first, a wrong code with that login's cookie, which is stamped with the window's end. */
  function EarlyCodeRun(cfg: Config, totp: Option<Totp.Row>, ip: string, other: string): seq<Action>
    requires cfg.limits.max >= 0
  {
    var n, w := cfg.limits.max, cfg.limits.window;
    Guesses(cfg, n, ip) + [Visits(Visit(None, other, w, w, w, Password(cfg.user, cfg.password)))]
                        + [Visits(Visit(Some(n), ip, w + 1, w, w + 1, NoCode(totp)))]
  }

  lemma {:induction false} EarlyCodeBreaks(cfg: Config, otp: Totp.Otp, key: string, totp: Option<Totp.Row>, lag: nat,
                                           ip: string, other: string)
    requires cfg.limits.max >= 1 && 0 <= cfg.limits.window < Limiter.DAY && lag >= 1 && CodesReach(cfg) && ip != other
    ensures OneAtATime(EarlyCodeRun(cfg, totp, ip, other)) && StampsFit(EarlyCodeRun(cfg, totp, ip, other), lag)
    ensures !Limiter.WithinLimit(cfg.limits,
                                 Run(cfg, otp, FirstServer(key, totp), EarlyCodeRun(cfg, totp, ip, other)).world.attempts)
  {
    EarlyCodeInTime(cfg, totp, lag, ip, other);
    EarlyCodeStored(cfg, otp, key, totp, ip, other);
    Limiter.FloodAndOne(cfg.limits, ip, cfg.limits.window + 1, cfg.limits.window);
  }

  lemma {:induction false} EarlyCodeInTime(cfg: Config, totp: Option<Totp.Row>, lag: nat, ip: string, other: string)
    requires cfg.limits.max >= 0 && cfg.limits.window >= 0 && lag >= 1
    ensures OneAtATime(EarlyCodeRun(cfg, totp, ip, other)) && StampsFit(EarlyCodeRun(cfg, totp, ip, other), lag)
  {
    var n, w := cfg.limits.max, cfg.limits.window;
    var right := Visit(None, other, w, w, w, Password(cfg.user, cfg.password));
    OneMoreVisit(Guesses(cfg, n, ip), right, lag);
    OneMoreVisit(Guesses(cfg, n, ip) + [Visits(right)], Visit(Some(n), ip, w + 1, w, w + 1, NoCode(totp)), lag);
  }

  lemma RightPassword(cfg: Config, otp: Totp.Otp, srv: Server, v: Visit)
    requires v.form == Password(cfg.user, cfg.password) && cfg.twofa
    requires !Limiter.IsBanned(cfg.limits, srv.world.attempts, v.ip, v.at).0
    ensures var srv' := Act(cfg, otp, srv, Visits(v));
            && srv'.world == srv.world && |srv'.issued| == |srv.issued| + 1
            && var c := srv'.issued[|srv.issued|];
               c.session == Session(None, Some(PendingLogin(cfg.user, v.done / SECOND)), None)
               && c.key == srv.world.key && c.done == v.done
  {
  }

  lemma WrongCode(cfg: Config, otp: Totp.Otp, srv: Server, v: Visit)
    requires v.form == NoCode(srv.world.totp) && CodesReach(cfg) && v.cookie.Some? && v.cookie.value < |srv.issued|
    requires var c := srv.issued[v.cookie.value];
             && c.session == Session(None, Some(PendingLogin(cfg.user, c.done / SECOND)), None)
             && c.key == srv.world.key && c.done <= v.at <= c.done + 1
    requires !Limiter.IsBanned(cfg.limits, srv.world.attempts, v.ip, v.at).0
    ensures Act(cfg, otp, srv, Visits(v)).world.attempts == Limiter.RecordFailed(srv.world.attempts, v.ip, v.stamp, v.done)
  {
    hide Limiter.IsBanned, Limiter.RecordFailed;
    assert Presented(cfg, srv, v) == v.cookie;
    assert PendingUser(SessionOf(cfg, srv, v), v.at) == Some(cfg.user);
  }

  /** After the right password the failures are all there, and its cookie is the next one. */
  lemma {:induction false} EarlyPassword(cfg: Config, otp: Totp.Otp, key: string, totp: Option<Totp.Row>, ip: string, v: Visit)
    requires cfg.limits.max >= 1 && cfg.limits.window >= 0 && CodesReach(cfg) && v.ip != ip
    requires v.form == Password(cfg.user, cfg.password)
    ensures var srv := Run(cfg, otp, FirstServer(key, totp), Guesses(cfg, cfg.limits.max, ip) + [Visits(v)]);
            && srv.world == World(Limiter.Flood(cfg.limits.max, ip), key, totp) && |srv.issued| == cfg.limits.max + 1
            && var c := srv.issued[cfg.limits.max];
               c.session == Session(None, Some(PendingLogin(cfg.user, v.done / SECOND)), None) && c.key == key && c.done == v.done
  {
    var n, first := cfg.limits.max, FirstServer(key, totp);
    Limiter.FloodOthers(n, ip, v.ip, v.at - cfg.limits.window);
    GuessesFlood(cfg, otp, key, totp, n, ip);
    OneMoreAction(cfg, otp, first, Guesses(cfg, n, ip), Visits(v));
    hide Run, Act, Guesses, Limiter.Flood;
    RightPassword(cfg, otp, Run(cfg, otp, first, Guesses(cfg, n, ip)), v);
  }

  lemma {:induction false} EarlyCodeStored(cfg: Config, otp: Totp.Otp, key: string, totp: Option<Totp.Row>,
                                           ip: string, other: string)
    requires cfg.limits.max >= 1 && 0 <= cfg.limits.window && CodesReach(cfg) && ip != other
    ensures Run(cfg, otp, FirstServer(key, totp), EarlyCodeRun(cfg, totp, ip, other)).world.attempts
         == Limiter.RecordFailed(Limiter.Flood(cfg.limits.max, ip), ip, cfg.limits.window, cfg.limits.window + 1)
  {
    var n, w := cfg.limits.max, cfg.limits.window;
    var right := Visit(None, other, w, w, w, Password(cfg.user, cfg.password));
    var code := Visit(Some(n), ip, w + 1, w, w + 1, NoCode(totp));
    var before := Guesses(cfg, n, ip) + [Visits(right)];
    Limiter.FloodCount(n, ip, 1);
    assert EarlyCodeRun(cfg, totp, ip, other) == before + [Visits(code)];
    hide Run, Act, Guesses, EarlyCodeRun, CodesReach, NoCode, Limiter.Flood, Limiter.RecordFailed;
    EarlyPassword(cfg, otp, key, totp, ip, right);
    OneMoreAction(cfg, otp, FirstServer(key, totp), before, Visits(code));
    WrongCode(cfg, otp, Run(cfg, otp, FirstServer(key, totp), before), code);
  }

  /** MAIN RESULT. In all runs of visits whose code forms are stamped at most `lag` before their checks, the bound on stored
  failures holds if and only if the window is negative, or the ban is longer than the window or than the day that failures
  are kept and, besides, no failure can be stamped early or the window is at least that day. */
  lemma {:induction false} LoginBoundIff(cfg: Config, otp: Totp.Otp, key: string, totp: Option<Totp.Row>, lag: nat)
    requires cfg.limits.max >= 1
    ensures (forall actions :: OneAtATime(actions) && StampsFit(actions, lag) ==>
               Limiter.WithinLimit(cfg.limits, Run(cfg, otp, FirstServer(key, totp), actions).world.attempts))
            <==> cfg.limits.window < 0
                 || (cfg.limits.ban > Limiter.Min(cfg.limits.window, Limiter.DAY)
                     && (cfg.limits.window >= Limiter.DAY || lag == 0 || !CodesReach(cfg)))
  {
    hide OneAtATime, StampsFit, Run, Limiter.WithinLimit;
    if cfg.limits.window < 0 {
      forall actions ensures Limiter.WithinLimit(cfg.limits, Run(cfg, otp, FirstServer(key, totp), actions).world.attempts) {
        Limiter.NoWindow(cfg.limits, Run(cfg, otp, FirstServer(key, totp), actions).world.attempts);
      }
    } else if cfg.limits.ban <= Limiter.Min(cfg.limits.window, Limiter.DAY) {
      ShortBanLogin(cfg, otp, key, totp, lag, "192.0.2.1");
    } else if cfg.limits.window >= Limiter.DAY || lag == 0 || !CodesReach(cfg) {
      forall actions | OneAtATime(actions) && StampsFit(actions, lag)
        ensures Limiter.WithinLimit(cfg.limits, Run(cfg, otp, FirstServer(key, totp), actions).world.attempts)
      {
        LoginWithinLimit(cfg, otp, key, totp, actions, lag);
      }
    } else {
      EarlyCodeBreaks(cfg, otp, key, totp, lag, "192.0.2.1", "192.0.2.2");
    }
  }
}
