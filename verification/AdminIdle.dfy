/** Idle expiry over whole runs: what a page that is served to a user says about the time since the session was last
stamped, with cookies presented again in any order. */
module AdminIdle {
  import opened AdminLogin
  import opened Wrappers

  /** A session that the middleware takes for a user's. */
  predicate HasUser(s: Session) {
    s.user.Some? && s.user.value != ""
  }

  /** The middleware lets a user's session through exactly while it has been idle no longer than allowed; a stamp that
  is missing or zero counts as none. */
  lemma PassesIff(cfg: Config, w: World, s: Session, at: int)
    requires HasUser(s)
    ensures Guard(cfg, w, s, at).session.user == s.user <==>
            s.lastActivity.None? || s.lastActivity.value == 0 || at / SECOND - s.lastActivity.value <= cfg.maxAge
  {
  }

  /** The reply set the stamp: at a login to the second it was done, at an admin page to that of the visit. */
  predicate Stamps(c: Issued) {
    && HasUser(c.session) && c.session.lastActivity.Some?
    && (((c.note.PasswordAccepted? || c.note.CodeAccepted?) && c.session.lastActivity.value == c.done / SECOND)
        || (c.page && c.session.lastActivity.value == c.at / SECOND))
  }

  /** Cookie `k` has its user and its stamp from reply `j`. */
  ghost predicate StampedBy(issued: seq<Issued>, j: nat, k: nat) {
    && Descends(issued, j, k) && j < |issued| && Stamps(issued[j])
    && issued[j].session.user == issued[k].session.user
    && issued[j].session.lastActivity == issued[k].session.lastActivity
  }

  ghost predicate CookieStamped(issued: seq<Issued>, k: nat)
    requires k < |issued|
  {
    HasUser(issued[k].session) ==> exists j: nat :: StampedBy(issued, j, k)
  }

  /** Reply `j` came earlier in the line of cookies of reply `k`, stamped the session of the same user, and at `k` the
  session had been idle since then no longer than allowed. */
  ghost predicate ActiveSince(cfg: Config, issued: seq<Issued>, j: nat, k: nat) {
    && j < k < |issued| && Descends(issued, j, k) && Stamps(issued[j])
    && issued[j].session.user == issued[k].session.user
    && (issued[k].at / SECOND - issued[j].session.lastActivity.value <= cfg.maxAge
        || issued[j].session.lastActivity.value == 0)
  }

  ghost predicate PageOk(cfg: Config, issued: seq<Issued>, k: nat)
    requires k < |issued|
  {
    issued[k].page && HasUser(issued[k].session) ==> exists j: nat :: ActiveSince(cfg, issued, j, k)
  }

  ghost predicate AllOk(cfg: Config, issued: seq<Issued>) {
    forall k :: 0 <= k < |issued| ==> CookieStamped(issued, k) && PageOk(cfg, issued, k)
  }

  /** What a handler does to the user and the stamp of a session. */
  lemma {:induction false} StampEffects(cfg: Config, otp: Totp.Otp, w: World, s: Session, ip: string, at: int, stamp: int,
                                        done: int, f: Form)
    ensures var r := Handle(cfg, otp, w, s, ip, at, stamp, done, f);
            HasUser(r.session) ==>
              || (!f.AdminPage? && r.session.user == s.user && r.session.lastActivity == s.lastActivity)
              || ((r.note.PasswordAccepted? || r.note.CodeAccepted?) && !f.AdminPage?
                  && r.session.lastActivity == Some(done / SECOND))
              || (f.AdminPage? && r.session.user == s.user && r.session.lastActivity == Some(at / SECOND))
  {
    hide Limiter.IsBanned, Totp.Judge;
  }

  lemma {:induction false} OkLater(cfg: Config, issued: seq<Issued>, c: Issued, k: nat)
    requires k < |issued| && CookieStamped(issued, k) && PageOk(cfg, issued, k)
    ensures CookieStamped(issued + [c], k) && PageOk(cfg, issued + [c], k)
  {
    var all := issued + [c];
    assert all[k] == issued[k];
    if HasUser(issued[k].session) {
      var j: nat :| StampedBy(issued, j, k);
      DescendsLater(issued, [c], j, k);
      assert StampedBy(all, j, k);
      if issued[k].page {
        var i: nat :| ActiveSince(cfg, issued, i, k);
        DescendsLater(issued, [c], i, k);
        assert ActiveSince(cfg, all, i, k);
      }
    }
  }

  /** The new cookie carries on the stamp of the one presented, or stamps the session itself. */
  lemma {:induction false} NewCookie(cfg: Config, all: seq<Issued>, k: nat, w: World)
    requires |all| == k + 1 && HasUser(all[k].session)
    requires all[k].parent.Some? ==> all[k].parent.value < k && CookieStamped(all, all[k].parent.value)
    requires Stamps(all[k]) || (all[k].parent.Some? && !all[k].page
               && all[k].session.user == all[all[k].parent.value].session.user
               && all[k].session.lastActivity == all[all[k].parent.value].session.lastActivity)
    requires all[k].page ==> (all[k].parent.Some? && HasUser(all[all[k].parent.value].session)
               && all[k].session == Guard(cfg, w, all[all[k].parent.value].session, all[k].at).session)
    ensures CookieStamped(all, k) && PageOk(cfg, all, k)
  {
    if Stamps(all[k]) {
      assert Descends(all, k, k);
      assert StampedBy(all, k, k);
    } else {
      var j: nat :| StampedBy(all, j, all[k].parent.value);
      assert Descends(all, j, k);
      assert StampedBy(all, j, k);
    }
    if all[k].page {
      var p := all[k].parent.value;
      var j: nat :| StampedBy(all, j, p);
      DescendsBound(all, j, p);
      assert Descends(all, j, k);
      PassesIff(cfg, w, all[p].session, all[k].at);
      assert ActiveSince(cfg, all, j, k);
    }
  }

  lemma {:induction false} VisitOk(cfg: Config, otp: Totp.Otp, srv: Server, v: Visit)
    requires AllOk(cfg, srv.issued)
    ensures AllOk(cfg, Act(cfg, otp, srv, Visits(v)).issued)
  {
    var s, p, r := SessionOf(cfg, srv, v), Presented(cfg, srv, v), ReplyTo(cfg, otp, srv, v);
    var c := Issued(r.session, srv.world.key, v.at, v.done, p, r.note, v.form.AdminPage?);
    var all, n := srv.issued + [c], |srv.issued|;
    StampEffects(cfg, otp, srv.world, s, v.ip, v.at, v.stamp, v.done, v.form);
    forall k | 0 <= k < n ensures CookieStamped(all, k) && PageOk(cfg, all, k) {
      OkLater(cfg, srv.issued, c, k);
    }
    if HasUser(r.session) {
      hide Descends;
      NewCookie(cfg, all, n, srv.world);
    }
  }

  lemma {:induction false} RunOk(cfg: Config, otp: Totp.Otp, key: string, totp: Option<Totp.Row>, actions: seq<Action>)
    ensures AllOk(cfg, Run(cfg, otp, FirstServer(key, totp), actions).issued)
  {
    if actions != [] {
      var before, a := actions[..|actions| - 1], actions[|actions| - 1];
      RunOk(cfg, otp, key, totp, before);
      if a.Visits? {
        VisitOk(cfg, otp, Run(cfg, otp, FirstServer(key, totp), before), a.visit);
      }
    }
  }

  /** MAIN RESULT. In every run, with cookies presented again in any order, an admin page is served to a user only if an
  earlier reply in the same line of cookies, a login or an admin page, stamped that user's session at most the session
  age before; a stamp of zero, which the program takes for none, aside. */
  lemma {:induction false} ServedWithinIdleTime(cfg: Config, otp: Totp.Otp, key: string, totp: Option<Totp.Row>,
                                                actions: seq<Action>, k: nat)
    requires k < |Run(cfg, otp, FirstServer(key, totp), actions).issued|
    requires Run(cfg, otp, FirstServer(key, totp), actions).issued[k].page
    requires HasUser(Run(cfg, otp, FirstServer(key, totp), actions).issued[k].session)
    ensures exists j: nat :: ActiveSince(cfg, Run(cfg, otp, FirstServer(key, totp), actions).issued, j, k)
  {
    RunOk(cfg, otp, key, totp, actions);
    assert PageOk(cfg, Run(cfg, otp, FirstServer(key, totp), actions).issued, k);
  }
}
