/** The login handlers as they are written: methods that clear and set the fields of a web session, and call
the limiter and the TOTP store. Each is proved to give the reply that AdminLogin defines. */
module AdminHandlers {
  import opened Wrappers
  import opened AdminLogin

  class WebSession {
    var user: Option<string>
    var pending: Option<PendingLogin>
    var lastActivity: Option<int>

    constructor (s: Session)
      ensures Value() == s
    {
      user, pending, lastActivity := s.user, s.pending, s.lastActivity;
    }

    function Value(): Session
      reads this
    {
      Session(user, pending, lastActivity)
    }

    method Clear()
      modifies this
      ensures Value() == EMPTY_SESSION
    {
      user, pending, lastActivity := None, None, None;
    }
  }

  class AdminConsole {
    const cfg: Config
    const limiter: Limiter.Limiter
    const totp: Totp.TotpStore

    constructor (cfg: Config, limiter: Limiter.Limiter, totp: Totp.TotpStore)
      requires limiter.limits == cfg.limits
      ensures this.cfg == cfg && this.limiter == limiter && this.totp == totp
    {
      this.cfg := cfg;
      this.limiter := limiter;
      this.totp := totp;
    }

    function Database(): World
      reads limiter, totp
    {
      World(limiter.attempts, totp.key, totp.row)
    }

    /** POST /admin/login */
    method LoginPost(session: WebSession, ip: string, at: int, stamp: int, done: int, username: string, password: string)
      returns (note: Note)
      requires limiter.limits == cfg.limits
      modifies session, limiter
      ensures Reply(Database(), session.Value(), note)
           == AdminLogin.LoginPost(cfg, old(Database()), old(session.Value()), ip, at, stamp, done, Password(username, password))
    {
      var banned, remaining := limiter.IsIpBanned(ip, at);
      if banned {
        return Blocked(remaining);
      }
      if username == cfg.user && password == cfg.password {
        if !cfg.twofa {
          limiter.ClearAttempts(ip);
          session.user := Some(username);
          session.lastActivity := Some(done / SECOND);
          return PasswordAccepted(username);
        }
        session.Clear();
        session.pending := Some(PendingLogin(username, done / SECOND));
        return PasswordAccepted(username);
      }
      limiter.RecordFailedAttempt(ip, stamp, done);
      return PasswordRejected;
    }

    method CompleteLogin(session: WebSession, user: string, done: int)
      modifies session
      ensures session.Value() == LoggedIn(user, done)
    {
      session.Clear();
      session.user := Some(user);
      session.lastActivity := Some(done / SECOND);
    }

    /** POST /admin/login/2fa */
    method TwofaSubmit(session: WebSession, ip: string, at: int, stamp: int, done: int, code: string) returns (note: Note)
      requires limiter.limits == cfg.limits
      modifies session, limiter, totp
      ensures Reply(Database(), session.Value(), note)
           == AdminLogin.TwofaSubmit(cfg, totp.otp, old(Database()), old(session.Value()), ip, at, stamp, done, code)
    {
      if !cfg.twofa {
        return Nothing;
      }
      var user := PendingUser(session.Value(), at);
      if user.None? {
        session.Clear();
        return Nothing;
      }
      if totp.row.None? || totp.row.value.confirmedAt.None? {
        return Nothing;
      }
      var banned, remaining := limiter.IsIpBanned(ip, at);
      if banned {
        return Blocked(remaining);
      }
      var verdict := totp.VerifyCode(code, done);
      match verdict {
        case Undecryptable => return Note.Undecryptable;
        case Refused =>
          limiter.RecordFailedAttempt(ip, stamp, done);
          return CodeRejected;
        case Accepted(counter) =>
          limiter.ClearAttempts(ip);
          CompleteLogin(session, user.value, done);
          return CodeAccepted(user.value, counter);
      }
    }

    /** GET /admin/login/setup */
    method SetupPage(session: WebSession, at: int, newSecret: string)
      modifies session, totp
      ensures Reply(Database(), session.Value(), Nothing)
           == AdminLogin.SetupGet(cfg, old(Database()), old(session.Value()), at, newSecret)
    {
      if !cfg.twofa {
        return;
      }
      if PendingUser(session.Value(), at).None? {
        session.Clear();
        return;
      }
      if totp.row.Some? && totp.row.value.confirmedAt.Some? {
        return;
      }
      var _ := totp.GetOrCreatePending(newSecret);
    }

    /** POST /admin/login/setup. The pending secret opens, so a code is always judged. */
    method SetupSubmit(session: WebSession, ip: string, at: int, stamp: int, done: int, code: string, newSecret: string)
      returns (note: Note)
      requires limiter.limits == cfg.limits
      modifies session, limiter, totp
      ensures Reply(Database(), session.Value(), note)
           == AdminLogin.SetupSubmit(cfg, totp.otp, old(Database()), old(session.Value()), ip, at, stamp, done, code, newSecret)
      ensures !note.Undecryptable?
    {
      if !cfg.twofa {
        return Nothing;
      }
      var user := PendingUser(session.Value(), at);
      if user.None? {
        session.Clear();
        return Nothing;
      }
      if totp.row.Some? && totp.row.value.confirmedAt.Some? {
        return Nothing;
      }
      var _ := totp.GetOrCreatePending(newSecret);
      var banned, remaining := limiter.IsIpBanned(ip, at);
      if banned {
        return Blocked(remaining);
      }
      var verdict := totp.VerifyCode(code, done);
      if !verdict.Accepted? {
        limiter.RecordFailedAttempt(ip, stamp, done);
        return CodeRejected;
      }
      limiter.ClearAttempts(ip);
      CompleteLogin(session, user.value, done);
      return CodeAccepted(user.value, verdict.counter);
    }

    /** POST /admin/logout */
    method DoLogout(session: WebSession)
      modifies session
      ensures session.Value() == EMPTY_SESSION
    {
      session.Clear();
    }

    /** The middleware in front of an admin page; true when the session has expired. */
    method SessionExpiry(session: WebSession, at: int) returns (expired: bool)
      modifies session
      ensures Reply(Database(), session.Value(), if expired then Expired else Nothing)
           == Guard(cfg, old(Database()), old(session.Value()), at)
    {
      if session.user.Some? && session.user.value != "" {
        var now := at / SECOND;
        if session.lastActivity.Some? && session.lastActivity.value != 0 && now - session.lastActivity.value > cfg.maxAge {
          session.Clear();
          return true;
        }
        session.lastActivity := Some(now);
      }
      return false;
    }
  }
}
