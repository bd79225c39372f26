/** The login rate limiter: failed attempts per address, a ban after too many in a sliding window, and the
pruning of old rows. Times are in microseconds, on one clock. The database stamps an attempt itself, with the start
of its transaction, which may lie before the check for a ban. */
module RateLimiter {
  import opened Wrappers

  const MINUTE := 60_000_000
  const DAY := 1440 * MINUTE

  datatype Limits = Limits(max: int, ban: int, window: int)

  datatype Attempt = Attempt(ip: string, at: int)

  type Table = seq<Attempt>

  /** Attempts of one address at or after a time. */
  function Count(t: Table, ip: string, since: int): nat {
    if t == [] then 0
    else
      var a := t[|t| - 1];
      Count(t[..|t| - 1], ip, since) + if a.ip == ip && a.at >= since then 1 else 0
  }

  /** Attempts of one address in a closed span. */
  function Span(t: Table, ip: string, lo: int, hi: int): nat {
    if t == [] then 0
    else
      var a := t[|t| - 1];
      Span(t[..|t| - 1], ip, lo, hi) + if a.ip == ip && lo <= a.at <= hi then 1 else 0
  }

  /** The latest attempt of one address. */
  function LastAt(t: Table, ip: string): Option<int> {
    if t == [] then None
    else
      var a := t[|t| - 1];
      var last := LastAt(t[..|t| - 1], ip);
      if a.ip == ip && (last.None? || a.at >= last.value) then Some(a.at) else last
  }

  /** Banned or not, and the whole minutes left, at least one. */
  function IsBanned(lim: Limits, t: Table, ip: string, now: int): (bool, int) {
    if Count(t, ip, now - lim.window) < lim.max then (false, 0)
    else
      match LastAt(t, ip)
      case None => (false, 0)
      case Some(last) =>
        if now < last + lim.ban then
          var left := (last + lim.ban - now) / MINUTE;
          (true, if left > 1 then left else 1)
        else (false, 0)
  }

  function Since(t: Table, cutoff: int): Table {
    if t == [] then []
    else
      var a := t[|t| - 1];
      var kept := Since(t[..|t| - 1], cutoff);
      if a.at >= cutoff then kept + [a] else kept
  }

  function Without(t: Table, ip: string): Table {
    if t == [] then []
    else
      var a := t[|t| - 1];
      var kept := Without(t[..|t| - 1], ip);
      if a.ip != ip then kept + [a] else kept
  }

  /** A new failure under the database's stamp, and the removal of everything older than a day. */
  function RecordFailed(t: Table, ip: string, stamp: int, now: int): Table {
    Since(t + [Attempt(ip, stamp)], now - DAY)
  }

  /** The attempt times of one address, in the order of storage. */
  function Times(t: Table, ip: string): seq<int> {
    if t == [] then []
    else
      var rest := Times(t[..|t| - 1], ip);
      if t[|t| - 1].ip == ip then rest + [t[|t| - 1].at] else rest
  }

  /** Some of the rows, in their order. */
  predicate SubTable(s: Table, t: Table) {
    s == [] || (t != [] && SubTable(if s[|s| - 1] == t[|t| - 1] then s[..|s| - 1] else s, t[..|t| - 1]))
  }

  class Limiter {
    const limits: Limits
    var attempts: Table

    constructor (limits: Limits)
      ensures this.limits == limits && attempts == []
    {
      this.limits := limits;
      attempts := [];
    }

    method IsIpBanned(ip: string, now: int) returns (banned: bool, minutes: int)
      ensures (banned, minutes) == IsBanned(limits, attempts, ip, now)
      ensures banned <==> minutes >= 1
    {
      var failed := Count(attempts, ip, now - limits.window);
      if failed >= limits.max {
        var last := LastAt(attempts, ip);
        if last.Some? {
          var expiry := last.value + limits.ban;
          if now < expiry {
            var remaining := (expiry - now) / MINUTE;
            return true, if remaining > 1 then remaining else 1;
          }
        }
      }
      return false, 0;
    }

    /** Afterwards the table has the new attempt and the old ones of the last day, in their order. */
    method RecordFailedAttempt(ip: string, stamp: int, now: int)
      modifies this
      ensures forall a :: a in attempts <==> (a in old(attempts) || a == Attempt(ip, stamp)) && a.at >= now - DAY
      ensures SubTable(attempts, old(attempts) + [Attempt(ip, stamp)])
      ensures forall other, since :: since >= now - DAY ==>
                Count(attempts, other, since) == Count(old(attempts), other, since) + if other == ip && stamp >= since then 1 else 0
      ensures attempts == RecordFailed(old(attempts), ip, stamp, now)
    {
      RecordedAre(attempts, ip, stamp, now);
      attempts := attempts + [Attempt(ip, stamp)];
      var cutoff := now - DAY;
      attempts := Since(attempts, cutoff);
    }

    /** Afterwards the address has no attempt, and every other address has the same ones as before. */
    method ClearAttempts(ip: string)
      modifies this
      ensures forall a :: a in attempts <==> a in old(attempts) && a.ip != ip
      ensures SubTable(attempts, old(attempts))
      ensures forall since :: Count(attempts, ip, since) == 0
      ensures forall other :: other != ip ==> Times(attempts, other) == Times(old(attempts), other)
      ensures forall other, since :: other != ip ==> Count(attempts, other, since) == Count(old(attempts), other, since)
      ensures attempts == Without(old(attempts), ip)
    {
      ClearedAre(attempts, ip);
      attempts := Without(attempts, ip);
    }
  }

  // What the two deletions leave ------------------------------------------------------------------------

  lemma {:induction false} SinceIs(t: Table, c: int)
    ensures forall a :: a in Since(t, c) <==> a in t && a.at >= c
    ensures SubTable(Since(t, c), t)
  {
    if t != [] {
      var n := |t| - 1;
      SinceIs(t[..n], c);
      assert t == t[..n] + [t[n]];
      var kept := Since(t[..n], c);
      if kept != [] {
        assert kept[|kept| - 1] in kept;
      }
    }
  }

  lemma {:induction false} WithoutIs(t: Table, ip: string)
    ensures forall a :: a in Without(t, ip) <==> a in t && a.ip != ip
    ensures SubTable(Without(t, ip), t)
  {
    if t != [] {
      var n := |t| - 1;
      WithoutIs(t[..n], ip);
      assert t == t[..n] + [t[n]];
      var kept := Without(t[..n], ip);
      if kept != [] {
        assert kept[|kept| - 1] in kept;
      }
    }
  }

  lemma {:induction false} WithoutCount(t: Table, gone: string, ip: string, since: int)
    ensures Count(Without(t, gone), ip, since) == if ip == gone then 0 else Count(t, ip, since)
  {
    if t != [] {
      WithoutCount(t[..|t| - 1], gone, ip, since);
      if t[|t| - 1].ip != gone {
        CountOneMore(Without(t[..|t| - 1], gone), t[|t| - 1], ip, since);
      }
    }
  }

  lemma {:induction false} WithoutTimes(t: Table, gone: string, ip: string)
    requires ip != gone
    ensures Times(Without(t, gone), ip) == Times(t, ip)
  {
    if t != [] {
      var rest, a := Without(t[..|t| - 1], gone), t[|t| - 1];
      WithoutTimes(t[..|t| - 1], gone, ip);
      assert (rest + [a])[..|rest|] == rest;
    }
  }

  /** What the table holds after a recorded failure. */
  lemma {:induction false} RecordedAre(t: Table, ip: string, stamp: int, now: int)
    ensures var t' := RecordFailed(t, ip, stamp, now);
            && (forall a :: a in t' <==> (a in t || a == Attempt(ip, stamp)) && a.at >= now - DAY)
            && SubTable(t', t + [Attempt(ip, stamp)])
            && (forall other, since :: since >= now - DAY ==>
                  Count(t', other, since) == Count(t, other, since) + if other == ip && stamp >= since then 1 else 0)
  {
    var added := t + [Attempt(ip, stamp)];
    SinceIs(added, now - DAY);
    forall other, since | since >= now - DAY
      ensures Count(Since(added, now - DAY), other, since)
           == Count(t, other, since) + if other == ip && stamp >= since then 1 else 0
    {
      SinceCount(added, now - DAY, other, since);
      CountOneMore(t, Attempt(ip, stamp), other, since);
    }
  }

  /** What the table holds after an address is cleared. */
  lemma {:induction false} ClearedAre(t: Table, ip: string)
    ensures var t' := Without(t, ip);
            && (forall a :: a in t' <==> a in t && a.ip != ip)
            && SubTable(t', t)
            && (forall since :: Count(t', ip, since) == 0)
            && (forall other :: other != ip ==> Times(t', other) == Times(t, other))
            && (forall other, since :: other != ip ==> Count(t', other, since) == Count(t, other, since))
  {
    WithoutIs(t, ip);
    forall other, since ensures Count(Without(t, ip), other, since) == if other == ip then 0 else Count(t, other, since) {
      WithoutCount(t, ip, other, since);
    }
    forall other | other != ip ensures Times(Without(t, ip), other) == Times(t, other) {
      WithoutTimes(t, ip, other);
    }
  }

  // Runs of submissions, one at a time ----------------------------------------------------------------

  /** A submission is checked for a ban first; an unbanned one then fails, or succeeds and clears the address. */
  datatype Submission = Submission(ip: string, checkedAt: int, stamp: int, doneAt: int, fails: bool)

  function Submit(lim: Limits, t: Table, s: Submission): Table {
    if IsBanned(lim, t, s.ip, s.checkedAt).0 then t
    else if s.fails then RecordFailed(t, s.ip, s.stamp, s.doneAt)
    else Without(t, s.ip)
  }

  ghost function Exec(lim: Limits, run: seq<Submission>): Table {
    if run == [] then [] else Submit(lim, Exec(lim, run[..|run| - 1]), run[|run| - 1])
  }

  /** Each submission is checked and stamped before it is done, and after the one before it is done. */
  ghost predicate Serial(run: seq<Submission>) {
    && (forall i :: 0 <= i < |run| ==> run[i].checkedAt <= run[i].doneAt && run[i].stamp <= run[i].doneAt)
    && (forall i, j :: 0 <= i < j < |run| ==> run[i].doneAt <= run[j].checkedAt && run[i].doneAt <= run[j].stamp)
  }

  /** No stamp lies more than `lag` before its check. */
  ghost predicate Timely(run: seq<Submission>, lag: nat) {
    forall s :: s in run ==> s.checkedAt - lag <= s.stamp
  }

  /** Failures of one address in the closed span of one window length from `lo`. */
  function InWindow(lim: Limits, t: Table, ip: string, lo: int): nat {
    Span(t, ip, lo, lo + lim.window)
  }

  /** No closed span of one window length holds more failures of one address than allowed. */
  ghost predicate WithinLimit(lim: Limits, t: Table) {
    forall ip, lo :: InWindow(lim, t, ip, lo) <= lim.max
  }

  ghost predicate AllBefore(t: Table, now: int) {
    forall i :: 0 <= i < |t| ==> t[i].at <= now
  }

  function Min(a: int, b: int): int {
    if a < b then a else b
  }

  // Counting facts ----------------------------------------------------------------------------------

  // How the functions on a table follow one more row

  lemma SinceOneMore(t: Table, a: Attempt, c: int)
    ensures Since(t + [a], c) == if a.at >= c then Since(t, c) + [a] else Since(t, c)
  {
    assert (t + [a])[..|t|] == t;
  }

  lemma SpanOneMore(t: Table, a: Attempt, ip: string, lo: int, hi: int)
    ensures Span(t + [a], ip, lo, hi) == Span(t, ip, lo, hi) + if a.ip == ip && lo <= a.at <= hi then 1 else 0
  {
    assert (t + [a])[..|t|] == t;
  }

  lemma WithoutOneMore(t: Table, a: Attempt, ip: string)
    ensures Without(t + [a], ip) == if a.ip != ip then Without(t, ip) + [a] else Without(t, ip)
  {
    assert (t + [a])[..|t|] == t;
  }

  lemma CountOneMore(t: Table, a: Attempt, ip: string, since: int)
    ensures Count(t + [a], ip, since) == Count(t, ip, since) + if a.ip == ip && a.at >= since then 1 else 0
  {
    assert (t + [a])[..|t|] == t;
  }

  lemma {:induction false} SpanBelowCount(t: Table, ip: string, lo: int, hi: int, since: int)
    requires since <= lo
    ensures Span(t, ip, lo, hi) <= Count(t, ip, since)
  {
    if t != [] { SpanBelowCount(t[..|t| - 1], ip, lo, hi, since); }
  }

  /** Something is counted exactly when the latest attempt is recent enough. */
  lemma {:induction false} CountedIffLast(t: Table, ip: string, since: int)
    ensures Count(t, ip, since) > 0 <==> LastAt(t, ip).Some? && LastAt(t, ip).value >= since
  {
    if t != [] { CountedIffLast(t[..|t| - 1], ip, since); }
  }

  lemma {:induction false} SinceSpan(t: Table, cutoff: int, ip: string, lo: int, hi: int)
    ensures Span(Since(t, cutoff), ip, lo, hi) == Span(t, ip, if lo > cutoff then lo else cutoff, hi)
  {
    if t != [] {
      SinceSpan(t[..|t| - 1], cutoff, ip, lo, hi);
      SpanOneMore(Since(t[..|t| - 1], cutoff), t[|t| - 1], ip, lo, hi);
    }
  }

  lemma {:induction false} SpanShrinks(t: Table, ip: string, lo: int, lo': int, hi: int)
    requires lo <= lo'
    ensures Span(t, ip, lo', hi) <= Span(t, ip, lo, hi)
  {
    if t != [] { SpanShrinks(t[..|t| - 1], ip, lo, lo', hi); }
  }

  lemma {:induction false} WithoutSpan(t: Table, gone: string, ip: string, lo: int, hi: int)
    ensures Span(Without(t, gone), ip, lo, hi) == if ip == gone then 0 else Span(t, ip, lo, hi)
  {
    if t != [] {
      WithoutSpan(t[..|t| - 1], gone, ip, lo, hi);
      SpanOneMore(Without(t[..|t| - 1], gone), t[|t| - 1], ip, lo, hi);
    }
  }

  lemma {:induction false} KeptBefore(t: Table, ip: string, cutoff: int, now: int)
    requires AllBefore(t, now)
    ensures AllBefore(Since(t, cutoff), now) && AllBefore(Without(t, ip), now)
  {
    if t != [] {
      KeptBefore(t[..|t| - 1], ip, cutoff, now);
    }
  }

  lemma {:induction false} EmptySpan(t: Table, ip: string, lo: int, hi: int)
    requires LastAt(t, ip).None? || LastAt(t, ip).value < lo
    ensures Span(t, ip, lo, hi) == 0
  {
    SpanBelowCount(t, ip, lo, hi, lo);
    CountedIffLast(t, ip, lo);
  }

  // The window bound --------------------------------------------------------------------------------

  /** The stamp lies in no window that the check did not count. */
  predicate OnTime(lim: Limits, s: Submission) {
    s.checkedAt <= s.stamp || lim.window >= DAY
  }

  /** After a check that lets a submission through, one more failure fits into every window. */
  lemma {:induction false} FailureFits(lim: Limits, t: Table, s: Submission)
    requires lim.max >= 1 && lim.ban > Min(lim.window, DAY) && OnTime(lim, s)
    requires WithinLimit(lim, t) && s.checkedAt <= s.doneAt
    requires !IsBanned(lim, t, s.ip, s.checkedAt).0
    ensures WithinLimit(lim, RecordFailed(t, s.ip, s.stamp, s.doneAt))
  {
    var a := Attempt(s.ip, s.stamp);
    var added, cutoff := t + [a], s.doneAt - DAY;
    forall ip, lo
      ensures InWindow(lim, Since(added, cutoff), ip, lo) <= lim.max
    {
      var hi := lo + lim.window;
      SpanOneMore(t, a, ip, if lo > cutoff then lo else cutoff, hi);
      var from := if lo > cutoff then lo else cutoff;
      SinceSpan(added, cutoff, ip, lo, hi);
      SpanShrinks(t, ip, lo, from, hi);
      assert InWindow(lim, t, ip, lo) <= lim.max;
      if ip == s.ip && lo <= a.at <= hi {
        FailureRoom(lim, t, s, lo);
      }
    }
  }

  /** A window that takes in the new failure had room for it, after pruning. */
  lemma {:induction false} FailureRoom(lim: Limits, t: Table, s: Submission, lo: int)
    requires lim.max >= 1 && lim.ban > Min(lim.window, DAY) && OnTime(lim, s)
    requires s.checkedAt <= s.doneAt && s.stamp <= lo + lim.window
    requires !IsBanned(lim, t, s.ip, s.checkedAt).0
    ensures Span(t, s.ip, if lo > s.doneAt - DAY then lo else s.doneAt - DAY, lo + lim.window) < lim.max
  {
    var since, hi := s.checkedAt - lim.window, lo + lim.window;
    var from := if lo > s.doneAt - DAY then lo else s.doneAt - DAY;
    if Count(t, s.ip, since) < lim.max {
      SpanBelowCount(t, s.ip, from, hi, since);
    } else {
      CountedIffLast(t, s.ip, since);
      EmptySpan(t, s.ip, from, hi);
    }
  }

  lemma {:induction false} SubmitKeepsLimit(lim: Limits, t: Table, s: Submission)
    requires lim.max >= 1 && lim.ban > Min(lim.window, DAY) && OnTime(lim, s)
    requires WithinLimit(lim, t) && s.checkedAt <= s.doneAt
    ensures WithinLimit(lim, Submit(lim, t, s))
  {
    if !IsBanned(lim, t, s.ip, s.checkedAt).0 {
      if s.fails {
        FailureFits(lim, t, s);
      } else {
        forall ip, lo
          ensures InWindow(lim, Without(t, s.ip), ip, lo) <= lim.max
        {
          WithoutSpan(t, s.ip, ip, lo, lo + lim.window);
          assert InWindow(lim, t, ip, lo) <= lim.max;
        }
      }
    }
  }

  lemma {:induction false} RunKeepsLimit(lim: Limits, run: seq<Submission>)
    requires lim.max >= 1 && lim.ban > Min(lim.window, DAY)
    requires Serial(run) && forall s :: s in run ==> OnTime(lim, s)
    ensures WithinLimit(lim, Exec(lim, run))
  {
    if run != [] {
      var before, s := run[..|run| - 1], run[|run| - 1];
      assert s in run && forall q :: q in before ==> q in run;
      RunKeepsLimit(lim, before);
      SubmitKeepsLimit(lim, Exec(lim, before), s);
    }
  }

  lemma {:induction false} NoSpan(t: Table, ip: string, lo: int, hi: int)
    requires hi < lo
    ensures Span(t, ip, lo, hi) == 0
  {
    if t != [] { NoSpan(t[..|t| - 1], ip, lo, hi); }
  }

  /** A negative window holds nothing. */
  lemma {:induction false} NoWindow(lim: Limits, t: Table)
    requires lim.max >= 0 && lim.window < 0
    ensures WithinLimit(lim, t)
  {
    forall ip, lo ensures InWindow(lim, t, ip, lo) <= lim.max {
      NoSpan(t, ip, lo, lo + lim.window);
    }
  }

  /** The same run on a table that is never pruned. */
  function SubmitFull(lim: Limits, t: Table, s: Submission): Table {
    if IsBanned(lim, t, s.ip, s.checkedAt).0 then t
    else if s.fails then t + [Attempt(s.ip, s.stamp)]
    else Without(t, s.ip)
  }

  ghost function ExecFull(lim: Limits, run: seq<Submission>): Table {
    if run == [] then [] else SubmitFull(lim, ExecFull(lim, run[..|run| - 1]), run[|run| - 1])
  }

  // A run that breaks it otherwise

  /** As many failures of one address at time 0 as are allowed. */
  ghost function Burst(n: nat, ip: string): seq<Submission> {
    seq(n, _ => Submission(ip, 0, 0, 0, true))
  }

  function Flood(n: nat, ip: string): Table {
    if n == 0 then [] else Flood(n - 1, ip) + [Attempt(ip, 0)]
  }

  lemma {:induction false} FloodCount(n: nat, ip: string, since: int)
    ensures Count(Flood(n, ip), ip, since) == if since <= 0 then n else 0
  {
    if n > 0 {
      FloodCount(n - 1, ip, since);
      CountOneMore(Flood(n - 1, ip), Attempt(ip, 0), ip, since);
    }
  }

  lemma {:induction false} FloodSpan(n: nat, ip: string, lo: int, hi: int)
    requires lo <= 0 <= hi
    ensures Span(Flood(n, ip), ip, lo, hi) == n
  {
    if n > 0 {
      FloodSpan(n - 1, ip, lo, hi);
      SpanOneMore(Flood(n - 1, ip), Attempt(ip, 0), ip, lo, hi);
    }
  }

  lemma {:induction false} FloodSince(n: nat, ip: string, cutoff: int)
    ensures Since(Flood(n, ip), cutoff) == if cutoff <= 0 then Flood(n, ip) else []
  {
    if n > 0 {
      FloodSince(n - 1, ip, cutoff);
      SinceOneMore(Flood(n - 1, ip), Attempt(ip, 0), cutoff);
    }
  }

  lemma {:induction false} FloodLast(n: nat, ip: string)
    ensures LastAt(Flood(n, ip), ip) == if n == 0 then None else Some(0)
  {
    if n > 0 {
      FloodLast(n - 1, ip);
      assert Flood(n, ip)[..|Flood(n, ip)| - 1] == Flood(n - 1, ip);
    }
  }

  lemma {:induction false} FloodGrows(lim: Limits, n: nat, ip: string)
    requires n < lim.max && lim.window >= 0
    ensures var s := Submission(ip, 0, 0, 0, true);
            Submit(lim, Flood(n, ip), s) == SubmitFull(lim, Flood(n, ip), s) == Flood(n + 1, ip)
  {
    FloodCount(n, ip, -lim.window);
    FloodSince(n, ip, -DAY);
    SinceOneMore(Flood(n, ip), Attempt(ip, 0), -DAY);
  }

  lemma {:induction false} BurstStored(lim: Limits, n: nat, ip: string)
    requires lim.window >= 0 && n <= lim.max
    ensures Exec(lim, Burst(n, ip)) == Flood(n, ip)
    ensures ExecFull(lim, Burst(n, ip)) == Flood(n, ip)
  {
    if n > 0 {
      BurstStored(lim, n - 1, ip);
      assert Burst(n, ip)[..n - 1] == Burst(n - 1, ip);
      FloodGrows(lim, n - 1, ip);
    }
  }

  /** MAIN RESULT. The bound on stored failures holds in every run exactly when the ban is longer than the window, or
  longer than the day after which failures are pruned, and besides no stamp may lie before its check, or the window is
  at least that day. */
  lemma {:induction false} WindowBoundIff(lim: Limits, lag: nat)
    requires lim.max >= 1
    ensures (forall run :: Serial(run) && Timely(run, lag) ==> WithinLimit(lim, Exec(lim, run)))
            <==> lim.window < 0 || (lim.ban > Min(lim.window, DAY) && (lag == 0 || lim.window >= DAY))
  {
    if lim.window < 0 {
      forall run ensures WithinLimit(lim, Exec(lim, run)) {
        NoWindow(lim, Exec(lim, run));
      }
    } else if lim.ban <= Min(lim.window, DAY) {
      ShortBanBreaks(lim, lag, "192.0.2.1");
    } else if lag == 0 || lim.window >= DAY {
      forall run | Serial(run) && Timely(run, lag)
        ensures WithinLimit(lim, Exec(lim, run))
      {
        RunKeepsLimit(lim, run);
      }
    } else {
      EarlyStampBreaks(lim, lag, "192.0.2.1");
    }
  }

  /** The allowed failures at time 0, and one more when their ban has ended. */
  lemma {:induction false} ShortBanBreaks(lim: Limits, lag: nat, ip: string)
    requires lim.max >= 1 && lim.window >= 0 && lim.ban <= Min(lim.window, DAY)
    ensures var end := if lim.ban > 0 then lim.ban else 0;
            var run := Burst(lim.max, ip) + [Submission(ip, end, end, end, true)];
            Serial(run) && Timely(run, lag) && !WithinLimit(lim, Exec(lim, run))
  {
    var end := if lim.ban > 0 then lim.ban else 0;
    FloodLast(lim.max, ip);
    FloodThenOne(lim, ip, end, end, lag);
  }

  /** The allowed failures at time 0, and one more stamped at the end of their window by a check just after it. */
  lemma {:induction false} EarlyStampBreaks(lim: Limits, lag: nat, ip: string)
    requires lim.max >= 1 && 0 <= lim.window < DAY && lag >= 1
    ensures var run := Burst(lim.max, ip) + [Submission(ip, lim.window + 1, lim.window, lim.window + 1, true)];
            Serial(run) && Timely(run, lag) && !WithinLimit(lim, Exec(lim, run))
  {
    FloodCount(lim.max, ip, 1);
    FloodThenOne(lim, ip, lim.window + 1, lim.window, lag);
  }

  /** One failure too many, if its check lets it through, its stamp is in the window and nothing is pruned. */
  lemma {:induction false} FloodThenOne(lim: Limits, ip: string, check: int, stamp: int, lag: nat)
    requires lim.max >= 1 && 0 <= stamp <= check <= DAY && check - lag <= stamp <= lim.window
    requires !IsBanned(lim, Flood(lim.max, ip), ip, check).0
    ensures var run := Burst(lim.max, ip) + [Submission(ip, check, stamp, check, true)];
            Serial(run) && Timely(run, lag) && !WithinLimit(lim, Exec(lim, run))
  {
    var late := Submission(ip, check, stamp, check, true);
    BurstStored(lim, lim.max, ip);
    OneMoreSubmission(lim, Burst(lim.max, ip), late);
    FloodAndOne(lim, ip, check, stamp);
    BurstIsSerial(lim.max, ip, late, lag);
  }

  lemma {:induction false} FloodAndOne(lim: Limits, ip: string, check: int, stamp: int)
    requires lim.max >= 1 && 0 <= stamp <= check <= DAY && stamp <= lim.window
    ensures !WithinLimit(lim, RecordFailed(Flood(lim.max, ip), ip, stamp, check))
  {
    var t, a := Flood(lim.max, ip), Attempt(ip, stamp);
    FloodSince(lim.max, ip, check - DAY);
    FloodSpan(lim.max, ip, 0, lim.window);
    SinceOneMore(t, a, check - DAY);
    SpanOneMore(t, a, ip, 0, lim.window);
    assert InWindow(lim, t + [a], ip, 0) == lim.max + 1;
  }

  lemma BurstIsSerial(n: nat, ip: string, s: Submission, lag: nat)
    requires 0 <= s.checkedAt <= s.doneAt && 0 <= s.stamp <= s.doneAt && s.checkedAt - lag <= s.stamp
    ensures Serial(Burst(n, ip) + [s]) && Timely(Burst(n, ip) + [s], lag)
  {
  }

  lemma OneMoreSubmission(lim: Limits, run: seq<Submission>, s: Submission)
    ensures Exec(lim, run + [s]) == Submit(lim, Exec(lim, run), s)
    ensures ExecFull(lim, run + [s]) == SubmitFull(lim, ExecFull(lim, run), s)
  {
    assert (run + [s])[..|run|] == run;
  }

  // Pruning does not change any verdict -----------------------------------------------------------------

  lemma {:induction false} SinceSince(t: Table, c: int, c': int)
    requires c <= c'
    ensures Since(Since(t, c), c') == Since(t, c')
  {
    if t != [] {
      SinceSince(t[..|t| - 1], c, c');
      SinceOneMore(Since(t[..|t| - 1], c), t[|t| - 1], c');
    }
  }

  lemma {:induction false} SinceWithout(t: Table, c: int, ip: string)
    ensures Without(Since(t, c), ip) == Since(Without(t, ip), c)
  {
    if t != [] {
      SinceWithout(t[..|t| - 1], c, ip);
      WithoutOneMore(Since(t[..|t| - 1], c), t[|t| - 1], ip);
      SinceOneMore(Without(t[..|t| - 1], ip), t[|t| - 1], c);
    }
  }

  lemma {:induction false} SinceCount(t: Table, c: int, ip: string, since: int)
    requires c <= since
    ensures Count(Since(t, c), ip, since) == Count(t, ip, since)
  {
    if t != [] {
      SinceCount(t[..|t| - 1], c, ip, since);
      CountOneMore(Since(t[..|t| - 1], c), t[|t| - 1], ip, since);
    }
  }

  /** The limits under which pruning cannot show: the window is no longer than the day that is kept; nobody is ever
  banned; or one attempt bans, for so short that it is still kept. */
  predicate KeepsEnough(lim: Limits) {
    lim.window <= DAY || lim.ban <= 0 || (lim.max == 1 && lim.ban <= DAY + 1)
  }

  lemma LastOneMore(t: Table, a: Attempt, ip: string)
    ensures var last := LastAt(t, ip);
            LastAt(t + [a], ip) == if a.ip == ip && (last.None? || a.at >= last.value) then Some(a.at) else last
  {
    assert (t + [a])[..|t|] == t;
  }

  lemma {:induction false} SinceLast(t: Table, c: int, ip: string)
    ensures LastAt(Since(t, c), ip) == if LastAt(t, ip).Some? && LastAt(t, ip).value >= c then LastAt(t, ip) else None
  {
    if t != [] {
      var rest, a := t[..|t| - 1], t[|t| - 1];
      assert t == rest + [a];
      SinceLast(rest, c, ip);
      SinceOneMore(rest, a, c);
      LastOneMore(rest, a, ip);
      LastOneMore(Since(rest, c), a, ip);
      hide LastAt, Since;
    }
  }

  lemma {:induction false} SinceCountsLess(t: Table, c: int, ip: string, since: int)
    ensures Count(Since(t, c), ip, since) <= Count(t, ip, since)
  {
    if t != [] {
      SinceCountsLess(t[..|t| - 1], c, ip, since);
      if t[|t| - 1].at >= c {
        CountOneMore(Since(t[..|t| - 1], c), t[|t| - 1], ip, since);
      }
    }
  }

  lemma {:induction false} LastBefore(t: Table, ip: string, now: int)
    requires AllBefore(t, now)
    ensures LastAt(t, ip).Some? ==> LastAt(t, ip).value <= now
  {
    if t != [] { LastBefore(t[..|t| - 1], ip, now); }
  }

  /** Dropping rows more than a day old then changes neither the verdict nor the minutes. */
  lemma {:induction false} PrunedVerdict(lim: Limits, t: Table, c: int, ip: string, now: int)
    requires lim.max >= 1 && KeepsEnough(lim) && c <= now - DAY && AllBefore(t, now)
    ensures IsBanned(lim, Since(t, c), ip, now) == IsBanned(lim, t, ip, now)
  {
    var since := now - lim.window;
    LastBefore(t, ip, now);
    SinceLast(t, c, ip);
    CountedIffLast(t, ip, since);
    CountedIffLast(Since(t, c), ip, since);
    if lim.window <= DAY {
      SinceCount(t, c, ip, since);
    } else {
      SinceCountsLess(t, c, ip, since);
    }
  }

  lemma {:induction false} PrunedAgain(t: Table, a: Attempt, c: int, c': int)
    requires c <= c'
    ensures Since(Since(t, c) + [a], c') == Since(t + [a], c')
  {
    SinceOneMore(Since(t, c), a, c');
    SinceOneMore(t, a, c');
    SinceSince(t, c, c');
  }

  lemma {:induction false} FullBefore(lim: Limits, run: seq<Submission>)
    requires Serial(run)
    ensures run == [] ==> ExecFull(lim, run) == []
    ensures run != [] ==> AllBefore(ExecFull(lim, run), run[|run| - 1].doneAt)
  {
    if run != [] {
      var before, s := run[..|run| - 1], run[|run| - 1];
      FullBefore(lim, before);
      KeptBefore(ExecFull(lim, before), s.ip, 0, s.doneAt);
    }
  }

  /** The pruned table is the full one without some rows that are more than a day old. */
  lemma {:induction false} PrunedIsSince(lim: Limits, run: seq<Submission>) returns (c: int)
    requires lim.max >= 1 && KeepsEnough(lim) && Serial(run)
    ensures Exec(lim, run) == Since(ExecFull(lim, run), c)
    ensures run != [] ==> c <= run[|run| - 1].doneAt - DAY
  {
    if run == [] {
      c := 0;
    } else {
      var before, s := run[..|run| - 1], run[|run| - 1];
      var t := ExecFull(lim, before);
      c := PrunedIsSince(lim, before);
      FullBefore(lim, before);
      if before == [] {
        c := s.checkedAt - DAY;
        assert t == [] && Since(t, c) == [];
      }
      PrunedVerdict(lim, t, c, s.ip, s.checkedAt);
      SinceWithout(t, c, s.ip);
      hide IsBanned, AllBefore, Serial;
      if !IsBanned(lim, t, s.ip, s.checkedAt).0 && s.fails {
        PrunedAgain(t, Attempt(s.ip, s.stamp), c, s.doneAt - DAY);
        c := s.doneAt - DAY;
      }
    }
  }

  /** The pruned table and the full history give one answer. */
  predicate SameAnswer(lim: Limits, pruned: Table, full: Table, ip: string, now: int) {
    IsBanned(lim, pruned, ip, now) == IsBanned(lim, full, ip, now)
  }

  ghost predicate IsLater(run: seq<Submission>, now: int) {
    run != [] ==> run[|run| - 1].doneAt <= now
  }

  lemma {:induction false} PruningNeverShows(lim: Limits, run: seq<Submission>, ip: string, now: int)
    requires lim.max >= 1 && KeepsEnough(lim) && Serial(run) && IsLater(run, now)
    ensures SameAnswer(lim, Exec(lim, run), ExecFull(lim, run), ip, now)
  {
    var c := PrunedIsSince(lim, run);
    FullBefore(lim, run);
    if run != [] {
      PrunedVerdict(lim, ExecFull(lim, run), c, ip, now);
    }
  }

  /** MAIN RESULT. Pruning never shows, in no run and at no later time for no address, neither in the verdict nor in the
  minutes, if and only if the window is at most a day, or nobody is banned, or one attempt bans, for at most a day and one
  unit of time. */
  lemma {:induction false} PruningNeverShowsIff(lim: Limits)
    requires lim.max >= 1
    ensures (forall run, ip, now :: Serial(run) && IsLater(run, now) ==>
               SameAnswer(lim, Exec(lim, run), ExecFull(lim, run), ip, now))
            <==> lim.window <= DAY || lim.ban <= 0 || (lim.max == 1 && lim.ban <= DAY + 1)
  {
    if KeepsEnough(lim) {
      forall run, ip, now | Serial(run) && IsLater(run, now)
        ensures SameAnswer(lim, Exec(lim, run), ExecFull(lim, run), ip, now)
      {
        PruningNeverShows(lim, run, ip, now);
      }
    } else {
      var ip, other := "192.0.2.1", "192.0.2.2";
      LongWindowShows(lim, ip, other);
      var run := Burst(if lim.max == 1 then 1 else lim.max - 1, ip) + [LastFailure(lim, ip, other)];
      assert !SameAnswer(lim, Exec(lim, run), ExecFull(lim, run), ip, DAY + 1);
    }
  }

  /** The last failure of the run that shows it: of the address that failed a day before, or of another one. */
  function LastFailure(lim: Limits, ip: string, other: string): Submission {
    Submission(if lim.max == 1 then other else ip, DAY + 1, DAY + 1, DAY + 1, true)
  }

  /** Otherwise it does show. The allowed failures but one, and the last one more than a day later; or, where one failure
  bans, that failure, and more than a day later one of another address. The full history bans, the pruned one does not. */
  lemma {:induction false} LongWindowShows(lim: Limits, ip: string, other: string)
    requires lim.max >= 1 && !KeepsEnough(lim) && ip != other
    ensures var run := Burst(if lim.max == 1 then 1 else lim.max - 1, ip) + [LastFailure(lim, ip, other)];
            && Serial(run) && IsLater(run, DAY + 1)
            && !IsBanned(lim, Exec(lim, run), ip, DAY + 1).0 && IsBanned(lim, ExecFull(lim, run), ip, DAY + 1).0
  {
    var n, late := if lim.max == 1 then 1 else lim.max - 1, LastFailure(lim, ip, other);
    BurstStored(lim, n, ip);
    FloodPruned(lim, n, ip, other);
    OneMoreSubmission(lim, Burst(n, ip), late);
    FullVerdict(lim, n, ip, other);
    BurstIsSerial(n, ip, late, 0);
  }

  lemma {:induction false} FloodPruned(lim: Limits, n: nat, ip: string, other: string)
    requires n == (if lim.max == 1 then 1 else lim.max - 1) && lim.max >= 1 && lim.window > DAY && ip != other
    ensures var late := LastFailure(lim, ip, other);
            && !IsBanned(lim, Flood(n, ip), late.ip, DAY + 1).0
            && RecordFailed(Flood(n, ip), late.ip, DAY + 1, DAY + 1) == [Attempt(late.ip, DAY + 1)]
            && !IsBanned(lim, [Attempt(late.ip, DAY + 1)], ip, DAY + 1).0
  {
    var a := Attempt(LastFailure(lim, ip, other).ip, DAY + 1);
    FloodCount(n, ip, DAY + 1 - lim.window);
    FloodOthers(n, ip, other, DAY + 1 - lim.window);
    FloodSince(n, ip, 1);
    SinceOneMore(Flood(n, ip), a, 1);
    CountOneMore([], a, ip, DAY + 1 - lim.window);
    assert [] + [a] == [a];
  }

  lemma {:induction false} FloodOthers(n: nat, ip: string, other: string, since: int)
    requires ip != other
    ensures Count(Flood(n, ip), other, since) == 0
  {
    if n > 0 {
      FloodOthers(n - 1, ip, other, since);
      CountOneMore(Flood(n - 1, ip), Attempt(ip, 0), other, since);
    }
  }

  lemma {:induction false} FullVerdict(lim: Limits, n: nat, ip: string, other: string)
    requires n == (if lim.max == 1 then 1 else lim.max - 1) && lim.max >= 1 && !KeepsEnough(lim) && ip != other
    ensures IsBanned(lim, Flood(n, ip) + [Attempt(LastFailure(lim, ip, other).ip, DAY + 1)], ip, DAY + 1).0
  {
    var t, a := Flood(n, ip), Attempt(LastFailure(lim, ip, other).ip, DAY + 1);
    FloodCount(n, ip, DAY + 1 - lim.window);
    FloodLast(n, ip);
    CountOneMore(t, a, ip, DAY + 1 - lim.window);
    assert (t + [a])[..|t|] == t;
    assert LastAt(t + [a], ip) == Some(if lim.max == 1 then 0 else DAY + 1);
  }

  // When exactly an address is banned -------------------------------------------------------------------

  ghost predicate InOrder(s: seq<int>) {
    forall i, j :: 0 <= i < j < |s| ==> s[i] <= s[j]
  }

  lemma {:induction false} TimesCount(t: Table, ip: string, since: int)
    requires InOrder(Times(t, ip))
    ensures Count(t, ip, since) <= |Times(t, ip)|
    ensures forall k :: 0 <= k < |Times(t, ip)| ==> (Times(t, ip)[k] >= since <==> k >= |Times(t, ip)| - Count(t, ip, since))
    ensures LastAt(t, ip) == if Times(t, ip) == [] then None else Some(Times(t, ip)[|Times(t, ip)| - 1])
  {
    if t != [] {
      var rest, a := t[..|t| - 1], t[|t| - 1];
      var f, all, n := Times(rest, ip), Times(t, ip), Count(rest, ip, since);
      assert forall k :: 0 <= k < |f| ==> f[k] == all[k];
      TimesCount(rest, ip, since);
      if a.ip == ip {
        assert all == f + [a.at];
        if n > 0 {
          assert f[|f| - 1] >= since && f[|f| - 1] == all[|f| - 1] <= all[|f|] == a.at;
        }
        if f != [] {
          assert all[|f| - 1] <= all[|f|];
        }
      }
    }
  }

  /** For attempts stored in clock order, an address is banned exactly while its MAX-th latest
  attempt is within the window and its latest one within the ban. */
  lemma {:induction false} BannedIff(lim: Limits, t: Table, ip: string, now: int)
    requires lim.max >= 1 && InOrder(Times(t, ip))
    ensures var f := Times(t, ip);
            IsBanned(lim, t, ip, now).0 <==>
              lim.max <= |f| && now <= f[|f| - lim.max] + lim.window && now < f[|f| - 1] + lim.ban
  {
    TimesCount(t, ip, now - lim.window);
  }

  /** A ban that has ended does not come back without a new failure. */
  lemma {:induction false} EndedStaysEnded(lim: Limits, t: Table, ip: string, now: int, later: int)
    requires lim.max >= 1 && InOrder(Times(t, ip)) && now <= later
    ensures IsBanned(lim, t, ip, later).0 ==> IsBanned(lim, t, ip, now).0
    ensures IsBanned(lim, t, ip, later).0 ==> IsBanned(lim, t, ip, later).1 <= IsBanned(lim, t, ip, now).1
  {
    BannedIff(lim, t, ip, now);
    BannedIff(lim, t, ip, later);
  }

  ghost predicate ByTime(t: Table) {
    forall i, j :: 0 <= i < j < |t| ==> t[i].at <= t[j].at
  }

  lemma {:induction false} SubmitByTime(lim: Limits, t: Table, s: Submission)
    requires ByTime(t) && AllBefore(t, s.stamp) && s.stamp <= s.doneAt
    ensures ByTime(Submit(lim, t, s)) && AllBefore(Submit(lim, t, s), s.doneAt)
  {
    var added := t + [Attempt(s.ip, s.stamp)];
    SortedParts(added, s.ip, s.doneAt - DAY);
    SortedParts(t, s.ip, 0);
    KeptBefore(added, s.ip, s.doneAt - DAY, s.doneAt);
    KeptBefore(t, s.ip, 0, s.doneAt);
  }

  /** In every run attempts are stored in clock order. */
  lemma {:induction false} RunInOrder(lim: Limits, run: seq<Submission>)
    requires Serial(run)
    ensures ByTime(Exec(lim, run))
    ensures run != [] ==> AllBefore(Exec(lim, run), run[|run| - 1].doneAt)
  {
    if run != [] {
      var before, s := run[..|run| - 1], run[|run| - 1];
      RunInOrder(lim, before);
      SubmitByTime(lim, Exec(lim, before), s);
    }
  }

  lemma {:induction false} SortedParts(t: Table, ip: string, c: int)
    requires ByTime(t)
    ensures ByTime(Since(t, c)) && ByTime(Without(t, ip))
  {
    if t != [] {
      var rest, a := t[..|t| - 1], t[|t| - 1];
      SortedParts(rest, ip, c);
      KeptBefore(rest, ip, c, a.at);
    }
  }

  lemma {:induction false} SortedTimes(t: Table, ip: string)
    requires ByTime(t)
    ensures InOrder(Times(t, ip))
    ensures t != [] ==> forall k :: 0 <= k < |Times(t, ip)| ==> Times(t, ip)[k] <= t[|t| - 1].at
  {
    if t != [] {
      SortedTimes(t[..|t| - 1], ip);
    }
  }

  /** MAIN RESULT. After every run an address is banned exactly while its MAX-th latest attempt is within the window
  and its latest one within the ban. */
  lemma {:induction false} BannedInRunIff(lim: Limits, run: seq<Submission>, ip: string, now: int)
    requires lim.max >= 1 && Serial(run)
    ensures var f := Times(Exec(lim, run), ip);
            IsBanned(lim, Exec(lim, run), ip, now).0 <==>
              lim.max <= |f| && now <= f[|f| - lim.max] + lim.window && now < f[|f| - 1] + lim.ban
  {
    RunInOrder(lim, run);
    SortedTimes(Exec(lim, run), ip);
    BannedIff(lim, Exec(lim, run), ip, now);
  }

  /** MAIN RESULT. After every run a ban that has ended stays ended without a new failure, and the minutes of one that
  has not never grow. */
  lemma {:induction false} EndedStaysEndedInRun(lim: Limits, run: seq<Submission>, ip: string, now: int, later: int)
    requires lim.max >= 1 && Serial(run) && now <= later
    ensures IsBanned(lim, Exec(lim, run), ip, later).0 ==>
              && IsBanned(lim, Exec(lim, run), ip, now).0
              && IsBanned(lim, Exec(lim, run), ip, later).1 <= IsBanned(lim, Exec(lim, run), ip, now).1
  {
    RunInOrder(lim, run);
    SortedTimes(Exec(lim, run), ip);
    EndedStaysEnded(lim, Exec(lim, run), ip, now, later);
  }
}
