/** Retention of the access log: old rows are counted per month and key into a statistics table, then deleted.

`Calendar` gives the year and month of a timestamp; nothing is assumed of it. NULL parts of a key are None. */
module Retention {
  import opened Wrappers

  type Calendar = int -> (int, int)

  datatype LogRow = LogRow(at: int, idp: Option<string>, provider: string, userType: Option<string>, client: Option<string>)

  datatype Key = Key(year: int, month: int, idp: Option<string>, provider: string, userType: Option<string>, client: Option<string>)

  datatype StatRow = StatRow(key: Key, count: int)

  datatype Database = Database(log: seq<LogRow>, stats: seq<StatRow>)

  function KeyOf(cal: Calendar, r: LogRow): Key {
    Key(cal(r.at).0, cal(r.at).1, r.idp, r.provider, r.userType, r.client)
  }

  /** A key without NULL parts: only such a key can run into the unique constraint. */
  predicate Complete(k: Key) {
    k.idp.Some? && k.userType.Some? && k.client.Some?
  }

  function CountKey(cal: Calendar, log: seq<LogRow>, k: Key): nat {
    if log == [] then 0
    else CountKey(cal, log[..|log| - 1], k) + if KeyOf(cal, log[|log| - 1]) == k then 1 else 0
  }

  function SumKey(stats: seq<StatRow>, k: Key): int {
    if stats == [] then 0
    else SumKey(stats[..|stats| - 1], k) + if stats[|stats| - 1].key == k then stats[|stats| - 1].count else 0
  }

  /** All accesses of a key that the database knows of: counted ones and log rows. */
  function Total(cal: Calendar, db: Database, k: Key): int {
    SumKey(db.stats, k) + CountKey(cal, db.log, k)
  }

  function Before(log: seq<LogRow>, cutoff: int): seq<LogRow> {
    if log == [] then []
    else
      var kept := Before(log[..|log| - 1], cutoff);
      if log[|log| - 1].at < cutoff then kept + [log[|log| - 1]] else kept
  }

  function NotBefore(log: seq<LogRow>, cutoff: int): seq<LogRow> {
    if log == [] then []
    else
      var kept := NotBefore(log[..|log| - 1], cutoff);
      if log[|log| - 1].at < cutoff then kept else kept + [log[|log| - 1]]
  }

  /** Position of the row a new one conflicts with, or the length of the table. */
  function ConflictAt(stats: seq<StatRow>, k: Key): (i: nat)
    ensures i <= |stats|
    ensures i < |stats| ==> Complete(k) && stats[i].key == k
    ensures i == |stats| ==> !Complete(k) || forall j :: 0 <= j < |stats| ==> stats[j].key != k
  {
    if stats == [] then 0
    else
      var i := ConflictAt(stats[..|stats| - 1], k);
      if i < |stats| - 1 then i
      else if Complete(k) && stats[|stats| - 1].key == k then |stats| - 1
      else |stats|
  }

  /** INSERT ... ON CONFLICT DO UPDATE SET count = count + n. */
  function Upsert(stats: seq<StatRow>, k: Key, n: int): seq<StatRow> {
    var i := ConflictAt(stats, k);
    if i < |stats| then stats[i := StatRow(k, stats[i].count + n)] else stats + [StatRow(k, n)]
  }

  function UpsertAll(stats: seq<StatRow>, groups: seq<StatRow>): seq<StatRow> {
    if groups == [] then stats
    else
      var g := groups[|groups| - 1];
      Upsert(UpsertAll(stats, groups[..|groups| - 1]), g.key, g.count)
  }

  /** A result of the GROUP BY query over these rows, in whatever order. NULLs fall into one group. */
  ghost predicate IsGroupBy(cal: Calendar, rows: seq<LogRow>, groups: seq<StatRow>) {
    && (forall i :: 0 <= i < |groups| ==> groups[i].count == CountKey(cal, rows, groups[i].key))
    && (forall i, j :: 0 <= i < j < |groups| ==> groups[i].key != groups[j].key)
    && (forall r :: r in rows ==> exists i :: 0 <= i < |groups| && groups[i].key == KeyOf(cal, r))
    && (rows == [] ==> groups == [])
  }

  /** One retention job. Rows of `landing` are inserted between its SELECT and its DELETE. Without groups it
  deletes nothing, and a failure before the commit undoes its own work, not the landed rows. */
  function Retain(db: Database, cutoff: int, groups: seq<StatRow>, landing: seq<LogRow>, committed: bool): Database {
    var log := db.log + landing;
    if groups == [] || !committed then db.(log := log)
    else Database(NotBefore(log, cutoff), UpsertAll(db.stats, groups))
  }

  class RetentionJob {
    const cal: Calendar
    var log: seq<LogRow>
    var stats: seq<StatRow>

    constructor (cal: Calendar)
      ensures this.cal == cal && Value() == Database([], [])
    {
      this.cal := cal;
      log, stats := [], [];
    }

    function Value(): Database
      reads this
    {
      Database(log, stats)
    }

    /** The grouped counts of the rows before the cutoff. */
    method SelectGroups(cutoff: int) returns (groups: seq<StatRow>)
      ensures IsGroupBy(cal, Before(log, cutoff), groups)
    {
      var rows := Before(log, cutoff);
      groups := [];
      var n := 0;
      while n < |rows|
        invariant 0 <= n <= |rows|
        invariant IsGroupBy(cal, rows[..n], groups)
      {
        var k := KeyOf(cal, rows[n]);
        ghost var was := groups;
        var i := 0;
        while i < |groups| && groups[i].key != k
          invariant 0 <= i <= |groups| && forall j :: 0 <= j < i ==> groups[j].key != k
        {
          i := i + 1;
        }
        if i < |groups| {
          groups := groups[i := StatRow(k, groups[i].count + 1)];
        } else {
          groups := groups + [StatRow(k, 1)];
        }
        assert rows[..n + 1] == rows[..n] + [rows[n]];
        GroupOneMore(cal, rows[..n], rows[n], was, groups, i);
        n := n + 1;
      }
      assert rows[..n] == rows;
    }

    method RunRetention(cutoff: int, landing: seq<LogRow>, committed: bool) returns (ghost groups: seq<StatRow>)
      modifies this
      ensures IsGroupBy(cal, Before(old(log), cutoff), groups)
      ensures Value() == Retain(old(Value()), cutoff, groups, landing, committed)
    {
      var found := SelectGroups(cutoff);
      groups := found;
      log := log + landing;
      if |found| > 0 {
        var updated := stats;
        var i := 0;
        while i < |found|
          invariant 0 <= i <= |found|
          invariant updated == UpsertAll(stats, found[..i])
        {
          var at := ConflictAt(updated, found[i].key);
          if at < |updated| {
            updated := updated[at := StatRow(found[i].key, updated[at].count + found[i].count)];
          } else {
            updated := updated + [found[i]];
          }
          assert found[..i + 1][..i] == found[..i];
          i := i + 1;
        }
        assert found[..i] == found;
        if committed {
          stats := updated;
          log := NotBefore(log, cutoff);
        }
      }
    }
  }

  // Counting facts ----------------------------------------------------------------------------------

  lemma {:induction false} CountAppend(cal: Calendar, a: seq<LogRow>, b: seq<LogRow>, k: Key)
    ensures CountKey(cal, a + b, k) == CountKey(cal, a, k) + CountKey(cal, b, k)
    decreases |b|
  {
    if b == [] {
      assert a + b == a;
    } else {
      assert (a + b)[..|a + b| - 1] == a + b[..|b| - 1];
      CountAppend(cal, a, b[..|b| - 1], k);
    }
  }

  lemma {:induction false} CountOne(cal: Calendar, rows: seq<LogRow>, r: LogRow, k: Key)
    ensures CountKey(cal, rows + [r], k) == CountKey(cal, rows, k) + if KeyOf(cal, r) == k then 1 else 0
  {
    assert (rows + [r])[..|rows|] == rows;
  }

  lemma {:induction false} CountZero(cal: Calendar, rows: seq<LogRow>, k: Key)
    ensures CountKey(cal, rows, k) == 0 <==> forall r :: r in rows ==> KeyOf(cal, r) != k
  {
    if rows != [] {
      CountZero(cal, rows[..|rows| - 1], k);
      assert rows == rows[..|rows| - 1] + [rows[|rows| - 1]];
    }
  }

  lemma {:induction false} SplitCount(cal: Calendar, log: seq<LogRow>, cutoff: int, k: Key)
    ensures CountKey(cal, Before(log, cutoff), k) + CountKey(cal, NotBefore(log, cutoff), k) == CountKey(cal, log, k)
  {
    if log != [] {
      SplitCount(cal, log[..|log| - 1], cutoff, k);
      CountOne(cal, Before(log[..|log| - 1], cutoff), log[|log| - 1], k);
      CountOne(cal, NotBefore(log[..|log| - 1], cutoff), log[|log| - 1], k);
    }
  }

  lemma {:induction false} BeforeAppend(a: seq<LogRow>, b: seq<LogRow>, cutoff: int)
    ensures Before(a + b, cutoff) == Before(a, cutoff) + Before(b, cutoff)
    decreases |b|
  {
    if b == [] {
      assert a + b == a;
    } else {
      assert (a + b)[..|a + b| - 1] == a + b[..|b| - 1];
      BeforeAppend(a, b[..|b| - 1], cutoff);
    }
  }

  lemma {:induction false} BeforeIs(log: seq<LogRow>, cutoff: int)
    ensures forall r :: r in Before(log, cutoff) <==> r in log && r.at < cutoff
  {
    if log != [] {
      BeforeIs(log[..|log| - 1], cutoff);
      assert log == log[..|log| - 1] + [log[|log| - 1]];
    }
  }

  lemma {:induction false} NothingBefore(log: seq<LogRow>, cutoff: int)
    requires forall r :: r in log ==> r.at >= cutoff
    ensures Before(log, cutoff) == []
  {
    if log != [] {
      assert log[|log| - 1] in log;
      NothingBefore(log[..|log| - 1], cutoff);
    }
  }

  lemma {:induction false} GroupOneMore(cal: Calendar, rows: seq<LogRow>, r: LogRow, was: seq<StatRow>, now: seq<StatRow>, i: nat)
    requires IsGroupBy(cal, rows, was) && i <= |was|
    requires forall j :: 0 <= j < i ==> was[j].key != KeyOf(cal, r)
    requires i < |was| ==> was[i].key == KeyOf(cal, r) && now == was[i := StatRow(was[i].key, was[i].count + 1)]
    requires i == |was| ==> now == was + [StatRow(KeyOf(cal, r), 1)]
    ensures IsGroupBy(cal, rows + [r], now)
  {
    var k := KeyOf(cal, r);
    forall j | 0 <= j < |now|
      ensures now[j].count == CountKey(cal, rows + [r], now[j].key)
    {
      CountOne(cal, rows, r, now[j].key);
      if i == |was| && j == i {
        CountZero(cal, rows, k);
      }
    }
    forall q | q in rows + [r]
      ensures exists j :: 0 <= j < |now| && now[j].key == KeyOf(cal, q)
    {
      if q in rows {
        var j :| 0 <= j < |was| && was[j].key == KeyOf(cal, q);
        assert now[j].key == KeyOf(cal, q);
      } else {
        assert now[i].key == k;
      }
    }
  }

  lemma {:induction false} SumOne(stats: seq<StatRow>, s: StatRow, k: Key)
    ensures SumKey(stats + [s], k) == SumKey(stats, k) + if s.key == k then s.count else 0
  {
    assert (stats + [s])[..|stats|] == stats;
  }

  lemma {:induction false} SumUpdate(stats: seq<StatRow>, i: nat, n: int, k: Key)
    requires i < |stats|
    ensures SumKey(stats[i := StatRow(stats[i].key, stats[i].count + n)], k)
         == SumKey(stats, k) + if stats[i].key == k then n else 0
  {
    var updated := stats[i := StatRow(stats[i].key, stats[i].count + n)];
    if i < |stats| - 1 {
      SumUpdate(stats[..|stats| - 1], i, n, k);
      assert updated[..|stats| - 1] == stats[..|stats| - 1][i := StatRow(stats[i].key, stats[i].count + n)];
    } else {
      assert updated[..|stats| - 1] == stats[..|stats| - 1];
    }
  }

  /** An upsert adds its count to its key, whether or not the conflict clause fires. */
  lemma {:induction false} UpsertSum(stats: seq<StatRow>, key: Key, n: int, k: Key)
    ensures SumKey(Upsert(stats, key, n), k) == SumKey(stats, k) + if key == k then n else 0
  {
    var i := ConflictAt(stats, key);
    if i < |stats| {
      SumUpdate(stats, i, n, k);
    } else {
      SumOne(stats, StatRow(key, n), k);
    }
  }

  lemma {:induction false} UpsertAllSum(stats: seq<StatRow>, groups: seq<StatRow>, k: Key)
    ensures SumKey(UpsertAll(stats, groups), k) == SumKey(stats, k) + SumKey(groups, k)
  {
    if groups != [] {
      var g := groups[|groups| - 1];
      UpsertAllSum(stats, groups[..|groups| - 1], k);
      UpsertSum(UpsertAll(stats, groups[..|groups| - 1]), g.key, g.count, k);
    }
  }

  /** The groups of distinct keys hold each key's count once. */
  lemma {:induction false} GroupsSum(groups: seq<StatRow>, k: Key)
    requires forall i, j :: 0 <= i < j < |groups| ==> groups[i].key != groups[j].key
    ensures forall i :: 0 <= i < |groups| && groups[i].key == k ==> SumKey(groups, k) == groups[i].count
    ensures (forall i :: 0 <= i < |groups| ==> groups[i].key != k) ==> SumKey(groups, k) == 0
  {
    if groups != [] {
      GroupsSum(groups[..|groups| - 1], k);
    }
  }

  lemma {:induction false} GroupBySum(cal: Calendar, rows: seq<LogRow>, groups: seq<StatRow>, k: Key)
    requires IsGroupBy(cal, rows, groups)
    ensures SumKey(groups, k) == CountKey(cal, rows, k)
  {
    GroupsSum(groups, k);
    if forall i :: 0 <= i < |groups| ==> groups[i].key != k {
      forall r | r in rows
        ensures KeyOf(cal, r) != k
      {
        var i :| 0 <= i < |groups| && groups[i].key == KeyOf(cal, r);
      }
      CountZero(cal, rows, k);
    }
  }

  // Conservation ------------------------------------------------------------------------------------

  /** MAIN RESULT. For every key, a retention job changes the total by the rows that landed, less those of them
  that were dated before the cutoff when it deleted. */
  lemma {:induction false} RetainBalance(cal: Calendar, db: Database, cutoff: int, groups: seq<StatRow>,
                                         landing: seq<LogRow>, committed: bool, k: Key)
    requires IsGroupBy(cal, Before(db.log, cutoff), groups)
    ensures Total(cal, Retain(db, cutoff, groups, landing, committed), k)
         == Total(cal, db, k) + CountKey(cal, landing, k)
            - if groups != [] && committed then CountKey(cal, Before(landing, cutoff), k) else 0
  {
    var log := db.log + landing;
    CountAppend(cal, db.log, landing, k);
    if groups != [] && committed {
      UpsertAllSum(db.stats, groups, k);
      GroupBySum(cal, Before(db.log, cutoff), groups, k);
      SplitCount(cal, log, cutoff, k);
      BeforeAppend(db.log, landing, cutoff);
      CountAppend(cal, Before(db.log, cutoff), Before(landing, cutoff), k);
    }
  }

  /** So nothing is lost exactly when nothing that landed was dated before the cutoff, or nothing was deleted. */
  lemma {:induction false} ConservedIff(cal: Calendar, db: Database, cutoff: int, groups: seq<StatRow>,
                                        landing: seq<LogRow>, committed: bool)
    requires IsGroupBy(cal, Before(db.log, cutoff), groups)
    ensures (forall k :: Total(cal, Retain(db, cutoff, groups, landing, committed), k)
                      == Total(cal, db, k) + CountKey(cal, landing, k))
       <==> groups == [] || !committed || forall r :: r in landing ==> r.at >= cutoff
  {
    var lost := Before(landing, cutoff);
    BeforeIs(landing, cutoff);
    forall k
      ensures Total(cal, Retain(db, cutoff, groups, landing, committed), k)
           == Total(cal, db, k) + CountKey(cal, landing, k) - if groups != [] && committed then CountKey(cal, lost, k) else 0
    {
      RetainBalance(cal, db, cutoff, groups, landing, committed, k);
    }
    if r :| r in landing && r.at < cutoff {
      CountZero(cal, lost, KeyOf(cal, r));
      assert r in lost;
    } else {
      NothingBefore(landing, cutoff);
    }
  }

  // Any number of jobs --------------------------------------------------------------------------------

  datatype Action =
    | Logs(row: LogRow)
    | Retains(cutoff: int, groups: seq<StatRow>, landing: seq<LogRow>, committed: bool)

  function Act(db: Database, a: Action): Database {
    match a
    case Logs(r) => db.(log := db.log + [r])
    case Retains(cutoff, groups, landing, committed) => Retain(db, cutoff, groups, landing, committed)
  }

  function Exec(db: Database, actions: seq<Action>): Database {
    if actions == [] then db else Act(Exec(db, actions[..|actions| - 1]), actions[|actions| - 1])
  }

  /** Every job works on a result of its query. */
  ghost predicate ValidRun(cal: Calendar, db: Database, actions: seq<Action>) {
    forall n :: 0 <= n < |actions| && actions[n].Retains? ==>
      IsGroupBy(cal, Before(Exec(db, actions[..n]).log, actions[n].cutoff), actions[n].groups)
  }

  /** All rows ever logged by a run. */
  function Logged(actions: seq<Action>): seq<LogRow> {
    if actions == [] then []
    else
      var a := actions[|actions| - 1];
      Logged(actions[..|actions| - 1]) + if a.Logs? then [a.row] else a.landing
  }

  /** The rows that an action deletes uncounted: those dated before its cutoff that landed before a committed delete. */
  function LostBy(a: Action): seq<LogRow> {
    match a
    case Logs(_) => []
    case Retains(cutoff, groups, landing, committed) => if groups != [] && committed then Before(landing, cutoff) else []
  }

  function Lost(actions: seq<Action>): seq<LogRow> {
    if actions == [] then [] else Lost(actions[..|actions| - 1]) + LostBy(actions[|actions| - 1])
  }

  /** MAIN RESULT. Over any number of jobs, with NULL parts or not, the total of every key is what it was plus what was
  logged, less the old rows that landed before a committed delete. */
  lemma {:induction false} RunBalance(cal: Calendar, db: Database, actions: seq<Action>, k: Key)
    requires ValidRun(cal, db, actions)
    ensures Total(cal, Exec(db, actions), k)
         == Total(cal, db, k) + CountKey(cal, Logged(actions), k) - CountKey(cal, Lost(actions), k)
  {
    if actions != [] {
      var before, a := actions[..|actions| - 1], actions[|actions| - 1];
      assert ValidRun(cal, db, before) by {
        assert forall n :: 0 <= n < |before| ==> before[..n] == actions[..n];
      }
      RunBalance(cal, db, before, k);
      var mid := Exec(db, before);
      assert actions[..|actions| - 1] == before;
      CountAppend(cal, Lost(before), LostBy(a), k);
      if a.Logs? {
        CountOne(cal, mid.log, a.row, k);
        CountOne(cal, Logged(before), a.row, k);
      } else {
        RetainBalance(cal, mid, a.cutoff, a.groups, a.landing, a.committed, k);
        CountAppend(cal, Logged(before), a.landing, k);
      }
    }
  }

  /** The job deletes nothing, or nothing that landed during it is dated before its cutoff. */
  predicate LosesNothing(a: Action) {
    a.Retains? ==> a.groups == [] || !a.committed || forall r :: r in a.landing ==> r.at >= a.cutoff
  }

  lemma {:induction false} LostNothingIff(actions: seq<Action>)
    ensures Lost(actions) == [] <==> forall a :: a in actions ==> LosesNothing(a)
  {
    if actions != [] {
      var before, a := actions[..|actions| - 1], actions[|actions| - 1];
      LostNothingIff(before);
      assert actions == before + [a];
      if a.Retains? {
        BeforeIs(a.landing, a.cutoff);
        if LosesNothing(a) && a.groups != [] && a.committed {
          NothingBefore(a.landing, a.cutoff);
        }
      }
    }
  }

  /** MAIN RESULT. Over a run the total of every key is what it was plus what was logged if and only if no job of the run
  deleted a row that had landed after it counted. */
  lemma {:induction false} Conservation(cal: Calendar, db: Database, actions: seq<Action>)
    requires ValidRun(cal, db, actions)
    ensures (forall k :: Total(cal, Exec(db, actions), k) == Total(cal, db, k) + CountKey(cal, Logged(actions), k))
            <==> forall a :: a in actions ==> LosesNothing(a)
  {
    var lost := Lost(actions);
    forall k ensures Total(cal, Exec(db, actions), k)
                  == Total(cal, db, k) + CountKey(cal, Logged(actions), k) - CountKey(cal, lost, k)
    {
      RunBalance(cal, db, actions, k);
    }
    LostNothingIff(actions);
    if lost != [] {
      assert lost[0] in lost;
      CountZero(cal, lost, KeyOf(cal, lost[0]));
    }
  }

  /** The unique constraint: no two rows of one key without NULL parts. */
  ghost predicate Unique(stats: seq<StatRow>) {
    forall i, j :: 0 <= i < j < |stats| && stats[i].key == stats[j].key ==> !Complete(stats[i].key)
  }

  lemma {:induction false} UpsertKeepsUnique(stats: seq<StatRow>, groups: seq<StatRow>)
    requires Unique(stats)
    ensures Unique(UpsertAll(stats, groups))
  {
    if groups != [] {
      UpsertKeepsUnique(stats, groups[..|groups| - 1]);
    }
  }
}
