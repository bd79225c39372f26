/** Exactly one active certificate in every reachable state, and a backup that survives its own restore.

The second result needs the first: the bundle carries one certificate, and the restore makes it the active one. */
module BackupRoundTrip {
  import opened Wrappers
  import opened Backup

  // One active certificate ------------------------------------------------------------------------------

  /** Row `i` is the active one. */
  ghost predicate ActiveAt(certs: seq<Row>, i: int) {
    0 <= i < |certs| && forall j :: 0 <= j < |certs| ==> (IsActive(certs[j]) <==> j == i)
  }

  ghost predicate OneActive(certs: seq<Row>) {
    certs == [] || exists i :: ActiveAt(certs, i)
  }

  ghost predicate Numbered(certs: seq<Row>) {
    DistinctIds(certs) && forall i :: 0 <= i < |certs| ==> HasNumber(certs[i])
  }

  lemma {:induction false} FindRowIs(rows: seq<Row>, id: int)
    ensures FindRow(rows, id).Some? ==> exists i :: 0 <= i < |rows| && rows[i] == FindRow(rows, id).value && Id(rows[i]) == id
    ensures FindRow(rows, id).None? ==> forall i :: 0 <= i < |rows| ==> Id(rows[i]) != id
  {
    if rows != [] && Id(rows[0]) != id {
      FindRowIs(rows[1..], id);
      if FindRow(rows[1..], id).Some? {
        var i :| 0 <= i < |rows[1..]| && rows[1..][i] == FindRow(rows, id).value && Id(rows[1..][i]) == id;
        assert rows[i + 1] == rows[1..][i];
      } else {
        assert forall i :: 1 <= i < |rows| ==> rows[i] == rows[1..][i - 1];
      }
    }
  }

  lemma {:induction false} GenerateKeeps(s: State, cert: Option<Row>)
    requires OneActive(s.db.certs) && Numbered(s.db.certs)
    ensures OneActive(Generate(s, cert).db.certs) && Numbered(Generate(s, cert).db.certs)
  {
    var certs' := Generate(s, cert).db.certs;
    if certs' != s.db.certs {
      FindRowIs(s.db.certs, s.nextCert);
      assert ActiveAt(certs', |certs'| - 1);
    }
  }

  lemma {:induction false} ActivateKeeps(s: State, id: int)
    requires OneActive(s.db.certs) && Numbered(s.db.certs)
    ensures OneActive(Activate(s, id).db.certs) && Numbered(Activate(s, id).db.certs)
  {
    FindRowIs(s.db.certs, id);
    var certs, certs' := s.db.certs, Activate(s, id).db.certs;
    if FindRow(certs, id).Some? {
      var i :| 0 <= i < |certs| && Id(certs[i]) == id;
      assert forall j :: 0 <= j < |certs| && j != i ==> Id(certs[j]) != id;
      assert ActiveAt(certs', i);
    }
  }

  lemma {:induction false} RemoveNone(certs: seq<Row>, id: int)
    requires forall i :: 0 <= i < |certs| ==> Id(certs[i]) != id
    ensures RemoveRow(certs, id) == certs
  {
    if certs != [] {
      RemoveNone(certs[1..], id);
    }
  }

  lemma {:induction false} RemoveBetween(before: seq<Row>, x: Row, after: seq<Row>)
    requires forall i :: 0 <= i < |before| ==> Id(before[i]) != Id(x)
    requires forall i :: 0 <= i < |after| ==> Id(after[i]) != Id(x)
    ensures RemoveRow(before + [x] + after, Id(x)) == before + after
  {
    var all := before + [x] + after;
    if before == [] {
      assert all[0] == x && all[1..] == after && before + after == after;
      RemoveNone(after, Id(x));
    } else {
      assert all[0] == before[0] && all[1..] == before[1..] + [x] + after;
      RemoveBetween(before[1..], x, after);
      assert before + after == [before[0]] + (before[1..] + after);
    }
  }

  lemma {:induction false} RemoveAt(certs: seq<Row>, n: nat)
    requires n < |certs| && DistinctIds(certs)
    ensures RemoveRow(certs, Id(certs[n])) == certs[..n] + certs[n + 1..]
  {
    assert certs == certs[..n] + [certs[n]] + certs[n + 1..];
    RemoveBetween(certs[..n], certs[n], certs[n + 1..]);
  }

  lemma {:induction false} CutKeeps(certs: seq<Row>, n: nat, i: nat)
    requires n < |certs| && ActiveAt(certs, i) && i != n && Numbered(certs)
    ensures OneActive(certs[..n] + certs[n + 1..]) && Numbered(certs[..n] + certs[n + 1..])
  {
    var cut := certs[..n] + certs[n + 1..];
    assert forall j :: 0 <= j < |cut| ==> cut[j] == certs[if j < n then j else j + 1];
    assert ActiveAt(cut, if i < n then i else i - 1);
  }

  lemma {:induction false} DeleteKeeps(s: State, id: int)
    requires OneActive(s.db.certs) && Numbered(s.db.certs)
    ensures OneActive(Delete(s, id).db.certs) && Numbered(Delete(s, id).db.certs)
  {
    FindRowIs(s.db.certs, id);
    var certs := s.db.certs;
    if FindRow(certs, id).Some? && !IsActive(FindRow(certs, id).value) {
      var n :| 0 <= n < |certs| && certs[n] == FindRow(certs, id).value && Id(certs[n]) == id;
      var i :| ActiveAt(certs, i);
      RemoveAt(certs, n);
      CutKeeps(certs, n, i);
    }
  }

  lemma {:induction false} RestoredCert(clock: Clock, schema: Schema, dict: Row, next: int)
    requires "id" in Names(schema) && "is_active" in Names(schema)
    ensures AdoptCert(clock, schema, dict, next).Some? ==>
              OneActive(AdoptCert(clock, schema, dict, next).value) && Numbered(AdoptCert(clock, schema, dict, next).value)
  {
    var certs := AdoptCert(clock, schema, dict, next);
    if certs.Some? && certs.value != [] {
      assert ActiveAt(certs.value, 0);
    }
  }

  /** The certificate table has its two columns, and numbers in its key. */
  ghost predicate GoodCertSchema(schema: Schema) {
    && "id" in Names(schema) && "is_active" in Names(schema)
    && !IsTimeColumn(schema, "id") && !IsTimeColumn(schema, "is_active")
  }

  lemma {:induction false} RestoreKeeps(clock: Clock, schemas: Schemas, s: State, b: Bundle)
    requires GoodCertSchema(schemas.certs)
    requires OneActive(s.db.certs) && Numbered(s.db.certs)
    ensures var s' := Act(clock, schemas, s, Restores(b));
            OneActive(s'.db.certs) && Numbered(s'.db.certs)
  {
    RestoredCert(clock, schemas.certs, b.cert, s.nextCert);
  }

  /** MAIN RESULT. Every state reached from an empty certificate table by generation, activation, deletion and
  restores has exactly one active certificate, unless it has none at all. */
  lemma {:induction false} OneActiveAlways(clock: Clock, schemas: Schemas, s: State, actions: seq<Action>)
    requires s.db.certs == [] && GoodCertSchema(schemas.certs)
    ensures OneActive(Exec(clock, schemas, s, actions).db.certs) && Numbered(Exec(clock, schemas, s, actions).db.certs)
  {
    if actions != [] {
      var before, a := actions[..|actions| - 1], actions[|actions| - 1];
      OneActiveAlways(clock, schemas, s, before);
      var mid := Exec(clock, schemas, s, before);
      match a {
        case Generates(cert) => GenerateKeeps(mid, cert);
        case Activates(id) => ActivateKeeps(mid, id);
        case Deletes(id) => DeleteKeeps(mid, id);
        case Restores(b) => RestoreKeeps(clock, schemas, mid, b);
      }
    }
  }

  // Rows come back ------------------------------------------------------------------------------------

  /** Reading a written time gives the time. */
  ghost predicate GoodClock(clock: Clock) {
    forall t :: clock.fromIso(clock.iso(t)) == Some(t)
  }

  /** A stored row comes back from its dictionary. */
  lemma {:induction false} RowRoundTrip(clock: Clock, schema: Schema, row: Row)
    requires GoodClock(clock) && WellTyped(schema, row)
    ensures Clean(clock, schema, ToDict(clock, row)) == row
    ensures Adopt(clock, schema, ToDict(clock, row)) == Some(row)
  {
    var back := Clean(clock, schema, ToDict(clock, row));
    assert back.Keys == row.Keys;
    forall k | k in row
      ensures back[k] == row[k]
    {
      assert clock.fromIso(clock.iso(if row[k].Time? then row[k].t else 0)) == Some(if row[k].Time? then row[k].t else 0);
    }
    assert back == row;
    BuildFull(schema, row);
  }

  lemma {:induction false} BuildFull(schema: Schema, row: Row)
    requires WellTyped(schema, row)
    ensures Build(schema, row) == Some(row)
  {
    assert Filled(schema, row) == row;
  }

  lemma {:induction false} RowsRoundTrip(clock: Clock, schema: Schema, rows: seq<Row>)
    requires GoodClock(clock) && forall i :: 0 <= i < |rows| ==> WellTyped(schema, rows[i])
    ensures AdoptAll(clock, schema, Dicts(clock, rows)) == Some(rows)
  {
    if rows != [] {
      var before := rows[..|rows| - 1];
      RowsRoundTrip(clock, schema, before);
      RowRoundTrip(clock, schema, rows[|rows| - 1]);
      assert Dicts(clock, rows)[..|rows| - 1] == Dicts(clock, before);
      assert before + [rows[|rows| - 1]] == rows;
    }
  }

  /** One row or none, through its dictionary. */
  lemma {:induction false} OneRoundTrip(clock: Clock, schema: Schema, row: Option<Row>)
    requires GoodClock(clock) && schema != [] && (row.Some? ==> WellTyped(schema, row.value))
    ensures AdoptOne(clock, schema, DictOf(clock, row)) == Some(if row.Some? then [row.value] else [])
  {
    if row.Some? {
      var dict := ToDict(clock, row.value);
      assert schema[0] in schema && schema[0].name in Names(schema);
      assert schema[0].name in dict;
      RowRoundTrip(clock, schema, row.value);
      assert [dict][..0] == [] && AdoptAll(clock, schema, []) == Some([]);
      assert [] + [row.value] == [row.value];
    }
  }

  // Order -------------------------------------------------------------------------------------------

  ghost predicate InOrder(rows: seq<Row>) {
    forall i, j :: 0 <= i < j < |rows| ==> Id(rows[i]) <= Id(rows[j])
  }

  lemma {:induction false} InsertIs(r: Row, rows: seq<Row>)
    ensures multiset(InsertById(r, rows)) == multiset(rows) + multiset{r}
  {
    if rows != [] && Id(r) > Id(rows[0]) {
      InsertIs(r, rows[1..]);
      assert rows == [rows[0]] + rows[1..];
    }
  }

  lemma {:induction false} InsertInOrder(r: Row, rows: seq<Row>)
    requires InOrder(rows)
    ensures InOrder(InsertById(r, rows))
  {
    if rows != [] && Id(r) > Id(rows[0]) {
      var tail := rows[1..];
      InsertInOrder(r, tail);
      InsertIs(r, tail);
      var rest := InsertById(r, tail);
      forall i | 0 <= i < |rest| ensures Id(rows[0]) <= Id(rest[i]) {
        assert rest[i] in multiset(tail) + multiset{r};
      }
    }
  }

  lemma {:induction false} SortIs(rows: seq<Row>)
    ensures multiset(SortById(rows)) == multiset(rows) && InOrder(SortById(rows))
  {
    if rows != [] {
      SortIs(rows[1..]);
      InsertIs(rows[0], SortById(rows[1..]));
      InsertInOrder(rows[0], SortById(rows[1..]));
      assert rows == [rows[0]] + rows[1..];
    }
  }

  lemma {:induction false} SortSorted(rows: seq<Row>)
    requires InOrder(rows)
    ensures SortById(rows) == rows
  {
    if rows != [] {
      SortSorted(rows[1..]);
      assert rows == [rows[0]] + rows[1..];
    }
  }

  /** Rows taken in another order keep what holds of each row, and keep distinct ids. */
  lemma {:induction false} SortKeeps(schema: Schema, rows: seq<Row>)
    requires DistinctIds(rows) && forall i :: 0 <= i < |rows| ==> WellTyped(schema, rows[i])
    ensures DistinctIds(SortById(rows)) && forall i :: 0 <= i < |SortById(rows)| ==> WellTyped(schema, SortById(rows)[i])
  {
    SortIs(rows);
    var sorted := SortById(rows);
    forall i | 0 <= i < |sorted|
      ensures WellTyped(schema, sorted[i])
    {
      assert sorted[i] in multiset(sorted);
      assert sorted[i] in rows;
    }
    forall i, j | 0 <= i < j < |sorted|
      ensures Id(sorted[i]) != Id(sorted[j])
    {
      if Id(sorted[i]) == Id(sorted[j]) {
        Twice(sorted, i, j);
        assert sorted[i] in multiset(rows) && sorted[j] in multiset(rows);
        var m :| 0 <= m < |rows| && rows[m] == sorted[i];
        var n :| 0 <= n < |rows| && rows[n] == sorted[j];
        if sorted[i] == sorted[j] {
          OnlyOnce(rows, m);
        }
        assert false;
      }
    }
  }

  lemma {:induction false} Twice(rows: seq<Row>, i: nat, j: nat)
    requires i < j < |rows|
    ensures rows[i] == rows[j] ==> multiset(rows)[rows[i]] >= 2
  {
    assert rows == rows[..j] + rows[j..];
    assert rows[i] in rows[..j] && rows[j] in rows[j..];
    assert multiset(rows) == multiset(rows[..j]) + multiset(rows[j..]);
    assert rows[..j][i] == rows[i] && rows[j..][0] == rows[j];
  }

  lemma {:induction false} OnlyOnce(rows: seq<Row>, m: nat)
    requires m < |rows| && DistinctIds(rows)
    ensures multiset(rows)[rows[m]] == 1
  {
    assert rows == rows[..m] + [rows[m]] + rows[m + 1..];
    assert multiset(rows) == multiset(rows[..m]) + multiset{rows[m]} + multiset(rows[m + 1..]);
    assert rows[m] !in rows[..m] && rows[m] !in rows[m + 1..];
  }

  // The round trip -------------------------------------------------------------------------------------

  ghost predicate GoodTable(schema: Schema, rows: seq<Row>) {
    schema != [] && DistinctIds(rows) && forall i :: 0 <= i < |rows| ==> WellTyped(schema, rows[i])
  }

  ghost predicate GoodCerts(schema: Schema, certs: seq<Row>) {
    GoodTable(schema, certs) && Numbered(certs)
  }

  ghost predicate GoodTables(s: Schemas, db: Tables) {
    && GoodTable(s.settings, db.settings) && GoodTable(s.clients, db.clients) && GoodTable(s.idps, db.idps)
    && GoodTable(s.keys, db.keys) && GoodTable(s.cie, db.cie) && GoodCerts(s.certs, db.certs)
  }

  lemma {:induction false} ActiveIs(certs: seq<Row>)
    ensures FirstActive(certs).Some? ==> IsActive(FirstActive(certs).value) && FirstActive(certs).value in certs
    ensures FirstActive(certs).None? ==> forall i :: 0 <= i < |certs| ==> !IsActive(certs[i])
  {
    if certs != [] && !IsActive(certs[0]) {
      ActiveIs(certs[1..]);
      assert certs == [certs[0]] + certs[1..];
      assert forall i :: 1 <= i < |certs| ==> certs[i] == certs[1..][i - 1];
    }
  }

  /** What a restore of the own backup leaves in the certificate table. */
  function RestoredCerts(certs: seq<Row>): seq<Row> {
    match ExportedCert(certs)
    case Some(r) => [SetActive(r, true)]
    case None => []
  }

  lemma {:induction false} ExportedIs(certs: seq<Row>)
    ensures ExportedCert(certs).None? <==> certs == []
    ensures ExportedCert(certs).Some? ==> ExportedCert(certs).value in certs
    ensures ExportedCert(certs).Some? ==> (IsActive(ExportedCert(certs).value) <==> FirstActive(certs).Some?)
  {
    ActiveIs(certs);
    SortIs(certs);
    var sorted := SortById(certs);
    assert |sorted| == |multiset(sorted)| == |multiset(certs)| == |certs|;
    if certs != [] {
      assert sorted[|sorted| - 1] in multiset(certs);
    }
  }

  /** The exported certificate comes back alone, and active. */
  lemma {:induction false} CertRoundTrip(clock: Clock, schema: Schema, certs: seq<Row>, next: int)
    requires GoodClock(clock) && GoodCerts(schema, certs) && GoodCertSchema(schema)
    ensures AdoptCert(clock, schema, DictOf(clock, ExportedCert(certs)), next) == Some(RestoredCerts(certs))
    ensures ExportedCert(RestoredCerts(certs)) == if certs == [] then None else Some(SetActive(ExportedCert(certs).value, true))
  {
    ExportedIs(certs);
    if certs != [] {
      var exported := ExportedCert(certs).value;
      var n :| 0 <= n < |certs| && certs[n] == exported;
      RowRoundTrip(clock, schema, exported);
      assert "is_active" in ToDict(clock, exported);
      FlagTyped(schema, exported);
      BuildFull(schema, SetActive(exported, true));
      assert IsActive(RestoredCerts(certs)[0]);
    }
  }

  lemma FlagTyped(schema: Schema, row: Row)
    requires WellTyped(schema, row) && GoodCertSchema(schema)
    ensures WellTyped(schema, SetActive(row, true))
  {
  }

  /** Setting the flag shows in the dictionary exactly when it was not set. */
  lemma FlagShows(clock: Clock, schema: Schema, row: Row)
    requires WellTyped(schema, row) && GoodCertSchema(schema)
    ensures ToDict(clock, SetActive(row, true)) == ToDict(clock, row) <==> IsActive(row)
  {
    assert "is_active" in row;
    if IsActive(row) {
      assert SetActive(row, true) == row;
    } else {
      assert ToDict(clock, SetActive(row, true))["is_active"] == Flag(true);
      assert ToDict(clock, row)["is_active"] == row["is_active"];
    }
  }

  lemma {:induction false} FoundRow(schema: Schema, rows: seq<Row>, id: int)
    requires GoodTable(schema, rows)
    ensures FindRow(rows, id).Some? ==> WellTyped(schema, FindRow(rows, id).value) && Id(FindRow(rows, id).value) == id
  {
    FindRowIs(rows, id);
  }

  /** What a restore of the own backup leaves in the tables. */
  function Restored(db: Tables): Tables {
    Tables(match FindRow(db.settings, 1) case Some(r) => [r] case None => [],
           SortById(db.clients), SortById(db.idps), SortById(db.keys),
           match FindRow(db.cie, 1) case Some(r) => [r] case None => [],
           RestoredCerts(db.certs))
  }

  /** MAIN RESULT. The bundle of a good database is always accepted, and the bundle taken after restoring it is the
  same but for its time if and only if there was no certificate or an active one. */
  lemma {:induction false} ExportRestoreExportIff(clock: Clock, s: Schemas, db: Tables, next: int, now: int, later: int)
    requires GoodClock(clock) && GoodTables(s, db) && GoodCertSchema(s.certs)
    ensures Restore(clock, s, Export(clock, db, now), next) == Some(Restored(db))
    ensures Export(clock, Restored(db), later) == Export(clock, db, now).(exportedAt := later)
            <==> db.certs == [] || FirstActive(db.certs).Some?
  {
    FoundRow(s.settings, db.settings, 1);
    FoundRow(s.cie, db.cie, 1);
    OneRoundTrip(clock, s.settings, FindRow(db.settings, 1));
    OneRoundTrip(clock, s.cie, FindRow(db.cie, 1));
    TableRoundTrip(clock, s.clients, db.clients);
    TableRoundTrip(clock, s.idps, db.idps);
    TableRoundTrip(clock, s.keys, db.keys);
    CertRoundTrip(clock, s.certs, db.certs, next);
    CertShows(clock, s.certs, db.certs);
  }

  lemma {:induction false} CertShows(clock: Clock, schema: Schema, certs: seq<Row>)
    requires GoodClock(clock) && GoodCerts(schema, certs) && GoodCertSchema(schema)
    ensures DictOf(clock, ExportedCert(RestoredCerts(certs))) == DictOf(clock, ExportedCert(certs))
            <==> certs == [] || FirstActive(certs).Some?
  {
    ExportedIs(certs);
    CertRoundTrip(clock, schema, certs, 0);
    if certs != [] {
      var n :| 0 <= n < |certs| && certs[n] == ExportedCert(certs).value;
      FlagShows(clock, schema, ExportedCert(certs).value);
    }
  }

  lemma {:induction false} TableRoundTrip(clock: Clock, schema: Schema, rows: seq<Row>)
    requires GoodClock(clock) && GoodTable(schema, rows)
    ensures AdoptAll(clock, schema, Dicts(clock, SortById(rows))) == Some(SortById(rows))
    ensures DistinctIds(SortById(rows)) && SortById(SortById(rows)) == SortById(rows)
  {
    SortKeeps(schema, rows);
    RowsRoundTrip(clock, schema, SortById(rows));
    SortIs(rows);
    SortSorted(SortById(rows));
  }

  // Reachable databases --------------------------------------------------------------------------------

  /** The rows that an action brings in are rows of the table. */
  ghost predicate GoodAction(s: Schemas, a: Action) {
    a.Generates? && a.cert.Some? ==> WellTyped(s.certs, a.cert.value)
  }

  lemma {:induction false} AdoptedRows(clock: Clock, schema: Schema, dicts: seq<Row>)
    ensures AdoptAll(clock, schema, dicts).Some? ==>
              forall i :: 0 <= i < |AdoptAll(clock, schema, dicts).value| ==> WellTyped(schema, AdoptAll(clock, schema, dicts).value[i])
    ensures AdoptAll(clock, schema, dicts).Some? ==> |AdoptAll(clock, schema, dicts).value| == |dicts|
  {
    if dicts != [] {
      AdoptedRows(clock, schema, dicts[..|dicts| - 1]);
    }
  }

  lemma {:induction false} RestoreGood(clock: Clock, s: Schemas, db: Tables, b: Bundle, next: int)
    requires GoodTables(s, db) && GoodCertSchema(s.certs)
    ensures Restore(clock, s, b, next).Some? ==> GoodTables(s, Restore(clock, s, b, next).value)
  {
    RestoredCert(clock, s.certs, b.cert, next);
    AdoptedRows(clock, s.settings, [b.settings]);
    AdoptedRows(clock, s.cie, [b.cie]);
    AdoptedRows(clock, s.clients, b.clients);
    AdoptedRows(clock, s.idps, b.idps);
    AdoptedRows(clock, s.keys, b.keys);
  }

  lemma {:induction false} FlagGood(schema: Schema, row: Row, b: bool)
    requires GoodCertSchema(schema) && WellTyped(schema, row)
    ensures WellTyped(schema, SetActive(row, b)) && Id(SetActive(row, b)) == Id(row) && (HasNumber(SetActive(row, b)) <==> HasNumber(row))
  {
  }

  lemma {:induction false} GenerateGood(s: State, schema: Schema, cert: Option<Row>)
    requires GoodCertSchema(schema) && GoodCerts(schema, s.db.certs)
    requires cert.Some? ==> WellTyped(schema, cert.value)
    ensures Generate(s, cert).db == s.db.(certs := Generate(s, cert).db.certs)
    ensures GoodCerts(schema, Generate(s, cert).db.certs)
  {
    FindRowIs(s.db.certs, s.nextCert);
    forall i | 0 <= i < |s.db.certs|
      ensures var flagged := SetActive(s.db.certs[i], false);
              WellTyped(schema, flagged) && Id(flagged) == Id(s.db.certs[i]) && HasNumber(flagged)
    {
      FlagGood(schema, s.db.certs[i], false);
    }
    if cert.Some? {
      var row := cert.value["id" := Number(s.nextCert)];
      assert WellTyped(schema, row) && Id(row) == s.nextCert;
      FlagGood(schema, row, true);
    }
  }

  lemma {:induction false} ActivateGood(s: State, schema: Schema, id: int)
    requires GoodCertSchema(schema) && GoodCerts(schema, s.db.certs)
    ensures GoodCerts(schema, Activate(s, id).db.certs)
  {
    forall i | 0 <= i < |s.db.certs|
      ensures var flagged := SetActive(s.db.certs[i], Id(s.db.certs[i]) == id);
              WellTyped(schema, flagged) && Id(flagged) == Id(s.db.certs[i]) && HasNumber(flagged)
    {
      FlagGood(schema, s.db.certs[i], Id(s.db.certs[i]) == id);
    }
  }

  lemma {:induction false} DeleteGood(s: State, schema: Schema, id: int)
    requires GoodCerts(schema, s.db.certs)
    ensures GoodCerts(schema, Delete(s, id).db.certs)
  {
    FindRowIs(s.db.certs, id);
    var certs := s.db.certs;
    if FindRow(certs, id).Some? {
      var n :| 0 <= n < |certs| && Id(certs[n]) == id;
      RemoveAt(certs, n);
      CutGood(schema, certs, n);
    }
  }

  lemma {:induction false} CutGood(schema: Schema, certs: seq<Row>, n: nat)
    requires GoodCerts(schema, certs) && n < |certs|
    ensures GoodCerts(schema, certs[..n] + certs[n + 1..])
  {
    var cut := certs[..n] + certs[n + 1..];
    assert forall j :: 0 <= j < |cut| ==> cut[j] == certs[if j < n then j else j + 1];
  }

  lemma {:induction false} GoodAlways(clock: Clock, schemas: Schemas, s: State, actions: seq<Action>)
    requires GoodTables(schemas, s.db) && GoodCertSchema(schemas.certs)
    requires forall a :: a in actions ==> GoodAction(schemas, a)
    ensures GoodTables(schemas, Exec(clock, schemas, s, actions).db)
  {
    if actions != [] {
      var before, a := actions[..|actions| - 1], actions[|actions| - 1];
      assert a in actions && forall b :: b in before ==> b in actions;
      GoodAlways(clock, schemas, s, before);
      var mid := Exec(clock, schemas, s, before);
      if a.Restores? {
        RestoreGood(clock, schemas, mid.db, a.bundle, mid.nextCert);
      } else if a.Generates? {
        GenerateGood(mid, schemas.certs, a.cert);
      } else if a.Activates? {
        ActivateGood(mid, schemas.certs, a.id);
      } else {
        DeleteGood(mid, schemas.certs, a.id);
      }
    }
  }

  ghost predicate RoundTrips(clock: Clock, schemas: Schemas, s: State, now: int, later: int) {
    var again := Restore(clock, schemas, Export(clock, s.db, now), s.nextCert);
    again.Some? && Export(clock, again.value, later) == Export(clock, s.db, now).(exportedAt := later)
  }

  lemma {:induction false} OneActiveRoundTrip(clock: Clock, schemas: Schemas, s: State, now: int, later: int)
    requires GoodClock(clock) && GoodTables(schemas, s.db) && GoodCertSchema(schemas.certs) && OneActive(s.db.certs)
    ensures RoundTrips(clock, schemas, s, now, later)
  {
    OneActiveFound(s.db.certs);
    hide Export, Restore;
    ExportRestoreExportIff(clock, schemas, s.db, s.nextCert, now, later);
  }

  lemma {:induction false} OneActiveFound(certs: seq<Row>)
    requires OneActive(certs)
    ensures certs == [] || FirstActive(certs).Some?
  {
    ActiveIs(certs);
    if certs != [] {
      var i :| ActiveAt(certs, i);
      assert IsActive(certs[i]);
    }
  }

  /** MAIN RESULT. From every reachable state, export, restore and export give the same bundle but for its time. */
  lemma {:induction false} ReachableRoundTrip(clock: Clock, schemas: Schemas, s: State, actions: seq<Action>, now: int, later: int)
    requires GoodClock(clock) && GoodTables(schemas, s.db) && s.db.certs == [] && GoodCertSchema(schemas.certs)
    requires forall a :: a in actions ==> GoodAction(schemas, a)
    ensures RoundTrips(clock, schemas, Exec(clock, schemas, s, actions), now, later)
  {
    OneActiveAlways(clock, schemas, s, actions);
    GoodAlways(clock, schemas, s, actions);
    OneActiveRoundTrip(clock, schemas, Exec(clock, schemas, s, actions), now, later);
  }
}
