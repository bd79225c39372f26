/** The configuration tables, their backup bundle, and the certificates of which one is active.

A row is a map from column names to values. `iso` writes a time as text and `fromIso` reads it back. */
module Backup {
  import opened Wrappers

  datatype Value = Null | Flag(b: bool) | Number(n: int) | Text(s: string) | Time(t: int) | Json(s: string)

  type Row = map<string, Value>

  /** A column: whether it holds times, and the value the database gives it when none is given. */
  datatype Column = Column(name: string, isTime: bool, fallback: Option<Value>)

  type Schema = seq<Column>

  datatype Clock = Clock(iso: int -> string, fromIso: string -> Option<int>)

  function Names(schema: Schema): set<string> {
    set c | c in schema :: c.name
  }

  predicate IsTimeColumn(schema: Schema, name: string) {
    exists c :: c in schema && c.name == name && c.isTime
  }

  /** The row has exactly the columns of the schema, and times in time columns only. */
  predicate WellTyped(schema: Schema, row: Row) {
    && row.Keys == Names(schema)
    && forall k :: k in row ==> if IsTimeColumn(schema, k) then row[k].Time? || row[k].Null? else !row[k].Time?
  }

  // Rows and dictionaries -----------------------------------------------------------------------------

  function Shown(clock: Clock, v: Value): Value {
    if v.Time? then Text(clock.iso(v.t)) else v
  }

  function ToDict(clock: Clock, row: Row): Row {
    map k | k in row :: Shown(clock, row[k])
  }

  function Cleaned(clock: Clock, schema: Schema, k: string, v: Value): Value {
    if IsTimeColumn(schema, k) && v.Text? then
      match clock.fromIso(v.s)
      case Some(t) => Time(t)
      case None => Null
    else v
  }

  function Clean(clock: Clock, schema: Schema, dict: Row): Row {
    map k | k in dict && k in Names(schema) :: Cleaned(clock, schema, k, dict[k])
  }

  /** The value the database gives a column that a new row does not name. */
  function Fallback(schema: Schema, k: string): Option<Value> {
    if schema == [] then None
    else if schema[0].name == k then schema[0].fallback
    else Fallback(schema[1..], k)
  }

  /** The given columns, and the database's values for the others that have one. */
  function Filled(schema: Schema, given: Row): Row {
    map k | k in Names(schema) && (k in given || Fallback(schema, k).Some?) ::
      if k in given then given[k] else Fallback(schema, k).value
  }

  /** The stored row for given columns; None where the database refuses it. */
  function Build(schema: Schema, given: Row): Option<Row> {
    if WellTyped(schema, Filled(schema, given)) then Some(Filled(schema, given)) else None
  }

  method RowToDict(clock: Clock, schema: Schema, row: Row) returns (result: Row)
    requires WellTyped(schema, row)
    ensures result == ToDict(clock, row)
  {
    result := map[];
    var i := 0;
    while i < |schema|
      invariant 0 <= i <= |schema|
      invariant result.Keys == Names(schema[..i])
      invariant forall k :: k in result ==> k in row && result[k] == Shown(clock, row[k])
    {
      assert schema[i] in schema && schema[i].name in Names(schema);
      var v := row[schema[i].name];
      if v.Time? {
        v := Text(clock.iso(v.t));
      }
      result := result[schema[i].name := v];
      assert schema[..i + 1] == schema[..i] + [schema[i]];
      assert Names(schema[..i + 1]) == Names(schema[..i]) + {schema[i].name};
      i := i + 1;
    }
    assert schema[..i] == schema;
  }

  method CleanRow(clock: Clock, schema: Schema, dict: Row) returns (result: Row)
    ensures result == Clean(clock, schema, dict)
  {
    result := map[];
    var keys := dict.Keys;
    while keys != {}
      invariant keys <= dict.Keys
      invariant result == Clean(clock, schema, map k | k in dict && k !in keys :: dict[k])
      decreases keys
    {
      var k :| k in keys;
      ghost var before := keys;
      keys := keys - {k};
      if k in Names(schema) {
        var v := dict[k];
        if IsTimeColumn(schema, k) && v.Text? {
          var t := clock.fromIso(v.s);
          v := if t.Some? then Time(t.value) else Null;
        }
        result := result[k := v];
      }
    }
    assert (map k | k in dict && k !in {} :: dict[k]) == dict;
  }

  // Tables ------------------------------------------------------------------------------------------

  datatype Tables = Tables(settings: seq<Row>, clients: seq<Row>, idps: seq<Row>, keys: seq<Row>, cie: seq<Row>, certs: seq<Row>)

  datatype Schemas = Schemas(settings: Schema, clients: Schema, idps: Schema, keys: Schema, cie: Schema, certs: Schema)

  datatype Bundle = Bundle(
    version: string, exportedAt: int,
    settings: Row, clients: seq<Row>, idps: seq<Row>, cie: Row, keys: seq<Row>, cert: Row)

  const BACKUP_VERSION := "1"

  function Id(r: Row): int {
    if "id" in r && r["id"].Number? then r["id"].n else 0
  }

  predicate IsActive(r: Row) {
    "is_active" in r && r["is_active"] == Flag(true)
  }

  function SetActive(r: Row, b: bool): Row {
    r["is_active" := Flag(b)]
  }

  function InsertById(r: Row, rows: seq<Row>): seq<Row> {
    if rows == [] || Id(r) <= Id(rows[0]) then [r] + rows
    else [rows[0]] + InsertById(r, rows[1..])
  }

  /** ORDER BY id. */
  function SortById(rows: seq<Row>): seq<Row> {
    if rows == [] then [] else InsertById(rows[0], SortById(rows[1..]))
  }

  function FindRow(rows: seq<Row>, id: int): Option<Row> {
    if rows == [] then None
    else if Id(rows[0]) == id then Some(rows[0])
    else FindRow(rows[1..], id)
  }

  function FirstActive(rows: seq<Row>): Option<Row> {
    if rows == [] then None
    else if IsActive(rows[0]) then Some(rows[0])
    else FirstActive(rows[1..])
  }

  function Newest(rows: seq<Row>): Option<Row> {
    if rows == [] then None else Some(SortById(rows)[|SortById(rows)| - 1])
  }

  function Dicts(clock: Clock, rows: seq<Row>): seq<Row> {
    seq(|rows|, i requires 0 <= i < |rows| => ToDict(clock, rows[i]))
  }

  function DictOf(clock: Clock, row: Option<Row>): Row {
    match row
    case Some(r) => ToDict(clock, r)
    case None => map[]
  }

  /** The exported certificate: the active one, or the newest should none be active. */
  function ExportedCert(certs: seq<Row>): Option<Row> {
    if FirstActive(certs).Some? then FirstActive(certs)
    else Newest(certs)
  }

  function Export(clock: Clock, db: Tables, now: int): Bundle {
    Bundle(BACKUP_VERSION, now,
           DictOf(clock, FindRow(db.settings, 1)),
           Dicts(clock, SortById(db.clients)),
           Dicts(clock, SortById(db.idps)),
           DictOf(clock, FindRow(db.cie, 1)),
           Dicts(clock, SortById(db.keys)),
           DictOf(clock, ExportedCert(db.certs)))
  }

  function Adopt(clock: Clock, schema: Schema, dict: Row): Option<Row> {
    Build(schema, Clean(clock, schema, dict))
  }

  function AdoptAll(clock: Clock, schema: Schema, dicts: seq<Row>): Option<seq<Row>> {
    if dicts == [] then Some([])
    else
      match AdoptAll(clock, schema, dicts[..|dicts| - 1])
      case None => None
      case Some(rows) =>
        match Adopt(clock, schema, dicts[|dicts| - 1])
        case None => None
        case Some(r) => Some(rows + [r])
  }

  /** A part of the bundle that holds one row, or an empty dictionary for none. */
  function AdoptOne(clock: Clock, schema: Schema, dict: Row): Option<seq<Row>> {
    if dict == map[] then Some([]) else AdoptAll(clock, schema, [dict])
  }

  /** The row names no number, and the database gives it the next one. */
  predicate NeedsNumber(row: Row) {
    "id" !in row || row["id"].Null?
  }

  function WithNumber(row: Row, next: int): Row {
    if NeedsNumber(row) then row["id" := Number(next)] else row
  }

  predicate HasNumber(row: Row) {
    "id" in row && row["id"].Number?
  }

  /** The restored certificate is made the active one, whatever the bundle says; a key that is no number is refused. */
  function AdoptCert(clock: Clock, schema: Schema, dict: Row, next: int): Option<seq<Row>> {
    if dict == map[] then Some([])
    else
      match Build(schema, WithNumber(SetActive(Clean(clock, schema, dict), true), next))
      case None => None
      case Some(r) => if HasNumber(r) then Some([r]) else None
  }

  predicate DistinctIds(rows: seq<Row>) {
    forall i, j :: 0 <= i < j < |rows| ==> Id(rows[i]) != Id(rows[j])
  }

  /** The restored tables, with `next` the number for a certificate without one; None when the bundle is refused, and then
  nothing has changed. */
  function Restore(clock: Clock, s: Schemas, b: Bundle, next: int): Option<Tables> {
    var settings := AdoptOne(clock, s.settings, b.settings);
    var clients := AdoptAll(clock, s.clients, b.clients);
    var idps := AdoptAll(clock, s.idps, b.idps);
    var keys := AdoptAll(clock, s.keys, b.keys);
    var cie := AdoptOne(clock, s.cie, b.cie);
    var certs := AdoptCert(clock, s.certs, b.cert, next);
    if b.version == BACKUP_VERSION && settings.Some? && clients.Some? && idps.Some? && keys.Some? && cie.Some? && certs.Some?
       && DistinctIds(clients.value) && DistinctIds(idps.value) && DistinctIds(keys.value)
    then Some(Tables(settings.value, clients.value, idps.value, keys.value, cie.value, certs.value))
    else None
  }

  // Certificates ------------------------------------------------------------------------------------

  function ActivateOnly(certs: seq<Row>, id: int): seq<Row> {
    seq(|certs|, i requires 0 <= i < |certs| => SetActive(certs[i], Id(certs[i]) == id))
  }

  function DeactivateAll(certs: seq<Row>): seq<Row> {
    seq(|certs|, i requires 0 <= i < |certs| => SetActive(certs[i], false))
  }

  function RemoveRow(certs: seq<Row>, id: int): seq<Row> {
    if certs == [] then []
    else if Id(certs[0]) == id then RemoveRow(certs[1..], id)
    else [certs[0]] + RemoveRow(certs[1..], id)
  }

  /** The tables and the number the database gives to the next certificate. */
  datatype State = State(db: Tables, nextCert: int)

  datatype Action =
    | Generates(cert: Option<Row>)
    | Activates(id: int)
    | Deletes(id: int)
    | Restores(bundle: Bundle)

  /** A new certificate, if one could be made. Its number may be taken by a restored row; the insert then fails
  and is undone, except that the number is used up. */
  function Generate(s: State, cert: Option<Row>): State {
    match cert
    case None => s
    case Some(r) =>
      var row := SetActive(r["id" := Number(s.nextCert)], true);
      if FindRow(s.db.certs, s.nextCert).Some? then s.(nextCert := s.nextCert + 1)
      else State(s.db.(certs := DeactivateAll(s.db.certs) + [row]), s.nextCert + 1)
  }

  function Activate(s: State, id: int): State {
    if FindRow(s.db.certs, id).None? then s else s.(db := s.db.(certs := ActivateOnly(s.db.certs, id)))
  }

  function Delete(s: State, id: int): State {
    var found := FindRow(s.db.certs, id);
    if found.None? || IsActive(found.value) then s else s.(db := s.db.(certs := RemoveRow(s.db.certs, id)))
  }

  predicate UsesNumber(clock: Clock, schemas: Schemas, b: Bundle) {
    b.cert != map[] && NeedsNumber(Clean(clock, schemas.certs, b.cert))
  }

  function Act(clock: Clock, schemas: Schemas, s: State, a: Action): State {
    match a
    case Generates(cert) => Generate(s, cert)
    case Activates(id) => Activate(s, id)
    case Deletes(id) => Delete(s, id)
    case Restores(b) =>
      match Restore(clock, schemas, b, s.nextCert)
      case None => s
      case Some(db) => State(db, if UsesNumber(clock, schemas, b) then s.nextCert + 1 else s.nextCert)
  }

  function Exec(clock: Clock, schemas: Schemas, s: State, actions: seq<Action>): State {
    if actions == [] then s
    else Act(clock, schemas, Exec(clock, schemas, s, actions[..|actions| - 1]), actions[|actions| - 1])
  }

  class ConfigStore {
    const clock: Clock
    const schemas: Schemas
    var db: Tables
    var nextCert: int

    constructor (clock: Clock, schemas: Schemas, s: State)
      ensures this.clock == clock && this.schemas == schemas && Value() == s
    {
      this.clock := clock;
      this.schemas := schemas;
      db, nextCert := s.db, s.nextCert;
    }

    function Value(): State
      reads this
    {
      State(db, nextCert)
    }

    /** POST /certs/generate, once the certificate is made. */
    method CertsGenerate(cert: Option<Row>) returns (stored: bool)
      modifies this
      ensures Value() == Generate(old(Value()), cert)
      ensures stored <==> db.certs != old(db).certs
    {
      if cert.None? {
        return false;
      }
      var id := nextCert;
      nextCert := nextCert + 1;
      if FindRow(db.certs, id).Some? {
        return false;
      }
      var certs := db.certs;
      var i := 0;
      while i < |certs|
        invariant 0 <= i <= |certs| == |db.certs|
        invariant forall j :: 0 <= j < |certs| ==> certs[j] == if j < i then SetActive(db.certs[j], false) else db.certs[j]
        invariant db == old(db) && nextCert == old(nextCert) + 1
      {
        certs := certs[i := certs[i]["is_active" := Flag(false)]];
        i := i + 1;
      }
      assert certs == DeactivateAll(db.certs);
      var row := cert.value["id" := Number(id)]["is_active" := Flag(true)];
      db := db.(certs := certs + [row]);
      return true;
    }

    /** POST /certs/{id}/activate */
    method CertsActivate(id: int) returns (found: bool)
      modifies this
      ensures found == FindRow(old(db).certs, id).Some?
      ensures Value() == Activate(old(Value()), id)
    {
      if FindRow(db.certs, id).None? {
        return false;
      }
      var certs := db.certs;
      var i := 0;
      while i < |certs|
        invariant 0 <= i <= |certs| == |db.certs|
        invariant forall j :: 0 <= j < |certs| ==>
          certs[j] == if j < i then SetActive(db.certs[j], Id(db.certs[j]) == id) else db.certs[j]
        invariant db == old(db) && nextCert == old(nextCert)
      {
        certs := certs[i := certs[i]["is_active" := Flag(Id(certs[i]) == id)]];
        i := i + 1;
      }
      assert certs == ActivateOnly(db.certs, id);
      db := db.(certs := certs);
      return true;
    }

    /** POST /certs/{id}/delete; the active one is refused. */
    method CertsDelete(id: int) returns (deleted: bool)
      modifies this
      ensures Value() == Delete(old(Value()), id)
      ensures deleted <==> FindRow(old(db).certs, id).Some? && !IsActive(FindRow(old(db).certs, id).value)
    {
      var cert := FindRow(db.certs, id);
      if cert.None? || IsActive(cert.value) {
        return false;
      }
      db := db.(certs := RemoveRow(db.certs, id));
      return true;
    }

    /** Cleans, builds and adds the rows of one table in the order of the bundle. */
    method AddAll(schema: Schema, dicts: seq<Row>) returns (rows: Option<seq<Row>>)
      ensures rows == AdoptAll(clock, schema, dicts)
    {
      var added: seq<Row> := [];
      var i := 0;
      while i < |dicts|
        invariant 0 <= i <= |dicts|
        invariant AdoptAll(clock, schema, dicts[..i]) == Some(added)
      {
        var data := CleanRow(clock, schema, dicts[i]);
        var row := Build(schema, data);
        assert dicts[..i + 1][..i] == dicts[..i];
        if row.None? {
          AdoptFails(clock, schema, dicts, i + 1);
          return None;
        }
        added := added + [row.value];
        i := i + 1;
      }
      assert dicts[..i] == dicts;
      return Some(added);
    }

    /** The certificate of the bundle, made the active one, and whether it takes the next number. */
    method AddCert(dict: Row) returns (certs: Option<seq<Row>>, numbered: bool)
      ensures certs == AdoptCert(clock, schemas.certs, dict, nextCert)
      ensures numbered <==> dict != map[] && NeedsNumber(Clean(clock, schemas.certs, dict))
    {
      if dict == map[] {
        return Some([]), false;
      }
      var data := CleanRow(clock, schemas.certs, dict);
      data := data["is_active" := Flag(true)];
      numbered := NeedsNumber(data);
      if numbered {
        data := data["id" := Number(nextCert)];
      }
      var row := Build(schemas.certs, data);
      certs := if row.Some? && HasNumber(row.value) then Some([row.value]) else None;
    }

    /** Deletes every table and fills it from the bundle, in one transaction; false when it is undone. */
    method RestoreBundle(b: Bundle) returns (restored: bool)
      modifies this
      ensures restored == Restore(clock, schemas, b, old(nextCert)).Some?
      ensures Value() == Act(clock, schemas, old(Value()), Restores(b))
    {
      hide AdoptCert, NeedsNumber, DistinctIds, Clean;
      if b.version != BACKUP_VERSION {
        return false;
      }
      var settings: Option<seq<Row>> := Some([]);
      if b.settings != map[] {
        settings := AddAll(schemas.settings, [b.settings]);
      }
      var keys := AddAll(schemas.keys, b.keys);
      var clients := AddAll(schemas.clients, b.clients);
      var idps := AddAll(schemas.idps, b.idps);
      var cie: Option<seq<Row>> := Some([]);
      if b.cie != map[] {
        cie := AddAll(schemas.cie, [b.cie]);
      }
      var certs, numbered := AddCert(b.cert);
      if settings.None? || keys.None? || clients.None? || idps.None? || cie.None? || certs.None?
         || !DistinctIds(clients.value) || !DistinctIds(idps.value) || !DistinctIds(keys.value) {
        return false;
      }
      db := Tables(settings.value, clients.value, idps.value, keys.value, cie.value, certs.value);
      if numbered {
        nextCert := nextCert + 1;
      }
      return true;
    }
  }

  lemma {:induction false} AdoptFails(clock: Clock, schema: Schema, dicts: seq<Row>, n: nat)
    requires n <= |dicts| && AdoptAll(clock, schema, dicts[..n]).None?
    ensures AdoptAll(clock, schema, dicts).None?
    decreases |dicts|
  {
    if n < |dicts| {
      assert dicts[..|dicts| - 1][..n] == dicts[..n];
      AdoptFails(clock, schema, dicts[..|dicts| - 1], n);
    } else {
      assert dicts[..n] == dicts;
    }
  }
}
