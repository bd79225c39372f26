/** The history of the SPID service-provider metadata: rows in the database, the override file, the document
SATOSA generated last, and what the public endpoint serves. Each request is one atomic step.

`sha` is the SHA-256 digest as a hexadecimal text; nothing is assumed of it. */
module MetadataHistory {
  import opened Wrappers

  /** A metadata document: the part that is hashed before signing, and the signature added to it. */
  datatype Document = Document(body: string, signature: string)

  datatype Source = Generated | Uploaded

  /** The runtime toggles recorded with a generated row; old rows and uploads have none. */
  datatype Toggles = Toggles(eidas: Option<bool>, environment: Option<string>, legalEntity: Option<bool>)

  datatype Settings = Settings(eidas: bool, environment: string, legalEntity: bool)

  datatype Row = Row(
    id: nat, source: Source, xml: Document, hash: string, certId: Option<nat>,
    exposed: bool, validated: bool, createdAt: int, toggles: Toggles)

  /** What SATOSA generated at its last reload, and the hash under which it reported it. */
  datatype LiveDoc = LiveDoc(doc: Document, hash: string)

  datatype Site = Site(
    rows: seq<Row>, nextId: nat, overrideFile: Option<Document>, live: Option<LiveDoc>, settings: Option<Settings>)

  type Sha = string -> string

  /** The bytes of a document. */
  function Text(d: Document): string {
    d.body + d.signature
  }

  /** The hash of a snapshot: the reported semantic hash, or the digest of the signed text without one. */
  function ContentHash(sha: Sha, d: Document, semantic: Option<string>): string {
    if semantic.Some? && semantic.value != "" then semantic.value else sha(Text(d))
  }

  // Queries ----------------------------------------------------------------------------------------

  function Find(rows: seq<Row>, id: nat): Option<Row> {
    if rows == [] then None
    else if rows[0].id == id then Some(rows[0])
    else Find(rows[1..], id)
  }

  /** The generated row that comes first by `id DESC`. */
  function NewestById(rows: seq<Row>): Option<Row> {
    if rows == [] then None
    else
      var best := NewestById(rows[..|rows| - 1]);
      var r := rows[|rows| - 1];
      if r.source == Generated && (best.None? || r.id > best.value.id) then Some(r) else best
  }

  /** The generated row that comes first by `created_at DESC, id DESC`. */
  function NewestByTime(rows: seq<Row>): Option<Row> {
    if rows == [] then None
    else
      var best := NewestByTime(rows[..|rows| - 1]);
      var r := rows[|rows| - 1];
      if r.source == Generated &&
         (best.None? || r.createdAt > best.value.createdAt || (r.createdAt == best.value.createdAt && r.id > best.value.id))
      then Some(r) else best
  }

  predicate IsDuplicateUpload(rows: seq<Row>, hash: string) {
    exists i :: 0 <= i < |rows| && rows[i].source == Uploaded && rows[i].hash == hash
  }

  // Requests ---------------------------------------------------------------------------------------

  function ExposeOnly(rows: seq<Row>, id: nat): seq<Row> {
    seq(|rows|, i requires 0 <= i < |rows| => rows[i].(exposed := rows[i].id == id))
  }

  function ValidateOnly(rows: seq<Row>, id: nat): seq<Row> {
    seq(|rows|, i requires 0 <= i < |rows| => rows[i].(validated := rows[i].id == id))
  }

  function Hide(rows: seq<Row>, id: nat): seq<Row> {
    seq(|rows|, i requires 0 <= i < |rows| => if rows[i].id == id then rows[i].(exposed := false) else rows[i])
  }

  function Remove(rows: seq<Row>, id: nat): seq<Row> {
    if rows == [] then []
    else if rows[0].id == id then Remove(rows[1..], id)
    else [rows[0]] + Remove(rows[1..], id)
  }

  function CurrentToggles(s: Option<Settings>): Toggles {
    match s
    case Some(v) => Toggles(Some(v.eidas), Some(v.environment), Some(v.legalEntity))
    case None => Toggles(None, None, None)
  }

  /** The row of a snapshot: exposed if it is the first generated one, or if the newest one is. */
  function NewRow(sha: Sha, s: Site, d: Document, semantic: Option<string>, cert: Option<nat>, now: int): Row {
    var last := NewestById(s.rows);
    Row(s.nextId, Generated, d, ContentHash(sha, d, semantic), cert, last.None? || last.value.exposed, false, now,
        CurrentToggles(s.settings))
  }

  /** A new row takes the exposed flag over from the newest generated one. */
  function AddRow(s: Site, row: Row): Site {
    var last := NewestById(s.rows);
    var rows := if last.Some? && last.value.exposed then Hide(s.rows, last.value.id) else s.rows;
    s.(rows := rows + [row], nextId := s.nextId + 1)
  }

  function Snapshot(sha: Sha, s: Site, d: Document, semantic: Option<string>, cert: Option<nat>, now: int): Site {
    var last := NewestById(s.rows);
    if last.Some? && last.value.hash == ContentHash(sha, d, semantic) then s
    else AddRow(s, NewRow(sha, s, d, semantic, cert, now))
  }

  /** A SATOSA reload: a new live document, reported at once. */
  function Reload(sha: Sha, s: Site, d: Document, semantic: Option<string>, cert: Option<nat>, now: int): Site {
    Snapshot(sha, s.(live := Some(LiveDoc(d, ContentHash(sha, d, semantic)))), d, semantic, cert, now)
  }

  /** The toggles of an exposed row are put back, where the row recorded them, unless it recorded neither of the two
  that only newer rows have. */
  function Restored(v: Settings, t: Toggles): (r: Settings)
    ensures t.eidas.Some? || t.legalEntity.Some? ==>
              && (t.eidas.Some? ==> r.eidas == t.eidas.value)
              && (t.environment.Some? ==> r.environment == t.environment.value)
              && (t.legalEntity.Some? ==> r.legalEntity == t.legalEntity.value)
  {
    if t.eidas.None? && t.legalEntity.None? then v
    else Settings(if t.eidas.Some? then t.eidas.value else v.eidas,
                  if t.environment.Some? then t.environment.value else v.environment,
                  if t.legalEntity.Some? then t.legalEntity.value else v.legalEntity)
  }

  function Expose(s: Site, id: nat): Site {
    var found := Find(s.rows, id);
    if found.None? then s
    else
      var latest := NewestByTime(s.rows);
      s.(rows := ExposeOnly(s.rows, id),
         overrideFile := if latest.Some? && latest.value.id == id then None else Some(found.value.xml),
         settings := if s.settings.Some? then Some(Restored(s.settings.value, found.value.toggles)) else None)
  }

  function Validate(s: Site, id: nat): Site {
    if Find(s.rows, id).None? then s else s.(rows := ValidateOnly(s.rows, id))
  }

  function Upload(sha: Sha, s: Site, d: Document, wellFormed: bool, now: int): Site {
    if !wellFormed || IsDuplicateUpload(s.rows, sha(Text(d))) then s
    else
      var row := Row(s.nextId, Uploaded, d, sha(Text(d)), None, false, false, now, Toggles(None, None, None));
      s.(rows := s.rows + [row], nextId := s.nextId + 1)
  }

  function Delete(s: Site, id: nat): Site {
    var found := Find(s.rows, id);
    if found.None? || found.value.exposed || found.value.validated then s else s.(rows := Remove(s.rows, id))
  }

  /** What GET /spidSaml2/metadata answers. */
  function Served(s: Site): Option<Document> {
    if s.overrideFile.Some? then s.overrideFile
    else if s.live.Some? then Some(s.live.value.doc)
    else None
  }

  datatype Request =
    | Reloads(doc: Document, hasSemantic: bool, cert: Option<nat>)
    | Exposes(id: nat)
    | Validates(id: nat)
    | Uploads(doc: Document, wellFormed: bool)
    | Deletes(id: nat)

  /** SATOSA's semantic hash is the digest of the body; an older image sends none. */
  function Semantic(sha: Sha, d: Document, sent: bool): Option<string> {
    if sent then Some(sha(d.body)) else None
  }

  function Serve(sha: Sha, s: Site, r: Request, now: int): Site {
    match r
    case Reloads(d, sent, cert) => Reload(sha, s, d, Semantic(sha, d, sent), cert, now)
    case Exposes(id) => Expose(s, id)
    case Validates(id) => Validate(s, id)
    case Uploads(d, ok) => Upload(sha, s, d, ok, now)
    case Deletes(id) => Delete(s, id)
  }

  // The same as methods on a store -------------------------------------------------------------------

  class MetadataStore {
    const sha: Sha
    var rows: seq<Row>
    var nextId: nat
    var overrideFile: Option<Document>
    var live: Option<LiveDoc>
    var settings: Option<Settings>

    constructor (sha: Sha, settings: Option<Settings>)
      ensures this.sha == sha && Value() == Site([], 1, None, None, settings)
    {
      this.sha := sha;
      rows, nextId, overrideFile, live := [], 1, None, None;
      this.settings := settings;
    }

    function Value(): Site
      reads this
    {
      Site(rows, nextId, overrideFile, live, settings)
    }

    /** The stored row `id`, looked for before the newest one, is no longer exposed. */
    method LowerFlag(id: nat)
      requires rows != []
      modifies `rows
      ensures rows == Hide(old(rows)[..|old(rows)| - 1], id) + [old(rows)[|old(rows)| - 1]]
    {
      ghost var before, row := rows[..|rows| - 1], rows[|rows| - 1];
      var i := 0;
      while i < |rows| - 1
        invariant 0 <= i <= |rows| - 1 == |before|
        invariant rows[|before|] == row
        invariant forall j :: 0 <= j < |before| ==> rows[j] == if j < i then Hide(before, id)[j] else before[j]
      {
        if rows[i].id == id {
          rows := rows[i := rows[i].(exposed := false)];
        }
        i := i + 1;
      }
      assert rows == Hide(before, id) + [row];
    }

    /** The new row is stored; the flag of the old one falls only after it is in. */
    method AddGenerated(row: Row, wasLive: bool, last: nat)
      modifies `rows, `nextId
      ensures rows == (if wasLive then Hide(old(rows), last) else old(rows)) + [row]
      ensures nextId == old(nextId) + 1
    {
      ghost var before := rows;
      rows, nextId := rows + [row], nextId + 1;
      assert rows[..|rows| - 1] == before;
      if wasLive {
        LowerFlag(last);
      }
    }

    /** POST /internal/spid-metadata-snapshot */
    method LogSnapshot(d: Document, semantic: Option<string>, cert: Option<nat>, now: int)
      modifies this
      ensures Value() == Snapshot(sha, old(Value()), d, semantic, cert, now)
    {
      var hash := if semantic.Some? && semantic.value != "" then semantic.value else sha(Text(d));
      var last := NewestById(rows);
      if last.None? || last.value.hash != hash {
        var wasLive := last.Some? && last.value.exposed;
        var row := Row(nextId, Generated, d, hash, cert, last.None? || wasLive, false, now, CurrentToggles(settings));
        AddGenerated(row, wasLive, if wasLive then last.value.id else 0);
      }
    }

    method ReloadSatosa(d: Document, semantic: Option<string>, cert: Option<nat>, now: int)
      modifies this
      ensures Value() == Reload(sha, old(Value()), d, semantic, cert, now)
    {
      live := Some(LiveDoc(d, ContentHash(sha, d, semantic)));
      LogSnapshot(d, semantic, cert, now);
    }

    /** The settings that differ from the recorded toggles are set to them. */
    static method Realigned(settings: Settings, t: Toggles) returns (v: Settings)
      requires t.eidas.Some? || t.legalEntity.Some?
      ensures v == Restored(settings, t)
    {
      v := settings;
      if t.eidas.Some? && v.eidas != t.eidas.value {
        v := v.(eidas := t.eidas.value);
      }
      if t.environment.Some? && v.environment != t.environment.value {
        v := v.(environment := t.environment.value);
      }
      if t.legalEntity.Some? && v.legalEntity != t.legalEntity.value {
        v := v.(legalEntity := t.legalEntity.value);
      }
    }

    /** POST /metadata/{id}/expose */
    method MetadataExpose(id: nat) returns (found: bool)
      modifies this
      ensures found == Find(old(rows), id).Some?
      ensures Value() == Expose(old(Value()), id)
    {
      var version := Find(rows, id);
      if version.None? {
        return false;
      }
      var latest := NewestByTime(rows);
      ghost var before := rows;
      var i := 0;
      while i < |rows|
        invariant 0 <= i <= |rows| == |before|
        invariant forall j :: 0 <= j < |before| ==> rows[j] == if j < i then ExposeOnly(before, id)[j] else before[j]
        modifies `rows
      {
        rows := rows[i := rows[i].(exposed := rows[i].id == id)];
        i := i + 1;
      }
      assert rows == ExposeOnly(before, id);
      if latest.Some? && version.value.id == latest.value.id {
        overrideFile := None;
      } else {
        overrideFile := Some(version.value.xml);
      }
      FindHasId(before, id);
      var t := version.value.toggles;
      if (t.eidas.Some? || t.legalEntity.Some?) && settings.Some? {
        var v := Realigned(settings.value, t);
        settings := Some(v);
      }
      return true;
    }

    /** POST /metadata/{id}/validate */
    method MetadataValidate(id: nat) returns (found: bool)
      modifies this
      ensures found == Find(old(rows), id).Some?
      ensures Value() == Validate(old(Value()), id)
    {
      if Find(rows, id).None? {
        return false;
      }
      ghost var before := rows;
      var i := 0;
      while i < |rows|
        invariant 0 <= i <= |rows| == |before|
        invariant forall j :: 0 <= j < |before| ==> rows[j] == if j < i then ValidateOnly(before, id)[j] else before[j]
        invariant nextId == old(nextId) && overrideFile == old(overrideFile) && live == old(live) && settings == old(settings)
      {
        rows := rows[i := rows[i].(validated := rows[i].id == id)];
        i := i + 1;
      }
      assert rows == ValidateOnly(before, id);
      return true;
    }

    /** POST /metadata/upload; false when the file is refused. */
    method MetadataUpload(d: Document, wellFormed: bool, now: int) returns (stored: bool)
      modifies this
      ensures stored == (wellFormed && !IsDuplicateUpload(old(rows), sha(Text(d))))
      ensures Value() == Upload(sha, old(Value()), d, wellFormed, now)
    {
      if !wellFormed {
        return false;
      }
      var hash := sha(Text(d));
      if IsDuplicateUpload(rows, hash) {
        return false;
      }
      rows := rows + [Row(nextId, Uploaded, d, hash, None, false, false, now, Toggles(None, None, None))];
      nextId := nextId + 1;
      return true;
    }

    /** POST /metadata/{id}/delete; an exposed or validated row is refused. */
    method MetadataDelete(id: nat) returns (deleted: bool)
      modifies this
      ensures deleted <==> Find(old(rows), id).Some? && Find(rows, id).None?
      ensures Value() == Delete(old(Value()), id)
    {
      var version := Find(rows, id);
      if version.None? || version.value.exposed || version.value.validated {
        return false;
      }
      rows := Remove(rows, id);
      RemovedIsGone(old(rows), id);
      return true;
    }

    /** GET /spidSaml2/metadata */
    method MetadataEndpoint() returns (d: Option<Document>)
      ensures d == Served(Value())
    {
      var replacement := overrideFile;
      if replacement.Some? {
        return replacement;
      }
      return if live.Some? then Some(live.value.doc) else None;
    }
  }

  lemma {:induction false} FindHasId(rows: seq<Row>, id: nat)
    ensures Find(rows, id).Some? ==> Find(rows, id).value.id == id && Find(rows, id).value in rows
    ensures Find(rows, id).None? ==> forall r :: r in rows ==> r.id != id
  {
    if rows != [] {
      FindHasId(rows[1..], id);
      assert rows == [rows[0]] + rows[1..];
    }
  }

  lemma {:induction false} RemovedIsGone(rows: seq<Row>, id: nat)
    ensures Find(Remove(rows, id), id).None?
  {
    if rows != [] {
      RemovedIsGone(rows[1..], id);
      if rows[0].id != id {
        assert Remove(rows, id)[1..] == Remove(rows[1..], id);
      }
    }
  }
}
