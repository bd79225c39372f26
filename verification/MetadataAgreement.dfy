/** The exposed flag, the override file and the served metadata agree, over every run of requests.

The flags and the override file agree from the first snapshot on exactly as long as two requests are kept out: exposing
a row before there is a generated one, and deleting the newest generated row when that leaves none or brings back the
pinned one. The endpoint serves the exposed row exactly as long as a third one is kept out besides: exposing the newest
generated row while the live document carries another hash. An operator can recognise each before sending it. */
module MetadataAgreement {
  import opened Wrappers
  import opened MetadataHistory

  // What must agree ---------------------------------------------------------------------------------

  function ExposedIds(rows: seq<Row>): set<nat> {
    set i | 0 <= i < |rows| && rows[i].exposed :: rows[i].id
  }

  /** Row `e` is the exposed one, and the override file is there exactly when it is not the newest generated. */
  ghost predicate Shows(s: Site, e: nat) {
    && ExposedIds(s.rows) == {e}
    && NewestById(s.rows).Some? && Find(s.rows, e).Some?
    && s.overrideFile == if NewestById(s.rows).value.id == e then None else Some(Find(s.rows, e).value.xml)
  }

  ghost predicate Agrees(s: Site) {
    if NewestById(s.rows).None? then ExposedIds(s.rows) == {} && s.overrideFile == None
    else exists e :: Shows(s, e)
  }

  /** A document carries a hash, over its unsigned body or over its whole text. */
  predicate Carries(sha: Sha, d: Document, hash: string) {
    hash == sha(d.body) || hash == sha(Text(d))
  }

  /** The live document carries the hash of the newest generated row. */
  predicate LiveCarries(sha: Sha, s: Site) {
    NewestById(s.rows).Some? ==> s.live.Some? && Carries(sha, s.live.value.doc, NewestById(s.rows).value.hash)
  }

  /** Row `e` is the one exposed row, and the served document carries its hash. */
  ghost predicate ServesRow(sha: Sha, s: Site, e: nat) {
    && ExposedIds(s.rows) == {e} && Find(s.rows, e).Some? && Served(s).Some?
    && Carries(sha, Served(s).value, Find(s.rows, e).value.hash)
    && (s.overrideFile.Some? ==> Served(s).value == Find(s.rows, e).value.xml)
  }

  /** All agree, and the exposed row is served. */
  ghost predicate ServesExposed(sha: Sha, s: Site) {
    Agrees(s) && (NewestById(s.rows).Some? ==> exists e :: ServesRow(sha, s, e))
  }

  /** Ids grow with insertion and are never given again; creation times do not decrease with them. */
  ghost predicate Ordered(s: Site) {
    && Increasing(s.rows)
    && (forall r :: r in s.rows ==> r.id < s.nextId)
  }

  ghost predicate Increasing(rows: seq<Row>) {
    forall i, j :: 0 <= i < j < |rows| ==> rows[i].id < rows[j].id && rows[i].createdAt <= rows[j].createdAt
  }

  ghost predicate HashesFit(sha: Sha, s: Site) {
    && (forall r :: r in s.rows ==> Carries(sha, r.xml, r.hash))
    && (s.live.Some? ==> Carries(sha, s.live.value.doc, s.live.value.hash))
  }

  // Queries on ordered rows -------------------------------------------------------------------------

  lemma {:induction false} NewestIs(rows: seq<Row>)
    ensures NewestById(rows).Some? ==>
              var g := NewestById(rows).value;
              g in rows && g.source == Generated && forall r :: r in rows && r.source == Generated ==> r.id <= g.id
    ensures NewestById(rows).None? ==> forall r :: r in rows ==> r.source != Generated
  {
    if rows != [] {
      NewestIs(rows[..|rows| - 1]);
      assert rows == rows[..|rows| - 1] + [rows[|rows| - 1]];
    }
  }

  lemma {:induction false} NewestByTimeIs(rows: seq<Row>)
    ensures NewestByTime(rows).Some? ==>
              var g := NewestByTime(rows).value;
              g in rows && g.source == Generated &&
              forall r :: r in rows && r.source == Generated ==>
                r.createdAt < g.createdAt || (r.createdAt == g.createdAt && r.id <= g.id)
    ensures NewestByTime(rows).None? ==> forall r :: r in rows ==> r.source != Generated
  {
    if rows != [] {
      NewestByTimeIs(rows[..|rows| - 1]);
      assert rows == rows[..|rows| - 1] + [rows[|rows| - 1]];
    }
  }

  lemma {:induction false} SameIdSameRow(rows: seq<Row>, r: Row, q: Row)
    requires Increasing(rows) && r in rows && q in rows
    ensures r.id == q.id ==> r == q
    ensures r.id < q.id ==> r.createdAt <= q.createdAt
  {
    var i :| 0 <= i < |rows| && rows[i] == r;
    var j :| 0 <= j < |rows| && rows[j] == q;
  }

  /** The two orders of the two routes pick the same row. */
  lemma {:induction false} OrdersAgree(rows: seq<Row>)
    requires Increasing(rows)
    ensures NewestByTime(rows) == NewestById(rows)
  {
    NewestIs(rows);
    NewestByTimeIs(rows);
    if NewestById(rows).Some? {
      SameIdSameRow(rows, NewestById(rows).value, NewestByTime(rows).value);
      SameIdSameRow(rows, NewestByTime(rows).value, NewestById(rows).value);
    }
  }

  /** The newest generated row is the one no generated row is above. */
  lemma {:induction false} NewestFrom(rows: seq<Row>, g: Row)
    requires Increasing(rows) && g in rows && g.source == Generated
    requires forall r :: r in rows && r.source == Generated ==> r.id <= g.id
    ensures NewestById(rows) == Some(g)
  {
    NewestIs(rows);
    SameIdSameRow(rows, g, NewestById(rows).value);
  }

  lemma {:induction false} FindFrom(rows: seq<Row>, r: Row)
    requires Increasing(rows) && r in rows
    ensures Find(rows, r.id) == Some(r)
  {
    FindHasId(rows, r.id);
    SameIdSameRow(rows, r, Find(rows, r.id).value);
  }

  lemma {:induction false} RemoveHas(rows: seq<Row>, id: nat)
    ensures forall r :: r in Remove(rows, id) <==> r in rows && r.id != id
  {
    if rows != [] {
      RemoveHas(rows[1..], id);
      assert rows == [rows[0]] + rows[1..];
    }
  }

  lemma {:induction false} RemoveIs(rows: seq<Row>, id: nat)
    ensures forall r :: r in Remove(rows, id) <==> r in rows && r.id != id
    ensures Increasing(rows) ==> Increasing(Remove(rows, id))
  {
    RemoveHas(rows, id);
    if rows != [] && Increasing(rows) {
      var tail, rest := rows[1..], Remove(rows[1..], id);
      assert Increasing(tail) && forall k :: 0 <= k < |tail| ==> tail[k] == rows[k + 1];
      RemoveIs(tail, id);
      PutFirst(rows[0], tail, rest);
    }
  }

  /** A row below all of these stays below some of them. */
  lemma PutFirst(row: Row, tail: seq<Row>, rest: seq<Row>)
    requires Increasing(rest) && forall r :: r in rest ==> r in tail
    requires forall k :: 0 <= k < |tail| ==> row.id < tail[k].id && row.createdAt <= tail[k].createdAt
    ensures Increasing([row] + rest)
  {
    forall j | 0 <= j < |rest| ensures row.id < rest[j].id && row.createdAt <= rest[j].createdAt {
      assert rest[j] in tail;
    }
  }

  /** The same row with other flags. */
  predicate SameContent(a: Row, b: Row) {
    a == b.(exposed := a.exposed, validated := a.validated)
  }

  ghost predicate Reflagged(rows: seq<Row>, rows': seq<Row>) {
    |rows'| == |rows| && forall i :: 0 <= i < |rows| ==> SameContent(rows'[i], rows[i])
  }

  lemma {:induction false} ReflaggedQueries(rows: seq<Row>, rows': seq<Row>)
    requires Reflagged(rows, rows')
    ensures NewestById(rows').Some? == NewestById(rows).Some?
    ensures NewestById(rows).Some? ==> SameContent(NewestById(rows').value, NewestById(rows).value)
    ensures Increasing(rows) ==> Increasing(rows')
  {
    if rows != [] {
      ReflaggedQueries(rows[..|rows| - 1], rows'[..|rows| - 1]);
    }
  }

  lemma {:induction false} ReflaggedFind(rows: seq<Row>, rows': seq<Row>, id: nat)
    requires Reflagged(rows, rows')
    ensures Find(rows', id).Some? == Find(rows, id).Some?
    ensures Find(rows, id).Some? ==> SameContent(Find(rows', id).value, Find(rows, id).value)
  {
    if rows != [] {
      ReflaggedFind(rows[1..], rows'[1..], id);
    }
  }

  /** No row was created after `now`. */
  ghost predicate CreatedBy(rows: seq<Row>, now: int) {
    forall r :: r in rows ==> r.createdAt <= now
  }

  lemma {:induction false} AppendExposed(rows: seq<Row>, row: Row)
    ensures ExposedIds(rows + [row]) == ExposedIds(rows) + if row.exposed then {row.id} else {}
  {
    var all := rows + [row];
    assert all[|rows|] == row;
    assert forall i :: 0 <= i < |rows| ==> all[i] == rows[i];
    assert forall i :: 0 <= i < |rows| && rows[i].exposed ==> all[i].id in ExposedIds(all);
    if row.exposed {
      assert all[|rows|].id in ExposedIds(all);
    }
  }

  lemma {:induction false} AppendNewest(rows: seq<Row>, row: Row)
    requires Increasing(rows) && CreatedBy(rows, row.createdAt)
    requires forall r :: r in rows ==> r.id < row.id
    ensures Increasing(rows + [row])
    ensures NewestById(rows + [row]) == if row.source == Generated then Some(row) else NewestById(rows)
  {
    var all := rows + [row];
    assert all[..|rows|] == rows;
    assert forall i :: 0 <= i < |rows| ==> all[i] == rows[i] && rows[i] in rows;
    NewestIs(rows);
  }

  lemma {:induction false} AppendRow(rows: seq<Row>, row: Row)
    requires Increasing(rows) && CreatedBy(rows, row.createdAt)
    requires forall r :: r in rows ==> r.id < row.id
    ensures Increasing(rows + [row])
    ensures ExposedIds(rows + [row]) == ExposedIds(rows) + if row.exposed then {row.id} else {}
    ensures NewestById(rows + [row]) == if row.source == Generated then Some(row) else NewestById(rows)
    ensures Find(rows + [row], row.id) == Some(row)
    ensures forall id :: Find(rows, id).Some? ==> Find(rows + [row], id) == Find(rows, id)
  {
    AppendExposed(rows, row);
    AppendNewest(rows, row);
    FindFrom(rows + [row], row);
    forall id | Find(rows, id).Some?
      ensures Find(rows + [row], id) == Find(rows, id)
    {
      FindHasId(rows, id);
      FindFrom(rows + [row], Find(rows, id).value);
    }
  }

  lemma {:induction false} HideRow(rows: seq<Row>, id: nat)
    ensures Reflagged(rows, Hide(rows, id))
    ensures ExposedIds(Hide(rows, id)) == ExposedIds(rows) - {id}
    ensures forall r :: r in Hide(rows, id) ==> exists q :: q in rows && SameContent(r, q)
  {
    var hidden := Hide(rows, id);
    assert forall i :: 0 <= i < |rows| && rows[i].exposed && rows[i].id != id ==>
      hidden[i].exposed && hidden[i].id in ExposedIds(hidden);
    assert forall i :: 0 <= i < |rows| && hidden[i].exposed ==> rows[i].exposed && rows[i].id in ExposedIds(rows);
    forall r | r in hidden
      ensures exists q :: q in rows && SameContent(r, q)
    {
      var i :| 0 <= i < |hidden| && hidden[i] == r;
      assert rows[i] in rows && SameContent(r, rows[i]);
    }
  }

  // Requests that keep the agreement ------------------------------------------------------------------

  lemma {:induction false} SnapshotKeeps(sha: Sha, s: Site, d: Document, semantic: Option<string>, cert: Option<nat>, now: int)
    requires Ordered(s) && Agrees(s) && CreatedBy(s.rows, now)
    ensures var s' := Snapshot(sha, s, d, semantic, cert, now);
            && Ordered(s') && Agrees(s')
            && NewestById(s'.rows).Some? && NewestById(s'.rows).value.hash == ContentHash(sha, d, semantic)
  {
    hide Ordered, Agrees, CreatedBy, AddRow, ContentHash;
    SnapshotAdds(s, NewRow(sha, s, d, semantic, cert, now));
  }

  /** The site with a new generated row, which takes the flag over from the newest one. */
  lemma {:induction false} SnapshotAdds(s: Site, row: Row)
    requires Ordered(s) && Agrees(s) && CreatedBy(s.rows, row.createdAt)
    requires row.id == s.nextId && row.source == Generated
    requires row.exposed <==> NewestById(s.rows).None? || NewestById(s.rows).value.exposed
    ensures Ordered(AddRow(s, row)) && Agrees(AddRow(s, row)) && NewestById(AddRow(s, row).rows) == Some(row)
  {
    hide Ordered, Agrees, CreatedBy, Hide;
    var last := NewestById(s.rows);
    if last.None? {
      SnapshotFirst(s, row);
    } else if last.value.exposed {
      SnapshotFollows(s, s.(rows := Hide(s.rows, last.value.id) + [row], nextId := s.nextId + 1), row);
    } else {
      SnapshotBeside(s, s.(rows := s.rows + [row], nextId := s.nextId + 1), row);
    }
  }

  /** The first generated row is exposed at once. */
  lemma {:induction false} SnapshotFirst(s: Site, row: Row)
    requires Ordered(s) && Agrees(s) && CreatedBy(s.rows, row.createdAt) && NewestById(s.rows).None?
    requires row.id == s.nextId && row.exposed && row.source == Generated
    ensures var s' := s.(rows := s.rows + [row], nextId := s.nextId + 1);
            Ordered(s') && Agrees(s') && NewestById(s'.rows) == Some(row)
  {
    var s' := s.(rows := s.rows + [row], nextId := s.nextId + 1);
    AppendRow(s.rows, row);
    assert Shows(s', row.id);
  }

  /** The new row comes in beside an exposed row that is pinned. */
  lemma {:induction false} SnapshotBeside(s: Site, s': Site, row: Row)
    requires Ordered(s) && Agrees(s) && CreatedBy(s.rows, row.createdAt)
    requires NewestById(s.rows).Some? && !NewestById(s.rows).value.exposed
    requires row.id == s.nextId && !row.exposed && row.source == Generated
    requires s' == s.(rows := s.rows + [row], nextId := s.nextId + 1)
    ensures Ordered(s') && Agrees(s') && NewestById(s'.rows) == Some(row)
  {
    AppendRow(s.rows, row);
    var e :| Shows(s, e);
    NewestIs(s.rows);
    NotNewest(s.rows, NewestById(s.rows).value, e);
    FindHasId(s.rows, e);
    assert Shows(s', e);
  }

  /** The new row takes the flag over from the newest one. */
  lemma {:induction false} SnapshotFollows(s: Site, s': Site, row: Row)
    requires Ordered(s) && Agrees(s) && CreatedBy(s.rows, row.createdAt)
    requires NewestById(s.rows).Some? && NewestById(s.rows).value.exposed
    requires row.id == s.nextId && row.exposed && row.source == Generated
    requires s' == s.(rows := Hide(s.rows, NewestById(s.rows).value.id) + [row], nextId := s.nextId + 1)
    ensures Ordered(s') && Agrees(s') && NewestById(s'.rows) == Some(row)
  {
    var last := NewestById(s.rows).value;
    NewestIs(s.rows);
    HiddenFits(s, last.id, row);
    AppendRow(Hide(s.rows, last.id), row);
    var e :| Shows(s, e);
    ExposedNewest(s.rows, last, e);
    assert Shows(s', row.id);
  }

  /** The rows with one flag down still fit below the new row. */
  lemma {:induction false} HiddenFits(s: Site, id: nat, row: Row)
    requires Ordered(s) && CreatedBy(s.rows, row.createdAt) && row.id == s.nextId
    ensures var hidden := Hide(s.rows, id);
            && Increasing(hidden) && CreatedBy(hidden, row.createdAt) && ExposedIds(hidden) == ExposedIds(s.rows) - {id}
            && forall r :: r in hidden ==> r.id < row.id
  {
    HideRow(s.rows, id);
    ReflaggedQueries(s.rows, Hide(s.rows, id));
  }

  lemma {:induction false} ExposedNewest(rows: seq<Row>, g: Row, e: nat)
    requires g in rows && g.exposed && ExposedIds(rows) == {e}
    ensures g.id == e
  {
    var i :| 0 <= i < |rows| && rows[i] == g;
    assert rows[i].id in ExposedIds(rows);
  }

  lemma {:induction false} NotNewest(rows: seq<Row>, g: Row, e: nat)
    requires Increasing(rows) && g in rows && !g.exposed && ExposedIds(rows) == {e}
    ensures g.id != e
  {
    assert e in ExposedIds(rows);
    var i :| 0 <= i < |rows| && rows[i].exposed && rows[i].id == e;
    SameIdSameRow(rows, rows[i], g);
  }

  lemma {:induction false} ExposeOnlyIds(rows: seq<Row>, id: nat)
    requires Find(rows, id).Some?
    ensures Reflagged(rows, ExposeOnly(rows, id))
    ensures ExposedIds(ExposeOnly(rows, id)) == {id}
  {
    FindHasId(rows, id);
    var i :| 0 <= i < |rows| && rows[i] == Find(rows, id).value;
    assert ExposeOnly(rows, id)[i].exposed && ExposeOnly(rows, id)[i].id in ExposedIds(ExposeOnly(rows, id));
  }

  lemma {:induction false} ExposeOrdered(s: Site, id: nat)
    requires Ordered(s)
    ensures Ordered(Expose(s, id))
  {
    if Find(s.rows, id).Some? {
      ExposeOnlyIds(s.rows, id);
      ReflaggedQueries(s.rows, ExposeOnly(s.rows, id));
    }
  }

  /** An exposure writes the row's document to the override file, unless it is the newest generated row. */
  lemma {:induction false} ExposedFile(s: Site, id: nat)
    requires Ordered(s) && Find(s.rows, id).Some?
    ensures Expose(s, id).overrideFile == if NewestById(s.rows).Some? && NewestById(s.rows).value.id == id then None
                                          else Some(Find(s.rows, id).value.xml)
    ensures Expose(s, id).rows == ExposeOnly(s.rows, id) && Expose(s, id).live == s.live
    ensures Reflagged(s.rows, Expose(s, id).rows)
  {
    OrdersAgree(s.rows);
  }

  /** Exposing keeps the agreement exactly when the row is unknown or some generated row exists. */
  lemma {:induction false} ExposeKeepsIff(s: Site, id: nat)
    requires Ordered(s) && Agrees(s)
    ensures Ordered(Expose(s, id))
    ensures Agrees(Expose(s, id)) <==> Find(s.rows, id).None? || NewestById(s.rows).Some?
  {
    ExposeOrdered(s, id);
    if Find(s.rows, id).Some? {
      hide NewestById, NewestByTime, Find, Ordered, Expose, ExposeOnly;
      ExposedFile(s, id);
      ExposeOnlyIds(s.rows, id);
      ReflaggedQueries(s.rows, Expose(s, id).rows);
      ReflaggedFind(s.rows, Expose(s, id).rows, id);
      if NewestById(s.rows).Some? {
        assert Shows(Expose(s, id), id);
      }
    }
  }

  lemma {:induction false} ValidateKeeps(s: Site, id: nat)
    requires Ordered(s)
    ensures Ordered(Validate(s, id)) && (Agrees(s) ==> Agrees(Validate(s, id)))
  {
    var s' := Validate(s, id);
    if Find(s.rows, id).Some? {
      ValidateOnlyIds(s.rows, id);
      ReflaggedQueries(s.rows, s'.rows);
      assert forall r :: r in s'.rows ==> r.id < s.nextId;
      if Agrees(s) && NewestById(s.rows).Some? {
        var e :| Shows(s, e);
        ReflaggedFind(s.rows, s'.rows, e);
        assert Shows(s', e);
      }
    }
  }

  lemma {:induction false} ValidateOnlyIds(rows: seq<Row>, id: nat)
    ensures Reflagged(rows, ValidateOnly(rows, id)) && ExposedIds(ValidateOnly(rows, id)) == ExposedIds(rows)
  {
    var rows' := ValidateOnly(rows, id);
    assert forall i :: 0 <= i < |rows| ==> rows'[i].exposed == rows[i].exposed && rows'[i].id == rows[i].id;
    assert forall i :: 0 <= i < |rows| && rows[i].exposed ==> rows'[i].id in ExposedIds(rows');
    assert forall i :: 0 <= i < |rows| && rows'[i].exposed ==> rows[i].id in ExposedIds(rows);
  }

  lemma {:induction false} UploadKeeps(sha: Sha, s: Site, d: Document, ok: bool, now: int)
    requires Ordered(s) && CreatedBy(s.rows, now)
    ensures var s' := Upload(sha, s, d, ok, now);
            && Ordered(s') && (Agrees(s) ==> Agrees(s'))
            && NewestById(s'.rows) == NewestById(s.rows)
  {
    var s' := Upload(sha, s, d, ok, now);
    if s' != s {
      AppendRow(s.rows, s'.rows[|s.rows|]);
      if Agrees(s) && NewestById(s.rows).Some? {
        var e :| Shows(s, e);
        assert Shows(s', e);
      }
    }
  }

  // Deletion ----------------------------------------------------------------------------------------

  /** The request takes away the newest generated row. */
  predicate RemovesNewest(s: Site, id: nat) {
    && NewestById(s.rows).Some? && NewestById(s.rows).value.id == id
    && !NewestById(s.rows).value.exposed && !NewestById(s.rows).value.validated
  }

  /** It leaves no generated row, or brings back the one that the override file pins. */
  predicate BreaksAgreement(s: Site, id: nat) {
    RemovesNewest(s, id) &&
    var next := NewestById(Remove(s.rows, id));
    next.None? || next.value.exposed
  }

  lemma {:induction false} DeletedExposed(s: Site, id: nat)
    requires Ordered(s) && Delete(s, id) != s
    ensures ExposedIds(Remove(s.rows, id)) == ExposedIds(s.rows)
    ensures Delete(s, id) == s.(rows := Remove(s.rows, id)) && Find(s.rows, id).Some?
  {
    var rows' := Remove(s.rows, id);
    RemoveIs(s.rows, id);
    FindHasId(s.rows, id);
    forall i | 0 <= i < |s.rows| && s.rows[i].exposed
      ensures s.rows[i].id in ExposedIds(rows')
    {
      SameIdSameRow(s.rows, s.rows[i], Find(s.rows, id).value);
      assert s.rows[i] in rows';
      var j :| 0 <= j < |rows'| && rows'[j] == s.rows[i];
      assert rows'[j].id in ExposedIds(rows');
    }
    forall j | 0 <= j < |rows'| && rows'[j].exposed
      ensures rows'[j].id in ExposedIds(s.rows)
    {
      assert rows'[j] in s.rows;
      var i :| 0 <= i < |s.rows| && s.rows[i] == rows'[j];
      assert s.rows[i].id in ExposedIds(s.rows);
    }
  }

  lemma {:induction false} NewestAfterDelete(rows: seq<Row>, id: nat)
    requires Increasing(rows)
    requires NewestById(rows).Some? ==> NewestById(rows).value.id != id
    ensures NewestById(Remove(rows, id)) == NewestById(rows)
  {
    RemoveIs(rows, id);
    NewestIs(rows);
    NewestIs(Remove(rows, id));
    if NewestById(rows).Some? {
      NewestFrom(Remove(rows, id), NewestById(rows).value);
    }
  }

  /** Deleting keeps the agreement exactly when it does not break it in the way told above. */
  lemma {:induction false} DeleteKeepsIff(s: Site, id: nat)
    requires Ordered(s) && Agrees(s)
    ensures Ordered(Delete(s, id))
    ensures Agrees(Delete(s, id)) <==> !BreaksAgreement(s, id)
  {
    RemoveIs(s.rows, id);
    NewestIs(s.rows);
    FindHasId(s.rows, id);
    var g := NewestById(s.rows);
    if g.Some? {
      FindFrom(s.rows, g.value);
    }
    if Delete(s, id) == s {
      if g.Some? && g.value.id == id {
        UnchangedDelete(s, id);
      }
    } else {
      DeletedExposed(s, id);
      if g.None? {
        NewestIs(Delete(s, id).rows);
      } else {
        var e :| Shows(s, e);
        DeletedKeepsIff(s, id, e);
      }
    }
  }

  lemma {:induction false} DeletedKeepsIff(s: Site, id: nat, e: nat)
    requires Ordered(s) && Shows(s, e) && Delete(s, id) != s
    ensures Agrees(Delete(s, id)) <==> !BreaksAgreement(s, id)
  {
    var s', g := Delete(s, id), NewestById(s.rows).value;
    DeletedExposed(s, id);
    NewestIs(s.rows);
    FindFrom(s.rows, g);
    var next := NewestById(s'.rows);
    NewestIs(s'.rows);
    if g.id != id {
      NewestAfterDelete(s.rows, id);
    }
    assert e in ExposedIds(s.rows);
    DeletedShown(s, id, e);
    if next.Some? && !BreaksAgreement(s, id) {
      assert Shows(s', e);
    }
    if next.Some? && g.id == id && next.value.exposed {
      ExposedNewest(s'.rows, next.value, e);
      assert !Shows(s', e);
    }
    assert forall e' :: Shows(s', e') ==> e' in ExposedIds(s'.rows) && e' == e;
  }

  lemma {:induction false} UnchangedDelete(s: Site, id: nat)
    requires Ordered(s) && Delete(s, id) == s
    requires NewestById(s.rows).Some? && NewestById(s.rows).value.id == id
    ensures !RemovesNewest(s, id)
  {
    NewestIs(s.rows);
    FindFrom(s.rows, NewestById(s.rows).value);
    RemoveIs(s.rows, id);
  }

  /** The exposed row is not the deleted one, and is found as before. */
  lemma {:induction false} DeletedShown(s: Site, id: nat, e: nat)
    requires Ordered(s) && Delete(s, id) != s && Shows(s, e)
    ensures e != id && Find(Remove(s.rows, id), e) == Find(s.rows, e)
    ensures NewestById(s.rows).value.id == id ==> s.overrideFile == Some(Find(s.rows, e).value.xml)
    ensures NewestById(Remove(s.rows, id)).Some? ==>
              (NewestById(Remove(s.rows, id)).value.exposed <==> NewestById(Remove(s.rows, id)).value.id == e)
  {
    RemoveIs(s.rows, id);
    FindHasId(s.rows, id);
    FindHasId(s.rows, e);
    NotNewest(s.rows, Find(s.rows, id).value, e);
    FindFrom(Remove(s.rows, id), Find(s.rows, e).value);
    DeletedExposed(s, id);
    var next := NewestById(Remove(s.rows, id));
    NewestIs(Remove(s.rows, id));
    if next.Some? {
      if next.value.exposed {
        ExposedNewest(Remove(s.rows, id), next.value, e);
      } else {
        NotNewest(Remove(s.rows, id), next.value, e);
      }
    }
  }

  // Runs --------------------------------------------------------------------------------------------

  datatype Timed = Timed(request: Request, now: int)

  ghost function Exec(sha: Sha, settings: Option<Settings>, run: seq<Timed>): Site {
    if run == [] then Site([], 1, None, None, settings)
    else
      var last := run[|run| - 1];
      Serve(sha, Exec(sha, settings, run[..|run| - 1]), last.request, last.now)
  }

  /** The site after the first `n` requests. */
  ghost function SiteAt(sha: Sha, settings: Option<Settings>, run: seq<Timed>, n: nat): Site
    requires n <= |run|
  {
    Exec(sha, settings, run[..n])
  }

  /** The request neither exposes a row before there is a generated one nor deletes the newest generated row with the
  effect told above. */
  predicate KeepsAgreement(s: Site, r: Request) {
    match r
    case Exposes(id) => Find(s.rows, id).None? || NewestById(s.rows).Some?
    case Deletes(id) => !BreaksAgreement(s, id)
    case _ => true
  }

  /** Besides, it does not expose the newest generated row while the live document is another one. */
  predicate KeepsService(sha: Sha, s: Site, r: Request) {
    KeepsAgreement(s, r)
    && (r.Exposes? && NewestById(s.rows).Some? && NewestById(s.rows).value.id == r.id ==> LiveCarries(sha, s))
  }

  ghost predicate InClockOrder(run: seq<Timed>) {
    forall i, j :: 0 <= i < j < |run| ==> run[i].now <= run[j].now
  }

  /** The clock does not run backwards, and every request keeps the agreement when it is served. */
  ghost predicate AgreeingRun(sha: Sha, settings: Option<Settings>, run: seq<Timed>) {
    InClockOrder(run)
    && forall n :: 0 <= n < |run| ==> KeepsAgreement(SiteAt(sha, settings, run, n), run[n].request)
  }

  /** The clock does not run backwards, and every request keeps the service when it is served. */
  ghost predicate ServingRun(sha: Sha, settings: Option<Settings>, run: seq<Timed>) {
    InClockOrder(run)
    && forall n :: 0 <= n < |run| ==> KeepsService(sha, SiteAt(sha, settings, run, n), run[n].request)
  }

  lemma {:induction false} ReloadKeeps(sha: Sha, s: Site, d: Document, sent: bool, cert: Option<nat>, now: int)
    requires Ordered(s) && Agrees(s) && CreatedBy(s.rows, now)
    ensures var s' := Reload(sha, s, d, Semantic(sha, d, sent), cert, now);
            Ordered(s') && Agrees(s') && LiveCarries(sha, s')
  {
    var semantic := Semantic(sha, d, sent);
    var s1 := s.(live := Some(LiveDoc(d, ContentHash(sha, d, semantic))));
    assert Agrees(s1) by {
      if NewestById(s.rows).Some? {
        var e :| Shows(s, e);
        assert Shows(s1, e);
      }
    }
    SnapshotKeeps(sha, s1, d, semantic, cert, now);
  }

  lemma {:induction false} HashesKept(sha: Sha, s: Site, r: Request, now: int)
    requires HashesFit(sha, s)
    ensures HashesFit(sha, Serve(sha, s, r, now))
  {
    var s' := Serve(sha, s, r, now);
    if r.Deletes? {
      RemoveIs(s.rows, r.id);
    } else {
      forall q | q in s'.rows
        ensures Carries(sha, q.xml, q.hash)
      {
        var i :| 0 <= i < |s'.rows| && s'.rows[i] == q;
        if i < |s.rows| {
          assert s.rows[i] in s.rows;
          assert SameContent(q, s.rows[i]);
        }
      }
    }
  }

  lemma {:induction false} CreatedLater(sha: Sha, s: Site, r: Request, now: int)
    requires CreatedBy(s.rows, now)
    ensures CreatedBy(Serve(sha, s, r, now).rows, now)
  {
    var s' := Serve(sha, s, r, now);
    if r.Deletes? {
      RemoveIs(s.rows, r.id);
    } else {
      forall q | q in s'.rows
        ensures q.createdAt <= now
      {
        var i :| 0 <= i < |s'.rows| && s'.rows[i] == q;
        if i < |s.rows| {
          assert s.rows[i] in s.rows && SameContent(q, s.rows[i]);
        }
      }
    }
  }

  // Agreement alone ---------------------------------------------------------------------------------

  lemma {:induction false} ServeOrdered(sha: Sha, s: Site, r: Request, now: int)
    requires Ordered(s) && CreatedBy(s.rows, now)
    ensures Ordered(Serve(sha, s, r, now))
  {
    match r {
      case Reloads(d, sent, cert) =>
        var semantic := Semantic(sha, d, sent);
        ReloadOrdered(sha, s.(live := Some(LiveDoc(d, ContentHash(sha, d, semantic)))), d, semantic, cert, now);
      case Exposes(id) => ExposeOrdered(s, id);
      case Validates(id) => ValidateKeeps(s, id);
      case Uploads(d, ok) => UploadKeeps(sha, s, d, ok, now);
      case Deletes(id) => RemoveIs(s.rows, id);
    }
  }

  lemma {:induction false} ReloadOrdered(sha: Sha, s: Site, d: Document, semantic: Option<string>, cert: Option<nat>, now: int)
    requires Ordered(s) && CreatedBy(s.rows, now)
    ensures Ordered(Snapshot(sha, s, d, semantic, cert, now))
  {
    var row, last := NewRow(sha, s, d, semantic, cert, now), NewestById(s.rows);
    if last.Some? && last.value.exposed {
      HiddenFits(s, last.value.id, row);
      AppendNewest(Hide(s.rows, last.value.id), row);
    } else {
      AppendNewest(s.rows, row);
    }
  }

  /** Serving a request keeps the agreement exactly when the request is one that keeps it. */
  lemma {:induction false} ServeAgreesIff(sha: Sha, s: Site, r: Request, now: int)
    requires Ordered(s) && Agrees(s) && CreatedBy(s.rows, now)
    ensures Agrees(Serve(sha, s, r, now)) <==> KeepsAgreement(s, r)
  {
    match r {
      case Reloads(d, sent, cert) => ReloadKeeps(sha, s, d, sent, cert, now);
      case Exposes(id) => ExposeKeepsIff(s, id);
      case Validates(id) => ValidateKeeps(s, id);
      case Uploads(d, ok) => UploadKeeps(sha, s, d, ok, now);
      case Deletes(id) => DeleteKeepsIff(s, id);
    }
  }

  lemma {:induction false} NextSite(sha: Sha, settings: Option<Settings>, run: seq<Timed>, n: nat)
    requires n < |run|
    ensures SiteAt(sha, settings, run, n + 1) == Serve(sha, SiteAt(sha, settings, run, n), run[n].request, run[n].now)
  {
    assert run[..n + 1][..n] == run[..n];
  }

  lemma {:induction false} RunOrdered(sha: Sha, settings: Option<Settings>, run: seq<Timed>, n: nat)
    requires InClockOrder(run) && n <= |run|
    ensures Ordered(SiteAt(sha, settings, run, n))
    ensures if n == 0 then SiteAt(sha, settings, run, n) == Site([], 1, None, None, settings)
            else CreatedBy(SiteAt(sha, settings, run, n).rows, run[n - 1].now)
  {
    if n == 0 {
      assert run[..0] == [];
    } else {
      RunOrdered(sha, settings, run, n - 1);
      NextSite(sha, settings, run, n - 1);
      ServeOrdered(sha, SiteAt(sha, settings, run, n - 1), run[n - 1].request, run[n - 1].now);
      CreatedLater(sha, SiteAt(sha, settings, run, n - 1), run[n - 1].request, run[n - 1].now);
    }
  }

  lemma {:induction false} StepAgreesIff(sha: Sha, settings: Option<Settings>, run: seq<Timed>, n: nat)
    requires InClockOrder(run) && n < |run| && Agrees(SiteAt(sha, settings, run, n))
    ensures Agrees(SiteAt(sha, settings, run, n + 1)) <==> KeepsAgreement(SiteAt(sha, settings, run, n), run[n].request)
  {
    RunOrdered(sha, settings, run, n);
    NextSite(sha, settings, run, n);
    ServeAgreesIff(sha, SiteAt(sha, settings, run, n), run[n].request, run[n].now);
  }

  lemma {:induction false} AgreesUpTo(sha: Sha, settings: Option<Settings>, run: seq<Timed>, n: nat)
    requires AgreeingRun(sha, settings, run) && n <= |run|
    ensures Agrees(SiteAt(sha, settings, run, n))
  {
    if n == 0 {
      RunOrdered(sha, settings, run, 0);
    } else {
      AgreesUpTo(sha, settings, run, n - 1);
      StepAgreesIff(sha, settings, run, n - 1);
    }
  }

  /** MAIN RESULT. In every run whose requests keep the agreement one by one, exactly one row is exposed as soon as there
  is a generated row; the override file is absent exactly when it is the newest generated row, and holds its document
  otherwise. */
  lemma {:induction false} OneRowExposed(sha: Sha, settings: Option<Settings>, run: seq<Timed>)
    requires AgreeingRun(sha, settings, run)
    ensures Agrees(Exec(sha, settings, run))
  {
    AgreesUpTo(sha, settings, run, |run|);
    assert run[..|run|] == run;
  }

  /** MAIN RESULT. There are no other such runs: the agreement holds after every request of a run if and only if each of
  them was one that keeps it. */
  lemma {:induction false} AgreesThroughoutIff(sha: Sha, settings: Option<Settings>, run: seq<Timed>)
    requires InClockOrder(run)
    ensures (forall n :: 0 <= n <= |run| ==> Agrees(SiteAt(sha, settings, run, n))) <==> AgreeingRun(sha, settings, run)
  {
    if AgreeingRun(sha, settings, run) {
      forall n | 0 <= n <= |run| ensures Agrees(SiteAt(sha, settings, run, n)) {
        AgreesUpTo(sha, settings, run, n);
      }
    } else if forall n :: 0 <= n <= |run| ==> Agrees(SiteAt(sha, settings, run, n)) {
      forall n | 0 <= n < |run| ensures KeepsAgreement(SiteAt(sha, settings, run, n), run[n].request) {
        StepAgreesIff(sha, settings, run, n);
      }
    }
  }

  // The served document ------------------------------------------------------------------------------

  /** With flags and override file in agreement, the exposed row is served exactly when the override file is there or the
  live document carries the hash of the newest generated row. */
  lemma {:induction false} ServesIff(sha: Sha, s: Site)
    requires Ordered(s) && HashesFit(sha, s) && Agrees(s)
    ensures ServesExposed(sha, s) <==> (s.overrideFile.None? ==> LiveCarries(sha, s))
  {
    if NewestById(s.rows).Some? {
      var e :| Shows(s, e);
      FindHasId(s.rows, e);
      NewestIs(s.rows);
      FindFrom(s.rows, NewestById(s.rows).value);
      if s.overrideFile.None? ==> LiveCarries(sha, s) {
        assert ServesRow(sha, s, e);
      }
      assert forall e' :: ServesRow(sha, s, e') ==> e' in ExposedIds(s.rows) && e' == e;
    }
  }

  lemma {:induction false} ReflaggedLive(sha: Sha, s: Site, s': Site)
    requires Reflagged(s.rows, s'.rows) && s'.live == s.live
    ensures LiveCarries(sha, s') <==> LiveCarries(sha, s)
  {
    ReflaggedQueries(s.rows, s'.rows);
  }

  lemma {:induction false} NewestIsFound(s: Site)
    requires Ordered(s) && NewestById(s.rows).Some?
    ensures Find(s.rows, NewestById(s.rows).value.id) == NewestById(s.rows)
  {
    NewestIs(s.rows);
    FindFrom(s.rows, NewestById(s.rows).value);
  }

  /** Exposing keeps the exposed row served exactly when it is not the newest generated one, or that one is live. */
  lemma {:induction false} ExposeServesIff(sha: Sha, s: Site, id: nat)
    requires Ordered(s) && HashesFit(sha, s) && ServesExposed(sha, s) && KeepsAgreement(s, Exposes(id))
    ensures ServesExposed(sha, Expose(s, id)) <==> KeepsService(sha, s, Exposes(id))
  {
    assert Agrees(s);
    hide ServesExposed, LiveCarries, HashesFit, Ordered, Agrees, Expose, Reflagged, Find, NewestById;
    if NewestById(s.rows).Some? {
      NewestIsFound(s);
    }
    if Find(s.rows, id).None? {
      UnknownId(s, id);
    } else {
      ExposeKeepsIff(s, id);
      HashesKept(sha, s, Exposes(id), 0);
      ServesIff(sha, Expose(s, id));
      ExposedFile(s, id);
      ReflaggedLive(sha, s, Expose(s, id));
    }
  }

  lemma UnknownId(s: Site, id: nat)
    requires Find(s.rows, id).None?
    ensures Expose(s, id) == s
  {
  }

  /** A deletion that takes the newest generated row leaves the override file in place. */
  lemma {:induction false} DeletedFile(sha: Sha, s: Site, id: nat)
    requires Ordered(s) && Agrees(s) && Delete(s, id) != s
    ensures Delete(s, id).overrideFile == s.overrideFile
    ensures s.overrideFile.Some? || (LiveCarries(sha, Delete(s, id)) <==> LiveCarries(sha, s))
  {
    DeletedExposed(s, id);
    if NewestById(s.rows).Some? && NewestById(s.rows).value.id == id {
      var e :| Shows(s, e);
      DeletedShown(s, id, e);
    } else {
      NewestAfterDelete(s.rows, id);
    }
  }

  lemma {:induction false} AgreeingDelete(sha: Sha, s: Site, id: nat)
    requires Ordered(s) && HashesFit(sha, s) && Agrees(s) && ServesExposed(sha, s) && Ordered(Delete(s, id))
    requires Agrees(Delete(s, id)) && Delete(s, id) != s
    ensures ServesExposed(sha, Delete(s, id))
  {
    hide HashesFit, Ordered, Agrees, ServesExposed, LiveCarries, Delete;
    HashesKept(sha, s, Deletes(id), 0);
    ServesIff(sha, Delete(s, id));
    ServesIff(sha, s);
    DeletedFile(sha, s, id);
  }

  /** After a deletion the exposed row is served exactly when flags and override file still agree. */
  lemma {:induction false} DeleteServesIff(sha: Sha, s: Site, id: nat)
    requires Ordered(s) && HashesFit(sha, s) && ServesExposed(sha, s)
    ensures ServesExposed(sha, Delete(s, id)) <==> !BreaksAgreement(s, id)
  {
    hide HashesFit, Ordered, Agrees, ServesRow, Delete, BreaksAgreement, NewestById;
    DeleteKeepsIff(s, id);
    if Agrees(Delete(s, id)) && Delete(s, id) != s {
      AgreeingDelete(sha, s, id);
    }
  }

  /** Validating and uploading touch nothing that is served. */
  lemma {:induction false} OthersServe(sha: Sha, s: Site, r: Request, now: int)
    requires Ordered(s) && HashesFit(sha, s) && ServesExposed(sha, s) && CreatedBy(s.rows, now)
    requires r.Validates? || r.Uploads?
    ensures ServesExposed(sha, Serve(sha, s, r, now))
  {
    assert Agrees(s);
    hide ServesExposed, Ordered, Agrees, HashesFit, CreatedBy;
    HashesKept(sha, s, r, now);
    ServesIff(sha, s);
    if r.Validates? {
      ValidateKeeps(s, r.id);
      if Find(s.rows, r.id).Some? {
        ValidateOnlyIds(s.rows, r.id);
        ReflaggedLive(sha, s, Validate(s, r.id));
      }
    } else {
      UploadKeeps(sha, s, r.doc, r.wellFormed, now);
    }
    ServesIff(sha, Serve(sha, s, r, now));
  }

  /** Serving a request keeps the exposed row served exactly when the request is one that keeps the service. */
  lemma {:induction false} ServeServesIff(sha: Sha, s: Site, r: Request, now: int)
    requires Ordered(s) && HashesFit(sha, s) && ServesExposed(sha, s) && CreatedBy(s.rows, now)
    ensures ServesExposed(sha, Serve(sha, s, r, now)) <==> KeepsService(sha, s, r)
  {
    assert Agrees(s);
    hide ServesExposed, LiveCarries, HashesFit, Ordered, CreatedBy, Agrees, Expose, Delete, Reload, BreaksAgreement;
    match r {
      case Reloads(d, sent, cert) =>
        ReloadKeeps(sha, s, d, sent, cert, now);
        HashesKept(sha, s, r, now);
        ServesIff(sha, Serve(sha, s, r, now));
      case Exposes(id) =>
        ExposeKeepsIff(s, id);
        if KeepsAgreement(s, r) {
          ExposeServesIff(sha, s, id);
        }
      case Validates(_) => OthersServe(sha, s, r, now);
      case Uploads(_, _) => OthersServe(sha, s, r, now);
      case Deletes(id) => DeleteServesIff(sha, s, id);
    }
  }

  lemma {:induction false} RunHashes(sha: Sha, settings: Option<Settings>, run: seq<Timed>, n: nat)
    requires n <= |run|
    ensures HashesFit(sha, SiteAt(sha, settings, run, n))
  {
    if n == 0 {
      assert run[..0] == [];
    } else {
      RunHashes(sha, settings, run, n - 1);
      NextSite(sha, settings, run, n - 1);
      HashesKept(sha, SiteAt(sha, settings, run, n - 1), run[n - 1].request, run[n - 1].now);
    }
  }

  lemma {:induction false} StepServesIff(sha: Sha, settings: Option<Settings>, run: seq<Timed>, n: nat)
    requires InClockOrder(run) && n < |run| && ServesExposed(sha, SiteAt(sha, settings, run, n))
    ensures ServesExposed(sha, SiteAt(sha, settings, run, n + 1))
            <==> KeepsService(sha, SiteAt(sha, settings, run, n), run[n].request)
  {
    hide ServesExposed, HashesFit, Ordered;
    RunOrdered(sha, settings, run, n);
    RunHashes(sha, settings, run, n);
    NextSite(sha, settings, run, n);
    ServeServesIff(sha, SiteAt(sha, settings, run, n), run[n].request, run[n].now);
  }

  lemma {:induction false} ServesUpTo(sha: Sha, settings: Option<Settings>, run: seq<Timed>, n: nat)
    requires ServingRun(sha, settings, run) && n <= |run|
    ensures ServesExposed(sha, SiteAt(sha, settings, run, n))
  {
    if n == 0 {
      RunOrdered(sha, settings, run, 0);
    } else {
      ServesUpTo(sha, settings, run, n - 1);
      StepServesIff(sha, settings, run, n - 1);
    }
  }

  /** In every run whose requests keep the service one by one, the served document carries the hash of the exposed row,
  however often contents come back, and it is that row's own document whenever an override file is in place. */
  lemma {:induction false} ServedIsExposed(sha: Sha, settings: Option<Settings>, run: seq<Timed>)
    requires ServingRun(sha, settings, run)
    requires NewestById(Exec(sha, settings, run).rows).Some?
    ensures exists e :: ServesRow(sha, Exec(sha, settings, run), e)
  {
    ServesUpTo(sha, settings, run, |run|);
    assert run[..|run|] == run;
  }

  /** MAIN RESULT. There are no other such runs: all agree and the exposed row is served after every request of a run if
  and only if each of them was one that keeps the service. */
  lemma {:induction false} ServesThroughoutIff(sha: Sha, settings: Option<Settings>, run: seq<Timed>)
    requires InClockOrder(run)
    ensures (forall n :: 0 <= n <= |run| ==> ServesExposed(sha, SiteAt(sha, settings, run, n)))
            <==> ServingRun(sha, settings, run)
  {
    hide ServesExposed, KeepsService;
    if ServingRun(sha, settings, run) {
      forall n | 0 <= n <= |run| ensures ServesExposed(sha, SiteAt(sha, settings, run, n)) {
        ServesUpTo(sha, settings, run, n);
      }
    } else if forall n :: 0 <= n <= |run| ==> ServesExposed(sha, SiteAt(sha, settings, run, n)) {
      forall n | 0 <= n < |run| ensures KeepsService(sha, SiteAt(sha, settings, run, n), run[n].request) {
        StepServesIff(sha, settings, run, n);
      }
    }
  }

  /** MAIN RESULT. A row is lost only by a request that deletes it while it is neither exposed nor validated. */
  lemma {:induction false} OnlyDeleteLoses(sha: Sha, s: Site, r: Request, now: int, row: Row)
    requires Increasing(s.rows) && row in s.rows
    requires forall q :: q in Serve(sha, s, r, now).rows ==> !SameContent(q, row)
    ensures r == Deletes(row.id) && !row.exposed && !row.validated
  {
    var s' := Serve(sha, s, r, now);
    var i :| 0 <= i < |s.rows| && s.rows[i] == row;
    if r.Deletes? {
      RemoveIs(s.rows, r.id);
      FindHasId(s.rows, r.id);
      FindFrom(s.rows, row);
      assert SameContent(row, row);
    } else {
      assert s'.rows[i] in s'.rows && SameContent(s'.rows[i], row);
    }
  }

  // The three requests that must be kept out ----------------------------------------------------------

  /** Upload, expose, first reload. */
  function EarlyRun(d: Document, u: Document): seq<Timed> {
    [Timed(Uploads(u, true), 0), Timed(Exposes(1), 0), Timed(Reloads(d, true, None), 0)]
  }

  /** This run leaves two rows exposed at once. */
  lemma {:induction false} ExposeTooEarly(sha: Sha, d: Document, u: Document)
    ensures ExposedIds(Exec(sha, None, EarlyRun(d, u)).rows) == {1, 2}
  {
    var r0, r1, r2 := EarlyRun(d, u)[0], EarlyRun(d, u)[1], EarlyRun(d, u)[2];
    assert Exec(sha, None, []) == Site([], 1, None, None, None);
    assert [] + [r0] == [r0] && [r0] + [r1] == [r0, r1] && [r0, r1] + [r2] == EarlyRun(d, u);
    hide Exec, Upload, Expose, Reload, NewestById, ExposedIds, EarlyRun;
    OneMoreRequest(sha, None, [], r0);
    OneMoreRequest(sha, None, [r0], r1);
    OneMoreRequest(sha, None, [r0, r1], r2);
    UploadedExposed(sha, u);
    FirstSnapshotAddsExposed(sha, Exec(sha, None, [r0, r1]), d, Semantic(sha, d, true), None, 0);
  }

  lemma {:induction false} OneMoreRequest(sha: Sha, settings: Option<Settings>, run: seq<Timed>, r: Timed)
    ensures Exec(sha, settings, run + [r]) == Serve(sha, Exec(sha, settings, run), r.request, r.now)
  {
    assert (run + [r])[..|run|] == run;
  }

  /** An upload alone, then exposed. */
  lemma {:induction false} UploadedExposed(sha: Sha, u: Document)
    ensures var s := Expose(Upload(sha, Site([], 1, None, None, None), u, true, 0), 1);
            ExposedIds(s.rows) == {1} && NewestById(s.rows).None? && s.nextId == 2
  {
    var s1 := Upload(sha, Site([], 1, None, None, None), u, true, 0);
    assert |s1.rows| == 1 && s1.rows[0].id == 1 && s1.rows[0].source == Uploaded;
    ExposeOnlyIds(s1.rows, 1);
    NewestIs(ExposeOnly(s1.rows, 1));
  }

  /** In general: what was exposed before the first snapshot stays exposed beside it. */
  lemma {:induction false} FirstSnapshotAddsExposed(sha: Sha, s: Site, d: Document, semantic: Option<string>,
                                                    cert: Option<nat>, now: int)
    requires NewestById(s.rows).None?
    ensures ExposedIds(Reload(sha, s, d, semantic, cert, now).rows) == ExposedIds(s.rows) + {s.nextId}
  {
    AppendExposed(s.rows, Reload(sha, s, d, semantic, cert, now).rows[|s.rows|]);
  }

  const NO_TOGGLES := Toggles(None, None, None)

  function GeneratedRow(sha: Sha, id: nat, d: Document, exposed: bool): Row {
    Row(id, Generated, d, sha(d.body), None, exposed, false, 0, NO_TOGGLES)
  }

  /** Row 1 is exposed and pinned, row 2 was generated last. */
  function Pinned(sha: Sha, a: Document, b: Document): Site {
    Site([GeneratedRow(sha, 1, a, true),
          GeneratedRow(sha, 2, b, false)],
         3, Some(a), Some(LiveDoc(b, sha(b.body))), None)
  }

  /** Row 1 alone, with its pin left behind. */
  function LeftPinned(sha: Sha, a: Document, b: Document): Site {
    Pinned(sha, a, b).(rows := [Pinned(sha, a, b).rows[0]])
  }

  lemma {:induction false} PinnedAgrees(sha: Sha, a: Document, b: Document)
    ensures Agrees(Pinned(sha, a, b)) && Ordered(Pinned(sha, a, b))
  {
    var s := Pinned(sha, a, b);
    ExposedOfTwo(s.rows[0], s.rows[1]);
    NewerOfTwo(s.rows[0], s.rows[1]);
    FindFrom(s.rows, s.rows[0]);
    assert Shows(s, 1);
  }

  lemma ExposedOfTwo(one: Row, two: Row)
    requires one.exposed != two.exposed
    ensures ExposedIds([one, two]) == {if one.exposed then one.id else two.id}
  {
    AppendExposed([], one);
    AppendExposed([one], two);
    assert [] + [one] == [one] && [one] + [two] == [one, two];
  }

  lemma NewerOfTwo(one: Row, two: Row)
    requires one.id < two.id && one.createdAt <= two.createdAt && one.source == two.source == Generated
    ensures Increasing([one, two]) && NewestById([one, two]) == Some(two)
  {
    assert [] + [one] == [one] && [one] + [two] == [one, two];
    AppendNewest([], one);
    hide NewestById;
    AppendNewest([one], two);
  }

  lemma {:induction false} PinnedDeleted(sha: Sha, a: Document, b: Document)
    ensures Delete(Pinned(sha, a, b), 2) == LeftPinned(sha, a, b)
    ensures BreaksAgreement(Pinned(sha, a, b), 2)
    ensures NewestById(LeftPinned(sha, a, b).rows) == Some(LeftPinned(sha, a, b).rows[0])
  {
    var s := Pinned(sha, a, b);
    var one, two := s.rows[0], s.rows[1];
    assert [one, two][1..] == [two] && [two][1..] == [];
    assert Remove([two], 2) == [];
    assert Remove(s.rows, 2) == [one];
    AppendNewest([], one);
    assert [] + [one] == [one] && [one] + [two] == [one, two];
    AppendNewest([one], two);
    FindFrom(s.rows, two);
  }

  /** Two reloads and the exposure of the first row. */
  function PinRun(a: Document, b: Document): seq<Timed> {
    [Timed(Reloads(a, true, None), 0), Timed(Reloads(b, true, None), 0), Timed(Exposes(1), 0)]
  }

  lemma {:induction false} PinnedIsReached(sha: Sha, a: Document, b: Document)
    requires sha(a.body) != "" && sha(b.body) != "" && sha(a.body) != sha(b.body)
    ensures Exec(sha, None, PinRun(a, b)) == Pinned(sha, a, b)
  {
    var r0, r1, r2 := PinRun(a, b)[0], PinRun(a, b)[1], PinRun(a, b)[2];
    assert Exec(sha, None, []) == Site([], 1, None, None, None);
    assert [] + [r0] == [r0] && [r0] + [r1] == [r0, r1] && [r0, r1] + [r2] == PinRun(a, b);
    hide Exec, Reload, Expose, Pinned, OneRow, TwoRows;
    OneMoreRequest(sha, None, [], r0);
    OneMoreRequest(sha, None, [r0], r1);
    OneMoreRequest(sha, None, [r0, r1], r2);
    FirstReload(sha, a);
    SecondReload(sha, a, b);
    PinFirst(sha, a, b);
  }

  /** Row 1 alone, generated and exposed. */
  function OneRow(sha: Sha, a: Document): Site {
    Site([GeneratedRow(sha, 1, a, true)], 2, None, Some(LiveDoc(a, sha(a.body))), None)
  }

  /** Row 2 has taken the flag over from row 1. */
  function TwoRows(sha: Sha, a: Document, b: Document): Site {
    Site([GeneratedRow(sha, 1, a, false),
          GeneratedRow(sha, 2, b, true)],
         3, None, Some(LiveDoc(b, sha(b.body))), None)
  }

  lemma {:induction false} FirstReload(sha: Sha, a: Document)
    requires sha(a.body) != ""
    ensures Reload(sha, Site([], 1, None, None, None), a, Some(sha(a.body)), None, 0) == OneRow(sha, a)
  {
    var s := Reload(sha, Site([], 1, None, None, None), a, Some(sha(a.body)), None, 0);
    assert s.rows == OneRow(sha, a).rows;
  }

  lemma {:induction false} SecondReload(sha: Sha, a: Document, b: Document)
    requires sha(a.body) != "" && sha(b.body) != "" && sha(a.body) != sha(b.body)
    ensures Reload(sha, OneRow(sha, a), b, Some(sha(b.body)), None, 0) == TwoRows(sha, a, b)
  {
    var one := OneRow(sha, a).rows[0];
    AppendNewest([], one);
    assert [] + [one] == [one];
    var s := Reload(sha, OneRow(sha, a), b, Some(sha(b.body)), None, 0);
    assert s.rows == TwoRows(sha, a, b).rows;
  }

  lemma {:induction false} PinFirst(sha: Sha, a: Document, b: Document)
    ensures Expose(TwoRows(sha, a, b), 1) == Pinned(sha, a, b)
  {
    var s := TwoRows(sha, a, b);
    assert Find(s.rows, 1) == Some(s.rows[0]);
    NewestOfTwo(s.rows[0], s.rows[1]);
    assert [s.rows[0], s.rows[1]] == s.rows;
    hide NewestByTime, Find;
    assert ExposeOnly(s.rows, 1) == Pinned(sha, a, b).rows;
  }

  lemma {:induction false} NewestOfTwo(one: Row, two: Row)
    requires one.source == Generated && two.source == Generated && one.id < two.id && one.createdAt == two.createdAt
    ensures NewestByTime([one, two]) == Some(two)
  {
    assert [one, two][..1] == [one] && [one][..0] == [];
    assert NewestByTime([]) == None;
    assert NewestByTime([one]) == Some(one);
  }

  /** Deleting row 2 leaves the pin behind on the newest row. The next reload with new content moves the flag
  to its own row, while the endpoint still serves row 1. */
  lemma {:induction false} DeleteNewestBreaks(sha: Sha, a: Document, b: Document, c: Document)
    requires sha(a.body) != "" && sha(b.body) != "" && sha(a.body) != sha(b.body)
    requires sha(c.body) != "" && sha(c.body) != sha(a.body)
    ensures Agrees(Exec(sha, None, PinRun(a, b)))
    ensures !Agrees(Exec(sha, None, PinRun(a, b) + [Timed(Deletes(2), 0)]))
    ensures var s := Exec(sha, None, PinRun(a, b) + [Timed(Deletes(2), 0)] + [Timed(Reloads(c, true, None), 0)]);
            ExposedIds(s.rows) == {3} && Served(s) == Some(a)
  {
    PinnedIsReached(sha, a, b);
    OneMoreRequest(sha, None, PinRun(a, b), Timed(Deletes(2), 0));
    OneMoreRequest(sha, None, PinRun(a, b) + [Timed(Deletes(2), 0)], Timed(Reloads(c, true, None), 0));
    PinnedAgrees(sha, a, b);
    PinnedDeleted(sha, a, b);
    DeleteKeepsIff(Pinned(sha, a, b), 2);
    ReloadAfterDelete(sha, a, b, c);
  }

  lemma {:induction false} ReloadAfterDelete(sha: Sha, a: Document, b: Document, c: Document)
    requires sha(c.body) != "" && sha(c.body) != sha(a.body)
    ensures var s := Reload(sha, LeftPinned(sha, a, b), c, Some(sha(c.body)), None, 0);
            ExposedIds(s.rows) == {3} && Served(s) == Some(a)
  {
    var s := LeftPinned(sha, a, b);
    var three := GeneratedRow(sha, 3, c, true);
    PinnedDeleted(sha, a, b);
    HideRow(s.rows, 1);
    AppendExposed(Hide(s.rows, 1), three);
    AppendExposed([], s.rows[0]);
    assert [] + [s.rows[0]] == s.rows;
  }

  // The third of them --------------------------------------------------------------------------------

  /** Three generated rows, the last of them exposed and live. */
  function ThreeRows(sha: Sha, a: Document, b: Document, c: Document): Site {
    Site([GeneratedRow(sha, 1, a, false), GeneratedRow(sha, 2, b, false), GeneratedRow(sha, 3, c, true)],
         4, None, Some(LiveDoc(c, sha(c.body))), None)
  }

  function FirstOfThree(sha: Sha, a: Document, b: Document, c: Document): Site {
    ThreeRows(sha, a, b, c).(
      rows := [GeneratedRow(sha, 1, a, true), GeneratedRow(sha, 2, b, false), GeneratedRow(sha, 3, c, false)],
      overrideFile := Some(a))
  }

  function FirstOfTwo(sha: Sha, a: Document, b: Document, c: Document): Site {
    FirstOfThree(sha, a, b, c).(rows := [GeneratedRow(sha, 1, a, true), GeneratedRow(sha, 2, b, false)])
  }

  /** Row 2 is exposed as the newest one, and the live document is still that of the deleted row 3. */
  function Stale(sha: Sha, a: Document, b: Document, c: Document): Site {
    ThreeRows(sha, a, b, c).(rows := [GeneratedRow(sha, 1, a, false), GeneratedRow(sha, 2, b, true)])
  }

  lemma {:induction false} ThirdReload(sha: Sha, a: Document, b: Document, c: Document)
    requires sha(c.body) != "" && sha(b.body) != sha(c.body)
    ensures Reload(sha, TwoRows(sha, a, b), c, Some(sha(c.body)), None, 0) == ThreeRows(sha, a, b, c)
  {
    var one, two := GeneratedRow(sha, 1, a, false), GeneratedRow(sha, 2, b, true);
    NewerOfTwo(one, two);
    hide NewestById;
    assert TwoRows(sha, a, b).rows == [one, two];
    assert Hide([one, two], 2) == [one, two.(exposed := false)];
  }

  lemma {:induction false} ExposeFirst(sha: Sha, a: Document, b: Document, c: Document)
    ensures NewestById(ThreeRows(sha, a, b, c).rows).Some?
    ensures Expose(ThreeRows(sha, a, b, c), 1) == FirstOfThree(sha, a, b, c)
  {
    var rows := ThreeRows(sha, a, b, c).rows;
    NewerOfTwo(rows[0], rows[1]);
    AppendNewest([rows[0], rows[1]], rows[2]);
    assert [rows[0], rows[1]] + [rows[2]] == rows;
    OrdersAgree(rows);
    assert Find(rows, 1) == Some(rows[0]);
    hide NewestById, NewestByTime, Find;
    assert ExposeOnly(rows, 1) == FirstOfThree(sha, a, b, c).rows;
  }

  lemma {:induction false} DeleteThird(sha: Sha, a: Document, b: Document, c: Document)
    ensures Delete(FirstOfThree(sha, a, b, c), 3) == FirstOfTwo(sha, a, b, c)
    ensures !BreaksAgreement(FirstOfThree(sha, a, b, c), 3)
  {
    var rows := FirstOfThree(sha, a, b, c).rows;
    RemoveThird(rows[0], rows[1], rows[2]);
    assert rows == [rows[0], rows[1], rows[2]];
    NewerOfTwo(rows[0], rows[1]);
  }

  lemma {:induction false} RemoveThird(one: Row, two: Row, three: Row)
    requires one.id != three.id && two.id != three.id
    ensures Remove([one, two, three], three.id) == [one, two]
    ensures Find([one, two, three], three.id) == Some(three)
  {
    assert [one, two, three][1..] == [two, three] && [two, three][1..] == [three] && [three][1..] == [];
    assert Remove([three], three.id) == [];
    assert Remove([two, three], three.id) == [two] + [] == [two];
    assert [one] + [two] == [one, two];
    assert Find([two, three], three.id) == Some(three);
  }

  lemma {:induction false} ExposeSecond(sha: Sha, a: Document, b: Document, c: Document)
    ensures NewestById(FirstOfTwo(sha, a, b, c).rows).Some?
    ensures Expose(FirstOfTwo(sha, a, b, c), 2) == Stale(sha, a, b, c)
  {
    var rows := FirstOfTwo(sha, a, b, c).rows;
    NewerOfTwo(rows[0], rows[1]);
    assert rows == [rows[0], rows[1]];
    OrdersAgree(rows);
    FindFrom(rows, rows[1]);
    hide NewestById, NewestByTime, Find;
    assert ExposeOnly(rows, 2) == Stale(sha, a, b, c).rows;
  }

  lemma {:induction false} AgreeingAppend(sha: Sha, settings: Option<Settings>, run: seq<Timed>, r: Timed)
    requires AgreeingRun(sha, settings, run) && forall q :: q in run ==> q.now <= r.now
    requires KeepsAgreement(Exec(sha, settings, run), r.request)
    ensures AgreeingRun(sha, settings, run + [r])
    ensures Exec(sha, settings, run + [r]) == Serve(sha, Exec(sha, settings, run), r.request, r.now)
  {
    OneMoreRequest(sha, settings, run, r);
    forall n | 0 <= n < |run + [r]|
      ensures KeepsAgreement(SiteAt(sha, settings, run + [r], n), (run + [r])[n].request)
    {
      assert (run + [r])[..n] == run[..n];
      assert run[..|run|] == run;
    }
  }

  /** Three reloads, the exposure of row 1, the deletion of row 3, and the exposure of row 2. */
  function StaleRun(a: Document, b: Document, c: Document): seq<Timed> {
    [Timed(Reloads(a, true, None), 0)] + [Timed(Reloads(b, true, None), 0)] + [Timed(Reloads(c, true, None), 0)]
    + [Timed(Exposes(1), 0)] + [Timed(Deletes(3), 0)] + [Timed(Exposes(2), 0)]
  }

  /** Flags and override file agree throughout this run, but it ends with row 2 exposed and the document of the deleted
  row 3 served. */
  lemma {:induction false} ExposeStaleBreaks(sha: Sha, a: Document, b: Document, c: Document)
    requires sha(a.body) != "" && sha(b.body) != "" && sha(a.body) != sha(b.body)
    requires sha(c.body) != "" && !Carries(sha, c, sha(b.body))
    ensures AgreeingRun(sha, None, StaleRun(a, b, c))
    ensures var s := Exec(sha, None, StaleRun(a, b, c));
            && ExposedIds(s.rows) == {2} && Find(s.rows, 2).Some? && Find(s.rows, 2).value.hash == sha(b.body)
            && Served(s) == Some(c) && !ServesExposed(sha, s)
  {
    StaleIsReached(sha, a, b, c);
    hide AgreeingRun, StaleRun, Exec;
    StaleServes(sha, a, b, c);
  }

  lemma {:induction false} StaleServes(sha: Sha, a: Document, b: Document, c: Document)
    requires !Carries(sha, c, sha(b.body))
    ensures var s := Stale(sha, a, b, c);
            && ExposedIds(s.rows) == {2} && Find(s.rows, 2) == Some(GeneratedRow(sha, 2, b, true)) && Served(s) == Some(c)
            && !ServesExposed(sha, s)
  {
    var rows := Stale(sha, a, b, c).rows;
    assert rows == [rows[0], rows[1]];
    ExposedOfTwo(rows[0], rows[1]);
    NewerOfTwo(rows[0], rows[1]);
    FindFrom(rows, rows[1]);
    hide ExposedIds, Find, NewestById;
    assert forall e: nat :: {2} == {e} ==> e in {2};
  }

  lemma {:induction false} StaleIsReached(sha: Sha, a: Document, b: Document, c: Document)
    requires sha(a.body) != "" && sha(b.body) != "" && sha(a.body) != sha(b.body)
    requires sha(c.body) != "" && sha(c.body) != sha(b.body)
    ensures AgreeingRun(sha, None, StaleRun(a, b, c))
    ensures Exec(sha, None, StaleRun(a, b, c)) == Stale(sha, a, b, c)
  {
    var r0, r1 := Timed(Reloads(a, true, None), 0), Timed(Reloads(b, true, None), 0);
    var r2, r3, r4 := Timed(Reloads(c, true, None), 0), Timed(Exposes(1), 0), Timed(Deletes(3), 0);
    ThreeReached(sha, a, b, c);
    hide Exec, Expose, Delete, BreaksAgreement, NewestById, Find;
    hide AgreeingRun, ThreeRows, FirstOfThree, FirstOfTwo, Stale;
    ExposeFirst(sha, a, b, c);
    DeleteThird(sha, a, b, c);
    ExposeSecond(sha, a, b, c);
    AgreeingAppend(sha, None, [r0] + [r1] + [r2], r3);
    AgreeingAppend(sha, None, [r0] + [r1] + [r2] + [r3], r4);
    AgreeingAppend(sha, None, [r0] + [r1] + [r2] + [r3] + [r4], Timed(Exposes(2), 0));
  }

  lemma {:induction false} ThreeReached(sha: Sha, a: Document, b: Document, c: Document)
    requires sha(a.body) != "" && sha(b.body) != "" && sha(a.body) != sha(b.body)
    requires sha(c.body) != "" && sha(c.body) != sha(b.body)
    ensures var run := [Timed(Reloads(a, true, None), 0)] + [Timed(Reloads(b, true, None), 0)]
                       + [Timed(Reloads(c, true, None), 0)];
            AgreeingRun(sha, None, run) && Exec(sha, None, run) == ThreeRows(sha, a, b, c)
  {
    var r0, r1 := Timed(Reloads(a, true, None), 0), Timed(Reloads(b, true, None), 0);
    assert [] + [r0] == [r0];
    assert Exec(sha, None, []) == Site([], 1, None, None, None);
    assert AgreeingRun(sha, None, []);
    hide Exec, Reload, AgreeingRun, OneRow, TwoRows, ThreeRows;
    FirstReload(sha, a);
    SecondReload(sha, a, b);
    ThirdReload(sha, a, b, c);
    AgreeingAppend(sha, None, [], r0);
    AgreeingAppend(sha, None, [r0], r1);
    AgreeingAppend(sha, None, [r0] + [r1], Timed(Reloads(c, true, None), 0));
  }
}
