/** The directory of remote IdP metadata that SATOSA reads: one file per IdP and, beside it, a marker with the URL
the file was taken under.

Contents are texts standing for their bytes. What a download answers is given with the visit that may make it. */
module RemoteMetadata {
  import opened Wrappers

  datatype Idp = Idp(alias: string, url: string, cache: string)

  /** One IdP in the loop, with what its URL answers if it is asked; None when the download fails. */
  datatype Visit = Visit(idp: Idp, answer: Option<string>)

  type Directory = map<string, string>

  const EMPTY_META := "<?xml version=\"1.0\"?><EntitiesDescriptor xmlns=\"urn:oasis:names:tc:SAML:2.0:metadata\"/>"

  // Names and sources -------------------------------------------------------------------------------

  function Slug(alias: string): string {
    seq(|alias|, i requires 0 <= i < |alias| => if alias[i] == '/' || alias[i] == ' ' then '_' else alias[i])
  }

  function Dest(idp: Idp): string {
    Slug(idp.alias) + ".xml"
  }

  function Marker(dest: string): string {
    dest + ".url"
  }

  predicate Occurs(needle: string, text: string) {
    exists i :: 0 <= i <= |text| && needle <= text[i..]
  }

  predicate Usable(cache: string) {
    Occurs("EntityDescriptor", cache)
  }

  /** What a visit has to offer for its file, from the cache before the network. */
  function Supplied(v: Visit): Option<string> {
    if Usable(v.idp.cache) then Some(v.idp.cache) else v.answer
  }

  /** Whether the IdP's URL is asked. */
  predicate Tries(dir: Directory, idp: Idp) {
    !Usable(idp.cache) && !(Dest(idp) in dir && Marker(Dest(idp)) in dir && dir[Marker(Dest(idp))] == idp.url)
  }

  // One visit, one history --------------------------------------------------------------------------

  function Put(dir: Directory, dest: string, data: string, url: string): Directory {
    dir[dest := data][Marker(dest) := url]
  }

  function Place(dir: Directory, v: Visit): Directory {
    var dest := Dest(v.idp);
    if Usable(v.idp.cache) then Put(dir, dest, v.idp.cache, v.idp.url)
    else if !Tries(dir, v.idp) then dir
    else match v.answer
      case Some(data) => Put(dir, dest, data, v.idp.url)
      case None => if dest in dir then dir else dir[dest := EMPTY_META]
  }

  function PlaceAll(dir: Directory, visits: seq<Visit>): Directory {
    if visits == [] then dir
    else Place(PlaceAll(dir, visits[..|visits| - 1]), visits[|visits| - 1])
  }

  class MetadataDirectory {
    var files: Directory

    constructor ()
      ensures files == map[]
    {
      files := map[];
    }

    method Write(path: string, data: string)
      modifies this
      ensures files == old(files)[path := data]
    {
      files := files[path := data];
    }

    /** The loop over the enabled IdPs; `answers` holds what each URL would answer. */
    method EnsureRemoteMetadata(idps: seq<Idp>, answers: seq<Option<string>>)
      requires |answers| == |idps|
      modifies this
      ensures files == PlaceAll(old(files), seq(|idps|, i requires 0 <= i < |idps| => Visit(idps[i], answers[i])))
    {
      ghost var visits := seq(|idps|, i requires 0 <= i < |idps| => Visit(idps[i], answers[i]));
      var n := 0;
      while n < |idps|
        invariant 0 <= n <= |idps|
        invariant files == PlaceAll(old(files), visits[..n])
      {
        ghost var before := files;
        var url, dest := idps[n].url, Dest(idps[n]);
        if Usable(idps[n].cache) {
          if dest !in files || files[dest] != idps[n].cache {
            Write(dest, idps[n].cache);
          }
          assert files == before[dest := idps[n].cache];
          Write(Marker(dest), url);
        } else if !(dest in files && Marker(dest) in files && files[Marker(dest)] == url) {
          if answers[n].Some? {
            Write(dest, answers[n].value);
            Write(Marker(dest), url);
          } else if dest !in files {
            Write(dest, EMPTY_META);
          }
        }
        assert files == Place(before, visits[n]);
        assert visits[..n + 1][..n] == visits[..n];
        n := n + 1;
      }
      assert visits[..n] == visits;
    }
  }

  // Names -------------------------------------------------------------------------------------------

  lemma NamesApart(a: Idp, dest: string)
    ensures Dest(a) != Marker(dest)
    ensures Marker(Dest(a)) == Marker(dest) ==> Dest(a) == dest
  {
    assert Dest(a)[|Dest(a)| - 3] == 'x' && Marker(dest)[|Marker(dest)| - 3] == 'u';
    assert Marker(Dest(a))[..|Dest(a)|] == Dest(a);
    assert Marker(dest)[..|dest|] == dest;
  }

  /** A visit touches only its own file and marker. */
  lemma PlaceElsewhere(dir: Directory, v: Visit, b: Idp)
    requires Dest(v.idp) != Dest(b)
    ensures Kept(dir, Place(dir, v), Dest(b))
  {
    NamesApart(v.idp, Dest(b));
    NamesApart(b, Dest(v.idp));
  }

  /** The file and its marker are the same in both. */
  predicate Kept(was: Directory, now: Directory, dest: string) {
    && (dest in now <==> dest in was)
    && (Marker(dest) in now <==> Marker(dest) in was)
    && (dest in was ==> now[dest] == was[dest])
    && (Marker(dest) in was ==> now[Marker(dest)] == was[Marker(dest)])
  }

  lemma {:induction false} PlaceAllElsewhere(dir: Directory, visits: seq<Visit>, b: Idp)
    requires forall v :: v in visits ==> Dest(v.idp) != Dest(b)
    ensures Kept(dir, PlaceAll(dir, visits), Dest(b))
  {
    if visits != [] {
      var n := |visits| - 1;
      PlaceAllElsewhere(dir, visits[..n], b);
      assert visits[n] in visits;
      PlaceElsewhere(PlaceAll(dir, visits[..n]), visits[n], b);
    }
  }

  lemma {:induction false} PlaceAllSplits(dir: Directory, before: seq<Visit>, after: seq<Visit>)
    ensures PlaceAll(dir, before + after) == PlaceAll(PlaceAll(dir, before), after)
  {
    if after == [] {
      assert before + after == before;
    } else {
      var n := |after| - 1;
      assert (before + after)[..|before + after| - 1] == before + after[..n];
      PlaceAllSplits(dir, before, after[..n]);
    }
  }

  // Where a file comes from -------------------------------------------------------------------------

  /** A later visit to the same file that leaves it: it has no usable cache, and its URL is the one of the marker
  or does not answer. */
  predicate Passes(v: Visit, url: string) {
    !Usable(v.idp.cache) && (v.idp.url == url || v.answer.None?)
  }

  /** Visit `k` supplied this content under this URL, and every later visit to the file passed. */
  ghost predicate TakenFrom(visits: seq<Visit>, k: nat, dest: string, url: string, data: string) {
    && k < |visits|
    && Dest(visits[k].idp) == dest && visits[k].idp.url == url && Supplied(visits[k]) == Some(data)
    && forall m :: k < m < |visits| && Dest(visits[m].idp) == dest ==> Passes(visits[m], url)
  }

  ghost predicate Visited(visits: seq<Visit>, dest: string) {
    exists k :: 0 <= k < |visits| && Dest(visits[k].idp) == dest
  }

  ghost predicate EverSupplied(visits: seq<Visit>, dest: string) {
    exists k :: 0 <= k < |visits| && Dest(visits[k].idp) == dest && Supplied(visits[k]).Some?
  }

  /** What the directory says of one file, against the history. */
  ghost predicate Truthful(visits: seq<Visit>, dir: Directory, dest: string) {
    && (dest in dir <==> Visited(visits, dest))
    && (Marker(dest) in dir <==> EverSupplied(visits, dest))
    && (Marker(dest) in dir ==> dest in dir && exists k: nat :: TakenFrom(visits, k, dest, dir[Marker(dest)], dir[dest]))
    && (dest in dir && Marker(dest) !in dir ==> dir[dest] == EMPTY_META)
  }

  lemma TakenFromEarlier(visits: seq<Visit>, v: Visit, k: nat, dest: string, url: string, data: string)
    requires TakenFrom(visits, k, dest, url, data)
    requires Dest(v.idp) != dest || Passes(v, url)
    ensures TakenFrom(visits + [v], k, dest, url, data)
  {
    var all := visits + [v];
    forall m | k < m < |all| && Dest(all[m].idp) == dest ensures Passes(all[m], url) {
      assert m < |visits| ==> all[m] == visits[m];
    }
  }

  lemma HistoryGrows(visits: seq<Visit>, v: Visit, dest: string)
    ensures Visited(visits + [v], dest) <==> Visited(visits, dest) || Dest(v.idp) == dest
    ensures EverSupplied(visits + [v], dest)
            <==> EverSupplied(visits, dest) || (Dest(v.idp) == dest && Supplied(v).Some?)
  {
    var all := visits + [v];
    assert all[|visits|] == v;
    assert forall k :: 0 <= k < |visits| ==> all[k] == visits[k];
    if Visited(visits, dest) {
      var k :| 0 <= k < |visits| && Dest(visits[k].idp) == dest;
      assert Dest(all[k].idp) == dest;
    }
    if EverSupplied(visits, dest) {
      var k :| 0 <= k < |visits| && Dest(visits[k].idp) == dest && Supplied(visits[k]).Some?;
      assert Supplied(all[k]).Some?;
    }
  }

  lemma VisitKeepsTruth(visits: seq<Visit>, dir: Directory, v: Visit, b: Idp)
    requires Truthful(visits, dir, Dest(b))
    ensures Truthful(visits + [v], Place(dir, v), Dest(b))
  {
    var dest, all, now := Dest(b), visits + [v], Place(dir, v);
    HistoryGrows(visits, v, dest);
    NamesApart(b, dest);
    if Dest(v.idp) != dest {
      PlaceElsewhere(dir, v, b);
      if Marker(dest) in dir {
        var k: nat :| TakenFrom(visits, k, dest, dir[Marker(dest)], dir[dest]);
        TakenFromEarlier(visits, v, k, dest, dir[Marker(dest)], dir[dest]);
      }
    } else if Usable(v.idp.cache) || (Tries(dir, v.idp) && v.answer.Some?) {
      assert TakenFrom(all, |visits|, dest, now[Marker(dest)], now[dest]);
    } else if Marker(dest) in dir {
      var k: nat :| TakenFrom(visits, k, dest, dir[Marker(dest)], dir[dest]);
      TakenFromEarlier(visits, v, k, dest, dir[Marker(dest)], dir[dest]);
    }
  }

  /** From an empty directory, after any visits: a file exists exactly for the IdPs visited; a marker exactly when
  some visit could supply the file; the marker's URL is that of the visit the file's content was taken from, with
  no later visit that had to replace it; and a file without a marker is the empty placeholder. */
  lemma {:induction false} MarkerTells(visits: seq<Visit>, b: Idp)
    ensures Truthful(visits, PlaceAll(map[], visits), Dest(b))
  {
    if visits != [] {
      var n := |visits| - 1;
      MarkerTells(visits[..n], b);
      VisitKeepsTruth(visits[..n], PlaceAll(map[], visits[..n]), visits[n], b);
      assert visits == visits[..n] + [visits[n]];
    }
  }

  // Runs --------------------------------------------------------------------------------------------

  /** Whatever was there and whatever the network answers, every IdP has a file after the run. */
  lemma {:induction false} EveryIdpHasFile(dir: Directory, run: seq<Visit>, i: nat)
    requires i < |run|
    ensures Dest(run[i].idp) in PlaceAll(dir, run)
  {
    var n := |run| - 1;
    if i < n {
      EveryIdpHasFile(dir, run[..n], i);
    }
  }

  /** The last visit to a file with a usable cache decides its content and its marker. */
  lemma {:induction false} LastCacheIsFile(dir: Directory, run: seq<Visit>, i: nat)
    requires i < |run| && Usable(run[i].idp.cache)
    requires forall j :: i < j < |run| ==> Dest(run[j].idp) != Dest(run[i].idp)
    ensures var now, dest := PlaceAll(dir, run), Dest(run[i].idp);
            && dest in now && now[dest] == run[i].idp.cache
            && Marker(dest) in now && now[Marker(dest)] == run[i].idp.url
  {
    var before, after := run[..i + 1], run[i + 1..];
    assert run == before + after;
    PlaceAllSplits(dir, before, after);
    assert before[..i] == run[..i] && before[i] == run[i];
    NamesApart(run[i].idp, Dest(run[i].idp));
    PlaceAllElsewhere(PlaceAll(dir, before), after, run[i].idp);
  }

  /** The aliases that the configuration generator passes to the loop. */
  const MANAGED := {"spid-demo", "spid-validator", "eidas-qa", "eidas-prod"}

  /** No two visits of the run go to one file. */
  ghost predicate FilesApart(run: seq<Visit>) {
    forall i, j :: 0 <= i < j < |run| ==> Dest(run[i].idp) != Dest(run[j].idp)
  }

  lemma PlainSlug(alias: string)
    requires alias in MANAGED
    ensures Slug(alias) == alias
  {
  }

  /** Runs over managed IdPs, each once, go to different files. */
  lemma {:induction false} ManagedFilesApart(run: seq<Visit>)
    requires forall i :: 0 <= i < |run| ==> run[i].idp.alias in MANAGED
    requires forall i, j :: 0 <= i < j < |run| ==> run[i].idp.alias != run[j].idp.alias
    ensures FilesApart(run)
  {
    forall i, j | 0 <= i < j < |run| ensures Dest(run[i].idp) != Dest(run[j].idp) {
      var a, b := run[i].idp, run[j].idp;
      PlainSlug(a.alias);
      PlainSlug(b.alias);
      assert Dest(a)[..|Dest(a)| - 4] == a.alias && Dest(b)[..|Dest(b)| - 4] == b.alias;
    }
  }

  /** What a visit does to its file depends on nothing else. */
  lemma PlaceLocal(one: Directory, other: Directory, v: Visit)
    requires Kept(one, other, Dest(v.idp))
    ensures Kept(Place(one, v), Place(other, v), Dest(v.idp))
  {
    NamesApart(v.idp, Dest(v.idp));
  }

  /** MAIN RESULT. In a run whose IdPs have different files, each file and its marker end up as the visit of its own IdP
  alone would have left them, whatever the others have in their caches and get from the network. */
  lemma {:induction false} EachFileIsItsOwn(dir: Directory, run: seq<Visit>, i: nat)
    requires FilesApart(run) && i < |run|
    ensures Kept(Place(dir, run[i]), PlaceAll(dir, run), Dest(run[i].idp))
  {
    var before, after := run[..i], run[i + 1..];
    assert run == run[..i + 1] + after && run[..i + 1][..i] == before;
    PlaceAllSplits(dir, run[..i + 1], after);
    forall v | v in before ensures Dest(v.idp) != Dest(run[i].idp) {
      var j :| 0 <= j < i && before[j] == v;
      assert run[j] == v;
    }
    PlaceAllElsewhere(dir, before, run[i].idp);
    PlaceLocal(dir, PlaceAll(dir, before), run[i]);
    PlaceAllElsewhere(PlaceAll(dir, run[..i + 1]), after, run[i].idp);
  }

  /** The IdP's cache is its file, and its URL the marker. */
  predicate IsFileOf(dir: Directory, idp: Idp) {
    && Dest(idp) in dir && dir[Dest(idp)] == idp.cache
    && Marker(Dest(idp)) in dir && dir[Marker(Dest(idp))] == idp.url
  }

  /** MAIN RESULT. In a run whose IdPs have different files, with any mix of usable caches and downloads, every usable
  cache is exactly its IdP's file, and its URL the marker. */
  lemma {:induction false} CachesAreFiles(dir: Directory, run: seq<Visit>)
    requires FilesApart(run)
    ensures forall v :: v in run && Usable(v.idp.cache) ==> IsFileOf(PlaceAll(dir, run), v.idp)
  {
    forall v | v in run && Usable(v.idp.cache) ensures IsFileOf(PlaceAll(dir, run), v.idp) {
      var i :| 0 <= i < |run| && run[i] == v;
      LastCacheIsFile(dir, run, i);
    }
  }

  /** A URL that failed is asked again at the IdP's next visit that has no usable cache, whatever happens to other
  files in between; and a URL whose file was taken under it is not asked. */
  lemma {:induction false} FailedIsTriedAgain(visits: seq<Visit>, v: Visit, between: seq<Visit>, cache: string)
    requires forall w :: w in between ==> Dest(w.idp) != Dest(v.idp)
    requires !Usable(v.idp.cache) && !Usable(cache)
    ensures var dir := PlaceAll(map[], visits);
            Tries(PlaceAll(map[], visits + [v] + between), v.idp.(cache := cache))
            <==> Tries(dir, v.idp) && v.answer.None?
  {
    var dir, idp := PlaceAll(map[], visits), v.idp;
    assert (visits + [v])[..|visits|] == visits;
    PlaceAllSplits(map[], visits + [v], between);
    PlaceAllElsewhere(Place(dir, v), between, idp);
    MarkerTells(visits, idp);
    NamesApart(idp, Dest(idp));
    assert Dest(idp.(cache := cache)) == Dest(idp);
  }
}
