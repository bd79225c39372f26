/** Applying a group of the plan: the input files are edited item by item, and a lock reader then finds every item
pinned to its version and every other pin as it was. */
module PlanApplied {
  import opened EditedPins
  import opened FixPlan
  import opened FixPlanPartition
  import opened Requirements
  import opened RequirementsReadBack
  import opened Wrappers

  /** The input files by path. */
  type Files = map<string, string>

  function Joined(advisories: seq<string>): string {
    if advisories == [] then ""
    else if |advisories| == 1 then advisories[0]
    else advisories[0] + ", " + Joined(advisories[1..])
  }

  function EditItem(text: string, item: Item): string
    requires item.version.Some?
  {
    Edit(text, item.name, item.version.value, Joined(item.advisories))
  }

  predicate Applicable(items: seq<Item>, files: Files) {
    forall item :: item in items ==> item.version.Some? && item.key.infile in files
  }

  function ApplyAll(files: Files, items: seq<Item>): (r: Files)
    requires Applicable(items, files)
    ensures r.Keys == files.Keys
  {
    if items == [] then files
    else
      var last := items[|items| - 1];
      var before := ApplyAll(files, items[..|items| - 1]);
      before[last.key.infile := EditItem(before[last.key.infile], last)]
  }

  class Checkout {
    var files: Files

    constructor (files: Files)
      ensures this.files == files
    {
      this.files := files;
    }

    /** The `apply` command, for the items of one group. */
    method CmdApply(items: seq<Item>)
      requires Applicable(items, files)
      modifies this
      ensures files == ApplyAll(old(files), items)
    {
      var n := 0;
      while n < |items|
        invariant 0 <= n <= |items|
        invariant files == ApplyAll(old(files), items[..n])
      {
        var infile := items[n].key.infile;
        var edited := EditInfile(files[infile], items[n].name, items[n].version.value, Joined(items[n].advisories));
        files := files[infile := edited];
        assert items[..n + 1][..n] == items[..n];
        n := n + 1;
      }
      assert items[..n] == items;
    }
  }

  // One file ----------------------------------------------------------------------------------------

  /** The item names its package, its version can be pinned, and its advisories fit on one line. */
  predicate SoundItem(item: Item) {
    item.version.Some? && Sound(item.name, item.version.value, Joined(item.advisories))
    && Normalize(item.name) == item.key.norm
  }

  /** A line that requires one package does not require another. */
  lemma OnePackage(line: string, norm: string, other: string)
    requires Requirement(line, norm).Some? && norm != other
    ensures Requirement(line, other).None?
  {
  }

  ghost predicate AtMostOne(heads: seq<Option<Head>>) {
    forall j, k :: 0 <= j < k < |heads| ==> heads[j].None? || heads[k].None?
  }

  lemma OneReplaced(heads: seq<Option<Head>>, i: nat, head: Option<Head>)
    requires AtMostOne(heads) && i < |heads| && (heads[i].None? ==> head.None?)
    ensures AtMostOne(heads[i := head])
  {
  }

  lemma OneAppended(heads: seq<Option<Head>>, head: Option<Head>)
    requires AtMostOne(heads) && (head.None? || FirstSome(heads) == |heads|)
    ensures AtMostOne(heads + [None, None, head])
  {
  }

  /** An edit leaves every package on at most one line that was so before. */
  lemma {:induction false} EditKeepsOnce(text: string, name: string, version: string, adv: string, norm: string)
    requires Sound(name, version, adv) && NamedAtMostOnce(text, norm)
    ensures NamedAtMostOnce(Edit(text, name, version, adv), norm)
  {
    var heads, own := Heads(Lines(text), norm), Normalize(name);
    if Edited(text, name) < |Lines(text)| {
      ReplacedKeepsOnce(text, name, version, adv, norm);
    } else {
      AppendedKeepsOnce(text, name, version, adv, norm);
    }
  }

  lemma {:induction false} ReplacedKeepsOnce(text: string, name: string, version: string, adv: string, norm: string)
    requires Sound(name, version, adv) && NamedAtMostOnce(text, norm) && Edited(text, name) < |Lines(text)|
    ensures NamedAtMostOnce(Edit(text, name, version, adv), norm)
  {
    var i, lines, own := Edited(text, name), Lines(text), Normalize(name);
    var line := NewLine(text, name, version, adv);
    LinesOfReplaced(text, name, version, adv);
    ReplacedLine(text, name, version, adv);
    HeadsUpdate(lines, norm, i, line);
    assert Heads(lines, norm)[i] == Requirement(Bare(lines[i]), norm);
    assert Heads(lines, own)[i] == Requirement(Bare(lines[i]), own);
    if norm != own {
      OnePackage(Bare(line), own, norm);
    }
    OneReplaced(Heads(lines, norm), i, Requirement(Bare(line), norm));
  }

  lemma {:induction false} AppendedKeepsOnce(text: string, name: string, version: string, adv: string, norm: string)
    requires Sound(name, version, adv) && NamedAtMostOnce(text, norm) && Edited(text, name) == |Lines(text)|
    ensures NamedAtMostOnce(Edit(text, name, version, adv), norm)
  {
    var lines, own, a := Lines(text), Normalize(name), Appended(name, version, adv);
    EndedText(text);
    LinesOfAppended(text, name, version, adv);
    HeadsAppended(lines, EndedLines(lines), a, norm);
    AppendedFor(name, version, adv, norm);
    OneAppended(Heads(lines, norm), Requirement(Bare(a[2]), norm));
  }

  lemma {:induction false} AppendedFor(name: string, version: string, adv: string, norm: string)
    requires Sound(name, version, adv)
    ensures var a := Appended(name, version, adv);
            && Requirement(Bare(a[0]), norm).None? && Requirement(Bare(a[1]), norm).None?
            && (norm != Normalize(name) ==> Requirement(Bare(a[2]), norm).None?)
  {
    AppendedLines(name, version, adv);
    AppendedHeads(name, version, adv);
    if norm != Normalize(name) {
      OnePackage(Bare(Appended(name, version, adv)[2]), Normalize(name), norm);
    }
  }

  /** The pins with each item's package at its version. */
  function Repinned(pins: map<string, string>, items: seq<Item>): map<string, string>
    requires forall item :: item in items ==> item.version.Some?
  {
    if items == [] then pins
    else
      var last := items[|items| - 1];
      Repinned(pins, items[..|items| - 1])[last.key.norm := last.version.value]
  }

  /** The file's own items, in order. */
  function ItemsOf(items: seq<Item>, infile: string): seq<Item> {
    if items == [] then []
    else
      var rest := ItemsOf(items[..|items| - 1], infile);
      if items[|items| - 1].key.infile == infile then rest + [items[|items| - 1]] else rest
  }

  lemma {:induction false} ItemsOfHas(items: seq<Item>, infile: string)
    ensures forall item :: item in ItemsOf(items, infile) <==> item in items && item.key.infile == infile
  {
    if items != [] {
      var n := |items| - 1;
      ItemsOfHas(items[..n], infile);
      assert items == items[..n] + [items[n]];
    }
  }

  /** After all items are applied, the file's pins are the old ones with its own items' versions. */
  lemma {:induction false} ApplyAllPins(files: Files, items: seq<Item>, infile: string)
    requires Applicable(items, files) && infile in files
    requires forall item :: item in items && item.key.infile == infile ==>
               SoundItem(item) && NamedAtMostOnce(files[infile], item.key.norm)
    ensures (forall item :: item in ItemsOf(items, infile) ==> item.version.Some?)
    ensures Pins(Lines(ApplyAll(files, items)[infile])) == Repinned(Pins(Lines(files[infile])), ItemsOf(items, infile))
    ensures forall norm :: NamedAtMostOnce(files[infile], norm) ==> NamedAtMostOnce(ApplyAll(files, items)[infile], norm)
  {
    ItemsOfHas(items, infile);
    if items != [] {
      var n := |items| - 1;
      var last, mid := items[n], ApplyAll(files, items[..n]);
      assert last in items && forall item :: item in items[..n] ==> item in items;
      ApplyAllPins(files, items[..n], infile);
      if last.key.infile == infile {
        hide Edit, NamedAtMostOnce, Sound, Pins, Lines;
        var text, adv := mid[infile], Joined(last.advisories);
        EditPins(text, last.name, last.version.value, adv);
        forall norm | NamedAtMostOnce(text, norm)
          ensures NamedAtMostOnce(EditItem(text, last), norm)
        {
          EditKeepsOnce(text, last.name, last.version.value, adv, norm);
        }
        RepinOne(Pins(Lines(files[infile])), ItemsOf(items[..n], infile), last);
      }
    }
  }

  lemma RepinOne(pins: map<string, string>, items: seq<Item>, last: Item)
    requires last.version.Some? && forall item :: item in items ==> item.version.Some?
    ensures forall item :: item in items + [last] ==> item.version.Some?
    ensures Repinned(pins, items + [last]) == Repinned(pins, items)[last.key.norm := last.version.value]
  {
    assert (items + [last])[..|items|] == items;
  }

  ghost predicate PackagesApart(items: seq<Item>) {
    forall i, j :: 0 <= i < j < |items| ==> items[i].key.norm != items[j].key.norm
  }

  lemma {:induction false} OtherPins(pins: map<string, string>, items: seq<Item>, norm: string)
    requires forall item :: item in items ==> item.version.Some? && item.key.norm != norm
    ensures norm in Repinned(pins, items) <==> norm in pins
    ensures norm in pins ==> Repinned(pins, items)[norm] == pins[norm]
  {
    if items != [] {
      assert items[|items| - 1] in items;
      OtherPins(pins, items[..|items| - 1], norm);
    }
  }

  /** Items of different packages do not get in each other's way. */
  lemma {:induction false} OwnPin(pins: map<string, string>, items: seq<Item>, k: nat)
    requires k < |items| && PackagesApart(items)
    requires forall item :: item in items ==> item.version.Some?
    ensures items[k].key.norm in Repinned(pins, items)
    ensures Repinned(pins, items)[items[k].key.norm] == items[k].version.value
  {
    var n := |items| - 1;
    if k < n {
      OwnPin(pins, items[..n], k);
    }
  }

  // A whole group -----------------------------------------------------------------------------------

  lemma {:induction false} ItemsOfApart(items: seq<Item>, infile: string)
    requires ItemsApart(items)
    ensures PackagesApart(ItemsOf(items, infile))
  {
    if items != [] {
      var n := |items| - 1;
      var rest := ItemsOf(items[..n], infile);
      ItemsOfApart(items[..n], infile);
      ItemsOfHas(items[..n], infile);
      if items[n].key.infile == infile {
        forall i | 0 <= i < |rest| ensures rest[i].key.norm != items[n].key.norm {
          assert rest[i] in rest;
          var k :| 0 <= k < n && items[..n][k] == rest[i];
          assert items[k] == rest[i];
        }
      }
    }
  }

  lemma AscendingApart(items: seq<Item>)
    requires Ascending(items)
    ensures ItemsApart(items)
  {
    forall i, j | 0 <= i < j < |items| ensures items[i].key != items[j].key {
      KeyOrder(items[i].key, items[j].key);
    }
  }

  /** What the group asks of one input file: it names each package at most once, and the items can be written there. */
  ghost predicate FitsFile(items: seq<Item>, files: Files, infile: string) {
    infile in files
    && forall item :: item in items && item.key.infile == infile ==>
         item.version.Some? && NamedAtMostOnce(files[infile], item.key.norm)
         && Sound(item.name, item.version.value, Joined(item.advisories))
  }

  /** Every item of the file is pinned to its version, and every other pin is as before. */
  ghost predicate Pinned(items: seq<Item>, infile: string, before: map<string, string>, after: map<string, string>) {
    && (forall item :: item in items && item.key.infile == infile ==>
          item.key.norm in after && Some(after[item.key.norm]) == item.version)
    && (forall norm :: (forall item :: item in items ==> item.key != Place(infile, norm)) ==>
          (norm in after <==> norm in before) && (norm in before ==> after[norm] == before[norm]))
  }

  lemma {:induction false} RepinnedIsPinned(pins: map<string, string>, items: seq<Item>, infile: string)
    requires forall item :: item in items ==> item.version.Some?
    requires forall item :: item in ItemsOf(items, infile) <==> item in items && item.key.infile == infile
    requires PackagesApart(ItemsOf(items, infile))
    ensures Pinned(items, infile, pins, Repinned(pins, ItemsOf(items, infile)))
  {
    hide ItemsOf, Repinned;
    var own := ItemsOf(items, infile);
    var after := Repinned(pins, own);
    forall item | item in items && item.key.infile == infile
      ensures item.key.norm in after && Some(after[item.key.norm]) == item.version
    {
      assert item in own;
      var k :| 0 <= k < |own| && own[k] == item;
      OwnPin(pins, own, k);
    }
    forall norm | forall item :: item in items ==> item.key != Place(infile, norm)
      ensures (norm in after <==> norm in pins) && (norm in pins ==> after[norm] == pins[norm])
    {
      forall item | item in own ensures item.key.norm != norm {
        assert item.key == Place(infile, item.key.norm);
      }
      OtherPins(pins, own, norm);
    }
  }

  lemma {:induction false} ApplyAllPinned(files: Files, items: seq<Item>, infile: string)
    requires Applicable(items, files) && ItemsApart(items) && FitsFile(items, files, infile)
    requires forall item :: item in items ==> Normalize(item.name) == item.key.norm
    ensures Pinned(items, infile, Pins(Lines(files[infile])), Pins(Lines(ApplyAll(files, items)[infile])))
  {
    hide Pinned, Pins, Lines, ItemsOf, Repinned, NamedAtMostOnce, Sound, Normalize, ApplyAll;
    ApplyAllPins(files, items, infile);
    ItemsOfHas(items, infile);
    ItemsOfApart(items, infile);
    RepinnedIsPinned(Pins(Lines(files[infile])), items, infile);
  }

  /** MAIN RESULT. Applying a whole group of the plan to files that name each of its packages at most once leaves every
  item pinned to its version in its file, and every other pin of every file as it was. */
  lemma {:induction false} GroupApplied(w: World, findings: map<string, seq<Finding>>, locks: map<string, string>,
                                        files: Files, g: Group, infile: string)
    requires g in {Auto, Manual}
    requires forall item :: item in PlanFor(w, AllCases(TARGETS, findings, locks)).Of(g) ==> item.key.infile in files
    requires FitsFile(PlanFor(w, AllCases(TARGETS, findings, locks)).Of(g), files, infile)
    ensures var items := PlanFor(w, AllCases(TARGETS, findings, locks)).Of(g);
            && Applicable(items, files)
            && Pinned(items, infile, Pins(Lines(files[infile])), Pins(Lines(ApplyAll(files, items)[infile])))
  {
    var cases := AllCases(TARGETS, findings, locks);
    var items := PlanFor(w, cases).Of(g);
    forall item | item in items ensures item.version.Some? && Normalize(item.name) == item.key.norm {
      ReadyItems(w, findings, locks, g, item);
      ItemName(w, findings, locks, g, item);
    }
    PlanAscends(w, cases, g);
    AscendingApart(items);
    ApplyAllPinned(files, items, infile);
  }
}
