/** Where each package of each file lands in the plan. */
module FixPlanPartition {
  import opened FixPlan
  import opened PipVersions
  import opened PythonText
  import opened Requirements
  import opened Wrappers

  // Entries -----------------------------------------------------------------------------------------

  /** The cases of one file and package, in order. */
  function OfKey(cases: seq<Case>, key: Place): seq<Case> {
    if cases == [] then []
    else
      var rest := OfKey(cases[..|cases| - 1], key);
      if cases[|cases| - 1].key == key then rest + [cases[|cases| - 1]] else rest
  }

  /** Name, version and place of the first case; advisories, identifiers and fixes of all. */
  function EntryOf(cases: seq<Case>): Entry
    requires cases != []
  {
    var n := |cases| - 1;
    Extend(if n == 0 then Begin(cases[0]) else EntryOf(cases[..n]), cases[n].finding)
  }

  ghost predicate KeysApart(entries: seq<Entry>) {
    forall i, j :: 0 <= i < j < |entries| ==> entries[i].key != entries[j].key
  }

  lemma {:induction false} CollectApart(cases: seq<Case>)
    ensures KeysApart(Collect(cases))
  {
    if cases != [] {
      CollectApart(cases[..|cases| - 1]);
    }
  }

  lemma FindIs(entries: seq<Entry>, key: Place, i: nat)
    requires i < |entries| && entries[i].key == key && forall j :: 0 <= j < i ==> entries[j].key != key
    ensures Find(entries, key) == i
  {
  }

  /** An entry is made of exactly the cases of its key. */
  ghost predicate HasEntry(entries: seq<Entry>, cases: seq<Case>, key: Place) {
    var i, own := Find(entries, key), OfKey(cases, key);
    if own == [] then i == |entries| else i < |entries| && entries[i] == EntryOf(own)
  }

  lemma OfKeyStep(cases: seq<Case>, c: Case, key: Place)
    ensures OfKey(cases + [c], key) == if c.key == key then OfKey(cases, key) + [c] else OfKey(cases, key)
  {
    assert (cases + [c])[..|cases|] == cases;
  }

  lemma EntryOfStep(own: seq<Case>, c: Case)
    ensures EntryOf(own + [c]) == Extend(if own == [] then Begin(c) else EntryOf(own), c.finding)
  {
    assert (own + [c])[..|own|] == own;
  }

  lemma {:induction false} AddCaseKeeps(entries: seq<Entry>, cases: seq<Case>, c: Case, key: Place)
    requires HasEntry(entries, cases, key) && KeysApart(entries)
    ensures HasEntry(AddCase(entries, c), cases + [c], key)
  {
    var own, i, now := OfKey(cases, key), Find(entries, key), AddCase(entries, c);
    OfKeyStep(cases, c, key);
    if c.key == key {
      EntryOfStep(own, c);
      FindIs(now, key, i);
    } else if i < |entries| {
      FindIs(now, key, i);
    }
  }

  lemma {:induction false} CollectHas(cases: seq<Case>, key: Place)
    ensures HasEntry(Collect(cases), cases, key)
  {
    if cases != [] {
      var n := |cases| - 1;
      CollectHas(cases[..n], key);
      CollectApart(cases[..n]);
      AddCaseKeeps(Collect(cases[..n]), cases[..n], cases[n], key);
      assert cases == cases[..n] + [cases[n]];
    }
  }

  // Selection and order -----------------------------------------------------------------------------

  ghost predicate VerdictsApart(verdicts: seq<Option<Verdict>>) {
    forall i, j :: 0 <= i < j < |verdicts| && verdicts[i].Some? && verdicts[j].Some?
                   ==> verdicts[i].value.item.key != verdicts[j].value.item.key
  }

  ghost predicate ItemsApart(items: seq<Item>) {
    forall i, j :: 0 <= i < j < |items| ==> items[i].key != items[j].key
  }

  ghost predicate Ascending(items: seq<Item>) {
    forall i, j :: 0 <= i < j < |items| ==> KeyBefore(items[i].key, items[j].key)
  }

  lemma {:induction false} SelectHas(verdicts: seq<Option<Verdict>>, g: Group)
    ensures forall item :: item in Select(verdicts, g) <==> Some(Verdict(g, item)) in verdicts
  {
    if verdicts != [] {
      var n := |verdicts| - 1;
      SelectHas(verdicts[..n], g);
      assert verdicts == verdicts[..n] + [verdicts[n]];
    }
  }

  lemma {:induction false} SelectApart(verdicts: seq<Option<Verdict>>, g: Group)
    requires VerdictsApart(verdicts)
    ensures ItemsApart(Select(verdicts, g))
  {
    if verdicts != [] {
      var n := |verdicts| - 1;
      SelectApart(verdicts[..n], g);
      SelectHas(verdicts[..n], g);
      var rest := Select(verdicts[..n], g);
      if verdicts[n].Some? {
        forall i | 0 <= i < |rest| ensures rest[i].key != verdicts[n].value.item.key {
          assert rest[i] in rest;
          var k :| 0 <= k < n && verdicts[..n][k] == Some(Verdict(g, rest[i]));
          assert verdicts[k] == verdicts[..n][k];
        }
      }
    }
  }

  lemma KeyOrder(a: Place, b: Place)
    ensures KeyBefore(a, b) || KeyBefore(b, a) || a == b
    ensures !(KeyBefore(a, b) && KeyBefore(b, a))
  {
    TextLessIsTotal(a.infile, b.infile);
    TextLessIsTotal(a.norm, b.norm);
  }

  lemma KeyOrderChains(a: Place, b: Place, c: Place)
    requires KeyBefore(a, b) && KeyBefore(b, c)
    ensures KeyBefore(a, c)
  {
    if TextLess(a.infile, b.infile) && TextLess(b.infile, c.infile) {
      LessIsTransitive(Codes(a.infile), Codes(b.infile), Codes(c.infile));
    }
    if TextLess(a.norm, b.norm) && TextLess(b.norm, c.norm) {
      LessIsTransitive(Codes(a.norm), Codes(b.norm), Codes(c.norm));
    }
  }

  lemma {:induction false} InsertHas(s: seq<Item>, x: Item)
    ensures forall y :: y in InsertItem(s, x) <==> y in s || y == x
  {
    if s != [] && KeyBefore(x.key, s[|s| - 1].key) {
      InsertHas(s[..|s| - 1], x);
      assert s == s[..|s| - 1] + [s[|s| - 1]];
    }
  }

  lemma {:induction false} InsertAscends(s: seq<Item>, x: Item)
    requires Ascending(s) && forall y :: y in s ==> y.key != x.key
    ensures Ascending(InsertItem(s, x))
  {
    if s != [] {
      var n := |s| - 1;
      assert s[n] in s;
      KeyOrder(x.key, s[n].key);
      if KeyBefore(x.key, s[n].key) {
        assert forall y :: y in s[..n] ==> y in s;
        InsertAscends(s[..n], x);
        InsertHas(s[..n], x);
        var t := InsertItem(s[..n], x);
        forall i | 0 <= i < |t| ensures KeyBefore(t[i].key, s[n].key) {
          assert t[i] in t;
          if t[i] in s[..n] {
            var k :| 0 <= k < n && s[k] == t[i];
          }
        }
      } else {
        forall i | 0 <= i < n ensures KeyBefore(s[i].key, x.key) {
          KeyOrderChains(s[i].key, s[n].key, x.key);
        }
      }
    }
  }

  lemma {:induction false} SortHas(s: seq<Item>)
    ensures forall y :: y in SortItems(s) <==> y in s
  {
    if s != [] {
      SortHas(s[..|s| - 1]);
      InsertHas(SortItems(s[..|s| - 1]), s[|s| - 1]);
      assert s == s[..|s| - 1] + [s[|s| - 1]];
    }
  }

  lemma {:induction false} SortAscends(s: seq<Item>)
    requires ItemsApart(s)
    ensures Ascending(SortItems(s))
  {
    if s != [] {
      var n := |s| - 1;
      SortAscends(s[..n]);
      SortHas(s[..n]);
      forall y | y in s[..n] ensures y.key != s[n].key {
        var k :| 0 <= k < n && s[k] == y;
      }
      InsertAscends(SortItems(s[..n]), s[n]);
    }
  }

  // The plan ----------------------------------------------------------------------------------------

  /** What becomes of one file and package, from its own cases alone. */
  function VerdictFor(w: World, cases: seq<Case>, key: Place): Option<Verdict> {
    if OfKey(cases, key) == [] then None else Judge(w, EntryOf(OfKey(cases, key)))
  }

  lemma JudgeKeepsKey(w: World, e: Entry)
    ensures Judge(w, e).Some? ==> Judge(w, e).value.item.key == e.key
    ensures Judge(w, e).Some? <==> Grave(Severity(w.osv, e.ids))
  {
  }

  lemma VerdictsAreApart(w: World, entries: seq<Entry>)
    requires KeysApart(entries)
    ensures VerdictsApart(JudgeAll(w, entries))
  {
    var v := JudgeAll(w, entries);
    forall i | 0 <= i < |v| && v[i].Some? ensures v[i].value.item.key == entries[i].key {
      JudgeKeepsKey(w, entries[i]);
    }
  }

  lemma {:induction false} VerdictIn(w: World, cases: seq<Case>, v: Verdict)
    ensures Some(v) in JudgeAll(w, Collect(cases)) <==> VerdictFor(w, cases, v.item.key) == Some(v)
  {
    var entries, key := Collect(cases), v.item.key;
    var verdicts, i := JudgeAll(w, entries), Find(entries, key);
    CollectHas(cases, key);
    CollectApart(cases);
    if Some(v) in verdicts {
      var k :| 0 <= k < |verdicts| && verdicts[k] == Some(v);
      JudgeKeepsKey(w, entries[k]);
      FindIs(entries, key, k);
    }
    if i < |entries| {
      assert verdicts[i] == Judge(w, entries[i]);
    }
  }

  lemma {:induction false} PlanHas(w: World, cases: seq<Case>, g: Group, item: Item)
    ensures item in PlanFor(w, cases).Of(g) <==> VerdictFor(w, cases, item.key) == Some(Verdict(g, item))
  {
    var verdicts := JudgeAll(w, Collect(cases));
    SelectHas(verdicts, g);
    SortHas(Select(verdicts, g));
    VerdictIn(w, cases, Verdict(g, item));
    ArrangeOf(verdicts, g);
  }

  lemma ArrangeOf(verdicts: seq<Option<Verdict>>, g: Group)
    ensures Arrange(verdicts).Of(g) == SortItems(Select(verdicts, g))
  {
  }

  /** Each group is in strictly increasing order of file and package. */
  lemma {:induction false} PlanAscends(w: World, cases: seq<Case>, g: Group)
    ensures Ascending(PlanFor(w, cases).Of(g))
  {
    var verdicts := JudgeAll(w, Collect(cases));
    CollectApart(cases);
    VerdictsAreApart(w, Collect(cases));
    SelectApart(verdicts, g);
    SortAscends(Select(verdicts, g));
    ArrangeOf(verdicts, g);
  }

  // Which packages count ----------------------------------------------------------------------------

  /** A target's file has a finding for this package, and the target's parent lock does not pin it. */
  ghost predicate Found(targets: seq<Target>, findings: map<string, seq<Finding>>, locks: map<string, string>, key: Place) {
    exists t, f :: t in targets && f in FindingsOf(t, findings) && KeyOf(t, f) == key && key.norm !in Parent(t, locks)
  }

  lemma {:induction false} OfKeyHas(cases: seq<Case>, key: Place)
    ensures forall c :: c in OfKey(cases, key) <==> c in cases && c.key == key
  {
    if cases != [] {
      var n := |cases| - 1;
      OfKeyHas(cases[..n], key);
      assert cases == cases[..n] + [cases[n]];
    }
  }

  lemma CasesHas(t: Target, parent: map<string, string>, fs: seq<Finding>, c: Case)
    ensures c in Cases(t, parent, fs)
            <==> c.finding in fs && c.key == KeyOf(t, c.finding) && c.key.norm !in parent && c.lock == t.lock
  {
    var list := CaseList(t, parent, fs);
    SomesHas(list);
    if c.finding in fs {
      var i :| 0 <= i < |fs| && fs[i] == c.finding;
      assert list[i] == CaseOf(t, parent, c.finding);
    }
  }

  lemma {:induction false} AllCasesHas(targets: seq<Target>, findings: map<string, seq<Finding>>, locks: map<string, string>, c: Case)
    ensures c in AllCases(targets, findings, locks)
            <==> exists t :: t in targets && c in Cases(t, Parent(t, locks), FindingsOf(t, findings))
  {
    if targets != [] {
      var n := |targets| - 1;
      AllCasesHas(targets[..n], findings, locks, c);
      assert targets == targets[..n] + [targets[n]];
    }
  }

  lemma {:induction false} FoundIff(targets: seq<Target>, findings: map<string, seq<Finding>>, locks: map<string, string>, key: Place)
    ensures OfKey(AllCases(targets, findings, locks), key) != [] <==> Found(targets, findings, locks, key)
  {
    var cases := AllCases(targets, findings, locks);
    OfKeyHas(cases, key);
    if OfKey(cases, key) != [] {
      var c := OfKey(cases, key)[0];
      assert c in OfKey(cases, key);
      AllCasesHas(targets, findings, locks, c);
      var t :| t in targets && c in Cases(t, Parent(t, locks), FindingsOf(t, findings));
      CasesHas(t, Parent(t, locks), FindingsOf(t, findings), c);
    }
    if Found(targets, findings, locks, key) {
      var t, f :| t in targets && f in FindingsOf(t, findings) && KeyOf(t, f) == key && key.norm !in Parent(t, locks);
      var c := Case(key, t.lock, f);
      CasesHas(t, Parent(t, locks), FindingsOf(t, findings), c);
      AllCasesHas(targets, findings, locks, c);
    }
  }

  // Main results ------------------------------------------------------------------------------------

  /** The severity of a file and package: that of all identifiers and aliases of its cases. */
  function SeverityFor(w: World, cases: seq<Case>, key: Place): string {
    if OfKey(cases, key) == [] then "UNKNOWN" else Severity(w.osv, EntryOf(OfKey(cases, key)).ids)
  }

  /** MAIN RESULT. A file and package with a finding outside the parent lock and a high, critical or unknown severity
  is in exactly one group, at one place; any other is in none. */
  lemma {:induction false} ExactlyOnce(w: World, findings: map<string, seq<Finding>>, locks: map<string, string>, key: Place)
    ensures var cases := AllCases(TARGETS, findings, locks);
            (Found(TARGETS, findings, locks, key) && Grave(SeverityFor(w, cases, key)))
            <==> exists g, i: nat :: At(PlanFor(w, cases), g, i, key)
    ensures var plan := PlanFor(w, AllCases(TARGETS, findings, locks));
            forall g, h, i: nat, j: nat :: At(plan, g, i, key) && At(plan, h, j, key) ==> g == h && i == j
  {
    var cases := AllCases(TARGETS, findings, locks);
    FoundIff(TARGETS, findings, locks, key);
    LandsIff(w, cases, key);
    forall g, h, i: nat, j: nat | At(PlanFor(w, cases), g, i, key) && At(PlanFor(w, cases), h, j, key)
      ensures g == h && i == j
    {
      OnePlace(w, cases, key, g, h, i, j);
    }
  }

  ghost predicate At(plan: Plan, g: Group, i: nat, key: Place) {
    i < |plan.Of(g)| && plan.Of(g)[i].key == key
  }

  lemma {:induction false} OnePlace(w: World, cases: seq<Case>, key: Place, g: Group, h: Group, i: nat, j: nat)
    requires At(PlanFor(w, cases), g, i, key) && At(PlanFor(w, cases), h, j, key)
    ensures g == h && i == j
  {
    var a, b := PlanFor(w, cases).Of(g), PlanFor(w, cases).Of(h);
    assert a[i] in a && b[j] in b;
    PlanHas(w, cases, g, a[i]);
    PlanHas(w, cases, h, b[j]);
    PlanAscends(w, cases, g);
    KeyOrder(key, key);
  }

  lemma {:induction false} LandsIff(w: World, cases: seq<Case>, key: Place)
    ensures (OfKey(cases, key) != [] && Grave(SeverityFor(w, cases, key)))
            <==> exists g, i: nat :: At(PlanFor(w, cases), g, i, key)
  {
    if g, i: nat :| At(PlanFor(w, cases), g, i, key) {
      var item := PlanFor(w, cases).Of(g)[i];
      assert item in PlanFor(w, cases).Of(g);
      PlanHas(w, cases, g, item);
      JudgeKeepsKey(w, EntryOf(OfKey(cases, key)));
    }
    if OfKey(cases, key) != [] && Grave(SeverityFor(w, cases, key)) {
      var e := EntryOf(OfKey(cases, key));
      JudgeKeepsKey(w, e);
      EntryKey(cases, key);
      var v := Judge(w, e).value;
      PlanHas(w, cases, v.group, v.item);
      var i :| 0 <= i < |PlanFor(w, cases).Of(v.group)| && PlanFor(w, cases).Of(v.group)[i] == v.item;
      assert At(PlanFor(w, cases), v.group, i, key);
    }
  }

  lemma {:induction false} EntryKey(cases: seq<Case>, key: Place)
    requires OfKey(cases, key) != []
    ensures EntryOf(OfKey(cases, key)).key == key
  {
    OfKeyHas(cases, key);
    FirstDecides(OfKey(cases, key));
    assert OfKey(cases, key)[0] in OfKey(cases, key);
  }

  lemma {:induction false} FirstDecides(cases: seq<Case>)
    requires cases != []
    ensures EntryOf(cases).key == cases[0].key && EntryOf(cases).name == cases[0].finding.name
    ensures EntryOf(cases).current == cases[0].finding.version && EntryOf(cases).lock == cases[0].lock
  {
    if |cases| > 1 {
      FirstDecides(cases[..|cases| - 1]);
    }
  }

  // Items that are ready ----------------------------------------------------------------------------

  lemma {:induction false} AddTextHas(s: seq<string>, x: string)
    ensures forall y :: y in AddText(s, x) <==> y in s || y == x
  {
    if s != [] {
      AddTextHas(s[1..], x);
      assert s == [s[0]] + s[1..];
    }
  }

  lemma {:induction false} AddTextsHas(s: seq<string>, xs: seq<string>)
    ensures forall y :: y in AddTexts(s, xs) <==> y in s || y in xs
  {
    if xs != [] {
      var n := |xs| - 1;
      AddTextsHas(s, xs[..n]);
      AddTextHas(AddTexts(s, xs[..n]), xs[n]);
      assert xs == xs[..n] + [xs[n]];
    }
  }

  ghost predicate Proposed(cases: seq<Case>, fix: string) {
    exists c :: c in cases && fix in c.finding.fixes
  }

  /** The fixes of an entry are those that one of its findings proposes. */
  lemma {:induction false} FixesAre(cases: seq<Case>)
    requires cases != []
    ensures forall x :: x in EntryOf(cases).fixes <==> Proposed(cases, x)
  {
    var n := |cases| - 1;
    assert cases == cases[..n] + [cases[n]];
    if n == 0 {
      AddTextsHas([], cases[0].finding.fixes);
    } else {
      FixesAre(cases[..n]);
      AddTextsHas(EntryOf(cases[..n]).fixes, cases[n].finding.fixes);
    }
  }

  lemma {:induction false} NameOfKey(targets: seq<Target>, findings: map<string, seq<Finding>>, locks: map<string, string>, key: Place)
    requires OfKey(AllCases(targets, findings, locks), key) != []
    ensures Normalize(EntryOf(OfKey(AllCases(targets, findings, locks), key)).name) == key.norm
  {
    var cases := AllCases(targets, findings, locks);
    var c := OfKey(cases, key)[0];
    OfKeyHas(cases, key);
    FirstDecides(OfKey(cases, key));
    assert c in OfKey(cases, key);
    AllCasesHas(targets, findings, locks, c);
    var t :| t in targets && c in Cases(t, Parent(t, locks), FindingsOf(t, findings));
    CasesHas(t, Parent(t, locks), FindingsOf(t, findings), c);
  }

  /** The version is one of these fixes, above the current one, and no fix above the current one is older. */
  ghost predicate IsLeastProposed(cases: seq<Case>, current: string, version: string) {
    && Proposed(cases, version) && Newer(version, current)
    && forall x :: Proposed(cases, x) && Newer(x, current) ==> !Newer(version, x)
  }

  lemma {:induction false} ChosenIsLeast(w: World, cases: seq<Case>, version: string)
    requires cases != []
    requires ChooseVersion(w.index, EntryOf(cases).name, EntryOf(cases).current, EntryOf(cases).fixes, w.now, w.force)
             == Choice(Some(version), Ok)
    ensures IsLeastProposed(cases, EntryOf(cases).current, version)
  {
    var e := EntryOf(cases);
    ChoiceIff(w.index, e.name, e.current, e.fixes, w.now, w.force, version);
    var i: nat :| LeastFix(e.fixes, e.current, i) && e.fixes[i] == version;
    FixesAre(cases);
    forall x | Proposed(cases, x) && Newer(x, e.current) ensures !Newer(version, x) {
      var j :| 0 <= j < |e.fixes| && e.fixes[j] == x;
      assert Decorate(e.fixes)[j].key == VersionKey(x);
    }
  }

  /** MAIN RESULT. An item of the first two groups carries the least fix, of all those its findings propose, above the
  version of the first finding; it is merged by hand exactly when its package is on the list. The other two groups
  carry no version. */
  lemma {:induction false} ReadyItems(w: World, findings: map<string, seq<Finding>>, locks: map<string, string>, g: Group, item: Item)
    requires item in PlanFor(w, AllCases(TARGETS, findings, locks)).Of(g)
    ensures item.version.Some? <==> g in {Auto, Manual}
    ensures g in {Auto, Manual} ==> (g == Manual <==> item.key.norm in BY_HAND)
    ensures item.version.Some? ==>
              IsLeastProposed(OfKey(AllCases(TARGETS, findings, locks), item.key), item.current, item.version.value)
  {
    var cases := AllCases(TARGETS, findings, locks);
    var own := OfKey(cases, item.key);
    PlanHas(w, cases, g, item);
    NameOfKey(TARGETS, findings, locks, item.key);
    VerdictIs(w, EntryOf(own), Verdict(g, item));
    if item.version.Some? {
      ChosenIsLeast(w, own, item.version.value);
    }
  }

  lemma VerdictIs(w: World, e: Entry, v: Verdict)
    requires Judge(w, e) == Some(v)
    ensures var choice := ChooseVersion(w.index, e.name, e.current, e.fixes, w.now, w.force);
            && v.item.version == choice.version && v.item.current == e.current && v.item.name == e.name
            && (choice.status == Ok <==> v.group in {Auto, Manual}) && (choice.version.Some? <==> choice.status == Ok)
            && (choice.status == Ok ==> (v.group == Manual <==> Normalize(e.name) in BY_HAND))
  {
  }

  /** An item's name is one of its package. */
  lemma {:induction false} ItemName(w: World, findings: map<string, seq<Finding>>, locks: map<string, string>, g: Group, item: Item)
    requires item in PlanFor(w, AllCases(TARGETS, findings, locks)).Of(g)
    ensures Normalize(item.name) == item.key.norm
  {
    var cases := AllCases(TARGETS, findings, locks);
    PlanHas(w, cases, g, item);
    NameOfKey(TARGETS, findings, locks, item.key);
    VerdictIs(w, EntryOf(OfKey(cases, item.key)), Verdict(g, item));
  }
}
