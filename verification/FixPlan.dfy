/** The plan of fixes: findings grouped by file and package, then sorted into the four groups.

OSV is the function from an identifier to its severity in upper case, empty if it has none; PyPI is an index of
released files. A set of texts is kept as its sorted list. */
module FixPlan {
  import opened PipVersions
  import opened PythonText
  import opened Requirements
  import opened Wrappers

  datatype Target = Target(lock: string, infile: string, parentLock: Option<string>)

  const TARGETS := [
    Target("config-api/requirements.txt", "config-api/requirements.in", None),
    Target("config-api/requirements-dev.txt", "config-api/requirements-dev.in", Some("config-api/requirements.txt")),
    Target("satosa/requirements-runtime.txt", "satosa/requirements-runtime.in", None),
    Target("satosa/tests/requirements-test.txt", "satosa/tests/requirements-test.in", None)]

  const BY_HAND := {"pysaml2", "cryptojwt", "cryptography", "pyeudiw", "satosa", "pyop"}

  datatype Finding = Finding(name: string, version: string, id: string, aliases: seq<string>, fixes: seq<string>)

  datatype Place = Place(infile: string, norm: string)

  /** A finding that counts, with its place. */
  datatype Case = Case(key: Place, lock: string, finding: Finding)

  datatype Entry = Entry(key: Place, lock: string, name: string, current: string, advisories: seq<string>,
                         ids: seq<string>, fixes: seq<string>)

  datatype Item = Item(key: Place, lock: string, name: string, current: string, advisories: seq<string>,
                       severity: string, version: Option<string>)

  datatype Group = Auto | Manual | Waiting | Hopeless

  datatype Verdict = Verdict(group: Group, item: Item)

  datatype Plan = Plan(auto: seq<Item>, manual: seq<Item>, pending: seq<Item>, unfixable: seq<Item>) {
    function Of(g: Group): seq<Item> {
      match g
      case Auto => auto
      case Manual => manual
      case Waiting => pending
      case Hopeless => unfixable
    }
  }

  datatype World = World(osv: string -> string, index: Index, now: int, force: bool)

  // Severity ----------------------------------------------------------------------------------------

  function Level(sev: string): Option<nat> {
    if sev == "LOW" then Some(0)
    else if sev == "MODERATE" then Some(1)
    else if sev == "MEDIUM" then Some(2)
    else if sev == "HIGH" then Some(3)
    else if sev == "CRITICAL" then Some(4)
    else None
  }

  function Higher(best: string, sev: string): string {
    if Level(sev).Some? && (Level(best).None? || Level(sev).value > Level(best).value) then sev else best
  }

  function Severity(osv: string -> string, ids: seq<string>): string {
    if ids == [] then "UNKNOWN" else Higher(Severity(osv, ids[..|ids| - 1]), osv(ids[|ids| - 1]))
  }

  method FindSeverity(osv: string -> string, ids: seq<string>) returns (best: string)
    ensures best == Severity(osv, ids)
  {
    best := "UNKNOWN";
    var n := 0;
    while n < |ids|
      invariant 0 <= n <= |ids|
      invariant best == Severity(osv, ids[..n])
      invariant best == "UNKNOWN" || Level(best).Some?
    {
      var sev := osv(ids[n]);
      if Level(sev).Some? && (best == "UNKNOWN" || Level(sev).value > Level(best).value) {
        best := sev;
      }
      assert ids[..n + 1][..n] == ids[..n];
      n := n + 1;
    }
    assert ids[..n] == ids;
  }

  /** No identifier of these is as severe as `level`. */
  ghost predicate AllBelow(osv: string -> string, ids: seq<string>, level: int) {
    forall id :: id in ids && Level(osv(id)).Some? ==> Level(osv(id)).value <= level
  }

  /** The severity is the highest known one of the identifiers, and UNKNOWN exactly when none is known. */
  lemma {:induction false} SeverityIsHighest(osv: string -> string, ids: seq<string>)
    ensures Severity(osv, ids) == "UNKNOWN" <==> AllBelow(osv, ids, -1)
    ensures Severity(osv, ids) != "UNKNOWN" ==>
              && Level(Severity(osv, ids)).Some? && AllBelow(osv, ids, Level(Severity(osv, ids)).value)
              && exists id :: id in ids && osv(id) == Severity(osv, ids)
  {
    if ids != [] {
      var n := |ids| - 1;
      SeverityIsHighest(osv, ids[..n]);
      assert ids == ids[..n] + [ids[n]];
      assert forall id :: id in ids[..n] ==> id in ids;
      assert ids[n] in ids;
    }
  }

  // Findings by file and package --------------------------------------------------------------------

  function Parent(target: Target, locks: map<string, string>): map<string, string> {
    match target.parentLock
    case Some(lock) => Pins(Lines(if lock in locks then locks[lock] else ""))
    case None => map[]
  }

  function FindingsOf(target: Target, findings: map<string, seq<Finding>>): seq<Finding> {
    if target.lock in findings then findings[target.lock] else []
  }

  function KeyOf(target: Target, f: Finding): Place {
    Place(target.infile, Normalize(f.name))
  }

  /** A finding, unless the parent lock has its package. */
  function CaseOf(target: Target, parent: map<string, string>, f: Finding): Option<Case> {
    if Normalize(f.name) in parent then None else Some(Case(KeyOf(target, f), target.lock, f))
  }

  function CaseList(target: Target, parent: map<string, string>, fs: seq<Finding>): seq<Option<Case>> {
    seq(|fs|, i requires 0 <= i < |fs| => CaseOf(target, parent, fs[i]))
  }

  function Cases(target: Target, parent: map<string, string>, fs: seq<Finding>): seq<Case> {
    Somes(CaseList(target, parent, fs))
  }

  function AllCases(targets: seq<Target>, findings: map<string, seq<Finding>>, locks: map<string, string>): seq<Case> {
    if targets == [] then []
    else
      var t := targets[|targets| - 1];
      AllCases(targets[..|targets| - 1], findings, locks) + Cases(t, Parent(t, locks), FindingsOf(t, findings))
  }

  function AddText(s: seq<string>, x: string): seq<string> {
    if s == [] then [x]
    else if s[0] == x then s
    else if TextLess(x, s[0]) then [x] + s
    else [s[0]] + AddText(s[1..], x)
  }

  function AddTexts(s: seq<string>, xs: seq<string>): seq<string> {
    if xs == [] then s else AddText(AddTexts(s, xs[..|xs| - 1]), xs[|xs| - 1])
  }

  function Extend(e: Entry, f: Finding): Entry {
    e.(advisories := e.advisories + [f.id], fixes := AddTexts(e.fixes, f.fixes), ids := e.ids + [f.id] + f.aliases)
  }

  function Begin(c: Case): Entry {
    Entry(c.key, c.lock, c.finding.name, c.finding.version, [], [], [])
  }

  function Find(entries: seq<Entry>, key: Place): (i: nat)
    ensures i <= |entries| && (i < |entries| ==> entries[i].key == key)
    ensures forall j :: 0 <= j < i ==> entries[j].key != key
  {
    if entries == [] || entries[0].key == key then 0 else 1 + Find(entries[1..], key)
  }

  function AddCase(entries: seq<Entry>, c: Case): seq<Entry> {
    var i := Find(entries, c.key);
    if i < |entries| then entries[i := Extend(entries[i], c.finding)] else entries + [Extend(Begin(c), c.finding)]
  }

  /** The dictionary of entries, in order of first insertion. */
  function Collect(cases: seq<Case>): seq<Entry> {
    if cases == [] then [] else AddCase(Collect(cases[..|cases| - 1]), cases[|cases| - 1])
  }

  // Groups ------------------------------------------------------------------------------------------

  predicate Grave(severity: string) {
    severity == "HIGH" || severity == "CRITICAL" || severity == "UNKNOWN"
  }

  function Judge(w: World, e: Entry): Option<Verdict> {
    var severity := Severity(w.osv, e.ids);
    if !Grave(severity) then None
    else
      var choice := ChooseVersion(w.index, e.name, e.current, e.fixes, w.now, w.force);
      var item := Item(e.key, e.lock, e.name, e.current, AddTexts([], e.advisories), severity, choice.version);
      match choice.status
      case Ok => Some(Verdict(if Normalize(e.name) in BY_HAND then Manual else Auto, item))
      case Pending => Some(Verdict(Waiting, item))
      case Unfixable => Some(Verdict(Hopeless, item))
  }

  function JudgeAll(w: World, entries: seq<Entry>): seq<Option<Verdict>> {
    seq(|entries|, i requires 0 <= i < |entries| => Judge(w, entries[i]))
  }

  function Select(verdicts: seq<Option<Verdict>>, g: Group): seq<Item> {
    if verdicts == [] then []
    else
      var rest, v := Select(verdicts[..|verdicts| - 1], g), verdicts[|verdicts| - 1];
      if v.Some? && v.value.group == g then rest + [v.value.item] else rest
  }

  predicate KeyBefore(a: Place, b: Place) {
    TextLess(a.infile, b.infile) || (a.infile == b.infile && TextLess(a.norm, b.norm))
  }

  function InsertItem(s: seq<Item>, x: Item): seq<Item> {
    if s != [] && KeyBefore(x.key, s[|s| - 1].key) then InsertItem(s[..|s| - 1], x) + [s[|s| - 1]] else s + [x]
  }

  function SortItems(s: seq<Item>): seq<Item> {
    if s == [] then [] else InsertItem(SortItems(s[..|s| - 1]), s[|s| - 1])
  }

  function Arrange(verdicts: seq<Option<Verdict>>): Plan {
    Plan(SortItems(Select(verdicts, Auto)), SortItems(Select(verdicts, Manual)),
         SortItems(Select(verdicts, Waiting)), SortItems(Select(verdicts, Hopeless)))
  }

  function PlanFor(w: World, cases: seq<Case>): Plan {
    Arrange(JudgeAll(w, Collect(cases)))
  }

  /** A finding goes into its entry, which is made if it is missing. */
  method AddFinding(before: seq<Entry>, c: Case) returns (entries: seq<Entry>)
    ensures entries == AddCase(before, c)
  {
    var i := Find(before, c.key);
    entries := before;
    if i == |entries| {
      entries := entries + [Entry(c.key, c.lock, c.finding.name, c.finding.version, [], [], [])];
    }
    entries := entries[i := Extend(entries[i], c.finding)];
  }

  /** The inner loop: the findings of one lock go into the dictionary. */
  method CollectTarget(target: Target, parent: map<string, string>, fs: seq<Finding>, before: seq<Entry>, ghost cases: seq<Case>)
    returns (entries: seq<Entry>)
    requires before == Collect(cases)
    ensures entries == Collect(cases + Cases(target, parent, fs))
  {
    entries := before;
    ghost var list := CaseList(target, parent, fs);
    var n := 0;
    assert cases + [] == cases;
    while n < |fs|
      invariant 0 <= n <= |fs|
      invariant entries == Collect(cases + Somes(list[..n]))
    {
      var c := CaseOf(target, parent, fs[n]);
      assert c == list[n];
      CollectMore(cases, list, n);
      if c.Some? {
        entries := AddFinding(entries, c.value);
      }
      n := n + 1;
    }
    assert list[..n] == list;
  }

  lemma CollectMore(cases: seq<Case>, list: seq<Option<Case>>, n: nat)
    requires n < |list|
    ensures Collect(cases + Somes(list[..n + 1]))
            == if list[n].Some? then AddCase(Collect(cases + Somes(list[..n])), list[n].value)
               else Collect(cases + Somes(list[..n]))
  {
    SomesGrow(list, n);
    if list[n].Some? {
      var done := cases + Somes(list[..n]);
      assert cases + Somes(list[..n + 1]) == done + [list[n].value];
      assert (done + [list[n].value])[..|done|] == done;
    }
  }

  lemma AllCasesGrow(targets: seq<Target>, findings: map<string, seq<Finding>>, locks: map<string, string>, n: nat)
    requires n < |targets|
    ensures AllCases(targets[..n + 1], findings, locks)
            == AllCases(targets[..n], findings, locks)
               + Cases(targets[n], Parent(targets[n], locks), FindingsOf(targets[n], findings))
  {
    assert targets[..n + 1][..n] == targets[..n];
  }

  method ReadParent(target: Target, locks: map<string, string>) returns (parent: map<string, string>)
    ensures parent == Parent(target, locks)
  {
    parent := map[];
    if target.parentLock.Some? {
      parent := ParseLock(if target.parentLock.value in locks then locks[target.parentLock.value] else "");
    }
  }

  method CollectFindings(targets: seq<Target>, findings: map<string, seq<Finding>>, locks: map<string, string>)
    returns (entries: seq<Entry>)
    ensures entries == Collect(AllCases(targets, findings, locks))
  {
    entries := [];
    var t := 0;
    while t < |targets|
      invariant 0 <= t <= |targets|
      invariant entries == Collect(AllCases(targets[..t], findings, locks))
    {
      AllCasesGrow(targets, findings, locks, t);
      var parent := ReadParent(targets[t], locks);
      var fs := FindingsOf(targets[t], findings);
      entries := CollectTarget(targets[t], parent, fs, entries, AllCases(targets[..t], findings, locks));
      t := t + 1;
    }
    assert targets[..t] == targets;
  }

  /** The loop over the entries: each item goes into its group. */
  method GroupItems(w: World, entries: seq<Entry>) returns (groups: Plan)
    ensures forall g :: groups.Of(g) == Select(JudgeAll(w, entries), g)
  {
    ghost var verdicts := JudgeAll(w, entries);
    groups := Plan([], [], [], []);
    var n := 0;
    while n < |entries|
      invariant 0 <= n <= |entries|
      invariant forall g :: groups.Of(g) == Select(verdicts[..n], g)
    {
      var v := Judge(w, entries[n]);
      assert verdicts[n] == v;
      GroupsGrow(groups, verdicts, n);
      groups := if v.Some? then AddItem(groups, v.value) else groups;
      n := n + 1;
    }
    assert verdicts[..n] == verdicts;
  }

  function AddItem(plan: Plan, v: Verdict): Plan {
    match v.group
    case Auto => plan.(auto := plan.auto + [v.item])
    case Manual => plan.(manual := plan.manual + [v.item])
    case Waiting => plan.(pending := plan.pending + [v.item])
    case Hopeless => plan.(unfixable := plan.unfixable + [v.item])
  }

  lemma GroupsGrow(groups: Plan, verdicts: seq<Option<Verdict>>, n: nat)
    requires n < |verdicts| && forall g :: groups.Of(g) == Select(verdicts[..n], g)
    ensures var now := if verdicts[n].Some? then AddItem(groups, verdicts[n].value) else groups;
            forall g :: now.Of(g) == Select(verdicts[..n + 1], g)
  {
    assert verdicts[..n + 1][..n] == verdicts[..n];
  }

  method BuildPlan(w: World, findings: map<string, seq<Finding>>, locks: map<string, string>) returns (plan: Plan)
    ensures plan == PlanFor(w, AllCases(TARGETS, findings, locks))
  {
    var entries := CollectFindings(TARGETS, findings, locks);
    var groups := GroupItems(w, entries);
    assert groups.auto == groups.Of(Auto) && groups.manual == groups.Of(Manual);
    assert groups.pending == groups.Of(Waiting) && groups.unfixable == groups.Of(Hopeless);
    plan := Plan(SortItems(groups.auto), SortItems(groups.manual), SortItems(groups.pending), SortItems(groups.unfixable));
  }
}
