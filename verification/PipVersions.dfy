/** Versions of Python packages as the dependency fixer orders them, and its choice of a fix. */
module PipVersions {
  import opened PythonText
  import opened Wrappers

  // Reading a version -------------------------------------------------------------------------------

  function Digits(v: string): (d: string)
    ensures d <= v && forall c :: c in d ==> IsDigit(c)
    ensures |d| < |v| ==> !IsDigit(v[|d|])
  {
    if v == "" || !IsDigit(v[0]) then "" else [v[0]] + Digits(v[1..])
  }

  function Value(d: string): (n: int)
    requires forall c :: c in d ==> IsDigit(c)
    ensures n >= 0
  {
    if d == "" then 0
    else
      assert IsDigit(d[|d| - 1]);
      Value(d[..|d| - 1]) * 10 + (d[|d| - 1] - '0') as int
  }

  /** A dot with a digit behind it: the number goes on. */
  predicate Continues(rest: string) {
    |rest| > 1 && rest[0] == '.' && IsDigit(rest[1])
  }

  /** The numbers at the start, between dots; none if the text does not start with a digit. */
  function Numbers(v: string): (nums: seq<int>)
    ensures nums == [] <==> Digits(v) == ""
    decreases |v|
  {
    var d := Digits(v);
    if d == "" then []
    else [Value(d)] + if Continues(v[|d|..]) then Numbers(v[|d| + 1..]) else []
  }

  function AfterNumbers(v: string): (rest: string)
    decreases |v|
  {
    var d := Digits(v);
    if d == "" then v
    else if Continues(v[|d|..]) then AfterNumbers(v[|d| + 1..])
    else v[|d|..]
  }

  datatype Key = NoNumbers(text: string) | Release(nums: seq<int>, rank: int, suffix: string)

  function Pad(nums: seq<int>): (r: seq<int>)
    ensures |r| >= 6 && nums <= r
  {
    nums + seq(if |nums| < 6 then 6 - |nums| else 0, _ => 0)
  }

  predicate IsPre(rest: string) {
    var r := if rest != "" && rest[0] == '.' then rest[1..] else rest;
    "dev" <= r || "a" <= r || "b" <= r || "rc" <= r
  }

  function Rank(rest: string): int {
    if IsPre(rest) then 0 else if rest == "" then 1 else 2
  }

  /** The rest up to the end of the line, which may end in a newline; None if there is another line. */
  function OneLine(rest: string): Option<string> {
    var i := IndexOf(rest, '\n');
    if i + 1 < |rest| then None else Some(rest[..i])
  }

  function VersionKey(v: string): Key {
    match OneLine(AfterNumbers(v))
    case Some(rest) => if Numbers(v) == [] then NoNumbers(v) else Release(Pad(Numbers(v)), Rank(rest), rest)
    case None => NoNumbers(v)
  }

  // The order ---------------------------------------------------------------------------------------

  /** Python's order of the tuples: a version without numbers has the empty tuple in front. */
  predicate KeyLess(a: Key, b: Key) {
    match (a, b)
    case (NoNumbers(s), NoNumbers(t)) => TextLess(s, t)
    case (NoNumbers(_), Release(_, _, _)) => true
    case (Release(_, _, _), NoNumbers(_)) => false
    case (Release(m, p, s), Release(n, q, t)) => Less(m, n) || (m == n && (p < q || (p == q && TextLess(s, t))))
  }

  predicate Newer(v: string, w: string) {
    KeyLess(VersionKey(w), VersionKey(v))
  }

  lemma KeysAreOrdered(a: Key, b: Key)
    ensures KeyLess(a, b) || KeyLess(b, a) || a == b
    ensures !(KeyLess(a, b) && KeyLess(b, a)) && !KeyLess(a, a)
  {
    if a.NoNumbers? && b.NoNumbers? {
      TextLessIsTotal(a.text, b.text);
    } else if a.Release? && b.Release? {
      LessIsTotal(a.nums, b.nums);
      TextLessIsTotal(a.suffix, b.suffix);
    } else if a.Release? {
      LessIsTotal(a.nums, a.nums);
      TextLessIsTotal(a.suffix, a.suffix);
    } else {
      TextLessIsTotal(a.text, a.text);
    }
  }

  lemma KeysChain(a: Key, b: Key, c: Key)
    requires KeyLess(a, b) && KeyLess(b, c)
    ensures KeyLess(a, c)
  {
    if a.NoNumbers? && c.NoNumbers? {
      LessIsTransitive(Codes(a.text), Codes(b.text), Codes(c.text));
    } else if a.Release? {
      if Less(a.nums, b.nums) && Less(b.nums, c.nums) {
        LessIsTransitive(a.nums, b.nums, c.nums);
      }
      if TextLess(a.suffix, b.suffix) && TextLess(b.suffix, c.suffix) {
        LessIsTransitive(Codes(a.suffix), Codes(b.suffix), Codes(c.suffix));
      }
    }
  }

  /** MAIN RESULT. `version_key` orders all texts: not newer is a total preorder. */
  lemma VersionsArePreordered(u: string, v: string, w: string)
    ensures !Newer(v, v)
    ensures !Newer(v, w) || !Newer(w, v)
    ensures !Newer(u, v) && !Newer(v, w) ==> !Newer(u, w)
  {
    var a, b, c := VersionKey(u), VersionKey(v), VersionKey(w);
    KeysAreOrdered(b, c);
    KeysAreOrdered(a, b);
    if Newer(u, w) && !Newer(v, w) && KeyLess(b, c) {
      KeysChain(b, c, a);
    }
  }

  // Versions as people write them -------------------------------------------------------------------

  function DigitChar(n: int): char
    requires 0 <= n < 10
  {
    '0' + n as char
  }

  function Decimal(n: nat): (d: string)
    ensures d != "" && forall c :: c in d ==> IsDigit(c)
  {
    if n < 10 then [DigitChar(n)] else Decimal(n / 10) + [DigitChar(n % 10)]
  }

  /** Numbers with dots between. */
  function Dotted(nums: seq<nat>): string {
    if nums == [] then ""
    else if |nums| == 1 then Decimal(nums[0])
    else Decimal(nums[0]) + "." + Dotted(nums[1..])
  }

  /** A suffix that the numbers do not run into. */
  predicate Separate(suffix: string) {
    && (suffix == "" || !IsDigit(suffix[0]))
    && !Continues(suffix)
    && '\n' !in suffix
  }

  lemma {:induction false} DecimalValue(n: nat)
    ensures Value(Decimal(n)) == n
  {
    if n < 10 {
      assert Value([]) == 0;
      assert Decimal(n)[..|Decimal(n)| - 1] == [];
    } else {
      DecimalValue(n / 10);
      var d := Decimal(n);
      assert d[..|d| - 1] == Decimal(n / 10);
    }
  }

  lemma {:induction false} DigitsStop(d: string, rest: string)
    requires forall c :: c in d ==> IsDigit(c)
    requires rest == "" || !IsDigit(rest[0])
    ensures Digits(d + rest) == d
  {
    if d == "" {
      assert d + rest == rest;
    } else {
      assert (d + rest)[0] == d[0] && (d + rest)[1..] == d[1..] + rest;
      DigitsStop(d[1..], rest);
      assert d == [d[0]] + d[1..];
    }
  }

  /** One step of reading: digits, then what is behind them. */
  lemma NumbersStep(d: string, rest: string)
    requires d != "" && forall c :: c in d ==> IsDigit(c)
    requires rest == "" || !IsDigit(rest[0])
    ensures Numbers(d + rest) == [Value(d)] + if Continues(rest) then Numbers(rest[1..]) else []
    ensures AfterNumbers(d + rest) == if Continues(rest) then AfterNumbers(rest[1..]) else rest
  {
    var v := d + rest;
    DigitsStop(d, rest);
    assert v[|d|..] == rest;
    if Continues(rest) {
      assert v[|d| + 1..] == rest[1..];
    }
  }

  /** The numbers and the suffix of a written version are read back. */
  lemma {:induction false} DottedReadsBack(nums: seq<nat>, suffix: string)
    requires nums != [] && Separate(suffix)
    ensures Numbers(Dotted(nums) + suffix) == nums && AfterNumbers(Dotted(nums) + suffix) == suffix
  {
    DecimalValue(nums[0]);
    if |nums| == 1 {
      NumbersStep(Decimal(nums[0]), suffix);
      assert nums == [nums[0]];
    } else {
      var tail := Dotted(nums[1..]) + suffix;
      DottedReadsBack(nums[1..], suffix);
      DottedStarts(nums[1..], suffix);
      OneMoreNumber(nums[0], tail);
      JoinRegroups(Decimal(nums[0]), ".", Dotted(nums[1..]), suffix);
      assert nums == [nums[0]] + nums[1..];
    }
  }

  lemma JoinRegroups(a: string, b: string, c: string, d: string)
    ensures a + b + c + d == a + (b + (c + d))
  {
  }

  lemma OneMoreNumber(n: nat, tail: string)
    requires tail != "" && IsDigit(tail[0])
    ensures Numbers(Decimal(n) + ("." + tail)) == [n] + Numbers(tail)
    ensures AfterNumbers(Decimal(n) + ("." + tail)) == AfterNumbers(tail)
  {
    DecimalValue(n);
    assert ("." + tail)[1..] == tail;
    NumbersStep(Decimal(n), "." + tail);
  }

  lemma DottedStarts(nums: seq<nat>, suffix: string)
    requires nums != []
    ensures Dotted(nums) + suffix != "" && IsDigit((Dotted(nums) + suffix)[0])
  {
    assert Decimal(nums[0])[0] in Decimal(nums[0]);
    assert (Dotted(nums) + suffix)[0] == Decimal(nums[0])[0];
  }

  lemma {:induction false} WrittenKey(nums: seq<nat>, suffix: string)
    requires nums != [] && Separate(suffix)
    ensures VersionKey(Dotted(nums) + suffix) == Release(Pad(nums), Rank(suffix), suffix)
  {
    DottedReadsBack(nums, suffix);
    assert suffix[..|suffix|] == suffix;
    assert IndexOf(suffix, '\n') == |suffix|;
  }

  /** MAIN RESULT. Written versions are ordered by their numbers, missing ones counting as zero up to six; with the
  same numbers a pre-release comes before the release, and the release before a post-release. */
  lemma {:induction false} WrittenOrder(m: seq<nat>, s: string, n: seq<nat>, t: string)
    requires m != [] && n != [] && Separate(s) && Separate(t)
    ensures Less(Pad(m), Pad(n)) ==> Newer(Dotted(n) + t, Dotted(m) + s)
    ensures Pad(m) == Pad(n) && IsPre(s) && !IsPre(t) ==> Newer(Dotted(n) + t, Dotted(m) + s)
    ensures Pad(m) == Pad(n) && s == "" && t != "" && !IsPre(t) ==> Newer(Dotted(n) + t, Dotted(m) + s)
    ensures Newer(Dotted(n) + t, Dotted(m) + s) && !Less(Pad(m), Pad(n)) ==> Pad(m) == Pad(n) && Rank(s) <= Rank(t)
  {
    WrittenKey(m, s);
    WrittenKey(n, t);
  }

  // Choosing a fix ----------------------------------------------------------------------------------

  datatype Publisher = Publisher(kind: Option<string>, repository: string)

  /** A released file: its upload time, and the publishers that attested it. */
  datatype File = File(uploaded: Option<int>, publishers: seq<Publisher>)

  /** PyPI: the files of each version of each package. */
  type Index = (string, string) -> seq<File>

  datatype Status = Ok | Pending | Unfixable

  datatype Choice = Choice(version: Option<string>, status: Status)

  const HOUR := 3_600_000_000
  const MIN_AGE := 48 * HOUR

  function Identity(p: Publisher): string {
    (if p.kind.Some? then p.kind.value else "?") + ":" + Lower(p.repository)
  }

  /** The repositories that attested the files; a publisher without a repository is none. */
  function Repos(files: seq<File>): set<string> {
    set f, p | f in files && p in f.publishers && p.repository != "" :: Identity(p)
  }

  function Uploaded(files: seq<File>): Option<int> {
    if files == [] then None
    else
      var earlier := Uploaded(files[..|files| - 1]);
      var last := files[|files| - 1].uploaded;
      if last.None? || (earlier.Some? && earlier.value <= last.value) then earlier else last
  }

  /** A version with its key, as a sort by key works on it. */
  datatype Keyed = Keyed(key: Key, text: string)

  function Decorate(fixes: seq<string>): seq<Keyed> {
    seq(|fixes|, i requires 0 <= i < |fixes| => Keyed(VersionKey(fixes[i]), fixes[i]))
  }

  /** The fixes above the current version, in their order. */
  function Candidates(fixes: seq<Keyed>, current: Key): seq<Keyed> {
    if fixes == [] then []
    else
      var rest := Candidates(fixes[..|fixes| - 1], current);
      if KeyLess(current, fixes[|fixes| - 1].key) then rest + [fixes[|fixes| - 1]] else rest
  }

  function Insert(s: seq<Keyed>, v: Keyed): seq<Keyed> {
    if s != [] && KeyLess(v.key, s[|s| - 1].key) then Insert(s[..|s| - 1], v) + [s[|s| - 1]] else s + [v]
  }

  /** A stable sort by key. */
  function SortByKey(s: seq<Keyed>): seq<Keyed> {
    if s == [] then [] else Insert(SortByKey(s[..|s| - 1]), s[|s| - 1])
  }

  predicate TooYoung(files: seq<File>, now: int) {
    Uploaded(files).Some? && now - Uploaded(files).value < MIN_AGE
  }

  function ChooseVersion(index: Index, name: string, current: string, fixes: seq<string>, now: int, force: bool): Choice {
    var candidates := SortByKey(Candidates(Decorate(fixes), VersionKey(current)));
    if candidates == [] then Choice(None, Unfixable)
    else
      var cand := candidates[0].text;
      var files := index(name, cand);
      if files == [] then Choice(None, Unfixable)
      else if !force && TooYoung(files, now) then Choice(None, Pending)
      else if Repos(index(name, current)) == {} then Choice(None, Unfixable)
      else if Repos(files) == {} then Choice(None, Unfixable)
      else if !(Repos(files) <= Repos(index(name, current))) then Choice(None, Unfixable)
      else Choice(Some(cand), Ok)
  }

  /** Fix `i` is above the current version, no fix above the current version is older, and it is the first such. */
  ghost predicate LeastAbove(fixes: seq<Keyed>, current: Key, i: nat) {
    && i < |fixes| && KeyLess(current, fixes[i].key)
    && (forall j :: 0 <= j < |fixes| && KeyLess(current, fixes[j].key) ==> !KeyLess(fixes[j].key, fixes[i].key))
    && (forall j :: 0 <= j < i && KeyLess(current, fixes[j].key) ==> KeyLess(fixes[i].key, fixes[j].key))
  }

  ghost predicate LeastFix(fixes: seq<string>, current: string, i: nat) {
    LeastAbove(Decorate(fixes), VersionKey(current), i)
  }

  /** The version's files are attested, and only by repositories that attested the current version. */
  predicate SameOrigin(index: Index, name: string, current: string, v: string) {
    Repos(index(name, v)) != {} && Repos(index(name, v)) <= Repos(index(name, current))
  }

  // The head of the sorted list ---------------------------------------------------------------------

  function Least(s: seq<Keyed>): Keyed
    requires s != []
  {
    var n := |s| - 1;
    if n == 0 then s[0]
    else
      var least := Least(s[..n]);
      if KeyLess(s[n].key, least.key) then s[n] else least
  }

  ghost predicate Ascending(s: seq<Keyed>) {
    forall a, b :: 0 <= a < b < |s| ==> !KeyLess(s[b].key, s[a].key)
  }

  /** Not above and not above: not above. */
  lemma NotLessChains(a: Key, b: Key, c: Key)
    requires !KeyLess(b, a) && !KeyLess(c, b)
    ensures !KeyLess(c, a)
  {
    KeysAreOrdered(a, b);
    if KeyLess(c, a) && KeyLess(a, b) {
      KeysChain(c, a, b);
    }
  }

  lemma {:induction false} InsertAscends(s: seq<Keyed>, v: Keyed)
    requires Ascending(s)
    ensures Ascending(Insert(s, v))
    ensures forall w :: w in Insert(s, v) ==> w in s || w == v
  {
    var n := |s| - 1;
    if s != [] && KeyLess(v.key, s[n].key) {
      InsertAscends(s[..n], v);
      KeysAreOrdered(v.key, s[n].key);
      var t := Insert(s[..n], v);
      forall a | 0 <= a < |t| ensures !KeyLess(s[n].key, t[a].key) {
        assert t[a] in t;
      }
    } else if s != [] {
      forall a | 0 <= a < |s| ensures !KeyLess(v.key, s[a].key) {
        if a < n {
          NotLessChains(s[a].key, s[n].key, v.key);
        }
      }
    }
  }

  lemma {:induction false} InsertHead(s: seq<Keyed>, v: Keyed)
    requires s != [] && Ascending(s)
    ensures Insert(s, v) != [] && Insert(s, v)[0] == if KeyLess(v.key, s[0].key) then v else s[0]
  {
    var n := |s| - 1;
    if KeyLess(v.key, s[n].key) && n > 0 {
      InsertHead(s[..n], v);
    } else if n > 0 {
      NotLessChains(s[0].key, s[n].key, v.key);
    }
  }

  lemma {:induction false} SortedHead(s: seq<Keyed>)
    ensures Ascending(SortByKey(s)) && (SortByKey(s) == [] <==> s == [])
    ensures s != [] ==> SortByKey(s)[0] == Least(s)
  {
    if s != [] {
      var n := |s| - 1;
      SortedHead(s[..n]);
      InsertAscends(SortByKey(s[..n]), s[n]);
      if n > 0 {
        InsertHead(SortByKey(s[..n]), s[n]);
      }
    }
  }

  lemma {:induction false} NoCandidates(fixes: seq<Keyed>, current: Key)
    ensures Candidates(fixes, current) == [] <==> forall j :: 0 <= j < |fixes| ==> !KeyLess(current, fixes[j].key)
  {
    if fixes != [] {
      NoCandidates(fixes[..|fixes| - 1], current);
    }
  }

  /** The least candidate is the least fix above the current version. */
  lemma {:induction false} LeastIsFix(fixes: seq<Keyed>, current: Key) returns (i: nat)
    requires Candidates(fixes, current) != []
    ensures LeastAbove(fixes, current, i) && Least(Candidates(fixes, current)) == fixes[i]
  {
    var n := |fixes| - 1;
    var was, last := fixes[..n], fixes[n];
    NoCandidates(was, current);
    KeysAreOrdered(last.key, last.key);
    if Candidates(was, current) == [] {
      i := n;
      assert Candidates(fixes, current) == [last];
    } else {
      var k := LeastIsFix(was, current);
      if KeyLess(current, last.key) {
        assert Candidates(fixes, current)[..|Candidates(fixes, current)| - 1] == Candidates(was, current);
      }
      if KeyLess(current, last.key) && KeyLess(last.key, fixes[k].key) {
        i := n;
        LastIsLeast(fixes, current, k);
      } else {
        i := k;
      }
    }
  }

  lemma LastIsLeast(fixes: seq<Keyed>, current: Key, k: nat)
    requires fixes != [] && LeastAbove(fixes[..|fixes| - 1], current, k)
    requires KeyLess(current, fixes[|fixes| - 1].key) && KeyLess(fixes[|fixes| - 1].key, fixes[k].key)
    ensures LeastAbove(fixes, current, |fixes| - 1)
  {
    var n := |fixes| - 1;
    KeysAreOrdered(fixes[n].key, fixes[n].key);
    forall j | 0 <= j < n && KeyLess(current, fixes[j].key)
      ensures !KeyLess(fixes[j].key, fixes[n].key) && KeyLess(fixes[n].key, fixes[j].key)
    {
      assert fixes[..n][j] == fixes[j];
      KeysAreOrdered(fixes[j].key, fixes[k].key);
      KeysAreOrdered(fixes[j].key, fixes[n].key);
      if fixes[k].key != fixes[j].key {
        KeysChain(fixes[n].key, fixes[k].key, fixes[j].key);
      }
    }
  }

  lemma OneLeast(fixes: seq<Keyed>, current: Key, i: nat, j: nat)
    requires LeastAbove(fixes, current, i) && LeastAbove(fixes, current, j)
    ensures i == j
  {
  }

  // What a choice says ------------------------------------------------------------------------------

  /** MAIN RESULT. A version is chosen if and only if it is the least fix above the current one, its files are
  released, old enough unless forced, and of the same origin. It waits if and only if the least fix is released and
  too young, and nothing forces it. */
  lemma {:induction false} ChoiceIff(index: Index, name: string, current: string, fixes: seq<string>, now: int, force: bool, v: string)
    ensures ChooseVersion(index, name, current, fixes, now, force) == Choice(Some(v), Ok) <==>
            exists i: nat :: LeastFix(fixes, current, i) && fixes[i] == v && index(name, v) != []
                             && (force || !TooYoung(index(name, v), now)) && SameOrigin(index, name, current, v)
    ensures ChooseVersion(index, name, current, fixes, now, force).status == Pending <==>
            exists i: nat :: LeastFix(fixes, current, i) && index(name, fixes[i]) != []
                             && !force && TooYoung(index(name, fixes[i]), now)
  {
    var keyed, cur := Decorate(fixes), VersionKey(current);
    var candidates := Candidates(keyed, cur);
    SortedHead(candidates);
    NoCandidates(keyed, cur);
    if candidates != [] {
      var i := LeastIsFix(keyed, cur);
      assert LeastFix(fixes, current, i) && Least(candidates).text == fixes[i];
      forall j: nat | LeastFix(fixes, current, j) ensures j == i {
        OneLeast(keyed, cur, i, j);
      }
    }
  }

  /** Force changes only a result that is pending, and into what the choice gives once the version is
  old enough. */
  lemma ForceOnlySkipsAge(index: Index, name: string, current: string, fixes: seq<string>, now: int, later: int)
    ensures ChooseVersion(index, name, current, fixes, now, false).status != Pending
            ==> ChooseVersion(index, name, current, fixes, now, true) == ChooseVersion(index, name, current, fixes, now, false)
    ensures ChooseVersion(index, name, current, fixes, later, false).status != Pending
            ==> ChooseVersion(index, name, current, fixes, now, true) == ChooseVersion(index, name, current, fixes, later, false)
  {
  }
}
