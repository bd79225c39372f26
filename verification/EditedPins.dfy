/** The pins of an edited requirements file. */
module EditedPins {
  import opened Requirements
  import opened RequirementsReadBack
  import opened Wrappers

  // Pins of parts -----------------------------------------------------------------------------------

  lemma {:induction false} PinMapConcat(a: seq<Option<Pin>>, b: seq<Option<Pin>>)
    ensures PinMap(a + b) == PinMap(a) + PinMap(b)
  {
    if b == [] {
      assert a + b == a;
    } else {
      var n := |b| - 1;
      assert (a + b)[..|a + b| - 1] == a + b[..n];
      PinMapConcat(a, b[..n]);
    }
  }

  lemma PinMapOfOne(pin: Option<Pin>)
    ensures PinMap([pin]) == if pin.Some? then map[pin.value.norm := pin.value.version] else map[]
  {
    assert [pin][..0] == [];
    assert PinMap([]) == map[];
  }

  ghost predicate SameElsewhere(p: map<string, string>, q: map<string, string>, norm: string) {
    forall k :: k != norm ==> (k in p <==> k in q) && (k in p ==> p[k] == q[k])
  }

  lemma PinMapAround(pins: seq<Option<Pin>>, i: nat)
    requires i < |pins|
    ensures PinMap(pins) == PinMap(pins[..i]) + PinMap([pins[i]]) + PinMap(pins[i + 1..])
  {
    assert pins == pins[..i] + [pins[i]] + pins[i + 1..];
    PinMapConcat(pins[..i] + [pins[i]], pins[i + 1..]);
    PinMapConcat(pins[..i], [pins[i]]);
  }

  /** A pin in the place of one of the same package, or of none. */
  lemma PinReplaced(pins: seq<Option<Pin>>, i: nat, pin: Pin)
    requires i < |pins| && (pins[i].Some? ==> pins[i].value.norm == pin.norm)
    ensures SameElsewhere(PinMap(pins[i := Some(pin)]), PinMap(pins), pin.norm)
    ensures PinMap(pins[i := Some(pin)]) == PinMap(pins[..i]) + map[pin.norm := pin.version] + PinMap(pins[i + 1..])
  {
    var now := pins[i := Some(pin)];
    PinMapAround(pins, i);
    PinMapAround(now, i);
    assert now[..i] == pins[..i] && now[i + 1..] == pins[i + 1..];
    PinMapOfOne(pins[i]);
    PinMapOfOne(Some(pin));
  }

  lemma PinAppended(pins: seq<Option<Pin>>, pin: Pin)
    ensures PinMap(pins + [None, None, Some(pin)]) == PinMap(pins)[pin.norm := pin.version]
  {
    assert pins + [None, None, Some(pin)] == pins + [None] + [None] + [Some(pin)];
    PinMapConcat(pins + [None] + [None], [Some(pin)]);
    PinMapConcat(pins + [None], [None]);
    PinMapConcat(pins, [None]);
    PinMapOfOne(None);
    PinMapOfOne(Some(pin));
  }

  lemma {:induction false} NotPinned(pins: seq<Option<Pin>>, norm: string)
    requires forall j :: 0 <= j < |pins| && pins[j].Some? ==> pins[j].value.norm != norm
    ensures norm !in PinMap(pins)
  {
    if pins != [] {
      NotPinned(pins[..|pins| - 1], norm);
    }
  }

  // The two edits -----------------------------------------------------------------------------------

  /** What an edit needs: a package name, a version a pin can hold, and advisories on one line. */
  predicate Sound(name: string, version: string, adv: string) {
    PackageName(name) && CleanVersion(version) && OneLine(adv)
  }

  /** The line the edit replaces, or the number of lines. */
  function Edited(text: string, name: string): (i: nat)
    ensures i <= |Lines(text)|
  {
    FirstSome(Heads(Lines(text), Normalize(name)))
  }

  function NewLine(text: string, name: string, version: string, adv: string): string
    requires Edited(text, name) < |Lines(text)|
  {
    var head := Heads(Lines(text), Normalize(name))[Edited(text, name)].value;
    PinnedLine(head.name, head.extras, version, adv)
  }

  lemma BareIsOneLine(line: string)
    requires IsLine(line)
    ensures OneLine(Bare(line))
  {
    if line[|line| - 1] != '\n' {
      assert line == line[..|line| - 1] + [line[|line| - 1]];
    }
  }

  lemma OneLineJoins(a: string, b: string, c: string)
    requires OneLine(a) && OneLine(b) && OneLine(c)
    ensures OneLine(a + b + c)
  {
  }

  lemma PartsAreOneLine(name: string, version: string)
    requires PackageName(name) && CleanVersion(version)
    ensures OneLine(name) && OneLine(version)
  {
    assert ENDS_VERSION('\n') && !IsNameChar('\n');
  }

  lemma EndsBare(bare: string)
    requires OneLine(bare)
    ensures IsEnded(bare + "\n") && Bare(bare + "\n") == bare
  {
    assert (bare + "\n")[..|bare|] == bare;
  }

  lemma PinnedLineShape(name: string, extras: string, version: string, adv: string)
    requires PackageName(name) && CleanVersion(version) && OneLine(adv) && OneLine(extras)
    ensures var bare := name + extras + ("==" + version + ("  # security-autofix: " + adv));
            PinnedLine(name, extras, version, adv) == bare + "\n" && OneLine(bare)
  {
    PartsAreOneLine(name, version);
    OneLineJoins("  # security-autofix: ", adv, "");
    var more := "  # security-autofix: " + adv;
    assert more + "" == more;
    OneLineJoins("==", version, more);
    OneLineJoins(name, extras, "==" + version + more);
    PinnedLineJoins(name + extras, "==", version, "  # security-autofix: ", adv, "\n");
  }

  lemma PinnedLineJoins(a: string, b: string, c: string, d: string, e: string, f: string)
    ensures a + b + c + d + e + f == a + (b + c + (d + e)) + f
  {
  }

  lemma PinnedLineReads(name: string, extras: string, version: string, adv: string)
    requires PackageName(name) && Extras(extras) && CleanVersion(version) && OneLine(adv) && OneLine(extras)
    ensures var line := PinnedLine(name, extras, version, adv);
            && IsEnded(line)
            && PinOf(Bare(line)) == Some(Pin(Normalize(name), version))
            && Requirement(Bare(line), Normalize(name)).Some?
            && Requirement(Bare(line), Normalize(name)).value.name == name
            && Requirement(Bare(line), Normalize(name)).value.extras == extras
  {
    PinnedLineShape(name, extras, version, adv);
    EndsBare(name + extras + ("==" + version + ("  # security-autofix: " + adv)));
    PinReadsBack(name, extras, version, "  # security-autofix: " + adv);
  }

  /** The replaced line: its head, and the line in its place. */
  lemma {:induction false} ReplacedLine(text: string, name: string, version: string, adv: string)
    requires Edited(text, name) < |Lines(text)| && Sound(name, version, adv)
    ensures var i, lines, line := Edited(text, name), Lines(text), NewLine(text, name, version, adv);
            && IsEnded(line)
            && PinOf(Bare(line)) == Some(Pin(Normalize(name), version))
            && (PinOf(Bare(lines[i])).Some? ==> PinOf(Bare(lines[i])).value.norm == Normalize(name))
            && Requirement(Bare(line), Normalize(name)).Some?
            && Requirement(Bare(line), Normalize(name)).value.name == Requirement(Bare(lines[i]), Normalize(name)).value.name
            && Requirement(Bare(line), Normalize(name)).value.extras == Requirement(Bare(lines[i]), Normalize(name)).value.extras
  {
    var i, lines := Edited(text, name), Lines(text);
    var head := Requirement(Bare(lines[i]), Normalize(name)).value;
    assert Heads(lines, Normalize(name))[i] == Some(head);
    LinesAreWell(text);
    BareIsOneLine(lines[i]);
    HeadIs(Bare(lines[i]));
    assert OneLine(head.extras);
    RequirementAndPin(Bare(lines[i]), Normalize(name));
    PinnedLineReads(head.name, head.extras, version, adv);
  }

  lemma {:induction false} LinesOfReplaced(text: string, name: string, version: string, adv: string)
    requires Edited(text, name) < |Lines(text)| && Sound(name, version, adv)
    ensures Lines(Edit(text, name, version, adv)) == Lines(text)[Edited(text, name) := NewLine(text, name, version, adv)]
  {
    LinesAreWell(text);
    ReplacedLine(text, name, version, adv);
    LinesOfUpdate(Lines(text), Edited(text, name), NewLine(text, name, version, adv));
  }

  lemma LinesOfUpdate(lines: seq<string>, i: nat, line: string)
    requires WellLined(lines) && i < |lines| && IsEnded(line)
    ensures Lines(Concat(lines[i := line])) == lines[i := line]
  {
    LinesOfConcat(lines[i := line]);
  }

  /** The appended lines pin nothing but the package. */
  lemma AppendedLines(name: string, version: string, adv: string)
    requires Sound(name, version, adv)
    ensures var a := Appended(name, version, adv);
            && AllEnded(a)
            && HeadOf(Bare(a[0])).None? && HeadOf(Bare(a[1])).None?
            && Bare(a[2]) == name + "" + ("==" + version + "")
  {
    PartsAreOneLine(name, version);
    NotesAreOneLine();
    CommentLine(NOTE_START, adv, NOTE_END);
    CommentLine(REMOVAL_START, version, ".");
    OneLineJoins(name, "==", version);
    EndsBare(name + "==" + version);
    PinJoins(name, "==", version);
  }

  lemma PinJoins(a: string, b: string, c: string)
    ensures a + "" + (b + c + "") == a + b + c
  {
  }

  lemma NotesAreOneLine()
    ensures OneLine(NOTE_START) && OneLine(NOTE_END) && OneLine(REMOVAL_START)
    ensures "#" <= NOTE_START && "#" <= REMOVAL_START
  {
    EndNote();
    RemovalNote();
  }

  lemma EndNote()
    ensures OneLine(NOTE_END)
  {
    assert OneLine("): dipendenza transitiva");
    assert OneLine(" fissata alla versione corretta.");
  }

  lemma RemovalNote()
    ensures OneLine(REMOVAL_START) && "#" <= REMOVAL_START
  {
    assert OneLine("# Rimuovere quando il pacchetto");
    assert OneLine(" che la richiede impone gi\U{E0} >= ");
  }

  lemma CommentLine(before: string, mid: string, after: string)
    requires OneLine(before) && OneLine(mid) && OneLine(after) && "#" <= before
    ensures IsEnded(before + mid + after + "\n") && Bare(before + mid + after + "\n") == before + mid + after
    ensures HeadOf(before + mid + after).None?
  {
    OneLineJoins(before, mid, after);
    EndsBare(before + mid + after);
    assert (before + mid + after)[0] == '#';
  }

  lemma {:induction false} LinesOfAppended(text: string, name: string, version: string, adv: string)
    requires Edited(text, name) == |Lines(text)| && Sound(name, version, adv)
    ensures Lines(Edit(text, name, version, adv)) == EndedLines(Lines(text)) + Appended(name, version, adv)
  {
    EndedText(text);
    AppendedLines(name, version, adv);
    LinesOfTwo(EndedLines(Lines(text)), Appended(name, version, adv));
  }

  lemma LinesOfTwo(a: seq<string>, b: seq<string>)
    requires AllEnded(a) && AllEnded(b)
    ensures Lines(Concat(a) + Concat(b)) == a + b
  {
    ConcatAppends(a, b);
    LinesOfConcat(a + b);
  }

  // Reading back ------------------------------------------------------------------------------------

  function PinsAfter(text: string, name: string, version: string, adv: string): map<string, string> {
    Pins(Lines(Edit(text, name, version, adv)))
  }

  lemma PinListUpdate(lines: seq<string>, i: nat, line: string)
    requires i < |lines|
    ensures PinList(lines[i := line]) == PinList(lines)[i := PinOf(Bare(line))]
  {
  }

  lemma PinListJoins(a: seq<string>, b: seq<string>)
    ensures PinList(a + b) == PinList(a) + PinList(b)
  {
  }

  lemma PinListOfThree(a: seq<string>)
    requires |a| == 3
    ensures PinList(a) == [PinOf(Bare(a[0])), PinOf(Bare(a[1])), PinOf(Bare(a[2]))]
  {
  }

  lemma PinListSameBare(a: seq<string>, b: seq<string>)
    requires SameBare(a, b)
    ensures PinList(a) == PinList(b)
  {
  }

  /** The pins line by line after an edit: one in place of the old line, or one at the end. */
  function EditedList(pins: seq<Option<Pin>>, i: nat, pin: Pin): seq<Option<Pin>>
    requires i <= |pins|
  {
    if i < |pins| then pins[i := Some(pin)] else pins + [None, None, Some(pin)]
  }

  lemma {:induction false} ReplacedList(text: string, name: string, version: string, adv: string)
    requires Edited(text, name) < |Lines(text)| && Sound(name, version, adv)
    ensures var i, pins, norm := Edited(text, name), PinList(Lines(text)), Normalize(name);
            && (pins[i].Some? ==> pins[i].value.norm == norm)
            && PinList(Lines(Edit(text, name, version, adv))) == pins[i := Some(Pin(norm, version))]
  {
    LinesOfReplaced(text, name, version, adv);
    ReplacedLine(text, name, version, adv);
    PinListUpdate(Lines(text), Edited(text, name), NewLine(text, name, version, adv));
  }

  lemma {:induction false} AppendedList(text: string, name: string, version: string, adv: string)
    requires Edited(text, name) == |Lines(text)| && Sound(name, version, adv)
    ensures PinList(Lines(Edit(text, name, version, adv)))
            == PinList(Lines(text)) + [None, None, Some(Pin(Normalize(name), version))]
  {
    var ended, a := EndedLines(Lines(text)), Appended(name, version, adv);
    EndedText(text);
    LinesOfAppended(text, name, version, adv);
    PinListJoins(ended, a);
    PinListSameBare(ended, Lines(text));
    PinListOfThree(a);
    AppendedLines(name, version, adv);
    PinReadsBack(name, "", version, "");
  }

  /** The version that a pin below position `i` gives the package. */
  function PinBelow(pins: seq<Option<Pin>>, i: nat, norm: string): Option<string> {
    if i < |pins| && norm in PinMap(pins[i + 1..]) then Some(PinMap(pins[i + 1..])[norm]) else None
  }

  /** The version that a line below the replaced one pins the package to. */
  function LaterPin(text: string, name: string): Option<string> {
    PinBelow(PinList(Lines(text)), Edited(text, name), Normalize(name))
  }

  /** What `EditReadsBackIff` says, about the pins line by line. */
  lemma {:induction false} EditedListReadsBackIff(pins: seq<Option<Pin>>, i: nat, pin: Pin)
    requires i <= |pins|
    requires i < |pins| && pins[i].Some? ==> pins[i].value.norm == pin.norm
    ensures var now := PinMap(EditedList(pins, i, pin));
            && SameElsewhere(now, PinMap(pins), pin.norm)
            && pin.norm in now
            && (now[pin.norm] == pin.version <==> PinBelow(pins, i, pin.norm) in {None, Some(pin.version)})
  {
    if i < |pins| {
      PinReplaced(pins, i, pin);
    } else {
      PinAppended(pins, pin);
    }
  }

  lemma {:induction false} EditsList(text: string, name: string, version: string, adv: string)
    requires Sound(name, version, adv)
    ensures var i, pins, norm := Edited(text, name), PinList(Lines(text)), Normalize(name);
            && (i < |pins| && pins[i].Some? ==> pins[i].value.norm == norm)
            && PinList(Lines(Edit(text, name, version, adv))) == EditedList(pins, i, Pin(norm, version))
  {
    if Edited(text, name) < |Lines(text)| {
      ReplacedList(text, name, version, adv);
    } else {
      AppendedList(text, name, version, adv);
    }
  }

  /** MAIN RESULT. After an edit a lock reader finds every other pin as before, and the package pinned to the new
  version if and only if no line below the edited one pins it to another. */
  lemma {:induction false} EditReadsBackIff(text: string, name: string, version: string, adv: string)
    requires Sound(name, version, adv)
    ensures SameElsewhere(PinsAfter(text, name, version, adv), Pins(Lines(text)), Normalize(name))
    ensures Normalize(name) in PinsAfter(text, name, version, adv)
    ensures PinsAfter(text, name, version, adv)[Normalize(name)] == version
            <==> LaterPin(text, name) in {None, Some(version)}
  {
    EditsList(text, name, version, adv);
    EditedListReadsBackIff(PinList(Lines(text)), Edited(text, name), Pin(Normalize(name), version));
  }

  ghost predicate NamedAtMostOnce(text: string, norm: string) {
    var heads := Heads(Lines(text), norm);
    forall j, k :: 0 <= j < k < |heads| ==> heads[j].None? || heads[k].None?
  }

  /** A line that no head is found in pins another package, or nothing. */
  lemma NoHeadNoPin(lines: seq<string>, norm: string, j: nat)
    requires j < |lines| && Heads(lines, norm)[j].None?
    ensures PinList(lines)[j].Some? ==> PinList(lines)[j].value.norm != norm
  {
    RequirementAndPin(Bare(lines[j]), norm);
  }

  lemma {:induction false} NotPinnedBelow(heads: seq<Option<Head>>, pins: seq<Option<Pin>>, norm: string, i: nat)
    requires |heads| == |pins| && i < |heads| && heads[i].Some?
    requires forall j, k :: 0 <= j < k < |heads| ==> heads[j].None? || heads[k].None?
    requires forall j :: 0 <= j < |heads| && heads[j].None? && pins[j].Some? ==> pins[j].value.norm != norm
    ensures norm !in PinMap(pins[i + 1..])
  {
    var later := pins[i + 1..];
    forall j | 0 <= j < |later| && later[j].Some? ensures later[j].value.norm != norm {
      assert heads[i + 1 + j].None? && later[j] == pins[i + 1 + j];
    }
    NotPinned(later, norm);
  }

  lemma {:induction false} NoLaterPin(text: string, name: string)
    requires NamedAtMostOnce(text, Normalize(name))
    ensures LaterPin(text, name) == None
  {
    var lines, norm := Lines(text), Normalize(name);
    var heads, pins := Heads(lines, norm), PinList(lines);
    if Edited(text, name) < |lines| {
      forall j | 0 <= j < |heads| && heads[j].None? && pins[j].Some? ensures pins[j].value.norm != norm {
        NoHeadNoPin(lines, norm, j);
      }
      NotPinnedBelow(heads, pins, norm, Edited(text, name));
    }
  }

  /** MAIN RESULT. If at most one line requires the package, an edit pins it to the new version and changes no other
  pin. */
  lemma {:induction false} EditPins(text: string, name: string, version: string, adv: string)
    requires Sound(name, version, adv) && NamedAtMostOnce(text, Normalize(name))
    ensures PinsAfter(text, name, version, adv) == Pins(Lines(text))[Normalize(name) := version]
  {
    EditReadsBackIff(text, name, version, adv);
    NoLaterPin(text, name);
  }

  // Editing again -----------------------------------------------------------------------------------

  lemma FirstSomeIs<T>(xs: seq<Option<T>>, i: nat)
    requires i < |xs| && xs[i].Some? && forall j :: 0 <= j < i ==> xs[j].None?
    ensures FirstSome(xs) == i
  {
  }

  lemma HeadsUpdate(lines: seq<string>, norm: string, i: nat, line: string)
    requires i < |lines|
    ensures Heads(lines[i := line], norm) == Heads(lines, norm)[i := Requirement(Bare(line), norm)]
  {
  }

  lemma HeadsAppended(lines: seq<string>, ended: seq<string>, a: seq<string>, norm: string)
    requires SameBare(ended, lines) && |a| == 3
    ensures Heads(ended + a, norm)
            == Heads(lines, norm) + [Requirement(Bare(a[0]), norm), Requirement(Bare(a[1]), norm), Requirement(Bare(a[2]), norm)]
  {
    var h, now := Heads(ended + a, norm), ended + a;
    forall j | 0 <= j < |lines| ensures h[j] == Heads(lines, norm)[j] {
      assert now[j] == ended[j];
    }
  }

  lemma EditReplaces(text: string, name: string, version: string, adv: string)
    requires Edited(text, name) < |Lines(text)|
    ensures Edit(text, name, version, adv) == Concat(Lines(text)[Edited(text, name) := NewLine(text, name, version, adv)])
  {
  }

  /** The next edit finds the line that was put in, and would put in the same. */
  lemma {:induction false} ReplacedIsFound(text: string, name: string, version: string, adv: string)
    requires Edited(text, name) < |Lines(text)| && Sound(name, version, adv)
    ensures var i, once := Edited(text, name), Edit(text, name, version, adv);
            && Edited(once, name) == i < |Lines(once)|
            && NewLine(once, name, version, adv) == NewLine(text, name, version, adv) == Lines(once)[i]
  {
    var i, lines, norm := Edited(text, name), Lines(text), Normalize(name);
    var line, once := NewLine(text, name, version, adv), Edit(text, name, version, adv);
    LinesOfReplaced(text, name, version, adv);
    ReplacedLine(text, name, version, adv);
    HeadsUpdate(lines, norm, i, line);
    FirstSomeIs(Heads(Lines(once), norm), i);
    assert Heads(lines, norm)[i] == Requirement(Bare(lines[i]), norm);
  }

  /** A replaced line is replaced by itself. */
  lemma {:induction false} ReplacedAgain(text: string, name: string, version: string, adv: string)
    requires Edited(text, name) < |Lines(text)| && Sound(name, version, adv)
    ensures Edit(Edit(text, name, version, adv), name, version, adv) == Edit(text, name, version, adv)
  {
    var once := Edit(text, name, version, adv);
    ReplacedIsFound(text, name, version, adv);
    EditReplaces(once, name, version, adv);
    SameLineAgain(Lines(once), Edited(once, name));
    LinesAreWell(once);
  }

  lemma SameLineAgain(lines: seq<string>, i: nat)
    requires i < |lines|
    ensures lines[i := lines[i]] == lines
  {
  }

  /** An appended pin is found by the next edit. */
  lemma {:induction false} AppendedIsFound(text: string, name: string, version: string, adv: string)
    requires Edited(text, name) == |Lines(text)| && Sound(name, version, adv)
    ensures Edited(Edit(text, name, version, adv), name) == |Lines(text)| + 2
    ensures |Lines(Edit(text, name, version, adv))| == |Lines(text)| + 3
  {
    var lines, norm, a := Lines(text), Normalize(name), Appended(name, version, adv);
    EndedText(text);
    LinesOfAppended(text, name, version, adv);
    HeadsAppended(lines, EndedLines(lines), a, norm);
    AppendedHeads(name, version, adv);
    FirstAppended(Heads(lines, norm), Requirement(Bare(a[2]), norm));
  }

  lemma AppendedHeads(name: string, version: string, adv: string)
    requires Sound(name, version, adv)
    ensures var a, norm := Appended(name, version, adv), Normalize(name);
            Requirement(Bare(a[0]), norm).None? && Requirement(Bare(a[1]), norm).None? && Requirement(Bare(a[2]), norm).Some?
  {
    AppendedLines(name, version, adv);
    PinReadsBack(name, "", version, "");
  }

  lemma FirstAppended<T>(xs: seq<Option<T>>, x: Option<T>)
    requires FirstSome(xs) == |xs| && x.Some?
    ensures FirstSome(xs + [None, None, x]) == |xs| + 2
  {
    FirstSomeIs(xs + [None, None, x], |xs| + 2);
  }

  /** MAIN RESULT. Applying an edit again keeps all pins. */
  lemma {:induction false} EditAgainKeepsPins(text: string, name: string, version: string, adv: string)
    requires Sound(name, version, adv)
    ensures PinsAfter(Edit(text, name, version, adv), name, version, adv) == PinsAfter(text, name, version, adv)
  {
    var once := Edit(text, name, version, adv);
    if Edited(text, name) < |Lines(text)| {
      ReplacedAgain(text, name, version, adv);
    } else {
      AppendedIsFound(text, name, version, adv);
      AppendedList(text, name, version, adv);
      ReplacedList(once, name, version, adv);
      SamePinAgain(PinList(Lines(once)), |Lines(text)| + 2, Pin(Normalize(name), version));
    }
  }

  lemma SamePinAgain(pins: seq<Option<Pin>>, i: nat, pin: Pin)
    requires i < |pins| && pins[i] == Some(pin)
    ensures pins[i := Some(pin)] == pins
  {
  }

  // A later pin -------------------------------------------------------------------------------------

  /** Two lines that pin the package: an edit replaces the first, and the reader still finds the second. */
  lemma {:induction false} SecondPinWins(name: string, a: string, b: string, u: string, v: string, version: string, adv: string)
    requires Sound(name, version, adv) && IsEnded(a) && IsEnded(b)
    requires PinOf(Bare(a)) == Some(Pin(Normalize(name), u)) && PinOf(Bare(b)) == Some(Pin(Normalize(name), v))
    ensures PinsAfter(a + b, name, version, adv) == map[Normalize(name) := v]
  {
    FirstPinChanges(name, a, b, u, v, version, adv);
    LastOfTwo(Pin(Normalize(name), version), Pin(Normalize(name), v));
  }

  lemma {:induction false} FirstPinChanges(name: string, a: string, b: string, u: string, v: string, version: string, adv: string)
    requires Sound(name, version, adv) && IsEnded(a) && IsEnded(b)
    requires PinOf(Bare(a)) == Some(Pin(Normalize(name), u)) && PinOf(Bare(b)) == Some(Pin(Normalize(name), v))
    ensures PinList(Lines(Edit(a + b, name, version, adv)))
            == [Some(Pin(Normalize(name), version)), Some(Pin(Normalize(name), v))]
  {
    TwoLines(a, b);
    TwoPins(a, b);
    FirstOfTwo(a, b, Normalize(name));
    ReplacedList(a + b, name, version, adv);
    FirstChanges(Some(Pin(Normalize(name), u)), Some(Pin(Normalize(name), v)), Some(Pin(Normalize(name), version)));
  }

  lemma FirstChanges<T>(x: T, y: T, z: T)
    ensures [x, y][0 := z] == [z, y]
  {
  }

  lemma FirstOfTwo(a: string, b: string, norm: string)
    requires PinOf(Bare(a)).Some? && PinOf(Bare(a)).value.norm == norm
    ensures FirstSome(Heads([a, b], norm)) == 0
  {
    RequirementAndPin(Bare(a), norm);
    assert Heads([a, b], norm)[0] == Requirement(Bare(a), norm);
    FirstSomeIs(Heads([a, b], norm), 0);
  }

  lemma TwoPins(a: string, b: string)
    ensures PinList([a, b]) == [PinOf(Bare(a)), PinOf(Bare(b))]
  {
  }

  lemma LastOfTwo(p: Pin, q: Pin)
    requires p.norm == q.norm
    ensures PinMap([Some(p), Some(q)]) == map[q.norm := q.version]
  {
    assert [Some(p)] + [Some(q)] == [Some(p), Some(q)];
    PinMapConcat([Some(p)], [Some(q)]);
    PinMapOfOne(Some(p));
    PinMapOfOne(Some(q));
  }

  lemma {:induction false} TwoLines(a: string, b: string)
    requires IsEnded(a) && IsEnded(b)
    ensures Lines(a + b) == [a, b]
  {
    LinesOfEnded(a, b);
    LinesOfLast(b);
  }

  /** Pinned on two lines, a package keeps the second pin whatever an edit asks for. */
  lemma {:induction false} LaterPinWins(name: string, u: string, v: string, version: string, adv: string)
    requires Sound(name, version, adv) && CleanVersion(u) && CleanVersion(v)
    ensures PinsAfter(name + "==" + u + "\n" + (name + "==" + v + "\n"), name, version, adv) == map[Normalize(name) := v]
  {
    PlainPin(name, u);
    PlainPin(name, v);
    SecondPinWins(name, name + "==" + u + "\n", name + "==" + v + "\n", u, v, version, adv);
  }

  lemma PlainPin(name: string, version: string)
    requires PackageName(name) && CleanVersion(version)
    ensures IsEnded(name + "==" + version + "\n")
    ensures PinOf(Bare(name + "==" + version + "\n")) == Some(Pin(Normalize(name), version))
  {
    PartsAreOneLine(name, version);
    OneLineJoins(name, "==", version);
    EndsBare(name + "==" + version);
    PinJoins(name, "==", version);
    PinReadsBack(name, "", version, "");
  }
}
