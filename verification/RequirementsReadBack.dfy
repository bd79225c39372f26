/** What a lock reader finds after an edit: the new pin, and every other pin as before. */
module RequirementsReadBack {
  import opened PythonText
  import opened Requirements
  import opened Wrappers

  // What is edited in -------------------------------------------------------------------------------

  predicate PackageName(name: string) {
    name != "" && IsAlnum(name[0]) && forall c :: c in name ==> IsNameChar(c)
  }

  /** A version that a pin can hold: no blank, no semicolon, no backslash. */
  predicate CleanVersion(version: string) {
    version != "" && forall c :: c in version ==> !ENDS_VERSION(c)
  }

  predicate OneLine(s: string) {
    '\n' !in s
  }

  predicate Extras(s: string) {
    s == "" || (|s| > 1 && s[0] == '[' && s[|s| - 1] == ']' && ']' !in s[..|s| - 1])
  }

  // Lines -------------------------------------------------------------------------------------------

  predicate IsLine(line: string) {
    line != "" && OneLine(line[..|line| - 1])
  }

  predicate IsEnded(line: string) {
    IsLine(line) && line[|line| - 1] == '\n'
  }

  /** Lines as a text has them: the last one need not end. */
  predicate WellLined(lines: seq<string>) {
    forall i :: 0 <= i < |lines| ==> IsLine(lines[i]) && (i < |lines| - 1 ==> IsEnded(lines[i]))
  }

  lemma {:induction false} LinesAreWell(text: string)
    ensures WellLined(Lines(text)) && Concat(Lines(text)) == text
  {
    if text != "" {
      var i := IndexOf(text, '\n');
      if i < |text| {
        LinesAreWell(text[i + 1..]);
        assert text[..i + 1][..i] == text[..i];
        WellLinedMore(text[..i + 1], Lines(text[i + 1..]));
        assert text == text[..i + 1] + text[i + 1..];
      } else {
        assert text[..i] == text;
        assert text == text[..i - 1] + [text[i - 1]];
        assert OneLine(text[..i - 1]);
        assert Concat([text]) == text + "" == text;
      }
    }
  }

  lemma WellLinedMore(line: string, lines: seq<string>)
    requires IsEnded(line) && WellLined(lines)
    ensures WellLined([line] + lines) && Concat([line] + lines) == line + Concat(lines)
  {
    assert ([line] + lines)[1..] == lines;
  }

  lemma EndedLineIndex(line: string, rest: string)
    requires IsEnded(line)
    ensures IndexOf(line + rest, '\n') == |line| - 1
  {
    assert (line + rest)[..|line| - 1] == line[..|line| - 1];
    IndexIs(line + rest, '\n', |line| - 1);
  }

  lemma {:induction false} LinesOfEnded(line: string, rest: string)
    requires IsEnded(line)
    ensures Lines(line + rest) == [line] + Lines(rest)
  {
    EndedLineIndex(line, rest);
    assert (line + rest)[..|line|] == line && (line + rest)[|line|..] == rest;
  }

  lemma {:induction false} LinesOfLast(line: string)
    requires IsLine(line)
    ensures Lines(line) == [line]
  {
    if IsEnded(line) {
      LinesOfEnded(line, "");
      assert line + "" == line;
    } else {
      assert line == line[..|line| - 1] + [line[|line| - 1]];
      assert OneLine(line);
    }
  }

  lemma {:induction false} LinesOfConcat(lines: seq<string>)
    requires WellLined(lines)
    ensures Lines(Concat(lines)) == lines
  {
    if |lines| == 1 {
      assert lines == [lines[0]] && lines[1..] == [];
      assert Concat(lines) == lines[0] + "" == lines[0];
      LinesOfLast(lines[0]);
    } else if lines != [] {
      LinesOfConcat(lines[1..]);
      LinesOfEnded(lines[0], Concat(lines[1..]));
      assert lines == [lines[0]] + lines[1..];
    }
  }

  lemma {:induction false} ConcatAppends(a: seq<string>, b: seq<string>)
    ensures Concat(a + b) == Concat(a) + Concat(b)
  {
    if a == [] {
      assert a + b == b && "" + Concat(b) == Concat(b);
    } else {
      assert (a + b)[1..] == a[1..] + b;
      ConcatAppends(a[1..], b);
    }
  }

  /** The same lines, the last one ended. */
  function EndedLines(lines: seq<string>): (r: seq<string>)
    ensures |r| == |lines|
  {
    var n := |lines| - 1;
    if lines == [] || lines[n] == "" || lines[n][|lines[n]| - 1] == '\n' then lines else lines[n := lines[n] + "\n"]
  }

  lemma {:induction false} EndedText(text: string)
    ensures Ended(text) == Concat(EndedLines(Lines(text)))
    ensures AllEnded(EndedLines(Lines(text))) && SameBare(EndedLines(Lines(text)), Lines(text))
  {
    LinesAreWell(text);
    if text != "" {
      EndedLinesAre(Lines(text));
    }
  }

  ghost predicate AllEnded(lines: seq<string>) {
    forall i :: 0 <= i < |lines| ==> IsEnded(lines[i])
  }

  ghost predicate SameBare(a: seq<string>, b: seq<string>) {
    |a| == |b| && forall i :: 0 <= i < |a| ==> Bare(a[i]) == Bare(b[i])
  }

  lemma {:induction false} EndedLinesAre(lines: seq<string>)
    requires WellLined(lines) && lines != []
    ensures Concat(EndedLines(lines)) == Ended(Concat(lines))
    ensures AllEnded(EndedLines(lines)) && SameBare(EndedLines(lines), lines)
  {
    var n := |lines| - 1;
    var before, last := lines[..n], lines[n];
    assert lines == before + [last];
    ConcatLast(before, last);
    assert (Concat(before) + last)[|Concat(before) + last| - 1] == last[|last| - 1];
    if !IsEnded(last) {
      LastEnds(last);
      assert EndedLines(lines) == before + [last + "\n"];
      ConcatLast(before, last + "\n");
      JoinAssociates(Concat(before), last, "\n");
    }
  }

  lemma JoinAssociates(a: string, b: string, c: string)
    ensures (a + b) + c == a + (b + c)
  {
  }

  lemma ConcatLast(lines: seq<string>, last: string)
    ensures Concat(lines + [last]) == Concat(lines) + last
  {
    ConcatAppends(lines, [last]);
    assert Concat([last]) == last + "" == last;
  }

  lemma LastEnds(line: string)
    requires IsLine(line) && !IsEnded(line)
    ensures IsEnded(line + "\n") && Bare(line + "\n") == line == Bare(line)
  {
    assert line == line[..|line| - 1] + [line[|line| - 1]];
    assert (line + "\n")[..|line|] == line;
  }

  // Reading a line that was written -----------------------------------------------------------------

  lemma {:induction false} RunStops(s: string, rest: string, stop: char -> bool)
    requires forall c :: c in s ==> !stop(c)
    requires rest == "" || stop(rest[0])
    ensures Run(s + rest, stop) == s
  {
    if s == "" {
      assert s + rest == rest;
    } else {
      assert (s + rest)[0] == s[0] && (s + rest)[1..] == s[1..] + rest;
      RunStops(s[1..], rest, stop);
      assert s == [s[0]] + s[1..];
    }
  }

  lemma ExtrasEnd(extras: string, tail: string)
    requires Extras(extras) && extras != ""
    ensures IndexOf(extras + tail, ']') == |extras| - 1
  {
    assert (extras + tail)[..|extras| - 1] == extras[..|extras| - 1];
    IndexIs(extras + tail, ']', |extras| - 1);
  }

  lemma HeadReadsBack(name: string, extras: string, tail: string)
    requires PackageName(name) && Extras(extras) && tail != "" && tail[0] == '='
    ensures HeadOf(name + extras + tail) == Some(Head(name, extras, tail))
  {
    var line, rest := name + extras + tail, extras + tail;
    assert line == name + rest;
    RunStops(name, rest, ENDS_NAME);
    assert line[|name|..] == rest;
    if extras == "" {
      assert rest == tail;
    } else {
      ExtrasEnd(extras, tail);
      assert rest[..|extras|] == extras && rest[|extras|..] == tail;
    }
  }

  /** A head is a name, extras and what is left of the line. */
  lemma HeadIs(line: string)
    requires HeadOf(line).Some?
    ensures var h := HeadOf(line).value;
            PackageName(h.name) && Extras(h.extras) && line == h.name + h.extras + h.rest
  {
    var name := Run(line, ENDS_NAME);
    var rest := line[|name|..];
    assert line == name + rest;
    if rest != "" && rest[0] == '[' {
      var i := IndexOf(rest, ']');
      assert rest[..i + 1][..i] == rest[..i];
      assert rest == rest[..i + 1] + rest[i + 1..];
    }
  }

  /** A line with a pin reads back as that pin, and as a requirement of the package. */
  lemma PinReadsBack(name: string, extras: string, version: string, more: string)
    requires PackageName(name) && Extras(extras) && CleanVersion(version)
    requires more == "" || ENDS_VERSION(more[0])
    ensures PinOf(name + extras + ("==" + version + more)) == Some(Pin(Normalize(name), version))
    ensures Requirement(name + extras + ("==" + version + more), Normalize(name))
            == Some(Head(name, extras, "==" + version + more))
  {
    HeadReadsBack(name, extras, "==" + version + more);
    TailReadsBack(version, more);
  }

  lemma TailReadsBack(version: string, more: string)
    requires CleanVersion(version) && (more == "" || ENDS_VERSION(more[0]))
    ensures var tail := "==" + version + more;
            "==" <= tail && Run(tail[2..], ENDS_VERSION) == version && StripLeft(tail) == tail
  {
    var tail := "==" + version + more;
    assert tail[2..] == version + more;
    RunStops(version, more, ENDS_VERSION);
  }

  /** A line that requires the package pins it or nothing; a line that pins it requires it. */
  lemma RequirementAndPin(line: string, norm: string)
    ensures Requirement(line, norm).Some? && PinOf(line).Some? ==> PinOf(line).value.norm == norm
    ensures PinOf(line).Some? && PinOf(line).value.norm == norm ==> Requirement(line, norm).Some?
  {
    if PinOf(line).Some? {
      var rest := HeadOf(line).value.rest;
      assert rest[0] == '=';
      assert StripLeft(rest) == rest;
    }
  }
}
