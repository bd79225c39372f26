/** Requirements files: reading the pins of a lock and pinning a package in an input file.

A line ends at a newline. The advisories arrive joined with ", ". */
module Requirements {
  import opened PythonText
  import opened Wrappers

  // Names -------------------------------------------------------------------------------------------

  predicate IsSeparator(c: char) {
    c == '-' || c == '_' || c == '.'
  }

  predicate IsAlnum(c: char) {
    'A' <= c <= 'Z' || 'a' <= c <= 'z' || IsDigit(c)
  }

  predicate IsNameChar(c: char) {
    IsAlnum(c) || IsSeparator(c)
  }

  /** Runs of separators become one dash. */
  function Collapse(s: string): string {
    if s == "" then ""
    else if !IsSeparator(s[0]) then [s[0]] + Collapse(s[1..])
    else if |s| > 1 && IsSeparator(s[1]) then Collapse(s[1..])
    else "-" + Collapse(s[1..])
  }

  function Normalize(name: string): string {
    Lower(Collapse(name))
  }

  // Lines -------------------------------------------------------------------------------------------

  /** The lines of a text, with their newlines. */
  function Lines(text: string): seq<string> {
    if text == "" then []
    else
      var i := IndexOf(text, '\n');
      if i == |text| then [text] else [text[..i + 1]] + Lines(text[i + 1..])
  }

  function Concat(lines: seq<string>): string {
    if lines == [] then "" else lines[0] + Concat(lines[1..])
  }

  /** A line without its newline. */
  function Bare(line: string): string {
    if line != "" && line[|line| - 1] == '\n' then line[..|line| - 1] else line
  }

  function Run(s: string, stop: char -> bool): (r: string)
    ensures r <= s && forall c :: c in r ==> !stop(c)
    ensures |r| < |s| ==> stop(s[|r|])
  {
    if s == "" || stop(s[0]) then "" else [s[0]] + Run(s[1..], stop)
  }

  /** The start of a requirement: a name, extras in brackets, and the rest. */
  datatype Head = Head(name: string, extras: string, rest: string)

  const ENDS_NAME: char -> bool := c => !IsNameChar(c)

  /** The expressions for both files start like this; None where neither can match. */
  function HeadOf(line: string): Option<Head> {
    var name := Run(line, ENDS_NAME);
    var rest := line[|name|..];
    if name == "" || !IsAlnum(name[0]) then None
    else if rest == "" || rest[0] != '[' then Some(Head(name, "", rest))
    else
      var i := IndexOf(rest, ']');
      if i == |rest| then None else Some(Head(name, rest[..i + 1], rest[i + 1..]))
  }

  const ENDS_VERSION: char -> bool := c => IsSpace(c) || c == ';' || c == '\\'

  /** A pin: the normalized name, and the version behind "==". */
  datatype Pin = Pin(norm: string, version: string)

  function PinOf(line: string): Option<Pin> {
    match HeadOf(line)
    case Some(head) =>
      if "==" <= head.rest && Run(head.rest[2..], ENDS_VERSION) != "" then
        Some(Pin(Normalize(head.name), Run(head.rest[2..], ENDS_VERSION)))
      else None
    case None => None
  }

  /** The start of a specifier or of a comment. */
  predicate Follows(c: char) {
    c == '<' || c == '>' || c == '=' || c == '!' || c == '~' || c == '#'
  }

  /** The head of a line that requires the package: behind it nothing, a specifier or a comment. */
  function Requirement(line: string, norm: string): Option<Head> {
    match HeadOf(line)
    case Some(head) =>
      var rest := StripLeft(head.rest);
      if Normalize(head.name) == norm && (rest == "" || Follows(rest[0])) then Some(head) else None
    case None => None
  }

  // Pins of a lock ----------------------------------------------------------------------------------

  /** Later pins override earlier ones. */
  function PinMap(pins: seq<Option<Pin>>): map<string, string> {
    if pins == [] then map[]
    else
      var earlier := PinMap(pins[..|pins| - 1]);
      match pins[|pins| - 1]
      case Some(pin) => earlier[pin.norm := pin.version]
      case None => earlier
  }

  function PinList(lines: seq<string>): seq<Option<Pin>> {
    seq(|lines|, i requires 0 <= i < |lines| => PinOf(Bare(lines[i])))
  }

  function Pins(lines: seq<string>): map<string, string> {
    PinMap(PinList(lines))
  }

  method ParseLock(text: string) returns (pins: map<string, string>)
    ensures pins == Pins(Lines(text))
  {
    var lines, n := Lines(text), 0;
    ghost var list := PinList(lines);
    pins := map[];
    while n < |lines|
      invariant 0 <= n <= |lines|
      invariant pins == PinMap(list[..n])
    {
      var pin := PinOf(Bare(lines[n]));
      if pin.Some? {
        pins := pins[pin.value.norm := pin.value.version];
      }
      assert pin == list[n] && list[..n + 1][..n] == list[..n];
      n := n + 1;
    }
    assert list[..n] == list;
  }

  // Editing -----------------------------------------------------------------------------------------

  function PinnedLine(name: string, extras: string, version: string, adv: string): string {
    name + extras + "==" + version + "  # security-autofix: " + adv + "\n"
  }

  const NOTE_START := "# security-autofix ("
  const NOTE_END := "): dipendenza transitiva fissata alla versione corretta."
  // In two parts, because a fact about every character of one literal of this length is too expensive to verify.
  const REMOVAL_START := "# Rimuovere quando il pacchetto" + " che la richiede impone gi\U{E0} >= "

  function Appended(name: string, version: string, adv: string): seq<string> {
    [NOTE_START + adv + NOTE_END + "\n",
     REMOVAL_START + version + "." + "\n",
     name + "==" + version + "\n"]
  }

  function Heads(lines: seq<string>, norm: string): seq<Option<Head>> {
    seq(|lines|, i requires 0 <= i < |lines| => Requirement(Bare(lines[i]), norm))
  }

  /** Position of the first value, or the length. */
  function FirstSome<T>(xs: seq<Option<T>>): (i: nat)
    ensures i <= |xs| && (i < |xs| ==> xs[i].Some?)
    ensures forall j :: 0 <= j < i ==> xs[j].None?
  {
    if xs == [] || xs[0].Some? then 0 else 1 + FirstSome(xs[1..])
  }

  /** The text with its last line ended. */
  function Ended(text: string): string {
    if text != "" && text[|text| - 1] != '\n' then text + "\n" else text
  }

  function Edit(text: string, name: string, version: string, adv: string): string {
    var lines := Lines(text);
    var heads := Heads(lines, Normalize(name));
    var i := FirstSome(heads);
    if i < |lines| then Concat(lines[i := PinnedLine(heads[i].value.name, heads[i].value.extras, version, adv)])
    else AppendPin(text, name, version, adv)
  }

  function AppendPin(text: string, name: string, version: string, adv: string): string {
    Ended(text) + Concat(Appended(name, version, adv))
  }

  method EditInfile(text: string, name: string, version: string, adv: string) returns (edited: string)
    ensures edited == Edit(text, name, version, adv)
  {
    hide Concat, PinnedLine, Requirement, Lines, Normalize;
    var norm := Normalize(name);
    var lines, i := Lines(text), 0;
    ghost var heads := Heads(lines, norm);
    while i < |lines|
      invariant 0 <= i <= |lines|
      invariant forall j :: 0 <= j < i ==> heads[j].None?
    {
      var head := Requirement(Bare(lines[i]), norm);
      assert head == heads[i];
      if head.Some? {
        assert FirstSome(heads) == i;
        return Concat(lines[i := PinnedLine(head.value.name, head.value.extras, version, adv)]);
      }
      i := i + 1;
    }
    assert FirstSome(heads) == i;
    edited := AppendPin(text, name, version, adv);
  }
}
