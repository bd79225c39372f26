/** Language choice: the Accept-Language header read by weight and position, behind the cookie, the saved state and
`ui_locales`. Sections 12.4.2 and 12.5.4 of RFC 9110.

`Float` is the reading of a weight: None where it raises ValueError or gives NaN, an infinite weight being any real
above the finite ones. */
module AcceptLanguage {
  import opened PythonText
  import opened Wrappers

  type Float = string -> Option<real>

  const SUPPORTED := ["it", "en", "fr", "de", "es"]
  const DEFAULT := "it"

  // Text --------------------------------------------------------------------------------------------

  function Split(s: string, c: char): (parts: seq<string>)
    ensures |parts| > 0
    decreases |s|
  {
    var i := IndexOf(s, c);
    if i == |s| then [s] else [s[..i]] + Split(s[i + 1..], c)
  }

  function Join(parts: seq<string>, c: char): string {
    if parts == [] then ""
    else if |parts| == 1 then parts[0]
    else parts[0] + [c] + Join(parts[1..], c)
  }

  /** The primary subtag, lower case. */
  function Primary(tag: string): string {
    var stripped := Strip(tag);
    var dashed := seq(|stripped|, i requires 0 <= i < |stripped| => if stripped[i] == '_' then '-' else stripped[i]);
    Lower(dashed[..IndexOf(dashed, '-')])
  }

  function Normalize(tag: string): Option<string> {
    if Primary(tag) in SUPPORTED then Some(Primary(tag)) else None
  }

  // Weights -----------------------------------------------------------------------------------------

  datatype Item = Item(weight: real, pos: nat, lang: string)

  function Weight(float: Float, params: string): real {
    if "q=" <= params then
      match float(params[2..])
      case Some(q) => q
      case None => 0.0
    else 1.0
  }

  /** One element of the header, if it has a supported language and a positive weight. */
  function Read(float: Float, part: string, pos: nat): (item: Option<Item>)
    ensures item.Some? ==> item.value.pos == pos && item.value.weight > 0.0 && item.value.lang in SUPPORTED
  {
    var text := Strip(part);
    var i := IndexOf(text, ';');
    var weight := Weight(float, if i < |text| then Strip(text[i + 1..]) else "");
    match Normalize(text[..i])
    case Some(lang) => if weight > 0.0 then Some(Item(weight, pos, lang)) else None
    case None => None
  }

  /** The elements of a header, in order; None for those that offer nothing. */
  function Elements(float: Float, parts: seq<string>): seq<Option<Item>> {
    seq(|parts|, i requires 0 <= i < |parts| => Read(float, parts[i], i))
  }

  /** The order of the sorted list: heavier first, then earlier. */
  predicate Before(a: Item, b: Item) {
    a.weight > b.weight || (a.weight == b.weight && a.pos < b.pos)
  }

  function Insert(s: seq<Item>, x: Item): seq<Item> {
    if s != [] && Before(x, s[|s| - 1]) then Insert(s[..|s| - 1], x) + [s[|s| - 1]] else s + [x]
  }

  function Sorted(s: seq<Item>): seq<Item> {
    if s == [] then [] else Insert(Sorted(s[..|s| - 1]), s[|s| - 1])
  }

  /** Each language once, in order of first appearance. */
  function Once(s: seq<Item>): seq<string> {
    if s == [] then []
    else
      var rest := Once(s[..|s| - 1]);
      if s[|s| - 1].lang in rest then rest else rest + [s[|s| - 1].lang]
  }

  function Preferred(float: Float, header: string): seq<string> {
    Once(Sorted(Somes(Elements(float, Split(header, ',')))))
  }

  method ParseAcceptLanguage(float: Float, header: Option<string>) returns (result: seq<string>)
    ensures result == if header.Some? then Preferred(float, header.value) else []
  {
    result := [];
    if header.None? {
      return;
    }
    if header.value == "" {
      EmptyHeader(float);
      return;
    }
    hide Read, Split, Sorted, Once, Somes;
    var parts, weighted, n := Split(header.value, ','), [], 0;
    ghost var items := Elements(float, parts);
    while n < |parts|
      invariant 0 <= n <= |parts|
      invariant weighted == Somes(items[..n])
    {
      var item := Read(float, parts[n], n);
      assert item == items[n];
      if item.Some? {
        weighted := weighted + [item.value];
      }
      SomesGrow(items, n);
      n := n + 1;
    }
    assert items[..n] == items;
    result := InOrder(Sorted(weighted));
  }

  /** The second loop: each language once. */
  method InOrder(ordered: seq<Item>) returns (result: seq<string>)
    ensures result == Once(ordered)
  {
    result := [];
    var n := 0;
    while n < |ordered|
      invariant 0 <= n <= |ordered|
      invariant result == Once(ordered[..n])
    {
      if ordered[n].lang !in result {
        result := result + [ordered[n].lang];
      }
      assert ordered[..n + 1][..n] == ordered[..n];
      n := n + 1;
    }
    assert ordered[..n] == ordered;
  }

  lemma EmptyHeader(float: Float)
    ensures Preferred(float, "") == []
  {
    assert Split("", ',') == [""];
    assert Primary("") == "";
    assert Elements(float, [""]) == [None];
    assert Somes<Item>([None]) == [];
  }

  // The header's elements ---------------------------------------------------------------------------

  /** The elements of a header are its pieces between commas. */
  lemma {:induction false} SplitJoins(s: string, c: char)
    ensures Join(Split(s, c), c) == s
    ensures forall p :: p in Split(s, c) ==> c !in p
    decreases |s|
  {
    var i := IndexOf(s, c);
    if i < |s| {
      SplitJoins(s[i + 1..], c);
      assert Split(s, c)[1..] == Split(s[i + 1..], c);
      assert s == s[..i] + [c] + s[i + 1..];
    } else {
      assert s[..i] == s;
    }
  }

  /** Every item carries its position. */
  predicate Placed(items: seq<Option<Item>>) {
    forall i :: 0 <= i < |items| && items[i].Some? ==> items[i].value.pos == i
  }

  lemma {:induction false} SomesFrom(items: seq<Option<Item>>, x: Item)
    requires Placed(items) && x in Somes(items)
    ensures x.pos < |items| && items[x.pos] == Some(x)
  {
    var n := |items| - 1;
    if x in Somes(items[..n]) {
      SomesFrom(items[..n], x);
    }
  }

  // Order -------------------------------------------------------------------------------------------

  ghost predicate Ordered(s: seq<Item>) {
    forall a, b :: 0 <= a < b < |s| ==> Before(s[a], s[b])
  }

  lemma {:induction false} InsertHas(s: seq<Item>, x: Item)
    ensures forall y :: y in Insert(s, x) <==> y in s || y == x
  {
    if s != [] && Before(x, s[|s| - 1]) {
      InsertHas(s[..|s| - 1], x);
      assert s == s[..|s| - 1] + [s[|s| - 1]];
    }
  }

  lemma {:induction false} InsertOrders(s: seq<Item>, x: Item)
    requires Ordered(s) && forall y :: y in s ==> y.pos != x.pos
    ensures Ordered(Insert(s, x))
    decreases |s|, 1
  {
    if s != [] {
      var n := |s| - 1;
      assert s[n] in s;
      if Before(x, s[n]) {
        InsertBelow(s, x);
      }
    }
  }

  /** An item that goes before the last one. */
  lemma {:induction false} InsertBelow(s: seq<Item>, x: Item)
    requires Ordered(s) && s != [] && Before(x, s[|s| - 1])
    requires forall y :: y in s ==> y.pos != x.pos
    ensures Ordered(Insert(s[..|s| - 1], x) + [s[|s| - 1]])
    decreases |s|, 0
  {
    var n := |s| - 1;
    var t := Insert(s[..n], x);
    assert forall y :: y in s[..n] ==> y in s;
    InsertOrders(s[..n], x);
    InsertHas(s[..n], x);
    forall a | 0 <= a < |t| ensures Before(t[a], s[n]) {
      assert t[a] in t;
      if t[a] in s[..n] {
        var k :| 0 <= k < n && s[..n][k] == t[a];
        assert s[k] == t[a];
      }
    }
  }

  lemma {:induction false} SortedIs(items: seq<Option<Item>>)
    requires Placed(items)
    ensures Ordered(Sorted(Somes(items)))
    ensures forall y :: y in Sorted(Somes(items)) <==> y in Somes(items)
  {
    if items != [] {
      var n := |items| - 1;
      SortedIs(items[..n]);
      if items[n].Some? {
        var w := Somes(items);
        assert w[..|w| - 1] == Somes(items[..n]);
        forall x | x in Somes(items[..n]) ensures x.pos != n {
          SomesFrom(items[..n], x);
        }
        InsertOrders(Sorted(Somes(items[..n])), w[|w| - 1]);
        InsertHas(Sorted(Somes(items[..n])), w[|w| - 1]);
        assert w == w[..|w| - 1] + [w[|w| - 1]];
      }
    }
  }

  /** Position of the first item with the language, or the length. */
  function First(s: seq<Item>, lang: string): (i: nat)
    ensures i <= |s| && (i < |s| ==> s[i].lang == lang)
    ensures forall j :: 0 <= j < i ==> s[j].lang != lang
  {
    if s == [] then 0
    else
      var i := First(s[..|s| - 1], lang);
      if i < |s| - 1 || s[|s| - 1].lang == lang then i else |s|
  }

  lemma FirstStep(s: seq<Item>, lang: string)
    requires s != []
    ensures var n := |s| - 1;
            First(s, lang) == if First(s[..n], lang) < n || s[n].lang == lang then First(s[..n], lang) else |s|
  {
  }

  lemma {:induction false} OnceHas(s: seq<Item>, lang: string)
    ensures lang in Once(s) <==> First(s, lang) < |s|
  {
    if s != [] {
      OnceHas(s[..|s| - 1], lang);
      FirstStep(s, lang);
    }
  }

  /** Languages stand in the order of their first items. */
  lemma {:induction false} OnceIs(s: seq<Item>)
    ensures forall lang :: lang in Once(s) <==> First(s, lang) < |s|
    ensures forall a, b :: 0 <= a < b < |Once(s)| ==> First(s, Once(s)[a]) < First(s, Once(s)[b])
  {
    forall lang ensures lang in Once(s) <==> First(s, lang) < |s| {
      OnceHas(s, lang);
    }
    if s != [] {
      var n, rest := |s| - 1, Once(s[..|s| - 1]);
      OnceIs(s[..n]);
      forall a | 0 <= a < |rest| ensures First(s, rest[a]) == First(s[..n], rest[a]) < n {
        assert rest[a] in rest;
        FirstStep(s, rest[a]);
      }
      FirstStep(s, s[n].lang);
    }
  }

  // The promise -------------------------------------------------------------------------------------

  /** Element `i` is the heaviest one of its language, and the first of those. */
  ghost predicate BestAt(items: seq<Option<Item>>, lang: string, i: nat) {
    && i < |items| && items[i].Some? && items[i].value.lang == lang
    && forall j :: 0 <= j < |items| && j != i && items[j].Some? && items[j].value.lang == lang
                   ==> Before(items[i].value, items[j].value)
  }

  ghost predicate Offered(items: seq<Option<Item>>, lang: string) {
    exists i :: 0 <= i < |items| && items[i].Some? && items[i].value.lang == lang
  }

  /** Exactly the languages with a positive weight, each once, by decreasing best weight and then by the earliest
  position that reaches it. */
  ghost predicate Ranked(items: seq<Option<Item>>, result: seq<string>) {
    && (forall lang :: lang in result <==> Offered(items, lang))
    && (forall a, b :: 0 <= a < b < |result| ==> result[a] != result[b])
    && (forall a, b, i: nat, j: nat :: 0 <= a < b < |result|
          && BestAt(items, result[a], i) && BestAt(items, result[b], j)
          ==> Before(items[i].value, items[j].value))
  }

  /** The first item of a language in the sorted list is its best element. */
  lemma {:induction false} FirstIsBest(items: seq<Option<Item>>, s: seq<Item>, lang: string)
    requires Placed(items) && s == Sorted(Somes(items)) && First(s, lang) < |s|
    ensures BestAt(items, lang, s[First(s, lang)].pos)
    ensures items[s[First(s, lang)].pos] == Some(s[First(s, lang)])
  {
    SortedIs(items);
    var f := First(s, lang);
    assert s[f] in s;
    SomesFrom(items, s[f]);
    forall j | 0 <= j < |items| && j != s[f].pos && items[j].Some? && items[j].value.lang == lang
      ensures Before(s[f], items[j].value)
    {
      assert items[j] in items;
      SomesHas(items);
      FirstPrecedes(s, lang, items[j].value);
    }
  }

  lemma {:induction false} FirstPrecedes(s: seq<Item>, lang: string, y: Item)
    requires Ordered(s) && First(s, lang) < |s| && y in s && y.lang == lang && y != s[First(s, lang)]
    ensures Before(s[First(s, lang)], y)
  {
    var k :| 0 <= k < |s| && s[k] == y;
  }

  lemma {:induction false} BestIsUnique(items: seq<Option<Item>>, lang: string, i: nat, j: nat)
    requires BestAt(items, lang, i) && BestAt(items, lang, j)
    ensures i == j
  {
  }

  lemma {:induction false} OfferedIff(items: seq<Option<Item>>, lang: string)
    requires Placed(items)
    ensures lang in Once(Sorted(Somes(items))) <==> Offered(items, lang)
  {
    var s := Sorted(Somes(items));
    OnceIs(s);
    SortedIs(items);
    if First(s, lang) < |s| {
      FirstIsBest(items, s, lang);
    }
    if Offered(items, lang) {
      var i :| 0 <= i < |items| && items[i].Some? && items[i].value.lang == lang;
      assert items[i] in items;
      SomesHas(items);
      assert items[i].value in s;
    }
  }

  lemma {:induction false} PreferredIsRanked(float: Float, header: string)
    ensures Ranked(Elements(float, Split(header, ',')), Preferred(float, header))
  {
    var items, result := Elements(float, Split(header, ',')), Preferred(float, header);
    var s := Sorted(Somes(items));
    OnceIs(s);
    SortedIs(items);
    forall lang ensures lang in result <==> Offered(items, lang) {
      OfferedIff(items, lang);
    }
    forall a, b, i: nat, j: nat | 0 <= a < b < |result|
        && BestAt(items, result[a], i) && BestAt(items, result[b], j)
      ensures Before(items[i].value, items[j].value)
    {
      assert result[a] in result && result[b] in result;
      FirstIsBest(items, s, result[a]);
      FirstIsBest(items, s, result[b]);
      BestIsUnique(items, result[a], i, s[First(s, result[a])].pos);
      BestIsUnique(items, result[b], j, s[First(s, result[b])].pos);
    }
  }

  /** Every offered language has a best element, so a ranking is determined by the header. */
  lemma {:induction false} RankedIsUnique(float: Float, header: string, r: seq<string>)
    requires Ranked(Elements(float, Split(header, ',')), r)
    ensures r == Preferred(float, header)
  {
    var items, p := Elements(float, Split(header, ',')), Preferred(float, header);
    PreferredIsRanked(float, header);
    SameRanking(items, r, p, 0);
  }

  lemma {:induction false} BestExists(items: seq<Option<Item>>, lang: string) returns (i: nat)
    requires Placed(items) && Offered(items, lang)
    ensures BestAt(items, lang, i)
  {
    var s := Sorted(Somes(items));
    OfferedIff(items, lang);
    OnceIs(s);
    FirstIsBest(items, s, lang);
    i := s[First(s, lang)].pos;
  }

  lemma {:induction false} RankedOrders(items: seq<Option<Item>>, r: seq<string>, a: nat, b: nat, i: nat, j: nat)
    requires Ranked(items, r) && a < b < |r| && BestAt(items, r[a], i) && BestAt(items, r[b], j)
    ensures Before(items[i].value, items[j].value)
  {
  }

  /** If `x` comes before `y` in one ranking, it does in the other. */
  lemma {:induction false} RankingsAgree(items: seq<Option<Item>>, r: seq<string>, p: seq<string>,
                                         a: nat, b: nat, c: nat, d: nat)
    requires Placed(items) && Ranked(items, r) && Ranked(items, p)
    requires a < b < |r| && c < |p| && d < |p| && r[a] == p[c] && r[b] == p[d]
    ensures c < d
  {
    assert r[a] in r && r[b] in r;
    var i := BestExists(items, r[a]);
    var j := BestExists(items, r[b]);
    RankedOrders(items, r, a, b, i, j);
    if d < c {
      RankedOrders(items, p, d, c, j, i);
    }
  }

  lemma {:induction false} SamePrefix(r: seq<string>, p: seq<string>, k: nat)
    requires k <= |r| && k <= |p| && r[..k] == p[..k]
    ensures forall c :: 0 <= c < k ==> r[c] == p[c]
  {
    forall c | 0 <= c < k ensures r[c] == p[c] {
      assert r[c] == r[..k][c];
    }
  }

  /** The next language of one ranking is still to come in the other. */
  lemma {:induction false} StillToCome(items: seq<Option<Item>>, r: seq<string>, p: seq<string>, k: nat) returns (c: nat)
    requires Ranked(items, r) && Ranked(items, p)
    requires k < |r| && k <= |p| && r[..k] == p[..k]
    ensures k <= c < |p| && p[c] == r[k]
  {
    assert r[k] in r;
    assert r[k] in p;
    c :| 0 <= c < |p| && p[c] == r[k];
    SamePrefix(r, p, k);
  }

  lemma {:induction false} SameRanking(items: seq<Option<Item>>, r: seq<string>, p: seq<string>, k: nat)
    requires Placed(items) && Ranked(items, r) && Ranked(items, p)
    requires k <= |r| && k <= |p| && r[..k] == p[..k]
    ensures r == p
    decreases |r| - k
  {
    if k < |r| && k < |p| {
      SameNext(items, r, p, k);
      assert r[..k + 1] == r[..k] + [r[k]] && p[..k + 1] == p[..k] + [p[k]];
      SameRanking(items, r, p, k + 1);
    } else if k < |r| {
      var c := StillToCome(items, r, p, k);
    } else if k < |p| {
      var c := StillToCome(items, p, r, k);
    }
  }

  lemma {:induction false} SameNext(items: seq<Option<Item>>, r: seq<string>, p: seq<string>, k: nat)
    requires Placed(items) && Ranked(items, r) && Ranked(items, p)
    requires k < |r| && k < |p| && r[..k] == p[..k]
    ensures r[k] == p[k]
  {
    hide Ranked, Placed;
    var c := StillToCome(items, r, p, k);
    var d := StillToCome(items, p, r, k);
    if k < c && k < d {
      RankingsAgree(items, p, r, k, c, d, k);
    }
  }

  // Choosing one language ---------------------------------------------------------------------------

  /** The first supported tag of `ui_locales`. */
  function FirstSupported(tags: seq<string>): Option<string> {
    if tags == [] then None
    else if Normalize(tags[0]).Some? then Normalize(tags[0])
    else FirstSupported(tags[1..])
  }

  function OrElse(a: Option<string>, b: Option<string>): Option<string> {
    if a.Some? then a else b
  }

  function NormalizeOpt(tag: Option<string>): Option<string> {
    if tag.Some? then Normalize(tag.value) else None
  }

  /** Cookie, then the language saved at the start of the login, then `ui_locales`, then the browser, then Italian. */
  function ResolveLang(float: Float, cookie: Option<string>, saved: Option<string>, uiLocales: seq<string>,
                       header: Option<string>): string {
    var lang := OrElse(NormalizeOpt(cookie), OrElse(NormalizeOpt(saved), FirstSupported(uiLocales)));
    if lang.Some? then lang.value
    else if header.Some? && Preferred(float, header.value) != [] then Preferred(float, header.value)[0]
    else DEFAULT
  }

  /** Tag `i` is the first one that names a supported language. */
  ghost predicate IsFirstSupported(tags: seq<string>, i: int) {
    0 <= i < |tags| && Normalize(tags[i]).Some? && forall j :: 0 <= j < i ==> Normalize(tags[j]).None?
  }

  lemma {:induction false} FirstSupportedIs(tags: seq<string>)
    ensures FirstSupported(tags).None? <==> forall t :: t in tags ==> Normalize(t).None?
    ensures FirstSupported(tags).Some? ==> FirstSupported(tags).value in SUPPORTED
    ensures forall i :: IsFirstSupported(tags, i) ==> FirstSupported(tags) == Normalize(tags[i])
  {
    if tags != [] {
      FirstSupportedIs(tags[1..]);
      assert tags == [tags[0]] + tags[1..];
      forall i | IsFirstSupported(tags, i) ensures FirstSupported(tags) == Normalize(tags[i]) {
        if i > 0 {
          assert Normalize(tags[0]).None?;
          assert IsFirstSupported(tags[1..], i - 1);
        }
      }
    }
  }

  /** The heaviest and earliest element of the header is of this language, or it is Italian and the header offers none. */
  ghost predicate IsBrowserLanguage(float: Float, header: string, lang: string) {
    var items := Elements(float, Split(header, ','));
    (lang == DEFAULT && forall other :: !Offered(items, other))
    || (Offered(items, lang)
        && (forall other, i: nat, j: nat :: BestAt(items, lang, i) && BestAt(items, other, j) && other != lang
              ==> Before(items[i].value, items[j].value)))
  }

  lemma {:induction false} BrowserLanguage(float: Float, header: string)
    ensures var p := Preferred(float, header);
            && (p != [] ==> p[0] in SUPPORTED)
            && IsBrowserLanguage(float, header, if p != [] then p[0] else DEFAULT)
  {
    PreferredIsRanked(float, header);
    var items, p := Elements(float, Split(header, ',')), Preferred(float, header);
    if p != [] {
      assert p[0] in p;
      assert Offered(items, p[0]);
      forall other, i: nat, j: nat | BestAt(items, p[0], i) && BestAt(items, other, j) && other != p[0]
        ensures Before(items[i].value, items[j].value)
      {
        assert Offered(items, other);
        assert other in p;
        var b :| 0 <= b < |p| && p[b] == other;
      }
    }
  }

  /** The page always has a supported language: that of the cookie; else the saved one; else the first supported one of
  `ui_locales`; else that of the heaviest and earliest element of the header; else, without a header or if it offers
  none, Italian. */
  lemma {:induction false} ResolvedLanguage(float: Float, cookie: Option<string>, saved: Option<string>,
                                            uiLocales: seq<string>, header: Option<string>)
    ensures var lang := ResolveLang(float, cookie, saved, uiLocales, header);
            && lang in SUPPORTED
            && (NormalizeOpt(cookie).Some? ==> lang == NormalizeOpt(cookie).value)
            && (NormalizeOpt(cookie).None? && NormalizeOpt(saved).Some? ==> lang == NormalizeOpt(saved).value)
            && (NormalizeOpt(cookie).None? && NormalizeOpt(saved).None? ==>
                  && (forall i :: IsFirstSupported(uiLocales, i) ==> Normalize(uiLocales[i]) == Some(lang))
                  && ((forall t :: t in uiLocales ==> Normalize(t).None?) ==>
                        if header.None? then lang == DEFAULT else IsBrowserLanguage(float, header.value, lang)))
  {
    FirstSupportedIs(uiLocales);
    if header.Some? {
      BrowserLanguage(float, header.value);
    }
    hide IsBrowserLanguage, Preferred;
  }
}
