/** Base64url without padding, integers as big-endian bytes, the padding that the JWT reader puts back, and
CPython's lenient base64 decoder.

See section 5 of RFC 4648, section 2 of RFC 7518, Appendix C of RFC 7515 and section 3 of RFC 7638. */
module Base64Url {
  import opened Wrappers

  type Byte = x: int | 0 <= x < 256

  type Sextet = x: int | 0 <= x < 64

  // Digits ------------------------------------------------------------------------------------------

  function ToChar(x: Sextet): char {
    if x < 26 then 'A' + x as char
    else if x < 52 then 'a' + (x - 26) as char
    else if x < 62 then '0' + (x - 52) as char
    else if x == 62 then '-'
    else '_'
  }

  /** The decoder's table, after '-' and '_' are translated: it takes '+' and '/' as well. */
  function FromChar(c: char): Option<Sextet> {
    if 'A' <= c <= 'Z' then Some((c - 'A') as int)
    else if 'a' <= c <= 'z' then Some((c - 'a') as int + 26)
    else if '0' <= c <= '9' then Some((c - '0') as int + 52)
    else if c == '-' || c == '+' then Some(62)
    else if c == '_' || c == '/' then Some(63)
    else None
  }

  lemma CharRoundTrip(x: Sextet)
    ensures FromChar(ToChar(x)) == Some(x) && ToChar(x) != '='
  {
  }

  /** A digit of the encoder. */
  predicate IsUrlChar(c: char) {
    'A' <= c <= 'Z' || 'a' <= c <= 'z' || '0' <= c <= '9' || c == '-' || c == '_'
  }

  // Encoding ----------------------------------------------------------------------------------------

  /** Three bytes make four digits; one or two bytes at the end make two or three. */
  function Encode(bytes: seq<Byte>): string {
    if |bytes| == 0 then ""
    else if |bytes| == 1 then
      [ToChar(bytes[0] / 4), ToChar(bytes[0] % 4 * 16)]
    else if |bytes| == 2 then
      [ToChar(bytes[0] / 4), ToChar(bytes[0] % 4 * 16 + bytes[1] / 16), ToChar(bytes[1] % 16 * 4)]
    else
      [ToChar(bytes[0] / 4), ToChar(bytes[0] % 4 * 16 + bytes[1] / 16),
       ToChar(bytes[1] % 16 * 4 + bytes[2] / 64), ToChar(bytes[2] % 64)] + Encode(bytes[3..])
  }

  function BitLength(n: nat): nat {
    if n == 0 then 0 else 1 + BitLength(n / 2)
  }

  function BigEndian(n: nat, length: nat): seq<Byte> {
    if length == 0 then [] else BigEndian(n / 256, length - 1) + [n % 256]
  }

  function FromBigEndian(bytes: seq<Byte>): nat {
    if bytes == [] then 0 else FromBigEndian(bytes[..|bytes| - 1]) * 256 + bytes[|bytes| - 1]
  }

  /** The byte form of an integer: as many bytes as its bits need. */
  function IntBytes(n: nat): seq<Byte> {
    BigEndian(n, (BitLength(n) + 7) / 8)
  }

  function EncodeInt(n: nat): string {
    Encode(IntBytes(n))
  }

  /** The text whose digest is the key id. */
  function ThumbprintInput(e: string, n: string): string {
    "{\"e\":\"" + e + "\",\"kty\":\"RSA\",\"n\":\"" + n + "\"}"
  }

  // Decoding ----------------------------------------------------------------------------------------

  /** The byte that a digit completes, given the digit before it. */
  function Join(quad: nat, left: Sextet, x: Sextet): Byte
    requires 1 <= quad <= 3
  {
    if quad == 1 then left * 4 + x / 16
    else if quad == 2 then left % 16 * 16 + x / 4
    else left % 4 * 64 + x
  }

  /** Prepends decoded bytes to a successful rest. */
  function Prefixed(bytes: seq<Byte>, rest: Option<seq<Byte>>): Option<seq<Byte>> {
    match rest
    case None => None
    case Some(more) => Some(bytes + more)
  }

  /** The decoder after `quad` digits of the current four, the last of them `left`, and `pads` pad characters.
  Enough pads after two or three digits end the input. Characters outside the alphabet are skipped. Digits that
  do not fill their four are an error. */
  function Scan(s: string, quad: nat, left: Sextet, pads: nat): Option<seq<Byte>>
    requires quad < 4
  {
    if s == "" then (if quad == 0 then Some([]) else None)
    else if s[0] == '=' then
      if quad >= 2 && quad + pads + 1 >= 4 then Some([])
      else Scan(s[1..], quad, left, if quad >= 2 then pads + 1 else pads)
    else
      match FromChar(s[0])
      case None => Scan(s[1..], quad, left, pads)
      case Some(x) =>
        var rest := Scan(s[1..], (quad + 1) % 4, x, 0);
        if quad == 0 then rest else Prefixed([Join(quad, left, x)], rest)
  }

  function Decode(s: string): Option<seq<Byte>> {
    Scan(s, 0, 0, 0)
  }

  function Repeat(n: nat): string {
    if n == 0 then "" else "==" + Repeat(n - 1)
  }

  /** Two pad characters for each digit missing to a multiple of four. */
  function Pad(s: string): string {
    s + Repeat((4 - |s| % 4) % 4)
  }

  function SplitDots(s: string): seq<string> {
    if s == "" then [""]
    else
      var parts := SplitDots(s[1..]);
      if s[0] == '.' then [""] + parts
      else [[s[0]] + parts[0]] + parts[1..]
  }

  /** The payload bytes of a JWT; None for what is not one or does not decode. */
  function JwtPayload(token: string): Option<seq<Byte>> {
    var parts := SplitDots(token);
    if |parts| < 2 then None else Decode(Pad(parts[1]))
  }

  // Round trip of bytes ---------------------------------------------------------------------------------

  /** What is left of a text once its last digits are read: nothing, or pads. */
  predicate OnlyPads(s: string) {
    forall i :: 0 <= i < |s| ==> s[i] == '='
  }

  lemma {:induction false} PadsIgnored(s: string)
    requires OnlyPads(s)
    ensures Scan(s, 0, 0, 0) == Some([])
    ensures forall left: Sextet :: Scan(s, 0, left, 0) == Some([])
  {
    if s != "" {
      PadsIgnored(s[1..]);
    }
  }

  /** One digit read. */
  lemma {:induction false} ScanDigit(x: Sextet, s: string, quad: nat, left: Sextet, pads: nat)
    requires quad < 4
    ensures var rest := Scan(s, (quad + 1) % 4, x, 0);
            Scan([ToChar(x)] + s, quad, left, pads) ==
              if quad == 0 then rest else Prefixed([Join(quad, left, x)], rest)
  {
    CharRoundTrip(x);
    assert ([ToChar(x)] + s)[1..] == s;
  }

  lemma {:induction false} ScanFour(x0: Sextet, x1: Sextet, x2: Sextet, x3: Sextet, s: string, left: Sextet)
    ensures Scan([ToChar(x0)] + ([ToChar(x1)] + ([ToChar(x2)] + ([ToChar(x3)] + s))), 0, left, 0)
         == Prefixed([Join(1, x0, x1), Join(2, x1, x2), Join(3, x2, x3)], Scan(s, 0, x3, 0))
  {
    var s3 := [ToChar(x3)] + s;
    var s2 := [ToChar(x2)] + s3;
    var s1 := [ToChar(x1)] + s2;
    ScanDigit(x3, s, 3, x2, 0);
    ScanDigit(x2, s3, 2, x1, 0);
    ScanDigit(x1, s2, 1, x0, 0);
    ScanDigit(x0, s1, 0, left, 0);
    PrefixedThree(Join(1, x0, x1), Join(2, x1, x2), Join(3, x2, x3), Scan(s, 0, x3, 0));
  }

  lemma {:induction false} PrefixedThree(a: Byte, b: Byte, c: Byte, rest: Option<seq<Byte>>)
    ensures Prefixed([a], Prefixed([b], Prefixed([c], rest))) == Prefixed([a, b, c], rest)
  {
    if rest.Some? {
      assert [a] + ([b] + ([c] + rest.value)) == [a, b, c] + rest.value;
    }
  }

  lemma {:induction false} ScanTwo(x0: Sextet, x1: Sextet, pads: string, left: Sextet)
    requires OnlyPads(pads) && |pads| >= 2
    ensures Scan([ToChar(x0)] + ([ToChar(x1)] + pads), 0, left, 0) == Some([Join(1, x0, x1)])
  {
    ScanDigit(x1, pads, 1, x0, 0);
    ScanDigit(x0, [ToChar(x1)] + pads, 0, left, 0);
    assert Scan(pads[1..], 2, x1, 1) == Some([]);
    assert Scan(pads, 2, x1, 0) == Some([]);
    assert [Join(1, x0, x1)] + [] == [Join(1, x0, x1)];
  }

  lemma {:induction false} ScanThree(x0: Sextet, x1: Sextet, x2: Sextet, pads: string, left: Sextet)
    requires OnlyPads(pads) && |pads| >= 1
    ensures Scan([ToChar(x0)] + ([ToChar(x1)] + ([ToChar(x2)] + pads)), 0, left, 0) == Some([Join(1, x0, x1), Join(2, x1, x2)])
  {
    var s2 := [ToChar(x2)] + pads;
    ScanDigit(x2, pads, 2, x1, 0);
    ScanDigit(x1, s2, 1, x0, 0);
    ScanDigit(x0, [ToChar(x1)] + s2, 0, left, 0);
    assert Scan(pads, 3, x2, 0) == Some([]);
    assert [Join(1, x0, x1)] + ([Join(2, x1, x2)] + []) == [Join(1, x0, x1), Join(2, x1, x2)];
  }

  /** The digits of one, two and three bytes join to those bytes. */
  lemma {:induction false} DigitsJoin(a: Byte, b: Byte, c: Byte)
    ensures Join(1, a / 4, a % 4 * 16) == a
    ensures Join(1, a / 4, a % 4 * 16 + b / 16) == a
    ensures Join(2, a % 4 * 16 + b / 16, b % 16 * 4) == b
    ensures Join(2, a % 4 * 16 + b / 16, b % 16 * 4 + c / 64) == b
    ensures Join(3, b % 16 * 4 + c / 64, c % 64) == c
  {
  }

  /** Bytes come back from their digits, whatever pads complete the last four. */
  lemma {:induction false} ScanEncoded(bytes: seq<Byte>, pads: string, left: Sextet)
    requires OnlyPads(pads)
    requires |bytes| % 3 == 1 ==> |pads| >= 2
    requires |bytes| % 3 == 2 ==> |pads| >= 1
    ensures Scan(Encode(bytes) + pads, 0, left, 0) == Some(bytes)
    decreases |bytes|
  {
    if |bytes| == 0 {
      assert Encode(bytes) + pads == pads;
      PadsIgnored(pads);
    } else if |bytes| == 1 {
      ScanEncodedOne(bytes[0], pads, left);
      assert bytes == [bytes[0]];
    } else if |bytes| == 2 {
      ScanEncodedTwo(bytes[0], bytes[1], pads, left);
      assert bytes == [bytes[0], bytes[1]];
    } else {
      Wraps(|bytes| - 3, 0);
      ScanEncoded(bytes[3..], pads, bytes[2] % 64);
      ScanEncodedMore(bytes, pads, left);
      FirstThree(bytes);
    }
  }

  lemma FirstThree(bytes: seq<Byte>)
    requires |bytes| >= 3
    ensures Prefixed([bytes[0], bytes[1], bytes[2]], Some(bytes[3..])) == Some(bytes)
  {
    assert bytes == [bytes[0], bytes[1], bytes[2]] + bytes[3..];
  }

  lemma {:induction false} ScanEncodedOne(a: Byte, pads: string, left: Sextet)
    requires OnlyPads(pads) && |pads| >= 2
    ensures Scan(Encode([a]) + pads, 0, left, 0) == Some([a])
  {
    var x0, x1: Sextet := a / 4, a % 4 * 16;
    DigitsJoin(a, 0, 0);
    ScanTwo(x0, x1, pads, left);
    assert Encode([a]) + pads == [ToChar(x0)] + ([ToChar(x1)] + pads);
  }

  lemma {:induction false} ScanEncodedTwo(a: Byte, b: Byte, pads: string, left: Sextet)
    requires OnlyPads(pads) && |pads| >= 1
    ensures Scan(Encode([a, b]) + pads, 0, left, 0) == Some([a, b])
  {
    var x0, x1, x2: Sextet := a / 4, a % 4 * 16 + b / 16, b % 16 * 4;
    DigitsJoin(a, b, 0);
    ScanThree(x0, x1, x2, pads, left);
    assert Encode([a, b]) + pads == [ToChar(x0)] + ([ToChar(x1)] + ([ToChar(x2)] + pads));
  }

  lemma {:induction false} ScanEncodedMore(bytes: seq<Byte>, pads: string, left: Sextet)
    requires |bytes| >= 3
    ensures Scan(Encode(bytes) + pads, 0, left, 0)
         == Prefixed([bytes[0], bytes[1], bytes[2]], Scan(Encode(bytes[3..]) + pads, 0, bytes[2] % 64, 0))
  {
    var a, b, c := bytes[0], bytes[1], bytes[2];
    var x0, x1, x2, x3: Sextet := a / 4, a % 4 * 16 + b / 16, b % 16 * 4 + c / 64, c % 64;
    var rest := Encode(bytes[3..]) + pads;
    DigitsJoin(a, b, c);
    ScanFour(x0, x1, x2, x3, rest, left);
    assert Encode(bytes) == [ToChar(x0), ToChar(x1), ToChar(x2), ToChar(x3)] + Encode(bytes[3..]);
    FourAppend(ToChar(x0), ToChar(x1), ToChar(x2), ToChar(x3), Encode(bytes[3..]), pads);
  }

  lemma {:induction false} FourAppend(a: char, b: char, c: char, d: char, s: string, t: string)
    ensures [a, b, c, d] + s + t == [a] + ([b] + ([c] + ([d] + (s + t))))
  {
  }

  lemma {:induction false} EncodeLength(bytes: seq<Byte>)
    ensures |Encode(bytes)| % 4 == (if |bytes| % 3 == 0 then 0 else |bytes| % 3 + 1)
    decreases |bytes|
  {
    if |bytes| >= 3 {
      EncodeLength(bytes[3..]);
      EncodeMore(bytes);
      Wraps(|bytes| - 3, |Encode(bytes[3..])|);
    }
  }

  lemma EncodeMore(bytes: seq<Byte>)
    requires |bytes| >= 3
    ensures |Encode(bytes)| == 4 + |Encode(bytes[3..])|
  {
  }

  lemma Wraps(m: nat, n: nat)
    ensures (m + 3) % 3 == m % 3 && (4 + n) % 4 == n % 4
  {
  }

  lemma {:induction false} EncodeChars(bytes: seq<Byte>)
    ensures forall c :: c in Encode(bytes) ==> IsUrlChar(c)
    decreases |bytes|
  {
    assert forall x: Sextet :: IsUrlChar(ToChar(x));
    if |bytes| >= 3 {
      EncodeChars(bytes[3..]);
      var head := [ToChar(bytes[0] / 4), ToChar(bytes[0] % 4 * 16 + bytes[1] / 16),
                   ToChar(bytes[1] % 16 * 4 + bytes[2] / 64), ToChar(bytes[2] % 64)];
      assert Encode(bytes) == head + Encode(bytes[3..]);
    }
  }

  lemma {:induction false} RepeatPads(n: nat)
    ensures OnlyPads(Repeat(n)) && |Repeat(n)| == 2 * n
  {
    if n > 0 {
      RepeatPads(n - 1);
    }
  }

  /** MAIN RESULT. Every byte string comes back from its unpadded form, through the padding of the JWT reader. */
  lemma {:induction false} BytesRoundTrip(bytes: seq<Byte>)
    ensures Decode(Pad(Encode(bytes))) == Some(bytes)
  {
    EncodeLength(bytes);
    RepeatPads((4 - |Encode(bytes)| % 4) % 4);
    ScanEncoded(bytes, Repeat((4 - |Encode(bytes)| % 4) % 4), 0);
  }

  lemma {:induction false} SplitOne(a: string, s: string)
    requires forall i :: 0 <= i < |a| ==> a[i] != '.'
    ensures SplitDots(a + "." + s) == [a] + SplitDots(s)
  {
    if a == "" {
      assert a + "." + s == "." + s;
      assert ("." + s)[1..] == s;
    } else {
      SplitOne(a[1..], s);
      assert (a + "." + s)[1..] == a[1..] + "." + s;
      assert [a[0]] + a[1..] == a;
    }
  }

  /** MAIN RESULT. The reader gets the payload bytes out of any token built from them. */
  lemma {:induction false} JwtRoundTrip(header: string, payload: seq<Byte>, signature: string)
    requires forall i :: 0 <= i < |header| ==> header[i] != '.'
    ensures JwtPayload(header + "." + Encode(payload) + "." + signature) == Some(payload)
  {
    var p := Encode(payload);
    EncodeChars(payload);
    assert forall i :: 0 <= i < |p| ==> p[i] in p;
    assert header + "." + p + "." + signature == header + "." + (p + "." + signature);
    SplitOne(header, p + "." + signature);
    SplitOne(p, signature);
    BytesRoundTrip(payload);
  }

  /** Digits decode through the reader's padding exactly when one of them does not stand alone. */
  lemma {:induction false} DecodesIff(s: string)
    requires forall i :: 0 <= i < |s| ==> IsUrlChar(s[i])
    ensures Decode(Pad(s)).Some? <==> |s| % 4 != 1
  {
    var n := (4 - |s| % 4) % 4;
    RepeatPads(n);
    ScanLength(s, Repeat(n), 0, 0);
  }

  lemma {:induction false} ScanLength(s: string, pads: string, quad: nat, left: Sextet)
    requires quad < 4 && OnlyPads(pads)
    requires forall i :: 0 <= i < |s| ==> IsUrlChar(s[i])
    requires (quad + |s|) % 4 >= 2 ==> |pads| >= 2
    ensures Scan(s + pads, quad, left, 0).Some? <==> (quad + |s|) % 4 != 1
    decreases |s|
  {
    if s == "" {
      assert s + pads == pads;
      PadsEnd(pads, quad, left);
    } else {
      assert (s + pads)[1..] == s[1..] + pads;
      ScanLength(s[1..], pads, (quad + 1) % 4, FromChar(s[0]).value);
    }
  }

  lemma {:induction false} PadsEnd(pads: string, quad: nat, left: Sextet)
    requires quad < 4 && OnlyPads(pads)
    requires quad >= 2 ==> |pads| >= 2
    ensures Scan(pads, quad, left, 0).Some? <==> quad != 1
  {
    if quad < 2 {
      if pads != "" {
        PadsEnd(pads[1..], quad, left);
      }
    } else {
      assert Scan(pads[1..], quad, left, 1).Some?;
    }
  }

  // Round trip of integers ------------------------------------------------------------------------------

  function Pow256(k: nat): nat {
    if k == 0 then 1 else 256 * Pow256(k - 1)
  }

  function Pow2(k: nat): nat {
    if k == 0 then 1 else 2 * Pow2(k - 1)
  }

  lemma {:induction false} BitLengthBounds(n: nat)
    ensures n < Pow2(BitLength(n))
    ensures n > 0 ==> BitLength(n) > 0 && Pow2(BitLength(n) - 1) <= n
  {
    if n > 0 {
      BitLengthBounds(n / 2);
    }
  }

  lemma {:induction false} Pow2Bytes(k: nat)
    ensures Pow256(k) == Pow2(8 * k)
  {
    if k > 0 {
      Pow2Bytes(k - 1);
      assert Pow2(8 * k) == 2 * Pow2(8 * k - 1) == 4 * Pow2(8 * k - 2) == 8 * Pow2(8 * k - 3) == 16 * Pow2(8 * k - 4);
      assert Pow2(8 * k - 4) == 2 * Pow2(8 * k - 5) == 4 * Pow2(8 * k - 6) == 8 * Pow2(8 * k - 7) == 16 * Pow2(8 * k - 8);
    }
  }

  lemma {:induction false} Pow2Monotone(a: nat, b: nat)
    requires a <= b
    ensures Pow2(a) <= Pow2(b)
    decreases b
  {
    if a < b {
      Pow2Monotone(a, b - 1);
    }
  }

  lemma {:induction false} BigEndianRoundTrip(n: nat, length: nat)
    requires n < Pow256(length)
    ensures FromBigEndian(BigEndian(n, length)) == n
    ensures |BigEndian(n, length)| == length
  {
    if length > 0 {
      BigEndianRoundTrip(n / 256, length - 1);
      assert BigEndian(n, length)[..length - 1] == BigEndian(n / 256, length - 1);
    }
  }

  lemma {:induction false} FirstByte(n: nat, length: nat)
    requires length > 0 && Pow256(length - 1) <= n < Pow256(length)
    ensures |BigEndian(n, length)| == length && BigEndian(n, length)[0] != 0
  {
    if length > 1 {
      FirstByte(n / 256, length - 1);
    }
  }

  /** The byte form of an integer is long enough for it, and no longer. */
  lemma {:induction false} IntBytesFit(n: nat)
    ensures FromBigEndian(IntBytes(n)) == n
    ensures n > 0 ==> |IntBytes(n)| > 0 && IntBytes(n)[0] != 0
  {
    var bits := BitLength(n);
    var length := (bits + 7) / 8;
    BitLengthBounds(n);
    Pow2Bytes(length);
    Pow2Monotone(bits, 8 * length);
    BigEndianRoundTrip(n, length);
    if n > 0 {
      Pow2Bytes(length - 1);
      Pow2Monotone(8 * (length - 1), bits - 1);
      FirstByte(n, length);
    }
  }

  /** MAIN RESULT. Every integer comes back from its base64url form, and the form of a positive one has no
  leading zero byte. */
  lemma {:induction false} IntRoundTrip(n: nat)
    ensures Decode(Pad(EncodeInt(n))).Some? && FromBigEndian(Decode(Pad(EncodeInt(n))).value) == n
    ensures n > 0 ==> Decode(Pad(EncodeInt(n))).value != [] && Decode(Pad(EncodeInt(n))).value[0] != 0
  {
    BytesRoundTrip(IntBytes(n));
    IntBytesFit(n);
  }

  /** MAIN RESULT. Different public keys have different thumbprint inputs. */
  lemma {:induction false} ThumbprintInjective(e: nat, n: nat, e': nat, n': nat)
    requires ThumbprintInput(EncodeInt(e), EncodeInt(n)) == ThumbprintInput(EncodeInt(e'), EncodeInt(n'))
    ensures e == e' && n == n'
  {
    EncodeChars(IntBytes(e));
    EncodeChars(IntBytes(n));
    EncodeChars(IntBytes(e'));
    EncodeChars(IntBytes(n'));
    PartsInjective("{\"e\":\"", "\",\"kty\":\"RSA\",\"n\":\"", "\"}",
                   EncodeInt(e), EncodeInt(n), EncodeInt(e'), EncodeInt(n'));
    IntRoundTrip(e);
    IntRoundTrip(n);
    IntRoundTrip(e');
    IntRoundTrip(n');
  }

  /** A quotation mark after a part without one shows where the part ends. */
  lemma {:induction false} PartEnds(a: string, s: string, b: string, t: string)
    requires s != "" && s[0] == '"' && t != "" && t[0] == '"'
    requires a + s == b + t
    requires '"' !in a && '"' !in b
    ensures a == b && s == t
  {
    assert (a + s)[|a|] == '"' && (b + t)[|b|] == '"';
    assert forall i :: 0 <= i < |a| ==> (a + s)[i] == a[i] && a[i] in a;
    assert forall i :: 0 <= i < |b| ==> (b + t)[i] == b[i] && b[i] in b;
    assert |a| == |b|;
    assert a == (a + s)[..|a|] && b == (b + t)[..|b|];
    assert s == (a + s)[|a|..] && t == (b + t)[|b|..];
  }

  lemma {:induction false} PartsInjective(head: string, mid: string, tail: string, e: string, n: string, e': string, n': string)
    requires mid != "" && mid[0] == '"' && tail != "" && tail[0] == '"'
    requires head + e + mid + n + tail == head + e' + mid + n' + tail
    requires '"' !in e && '"' !in n && '"' !in e' && '"' !in n'
    ensures e == e' && n == n'
  {
    var t, t' := mid + (n + tail), mid + (n' + tail);
    assert head + e + mid + n + tail == head + (e + t);
    assert head + e' + mid + n' + tail == head + (e' + t');
    assert (head + (e + t))[|head|..] == e + t && (head + (e' + t'))[|head|..] == e' + t';
    PartEnds(e, t, e', t');
    assert t[|mid|..] == n + tail && t'[|mid|..] == n' + tail;
    PartEnds(n, tail, n', tail);
  }
}
