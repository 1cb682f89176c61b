/**
 base64url as the server writes it (standard base64 without padding, two characters replaced) and as its
 two readers take it back: Node's lenient decoder and the mobile client's strict one with padding restored.
 Section 5 of RFC 4648.
 */
module Base64Url {
  import opened Options

  type Byte = x: nat | x < 256
  type Sextet = x: nat | x < 64

  // -------------------------------------------------------------------- packing

  /** Three bytes are four sextets; one or two bytes left over are two or three. */
  function Sextets(b: seq<Byte>): seq<Sextet> {
    if |b| == 0 then []
    else if |b| == 1 then [b[0] / 4, b[0] % 4 * 16]
    else if |b| == 2 then [b[0] / 4, b[0] % 4 * 16 + b[1] / 16, b[1] % 16 * 4]
    else [b[0] / 4, b[0] % 4 * 16 + b[1] / 16, b[1] % 16 * 4 + b[2] / 64, b[2] % 64] + Sextets(b[3..])
  }

  function Byte0(s0: Sextet, s1: Sextet): Byte { s0 * 4 + s1 / 16 }
  function Byte1(s1: Sextet, s2: Sextet): Byte { s1 % 16 * 16 + s2 / 4 }
  function Byte2(s2: Sextet, s3: Sextet): Byte { s2 % 4 * 64 + s3 }

  /** Whole bytes from sextets; spare bits, and a single sextet left over, are dropped. */
  function Unpack(s: seq<Sextet>): seq<Byte> {
    if |s| < 2 then []
    else if |s| == 2 then [Byte0(s[0], s[1])]
    else if |s| == 3 then [Byte0(s[0], s[1]), Byte1(s[1], s[2])]
    else [Byte0(s[0], s[1]), Byte1(s[1], s[2]), Byte2(s[2], s[3])] + Unpack(s[4..])
  }

  lemma UnpackFour(s0: Sextet, s1: Sextet, s2: Sextet, s3: Sextet, rest: seq<Sextet>)
    ensures Unpack([s0, s1, s2, s3] + rest) == [Byte0(s0, s1), Byte1(s1, s2), Byte2(s2, s3)] + Unpack(rest)
  {
    assert ([s0, s1, s2, s3] + rest)[4..] == rest;
  }

  lemma FirstByte(x: Byte, y: Byte)
    ensures Byte0(x / 4, x % 4 * 16 + y / 16) == x
  {}

  lemma SecondByte(x: Byte, y: Byte, z: Byte)
    ensures Byte1(x % 4 * 16 + y / 16, y % 16 * 4 + z / 64) == y
  {}

  lemma ThirdByte(y: Byte, z: Byte)
    ensures Byte2(y % 16 * 4 + z / 64, z % 64) == z
  {}

  lemma UnpackTwo(s0: Sextet, s1: Sextet, x: Byte)
    requires Byte0(s0, s1) == x
    ensures Unpack([s0, s1]) == [x]
  {}

  lemma UnpackThree(s0: Sextet, s1: Sextet, s2: Sextet, x: Byte, y: Byte)
    requires Byte0(s0, s1) == x && Byte1(s1, s2) == y
    ensures Unpack([s0, s1, s2]) == [x, y]
  {}

  lemma {:induction false} UnpackSextets(b: seq<Byte>)
    ensures Unpack(Sextets(b)) == b
    decreases |b|
  {
    if |b| == 1 {
      FirstByte(b[0], 0);
      UnpackTwo(b[0] / 4, b[0] % 4 * 16, b[0]);
    } else if |b| == 2 {
      FirstByte(b[0], b[1]);
      SecondByte(b[0], b[1], 0);
      UnpackThree(b[0] / 4, b[0] % 4 * 16 + b[1] / 16, b[1] % 16 * 4, b[0], b[1]);
    } else if |b| >= 3 {
      var x, y, z := b[0], b[1], b[2];
      FirstByte(x, y);
      SecondByte(x, y, z);
      ThirdByte(y, z);
      UnpackSextets(b[3..]);
      UnpackFour(x / 4, x % 4 * 16 + y / 16, y % 16 * 4 + z / 64, z % 64, Sextets(b[3..]));
      assert b == [x, y, z] + b[3..];
    }
  }

  lemma {:induction false} SextetCount(b: seq<Byte>)
    ensures |Sextets(b)| % 4 == if |b| % 3 == 0 then 0 else |b| % 3 + 1
    ensures |Sextets(b)| == 0 <==> b == []
    decreases |b|
  {
    if |b| >= 3 { SextetCount(b[3..]); }
  }

  // ------------------------------------------------------------------- alphabet

  function Digit(v: Sextet): char {
    if v < 26 then 'A' + v as char
    else if v < 52 then 'a' + (v - 26) as char
    else if v < 62 then '0' + (v - 52) as char
    else if v == 62 then '+' else '/'
  }

  function Value(c: char): Option<Sextet> {
    if 'A' <= c <= 'Z' then Some((c - 'A') as nat)
    else if 'a' <= c <= 'z' then Some((c - 'a') as nat + 26)
    else if '0' <= c <= '9' then Some((c - '0') as nat + 52)
    else if c == '+' then Some(62)
    else if c == '/' then Some(63)
    else None
  }

  function Digits(s: seq<Sextet>): string {
    seq(|s|, i requires 0 <= i < |s| => Digit(s[i]))
  }

  function Padding(n: nat): string {
    if n % 3 == 1 then "==" else if n % 3 == 2 then "=" else ""
  }

  /** toString('base64'). */
  function Encode(b: seq<Byte>): string {
    Digits(Sextets(b)) + Padding(|b|)
  }

  function Replace(s: string, from: char, to: char): string {
    seq(|s|, i requires 0 <= i < |s| => if s[i] == from then to else s[i])
  }

  function Without(s: string, c: char): string {
    if s == "" then "" else (if s[0] == c then "" else [s[0]]) + Without(s[1..], c)
  }

  /** The server's b64url. */
  function B64Url(b: seq<Byte>): string {
    Replace(Replace(Without(Encode(b), '='), '+', '-'), '/', '_')
  }

  // ------------------------------------------------------------------- decoders

  /** Node accepts both alphabets, skips every other character and stops at the first '='. */
  function NodeSextets(s: string): seq<Sextet> {
    if s == "" || s[0] == '=' then []
    else if s[0] == '-' then [62] + NodeSextets(s[1..])
    else if s[0] == '_' then [63] + NodeSextets(s[1..])
    else (if Value(s[0]).Some? then [Value(s[0]).value] else []) + NodeSextets(s[1..])
  }

  /** Buffer.from(s, 'base64url'), which decodes like 'base64'. */
  function NodeDecode(s: string): seq<Byte> {
    Unpack(NodeSextets(s))
  }

  /** The signature check first maps the two characters back. */
  function NodeDecodeSignature(s: string): seq<Byte> {
    NodeDecode(Replace(Replace(s, '-', '+'), '_', '/'))
  }

  function StandardSextets(s: string): Option<seq<Sextet>> {
    if s == "" then Some([])
    else
      match (Value(s[0]), StandardSextets(s[1..]))
      case (Some(v), Some(rest)) => Some([v] + rest)
      case _ => None
  }

  function TrailingPad(s: string): (n: nat)
    ensures n <= |s|
  {
    if s == "" || s[|s| - 1] != '=' then 0
    else if |s| >= 2 && s[|s| - 2] == '=' then 2
    else 1
  }

  /** Strict base64: a length divisible by four, only the standard alphabet, padding only at the end. */
  function StandardDecode(s: string): Option<seq<Byte>> {
    if |s| % 4 != 0 then None
    else
      match StandardSextets(s[..|s| - TrailingPad(s)])
      case Some(sextets) => Some(Unpack(sextets))
      case None => None
  }

  function Repeat(c: char, n: nat): string {
    seq(n, _ => c)
  }

  function Padded(str: string): string {
    var pad := 4 - |str| % 4;
    if pad < 4 then str + Repeat('=', pad) else str
  }

  /** The mobile client: map the two characters back, restore the padding, decode strictly. */
  function SwiftDecode(s: string): Option<seq<Byte>> {
    StandardDecode(Padded(Replace(Replace(s, '-', '+'), '_', '/')))
  }

  // ----------------------------------------------------------------- round trips

  lemma DigitValue(v: Sextet)
    ensures Value(Digit(v)) == Some(v)
    ensures Digit(v) != '=' && Digit(v) != '-' && Digit(v) != '_' && Digit(v) != '.'
  {}

  lemma {:induction false} WithoutNone(s: string, c: char)
    requires c !in s
    ensures Without(s, c) == s
    decreases |s|
  {
    if s != "" { WithoutNone(s[1..], c); }
  }

  lemma {:induction false} WithoutConcat(s: string, t: string, c: char)
    ensures Without(s + t, c) == Without(s, c) + Without(t, c)
    decreases |s|
  {
    if s == "" {
      assert s + t == t;
    } else {
      assert (s + t)[1..] == s[1..] + t;
      WithoutConcat(s[1..], t, c);
    }
  }

  /** Stripping the padding leaves the digits; mapping the two characters back undoes the mapping. */
  lemma UrlIsDigits(b: seq<Byte>)
    ensures Replace(Replace(B64Url(b), '-', '+'), '_', '/') == Digits(Sextets(b))
    ensures |B64Url(b)| == |Sextets(b)|
    ensures forall i :: 0 <= i < |B64Url(b)| ==>
              var d := Digit(Sextets(b)[i]); B64Url(b)[i] == if d == '+' then '-' else if d == '/' then '_' else d
  {
    var d := Digits(Sextets(b));
    forall i | 0 <= i < |d| ensures d[i] != '=' && d[i] != '-' && d[i] != '_' { DigitValue(Sextets(b)[i]); }
    WithoutConcat(d, Padding(|b|), '=');
    WithoutNone(d, '=');
    assert Without(Padding(|b|), '=') == "" by {
      assert "=="[1..] == "=" && "="[1..] == "";
    }
    assert Without(Encode(b), '=') == d;
  }

  lemma {:induction false} NodeReads(s: string, v: seq<Sextet>)
    requires |s| == |v|
    requires forall i :: 0 <= i < |s| ==>
               s[i] == Digit(v[i]) || (v[i] == 62 && s[i] == '-') || (v[i] == 63 && s[i] == '_')
    ensures NodeSextets(s) == v
    decreases |s|
  {
    if s != "" {
      DigitValue(v[0]);
      NodeReads(s[1..], v[1..]);
    }
  }

  lemma {:induction false} StandardReads(v: seq<Sextet>)
    ensures StandardSextets(Digits(v)) == Some(v)
    decreases |v|
  {
    if v != [] {
      DigitValue(v[0]);
      StandardReads(v[1..]);
      var s := Digits(v);
      assert s[0] == Digit(v[0]) && s[1..] == Digits(v[1..]);
      assert [v[0]] + v[1..] == v;
    }
  }

  /** The payload and signature readers of the server give every byte string back. */
  lemma NodeRoundTrip(b: seq<Byte>)
    ensures NodeDecode(B64Url(b)) == b
    ensures NodeDecodeSignature(B64Url(b)) == b
  {
    UrlIsDigits(b);
    NodeReads(B64Url(b), Sextets(b));
    NodeReads(Digits(Sextets(b)), Sextets(b));
    UnpackSextets(b);
  }

  lemma PadFound(d: string, pad: nat)
    requires pad <= 2 && (pad > 0 ==> d != "") && (forall i :: 0 <= i < |d| ==> d[i] != '=')
    ensures TrailingPad(d + Repeat('=', pad)) == pad
    ensures |d + Repeat('=', pad)| == |d| + pad
    ensures (d + Repeat('=', pad))[..|d|] == d
  {
    assert Repeat('=', 2) == "==" && Repeat('=', 1) == "=" && Repeat('=', 0) == "";
  }

  lemma DecodesBody(s: string, d: string, v: seq<Sextet>)
    requires |s| % 4 == 0 && s[..|s| - TrailingPad(s)] == d && StandardSextets(d) == Some(v)
    ensures StandardDecode(s) == Some(Unpack(v))
  {}

  lemma NoPadInside(v: seq<Sextet>)
    ensures forall i :: 0 <= i < |v| ==> Digits(v)[i] != '='
  {
    forall i | 0 <= i < |v| ensures Digits(v)[i] != '=' { DigitValue(v[i]); }
  }

  lemma PaddedDecodes(v: seq<Sextet>, pad: nat)
    requires pad <= 2 && (|v| + pad) % 4 == 0 && (pad > 0 ==> v != [])
    ensures StandardDecode(Digits(v) + Repeat('=', pad)) == Some(Unpack(v))
  {
    NoPadInside(v);
    StandardReads(v);
    PadFound(Digits(v), pad);
    DecodesBody(Digits(v) + Repeat('=', pad), Digits(v), v);
  }

  lemma PadFor(d: string) returns (pad: nat)
    requires |d| % 4 != 1
    ensures pad <= 2 && (|d| + pad) % 4 == 0 && (pad > 0 ==> d != "")
    ensures Padded(d) == d + Repeat('=', pad)
  {
    pad := (4 - |d| % 4) % 4;
    if pad == 0 { assert d + Repeat('=', 0) == d; }
  }

  lemma SwiftReads(s: string, v: seq<Sextet>)
    requires Replace(Replace(s, '-', '+'), '_', '/') == Digits(v) && |v| % 4 != 1
    ensures SwiftDecode(s) == Some(Unpack(v))
  {
    var pad := PadFor(Digits(v));
    PaddedDecodes(v, pad);
  }

  /** The mobile client restores exactly the padding the server stripped, for every byte string. */
  lemma SwiftRoundTrip(b: seq<Byte>)
    ensures SwiftDecode(B64Url(b)) == Some(b)
  {
    UrlIsDigits(b);
    SextetCount(b);
    SwiftReads(B64Url(b), Sextets(b));
    UnpackSextets(b);
  }

  /** The text has no dot, and is empty only for the empty byte string; so it can stand inside a dotted token. */
  lemma UrlIsDotFree(b: seq<Byte>)
    ensures '.' !in B64Url(b)
    ensures B64Url(b) == "" <==> b == []
  {
    UrlIsDigits(b);
    SextetCount(b);
    forall i | 0 <= i < |B64Url(b)| ensures B64Url(b)[i] != '.' { DigitValue(Sextets(b)[i]); }
  }

  // ------------------------------------------------------------- the text itself

  const UPPER := "ABCDEFGHIJKLMNOPQRSTUVWXYZ"
  const LOWER := "abcdefghijklmnopqrstuvwxyz"
  const OTHER := "0123456789-_"

  lemma UpperCode(v: nat)
    requires v < 26
    ensures |UPPER| == 26 && UPPER[v] as int == 65 + v
  {
    var s := UPPER;
    assert |s| == 26;
    assert forall i :: 0 <= i < 26 ==> s[i] as int == 65 + i;
  }

  lemma LowerCode(v: nat)
    requires v < 26
    ensures |LOWER| == 26 && LOWER[v] as int == 97 + v
  {
    var s := LOWER;
    assert |s| == 26;
    assert forall i :: 0 <= i < 26 ==> s[i] as int == 97 + i;
  }

  /** Table 2 of RFC 4648: the character of value v is the one at position v of the alphabet. */
  lemma DigitIsAlphabet(v: Sextet)
    ensures |UPPER + LOWER + OTHER| == 64
    ensures var d := Digit(v);
            (if d == '+' then '-' else if d == '/' then '_' else d) == (UPPER + LOWER + OTHER)[v]
  {
    UpperCode(if v < 26 then v else 0);
    LowerCode(if 26 <= v < 52 then v - 26 else 0);
    var s := OTHER;
    assert |s| == 12 && forall i :: 0 <= i < 10 ==> s[i] as int == 48 + i;
  }

  /** Three digits as a number, highest first. */
  function Number(x: nat, y: nat, z: nat, base: nat): nat { (x * base + y) * base + z }

  /** A group of the text and the bytes it stands for spell the same number; spare low bits are zero. */
  lemma {:induction false} GroupsSpell(b: seq<Byte>, g: nat)
    requires 3 * g < |b|
    ensures var s, i, j := Sextets(b), 4 * g, 3 * g;
            && (|b| - j >= 3 ==>
                  && i + 4 <= |s|
                  && Number(s[i], s[i + 1], s[i + 2], 64) * 64 + s[i + 3] == Number(b[j], b[j + 1], b[j + 2], 256))
            && (|b| - j == 2 ==>
                  i + 3 == |s| && Number(s[i], s[i + 1], s[i + 2], 64) == Number(0, b[j], b[j + 1], 256) * 4)
            && (|b| - j == 1 ==> i + 2 == |s| && Number(0, s[i], s[i + 1], 64) == Number(0, 0, b[j], 256) * 16)
    decreases g
  {
    if g > 0 {
      GroupsSpell(b[3..], g - 1);
      assert Sextets(b)[4..] == Sextets(b[3..]);
    }
  }

  /** The server's text, character by character: the alphabet at the sextets, whose groups spell the bytes. */
  lemma UrlIsAlphabet(b: seq<Byte>)
    ensures |B64Url(b)| == |Sextets(b)|
    ensures forall i :: 0 <= i < |B64Url(b)| ==> B64Url(b)[i] == (UPPER + LOWER + OTHER)[Sextets(b)[i]]
  {
    UrlIsDigits(b);
    forall v: Sextet { DigitIsAlphabet(v); }
  }

  /** Node passes over characters of neither alphabet and reads nothing behind a '='. */
  lemma {:induction false} NodeIgnores(a: string, c: char, b: string)
    requires '=' !in a
    ensures c == '=' ==> NodeSextets(a + [c] + b) == NodeSextets(a)
    ensures c != '=' && c !in ['+', '/', '-', '_'] && !('A' <= c <= 'Z' || 'a' <= c <= 'z' || '0' <= c <= '9') ==>
              NodeSextets(a + [c] + b) == NodeSextets(a + b)
    decreases |a|
  {
    var s := a + [c] + b;
    if a == "" {
      assert s[1..] == b && a + b == b;
    } else {
      assert s[1..] == a[1..] + [c] + b && (a + b)[1..] == a[1..] + b;
      NodeIgnores(a[1..], c, b);
    }
  }
}
