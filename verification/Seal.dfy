/**
 The sealed mail report (src/mail/seal.rs): a header, nonce and ciphertext laid out to be read
 apart again, and the base64 armour of section 4 of RFC 4648. The cipher is its output's bytes.
 */
module Seal {
  import opened Basics
  import opened AgentIds
  import opened Text

  const MAGIC: Bytes := [83, 65, 77, 82]
  const VERSION: Byte := 1
  const NONCE_BYTES := 24
  const ARMOUR_BEGIN := "-----BEGIN SYSTEM-AGENT REPORT-----"
  const ARMOUR_END := "-----END SYSTEM-AGENT REPORT-----"
  const ARMOUR_COLUMNS := 76

  datatype SealError = IdTooLong | Encrypt

  method Header(id: Bytes) returns (header: Result<Bytes, SealError>)
    ensures header == if |id| < 256 then Ok(MAGIC + [VERSION, |id|] + id) else Err(IdTooLong)
  {
    if |id| >= 256 {
      return Err(IdTooLong);
    }
    var bytes := MAGIC;
    bytes := bytes + [VERSION, |id|];
    bytes := bytes + id;
    header := Ok(bytes);
  }

  /** The sealed bytes, in order. */
  function Layout(id: Bytes, nonce: Bytes, ciphertext: Bytes): Bytes
    requires |id| < 256
  {
    MAGIC + [VERSION, |id|] + id + nonce + ciphertext
  }

  /** Reads a sealed report apart: the id, the nonce and the ciphertext. */
  function Unseal(sealed: Bytes): Option<(Bytes, Bytes, Bytes)> {
    if |sealed| < 6 || sealed[..4] != MAGIC || sealed[4] != VERSION || |sealed| < 6 + sealed[5] + NONCE_BYTES then None
    else
      var at: nat := 6 + sealed[5] as nat;
      Some((sealed[6..at], sealed[at..at + NONCE_BYTES], sealed[at + NONCE_BYTES..]))
  }

  lemma LayoutUnseals(id: Bytes, nonce: Bytes, ciphertext: Bytes)
    requires |id| < 256 && |nonce| == NONCE_BYTES
    ensures Unseal(Layout(id, nonce, ciphertext)) == Some((id, nonce, ciphertext))
  {
    var (sealed, at) := (Layout(id, nonce, ciphertext), 6 + |id|);
    assert sealed[..4] == MAGIC && sealed[4] == VERSION && sealed[5] == |id|;
    assert sealed[6..at] == id && sealed[at..at + NONCE_BYTES] == nonce && sealed[at + NONCE_BYTES..] == ciphertext;
  }

  /** Nothing but a layout is read as one, so its fields are the only ones it can have. */
  lemma UnsealedIsLayout(sealed: Bytes)
    requires Unseal(sealed).Some?
    ensures var (id, nonce, ciphertext) := Unseal(sealed).value;
      |id| < 256 && |nonce| == NONCE_BYTES && sealed == Layout(id, nonce, ciphertext)
  {
    var at: nat := 6 + sealed[5] as nat;
    assert sealed == sealed[..4] + [sealed[4], sealed[5]] + sealed[6..at] + sealed[at..at + NONCE_BYTES] + sealed[at + NONCE_BYTES..];
  }

  /** `encrypted` is what the cipher gave, or `None` when it refused. No agent id is too long. */
  method SealReport(id: Bytes, nonce: Bytes, encrypted: Option<Bytes>) returns (sealed: Result<Bytes, SealError>)
    requires IsAgentId(id) && |nonce| == NONCE_BYTES
    ensures sealed.Ok? <==> encrypted.Some?
    ensures sealed.Ok? ==> Unseal(sealed.value) == Some((id, nonce, encrypted.value))
    ensures sealed.Err? ==> sealed.error == Encrypt
  {
    AcceptedIdsAreStable(id);
    var header := Header(id);
    match encrypted {
      case None =>
        return Err(Encrypt);
      case Some(ciphertext) =>
        var bytes := header.value;
        bytes := bytes + nonce;
        bytes := bytes + ciphertext;
        LayoutUnseals(id, nonce, ciphertext);
        sealed := Ok(bytes);
    }
  }

  // ----- base64 -----

  /** The character of a six-bit value. */
  function Encode6(v: nat): (c: char)
    requires v < 64
  {
    if v < 26 then ('A' as int + v) as char
    else if v < 52 then ('a' as int + v - 26) as char
    else if v < 62 then ('0' as int + v - 52) as char
    else if v == 62 then '+'
    else '/'
  }

  function Decode6(c: char): Option<nat> {
    if 'A' <= c <= 'Z' then Some(c as int - 'A' as int)
    else if 'a' <= c <= 'z' then Some(c as int - 'a' as int + 26)
    else if '0' <= c <= '9' then Some(c as int - '0' as int + 52)
    else if c == '+' then Some(62)
    else if c == '/' then Some(63)
    else None
  }

  lemma Sextets(v: nat, c: char)
    requires v < 64
    ensures Decode6(c) == Some(v) <==> c == Encode6(v)
    ensures Encode6(v) != '=' && Encode6(v) != '-' && Encode6(v) != '\n'
  {
  }

  /** Three bytes as four sextets. */
  function Group(a: Byte, b: Byte, c: Byte): string {
    [Encode6(a / 4), Encode6(a % 4 * 16 + b / 16), Encode6(b % 16 * 4 + c / 64), Encode6(c % 64)]
  }

  function Encode(bytes: Bytes): string {
    if bytes == [] then ""
    else if |bytes| == 1 then Group(bytes[0], 0, 0)[..2] + "=="
    else if |bytes| == 2 then Group(bytes[0], bytes[1], 0)[..3] + "="
    else Group(bytes[0], bytes[1], bytes[2]) + Encode(bytes[3..])
  }

  /** One group of four characters: one to three bytes. Leftover bits must be zero. */
  function DecodeGroup(p: char, q: char, r: char, s: char): Option<Bytes> {
    match (Decode6(p), Decode6(q), Decode6(r), Decode6(s))
    case (Some(w), Some(x), Some(y), Some(z)) => Bytes3(w, x, y, z)
    case (Some(w), Some(x), Some(y), None) => if s == '=' && y % 4 == 0 then Take(Bytes3(w, x, y, 0), 2) else None
    case (Some(w), Some(x), None, None) => if r == '=' && s == '=' && x % 16 == 0 then Take(Bytes3(w, x, 0, 0), 1) else None
    case _ => None
  }

  function Bytes3(w: nat, x: nat, y: nat, z: nat): Option<Bytes> {
    if w < 64 && x < 64 && y < 64 && z < 64 then Some([w * 4 + x / 16, x % 16 * 16 + y / 4, y % 4 * 64 + z]) else None
  }

  function Take(bytes: Option<Bytes>, n: nat): Option<Bytes> {
    if bytes.Some? && n <= |bytes.value| then Some(bytes.value[..n]) else None
  }

  function Decode(s: string): Option<Bytes> {
    if s == "" then Some([])
    else if |s| < 4 then None
    else
      match (DecodeGroup(s[0], s[1], s[2], s[3]), Decode(s[4..]))
      case (Some(first), Some(rest)) => if |first| < 3 && s[4..] != "" then None else Some(first + rest)
      case _ => None
  }

  lemma SextetsGiveBytes(a: Byte, b: Byte, c: Byte)
    ensures Bytes3(a / 4, a % 4 * 16 + b / 16, b % 16 * 4 + c / 64, c % 64) == Some([a, b, c])
  {
    assert (b % 16 * 4 + c / 64) / 4 == b % 16;
    assert (a % 4 * 16 + b / 16) / 16 == a % 4;
  }

  lemma GroupSextets(a: Byte, b: Byte, c: Byte)
    ensures var g := Group(a, b, c);
      && Decode6(g[0]) == Some(a / 4) && Decode6(g[1]) == Some(a % 4 * 16 + b / 16)
      && Decode6(g[2]) == Some(b % 16 * 4 + c / 64) && Decode6(g[3]) == Some(c % 64)
  {
    var g := Group(a, b, c);
    Sextets(a / 4, g[0]);
    Sextets(a % 4 * 16 + b / 16, g[1]);
    Sextets(b % 16 * 4 + c / 64, g[2]);
    Sextets(c % 64, g[3]);
  }

  lemma GroupOf3(a: Byte, b: Byte, c: Byte)
    ensures var g := Group(a, b, c); DecodeGroup(g[0], g[1], g[2], g[3]) == Some([a, b, c])
  {
    GroupSextets(a, b, c);
    SextetsGiveBytes(a, b, c);
  }

  lemma GroupOf2(a: Byte, b: Byte)
    ensures var g := Group(a, b, 0); DecodeGroup(g[0], g[1], g[2], '=') == Some([a, b])
  {
    GroupSextets(a, b, 0);
    SextetsGiveBytes(a, b, 0);
    assert (b % 16 * 4) % 4 == 0 && [a, b, 0][..2] == [a, b];
  }

  lemma GroupOf1(a: Byte)
    ensures var g := Group(a, 0, 0); DecodeGroup(g[0], g[1], '=', '=') == Some([a])
  {
    GroupSextets(a, 0, 0);
    SextetsGiveBytes(a, 0, 0);
    assert (a % 4 * 16) % 16 == 0 && [a, 0, 0][..1] == [a];
  }

  lemma LastGroup(s: string, bytes: Bytes)
    requires |s| == 4 && DecodeGroup(s[0], s[1], s[2], s[3]) == Some(bytes)
    ensures Decode(s) == Some(bytes)
  {
    assert s[4..] == "" && bytes + [] == bytes;
  }

  lemma RoundTripOf1(a: Byte)
    ensures Decode(Encode([a])) == Some([a])
  {
    GroupOf1(a);
    LastGroup(Encode([a]), [a]);
  }

  lemma RoundTripOf2(a: Byte, b: Byte)
    ensures Decode(Encode([a, b])) == Some([a, b])
  {
    GroupOf2(a, b);
    LastGroup(Encode([a, b]), [a, b]);
  }

  lemma FirstGroup(a: Byte, b: Byte, c: Byte, s: string, rest: Bytes)
    requires Decode(s) == Some(rest)
    ensures Decode(Group(a, b, c) + s) == Some([a, b, c] + rest)
  {
    GroupOf3(a, b, c);
    assert (Group(a, b, c) + s)[4..] == s;
  }

  lemma RoundTripShort(bytes: Bytes)
    requires 1 <= |bytes| <= 2
    ensures Decode(Encode(bytes)) == Some(bytes)
  {
    if |bytes| == 1 {
      assert bytes == [bytes[0]];
      RoundTripOf1(bytes[0]);
    } else {
      assert bytes == [bytes[0], bytes[1]];
      RoundTripOf2(bytes[0], bytes[1]);
    }
  }

  lemma EncodeFrom3(a: Byte, b: Byte, c: Byte, rest: Bytes)
    ensures Encode([a, b, c] + rest) == Group(a, b, c) + Encode(rest)
  {
    assert ([a, b, c] + rest)[3..] == rest;
  }

  lemma RoundTripFrom3(a: Byte, b: Byte, c: Byte, rest: Bytes)
    requires Decode(Encode(rest)) == Some(rest)
    ensures Decode(Encode([a, b, c] + rest)) == Some([a, b, c] + rest)
  {
    EncodeFrom3(a, b, c, rest);
    FirstGroup(a, b, c, Encode(rest), rest);
  }

  lemma {:induction false} Base64RoundTrip(bytes: Bytes)
    ensures Decode(Encode(bytes)) == Some(bytes)
  {
    if |bytes| > 2 {
      var rest := bytes[3..];
      assert bytes == [bytes[0], bytes[1], bytes[2]] + rest;
      Base64RoundTrip(rest);
      RoundTripFrom3(bytes[0], bytes[1], bytes[2], rest);
    } else if bytes != [] {
      RoundTripShort(bytes);
    }
  }

  /** The alphabet of section 4 of RFC 4648: A to Z, a to z, 0 to 9, plus and slash. */
  lemma AlphabetIsStandard(v: nat)
    requires v < 64
    ensures Encode6(0) == 'A' && Encode6(26) == 'a' && Encode6(52) == '0' && Encode6(62) == '+' && Encode6(63) == '/'
    ensures v !in {25, 51, 61, 62, 63} ==> Encode6(v + 1) as int == Encode6(v) as int + 1
  {
  }

  lemma SameDigits(p: nat, u: nat, q: nat, v: nat)
    requires u < 64 && v < 64 && p * 64 + u == q * 64 + v
    ensures p == q && u == v
  {
  }

  lemma SextetsHoldBits(a: Byte, b: Byte, c: Byte)
    ensures ((a / 4 * 64 + (a % 4 * 16 + b / 16)) * 64 + (b % 16 * 4 + c / 64)) * 64 + c % 64 == (a * 256 + b) * 256 + c
  {
    assert a == a / 4 * 4 + a % 4 && b == b / 16 * 16 + b % 16 && c == c / 64 * 64 + c % 64;
  }

  /** Three bytes are written as the four sextets of their 24 bits, most significant first. */
  lemma EncodesBits(a: Byte, b: Byte, c: Byte, rest: Bytes, w: nat, x: nat, y: nat, z: nat)
    requires w < 64 && x < 64 && y < 64 && z < 64
    requires ((w * 64 + x) * 64 + y) * 64 + z == (a * 256 + b) * 256 + c
    ensures Encode([a, b, c] + rest) == [Encode6(w), Encode6(x), Encode6(y), Encode6(z)] + Encode(rest)
  {
    EncodeFrom3(a, b, c, rest);
    SextetsHoldBits(a, b, c);
    var (x', y', z') := (a % 4 * 16 + b / 16, b % 16 * 4 + c / 64, c % 64);
    SameDigits((w * 64 + x) * 64 + y, z, (a / 4 * 64 + x') * 64 + y', z');
    SameDigits(w * 64 + x, y, a / 4 * 64 + x', y');
    SameDigits(w, x, a / 4, x');
  }

  lemma GroupIsSextets(a: Byte, b: Byte)
    ensures Encode([a]) == [Encode6(a / 4), Encode6(a % 4 * 16), '=', '=']
    ensures Encode([a, b]) == [Encode6(a / 4), Encode6(a % 4 * 16 + b / 16), Encode6(b % 16 * 4), '=']
  {
  }

  /** One byte left is padded with zero bits to two sextets, and with `=` to four characters. */
  lemma EncodesLastByte(a: Byte, w: nat, x: nat)
    requires w < 64 && x < 64 && w * 64 + x == a * 16
    ensures Encode([a]) == [Encode6(w), Encode6(x), '=', '=']
  {
    GroupIsSextets(a, 0);
    SextetsHoldBits(a, 0, 0);
    SameDigits(w, x, a / 4, a % 4 * 16);
  }

  /** And two bytes to three. */
  lemma EncodesLastTwo(a: Byte, b: Byte, w: nat, x: nat, y: nat)
    requires w < 64 && x < 64 && y < 64 && (w * 64 + x) * 64 + y == (a * 256 + b) * 4
    ensures Encode([a, b]) == [Encode6(w), Encode6(x), Encode6(y), '=']
  {
    GroupIsSextets(a, b);
    SextetsHoldBits(a, b, 0);
    var (x', y') := (a % 4 * 16 + b / 16, b % 16 * 4);
    SameDigits(w * 64 + x, y, a / 4 * 64 + x', y');
    SameDigits(w, x, a / 4, x');
  }

  /** Neither character that could start or end an armour line. */
  ghost predicate Plain(s: string) {
    '-' !in s && '\n' !in s
  }

  lemma GroupIsPlain(a: Byte, b: Byte, c: Byte)
    ensures Plain(Group(a, b, c))
  {
    Sextets(a / 4, Encode6(a / 4));
    Sextets(a % 4 * 16 + b / 16, Encode6(a % 4 * 16 + b / 16));
    Sextets(b % 16 * 4 + c / 64, Encode6(b % 16 * 4 + c / 64));
    Sextets(c % 64, Encode6(c % 64));
  }

  lemma PlainJoin(s: string, t: string)
    requires Plain(s) && Plain(t)
    ensures Plain(s + t)
  {
  }

  lemma PlainPrefix(s: string, n: nat)
    requires Plain(s) && n <= |s|
    ensures Plain(s[..n])
  {
  }

  lemma {:induction false} EncodedIsPlain(bytes: Bytes)
    ensures Plain(Encode(bytes))
  {
    if |bytes| == 1 {
      GroupIsPlain(bytes[0], 0, 0);
      PlainPrefix(Group(bytes[0], 0, 0), 2);
      PlainJoin(Group(bytes[0], 0, 0)[..2], "==");
    } else if |bytes| == 2 {
      GroupIsPlain(bytes[0], bytes[1], 0);
      PlainPrefix(Group(bytes[0], bytes[1], 0), 3);
      PlainJoin(Group(bytes[0], bytes[1], 0)[..3], "=");
    } else if bytes != [] {
      GroupIsPlain(bytes[0], bytes[1], bytes[2]);
      EncodedIsPlain(bytes[3..]);
      PlainJoin(Group(bytes[0], bytes[1], bytes[2]), Encode(bytes[3..]));
    }
  }

  // ----- armour -----

  /** `s` in lines of `columns`, the last one shorter if need be. */
  function Chunks(s: string, columns: nat): seq<string>
    requires columns > 0
  {
    if s == "" then []
    else if |s| <= columns then [s]
    else [s[..columns]] + Chunks(s[columns..], columns)
  }

  function Concat(lines: seq<string>): string {
    if lines == [] then "" else lines[0] + Concat(lines[1..])
  }

  function BodyLines(sealed: Bytes): seq<string> {
    Chunks(Encode(sealed), ARMOUR_COLUMNS)
  }

  function Armour(sealed: Bytes): string {
    Join('\n', [ARMOUR_BEGIN] + BodyLines(sealed) + [ARMOUR_END])
  }

  /** Reads an armoured text back. */
  function Dearmour(text: string): Option<Bytes> {
    var lines := Split('\n', text);
    if |lines| < 2 || lines[0] != ARMOUR_BEGIN || lines[|lines| - 1] != ARMOUR_END then None
    else Decode(Concat(lines[1..|lines| - 1]))
  }

  lemma {:induction false} ChunksAreLines(s: string, columns: nat)
    requires columns > 0
    ensures var lines := Chunks(s, columns);
      && Concat(lines) == s
      && (forall k :: 0 <= k < |lines| ==> 0 < |lines[k]| <= columns && (k < |lines| - 1 ==> |lines[k]| == columns))
      && (Plain(s) ==> forall line :: line in lines ==> Plain(line))
  {
    if |s| > columns {
      ChunksAreLines(s[columns..], columns);
      assert s == s[..columns] + s[columns..];
    } else if s != "" {
      assert Concat([s]) == s + Concat([]);
    }
  }

  lemma PlainIsNoMarker(line: string)
    requires Plain(line)
    ensures line != ARMOUR_BEGIN && line != ARMOUR_END
  {
    assert ARMOUR_END[0] == '-' && ARMOUR_BEGIN[0] == '-';
  }

  lemma PlainChunks(s: string, columns: nat, line: string)
    requires columns > 0 && Plain(s) && line in Chunks(s, columns)
    ensures Plain(line) && 0 < |line| <= columns
  {
    ChunksAreLines(s, columns);
  }

  /** Every body line but the last is 76 columns, the last 1 to 76, and none is the end line. */
  lemma BodyLinesFit(sealed: Bytes)
    ensures var lines := BodyLines(sealed);
      && (forall k :: 0 <= k < |lines| - 1 ==> |lines[k]| == ARMOUR_COLUMNS)
      && (forall line :: line in lines ==> 0 < |line| <= ARMOUR_COLUMNS && line != ARMOUR_END && line != ARMOUR_BEGIN && Plain(line))
      && (lines == [] <==> sealed == [])
  {
    EncodedIsPlain(sealed);
    ChunksAreLines(Encode(sealed), ARMOUR_COLUMNS);
    forall line | line in BodyLines(sealed)
      ensures 0 < |line| <= ARMOUR_COLUMNS && line != ARMOUR_END && line != ARMOUR_BEGIN && Plain(line)
    {
      PlainChunks(Encode(sealed), ARMOUR_COLUMNS, line);
      PlainIsNoMarker(line);
    }
  }

  lemma MarkersAreOneLine()
    ensures '\n' !in ARMOUR_BEGIN && '\n' !in ARMOUR_END
  {
  }

  lemma SplitsIntoLines(first: string, body: seq<string>, last: string)
    requires '\n' !in first && '\n' !in last && forall line :: line in body ==> Plain(line)
    ensures Split('\n', Join('\n', [first] + body + [last])) == [first] + body + [last]
  {
    SplitInvertsJoin('\n', [first] + body + [last]);
  }

  /** Armour gives back the bytes it was made of, for every byte string. */
  lemma ArmourRoundTrip(sealed: Bytes)
    ensures Dearmour(Armour(sealed)) == Some(sealed)
  {
    var body := BodyLines(sealed);
    MarkersAreOneLine();
    BodyLinesFit(sealed);
    SplitsIntoLines(ARMOUR_BEGIN, body, ARMOUR_END);
    DearmourLines(Armour(sealed), body);
    ChunksAreLines(Encode(sealed), ARMOUR_COLUMNS);
    Base64RoundTrip(sealed);
  }

  lemma DearmourLines(text: string, body: seq<string>)
    requires Split('\n', text) == [ARMOUR_BEGIN] + body + [ARMOUR_END]
    ensures Dearmour(text) == Decode(Concat(body))
  {
    var lines := Split('\n', text);
    assert lines[1..|lines| - 1] == body;
  }
}
