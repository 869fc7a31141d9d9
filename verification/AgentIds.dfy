/**
 The push system id and the file that keeps it (src/push/identity.rs): the rule an id follows,
 and how the file's bytes are read. Text is its UTF-8 bytes.
 */
module AgentIds {
  import opened Basics

  type Byte = b: int | 0 <= b < 256
  type Bytes = seq<Byte>

  const MAX_AGENT_ID_BYTES := 255
  const NEWLINE: Byte := 10
  const DOT: Byte := 46

  datatype IdRule = Empty | TooLong | DotSegment

  datatype IdError =
    | NotUtf8
    | Invalid(rule: IdRule)
    | Unreadable
    | Unwritable
    | NoHardLinks

  // ----- UTF-8, as the Unicode standard's table of well-formed sequences gives it -----

  predicate Continues(s: Bytes, at: nat) {
    at < |s| && 0x80 <= s[at] <= 0xBF
  }

  /** The bytes of the well-formed character at the front of `s`, or 0 when there is none. */
  function CharLength(s: Bytes): (n: nat)
    ensures n <= |s|
  {
    if s == [] then 0
    else if s[0] < 0x80 then 1
    else if 0xC2 <= s[0] <= 0xDF then if Continues(s, 1) then 2 else 0
    else if 0xE0 <= s[0] <= 0xEF then
      if Continues(s, 1) && Continues(s, 2) && (s[0] == 0xE0 ==> s[1] >= 0xA0) && (s[0] == 0xED ==> s[1] <= 0x9F) then 3 else 0
    else if 0xF0 <= s[0] <= 0xF4 then
      if Continues(s, 1) && Continues(s, 2) && Continues(s, 3) && (s[0] == 0xF0 ==> s[1] >= 0x90) && (s[0] == 0xF4 ==> s[1] <= 0x8F)
      then 4 else 0
    else 0
  }

  predicate Utf8(s: Bytes)
    decreases |s|
  {
    s == [] || (CharLength(s) > 0 && Utf8(s[CharLength(s)..]))
  }

  lemma {:induction false} Utf8Concat(s: Bytes, t: Bytes)
    requires Utf8(s) && Utf8(t)
    ensures Utf8(s + t)
    decreases |s|
  {
    if s == [] {
      assert s + t == t;
    } else {
      var n := CharLength(s);
      assert CharLength(s + t) == n;
      assert (s + t)[n..] == s[n..] + t;
      Utf8Concat(s[n..], t);
    }
  }

  /** An ASCII byte at the end is a character of its own. */
  lemma {:induction false} Utf8WithoutLast(s: Bytes, last: Byte)
    requires last < 0x80 && Utf8(s + [last])
    ensures Utf8(s)
    decreases |s|
  {
    if s != [] {
      var n := CharLength(s + [last]);
      assert n <= |s|;
      assert CharLength(s) == n;
      assert (s + [last])[n..] == s[n..] + [last];
      Utf8WithoutLast(s[n..], last);
    }
  }

  // ----- the id's rule -----

  predicate IsSpace(b: Byte) {
    b == 0x20 || b == 0x09 || b == 0x0A || b == 0x0C || b == 0x0D
  }

  function TrimStart(s: Bytes): Bytes {
    if s != [] && IsSpace(s[0]) then TrimStart(s[1..]) else s
  }

  function TrimEnd(s: Bytes): Bytes {
    if s != [] && IsSpace(s[|s| - 1]) then TrimEnd(s[..|s| - 1]) else s
  }

  function Trim(s: Bytes): Bytes {
    TrimEnd(TrimStart(s))
  }

  /** `AgentId::try_from`: the rule, after trimming ASCII whitespace. */
  function TryFrom(text: Bytes): Result<Bytes, IdRule> {
    var id := Trim(text);
    if id == [] then Err(Empty)
    else if id == [DOT] || id == [DOT, DOT] then Err(DotSegment)
    else if |id| > MAX_AGENT_ID_BYTES then Err(TooLong)
    else Ok(id)
  }

  function ParseIdFile(bytes: Bytes): Result<Bytes, IdError> {
    if !Utf8(bytes) then Err(NotUtf8)
    else
      match TryFrom(bytes)
      case Ok(id) => Ok(id)
      case Err(rule) => Err(Invalid(rule))
  }

  /** What an id file holds for `id`. */
  function Line(id: Bytes): Bytes {
    id + [NEWLINE]
  }

  /** What every `AgentId` is: the values `TryFrom` lets through. */
  ghost predicate IsAgentId(id: Bytes) {
    Utf8(id) && TryFrom(id) == Ok(id)
  }

  lemma {:induction false} TrimStartKeepsUtf8(s: Bytes)
    requires Utf8(s)
    ensures Utf8(TrimStart(s)) && (TrimStart(s) == [] || !IsSpace(TrimStart(s)[0]))
  {
    if s != [] && IsSpace(s[0]) {
      TrimStartKeepsUtf8(s[1..]);
    }
  }

  lemma {:induction false} TrimEndKeepsUtf8(s: Bytes)
    requires Utf8(s) && (s == [] || !IsSpace(s[0]))
    ensures var t := TrimEnd(s);
      Utf8(t) && (t == [] || (!IsSpace(t[0]) && !IsSpace(t[|t| - 1])))
  {
    if s != [] && IsSpace(s[|s| - 1]) {
      assert s == s[..|s| - 1] + [s[|s| - 1]];
      Utf8WithoutLast(s[..|s| - 1], s[|s| - 1]);
      TrimEndKeepsUtf8(s[..|s| - 1]);
    }
  }

  /** An accepted id is one for good: between 1 and 255 bytes, and accepted unchanged again. */
  lemma AcceptedIdsAreStable(text: Bytes)
    requires Utf8(text) && TryFrom(text).Ok?
    ensures IsAgentId(TryFrom(text).value) && 1 <= |TryFrom(text).value| <= MAX_AGENT_ID_BYTES
  {
    TrimStartKeepsUtf8(text);
    TrimEndKeepsUtf8(TrimStart(text));
  }

  lemma {:induction false} TrimmedEnds(s: Bytes)
    ensures |TrimStart(s)| <= |s| && |TrimEnd(s)| <= |s|
    ensures |TrimStart(s)| == |s| ==> TrimStart(s) == s
    ensures |TrimEnd(s)| == |s| ==> TrimEnd(s) == s
    ensures TrimStart(s) == s ==> s == [] || !IsSpace(s[0])
    ensures TrimEnd(s) == s ==> s == [] || !IsSpace(s[|s| - 1])
  {
    if s != [] {
      TrimmedEnds(s[1..]);
      TrimmedEnds(s[..|s| - 1]);
    }
  }

  lemma LineIsUtf8(id: Bytes)
    requires Utf8(id)
    ensures Utf8(Line(id))
  {
    assert Utf8([NEWLINE]) by { assert [NEWLINE][1..] == []; }
    Utf8Concat(id, [NEWLINE]);
  }

  lemma LineTrims(id: Bytes)
    requires id != [] && Trim(id) == id
    ensures Trim(Line(id)) == id
  {
    TrimmedEnds(id);
    TrimmedEnds(TrimStart(id));
    assert TrimStart(Line(id)) == Line(id);
    assert Line(id)[..|id|] == id && TrimEnd(id) == id;
  }

  /** Reading back the line written for an id gives that id. */
  lemma IdFileRoundTrip(id: Bytes)
    requires IsAgentId(id)
    ensures ParseIdFile(Line(id)) == Ok(id)
  {
    LineIsUtf8(id);
    LineTrims(id);
  }

  // ----- exactly which texts are ids -----

  predicate AllSpace(s: Bytes) {
    forall k :: 0 <= k < |s| ==> IsSpace(s[k])
  }

  /** `id` is `text` without the white space around it. */
  ghost predicate IsMiddle(text: Bytes, before: Bytes, id: Bytes, after: Bytes) {
    && text == before + id + after && AllSpace(before) && AllSpace(after)
    && (id == [] || (!IsSpace(id[0]) && !IsSpace(id[|id| - 1])))
  }

  lemma {:induction false} TrimStartDrops(before: Bytes, rest: Bytes)
    requires AllSpace(before) && (rest == [] || !IsSpace(rest[0]))
    ensures TrimStart(before + rest) == rest
  {
    if before == [] {
      assert before + rest == rest;
    } else {
      TrimStartDrops(before[1..], rest);
      assert (before + rest)[1..] == before[1..] + rest;
    }
  }

  lemma {:induction false} TrimEndDrops(rest: Bytes, after: Bytes)
    requires AllSpace(after) && (rest == [] || !IsSpace(rest[|rest| - 1]))
    ensures TrimEnd(rest + after) == rest
  {
    var s := rest + after;
    if after == [] {
      assert s == rest;
    } else {
      TrimEndDrops(rest, after[..|after| - 1]);
      assert s[..|s| - 1] == rest + after[..|after| - 1];
    }
  }

  lemma TrimIsTheMiddle(text: Bytes, before: Bytes, id: Bytes, after: Bytes)
    requires IsMiddle(text, before, id, after)
    ensures Trim(text) == id
  {
    if id == [] {
      assert text == (before + after) + [];
      TrimStartDrops(before + after, []);
    } else {
      assert text == before + (id + after);
      TrimStartDrops(before, id + after);
      TrimEndDrops(id, after);
    }
  }

  lemma {:induction false} TrimStartSplits(s: Bytes) returns (before: Bytes)
    ensures s == before + TrimStart(s) && AllSpace(before)
    ensures TrimStart(s) == [] || !IsSpace(TrimStart(s)[0])
  {
    before := [];
    if s != [] && IsSpace(s[0]) {
      before := TrimStartSplits(s[1..]);
      before := [s[0]] + before;
      assert s == [s[0]] + s[1..];
    }
  }

  lemma {:induction false} TrimEndSplits(s: Bytes) returns (after: Bytes)
    requires s == [] || !IsSpace(s[0])
    ensures s == TrimEnd(s) + after && AllSpace(after)
    ensures TrimEnd(s) == [] || (!IsSpace(TrimEnd(s)[0]) && !IsSpace(TrimEnd(s)[|TrimEnd(s)| - 1]))
  {
    after := [];
    if s != [] && IsSpace(s[|s| - 1]) {
      after := TrimEndSplits(s[..|s| - 1]);
      after := after + [s[|s| - 1]];
      assert s == s[..|s| - 1] + [s[|s| - 1]];
    }
  }

  lemma TrimmedIsMiddle(text: Bytes) returns (before: Bytes, after: Bytes)
    ensures IsMiddle(text, before, Trim(text), after)
  {
    before := TrimStartSplits(text);
    after := TrimEndSplits(TrimStart(text));
  }

  /** The hub's rule for an id. */
  predicate KeepsTheRule(id: Bytes) {
    1 <= |id| <= MAX_AGENT_ID_BYTES && id != [DOT] && id != [DOT, DOT]
  }

  /** A text gives an id exactly when, without the white space around it, it is that id and
      keeps the rule. */
  lemma AcceptedIff(text: Bytes, id: Bytes)
    ensures TryFrom(text) == Ok(id) <==> KeepsTheRule(id) && exists before, after :: IsMiddle(text, before, id, after)
  {
    var before, after := TrimmedIsMiddle(text);
    if exists b, a :: IsMiddle(text, b, id, a) {
      var b, a :| IsMiddle(text, b, id, a);
      TrimIsTheMiddle(text, b, id, a);
    }
  }

  ghost predicate HasMiddle(text: Bytes, id: Bytes) {
    exists before, after :: IsMiddle(text, before, id, after)
  }

  /** A text has one middle, the part trimming leaves. */
  lemma MiddleIsTrimmed(text: Bytes, id: Bytes)
    ensures HasMiddle(text, id) <==> id == Trim(text)
  {
    var before, after := TrimmedIsMiddle(text);
    if HasMiddle(text, id) {
      var b, a :| IsMiddle(text, b, id, a);
      TrimIsTheMiddle(text, b, id, a);
    }
  }

  lemma NothingLeftOfSpace(text: Bytes)
    ensures Trim(text) == [] <==> AllSpace(text)
  {
    var before, after := TrimmedIsMiddle(text);
    if AllSpace(text) {
      assert IsMiddle(text, text, [], []);
      TrimIsTheMiddle(text, text, [], []);
    }
  }

  /** What each refusal is for: white space alone, a dot segment between white space, or more
      than 255 bytes of it. */
  lemma RefusedFor(text: Bytes)
    ensures TryFrom(text) == Err(Empty) <==> AllSpace(text)
    ensures TryFrom(text) == Err(DotSegment) <==> HasMiddle(text, [DOT]) || HasMiddle(text, [DOT, DOT])
    ensures TryFrom(text) == Err(TooLong) <==> exists id :: HasMiddle(text, id) && |id| > MAX_AGENT_ID_BYTES
  {
    NothingLeftOfSpace(text);
    forall id ensures HasMiddle(text, id) <==> id == Trim(text) {
      MiddleIsTrimmed(text, id);
    }
    assert HasMiddle(text, Trim(text));
  }

  /** What an id file's bytes give: an id exactly as their text does; else not UTF-8, whatever else is
      wrong with them; else the rule the text broke. */
  lemma IdFileParsesAs(bytes: Bytes)
    ensures ParseIdFile(bytes) == Err(NotUtf8) <==> !Utf8(bytes)
    ensures forall id :: ParseIdFile(bytes) == Ok(id) <==> Utf8(bytes) && KeepsTheRule(id) && HasMiddle(bytes, id)
    ensures forall rule :: ParseIdFile(bytes) == Err(Invalid(rule)) <==> Utf8(bytes) && TryFrom(bytes) == Err(rule)
  {
    forall id ensures TryFrom(bytes) == Ok(id) <==> KeepsTheRule(id) && HasMiddle(bytes, id) {
      AcceptedIff(bytes, id);
    }
  }
}
