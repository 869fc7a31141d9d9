/**
 The mountinfo escapes and the cpuset list (src/environment/cgroup.rs), each read back from what
 the kernel writes.
 */
module Mountinfo {
  import opened Basics
  import opened Text
  import opened Decimal

  // ----- octal escapes -----

  predicate IsOctal(c: char) {
    '0' <= c <= '7'
  }

  function OctalValue(c: char): nat
    requires IsOctal(c)
  {
    c as int - '0' as int
  }

  /** `u8::from_str_radix` of three characters in base 8: a leading `+` counts, 256 and up don't. */
  function OctalByte(t: string): Option<nat>
    requires |t| == 3
  {
    if !IsOctal(t[1]) || !IsOctal(t[2]) then None
    else
      var low := OctalValue(t[1]) * 8 + OctalValue(t[2]);
      if t[0] == '+' then Some(low)
      else if IsOctal(t[0]) && OctalValue(t[0]) * 64 + low < 256 then Some(OctalValue(t[0]) * 64 + low)
      else None
  }

  /** What the characters after a backslash decode to, if they do. */
  function EscapeAt(s: string): Option<nat> {
    if |s| < 4 then None else OctalByte(s[1..4])
  }

  function Unescaped(s: string): string
    decreases |s|
  {
    if s == "" then ""
    else if s[0] != '\\' then [s[0]] + Unescaped(s[1..])
    else
      match EscapeAt(s)
      case Some(byte) => [ByteChar(byte)] + Unescaped(s[4..])
      case None => "\\" + Unescaped(s[1..])
  }

  function ByteChar(byte: nat): char {
    if byte < 256 then byte as char else ' '
  }

  function IndexOf(c: char, s: string): (at: nat)
    ensures at <= |s|
    ensures at < |s| ==> s[at] == c
    ensures forall k :: 0 <= k < at ==> s[k] != c
  {
    if s == "" || s[0] == c then 0 else 1 + IndexOf(c, s[1..])
  }

  lemma {:induction false} UnescapedPlain(s: string, rest: string)
    requires '\\' !in s
    ensures Unescaped(s + rest) == s + Unescaped(rest)
  {
    if s == "" {
      assert s + rest == rest;
    } else {
      UnescapedPlain(s[1..], rest);
      assert (s + rest)[1..] == s[1..] + rest;
    }
  }

  /** What is decoded so far, when a piece has been read off the front of `rest`. */
  lemma TakePiece(out: string, rest: string, piece: string, tail: string)
    requires Unescaped(rest) == piece + Unescaped(tail)
    ensures out + piece + Unescaped(tail) == out + Unescaped(rest)
  {
  }

  method UnescapeMountinfo(field: string) returns (out: string)
    ensures out == Unescaped(field)
  {
    out := "";
    var rest := field;
    var at := IndexOf('\\', rest);
    while at < |rest|
      invariant at == IndexOf('\\', rest)
      invariant out + Unescaped(rest) == Unescaped(field)
      decreases |rest|
    {
      var plain, escaped := rest[..at], rest[at..];
      UnescapedPlain(plain, escaped);
      assert plain + escaped == rest;
      TakePiece(out, rest, plain, escaped);
      out := out + plain;
      match EscapeAt(escaped) {
        case Some(byte) =>
          TakePiece(out, escaped, [ByteChar(byte)], escaped[4..]);
          out, rest := out + [ByteChar(byte)], escaped[4..];
        case None =>
          TakePiece(out, escaped, "\\", escaped[1..]);
          out, rest := out + "\\", escaped[1..];
      }
      at := IndexOf('\\', rest);
    }
    UnescapedPlain(rest, "");
    assert rest + "" == rest;
    out := out + rest;
  }

  /** How the kernel writes a field: space, tab, newline and backslash in three octal digits. */
  function KernelEscape(s: string): string {
    if s == "" then "" else EscapeChar(s[0]) + KernelEscape(s[1..])
  }

  function EscapeChar(c: char): string {
    if c == ' ' then "\\040"
    else if c == '\t' then "\\011"
    else if c == '\n' then "\\012"
    else if c == '\\' then "\\134"
    else [c]
  }

  lemma EscapeDecodes(c: char, rest: string)
    ensures Unescaped(EscapeChar(c) + rest) == [c] + Unescaped(rest)
  {
    var e := EscapeChar(c);
    var s := e + rest;
    if c in [' ', '\t', '\n', '\\'] {
      assert s[1..4] == e[1..4] && s[4..] == rest;
    } else {
      assert s[1..] == rest;
    }
  }

  /** Every field the kernel can write decodes to what it stands for. */
  lemma {:induction false} UnescapeInvertsKernel(s: string)
    ensures Unescaped(KernelEscape(s)) == s
  {
    if s != "" {
      EscapeDecodes(s[0], KernelEscape(s[1..]));
      UnescapeInvertsKernel(s[1..]);
    }
  }

  /** A text in which no backslash starts a full escape is left as it is. */
  lemma {:induction false} MalformedEscapesStay(s: string)
    requires forall k :: 0 <= k < |s| && s[k] == '\\' ==> EscapeAt(s[k..]).None?
    ensures Unescaped(s) == s
  {
    if s != "" {
      assert s[0..] == s;
      forall k | 0 <= k < |s[1..]| && s[1..][k] == '\\' ensures EscapeAt(s[1..][k..]).None? {
        assert s[1..][k..] == s[k + 1..];
      }
      MalformedEscapesStay(s[1..]);
      assert s == [s[0]] + s[1..];
    }
  }

  function Octal(n: nat): char
    requires n < 8
  {
    (n + '0' as int) as char
  }

  /** Three octal digits are a byte up to 0377 and stay as they are past it; a plus sign and two
      digits are one too. */
  lemma OctalEscapesDecode(a: nat, b: nat, c: nat, rest: string)
    requires a < 8 && b < 8 && c < 8
    ensures var s := "\\" + [Octal(a), Octal(b), Octal(c)];
      Unescaped(s + rest) == if a < 4 then [(a * 64 + b * 8 + c) as char] + Unescaped(rest) else s + Unescaped(rest)
    ensures Unescaped("\\+" + [Octal(b), Octal(c)] + rest) == [(b * 8 + c) as char] + Unescaped(rest)
  {
    var digits := [Octal(a), Octal(b), Octal(c)];
    var s := "\\" + digits;
    assert (s + rest)[1..4] == digits && (s + rest)[4..] == rest && (s + rest)[1..] == digits + rest;
    UnescapedPlain(digits, rest);
    var plus := ['+', Octal(b), Octal(c)];
    var t := "\\+" + [Octal(b), Octal(c)] + rest;
    assert t[1..4] == plus && t[4..] == rest;
  }

  // ----- cpuset lists -----

  const U64_MAX: nat := 0xFFFF_FFFF_FFFF_FFFF
  type U64 = n: nat | n <= U64_MAX

  /** Addition in a build without overflow checks: one past the type's largest is 0. */
  function WrappingAdd(a: U64, b: U64): U64 {
    if a + b <= U64_MAX then a + b else a + b - U64_MAX - 1
  }

  /** `str::parse::<u64>`: digits, with a leading `+` allowed, up to the type's largest. */
  function ParseU64(s: string): Option<U64> {
    var digits := if s != "" && s[0] == '+' then s[1..] else s;
    if digits != "" && AllDigits(digits) && Value(digits) <= U64_MAX then Some(Value(digits)) else None
  }

  /** `split_once('-')`, or the whole entry twice. */
  function EntryEnds(entry: string): (string, string) {
    var at := IndexOf('-', entry);
    if at < |entry| then (entry[..at], entry[at + 1..]) else (entry, entry)
  }

  function LengthFrom(first: Option<U64>, last: Option<U64>): Option<U64> {
    match (first, last)
    case (Some(a), Some(b)) => if a <= b then Some(WrappingAdd(b - a, 1)) else None
    case _ => None
  }

  /** How many CPUs one entry (`3` or `0-3`) names. */
  function RangeLength(entry: string): Option<U64> {
    LengthFrom(ParseU64(EntryEnds(entry).0), ParseU64(EntryEnds(entry).1))
  }

  function Each(f: string -> Option<U64>, entries: seq<string>): seq<Option<U64>> {
    if entries == [] then [] else [f(entries[0])] + Each(f, entries[1..])
  }

  /** Their sum, or `None` when any is. */
  function SumAll(lengths: seq<Option<U64>>): Option<U64> {
    if lengths == [] then Some(0)
    else
      match (lengths[0], SumAll(lengths[1..]))
      case (Some(n), Some(rest)) => Some(WrappingAdd(n, rest))
      case _ => None
  }

  predicate IsWhite(c: char) {
    c == ' ' || '\t' <= c <= '\r'
  }

  function Trim(s: string): string {
    if s != "" && IsWhite(s[0]) then Trim(s[1..])
    else if s != "" && IsWhite(s[|s| - 1]) then Trim(s[..|s| - 1])
    else s
  }

  /** `cpuset.cpus.effective`: how many CPUs it lists. */
  function ParseCpuset(content: string): Option<U64> {
    match SumAll(Each(RangeLength, Split(',', Trim(content))))
    case Some(count) => if count > 0 then Some(count) else None
    case None => None
  }

  datatype Range = Range(first: nat, last: nat)

  function PrintRange(r: Range): string {
    if r.first == r.last then Digits(r.first) else Digits(r.first) + "-" + Digits(r.last)
  }

  function PrintRanges(ranges: seq<Range>): seq<string> {
    if ranges == [] then [] else [PrintRange(ranges[0])] + PrintRanges(ranges[1..])
  }

  /** How the kernel writes a CPU list. */
  function PrintCpuset(ranges: seq<Range>): string {
    Join(',', PrintRanges(ranges)) + "\n"
  }

  /** Ascending and disjoint, each within u64. */
  ghost predicate IsCpuList(ranges: seq<Range>) {
    && (forall k :: 0 <= k < |ranges| ==> ranges[k].first <= ranges[k].last <= U64_MAX)
    && (forall j, k :: 0 <= j < k < |ranges| ==> ranges[j].last < ranges[k].first)
  }

  predicate Names(r: Range, c: nat) {
    r.first <= c <= r.last
  }

  function Cpus(r: Range): set<nat> {
    set c: nat | c <= r.last && Names(r, c)
  }

  /** Every CPU the list names. */
  function AllCpus(ranges: seq<Range>): set<nat> {
    if ranges == [] then {} else Cpus(ranges[0]) + AllCpus(ranges[1..])
  }

  lemma {:induction false} CpusCount(r: Range)
    requires r.first <= r.last
    ensures |Cpus(r)| == r.last - r.first + 1
    decreases r.last
  {
    if r.first == r.last {
      assert Cpus(r) == {r.first};
    } else {
      CpusCount(Range(r.first, r.last - 1));
      assert Cpus(r) == Cpus(Range(r.first, r.last - 1)) + {r.last};
    }
  }

  lemma {:induction false} AllCpusAreListed(ranges: seq<Range>)
    ensures forall c: nat :: c in AllCpus(ranges) <==> exists k :: 0 <= k < |ranges| && Names(ranges[k], c)
  {
    if ranges != [] {
      AllCpusAreListed(ranges[1..]);
      forall c: nat | exists k :: 0 <= k < |ranges| && Names(ranges[k], c) ensures c in AllCpus(ranges) {
        var k :| 0 <= k < |ranges| && Names(ranges[k], c);
        if k > 0 { assert ranges[1..][k - 1] == ranges[k]; }
      }
    }
  }

  /** The length an entry for `r` has. */
  function RangeCount(r: Range): U64 {
    if r.first <= r.last <= U64_MAX then WrappingAdd(r.last - r.first, 1) else 0
  }

  /** A list entry's text: digits and dashes, so neither white space nor a comma. */
  ghost predicate EntryText(s: string) {
    s != "" && forall k :: 0 <= k < |s| ==> IsDigit(s[k]) || s[k] == '-'
  }

  lemma DigitsText(n: nat)
    ensures EntryText(Digits(n)) && IndexOf('-', Digits(n)) == |Digits(n)|
  {
    DigitsRoundTrip(n);
  }

  lemma DigitsParse(n: nat)
    requires n <= U64_MAX
    ensures ParseU64(Digits(n)) == Some(n) && IndexOf('-', Digits(n)) == |Digits(n)|
  {
    DigitsRoundTrip(n);
    DigitsText(n);
    assert IsDigit(Digits(n)[0]);
  }

  lemma FirstDash(first: string, last: string)
    requires IndexOf('-', first) == |first|
    ensures IndexOf('-', first + "-" + last) == |first|
  {
    var s := first + "-" + last;
    var at := IndexOf('-', s);
    assert s[|first|] == '-';
    assert forall k :: 0 <= k < |first| ==> s[k] == first[k];
  }

  lemma EndsOf(first: string, last: string)
    requires IndexOf('-', first + "-" + last) == |first|
    ensures EntryEnds(first + "-" + last) == (first, last)
  {
    var s := first + "-" + last;
    assert s[..|first|] == first && s[|first| + 1..] == last;
  }

  lemma LengthOfEnds(entry: string, m: nat, n: nat)
    requires m <= n <= U64_MAX && ParseU64(EntryEnds(entry).0) == Some(m) && ParseU64(EntryEnds(entry).1) == Some(n)
    ensures RangeLength(entry) == Some(WrappingAdd(n - m, 1))
  {
  }

  lemma LengthOfOne(first: string, m: nat)
    requires IndexOf('-', first) == |first| && ParseU64(first) == Some(m) && m <= U64_MAX
    ensures RangeLength(first) == Some(1)
  {
    assert EntryEnds(first) == (first, first);
    LengthOfEnds(first, m, m);
  }

  lemma LengthOfTwo(first: string, last: string, m: nat, n: nat)
    requires IndexOf('-', first) == |first| && ParseU64(first) == Some(m) && ParseU64(last) == Some(n) && m <= n <= U64_MAX
    ensures RangeLength(first + "-" + last) == Some(WrappingAdd(n - m, 1))
  {
    FirstDash(first, last);
    EndsOf(first, last);
    LengthOfEnds(first + "-" + last, m, n);
  }

  lemma TextOfTwo(first: string, last: string)
    requires EntryText(first) && EntryText(last)
    ensures EntryText(first + "-" + last)
  {
  }

  lemma LengthFromBoth(m: nat, n: nat)
    requires m <= U64_MAX && n <= U64_MAX
    ensures LengthFrom(Some(m), Some(n)) == if m > n then None else if n - m < U64_MAX then Some(n - m + 1) else Some(0)
  {
  }

  /** A range counts both its ends, unless that is more than the type holds; one written backwards
      is refused, never counted. */
  lemma RangesMustAscend(first: nat, last: nat)
    requires first <= U64_MAX && last <= U64_MAX
    ensures RangeLength(Digits(first) + "-" + Digits(last)) ==
      if first > last then None else if last - first < U64_MAX then Some(last - first + 1) else Some(0)
  {
    var (text, text') := (Digits(first), Digits(last));
    DigitsParse(first);
    DigitsParse(last);
    FirstDash(text, text');
    EndsOf(text, text');
    LengthFromBoth(first, last);
  }

  lemma PrintedOne(n: nat, text: string)
    requires n <= U64_MAX && text == Digits(n)
    ensures RangeLength(text) == Some(1)
  {
    DigitsParse(n);
    LengthOfOne(text, n);
  }

  lemma PrintedTwo(m: nat, n: nat, text: string)
    requires m <= n <= U64_MAX && text == Digits(m) + "-" + Digits(n)
    ensures RangeLength(text) == Some(WrappingAdd(n - m, 1))
  {
    DigitsParse(m);
    DigitsParse(n);
    LengthOfTwo(Digits(m), Digits(n), m, n);
  }

  lemma PrintsEnds(r: Range)
    ensures r.first == r.last ==> PrintRange(r) == Digits(r.first)
    ensures r.first != r.last ==> PrintRange(r) == Digits(r.first) + "-" + Digits(r.last)
  {
  }

  lemma CountsEnds(r: Range)
    requires r.first <= r.last <= U64_MAX
    ensures RangeCount(r) == WrappingAdd(r.last - r.first, 1)
    ensures r.first == r.last ==> RangeCount(r) == 1
  {
  }

  lemma OneRoundTrip(r: Range, text: string)
    requires r.first == r.last <= U64_MAX && text == Digits(r.first)
    ensures RangeLength(text) == Some(RangeCount(r))
  {
    CountsEnds(r);
    PrintedOne(r.first, text);
  }

  lemma TwoRoundTrip(r: Range, text: string)
    requires r.first < r.last <= U64_MAX && text == Digits(r.first) + "-" + Digits(r.last)
    ensures RangeLength(text) == Some(RangeCount(r))
  {
    CountsEnds(r);
    PrintedTwo(r.first, r.last, text);
  }

  lemma RangeText(r: Range)
    ensures EntryText(PrintRange(r))
  {
    DigitsText(r.first);
    DigitsText(r.last);
    TextOfTwo(Digits(r.first), Digits(r.last));
  }

  lemma {:induction false} PrintedEntries(ranges: seq<Range>)
    ensures |PrintRanges(ranges)| == |ranges|
    ensures forall part :: part in PrintRanges(ranges) ==> EntryText(part)
  {
    if ranges != [] {
      PrintedEntries(ranges[1..]);
      RangeText(ranges[0]);
    }
  }

  lemma FirstRangeIsApart(ranges: seq<Range>)
    requires IsCpuList(ranges) && ranges != []
    ensures |AllCpus(ranges)| == ranges[0].last - ranges[0].first + 1 + |AllCpus(ranges[1..])|
  {
    CpusCount(ranges[0]);
    AllCpusAreListed(ranges[1..]);
    assert Cpus(ranges[0]) !! AllCpus(ranges[1..]);
  }

  function RangeLengths(ranges: seq<Range>): seq<Option<U64>> {
    if ranges == [] then [] else [Some(RangeCount(ranges[0]))] + RangeLengths(ranges[1..])
  }

  lemma {:induction false} PrintedAt(ranges: seq<Range>, k: nat)
    requires IsCpuList(ranges) && k < |ranges|
    ensures |PrintRanges(ranges)| == |RangeLengths(ranges)| == |ranges|
    ensures PrintRanges(ranges)[k] == PrintRange(ranges[k])
    ensures RangeLengths(ranges)[k] == Some(RangeCount(ranges[k]))
  {
    PrintedEntries(ranges);
    RangeLengthsFit(ranges);
    if k > 0 {
      PrintedAt(ranges[1..], k - 1);
    }
  }

  lemma {:induction false} RangeLengthsFit(ranges: seq<Range>)
    ensures |RangeLengths(ranges)| == |ranges|
  {
    if ranges != [] {
      RangeLengthsFit(ranges[1..]);
    }
  }

  lemma LengthAt(ranges: seq<Range>, k: nat)
    requires IsCpuList(ranges) && k < |ranges| && |PrintRanges(ranges)| == |RangeLengths(ranges)| == |ranges|
    ensures RangeLength(PrintRanges(ranges)[k]) == RangeLengths(ranges)[k]
  {
    var r, text := ranges[k], PrintRanges(ranges)[k];
    PrintedAt(ranges, k);
    PrintsEnds(r);
    if r.first == r.last {
      OneRoundTrip(r, text);
    } else {
      TwoRoundTrip(r, text);
    }
  }

  lemma {:induction false} EachByEntries(f: string -> Option<U64>, entries: seq<string>, lengths: seq<Option<U64>>)
    requires |entries| == |lengths| && forall k :: 0 <= k < |entries| ==> f(entries[k]) == lengths[k]
    ensures Each(f, entries) == lengths
  {
    if entries != [] {
      EachByEntries(f, entries[1..], lengths[1..]);
    }
  }

  lemma EntriesHaveLengths(ranges: seq<Range>)
    requires IsCpuList(ranges)
    ensures Each(RangeLength, PrintRanges(ranges)) == RangeLengths(ranges)
  {
    PrintedEntries(ranges);
    RangeLengthsFit(ranges);
    var entries, lengths := PrintRanges(ranges), RangeLengths(ranges);
    forall k | 0 <= k < |entries| ensures RangeLength(entries[k]) == lengths[k] {
      LengthAt(ranges, k);
    }
    EachByEntries(RangeLength, entries, lengths);
  }

  /** A list from `low` up names at most the numbers the type has from there. */
  lemma {:induction false} CountFits(ranges: seq<Range>, low: nat)
    requires IsCpuList(ranges) && low <= U64_MAX + 1
    requires ranges != [] ==> low <= ranges[0].first
    ensures |AllCpus(ranges)| <= U64_MAX + 1 - low
  {
    if ranges != [] {
      FirstRangeIsApart(ranges);
      CountFits(ranges[1..], ranges[0].last + 1);
    }
  }

  /** What the type holds of a count of at most one past its largest. */
  function Held(count: nat): U64 {
    if count <= U64_MAX then count else 0
  }

  lemma CountsAdd(r: Range, rest: nat)
    requires r.first <= r.last <= U64_MAX && r.last - r.first + 1 + rest <= U64_MAX + 1
    ensures WrappingAdd(RangeCount(r), Held(rest)) == Held(r.last - r.first + 1 + rest)
  {
  }

  lemma {:induction false} SumOfFirst(ranges: seq<Range>, rest: nat)
    requires ranges != [] && SumAll(RangeLengths(ranges[1..])) == Some(Held(rest))
    ensures SumAll(RangeLengths(ranges)) == Some(WrappingAdd(RangeCount(ranges[0]), Held(rest)))
  {
    var lengths := RangeLengths(ranges);
    assert lengths[1..] == RangeLengths(ranges[1..]);
  }

  lemma {:induction false} LengthsCountCpus(ranges: seq<Range>)
    requires IsCpuList(ranges)
    ensures SumAll(RangeLengths(ranges)) == Some(Held(|AllCpus(ranges)|))
  {
    if ranges != [] {
      var rest := |AllCpus(ranges[1..])|;
      LengthsCountCpus(ranges[1..]);
      FirstRangeIsApart(ranges);
      CountFits(ranges, 0);
      SumOfFirst(ranges, rest);
      CountsAdd(ranges[0], rest);
    }
  }

  lemma {:induction false} JoinedEnds(parts: seq<string>)
    requires parts != [] && forall part :: part in parts ==> EntryText(part)
    ensures var s := Join(',', parts); s != "" && !IsWhite(s[0]) && !IsWhite(s[|s| - 1])
  {
    assert EntryText(parts[0]);
    if |parts| > 1 {
      JoinedEnds(parts[1..]);
    }
  }

  lemma TrimDropsNewline(s: string)
    requires s != "" && !IsWhite(s[0]) && !IsWhite(s[|s| - 1])
    ensures Trim(s + "\n") == s
  {
    assert (s + "\n")[..|s|] == s;
  }

  /** A printed CPU list reads back as the number of CPUs it names, and is refused exactly when
      that number is one past the type's largest: when it names every one there could be. */
  lemma CpusetRoundTrip(ranges: seq<Range>)
    requires ranges != [] && IsCpuList(ranges)
    ensures ParseCpuset(PrintCpuset(ranges)) == if |AllCpus(ranges)| <= U64_MAX then Some(|AllCpus(ranges)|) else None
    ensures |AllCpus(ranges)| <= U64_MAX + 1
  {
    var parts := PrintRanges(ranges);
    PrintedEntries(ranges);
    JoinedEnds(parts);
    TrimDropsNewline(Join(',', parts));
    assert forall part :: part in parts ==> EntryText(part) && ',' !in part;
    SplitInvertsJoin(',', parts);
    EntriesHaveLengths(ranges);
    LengthsCountCpus(ranges);
    FirstRangeIsApart(ranges);
    CountFits(ranges, 0);
  }

  /** Which one list does: the whole of the type, in one range. */
  lemma WholeRangeIsRefused()
    ensures ParseCpuset(PrintCpuset([Range(0, U64_MAX)])) == None
  {
    var ranges := [Range(0, U64_MAX)];
    FirstRangeIsApart(ranges);
    CpusetRoundTrip(ranges);
  }

  lemma {:induction false} NoneSumsToNone(lengths: seq<Option<U64>>, k: nat)
    requires k < |lengths| && lengths[k] == None
    ensures SumAll(lengths) == None
  {
    if k > 0 {
      NoneSumsToNone(lengths[1..], k - 1);
    }
  }

  lemma {:induction false} EachAt(f: string -> Option<U64>, entries: seq<string>, k: nat)
    requires k < |entries|
    ensures |Each(f, entries)| == |entries| && Each(f, entries)[k] == f(entries[k])
  {
    EachByEntries(f, entries, seq(|entries|, j requires 0 <= j < |entries| => f(entries[j])));
  }

  lemma {:induction false} PrintedRangeAt(ranges: seq<Range>, k: nat)
    requires k < |ranges|
    ensures |PrintRanges(ranges)| == |ranges| && PrintRanges(ranges)[k] == PrintRange(ranges[k])
  {
    PrintedEntries(ranges);
    if k > 0 {
      PrintedRangeAt(ranges[1..], k - 1);
    }
  }

  lemma BackwardsIsNoRange(r: Range)
    requires r.last < r.first <= U64_MAX
    ensures RangeLength(PrintRange(r)) == None
  {
    RangesMustAscend(r.first, r.last);
  }

  /** One range written backwards refuses the whole list, wherever it stands in it. */
  lemma BackwardsRangeRefusesList(ranges: seq<Range>, k: nat)
    requires k < |ranges| && ranges[k].last < ranges[k].first <= U64_MAX
    ensures ParseCpuset(PrintCpuset(ranges)) == None
  {
    var parts := PrintRanges(ranges);
    PrintedEntries(ranges);
    JoinedEnds(parts);
    TrimDropsNewline(Join(',', parts));
    assert forall part :: part in parts ==> EntryText(part) && ',' !in part;
    SplitInvertsJoin(',', parts);
    PrintedRangeAt(ranges, k);
    BackwardsIsNoRange(ranges[k]);
    EachAt(RangeLength, parts, k);
    NoneSumsToNone(Each(RangeLength, parts), k);
  }
}
