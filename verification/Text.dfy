/** Splitting text at a separator and joining it again, as `str::split` and `join` do. */
module Text {

  function Join(separator: char, parts: seq<string>): string {
    if parts == [] then ""
    else if |parts| == 1 then parts[0]
    else parts[0] + [separator] + Join(separator, parts[1..])
  }

  function Split(separator: char, s: string): (parts: seq<string>)
    ensures parts != []
  {
    if s == "" then [""]
    else
      var rest := Split(separator, s[1..]);
      if s[0] == separator then [""] + rest else [[s[0]] + rest[0]] + rest[1..]
  }

  lemma {:induction false} SplitFirst(separator: char, part: string, rest: string)
    requires separator !in part
    ensures Split(separator, part) == [part]
    ensures Split(separator, part + [separator] + rest) == [part] + Split(separator, rest)
  {
    var s := part + [separator] + rest;
    if part == "" {
      assert s[1..] == rest;
    } else {
      SplitFirst(separator, part[1..], rest);
      assert part == [part[0]] + part[1..];
      assert s[1..] == part[1..] + [separator] + rest;
    }
  }

  /** Splitting what was joined gives the parts back, when none holds the separator. */
  lemma {:induction false} SplitInvertsJoin(separator: char, parts: seq<string>)
    requires parts != [] && forall part :: part in parts ==> separator !in part
    ensures Split(separator, Join(separator, parts)) == parts
  {
    if |parts| == 1 {
      SplitFirst(separator, parts[0], "");
    } else {
      SplitInvertsJoin(separator, parts[1..]);
      SplitFirst(separator, parts[0], Join(separator, parts[1..]));
    }
  }

  lemma {:induction false} SplitPartsAreBare(separator: char, s: string)
    ensures forall part :: part in Split(separator, s) ==> separator !in part
  {
    if s != "" {
      SplitPartsAreBare(separator, s[1..]);
    }
  }

  /** And joining what was split gives the text back, whatever it holds: the parts are the text's. */
  lemma {:induction false} JoinInvertsSplit(separator: char, s: string)
    ensures Join(separator, Split(separator, s)) == s
  {
    if s != "" {
      JoinInvertsSplit(separator, s[1..]);
      var rest := Split(separator, s[1..]);
      if s[0] == separator {
        assert ([""] + rest)[1..] == rest;
      } else {
        assert ([[s[0]] + rest[0]] + rest[1..])[1..] == rest[1..];
      }
    }
  }

  lemma {:induction false} SplitOfJoined(separator: char, a: string, b: string)
    ensures Split(separator, a + [separator] + b) == Split(separator, a) + Split(separator, b)
  {
    var s := a + [separator] + b;
    if a == "" {
      assert s[1..] == b;
    } else {
      assert s[1..] == a[1..] + [separator] + b;
      SplitOfJoined(separator, a[1..], b);
    }
  }
}
