/** Text that is split, stripped and joined, as Python's string methods do it. */
module Texts {
  import opened Outcomes

  predicate IsSpace(c: char) {
    c == ' ' || '\t' <= c <= '\r' || '\U{001C}' <= c <= '\U{001F}'
  }

  /** The ASCII characters that Python takes for white space. */
  lemma SpacesAre(c: char)
    ensures IsSpace(c) <==> c in " \t\n\r\U{000B}\U{000C}\U{001C}\U{001D}\U{001E}\U{001F}"
  {
  }

  function StripLeft(s: string): string {
    if s != [] && IsSpace(s[0]) then StripLeft(s[1..]) else s
  }

  function StripRight(s: string): string {
    if s != [] && IsSpace(s[|s| - 1]) then StripRight(s[..|s| - 1]) else s
  }

  function Strip(s: string): string {
    StripRight(StripLeft(s))
  }

  /** The text before the first separator, and the text after it if there is one. */
  function SplitOnce(s: string, separator: char): (string, Option<string>) {
    if s == [] then ([], None)
    else if s[0] == separator then ([], Some(s[1..]))
    else
      var (first, second) := SplitOnce(s[1..], separator);
      ([s[0]] + first, second)
  }

  lemma {:induction false} SplitShortens(s: string, separator: char)
    ensures SplitOnce(s, separator).1.Some? ==> |SplitOnce(s, separator).1.value| < |s|
  {
    if s != [] && s[0] != separator {
      SplitShortens(s[1..], separator);
    }
  }

  /** The two parts and the separator make up the text. */
  lemma {:induction false} SplitParts(s: string, separator: char)
    requires separator in s
    ensures var (first, rest) := SplitOnce(s, separator);
            rest.Some? && separator !in first && s == first + [separator] + rest.value
  {
    assert s == [s[0]] + s[1..];
    if s[0] != separator {
      SplitParts(s[1..], separator);
    }
  }

  lemma {:induction false} SplitAt(first: string, rest: string, separator: char)
    requires separator !in first
    ensures SplitOnce(first + [separator] + rest, separator) == (first, Some(rest))
  {
    var s := first + [separator] + rest;
    if first == [] {
      assert s == [separator] + rest;
    } else {
      assert s[0] == first[0] && s[1..] == first[1..] + [separator] + rest;
      SplitAt(first[1..], rest, separator);
      assert [first[0]] + first[1..] == first;
    }
  }

  lemma {:induction false} NoSplit(s: string, separator: char)
    requires separator !in s
    ensures SplitOnce(s, separator) == (s, None)
  {
    if s != [] {
      NoSplit(s[1..], separator);
      assert [s[0]] + s[1..] == s;
    }
  }

  /** s.split(separator) */
  function Split(s: string, separator: char): (parts: seq<string>)
    ensures |parts| > 0
    decreases |s|
  {
    var (first, rest) := SplitOnce(s, separator);
    match rest
    case None => [first]
    case Some(more) =>
      SplitShortens(s, separator);
      [first] + Split(more, separator)
  }

  lemma SplitOne(s: string, separator: char)
    ensures separator !in s ==> Split(s, separator) == [s]
    ensures separator in s ==> |Split(s, separator)| > 1
  {
    if separator in s {
      SplitParts(s, separator);
    } else {
      NoSplit(s, separator);
    }
  }

  lemma SplitMore(first: string, rest: string, separator: char)
    requires separator !in first
    ensures Split(first + [separator] + rest, separator) == [first] + Split(rest, separator)
  {
    SplitAt(first, rest, separator);
  }

  function Last(parts: seq<string>): string
    requires |parts| > 0
  {
    parts[|parts| - 1]
  }

  /** The last part is what follows the last separator. */
  lemma {:induction false} SplitLast(s: string, last: string, separator: char)
    requires separator !in last
    ensures Last(Split(s + [separator] + last, separator)) == last
    decreases |s|
  {
    if separator in s {
      var (first, rest) := SplitOnce(s, separator);
      SplitParts(s, separator);
      SplitMore(first, rest.value + [separator] + last, separator);
      assert s + [separator] + last == first + [separator] + (rest.value + [separator] + last);
      SplitLast(rest.value, last, separator);
    } else {
      SplitMore(s, last, separator);
      SplitOne(last, separator);
    }
  }

  lemma DropPrefix(p: string, s: string, t: string)
    requires p + s == p + t
    ensures s == t
  {
    assert (p + s)[|p|..] == s && (p + t)[|p|..] == t;
  }

  lemma DropSuffix(p: string, s: string, t: string)
    requires s + p == t + p
    ensures s == t
  {
    assert |s| == |t|;
    assert (s + p)[..|s|] == s && (t + p)[..|t|] == t;
  }
}
