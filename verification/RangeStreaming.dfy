/** Byte ranges: reading the Range header, and streaming the part of the file it asks for. */
module RangeStreaming {
  import opened Decimal
  import opened Files
  import opened Outcomes
  import opened Texts

  // ---------------------------------------------------------------------------
  // The header
  // ---------------------------------------------------------------------------

  /** Digits, with single underscores allowed between them. */
  predicate IsDigitGroup(s: string) {
    && s != [] && IsDigit(s[0])
    && (|s| == 1 || IsDigitGroup(s[1..]) || (s[1] == '_' && IsDigitGroup(s[2..])))
  }

  function DropUnderscores(s: string): (t: string)
    ensures IsDigitGroup(s) ==> AllDigits(t)
  {
    if s == [] then []
    else if s[0] == '_' then DropUnderscores(s[1..])
    else
      assert IsDigitGroup(s) && |s| > 1 && s[1] == '_' ==> DropUnderscores(s[1..]) == DropUnderscores(s[2..]);
      [s[0]] + DropUnderscores(s[1..])
  }

  /** Python's int on ASCII text: surrounding space, a sign, and digit groups. */
  function ParseInt(s: string): Option<int> {
    var t := Strip(s);
    var digits := if t != [] && (t[0] == '+' || t[0] == '-') then t[1..] else t;
    if !IsDigitGroup(digits) then None
    else
      var n: int := Value(DropUnderscores(digits));
      Some(if t[0] == '-' then -n else n)
  }

  /** The bounds for the two texts around the hyphen; a missing hyphen and an unreadable number give none. */
  function EvaluateBounds(parts: (string, Option<string>), fileSize: nat): Option<(int, int)> {
    if parts.1 == None then None
    else if parts.0 == "" then
      match ParseInt(parts.1.value)
      case None => None
      case Some(suffix) => if 0 < suffix <= fileSize then Some((fileSize - suffix, fileSize - 1)) else None
    else
      var last := if parts.1.value == "" then Some(fileSize - 1) else ParseInt(parts.1.value);
      match (ParseInt(parts.0), last)
      case (Some(start), Some(end)) =>
        if 0 <= start < fileSize && start <= end < fileSize then Some((start, end)) else None
      case _ => None
  }

  const UNIT := "bytes="

  function ParseRangeHeader(header: string, fileSize: nat): Option<(int, int)> {
    if !(UNIT <= header) || ',' in header then None
    else EvaluateBounds(SplitOnce(Strip(header[|UNIT|..]), '-'), fileSize)
  }

  /** Whatever the header, accepted bounds lie in the file. */
  lemma AcceptedBoundsLieInFile(header: string, fileSize: nat)
    ensures match ParseRangeHeader(header, fileSize)
            case Some((start, end)) => 0 <= start <= end < fileSize
            case None => true
  {
  }

  // ---------------------------------------------------------------------------
  // The standard
  // ---------------------------------------------------------------------------

  /** The two forms of a byte range in section 14.1.2 of RFC 9110. */
  datatype RangeSpec = IntRange(first: nat, last: Option<nat>) | SuffixRange(length: nat)

  function HeaderText(spec: RangeSpec): string {
    match spec
    case IntRange(first, None) => UNIT + Print(first) + "-"
    case IntRange(first, Some(last)) => UNIT + Print(first) + "-" + Print(last)
    case SuffixRange(length) => UNIT + "-" + Print(length)
  }

  /**
   What the standard makes of a range: over-long positions and suffixes are cut to the file. A suffix that is not empty
   asks for the whole of a shorter file, and of an empty one too: its bounds are then (0, -1).
   */
  function StandardBounds(spec: RangeSpec, fileSize: nat): Option<(int, int)> {
    match spec
    case IntRange(first, last) =>
      if first >= fileSize || (last.Some? && last.value < first) then None
      else Some((first, if last.Some? then Min(last.value, fileSize - 1) else fileSize - 1))
    case SuffixRange(length) =>
      if length == 0 then None
      else Some((if length >= fileSize then 0 else fileSize - length, fileSize - 1))
  }

  /** A satisfiable range that reaches past the file. */
  predicate OverLong(spec: RangeSpec, fileSize: nat) {
    match spec
    case IntRange(first, last) => first < fileSize && last.Some? && last.value >= fileSize
    case SuffixRange(length) => length > fileSize
  }

  /** The bounds of the standard hold exactly the positions of the file that the range asks for. */
  lemma StandardBoundsCover(spec: RangeSpec, fileSize: nat, position: nat)
    ensures var bounds := StandardBounds(spec, fileSize);
            var asked := match spec
                         case IntRange(first, last) =>
                           first <= position && (last.Some? ==> first <= position <= last.value)
                         case SuffixRange(length) => position + length >= fileSize;
            position < fileSize && asked && spec != SuffixRange(0)
            <==> bounds.Some? && bounds.value.0 <= position <= bounds.value.1
    ensures var bounds := StandardBounds(spec, fileSize);
            bounds.Some? ==> 0 <= bounds.value.0 && bounds.value.1 < fileSize
  {
  }

  /** Any other unit, and any list of ranges, is refused. */
  lemma OtherHeadersRefused(header: string, fileSize: nat)
    requires |header| < 6 || header[..6] != "bytes=" || ',' in header
    ensures ParseRangeHeader(header, fileSize) == None
  {
    if UNIT <= header {
      assert header[..6] == UNIT;
    }
  }

  lemma {:induction false} DigitsAreClean(s: string)
    requires AllDigits(s) && s != []
    ensures Strip(s) == s && IsDigitGroup(s) && DropUnderscores(s) == s
  {
    if |s| > 1 {
      assert AllDigits(s[1..]) && !IsSpace(s[0]) && !IsSpace(s[|s| - 1]);
      DigitsAreClean(s[1..]);
    }
  }

  lemma ParsePrinted(n: nat)
    ensures ParseInt(Print(n)) == Some(n)
  {
    DigitsAreClean(Print(n));
    assert IsDigit(Print(n)[0]);
    ValueOfPrint(n);
  }

  lemma HeaderOf(first: string, second: string, fileSize: nat)
    requires AllDigits(first) && AllDigits(second)
    ensures ParseRangeHeader(UNIT + first + "-" + second, fileSize) == EvaluateBounds((first, Some(second)), fileSize)
  {
    var range := first + "-" + second;
    var header := UNIT + first + "-" + second;
    assert header == UNIT + range;
    assert header[|UNIT|..] == range;
    assert ',' !in UNIT;
    assert ',' !in header;
    assert range[0] == if first != [] then first[0] else '-';
    assert range[|range| - 1] == if second != [] then second[|second| - 1] else '-';
    assert Strip(range) == range;
    assert '-' !in first;
    SplitAt(first, second, '-');
  }

  lemma ParseOfIntRange(first: nat, last: Option<nat>, fileSize: nat)
    ensures ParseRangeHeader(HeaderText(IntRange(first, last)), fileSize)
         == if first < fileSize && (last.Some? ==> first <= last.value < fileSize)
            then Some((first as int, if last.Some? then last.value else fileSize - 1)) else None
  {
    var second := if last.Some? then Print(last.value) else "";
    assert HeaderText(IntRange(first, last)) == UNIT + Print(first) + "-" + second;
    HeaderOf(Print(first), second, fileSize);
    ParsePrinted(first);
    if last.Some? {
      ParsePrinted(last.value);
    }
  }

  lemma ParseOfSuffix(length: nat, fileSize: nat)
    ensures ParseRangeHeader(HeaderText(SuffixRange(length)), fileSize)
         == if 0 < length <= fileSize then Some((fileSize - length, fileSize - 1)) else None
  {
    assert HeaderText(SuffixRange(length)) == UNIT + [] + "-" + Print(length);
    HeaderOf([], Print(length), fileSize);
    ParsePrinted(length);
  }

  /** The bounds that the code accepts for a well-formed range: those of the standard, if they are inside the file. */
  lemma ParseOfWellFormed(spec: RangeSpec, fileSize: nat)
    ensures ParseRangeHeader(HeaderText(spec), fileSize)
         == if OverLong(spec, fileSize) then None else StandardBounds(spec, fileSize)
  {
    hide ParseRangeHeader, HeaderText;
    match spec
    case IntRange(first, last) => ParseOfIntRange(first, last, fileSize);
    case SuffixRange(length) => ParseOfSuffix(length, fileSize);
  }

  /** The code gives the bounds of the standard exactly for the ranges that do not reach past the file. */
  lemma AgreesWithStandardIffNotOverLong(spec: RangeSpec, fileSize: nat)
    ensures ParseRangeHeader(HeaderText(spec), fileSize) == StandardBounds(spec, fileSize)
       <==> !OverLong(spec, fileSize)
  {
    ParseOfWellFormed(spec, fileSize);
  }

  // ---------------------------------------------------------------------------
  // Streaming
  // ---------------------------------------------------------------------------

  /** The bytes of the file from start to end, both included, as far as they exist. */
  function Segment(file: Bytes, start: nat, end: int): Bytes {
    var from := Min(start, |file|);
    var to := Min(end + 1, |file|);
    if to <= from then [] else file[from..to]
  }

  /** A read returns at least one byte before the end of the file, at most n, and maybe fewer than it could. */
  function Read(file: Bytes, position: nat, n: nat, wanted: nat): (block: Bytes)
    ensures |block| <= n
    ensures block == [] <==> n == 0 || position >= |file|
    ensures position + |block| <= |file| || block == []
    ensures block != [] ==> block == file[position..position + |block|]
  {
    var most := Min(n, |file| - position);
    if most <= 0 then []
    else file[position..position + (if wanted == 0 then 1 else Min(wanted, most))]
  }

  lemma SegmentGrows(file: Bytes, start: nat, position: nat, length: nat)
    requires start <= position && position + length <= |file|
    ensures Segment(file, start, position - 1) + file[position..position + length]
         == Segment(file, start, position + length - 1)
  {
  }

  lemma SegmentEnds(file: Bytes, start: nat, position: nat, end: int)
    ensures Segment(file, start, start - 1) == []
    ensures end < start ==> Segment(file, start, end) == []
    ensures |file| <= position <= end + 1 ==> Segment(file, start, position - 1) == Segment(file, start, end)
  {
  }

  ghost predicate SmallBlocks(blocks: seq<Bytes>) {
    forall i :: 0 <= i < |blocks| ==> 0 < |blocks[i]| <= 65536
  }

  /** The range streamer; wants says how many bytes the i-th read would like to return. */
  method StreamRange(file: Bytes, start: nat, end: int, wants: nat -> nat) returns (blocks: seq<Bytes>)
    ensures Concat(blocks) == Segment(file, start, end)
    ensures SmallBlocks(blocks)
  {
    hide Segment;
    blocks := [];
    var remaining, position := end - start + 1, start;
    SegmentEnds(file, start, position, end);
    while remaining > 0
      invariant SmallBlocks(blocks) && start <= position
      invariant if blocks == [] then position == start else position <= |file| && remaining >= 0
      invariant remaining == end - position + 1
      invariant Concat(blocks) == Segment(file, start, position - 1)
    {
      var chunk := Read(file, position, Min(BLOCK, remaining), wants(|blocks|));
      if chunk == [] {
        SegmentEnds(file, start, position, end);
        break;
      }
      SegmentGrows(file, start, position, |chunk|);
      ConcatAppend(blocks, chunk);
      remaining := remaining - |chunk|;
      position := position + |chunk|;
      blocks := blocks + [chunk];
    }
  }

  method StreamFile(file: Bytes, wants: nat -> nat) returns (blocks: seq<Bytes>)
    ensures Concat(blocks) == file
    ensures SmallBlocks(blocks)
  {
    blocks := [];
    var position := 0;
    while true
      invariant SmallBlocks(blocks)
      invariant 0 <= position <= |file| && Concat(blocks) == file[..position]
      decreases |file| - position
    {
      var chunk := Read(file, position, BLOCK, wants(|blocks|));
      if chunk == [] {
        break;
      }
      position := position + |chunk|;
      ConcatAppend(blocks, chunk);
      blocks := blocks + [chunk];
    }
  }

  datatype Response =
    | NotSatisfiable(size: nat)                                    // 416, Content-Range: bytes */size
    | Partial(first: int, last: int, size: nat, contentLength: int, body: seq<Bytes>)   // 206
    | Full(contentLength: int, body: seq<Bytes>)                   // 200

  /** The range part of serve_file; an absent header reads as empty. */
  method ServeFile(file: Bytes, header: string, wants: nat -> nat) returns (r: Response)
    ensures header == "" ==> r.Full? && r.contentLength == |file| && Concat(r.body) == file
    ensures header != "" && ParseRangeHeader(header, |file|) == None ==> r == NotSatisfiable(|file|)
    ensures header != "" && ParseRangeHeader(header, |file|).Some? ==>
              && r.Partial? && (r.first, r.last) == ParseRangeHeader(header, |file|).value && r.size == |file|
              && 0 <= r.first <= r.last < |file|
              && r.contentLength == |Concat(r.body)|
              && Concat(r.body) == file[r.first..r.last + 1]
    ensures !r.NotSatisfiable? ==> SmallBlocks(r.body)
  {
    var range := ParseRangeHeader(header, |file|);
    AcceptedBoundsLieInFile(header, |file|);
    if header != "" && range == None {
      return NotSatisfiable(|file|);
    }
    if range.Some? {
      var (start, end) := range.value;
      var body := StreamRange(file, start, end, wants);
      return Partial(start, end, |file|, end - start + 1, body);
    }
    var body := StreamFile(file, wants);
    return Full(|file|, body);
  }

  /** Ranges that follow each other from the start of the file to its end. */
  ghost predicate Covers(ranges: seq<(int, int)>, upTo: int) {
    if ranges == [] then upTo == 0
    else
      var (start, end) := ranges[|ranges| - 1];
      0 <= start <= end && end + 1 == upTo && Covers(ranges[..|ranges| - 1], start)
  }

  /** Streaming consecutive ranges that cover the file gives what the full streamer gives. */
  lemma {:induction false} ConsecutiveRangesGiveFile(
      file: Bytes, ranges: seq<(int, int)>, bodies: seq<seq<Bytes>>, upTo: int)
    requires |ranges| == |bodies| && Covers(ranges, upTo) && upTo <= |file|
    requires forall i :: 0 <= i < |ranges| ==>
      0 <= ranges[i].0 && Concat(bodies[i]) == Segment(file, ranges[i].0, ranges[i].1)
    ensures upTo >= 0 && Concat(seq(|bodies|, i requires 0 <= i < |bodies| => Concat(bodies[i]))) == file[..upTo]
  {
    var joined := seq(|bodies|, i requires 0 <= i < |bodies| => Concat(bodies[i]));
    if ranges != [] {
      var n := |ranges| - 1;
      var start := ranges[n].0;
      ConsecutiveRangesGiveFile(file, ranges[..n], bodies[..n], start);
      assert joined[..n] == seq(|bodies[..n]|, i requires 0 <= i < |bodies[..n]| => Concat(bodies[..n][i]));
      assert file[..start] + file[start..upTo] == file[..upTo];
    }
  }

  // ---------------------------------------------------------------------------
  // Numbers in headers
  // ---------------------------------------------------------------------------

  lemma {:induction false} StripSpaces(lead: string, s: string, trail: string)
    requires forall i :: 0 <= i < |lead| ==> IsSpace(lead[i])
    requires forall i :: 0 <= i < |trail| ==> IsSpace(trail[i])
    requires |s| > 0 && !IsSpace(s[0]) && !IsSpace(s[|s| - 1])
    ensures Strip(lead + s + trail) == s
    decreases |lead| + |trail|
  {
    var text := lead + s + trail;
    if |lead| > 0 {
      assert text[1..] == lead[1..] + s + trail && text[0] == lead[0];
      StripSpaces(lead[1..], s, trail);
    } else {
      assert text == s + trail && text[0] == s[0];
      if |trail| > 0 {
        var n := |trail| - 1;
        assert text[..|text| - 1] == lead + s + trail[..n] && text[|text| - 1] == trail[n];
        assert StripLeft(text) == text;
        assert StripLeft(lead + s + trail[..n]) == lead + s + trail[..n];
        StripSpaces(lead, s, trail[..n]);
      } else {
        assert text == s;
      }
    }
  }

  lemma GroupHead(s: string)
    requires |s| > 1 && IsDigit(s[0])
    ensures IsDigitGroup(s[1..]) || (s[1] == '_' && IsDigitGroup(s[2..])) ==> IsDigitGroup(s)
    ensures DropUnderscores(s) == [s[0]] + DropUnderscores(s[1..])
  {
  }

  lemma DropOne(s: string)
    ensures DropUnderscores("_" + s) == DropUnderscores(s)
  {
    assert ("_" + s)[1..] == s;
  }

  /** Single underscores between digits do not count. */
  lemma {:induction false} UnderscoreIgnored(a: string, b: string)
    requires AllDigits(a) && |a| > 0 && IsDigitGroup(b)
    ensures IsDigitGroup(a + "_" + b) && DropUnderscores(a + "_" + b) == a + DropUnderscores(b)
    decreases |a|
  {
    var s := a + "_" + b;
    assert s[0] == a[0] && IsDigit(a[0]);
    GroupHead(s);
    DropOne(b);
    hide IsDigitGroup, DropUnderscores;
    if |a| == 1 {
      assert s[1] == '_' && s[2..] == b && s[1..] == "_" + b;
    } else {
      assert s[1..] == a[1..] + "_" + b && AllDigits(a[1..]);
      UnderscoreIgnored(a[1..], b);
      assert a == [a[0]] + a[1..];
    }
  }

  lemma GroupHasNoSpace(s: string)
    requires IsDigitGroup(s)
    ensures s != [] && !IsSpace(s[0]) && IsDigit(s[0])
  {
  }

  lemma {:induction false} GroupEnds(s: string)
    requires IsDigitGroup(s)
    ensures !IsSpace(s[|s| - 1])
    decreases |s|
  {
    if |s| > 1 {
      if IsDigitGroup(s[1..]) {
        GroupEnds(s[1..]);
      } else {
        GroupEnds(s[2..]);
      }
    }
  }

  /** A number with a sign or none and any space around it reads as that number; there may be underscores in it. */
  lemma ParseSigned(lead: string, sign: string, digits: string, trail: string)
    requires forall i :: 0 <= i < |lead| ==> IsSpace(lead[i])
    requires forall i :: 0 <= i < |trail| ==> IsSpace(trail[i])
    requires sign in {"", "+", "-"} && IsDigitGroup(digits)
    ensures var n: int := Value(DropUnderscores(digits));
            ParseInt(lead + (sign + digits) + trail) == Some(if sign == "-" then -n else n)
  {
    hide IsDigitGroup, DropUnderscores, Strip;
    GroupHasNoSpace(digits);
    GroupEnds(digits);
    var t := sign + digits;
    StripSpaces(lead, t, trail);
    if sign == "" {
      assert t == digits;
    } else {
      assert t[0] == sign[0] && t[1..] == digits;
    }
  }

  /** Any number of bytes that are there and asked for is a possible short read. */
  lemma ShortReadsPossible(file: Bytes, position: nat, n: nat, length: nat)
    requires 0 < length <= n && position + length <= |file|
    ensures |Read(file, position, n, length)| == length
  {
  }
}
