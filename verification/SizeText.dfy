/** Human-readable sizes: printing a byte count and reading it back, in exact rationals. */
module SizeText {
  import opened Decimal
  import opened Outcomes
  import opened Texts

  const UNITS := ["B", "KB", "MB", "GB", "TB", "PB"]
  const SUFFIXES := ["b", "kb", "mb", "gb", "tb", "pb"]

  function Pow1024(k: nat): (p: nat)
    ensures p >= 1
  {
    if k == 0 then 1 else 1024 * Pow1024(k - 1)
  }

  // ---------------------------------------------------------------------------
  // Printing
  // ---------------------------------------------------------------------------

  /** Rounding to the nearest integer, ties to the even one, as fixed-point formatting does. */
  function RoundHalfEven(x: real): int {
    var f := x.Floor;
    if x - f as real < 0.5 then f
    else if x - f as real > 0.5 then f + 1
    else if f % 2 == 0 then f else f + 1
  }

  /** A number of hundredths with its two decimals. */
  function Fixed2(hundredths: nat): string {
    Print(hundredths / 100) + "." + [DigitChar(hundredths / 10 % 10), DigitChar(hundredths % 10)]
  }

  /** f"{value:.2f}" for a value that is not negative. */
  function TwoDecimals(value: real): string
    requires value >= 0.0
  {
    Fixed2(RoundHalfEven(100.0 * value))
  }

  /** How often the loop divides: until the value is below 1024, at most six times. */
  function Divisions(n: nat, done: nat := 0): (k: nat)
    requires done <= 6
    ensures done <= k <= 6
    decreases 6 - done
  {
    if done < 6 && n >= Pow1024(done + 1) then Divisions(n, done + 1) else done
  }

  /** n divided by 1024 k times. */
  function Scaled(n: nat, k: nat): (v: real)
    ensures v >= 0.0
  {
    if k == 0 then n as real else Scaled(n, k - 1) / 1024.0
  }

  /** What format_size prints. */
  function FormatText(n: int): string {
    if n < 0 then "0 B"
    else
      var k := Divisions(n);
      if k == 0 then Print(n) + " " + UNITS[0]
      else TwoDecimals(Scaled(n, k)) + " " + UNITS[if k < 6 then k else 5]
  }

  lemma Powers()
    ensures Pow1024(0) == 1 && Pow1024(1) == 0x400 && Pow1024(2) == 0x100000 && Pow1024(3) == 0x40000000
    ensures Pow1024(4) == 0x10000000000 && Pow1024(5) == 0x4000000000000 && Pow1024(6) == 0x1000000000000000
  {
    assert Pow1024(3) == 1024 * Pow1024(2);
    assert Pow1024(5) == 1024 * Pow1024(4);
  }

  lemma ScaledExactly(n: nat, k: nat)
    requires k <= 6
    ensures Scaled(n, k) * Pow1024(k) as real == n as real
  {
    Powers();
    assert Scaled(n, 2) == Scaled(n, 1) / 1024.0 && Scaled(n, 3) == Scaled(n, 2) / 1024.0;
    assert Scaled(n, 4) == Scaled(n, 3) / 1024.0 && Scaled(n, 5) == Scaled(n, 4) / 1024.0;
    assert Scaled(n, 6) == Scaled(n, 5) / 1024.0;
  }

  lemma ScaledBelow(n: nat, k: nat)
    requires k <= 5
    ensures Scaled(n, k) < 1024.0 <==> n < Pow1024(k + 1)
  {
    ScaledExactly(n, k);
    Powers();
  }

  method FormatSize(sizeInBytes: int) returns (text: string)
    ensures text == FormatText(sizeInBytes)
  {
    if sizeInBytes < 0 {
      return "0 B";
    }
    var currentValue := sizeInBytes as real;
    for unit := 0 to |UNITS|
      invariant currentValue == Scaled(sizeInBytes, unit)
      invariant Divisions(sizeInBytes) == Divisions(sizeInBytes, unit)
    {
      ScaledBelow(sizeInBytes, unit);
      if currentValue < 1024.0 {
        if unit == 0 {
          return Print(currentValue.Floor) + " " + UNITS[unit];
        }
        return TwoDecimals(currentValue) + " " + UNITS[unit];
      }
      currentValue := currentValue / 1024.0;
    }
    return TwoDecimals(currentValue) + " PB";
  }

  // ---------------------------------------------------------------------------
  // Reading
  // ---------------------------------------------------------------------------

  function LowerChar(c: char): char {
    if 'A' <= c <= 'Z' then c - 'A' + 'a' else c
  }

  /** Lower case, with all white space removed. */
  function Normalized(s: string): string {
    if |s| == 0 then []
    else if IsSpace(s[0]) then Normalized(s[1..])
    else [LowerChar(s[0])] + Normalized(s[1..])
  }

  predicate IsNumberChar(c: char) {
    IsDigit(c) || c == '.'
  }

  /** How many leading characters are digits or dots. */
  function NumberLength(s: string): (n: nat)
    ensures n <= |s|
    ensures forall i :: 0 <= i < n ==> IsNumberChar(s[i])
  {
    if |s| > 0 && IsNumberChar(s[0]) then 1 + NumberLength(s[1..]) else 0
  }

  function DotPosition(s: string): (i: nat)
    ensures i <= |s|
    ensures forall j :: 0 <= j < i ==> s[j] != '.'
  {
    if |s| == 0 || s[0] == '.' then 0 else 1 + DotPosition(s[1..])
  }

  function FractionValue(s: string): (v: real)
    requires AllDigits(s)
    ensures v >= 0.0
  {
    if |s| == 0 then 0.0 else (DigitValue(s[0]) as real + FractionValue(s[1..])) / 10.0
  }

  predicate AreDigits(s: string)
    ensures AreDigits(s) <==> AllDigits(s)
  {
    forall i :: 0 <= i < |s| ==> IsDigit(s[i])
  }

  /** float() on digits and dots: at most one dot and at least one digit. */
  function FloatValue(s: string): (v: Option<real>)
    ensures v.Some? ==> v.value >= 0.0
  {
    var dot := DotPosition(s);
    var whole, fraction := s[..dot], if dot < |s| then s[dot + 1..] else [];
    if AreDigits(whole) && AreDigits(fraction) && |whole| + |fraction| > 0
    then Some(Value(whole) as real + FractionValue(fraction))
    else None
  }

  /** int(scalar * multiplier) for a value that is not negative. */
  function Product(scalar: real, multiplier: nat): (n: nat)
    requires scalar >= 0.0
  {
    (scalar * multiplier as real).Floor
  }

  /** What parse_size returns for a text; None where it raises. */
  function ParseText(s: string): Option<int> {
    var t := Normalized(s);
    var n := NumberLength(t);
    match FloatValue(t[..n])
    case None => None
    case Some(scalar) =>
      if n == |t| then Some(scalar.Floor)
      else if t[n..] in SUFFIXES then Some(Product(scalar, Multiplier(t[n..])))
      else None
  }

  function Multiplier(suffix: string): nat {
    if suffix == "kb" then Pow1024(1) else if suffix == "mb" then Pow1024(2) else if suffix == "gb" then Pow1024(3)
    else if suffix == "tb" then Pow1024(4) else if suffix == "pb" then Pow1024(5) else 1
  }

  /** normalize_size: printed again where it can be read, left alone where it cannot. */
  function NormalizeText(s: string): string {
    match ParseText(s)
    case Some(n) => FormatText(n)
    case None => s
  }

  // ---------------------------------------------------------------------------
  // Reading what was printed
  // ---------------------------------------------------------------------------

  ghost predicate AllNumberChars(s: string) {
    forall i :: 0 <= i < |s| ==> IsNumberChar(s[i])
  }

  lemma NormalizedHead(s: string)
    requires |s| > 0
    ensures Normalized(s) == (if IsSpace(s[0]) then [] else [LowerChar(s[0])]) + Normalized(s[1..])
  {
  }

  lemma {:induction false} NormalizedConcat(a: string, b: string)
    ensures Normalized(a + b) == Normalized(a) + Normalized(b)
    decreases |a|
  {
    if |a| == 0 {
      assert a + b == b;
    } else {
      NormalizedConcat(a[1..], b);
      NormalizedHead(a);
      NormalizedHead(a + b);
      hide Normalized, IsSpace, LowerChar;
      assert (a + b)[1..] == a[1..] + b && (a + b)[0] == a[0];
      var head := if IsSpace(a[0]) then [] else [LowerChar(a[0])];
      assert head + (Normalized(a[1..]) + Normalized(b)) == (head + Normalized(a[1..])) + Normalized(b);
    }
  }

  lemma {:induction false} NumbersAreNormal(s: string)
    requires AllNumberChars(s)
    ensures Normalized(s) == s
  {
    if |s| > 0 {
      assert IsNumberChar(s[0]) && AllNumberChars(s[1..]);
      NumbersAreNormal(s[1..]);
    }
  }

  lemma {:induction false} NumberEnds(s: string, rest: string)
    requires AllNumberChars(s) && |rest| > 0 && !IsNumberChar(rest[0])
    ensures NumberLength(s + rest) == |s|
  {
    if |s| == 0 {
      assert s + rest == rest;
    } else {
      assert IsNumberChar(s[0]) && AllNumberChars(s[1..]);
      NumberEnds(s[1..], rest);
      assert (s + rest)[1..] == s[1..] + rest;
    }
  }

  lemma {:induction false} UnitIsNormal(k: nat)
    requires k < 6
    ensures Normalized(" " + UNITS[k]) == SUFFIXES[k]
    ensures |SUFFIXES[k]| > 0 && !IsNumberChar(SUFFIXES[k][0])
    ensures Multiplier(SUFFIXES[k]) == Pow1024(k)
  {
    NormalizedConcat(" ", UNITS[k]);
    assert UNITS[k][..] == UNITS[k];
    if |UNITS[k]| == 2 {
      assert UNITS[k] == [UNITS[k][0]] + [UNITS[k][1]];
      NormalizedConcat([UNITS[k][0]], [UNITS[k][1]]);
    }
  }

  ghost predicate AllSpace(s: string) {
    forall i :: 0 <= i < |s| ==> IsSpace(s[i])
  }

  function Lower(s: string): string {
    seq(|s|, i requires 0 <= i < |s| => LowerChar(s[i]))
  }

  lemma {:induction false} SpaceVanishes(s: string)
    requires AllSpace(s)
    ensures Normalized(s) == []
  {
    if |s| > 0 {
      SpaceVanishes(s[1..]);
    }
  }

  lemma SuffixHasNoSpace(unit: string, k: nat)
    requires k < 6 && Lower(unit) == SUFFIXES[k]
    ensures forall i :: 0 <= i < |unit| ==> !IsSpace(unit[i])
  {
    forall i | 0 <= i < |unit|
      ensures !IsSpace(unit[i])
    {
      assert Lower(unit)[i] == LowerChar(unit[i]);
    }
  }

  lemma {:induction false} WordsAreLowered(s: string)
    requires forall i :: 0 <= i < |s| ==> !IsSpace(s[i])
    ensures Normalized(s) == Lower(s)
  {
    if |s| > 0 {
      WordsAreLowered(s[1..]);
      assert Lower(s) == [LowerChar(s[0])] + Lower(s[1..]);
    }
  }

  /** Space around the parts and the case of the unit make no difference. */
  lemma SpellingIsNormal(
      lead: string, number: string, gap: string, unit: string, trail: string)
    requires AllSpace(lead) && AllSpace(gap) && AllSpace(trail) && AllNumberChars(number)
    requires forall i :: 0 <= i < |unit| ==> !IsSpace(unit[i])
    ensures Normalized(lead + number + gap + unit + trail) == number + Lower(unit)
  {
    SpaceVanishes(lead);
    SpaceVanishes(gap);
    SpaceVanishes(trail);
    NumbersAreNormal(number);
    WordsAreLowered(unit);
    hide Normalized, AllSpace, Lower, AllNumberChars, IsSpace;
    NormalizedConcat(lead, number);
    NormalizedConcat(lead + number, gap);
    NormalizedConcat(lead + number + gap, unit);
    NormalizedConcat(lead + number + gap + unit, trail);
    NothingAround(number, Lower(unit));
  }

  lemma NothingAround(a: string, b: string)
    ensures [] + a + [] + b + [] == a + b
  {
  }

  lemma SuffixParts(number: string, k: nat)
    requires AllNumberChars(number) && k < 6
    ensures var t := number + SUFFIXES[k];
            NumberLength(t) == |number| < |t| && t[..|number|] == number && t[|number|..] == SUFFIXES[k]
    ensures Multiplier(SUFFIXES[k]) == Pow1024(k) && SUFFIXES[k] in SUFFIXES
  {
    UnitIsNormal(k);
    NumberEnds(number, SUFFIXES[k]);
  }

  /**
   A number and a unit in any case, with any space around and between them, read as their product, cut to an integer;
   and a number alone reads as itself, cut to an integer.
   */
  lemma ParseNumberWithUnit(
      lead: string, number: string, gap: string, unit: string, trail: string, value: real, k: nat)
    requires AllSpace(lead) && AllSpace(gap) && AllSpace(trail)
    requires AllNumberChars(number) && FloatValue(number) == Some(value)
    requires k < 6 && Lower(unit) == SUFFIXES[k]
    ensures ParseText(lead + number + gap + unit + trail) == Some(Product(value, Pow1024(k)))
    ensures ParseText(lead + number + trail) == Some(value.Floor)
  {
    SuffixHasNoSpace(unit, k);
    SpellingIsNormal(lead, number, gap, unit, trail);
    SpellingIsNormal(lead, number, "", "", trail);
    assert lead + number + "" + "" + trail == lead + number + trail;
    assert number + Lower("") == number;
    hide Normalized, NumberLength, FloatValue, Multiplier, Pow1024, Product, Lower, SUFFIXES;
    SuffixParts(number, k);
    NumberAlone(number);
    assert number[..|number|] == number;
  }

  lemma {:induction false} NumberAlone(number: string)
    requires AllNumberChars(number)
    ensures NumberLength(number) == |number|
  {
    if |number| > 0 {
      assert IsNumberChar(number[0]) && AllNumberChars(number[1..]);
      NumberAlone(number[1..]);
    }
  }

  /** As it is printed: one space, and the unit in capitals. */
  lemma ParsePrinted(number: string, value: real, k: nat)
    requires AllNumberChars(number) && FloatValue(number) == Some(value) && k < 6
    ensures ParseText(number + " " + UNITS[k]) == Some(Product(value, Pow1024(k)))
  {
    hide ParseText, Product, FloatValue, Pow1024, Lower, AllSpace, SUFFIXES;
    PrintedUnit(k);
    PrintedSpelling(number, UNITS[k]);
    ParseNumberWithUnit("", number, " ", UNITS[k], "", value, k);
  }

  lemma PrintedUnit(k: nat)
    requires k < 6
    ensures Lower(UNITS[k]) == SUFFIXES[k]
    ensures AllSpace("") && AllSpace(" ")
  {
  }

  lemma PrintedSpelling(number: string, unit: string)
    ensures "" + number + " " + unit + "" == number + " " + unit
  {
  }

  lemma {:induction false} DotAfterDigits(whole: string, rest: string)
    requires AllDigits(whole)
    ensures DotPosition(whole + "." + rest) == |whole|
  {
    var s := whole + "." + rest;
    if |whole| == 0 {
      assert s[0] == '.';
    } else {
      assert IsDigit(whole[0]) && AllDigits(whole[1..]);
      assert s[1..] == whole[1..] + "." + rest && s[0] == whole[0];
      DotAfterDigits(whole[1..], rest);
    }
  }

  lemma {:induction false} NoDotInDigits(whole: string)
    requires AllDigits(whole)
    ensures DotPosition(whole) == |whole|
  {
    if |whole| > 0 {
      assert IsDigit(whole[0]) && AllDigits(whole[1..]);
      NoDotInDigits(whole[1..]);
    }
  }

  lemma PrintedInteger(n: nat)
    ensures AllNumberChars(Print(n)) && FloatValue(Print(n)) == Some(n as real)
  {
    NoDotInDigits(Print(n));
    ValueOfPrint(n);
    assert Print(n)[..|Print(n)|] == Print(n);
  }

  lemma TwoDigitFraction(tens: nat, ones: nat)
    requires tens < 10 && ones < 10
    ensures FractionValue([DigitChar(tens), DigitChar(ones)]) == (10 * tens + ones) as real / 100.0
  {
    var fraction := [DigitChar(tens), DigitChar(ones)];
    assert fraction[1..] == [DigitChar(ones)] && fraction[1..][1..] == [];
    assert FractionValue(fraction[1..]) == ones as real / 10.0;
  }

  lemma DecimalValue(whole: nat, fraction: string)
    requires AllDigits(fraction)
    ensures FloatValue(Print(whole) + "." + fraction) == Some(whole as real + FractionValue(fraction))
  {
    hide FractionValue, Print;
    var s := Print(whole) + "." + fraction;
    DotAfterDigits(Print(whole), fraction);
    ValueOfPrint(whole);
    assert s[..|Print(whole)|] == Print(whole) && s[|Print(whole)| + 1..] == fraction;
  }

  lemma HundredthsSplit(h: nat)
    ensures (h / 100) as real + (10 * (h / 10 % 10) + h % 10) as real / 100.0 == h as real / 100.0
  {
    assert h == 100 * (h / 100) + (10 * (h / 10 % 10) + h % 10);
  }

  lemma PrintedHundredths(h: nat)
    ensures AllNumberChars(Fixed2(h)) && FloatValue(Fixed2(h)) == Some(h as real / 100.0)
  {
    hide FloatValue, FractionValue, Print, DigitChar;
    TwoDigitFraction(h / 10 % 10, h % 10);
    DecimalValue(h / 100, [DigitChar(h / 10 % 10), DigitChar(h % 10)]);
    HundredthsSplit(h);
  }

  // ---------------------------------------------------------------------------
  // The round trip
  // ---------------------------------------------------------------------------

  /** The hundredths printed for n. */
  function Hundredths(n: nat): nat {
    RoundHalfEven(100.0 * Scaled(n, Divisions(n)))
  }

  lemma RoundingError(x: real)
    ensures -0.5 <= RoundHalfEven(x) as real - x <= 0.5
    ensures RoundHalfEven(x) as real - x == 0.5 || RoundHalfEven(x) as real - x == -0.5 ==> RoundHalfEven(x) % 2 == 0
  {
  }

  lemma RoundsTo(x: real, h: int)
    requires -0.5 < x - h as real < 0.5
    ensures RoundHalfEven(x) == h
  {
  }

  lemma {:induction false} DivisionsExactly(n: nat, done: nat)
    requires done <= 6 && (done > 0 ==> n >= Pow1024(done))
    ensures var k := Divisions(n, done);
            && (k > 0 ==> n >= Pow1024(k)) && (k < 6 ==> n < Pow1024(k + 1))
    decreases 6 - done
  {
    if done < 6 && n >= Pow1024(done + 1) {
      DivisionsExactly(n, done + 1);
    }
  }

  /** The number of divisions is determined by the range that n lies in. */
  lemma DivisionsFromRange(n: nat, k: nat)
    requires k <= 6 && (k > 0 ==> n >= Pow1024(k)) && (k < 6 ==> n < Pow1024(k + 1))
    ensures Divisions(n) == k
  {
    DivisionsExactly(n, 0);
    Powers();
  }

  /** What reading the printed text of n gives. */
  function Reread(n: nat): nat {
    var k := Divisions(n);
    if k == 0 then n
    else Product(Hundredths(n) as real / 100.0, Pow1024(if k < 6 then k else 5))
  }

  lemma ParseOfFormat(n: nat)
    ensures ParseText(FormatText(n)) == Some(Reread(n))
  {
    hide FloatValue, ParseText, Fixed2, Print, RoundHalfEven, Scaled, Divisions;
    var k := Divisions(n);
    if k == 0 {
      PrintedInteger(n);
      ParsePrinted(Print(n), n as real, 0);
      Powers();
    } else {
      hide Product, Pow1024;
      var h, unit := Hundredths(n), if k < 6 then k else 5;
      PrintedHundredths(h);
      ParsePrinted(Fixed2(h), h as real / 100.0, unit);
      assert FormatText(n) == Fixed2(h) + " " + UNITS[unit];
    }
  }

  lemma ScaledError(e: real, scale: real)
    requires -0.005 <= e <= 0.005 && scale >= 0.0
    ensures -0.005 * scale <= e * scale <= 0.005 * scale
  {
    assert (0.005 - e) * scale >= 0.0;
    assert (e + 0.005) * scale >= 0.0;
  }

  lemma Distribute(v: real, e: real, scale: real)
    ensures (v + e) * scale == v * scale + e * scale
  {
  }

  lemma ProductError(x: real, v: real, h: nat, p: nat)
    requires v * p as real == x && -0.5 <= h as real - 100.0 * v <= 0.5
    ensures -(0.005 * p as real + 1.0) <= Product(h as real / 100.0, p) as real - x <= 0.005 * p as real
  {
    var e := h as real / 100.0 - v;
    ScaledError(e, p as real);
    Distribute(v, e, p as real);
    assert v + e == h as real / 100.0;
    var exact := (h as real / 100.0) * p as real;
    assert exact == x + e * p as real;
    assert exact - 1.0 < exact.Floor as real <= exact;
  }

  lemma RereadBound(n: nat)
    requires n < Pow1024(6)
    ensures var k, m := Divisions(n), Reread(n);
            && k < 6
            && (k == 0 ==> m == n)
            && -(0.005 * Pow1024(k) as real + 1.0) <= (m - n) as real <= 0.005 * Pow1024(k) as real
  {
    hide RoundHalfEven, Scaled, Product, Pow1024, Divisions;
    var k := Divisions(n);
    DivisionsExactly(n, 0);
    if k > 0 {
      ScaledExactly(n, k);
      RoundingError(100.0 * Scaled(n, k));
      ProductError(n as real, Scaled(n, k), Hundredths(n), Pow1024(k));
    }
  }

  /** The unit that is printed for n. */
  function UnitOf(n: nat): nat {
    if Divisions(n) < 6 then Divisions(n) else 5
  }

  /** Reading the text of n gives n up to half a hundredth of the printed unit and one byte, exactly below 1024. */
  ghost predicate RoundTrips(n: nat) {
    exists m ::
      && ParseText(FormatText(n)) == Some(m)
      && (n < 1024 ==> m == n)
      && -(0.005 * Pow1024(UnitOf(n)) as real + 1.0) <= (m - n) as real <= 0.005 * Pow1024(UnitOf(n)) as real
  }

  lemma SixDivisions(n: nat)
    ensures Scaled(n, 6) * Pow1024(5) as real == n as real / 1024.0
  {
    ScaledExactly(n, 6);
    Powers();
  }

  lemma FarBelow(n: nat)
    requires n >= Pow1024(6)
    ensures n > 1000 * Reread(n) && UnitOf(n) == 5
  {
    hide RoundHalfEven, Scaled, Product, Divisions;
    DivisionsFromRange(n, 6);
    SixDivisions(n);
    Powers();
    RoundingError(100.0 * Scaled(n, 6));
    ProductError(n as real / 1024.0, Scaled(n, 6), Hundredths(n), Pow1024(5));
  }

  /**
   The round trip holds exactly below 1024^6. From there on the loop divides once more than the unit it prints, and the
   size read back is less than a thousandth of the printed one.
   */
  lemma RoundTripsIffBelowLastUnit(n: nat)
    ensures RoundTrips(n) <==> n < Pow1024(6)
  {
    hide FormatText, ParseText, Reread, Divisions, Pow1024;
    ParseOfFormat(n);
    if n < Pow1024(6) {
      RereadBound(n);
      DivisionsExactly(n, 0);
      Powers();
    } else {
      FarBelow(n);
      Powers();
    }
  }

  lemma AtLeastOne(v: real, p: real)
    requires v * p >= p > 0.0
    ensures v >= 1.0
  {
    assert v < 1.0 ==> (1.0 - v) * p > 0.0;
  }

  lemma HundredthsRange(n: nat)
    requires n >= 1024
    ensures Divisions(n) >= 1 && Hundredths(n) >= 100
    ensures Divisions(n) < 6 ==> Hundredths(n) <= 102400
  {
    hide RoundHalfEven, Scaled;
    var k := Divisions(n);
    DivisionsExactly(n, 0);
    Powers();
    ScaledExactly(n, k);
    AtLeastOne(Scaled(n, k), Pow1024(k) as real);
    if k < 6 {
      ScaledBelow(n, k);
    }
    RoundingError(100.0 * Scaled(n, k));
  }

  /** A value cut to whole bytes rounds to the hundredths it came from. */
  lemma HundredthsKept(m: nat, k: nat, h: nat)
    requires 1 <= k <= 5 && 100 <= h < 102400
    requires m == Product(h as real / 100.0, Pow1024(k))
    ensures Divisions(m) == k && Hundredths(m) == h
  {
    Powers();
    DivisionsFromRange(m, k);
    ScaledExactly(m, k);
    RoundsTo(100.0 * Scaled(m, k), h);
  }

  /** 1024.00 of a unit is 1.00 of the next one. */
  lemma FullUnitCarries(m: nat, k: nat)
    requires 1 <= k <= 5
    requires m == Product(102400 as real / 100.0, Pow1024(k))
    ensures Divisions(m) == k + 1 && Hundredths(m) == 100
  {
    Powers();
    assert m == Pow1024(k + 1);
    DivisionsFromRange(m, k + 1);
    ScaledExactly(m, k + 1);
    RoundsTo(100.0 * Scaled(m, k + 1), 100);
  }

  /** Different hundredths are different texts. */
  lemma Fixed2Injective(g: nat, h: nat)
    requires Fixed2(g) == Fixed2(h)
    ensures g == h
  {
    PrintedHundredths(g);
    PrintedHundredths(h);
  }

  /** From 1024.00 PB on, the extra division makes the second text smaller. */
  lemma LastUnitShrinks(m: nat, h: nat)
    requires h >= 102400 && m == Product(h as real / 100.0, Pow1024(5))
    ensures Divisions(m) == 6 && Hundredths(m) < h
  {
    Powers();
    DivisionsFromRange(m, 6);
    ScaledExactly(m, 6);
    RoundingError(100.0 * Scaled(m, 6));
  }

  lemma LastUnitTexts(g: nat, h: nat)
    requires g != h
    ensures Fixed2(g) + " " + UNITS[5] != Fixed2(h) + " " + UNITS[5]
  {
    hide Fixed2;
    if Fixed2(g) + " " + UNITS[5] == Fixed2(h) + " " + UNITS[5] {
      assert Fixed2(g) == (Fixed2(g) + " " + UNITS[5])[..|Fixed2(g) + " " + UNITS[5]| - 3];
      assert Fixed2(h) == (Fixed2(h) + " " + UNITS[5])[..|Fixed2(h) + " " + UNITS[5]| - 3];
      Fixed2Injective(g, h);
    }
  }

  lemma FullUnitTexts(k: nat)
    requires 1 <= k <= 4
    ensures Fixed2(100) + " " + UNITS[k + 1] != Fixed2(102400) + " " + UNITS[k]
  {
    assert Print(1) == [DigitChar(1)] && |Print(1024)| == 4;
    var a := Fixed2(100) + " " + UNITS[k + 1];
    var b := Fixed2(102400) + " " + UNITS[k];
    assert |a| == 7 && |b| == 10;
  }

  /**
   Printing again what was read back gives the same text, for every size, exactly when less than 1024.00 was printed:
   1024.00 of a unit is read as 1.00 of the next, and the last unit has none.
   */
  lemma {:induction false} FormatStable(n: nat)
    ensures FormatText(Reread(n)) == FormatText(n) <==> Divisions(n) == 0 || Hundredths(n) < 102400
  {
    hide Fixed2, Print, RoundHalfEven, Scaled, Divisions, Product;
    DivisionsExactly(n, 0);
    Powers();
    if Divisions(n) > 0 {
      var unit, h, m := UnitOf(n), Hundredths(n), Reread(n);
      HundredthsRange(n);
      if h < 102400 {
        HundredthsKept(m, unit, h);
      } else if unit < 5 {
        FullUnitCarries(m, unit);
        FullUnitTexts(unit);
      } else {
        LastUnitShrinks(m, h);
        LastUnitTexts(Hundredths(m), h);
      }
    }
  }

  /** normalize_size leaves a printed size as it is under the same condition. */
  lemma {:induction false} NormalizeOfFormat(n: nat)
    ensures NormalizeText(FormatText(n)) == FormatText(n) <==> Divisions(n) == 0 || Hundredths(n) < 102400
  {
    ParseOfFormat(n);
    FormatStable(n);
  }

  // ---------------------------------------------------------------------------
  // What can be printed and read
  // ---------------------------------------------------------------------------

  lemma TieText(n: nat, h: nat)
    requires 1024 <= n < 1048576 && 100 <= h <= 200
    requires 100.0 * (n as real / 1024.0) == h as real + 0.5
    ensures FormatText(n) == Fixed2(if h % 2 == 0 then h else h + 1) + " KB"
  {
    hide Fixed2;
    Powers();
    DivisionsFromRange(n, 1);
    assert Scaled(n, 0) == n as real && Scaled(n, 1) == Scaled(n, 0) / 1024.0;
    assert (h as real + 0.5).Floor == h;
  }

  lemma TwoDigits(h: nat)
    requires 100 <= h < 200
    ensures Fixed2(h) == "1." + [DigitChar(h / 10 % 10), DigitChar(h % 10)]
  {
    assert Print(h / 100) == [DigitChar(1)];
    assert DigitChar(1) == '1';
  }

  /** A tie is printed with the even digit, be it below or above. */
  lemma TiesGoToEven()
    ensures FormatText(1152) == "1.12 KB" && FormatText(1408) == "1.38 KB"
  {
    hide FormatText, Fixed2;
    TieText(1152, 112);
    TieText(1408, 137);
    TwoDigits(112);
    TwoDigits(138);
    assert DigitChar(1) == '1' && DigitChar(2) == '2' && DigitChar(3) == '3' && DigitChar(8) == '8';
  }

  /** Negative sizes print like zero. */
  lemma NegativePrintsAsZero(n: int)
    requires n < 0
    ensures FormatText(n) == FormatText(0)
  {
    assert Print(0) == "0";
    Powers();
  }

  /** Digits before and after a dot, at least one of them. */
  ghost predicate IsDecimal(s: string, whole: string, fraction: string) {
    s == whole + "." + fraction && AllDigits(whole) && AllDigits(fraction) && |whole| + |fraction| > 0
  }

  /** Digits with at most one dot among or around them, and at least one digit. */
  ghost predicate IsNumber(s: string) {
    |s| > 0 && (AllDigits(s) || exists whole, fraction :: IsDecimal(s, whole, fraction))
  }

  lemma {:induction false} DotIsThere(s: string)
    ensures DotPosition(s) < |s| ==> s[DotPosition(s)] == '.'
  {
    if |s| > 0 && s[0] != '.' {
      DotIsThere(s[1..]);
    }
  }

  lemma {:induction false} FloatsAreNumbers(s: string)
    requires FloatValue(s).Some?
    ensures IsNumber(s)
  {
    hide FractionValue, Value, DotPosition;
    var dot := DotPosition(s);
    DotIsThere(s);
    if dot < |s| {
      assert s == s[..dot] + "." + s[dot + 1..];
      assert IsDecimal(s, s[..dot], s[dot + 1..]);
    } else {
      assert s[..dot] == s;
    }
  }

  lemma {:induction false} DecimalsAreFloats(s: string, whole: string, fraction: string)
    requires IsDecimal(s, whole, fraction)
    ensures FloatValue(s).Some?
  {
    hide FractionValue, Value, DotPosition;
    DotAfterDigits(whole, fraction);
    assert s[..|whole|] == whole && s[|whole| + 1..] == fraction;
  }

  lemma {:induction false} DigitsAreFloats(s: string)
    requires |s| > 0 && AllDigits(s)
    ensures FloatValue(s).Some?
  {
    hide FractionValue, Value, DotPosition;
    NoDotInDigits(s);
    assert s[..|s|] == s;
  }

  lemma {:induction false} NumbersAreFloats(s: string)
    ensures FloatValue(s).Some? <==> IsNumber(s)
  {
    hide FloatValue, IsDecimal;
    if FloatValue(s).Some? {
      FloatsAreNumbers(s);
    } else if IsNumber(s) {
      if AllDigits(s) {
        DigitsAreFloats(s);
      } else {
        var whole, fraction :| IsDecimal(s, whole, fraction);
        DecimalsAreFloats(s, whole, fraction);
      }
    }
  }

  /** A text can be read exactly if, without space and in lower case, it is a number with or without a unit. */
  lemma ReadableExactly(s: string)
    ensures ParseText(s).Some?
       <==> exists number, unit :: Normalized(s) == number + unit && IsNumber(number)
                                   && (unit == "" || unit in SUFFIXES)
  {
    hide IsNumber, FloatValue, Normalized;
    var t := Normalized(s);
    var n := NumberLength(t);
    NumbersAreFloats(t[..n]);
    if ParseText(s).Some? {
      assert t == t[..n] + t[n..];
      assert n == |t| ==> t[n..] == "";
    }
    if number, unit :| t == number + unit && IsNumber(number) && (unit == "" || unit in SUFFIXES) {
      NumbersAreNumberChars(number);
      if unit == "" {
        assert t == number;
        NumberAlone(number);
      } else {
        SuffixStarts(unit);
        NumberEnds(number, unit);
      }
      assert t[..n] == number && t[n..] == unit;
    }
  }

  lemma NumbersAreNumberChars(s: string)
    requires IsNumber(s)
    ensures AllNumberChars(s)
  {
  }

  lemma SuffixStarts(unit: string)
    requires unit in SUFFIXES
    ensures |unit| > 0 && !IsNumberChar(unit[0])
  {
  }
}
