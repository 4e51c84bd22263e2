/** Human-readable sizes, with floating point read as exact arithmetic. */
module Sizes {
  import opened Wrappers
  import opened Decimals

  const U64: nat := 0x1_0000_0000_0000_0000

  const PREFIXES: seq<string> := ["", "K", "M", "G", "T", "P", "E", "Z", "Y", "R", "Q"]

  function Pow(b: nat, e: nat): nat {
    if e == 0 then 1 else b * Pow(b, e - 1)
  }

  /** The integer logarithms. */
  function Log2(n: nat): nat {
    if n < 2 then 0 else 1 + Log2(n / 2)
  }

  function Log10(n: nat): nat {
    if n < 10 then 0 else 1 + Log10(n / 10)
  }

  lemma {:induction false} Log2Bounds(n: nat)
    requires n > 0
    ensures Pow(2, Log2(n)) <= n < Pow(2, Log2(n) + 1)
  {
    if n >= 2 {
      Log2Bounds(n / 2);
    } else {
      assert Pow(2, 1) == 2 * Pow(2, 0);
    }
  }

  lemma {:induction false} Log10Bounds(n: nat)
    requires n > 0
    ensures Pow(10, Log10(n)) <= n < Pow(10, Log10(n) + 1)
  {
    if n >= 10 {
      Log10Bounds(n / 10);
    } else {
      assert Pow(10, 1) == 10 * Pow(10, 0);
    }
  }

  lemma MulMono(b: nat, x: nat, y: nat)
    requires x <= y
    ensures b * x <= b * y
  {
  }

  lemma {:induction false} PowMono(b: nat, e: nat, f: nat)
    requires b > 0 && e <= f
    ensures 0 < Pow(b, e) <= Pow(b, f)
    decreases f
  {
    if e < f {
      PowMono(b, e, f - 1);
      MulMono(Pow(b, f - 1), 1, b);
    } else if e > 0 {
      PowMono(b, e - 1, e - 1);
      MulMono(Pow(b, e - 1), 1, b);
    }
  }

  function PrefixIndex(bytes: nat): nat {
    var i := Log2(bytes) / 10;
    if i < |PREFIXES| - 1 then i else |PREFIXES| - 1
  }

  function Unit(bytes: nat): nat {
    Pow(2, 10 * PrefixIndex(bytes))
  }

  function CeilDiv(a: nat, b: nat): nat
    requires b > 0
  {
    (a + b - 1) / b
  }

  lemma {:induction false} UnitBounds(bytes: nat)
    requires 0 < bytes < U64
    ensures PrefixIndex(bytes) <= 6
    ensures 0 < Unit(bytes) <= bytes < 1024 * Unit(bytes)
    ensures Unit(bytes) < U64
  {
    var l := Log2(bytes);
    Log2Bounds(bytes);
    Pow64();
    if l >= 64 { PowMono(2, 64, l); }
    var k := l / 10;
    PowMono(2, 10 * k, l);
    PowMono(2, l + 1, 10 * k + 10);
    PowTen(10 * k);
  }

  lemma {:induction false} PowTen(e: nat)
    ensures Pow(2, e + 10) == 1024 * Pow(2, e)
  {
    assert Pow(2, e + 2) == 4 * Pow(2, e);
    assert Pow(2, e + 4) == 4 * Pow(2, e + 2);
    assert Pow(2, e + 6) == 4 * Pow(2, e + 4);
    assert Pow(2, e + 8) == 4 * Pow(2, e + 6);
    assert Pow(2, e + 10) == 4 * Pow(2, e + 8);
  }

  lemma {:induction false} Pow64()
    ensures Pow(2, 64) == U64
  {
    PowTen(0);
    PowTen(10);
    PowTen(20);
    PowTen(30);
    PowTen(40);
    PowTen(50);
    assert Pow(2, 62) == 4 * Pow(2, 60);
    assert Pow(2, 64) == 4 * Pow(2, 62);
  }

  /** The digits after the point. */
  function DecimalPoints(whole: nat): nat {
    var l := Log10(whole);
    if l < 2 then 2 - l else 0
  }

  lemma {:induction false} ScaleIsEnough(whole: nat)
    requires whole > 0
    ensures Pow(10, DecimalPoints(whole)) * whole >= 100
    ensures Pow(10, DecimalPoints(whole)) > 0
  {
    var l := Log10(whole);
    Log10Bounds(whole);
    assert Pow(10, 0) == 1 && Pow(10, 1) == 10 && Pow(10, 2) == 100;
    if l >= 2 { PowMono(10, 2, l); }
  }

  // ---------------------------------------------------------------------------------------------
  // The text of a number

  function DigitChars(ds: seq<Digit>): string {
    seq(|ds|, i requires 0 <= i < |ds| => (ds[i] + '0' as int) as char)
  }

  /** `n` over ten to the `points`, with all its decimals. */
  function Numeral(n: nat, points: nat): string {
    DigitChars(Digits(Front(n, points))) + (if points > 0 then "." + DigitChars(Back(n, points)) else "")
  }

  /** A float is written without zeros at the end of its decimals. */
  function Display(n: nat, points: nat): string
    decreases points
  {
    if points > 0 && n % 10 == 0 then Display(n / 10, points - 1) else Numeral(n, points)
  }

  predicate IsDigit(c: char) {
    '0' <= c <= '9'
  }

  predicate AllDigits(s: string) {
    forall i :: 0 <= i < |s| ==> IsDigit(s[i])
  }

  /** Where the point is, if there is one. */
  function PointIndex(s: string): (i: nat)
    ensures i <= |s|
  {
    if s == [] || s[0] == '.' then 0 else 1 + PointIndex(s[1..])
  }

  /** A number: its digits, and how many of them are decimals. */
  datatype Reading = Reading(digits: nat, decimals: nat)

  /** Reads digits without needless zeros in front, or such digits, one point, and at least one decimal. */
  function Read(s: string): Option<Reading> {
    var i := PointIndex(s);
    var whole, decimals := s[..i], if i < |s| then s[i + 1..] else [];
    if whole == [] || (|whole| > 1 && whole[0] == '0') || (i < |s| && decimals == []) || !AllDigits(whole + decimals) then None
    else Some(Reading(ValueOf(DigitsOf(whole + decimals)), |decimals|))
  }

  function DigitsOf(s: string): seq<Digit>
    requires AllDigits(s)
  {
    seq(|s|, i requires 0 <= i < |s| => (s[i] as int - '0' as int) as Digit)
  }

  /** The leading digits and points of a text. */
  function NumberPart(s: string): string {
    if s != [] && (IsDigit(s[0]) || s[0] == '.') then [s[0]] + NumberPart(s[1..]) else []
  }

  ghost predicate AllNumber(s: string) {
    forall i :: 0 <= i < |s| ==> IsDigit(s[i]) || s[i] == '.'
  }

  lemma {:induction false} PointIndexIs(whole: string, rest: string)
    requires AllDigits(whole) && (rest != [] ==> rest[0] == '.')
    ensures PointIndex(whole + rest) == |whole|
  {
    if whole == [] {
      assert whole + rest == rest;
    } else {
      assert (whole + rest)[1..] == whole[1..] + rest;
      PointIndexIs(whole[1..], rest);
    }
  }

  lemma DigitsOfConcat(ws: seq<Digit>, fs: seq<Digit>)
    ensures AllDigits(DigitChars(ws) + DigitChars(fs)) && DigitsOf(DigitChars(ws) + DigitChars(fs)) == ws + fs
  {
  }

  lemma {:induction false} ReadWhole(whole: string)
    requires whole != [] && (|whole| > 1 ==> whole[0] != '0') && AllDigits(whole)
    ensures Read(whole) == Some(Reading(ValueOf(DigitsOf(whole)), 0))
  {
    assert whole + [] == whole;
    PointIndexIs(whole, []);
    assert whole[..|whole|] == whole;
  }

  lemma {:induction false} ReadPoint(whole: string, decimals: string)
    requires whole != [] && (|whole| > 1 ==> whole[0] != '0') && decimals != [] && AllDigits(whole + decimals)
    ensures Read(whole + ("." + decimals)) == Some(Reading(ValueOf(DigitsOf(whole + decimals)), |decimals|))
  {
    var s := whole + ("." + decimals);
    assert forall i :: 0 <= i < |whole| ==> whole[i] == (whole + decimals)[i];
    PointIndexIs(whole, "." + decimals);
    assert s[..|whole|] == whole && s[|whole| + 1..] == decimals;
  }

  /** What was written is read back. */
  lemma {:induction false} NumeralReads(n: nat, points: nat)
    ensures Read(Numeral(n, points)) == Some(Reading(n, points))
  {
    var ws, fs := Digits(Front(n, points)), Back(n, points);
    OneZero(Front(n, points));
    FrontAndBack(n, points);
    WrittenReads(ws, fs, Numeral(n, points));
  }

  lemma {:induction false} WrittenReads(ws: seq<Digit>, fs: seq<Digit>, s: string)
    requires ws != [] && (|ws| > 1 ==> ws[0] != 0)
    requires s == DigitChars(ws) + (if fs != [] then "." + DigitChars(fs) else "")
    ensures Read(s) == Some(Reading(ValueOf(ws + fs), |fs|))
  {
    DigitsOfConcat(ws, fs);
    if fs == [] {
      assert s == DigitChars(ws) == DigitChars(ws) + DigitChars(fs);
      ReadWhole(s);
    } else {
      ReadPoint(DigitChars(ws), DigitChars(fs));
    }
  }

  lemma NumeralIsNumber(n: nat, points: nat)
    ensures AllNumber(Numeral(n, points))
  {
    var whole, decimals := DigitChars(Digits(Front(n, points))), DigitChars(Back(n, points));
    assert AllDigits(whole) && AllDigits(decimals);
  }

  lemma OneZero(n: nat)
    ensures |Digits(n)| > 1 ==> Digits(n)[0] != 0
  {
  }

  lemma {:induction false} NumberPartIs(number: string, suffix: string)
    requires AllNumber(number) && (suffix != [] ==> !IsDigit(suffix[0]) && suffix[0] != '.')
    ensures NumberPart(number + suffix) == number
  {
    if number == [] {
      assert number + suffix == suffix;
    } else {
      assert (number + suffix)[1..] == number[1..] + suffix;
      NumberPartIs(number[1..], suffix);
    }
  }

  /**
  `numerator` over ten to the `points`, times the unit, stands for the size: it is never below the true
  size, exceeds it by less than one percent, is exact for single bytes, and has a mantissa from 1 to 1024.
  */
  ghost predicate Represents(numerator: nat, points: nat, bytes: nat, unit: nat) {
    var scale := Pow(10, points);
    && scale > 0
    && SlightlyAbove(numerator * unit, bytes * scale)
    && scale <= numerator <= 1024 * scale
    && (unit == 1 ==> numerator == bytes * scale)
  }

  /** Not below, and above by less than one percent. */
  ghost predicate SlightlyAbove(x: nat, y: nat) {
    y <= x && 100 * (x - y) < y
  }

  lemma SlightlyAboveTen(x: nat, y: nat)
    requires SlightlyAbove(10 * x, 10 * y)
    ensures SlightlyAbove(x, y)
  {
  }

  lemma TenTimes(z: nat, x: nat, y: nat)
    requires z == 10 * x
    ensures z * y == 10 * (x * y) && y * z == 10 * (y * x)
  {
  }

  /** The size rounded up to three digits, or to a whole number if that has more: two decimals below 10, one below 100, else none. */
  ghost predicate Rounded(numerator: nat, points: nat, bytes: nat, unit: nat) {
    var places := Places(bytes, unit);
    && points <= places
    && var n := numerator * Pow(10, places - points);
       bytes * Pow(10, places) <= n * unit < bytes * Pow(10, places) + unit
  }

  ghost function Places(bytes: nat, unit: nat): nat {
    if bytes < 10 * unit then 2 else if bytes < 100 * unit then 1 else 0
  }

  lemma {:induction false} DropZeroRounded(n: nat, points: nat, bytes: nat, unit: nat)
    requires points > 0 && n % 10 == 0 && Rounded(n, points, bytes, unit)
    ensures Rounded(n / 10, points - 1, bytes, unit)
  {
    var m, x := n / 10, Pow(10, Places(bytes, unit) - points);
    assert n == 10 * m && (10 * m) * x == m * (10 * x);
  }

  lemma {:induction false} PlacesAre(bytes: nat, unit: nat)
    requires 0 < unit <= bytes
    ensures DecimalPoints(bytes / unit) == Places(bytes, unit)
  {
    var w := bytes / unit;
    assert bytes == w * unit + bytes % unit;
    MulMono(unit, if w < 10 then w + 1 else 10, if w < 10 then 10 else w);
    MulMono(unit, if w < 100 then w + 1 else 100, if w < 100 then 100 else w);
    LogAtMost(w);
  }

  lemma LogAtMost(w: nat)
    requires w > 0
    ensures DecimalPoints(w) == if w < 10 then 2 else if w < 100 then 1 else 0
  {
    assert w >= 10 ==> Log10(w) == 1 + Log10(w / 10);
    assert w >= 100 ==> Log10(w / 10) == 1 + Log10(w / 10 / 10);
    assert 10 <= w < 100 ==> Log10(w / 10) == 0;
  }

  lemma {:induction false} CeilIsRounded(bytes: nat, unit: nat, points: nat, numerator: nat)
    requires 0 < unit <= bytes && points == DecimalPoints(bytes / unit)
    requires numerator == CeilDiv(bytes * Pow(10, points), unit)
    ensures Rounded(numerator, points, bytes, unit)
  {
    PlacesAre(bytes, unit);
    CeilBounds(bytes * Pow(10, points), unit);
    assert Pow(10, 0) == 1 && numerator * 1 == numerator;
  }

  lemma {:induction false} DropZero(n: nat, points: nat, bytes: nat, unit: nat)
    requires points > 0 && n % 10 == 0 && Represents(n, points, bytes, unit)
    ensures Represents(n / 10, points - 1, bytes, unit)
  {
    var m, scale := n / 10, Pow(10, points - 1);
    TenTimes(n, m, unit);
    TenTimes(Pow(10, points), scale, bytes);
    SlightlyAboveTen(m * unit, bytes * scale);
  }

  /** The number reads as one that stands for the size, and has no zero at the end of its decimals. */
  ghost predicate Reads(number: string, bytes: nat, unit: nat) {
    var r := Read(number);
    && r.Some?
    && Represents(r.value.digits, r.value.decimals, bytes, unit)
    && Rounded(r.value.digits, r.value.decimals, bytes, unit)
    && (r.value.decimals > 0 ==> r.value.digits % 10 != 0)
  }

  /** The displayed text has no zero at the end of its decimals and stands for the same number. */
  lemma {:induction false} DisplayReads(n: nat, points: nat, bytes: nat, unit: nat)
    requires Represents(n, points, bytes, unit) && Rounded(n, points, bytes, unit)
    ensures Reads(Display(n, points), bytes, unit) && AllNumber(Display(n, points))
    decreases points
  {
    if points > 0 && n % 10 == 0 {
      DropZero(n, points, bytes, unit);
      DropZeroRounded(n, points, bytes, unit);
      DisplayReads(n / 10, points - 1, bytes, unit);
    } else {
      NumeralReads(n, points);
      NumeralIsNumber(n, points);
    }
  }

  function Suffix(index: nat, addI: bool): string
    requires index < |PREFIXES|
  {
    PREFIXES[index] + (if index > 0 && addI then "i" else "")
  }

  method Sizify(bytes: nat, addI: bool) returns (text: string)
    requires bytes < U64
    ensures bytes == 0 ==> text == "0"
    ensures bytes > 0 ==> && text == NumberPart(text) + Suffix(PrefixIndex(bytes), addI)
                          && Reads(NumberPart(text), bytes, Unit(bytes))
    ensures 0 < bytes < 1024 ==> PrefixIndex(bytes) == 0 && Unit(bytes) == 1
    ensures bytes > 0 ==> HasPrefix(bytes, PREFIXES[PrefixIndex(bytes)])
  {
    if bytes == 0 {
      return "0";
    }
    UnitBounds(bytes);
    PrefixIs(bytes);
    if bytes < 1024 {
      SmallUnit(bytes);
    }
    var index := PrefixIndex(bytes);
    var number := SizeNumber(bytes, Pow(2, 10 * index));
    text := number + PREFIXES[index];
    if index > 0 && addI {
      text := text + "i";
    }
    assert text == number + Suffix(index, addI);
    TextParts(number, index, addI);
  }

  /** The prefix for each power of 1024. */
  ghost predicate HasPrefix(bytes: nat, prefix: string) {
    prefix == if bytes < 0x400 then ""
              else if bytes < 0x10_0000 then "K"
              else if bytes < 0x4000_0000 then "M"
              else if bytes < 0x100_0000_0000 then "G"
              else if bytes < 0x4_0000_0000_0000 then "T"
              else if bytes < 0x1000_0000_0000_0000 then "P"
              else "E"
  }

  lemma {:induction false} Thousands()
    ensures Pow(2, 0) == 1 && Pow(2, 10) == 0x400 && Pow(2, 20) == 0x10_0000 && Pow(2, 30) == 0x4000_0000
    ensures Pow(2, 40) == 0x100_0000_0000 && Pow(2, 50) == 0x4_0000_0000_0000 && Pow(2, 60) == 0x1000_0000_0000_0000
  {
    PowTen(0);
    PowTen(10);
    PowTen(20);
    PowTen(30);
    PowTen(40);
    PowTen(50);
  }

  lemma {:induction false} PrefixIs(bytes: nat)
    requires 0 < bytes < U64
    ensures PrefixIndex(bytes) <= 6 && HasPrefix(bytes, PREFIXES[PrefixIndex(bytes)])
  {
    UnitBounds(bytes);
    Thousands();
    var unit := Unit(bytes);
    PrefixFor(bytes, PrefixIndex(bytes), unit);
  }

  lemma PrefixFor(bytes: nat, k: nat, unit: nat)
    requires k <= 6 && unit <= bytes < 1024 * unit && bytes < U64
    requires unit == if k == 0 then 1 else if k == 1 then 0x400 else if k == 2 then 0x10_0000 else if k == 3 then 0x4000_0000
                     else if k == 4 then 0x100_0000_0000 else if k == 5 then 0x4_0000_0000_0000 else 0x1000_0000_0000_0000
    ensures HasPrefix(bytes, PREFIXES[k])
  {
  }

  method SizeNumber(bytes: nat, unit: nat) returns (number: string)
    requires 0 < unit <= bytes < 1024 * unit
    ensures AllNumber(number) && Reads(number, bytes, unit)
  {
    var points := DecimalPoints(bytes / unit);
    var numerator := CeilDiv(bytes * Pow(10, points), unit);
    SizeReads(bytes, unit, points, numerator);
    number := Display(numerator, points);
  }

  lemma {:induction false} SizeReads(bytes: nat, unit: nat, points: nat, numerator: nat)
    requires 0 < unit <= bytes < 1024 * unit && points == DecimalPoints(bytes / unit)
    requires numerator == CeilDiv(bytes * Pow(10, points), unit)
    ensures AllNumber(Display(numerator, points)) && Reads(Display(numerator, points), bytes, unit)
  {
    SizeBounds(bytes, unit, points, numerator);
    CeilIsRounded(bytes, unit, points, numerator);
    DisplayReads(numerator, points, bytes, unit);
  }

  lemma {:induction false} TextParts(number: string, index: nat, addI: bool)
    requires AllNumber(number) && index <= 6
    ensures NumberPart(number + Suffix(index, addI)) == number
  {
    NumberPartIs(number, Suffix(index, addI));
  }

  lemma {:induction false} SmallUnit(bytes: nat)
    requires 0 < bytes < 1024
    ensures PrefixIndex(bytes) == 0 && Unit(bytes) == 1
  {
    Log2Bounds(bytes);
    PowTen(0);
    if Log2(bytes) >= 10 { PowMono(2, 10, Log2(bytes)); }
  }

  lemma {:induction false} CeilBounds(a: nat, b: nat)
    requires b > 0
    ensures a <= CeilDiv(a, b) * b < a + b
  {
    var q := (a + b - 1) / b;
    assert a + b - 1 == q * b + (a + b - 1) % b;
  }

  lemma {:induction false} SizeBounds(bytes: nat, unit: nat, points: nat, numerator: nat)
    requires 0 < unit <= bytes < 1024 * unit && points == DecimalPoints(bytes / unit)
    requires numerator == CeilDiv(bytes * Pow(10, points), unit)
    ensures Represents(numerator, points, bytes, unit)
  {
    var whole, scale := bytes / unit, Pow(10, points);
    WholePart(bytes, unit);
    ScaleIsEnough(whole);
    CeilBounds(bytes * scale, unit);
    Enough(bytes, unit, scale, whole);
    Mantissa(bytes, unit, scale, numerator);
  }

  lemma {:induction false} WholePart(bytes: nat, unit: nat)
    requires 0 < unit <= bytes
    ensures bytes / unit > 0 && (bytes / unit) * unit <= bytes
  {
    assert bytes == (bytes / unit) * unit + bytes % unit;
  }

  lemma {:induction false} Enough(bytes: nat, unit: nat, scale: nat, whole: nat)
    requires whole * unit <= bytes && scale * whole >= 100
    ensures bytes * scale >= 100 * unit
  {
    MulMono(scale, whole * unit, bytes);
    MulMono(unit, 100, scale * whole);
    assert scale * (whole * unit) == unit * (scale * whole);
  }

  lemma {:induction false} Mantissa(bytes: nat, unit: nat, scale: nat, numerator: nat)
    requires 0 < unit <= bytes < 1024 * unit && scale > 0
    requires bytes * scale <= numerator * unit < bytes * scale + unit
    ensures scale <= numerator <= 1024 * scale
  {
    MulMono(scale, unit, bytes);
    MulMono(scale, bytes, 1024 * unit);
    assert unit * (numerator + 1) == numerator * unit + unit;
    LessFromMul(unit, scale, numerator + 1);
    assert unit * (1024 * scale + 1) == scale * (1024 * unit) + unit;
    LessFromMul(unit, numerator, 1024 * scale + 1);
  }

  lemma LessFromMul(b: nat, x: nat, y: nat)
    requires b * x < b * y
    ensures x < y
  {
    if x >= y { MulMono(b, y, x); }
  }
}
