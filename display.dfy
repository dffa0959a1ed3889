/**
 * The state-dependent parts of `HVACDisplay.draw` (monochrome.py:55-189):
 * the `HH:MM` clock string, the set-temperature string and the horizontal
 * pitch at which its characters are laid out, and the eight-cell fan bar.
 */
module Display {
  import opened SevenSegment
  import Climate

  // ---------------------------------------------------------------------------
  // Number formatting
  // ---------------------------------------------------------------------------

  const DigitChars := "0123456789"

  function DigitChar(d: nat): (c: char)
    requires d < 10
    ensures c in DigitChars
  {
    DigitChars[d]
  }

  /** The decimal digits of n, most significant first, no leading zeros. */
  function DecimalString(n: nat): (r: string)
    ensures |r| >= 1
    ensures forall i :: 0 <= i < |r| ==> r[i] in DigitChars
    ensures n < 10 ==> |r| == 1
    ensures 10 <= n < 100 ==> |r| == 2
    decreases n
  {
    if n < 10 then [DigitChar(n)] else DecimalString(n / 10) + [DigitChar(n % 10)]
  }

  /** Left-pads with '0' up to the given width, as the `0` flag of a format spec does. */
  function ZeroPad(s: string, width: nat): (r: string)
    ensures |r| == if |s| >= width then |s| else width
    decreases width - |s|
  {
    if |s| >= width then s else ZeroPad("0" + s, width)
  }

  /** The value of a string of decimal digits (non-digits count as 0). */
  function ParseDecimal(s: string): nat
    decreases |s|
  {
    if s == [] then 0
    else
      var c := s[|s| - 1];
      ParseDecimal(s[..|s| - 1]) * 10 + (if '0' <= c <= '9' then c as int - '0' as int else 0)
  }

  /** Reading back the digits of n gives n. */
  lemma {:induction false} DecimalStringRoundTrip(n: nat)
    ensures ParseDecimal(DecimalString(n)) == n
    decreases n
  {
    var r := DecimalString(n);
    if n < 10 {
      assert r[..0] == [];
    } else {
      DecimalStringRoundTrip(n / 10);
      assert r[..|r| - 1] == DecimalString(n / 10);
    }
  }

  /** A leading '0' does not change the value. */
  lemma {:induction false} LeadingZeroIgnored(s: string)
    ensures ParseDecimal("0" + s) == ParseDecimal(s)
    decreases |s|
  {
    if s == [] {
      assert ("0" + s)[..0] == [];
    } else {
      assert ("0" + s)[..|s|] == "0" + s[..|s| - 1];
      LeadingZeroIgnored(s[..|s| - 1]);
    }
  }

  /** Zero padding does not change the value. */
  lemma {:induction false} ZeroPadKeepsValue(s: string, width: nat)
    ensures ParseDecimal(ZeroPad(s, width)) == ParseDecimal(s)
    decreases width - |s|
  {
    if |s| < width {
      ZeroPadKeepsValue("0" + s, width);
      LeadingZeroIgnored(s);
    }
  }

  /** Padding a string of digits keeps it a string of digits. */
  lemma {:induction false} ZeroPadKeepsDigits(s: string, width: nat)
    requires forall i :: 0 <= i < |s| ==> s[i] in DigitChars
    ensures forall i :: 0 <= i < |ZeroPad(s, width)| ==> ZeroPad(s, width)[i] in DigitChars
    decreases width - |s|
  {
    if |s| < width {
      ZeroPadKeepsDigits("0" + s, width);
    }
  }

  // ---------------------------------------------------------------------------
  // Clock string
  // ---------------------------------------------------------------------------

  /**
   * `f"{hours:02d}:{minutes:02d}"`: digits and colons only; for two-digit
   * values, five characters, all digits but the colon in the middle.
   */
  function ClockString(hours: nat, minutes: nat): (r: string)
    ensures forall i :: 0 <= i < |r| ==> r[i] in DigitChars || r[i] == ':'
    ensures hours < 100 && minutes < 100 ==>
      |r| == 5 && r[2] == ':' && forall i :: 0 <= i < 5 && i != 2 ==> r[i] in DigitChars
  {
    ZeroPadKeepsDigits(DecimalString(hours), 2);
    ZeroPadKeepsDigits(DecimalString(minutes), 2);
    ZeroPad(DecimalString(hours), 2) + ":" + ZeroPad(DecimalString(minutes), 2)
  }

  /** A valid time reads as five characters HH:MM, from which hours and minutes can be read back. */
  lemma ClockStringShape(hours: nat, minutes: nat)
    requires hours < 24 && minutes < 60
    ensures |ClockString(hours, minutes)| == 5 && ClockString(hours, minutes)[2] == ':'
    ensures ParseDecimal(ClockString(hours, minutes)[..2]) == hours
    ensures ParseDecimal(ClockString(hours, minutes)[3..]) == minutes
  {
    var hh, mm := ZeroPad(DecimalString(hours), 2), ZeroPad(DecimalString(minutes), 2);
    assert ClockString(hours, minutes)[..2] == hh;
    assert ClockString(hours, minutes)[3..] == mm;
    ZeroPadKeepsValue(DecimalString(hours), 2);
    DecimalStringRoundTrip(hours);
    ZeroPadKeepsValue(DecimalString(minutes), 2);
    DecimalStringRoundTrip(minutes);
  }

  /** 14:05 is shown as "14:05". */
  lemma ClockStringExample()
    ensures ClockString(14, 5) == "14:05"
  {
    var hh, mm := ZeroPad(DecimalString(14), 2), ZeroPad(DecimalString(5), 2);
    assert hh == "14" by { assert DecimalString(14) == "14"; }
    assert mm == "05" by { assert DecimalString(5) == "5"; }
    assert ClockString(14, 5) == hh + ":" + mm;
  }

  // ---------------------------------------------------------------------------
  // Set-temperature string
  // ---------------------------------------------------------------------------

  function HalfChar(odd: nat): char
    requires odd < 2
  {
    if odd == 1 then '5' else '0'
  }

  /**
   * `f"{set_temp:04.1f}"` for a temperature of `halves` half degrees: the
   * integer part zero-padded so that the whole is at least four wide, a
   * point, and 0 or 5. A negative value carries its sign in place of the
   * padding.
   */
  function SetTempString(halves: int): (r: string)
    ensures |r| >= 4 && r[|r| - 2] == '.'
    ensures r[|r| - 1] == if halves % 2 == 1 then '5' else '0'
    ensures r[0] == '-' <==> halves < 0
    ensures forall i :: 1 <= i < |r| - 2 ==> r[i] in DigitChars
  {
    var a := if halves >= 0 then halves else -halves;
    var digits := DecimalString(a / 2);
    ZeroPadKeepsDigits(digits, 2);
    assert a % 2 == halves % 2;
    (if halves >= 0 then ZeroPad(digits, 2) else "-" + digits) + "." + [HalfChar(a % 2)]
  }

  /** Reads a set-temperature string back into half degrees. */
  function ParseSetTemp(s: string): int {
    if |s| < 2 then 0
    else
      var half := if s[|s| - 1] == '5' then 1 else 0;
      if s[0] == '-' && |s| >= 3 then -(2 * ParseDecimal(s[1..|s| - 2]) + half)
      else 2 * ParseDecimal(s[..|s| - 2]) + half
  }

  /** The string shown for the set temperature determines it: reading it back gives the same half degrees. */
  lemma SetTempRoundTrip(halves: int)
    ensures ParseSetTemp(SetTempString(halves)) == halves
  {
    if halves >= 0 {
      NonNegativeSetTempRoundTrip(halves);
    } else {
      NegativeSetTempRoundTrip(halves);
    }
  }

  /** How ParseSetTemp splits a string ending in a point and one digit. */
  lemma ParseSetTempParts(head: string, c: char)
    requires |head| >= 1
    ensures ParseSetTemp(head + "." + [c]) ==
      if head[0] == '-' then -(2 * ParseDecimal(head[1..]) + (if c == '5' then 1 else 0))
      else 2 * ParseDecimal(head) + (if c == '5' then 1 else 0)
  {
    var s := head + "." + [c];
    assert s[0] == head[0] && s[|s| - 1] == c;
    assert s[..|s| - 2] == head;
    assert |head| >= 2 ==> s[1..|s| - 2] == head[1..];
  }

  lemma NonNegativeSetTempRoundTrip(halves: int)
    requires halves >= 0
    ensures ParseSetTemp(SetTempString(halves)) == halves
  {
    var head := ZeroPad(DecimalString(halves / 2), 2);
    ZeroPadKeepsDigits(DecimalString(halves / 2), 2);
    assert head[0] in DigitChars;
    ParseSetTempParts(head, HalfChar(halves % 2));
    ZeroPadKeepsValue(DecimalString(halves / 2), 2);
    DecimalStringRoundTrip(halves / 2);
  }

  lemma NegativeSetTempRoundTrip(halves: int)
    requires halves < 0
    ensures ParseSetTemp(SetTempString(halves)) == halves
  {
    var q, odd := -halves / 2, -halves % 2;
    var digits := DecimalString(q);
    var head := "-" + digits;
    var c := HalfChar(odd);
    assert SetTempString(halves) == head + "." + [c];
    assert ParseSetTemp(head + "." + [c]) == -(2 * q + odd) by {
      assert head[0] == '-' && head[1..] == digits;
      ParseSetTempParts(head, c);
      DecimalStringRoundTrip(q);
    }
    assert -halves == 2 * q + odd;
  }

  /**
   * Every set temperature in [16.0, 32.0] is shown as four characters:
   * two digits, a point and a digit, each of which the seven-segment
   * table knows.
   */
  lemma ValidSetTempString(halves: int)
    requires 32 <= halves <= 64
    ensures |SetTempString(halves)| == 4 && SetTempString(halves)[2] == '.'
    ensures forall i :: 0 <= i < 4 && i != 2 ==>
      SetTempString(halves)[i] in DigitChars && SetTempString(halves)[i] in Patterns()
  {
  }

  /** 23.5 °C is shown as "23.5". */
  lemma SetTempStringExample()
    ensures SetTempString(47) == "23.5"
  {
    assert DecimalString(23) == "23";
  }

  // ---------------------------------------------------------------------------
  // Set-temperature layout
  // ---------------------------------------------------------------------------

  const TempX := 455
  const TempY := 28

  /** What the layout loop draws for one character, at its x. */
  datatype Mark = DigitAt(x: int, c: char) | PointAt(x: int)

  /** The horizontal advance of one character: 10 for the point, 32 for a digit glyph. */
  function Advance(c: char): (r: int)
    ensures r > 0
    ensures c != '.' ==> r > DimsOf(Large).w
  {
    if c == '.' then 10 else 32
  }

  /** The total advance of a string. */
  function Pitch(s: string): int
    decreases |s|
  {
    if s == [] then 0 else Pitch(s[..|s| - 1]) + Advance(s[|s| - 1])
  }

  /** The advance of a string is 10 for each point and 32 for each other character. */
  lemma {:induction false} PitchCountsPoints(s: string)
    ensures Pitch(s) == 10 * multiset(s)['.'] + 32 * (|s| - multiset(s)['.'])
    decreases |s|
  {
    if s != [] {
      assert s == s[..|s| - 1] + [s[|s| - 1]];
      PitchCountsPoints(s[..|s| - 1]);
    }
  }

  /** The mark for character i: a point or a digit glyph at 455 plus the advance before it. */
  function MarkAt(s: string, i: nat): Mark
    requires i < |s|
  {
    if s[i] == '.' then PointAt(TempX + Pitch(s[..i])) else DigitAt(TempX + Pitch(s[..i]), s[i])
  }

  /**
   * The loop of `draw` over the set-temperature string: character i is
   * drawn at 455 plus the advance of the characters before it, and the
   * degree sign goes after the whole string's advance.
   */
  method LayoutSetTemp(s: string) returns (marks: seq<Mark>, xEnd: int)
    ensures |marks| == |s|
    ensures forall i :: 0 <= i < |s| ==>
      marks[i] == (if s[i] == '.' then PointAt(TempX + Pitch(s[..i])) else DigitAt(TempX + Pitch(s[..i]), s[i]))
    ensures xEnd == TempX + Pitch(s)
  {
    marks := [];
    var xPos := TempX;
    for i := 0 to |s|
      invariant |marks| == i
      invariant xPos == TempX + Pitch(s[..i])
      invariant forall j :: 0 <= j < i ==> marks[j] == MarkAt(s, j)
    {
      assert s[..i + 1][..i] == s[..i];
      if s[i] == '.' {
        marks := marks + [PointAt(xPos)];
        xPos := xPos + 10;
      } else {
        marks := marks + [DigitAt(xPos, s[i])];
        xPos := xPos + 32;
      }
    }
    assert s[..|s|] == s;
    xEnd := xPos;
  }

  /**
   * A digit's large glyph drawn by the layout loop ends before the mark of
   * any later character: its box is 24 wide and the next character starts
   * at least 32 further on.
   */
  lemma {:induction false} LaidOutGlyphsDoNotOverlap(s: string, i: nat, j: nat)
    requires i < j <= |s| && s[i] != '.'
    ensures Pitch(s[..j]) >= Pitch(s[..i]) + 32
    ensures var g := Glyph(TempX + Pitch(s[..i]), TempY, s[i], Large);
      forall p, k :: 0 <= p < |g| && 0 <= k < |g[p]| ==> g[p][k].x < TempX + Pitch(s[..j])
    decreases j
  {
    assert s[..j][..j - 1] == s[..j - 1];
    if j > i + 1 {
      LaidOutGlyphsDoNotOverlap(s, i, j - 1);
    }
  }

  /**
   * For any valid set temperature the digits sit at 455, 487 and 529, the
   * point at 519, and the degree sign (5 past the end) at 566, inside the
   * 580-pixel-wide display.
   */
  lemma ValidSetTempLayout(halves: int)
    requires 32 <= halves <= 64
    ensures var s := SetTempString(halves);
      && |s| == 4
      && Pitch(s[..0]) == 0 && Pitch(s[..1]) == 32 && Pitch(s[..2]) == 64 && Pitch(s[..3]) == 74
      && Pitch(s) == 106
      && TempX + Pitch(s) + 5 < 580
  {
    var s := SetTempString(halves);
    ValidSetTempString(halves);
    assert s[0] != '.' && s[1] != '.' && s[3] != '.' by {
      assert s[0] in DigitChars && s[1] in DigitChars && s[3] in DigitChars;
    }
    DigitsPointDigitPitch(s);
  }

  /** The pitches of the prefixes of a string shaped digit, digit, point, digit. */
  lemma DigitsPointDigitPitch(s: string)
    requires |s| == 4 && s[0] != '.' && s[1] != '.' && s[2] == '.' && s[3] != '.'
    ensures Pitch(s[..0]) == 0 && Pitch(s[..1]) == 32 && Pitch(s[..2]) == 64 && Pitch(s[..3]) == 74
    ensures Pitch(s) == 106
  {
    assert s[..1][..0] == s[..0] == [];
    assert s[..2][..1] == s[..1];
    assert s[..3][..2] == s[..2];
    assert s[..4][..3] == s[..3];
    assert s[..4] == s;
  }

  /**
   * Every state the controller can be in is shown without surprises: a
   * five-character clock, a four-character set temperature and a fan bar
   * with exactly `fanSpeed` cells filled.
   */
  lemma ValidStateRenders(s: Climate.Snapshot)
    requires Climate.Valid(s)
    ensures |ClockString(s.hours, s.minutes)| == 5
    ensures |SetTempString(s.setTempHalves)| == 4
    ensures TempX + Pitch(SetTempString(s.setTempHalves)) == 561
    ensures FilledCount(seq(BarCells, i requires 0 <= i < BarCells => BarCell(i, i < s.fanSpeed))) == s.fanSpeed
  {
    ClockStringShape(s.hours, s.minutes);
    ValidSetTempLayout(s.setTempHalves);
    FanLevelBar(s.fanSpeed);
  }

  // ---------------------------------------------------------------------------
  // Fan bar
  // ---------------------------------------------------------------------------

  const BarX := 482
  const BarY := 88
  const BarCells := 8

  datatype Rect = Rect(x0: int, y0: int, x1: int, y1: int, filled: bool)

  /** Cell i of the fan bar: 10 by 14 pixels, 13 apart. */
  function BarCell(i: nat, filled: bool): Rect {
    Rect(BarX + i * 13, BarY, BarX + i * 13 + 10, BarY + 14, filled)
  }

  /** The number of filled cells. */
  function FilledCount(bar: seq<Rect>): nat
    decreases |bar|
  {
    if bar == [] then 0 else FilledCount(bar[..|bar| - 1]) + (if bar[|bar| - 1].filled then 1 else 0)
  }

  /** A bar whose cell i is filled exactly when i < level has min(max(level, 0), |bar|) filled cells. */
  lemma {:induction false} LeftmostFilledCount(bar: seq<Rect>, level: int)
    requires forall i :: 0 <= i < |bar| ==> (bar[i].filled <==> i < level)
    ensures FilledCount(bar) == if level <= 0 then 0 else if level >= |bar| then |bar| else level
    decreases |bar|
  {
    if bar != [] {
      LeftmostFilledCount(bar[..|bar| - 1], level);
    }
  }

  /** The bar for a fan level in [0, 8] has exactly that many filled cells. */
  lemma FanLevelBar(level: int)
    requires 0 <= level <= BarCells
    ensures FilledCount(seq(BarCells, i requires 0 <= i < BarCells => BarCell(i, i < level))) == level
  {
    var bar := seq(BarCells, i requires 0 <= i < BarCells => BarCell(i, i < level));
    forall i | 0 <= i < |bar|
      ensures bar[i].filled <==> i < level
    {
      assert bar[i] == BarCell(i, i < level);
    }
    LeftmostFilledCount(bar, level);
  }

  /**
   * The fan-bar loop of `draw`: eight cells left to right, the first
   * `fanSpeed` filled and the rest outlined.
   */
  method FanBar(fanSpeed: int) returns (bar: seq<Rect>)
    ensures |bar| == BarCells
    ensures forall i :: 0 <= i < |bar| ==> bar[i] == BarCell(i, i < fanSpeed)
    ensures 0 <= fanSpeed <= BarCells ==> FilledCount(bar) == fanSpeed
  {
    bar := [];
    for i := 0 to BarCells
      invariant |bar| == i
      invariant forall j :: 0 <= j < i ==> bar[j] == BarCell(j, j < fanSpeed)
    {
      var x := BarX + i * 13;
      if i < fanSpeed {
        bar := bar + [Rect(x, BarY, x + 10, BarY + 14, true)];
      } else {
        bar := bar + [Rect(x, BarY, x + 10, BarY + 14, false)];
      }
    }
    LeftmostFilledCount(bar, fanSpeed);
  }

  /**
   * The cells do not overlap, run from x = 482 to x = 583 and stay below
   * the 145-pixel height; the last cell ends 3 pixels past the 580-pixel
   * canvas width.
   */
  lemma BarCellsDisjoint(i: nat, j: nat, fi: bool, fj: bool)
    requires i < j < BarCells
    ensures BarCell(i, fi).x1 < BarCell(j, fj).x0
    ensures BarX <= BarCell(i, fi).x0 && BarCell(j, fj).x1 <= 583 && BarCell(j, fj).y1 < 145
    ensures j == BarCells - 1 ==> BarCell(j, fj).x1 == 583
  {
  }
}
