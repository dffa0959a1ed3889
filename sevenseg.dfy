/**
 * The seven-segment glyphs of the display (monochrome.py:267-360): the
 * segment pattern table with its all-off default, and the integer
 * geometry of the polygon drawn for each lit segment in the two size
 * classes.
 */
module SevenSegment {

  /** The two size classes; any size other than 'large' is drawn small. */
  datatype Size = Large | Small

  /** Width, height and segment thickness of a glyph. */
  datatype Dims = Dims(w: int, h: int, t: int)

  function DimsOf(size: Size): (d: Dims)
    ensures d.w > 0 && d.h > 0 && d.t > 0
  {
    match size
    case Large => Dims(24, 44, 5)
    case Small => Dims(12, 20, 3)
  }

  /** The characters the pattern table has an entry for. */
  const TableChars := "0123456789- "

  /**
   * The pattern table: segments A, B, C, D, E, F, G in that order, 1
   * lighting a segment. It has an entry, of seven 0/1 values, exactly for
   * the ten digits, '-' and ' '.
   */
  function Patterns(): (m: map<char, seq<int>>)
    ensures forall c :: c in m <==> c in TableChars
    ensures forall c :: c in m ==> |m[c]| == 7 && forall i :: 0 <= i < 7 ==> m[c][i] == 0 || m[c][i] == 1
  {
    map[
    '0' := [1, 1, 1, 1, 1, 1, 0],
    '1' := [0, 1, 1, 0, 0, 0, 0],
    '2' := [1, 1, 0, 1, 1, 0, 1],
    '3' := [1, 1, 1, 1, 0, 0, 1],
    '4' := [0, 1, 1, 0, 0, 1, 1],
    '5' := [1, 0, 1, 1, 0, 1, 1],
    '6' := [1, 0, 1, 1, 1, 1, 1],
    '7' := [1, 1, 1, 0, 0, 0, 0],
    '8' := [1, 1, 1, 1, 1, 1, 1],
    '9' := [1, 1, 1, 1, 0, 1, 1],
    '-' := [0, 0, 0, 0, 0, 0, 1],
    ' ' := [0, 0, 0, 0, 0, 0, 0]
    ]
  }

  const AllOff: seq<int> := [0, 0, 0, 0, 0, 0, 0]

  /** `patterns.get(digit, all off)`: every character has a 7-entry 0/1 pattern. */
  function SegmentsOf(c: char): (r: seq<int>)
    ensures |r| == 7
    ensures forall i :: 0 <= i < |r| ==> r[i] == 0 || r[i] == 1
    ensures c !in Patterns() ==> r == AllOff
  {
    if c in Patterns() then Patterns()[c] else AllOff
  }

  /** Segment i is drawn for character c. */
  predicate Lit(c: char, i: nat)
    requires i < 7
  {
    SegmentsOf(c)[i] != 0
  }

  /** The number of nonzero entries of a pattern. */
  function LitCount(segs: seq<int>): (n: nat)
    ensures n <= |segs|
  {
    if segs == [] then 0 else (if segs[0] != 0 then 1 else 0) + LitCount(segs[1..])
  }

  /** '-' lights segment G alone. */
  lemma DashLightsOnlyG(i: nat)
    requires i < 7
    ensures Lit('-', i) <==> i == 6
  {
  }

  /** '8' lights all seven segments. */
  lemma EightLightsAll(i: nat)
    requires i < 7
    ensures Lit('8', i)
  {
  }

  /** A space, and any character outside the table, lights nothing. */
  lemma BlankLightsNothing(c: char, i: nat)
    requires i < 7
    requires c == ' ' || c !in "0123456789-"
    ensures !Lit(c, i)
  {
  }

  /** The ten digits have ten different patterns, so a reading is unambiguous. */
  lemma DigitPatternsDistinct(c1: char, c2: char)
    requires c1 in "0123456789" && c2 in "0123456789" && c1 != c2
    ensures SegmentsOf(c1) != SegmentsOf(c2)
  {
  }

  // ---------------------------------------------------------------------------
  // Geometry
  // ---------------------------------------------------------------------------

  datatype Point = Point(x: int, y: int)

  /** The glyph's box: from (x, y) to (x + w, y + h). */
  predicate InBox(p: Point, x: int, y: int, d: Dims) {
    x <= p.x <= x + d.w && y <= p.y <= y + d.h
  }

  /**
   * The quadrilateral drawn for segment i at origin (x, y): four vertices,
   * all inside the glyph's box. Python's `//` is on positive values here.
   */
  function SegmentPolygon(i: nat, x: int, y: int, size: Size): (p: seq<Point>)
    requires i < 7
    ensures |p| == 4
    ensures forall k :: 0 <= k < |p| ==> InBox(p[k], x, y, DimsOf(size))
  {
    var d := DimsOf(size);
    var w, h, t := d.w, d.h, d.t;
    match i
    case 0 => [Point(x + t, y), Point(x + w - t, y), Point(x + w - t - 2, y + t), Point(x + t + 2, y + t)]
    case 1 => [Point(x + w, y + t), Point(x + w, y + h / 2 - 2), Point(x + w - t, y + h / 2 - 2), Point(x + w - t, y + t + 2)]
    case 2 => [Point(x + w, y + h / 2 + 2), Point(x + w, y + h - t), Point(x + w - t, y + h - t - 2), Point(x + w - t, y + h / 2 + 2)]
    case 3 => [Point(x + t, y + h), Point(x + w - t, y + h), Point(x + w - t - 2, y + h - t), Point(x + t + 2, y + h - t)]
    case 4 => [Point(x, y + h / 2 + 2), Point(x, y + h - t), Point(x + t, y + h - t - 2), Point(x + t, y + h / 2 + 2)]
    case 5 => [Point(x, y + t), Point(x, y + h / 2 - 2), Point(x + t, y + h / 2 - 2), Point(x + t, y + t + 2)]
    case 6 => [Point(x + t + 1, y + h / 2 - t / 2), Point(x + w - t - 1, y + h / 2 - t / 2),
               Point(x + w - t - 1, y + h / 2 + t / 2), Point(x + t + 1, y + h / 2 + t / 2)]
  }

  /** The lit segments from segment i on, in increasing order. */
  function LitIndices(segs: seq<int>, i: nat): (r: seq<nat>)
    requires |segs| == 7 && i <= 7
    ensures forall p :: 0 <= p < |r| ==> i <= r[p] < 7 && segs[r[p]] != 0
    ensures forall p, q :: 0 <= p < q < |r| ==> r[p] < r[q]
    ensures forall j {:trigger j in r} :: i <= j < 7 && segs[j] != 0 ==> j in r
    ensures |r| == LitCount(segs[i..])
    decreases 7 - i
  {
    if i == 7 then []
    else
      var rest := LitIndices(segs, i + 1);
      assert segs[i..][0] == segs[i] && segs[i..][1..] == segs[i + 1..];
      (if segs[i] != 0 then [i] else []) + rest
  }

  /**
   * `_draw_7seg`: the polygons drawn for one character. The p-th polygon is
   * that of the p-th lit segment in order A..G, and every vertex lies
   * inside the box from (x, y) to (x + w, y + h).
   */
  function Glyph(x: int, y: int, digit: char, size: Size): (r: seq<seq<Point>>)
    ensures |r| == |LitIndices(SegmentsOf(digit), 0)|
    ensures forall p :: 0 <= p < |r| ==>
      r[p] == SegmentPolygon(LitIndices(SegmentsOf(digit), 0)[p], x, y, size)
    ensures forall p, k :: 0 <= p < |r| && 0 <= k < |r[p]| ==> InBox(r[p][k], x, y, DimsOf(size))
  {
    Polygons(LitIndices(SegmentsOf(digit), 0), x, y, size)
  }

  /** The polygons of the given segments, in the given order, all inside the box. */
  function Polygons(segments: seq<nat>, x: int, y: int, size: Size): (r: seq<seq<Point>>)
    requires forall p :: 0 <= p < |segments| ==> segments[p] < 7
    ensures |r| == |segments|
    ensures forall p :: 0 <= p < |r| ==> r[p] == SegmentPolygon(segments[p], x, y, size)
    ensures forall p, k :: 0 <= p < |r| && 0 <= k < |r[p]| ==> InBox(r[p][k], x, y, DimsOf(size))
  {
    seq(|segments|, p requires 0 <= p < |segments| => SegmentPolygon(segments[p], x, y, size))
  }

  /**
   * A glyph draws one polygon per segment its pattern lights: segment j's
   * polygon is among those drawn exactly when the pattern lights j.
   */
  lemma GlyphDrawsLitSegments(x: int, y: int, digit: char, size: Size)
    ensures |Glyph(x, y, digit, size)| == LitCount(SegmentsOf(digit))
    ensures forall j :: 0 <= j < 7 ==> (Lit(digit, j) <==> j in LitIndices(SegmentsOf(digit), 0))
  {
    assert SegmentsOf(digit)[0..] == SegmentsOf(digit);
  }

  /** '8' draws all seven segment polygons in order; '-' draws the middle bar G only; a blank or unknown character draws none. */
  lemma GlyphCounts(x: int, y: int, size: Size, c: char)
    ensures Glyph(x, y, '8', size) == seq(7, j requires 0 <= j < 7 => SegmentPolygon(j, x, y, size))
    ensures Glyph(x, y, '-', size) == [SegmentPolygon(6, x, y, size)]
    ensures c == ' ' || c !in Patterns() ==> Glyph(x, y, c, size) == []
  {
    EightDrawsAll(x, y, size);
    DashDrawsOnlyG(x, y, size);
  }

  /** When every segment from i on is lit, the lit indices are i, i + 1, ..., 6. */
  lemma {:induction false} AllLitIndices(segs: seq<int>, i: nat)
    requires |segs| == 7 && i <= 7
    requires forall j :: i <= j < 7 ==> segs[j] != 0
    ensures |LitIndices(segs, i)| == 7 - i
    ensures forall p :: 0 <= p < 7 - i ==> LitIndices(segs, i)[p] == i + p
    decreases 7 - i
  {
    if i < 7 {
      AllLitIndices(segs, i + 1);
    }
  }

  /** When only segment 6 is lit from i on, it is the one lit index. */
  lemma {:induction false} OnlyLastLitIndices(segs: seq<int>, i: nat)
    requires |segs| == 7 && i < 7
    requires forall j :: i <= j < 6 ==> segs[j] == 0
    requires segs[6] != 0
    ensures LitIndices(segs, i) == [6]
    decreases 7 - i
  {
    if i < 6 {
      OnlyLastLitIndices(segs, i + 1);
    }
  }

  lemma EightDrawsAll(x: int, y: int, size: Size)
    ensures Glyph(x, y, '8', size) == seq(7, j requires 0 <= j < 7 => SegmentPolygon(j, x, y, size))
  {
    assert SegmentsOf('8') == [1, 1, 1, 1, 1, 1, 1];
    AllLitIndices(SegmentsOf('8'), 0);
  }

  lemma DashDrawsOnlyG(x: int, y: int, size: Size)
    ensures Glyph(x, y, '-', size) == [SegmentPolygon(6, x, y, size)]
  {
    assert SegmentsOf('-') == [0, 0, 0, 0, 0, 0, 1];
    OnlyLastLitIndices(SegmentsOf('-'), 0);
  }
}
