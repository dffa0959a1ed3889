/**
 * The click dispatchers of the button row (monochrome.py:482-499) and of
 * the slider row (monochrome.py:615-634): total maps from the click's x
 * pixel to the command whose callback is looked up.
 */
module Panels {
  import opened Wrappers
  import opened Commands

  // ---------------------------------------------------------------------------
  // Button row
  // ---------------------------------------------------------------------------

  /** The divider x positions drawn between the eight buttons. */
  const Dividers: seq<int> := [72, 144, 216, 288, 360, 432, 504]

  /** The buttons from left to right. */
  const ButtonOrder: seq<Command> := [Off, Recirc, Ac, Auto, Hazard, FrontDef, AirDir, RearDef]

  /** `HVACButtons._on_click`: the if/elif chain over x. */
  function ButtonCommand(x: int): (c: Command)
    ensures c in ButtonOrder
  {
    if x < 72 then Off
    else if x < 144 then Recirc
    else if x < 216 then Ac
    else if x < 288 then Auto
    else if x < 360 then Hazard
    else if x < 432 then FrontDef
    else if x < 504 then AirDir
    else RearDef
  }

  /**
   * Band k of the button row: from divider k-1 (inclusive) to divider k
   * (exclusive); the first band is open to the left, the last to the right.
   */
  predicate InButtonBand(x: int, k: nat)
    requires k < |ButtonOrder|
  {
    (k == 0 || Dividers[k - 1] <= x) && (k == |Dividers| || x < Dividers[k])
  }

  /** The number of dividers at or left of x: the band a click falls in. */
  function BandIndex(ds: seq<int>, x: int): (k: nat)
    ensures k <= |ds|
  {
    if ds == [] then 0
    else (if ds[0] <= x then 1 else 0) + BandIndex(ds[1..], x)
  }

  /**
   * The bands are contiguous and exhaustive: the button a click selects is
   * the one whose band contains x, and x lies in no other band.
   */
  lemma ButtonBandsPartition(x: int, k: nat)
    requires k < |ButtonOrder|
    ensures ButtonCommand(x) == ButtonOrder[k] <==> InButtonBand(x, k)
  {
  }

  /** Every click lies in exactly one band. */
  lemma ButtonBandUnique(x: int, j: nat, k: nat)
    requires j < |ButtonOrder| && k < |ButtonOrder|
    requires InButtonBand(x, j) && InButtonBand(x, k)
    ensures j == k
  {
    ButtonBandsPartition(x, j);
    ButtonBandsPartition(x, k);
  }

  /**
   * The button chosen is the one counted off by the dividers: the chain of
   * comparisons agrees with "number of dividers <= x".
   */
  lemma ButtonCommandCountsDividers(x: int)
    ensures ButtonCommand(x) == ButtonOrder[BandIndex(Dividers, x)]
  {
    var d := Dividers;
    assert BandIndex([], x) == 0;
    assert BandIndex([504], x) == (if 504 <= x then 1 else 0) + BandIndex([], x);
    assert BandIndex([432, 504], x) == (if 432 <= x then 1 else 0) + BandIndex([504], x);
    assert BandIndex([360, 432, 504], x) == (if 360 <= x then 1 else 0) + BandIndex([432, 504], x);
    assert BandIndex([288, 360, 432, 504], x)
        == (if 288 <= x then 1 else 0) + BandIndex([360, 432, 504], x);
    assert BandIndex([216, 288, 360, 432, 504], x)
        == (if 216 <= x then 1 else 0) + BandIndex([288, 360, 432, 504], x);
    assert BandIndex([144, 216, 288, 360, 432, 504], x)
        == (if 144 <= x then 1 else 0) + BandIndex([216, 288, 360, 432, 504], x);
    assert BandIndex(d, x) == (if 72 <= x then 1 else 0) + BandIndex([144, 216, 288, 360, 432, 504], x);
  }

  /** A click at x = 40 selects OFF and nothing else. */
  lemma ClickAtFortySelectsOff()
    ensures ButtonCommand(40) == Off
    ensures forall k :: 0 < k < |ButtonOrder| ==> !InButtonBand(40, k)
  {
  }

  // ---------------------------------------------------------------------------
  // Slider row
  // ---------------------------------------------------------------------------

  /** The x positions of the two section dividers of the slider row. */
  const SectionEdges: seq<int> := [193, 387]

  /** For each third, the inclusive range of x that selects nothing. */
  const DeadZones: seq<(int, int)> := [(50, 140), (240, 340), (430, 530)]

  /** The decrement and increment command of each third, left to right. */
  const Decrements: seq<Command> := [PassTempDown, FanDown, DrvTempDown]
  const Increments: seq<Command> := [PassTempUp, FanUp, DrvTempUp]

  /** `HVACSliders._on_click`: a command, or None in a dead zone. */
  function SliderCommand(x: int): (c: Option<Command>)
    ensures c.Some? ==> c.value in Decrements || c.value in Increments
  {
    if x < 193 then
      if x < 50 then Some(PassTempDown)
      else if x > 140 then Some(PassTempUp)
      else None
    else if x < 387 then
      if x < 240 then Some(FanDown)
      else if x > 340 then Some(FanUp)
      else None
    else
      if x < 430 then Some(DrvTempDown)
      else if x > 530 then Some(DrvTempUp)
      else None
  }

  /** The third of the slider row a click falls in (0, 1 or 2). */
  function Section(x: int): (k: nat)
    ensures k < |SectionEdges| + 1
    ensures k > 0 ==> SectionEdges[k - 1] <= x
    ensures k < |SectionEdges| ==> x < SectionEdges[k]
  {
    if x < SectionEdges[0] then 0 else if x < SectionEdges[1] then 1 else 2
  }

  /**
   * Table form of the slider row: in the third a click falls in, left of
   * the dead zone decrements, right of it increments, inside it nothing.
   */
  function ZoneCommand(x: int): Option<Command> {
    var k := Section(x);
    if x < DeadZones[k].0 then Some(Decrements[k])
    else if x > DeadZones[k].1 then Some(Increments[k])
    else None
  }

  /** The if/elif chain agrees with the table. */
  lemma SliderMatchesZoneTable(x: int)
    ensures SliderCommand(x) == ZoneCommand(x)
  {
  }

  /** A click selects nothing exactly when it falls in one of the three dead zones. */
  lemma SliderDeadZones(x: int)
    ensures SliderCommand(x).None? <==>
      (50 <= x <= 140 || 240 <= x <= 340 || 430 <= x <= 530)
  {
  }

  /** A command only ever comes from its own third of the row. */
  lemma SliderStaysInSection(x: int, k: nat)
    requires k < |Decrements|
    ensures SliderCommand(x) == Some(Decrements[k]) ==> Section(x) == k
    ensures SliderCommand(x) == Some(Increments[k]) ==> Section(x) == k
  {
  }

  /** Within each third the decrement zone lies left of the increment zone. */
  lemma DecrementPrecedesIncrement(x: int, y: int, k: nat)
    requires k < |Decrements|
    requires SliderCommand(x) == Some(Decrements[k])
    requires SliderCommand(y) == Some(Increments[k])
    ensures x < DeadZones[k].0 <= DeadZones[k].1 < y
  {
  }

  /** The button row and the slider row dispatch disjoint sets of commands. */
  lemma PanelsDispatchDisjointCommands(x: int, y: int)
    ensures SliderCommand(y) != Some(ButtonCommand(x))
  {
  }

  /** Each of the fourteen commands is selected by a click on one of the two rows. */
  lemma EveryCommandIsReachable(c: Command)
    ensures (exists x :: ButtonCommand(x) == c) || (exists x :: SliderCommand(x) == Some(c))
  {
    match c
    case Off => assert ButtonCommand(0) == c;
    case Recirc => assert ButtonCommand(72) == c;
    case Ac => assert ButtonCommand(144) == c;
    case Auto => assert ButtonCommand(216) == c;
    case Hazard => assert ButtonCommand(288) == c;
    case FrontDef => assert ButtonCommand(360) == c;
    case AirDir => assert ButtonCommand(432) == c;
    case RearDef => assert ButtonCommand(504) == c;
    case PassTempDown => assert SliderCommand(0) == Some(c);
    case PassTempUp => assert SliderCommand(141) == Some(c);
    case FanDown => assert SliderCommand(193) == Some(c);
    case FanUp => assert SliderCommand(341) == Some(c);
    case DrvTempDown => assert SliderCommand(387) == Some(c);
    case DrvTempUp => assert SliderCommand(531) == Some(c);
  }
}
