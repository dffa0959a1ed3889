/**
 * The value-level model of the HVAC controller: the state record
 * (monochrome.py:28-38) as a datatype, and the effect of each callback of
 * the application (monochrome.py:693-748) as a transition function.
 *
 * The set temperature is kept as a whole number of half degrees: 23.5 °C
 * is 47. Every value the handlers can reach is a multiple of 0.5, so this
 * is exact.
 */
module Climate {
  import opened Commands

  /** One reading of the state record's fields. */
  datatype Snapshot = Snapshot(
    setTempHalves: int,
    outsideTemp: int,
    fanSpeed: int,
    acOn: bool,
    autoMode: bool,
    frontDefrost: bool,
    rearDefrost: bool,
    hours: int,
    minutes: int)

  /** 16.0 °C and 32.0 °C in half degrees, and the top fan level. */
  const MinTempHalves := 32
  const MaxTempHalves := 64
  const MaxFanSpeed := 8

  /** The state's invariant: set temperature in [16, 32], fan in [0, 8], a valid clock time. */
  predicate Valid(s: Snapshot)
  {
    && MinTempHalves <= s.setTempHalves <= MaxTempHalves
    && 0 <= s.fanSpeed <= MaxFanSpeed
    && 0 <= s.hours < 24
    && 0 <= s.minutes < 60
  }

  /**
   * The record's field defaults: 23.5 °C, -12 °C outside, fan 5, A/C off,
   * auto on, both defrosts on, 13:28. They satisfy the invariant.
   */
  function Defaults(): (s: Snapshot)
    ensures Valid(s)
  {
    Snapshot(47, -12, 5, false, true, true, true, 13, 28)
  }

  /** What a handler did beyond the state: printed a CAN log line, redrew the display. */
  datatype Effect = Effect(logged: bool, refreshed: bool)

  const Silent := Effect(false, false)
  const LogOnly := Effect(true, false)
  const LogAndRefresh := Effect(true, true)
  const RefreshOnly := Effect(false, true)

  datatype Outcome = Outcome(next: Snapshot, effect: Effect)

  /** The four bus events that log and change nothing. */
  predicate IsLogOnly(h: Handler) {
    h == OnOff || h == OnRecirc || h == HazardLog || h == AirDirLog
  }

  /** The four boolean toggles. */
  predicate IsToggle(h: Handler) {
    h == OnAc || h == OnAuto || h == OnFrontDef || h == OnRearDef
  }

  /** The flag a toggle flips. */
  function Flag(s: Snapshot, h: Handler): bool
    requires IsToggle(h)
  {
    match h
    case OnAc => s.acOn
    case OnAuto => s.autoMode
    case OnFrontDef => s.frontDefrost
    case OnRearDef => s.rearDefrost
  }

  /**
   * Running one callback. The display is redrawn exactly when the state
   * changed, a redraw always comes with a log line, and the invariant is
   * kept.
   */
  function Step(s: Snapshot, h: Handler): (r: Outcome)
    ensures r.effect.refreshed <==> r.next != s
    ensures r.effect.refreshed ==> r.effect.logged
    ensures IsLogOnly(h) ==> r.effect.logged
    ensures Valid(s) ==> Valid(r.next)
  {
    match h
    case OnOff => Outcome(s, LogOnly)
    case OnRecirc => Outcome(s, LogOnly)
    case HazardLog => Outcome(s, LogOnly)
    case AirDirLog => Outcome(s, LogOnly)
    case OnAc =>
      var t := s.(acOn := !s.acOn);
      assert t != s && (Valid(s) ==> Valid(t));
      Outcome(t, LogAndRefresh)
    case OnAuto =>
      var t := s.(autoMode := !s.autoMode);
      assert t != s && (Valid(s) ==> Valid(t));
      Outcome(t, LogAndRefresh)
    case OnFrontDef =>
      var t := s.(frontDefrost := !s.frontDefrost);
      assert t != s && (Valid(s) ==> Valid(t));
      Outcome(t, LogAndRefresh)
    case OnRearDef =>
      var t := s.(rearDefrost := !s.rearDefrost);
      assert t != s && (Valid(s) ==> Valid(t));
      Outcome(t, LogAndRefresh)
    case OnFanUp =>
      if s.fanSpeed < MaxFanSpeed then
        var t := s.(fanSpeed := s.fanSpeed + 1);
        assert t != s && (Valid(s) ==> Valid(t));
        Outcome(t, LogAndRefresh)
      else Outcome(s, Silent)
    case OnFanDown =>
      if s.fanSpeed > 0 then
        var t := s.(fanSpeed := s.fanSpeed - 1);
        assert t != s && (Valid(s) ==> Valid(t));
        Outcome(t, LogAndRefresh)
      else Outcome(s, Silent)
    case OnTempUp =>
      if s.setTempHalves < MaxTempHalves then
        var t := s.(setTempHalves := s.setTempHalves + 1);
        assert t != s && (Valid(s) ==> Valid(t));
        Outcome(t, LogAndRefresh)
      else Outcome(s, Silent)
    case OnTempDown =>
      if s.setTempHalves > MinTempHalves then
        var t := s.(setTempHalves := s.setTempHalves - 1);
        assert t != s && (Valid(s) ==> Valid(t));
        Outcome(t, LogAndRefresh)
      else Outcome(s, Silent)
  }

  /**
   * The once-a-second clock update with the time supplied: it overwrites
   * the clock fields, keeps everything else and always redraws.
   */
  function Tick(s: Snapshot, hours: int, minutes: int): (r: Outcome)
    ensures r.next.hours == hours && r.next.minutes == minutes
    ensures r.next.(hours := s.hours, minutes := s.minutes) == s
    ensures r.effect == RefreshOnly
    ensures Valid(s) && 0 <= hours < 24 && 0 <= minutes < 60 ==> Valid(r.next)
  {
    Outcome(s.(hours := hours, minutes := minutes), RefreshOnly)
  }

  /** The callback run for a command, or nothing if it were unbound. */
  function Dispatch(s: Snapshot, c: Command): (r: Outcome)
    ensures r == Step(s, Lookup(c).value)
  {
    match Lookup(c)
    case Some(h) => Step(s, h)
    case None => Outcome(s, Silent)
  }

  /** Running callbacks one after another. */
  function Run(s: Snapshot, hs: seq<Handler>): Snapshot
    decreases hs
  {
    if hs == [] then s else Run(Step(s, hs[0]).next, hs[1..])
  }

  /** Pressing the same control n times. */
  function Repeat(s: Snapshot, h: Handler, n: nat): Snapshot
    decreases n
  {
    if n == 0 then s else Repeat(Step(s, h).next, h, n - 1)
  }

  // ---------------------------------------------------------------------------
  // Properties of single steps
  // ---------------------------------------------------------------------------

  /** OFF, Recirc, Hazard and Air direction log a line and leave the state alone. */
  lemma LogOnlyKeepsState(s: Snapshot, h: Handler)
    requires IsLogOnly(h)
    ensures Step(s, h) == Outcome(s, LogOnly)
  {
  }

  /** A toggle flips its own flag and no other field; it logs and redraws. */
  lemma ToggleFlipsOnlyItsFlag(s: Snapshot, h: Handler, other: Handler)
    requires IsToggle(h) && IsToggle(other) && other != h
    ensures Flag(Step(s, h).next, h) == !Flag(s, h)
    ensures Flag(Step(s, h).next, other) == Flag(s, other)
    ensures Step(s, h).next.setTempHalves == s.setTempHalves
    ensures Step(s, h).next.outsideTemp == s.outsideTemp
    ensures Step(s, h).next.fanSpeed == s.fanSpeed
    ensures Step(s, h).next.hours == s.hours && Step(s, h).next.minutes == s.minutes
    ensures Step(s, h).effect == LogAndRefresh
  {
  }

  /** Toggling twice restores the state. */
  lemma ToggleTwiceIsIdentity(s: Snapshot, h: Handler)
    requires IsToggle(h)
    ensures Step(Step(s, h).next, h).next == s
  {
  }

  /**
   * Fan up raises the fan speed by exactly one when it is below 8; at 8
   * nothing changes and nothing is logged or redrawn.
   */
  lemma FanUpSteps(s: Snapshot)
    ensures s.fanSpeed < MaxFanSpeed ==>
      Step(s, OnFanUp).next == s.(fanSpeed := s.fanSpeed + 1) && Step(s, OnFanUp).effect == LogAndRefresh
    ensures s.fanSpeed >= MaxFanSpeed ==> Step(s, OnFanUp) == Outcome(s, Silent)
  {
  }

  /** Fan down lowers it by exactly one when it is above 0; at 0 it is a silent no-op. */
  lemma FanDownSteps(s: Snapshot)
    ensures s.fanSpeed > 0 ==>
      Step(s, OnFanDown).next == s.(fanSpeed := s.fanSpeed - 1) && Step(s, OnFanDown).effect == LogAndRefresh
    ensures s.fanSpeed <= 0 ==> Step(s, OnFanDown) == Outcome(s, Silent)
  {
  }

  /** Temp up adds 0.5 °C while below 32.0 °C; at 32.0 °C it is a silent no-op. */
  lemma TempUpSteps(s: Snapshot)
    ensures s.setTempHalves < MaxTempHalves ==>
      Step(s, OnTempUp).next == s.(setTempHalves := s.setTempHalves + 1) && Step(s, OnTempUp).effect == LogAndRefresh
    ensures s.setTempHalves >= MaxTempHalves ==> Step(s, OnTempUp) == Outcome(s, Silent)
  {
  }

  /** Temp down takes 0.5 °C while above 16.0 °C; at 16.0 °C it is a silent no-op. */
  lemma TempDownSteps(s: Snapshot)
    ensures s.setTempHalves > MinTempHalves ==>
      Step(s, OnTempDown).next == s.(setTempHalves := s.setTempHalves - 1) && Step(s, OnTempDown).effect == LogAndRefresh
    ensures s.setTempHalves <= MinTempHalves ==> Step(s, OnTempDown) == Outcome(s, Silent)
  {
  }

  /** Both temperature zones of the slider row act on the one set temperature. */
  lemma PassengerAndDriverAgree(s: Snapshot)
    ensures Dispatch(s, PassTempUp) == Dispatch(s, DrvTempUp)
    ensures Dispatch(s, PassTempDown) == Dispatch(s, DrvTempDown)
  {
    TemperatureZonesShareHandlers();
  }

  // ---------------------------------------------------------------------------
  // Properties of runs
  // ---------------------------------------------------------------------------

  /** Any sequence of callbacks keeps the invariant. */
  lemma {:induction false} RunKeepsValid(s: Snapshot, hs: seq<Handler>)
    requires Valid(s)
    ensures Valid(Run(s, hs))
    decreases hs
  {
    if hs != [] {
      RunKeepsValid(Step(s, hs[0]).next, hs[1..]);
    }
  }

  /** A run of log-only events leaves the state as it was. */
  lemma {:induction false} LogOnlyRunKeepsState(s: Snapshot, hs: seq<Handler>)
    requires forall i :: 0 <= i < |hs| ==> IsLogOnly(hs[i])
    ensures Run(s, hs) == s
    decreases hs
  {
    if hs != [] {
      LogOnlyRunKeepsState(Step(s, hs[0]).next, hs[1..]);
    }
  }

  /** n presses of temp up saturate at 32.0 °C and touch nothing else. */
  lemma {:induction false} RepeatTempUp(s: Snapshot, n: nat)
    requires s.setTempHalves <= MaxTempHalves
    ensures Repeat(s, OnTempUp, n).setTempHalves ==
      (if s.setTempHalves + n < MaxTempHalves then s.setTempHalves + n else MaxTempHalves)
    ensures Repeat(s, OnTempUp, n).(setTempHalves := s.setTempHalves) == s
    decreases n
  {
    if n > 0 {
      RepeatTempUp(Step(s, OnTempUp).next, n - 1);
    }
  }

  /** n presses of temp down saturate at 16.0 °C and touch nothing else. */
  lemma {:induction false} RepeatTempDown(s: Snapshot, n: nat)
    requires s.setTempHalves >= MinTempHalves
    ensures Repeat(s, OnTempDown, n).setTempHalves ==
      (if s.setTempHalves - n > MinTempHalves then s.setTempHalves - n else MinTempHalves)
    ensures Repeat(s, OnTempDown, n).(setTempHalves := s.setTempHalves) == s
    decreases n
  {
    if n > 0 {
      RepeatTempDown(Step(s, OnTempDown).next, n - 1);
    }
  }

  /** n presses of fan up saturate at 8 and touch nothing else. */
  lemma {:induction false} RepeatFanUp(s: Snapshot, n: nat)
    requires s.fanSpeed <= MaxFanSpeed
    ensures Repeat(s, OnFanUp, n).fanSpeed ==
      (if s.fanSpeed + n < MaxFanSpeed then s.fanSpeed + n else MaxFanSpeed)
    ensures Repeat(s, OnFanUp, n).(fanSpeed := s.fanSpeed) == s
    decreases n
  {
    if n > 0 {
      RepeatFanUp(Step(s, OnFanUp).next, n - 1);
    }
  }

  /** n presses of fan down saturate at 0 and touch nothing else. */
  lemma {:induction false} RepeatFanDown(s: Snapshot, n: nat)
    requires s.fanSpeed >= 0
    ensures Repeat(s, OnFanDown, n).fanSpeed ==
      (if s.fanSpeed - n > 0 then s.fanSpeed - n else 0)
    ensures Repeat(s, OnFanDown, n).(fanSpeed := s.fanSpeed) == s
    decreases n
  {
    if n > 0 {
      RepeatFanDown(Step(s, OnFanDown).next, n - 1);
    }
  }

  /**
   * From the default 23.5 °C, 17 presses of temp up reach 32.0 °C and the
   * next press changes nothing, logs nothing and redraws nothing.
   */
  lemma SeventeenTempUpsFromDefaultSaturate()
    ensures Repeat(Defaults(), OnTempUp, 17).setTempHalves == MaxTempHalves
    ensures Repeat(Defaults(), OnTempUp, 16).setTempHalves == MaxTempHalves - 1
    ensures Step(Repeat(Defaults(), OnTempUp, 17), OnTempUp) == Outcome(Repeat(Defaults(), OnTempUp, 17), Silent)
  {
    RepeatTempUp(Defaults(), 17);
    RepeatTempUp(Defaults(), 16);
  }

  /** Fresh state, A/C pressed: A/C is on and one line is logged; pressed again it is off. */
  lemma AcScenario()
    ensures Step(Defaults(), OnAc).next.acOn
    ensures Step(Defaults(), OnAc).effect == LogAndRefresh
    ensures !Step(Step(Defaults(), OnAc).next, OnAc).next.acOn
  {
  }

  /** A clock tick at 14:05 stores 14 and 5. */
  lemma TickScenario()
    ensures Tick(Defaults(), 14, 5).next == Defaults().(hours := 14, minutes := 5)
  {
  }
}
