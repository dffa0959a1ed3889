/**
 * The imperative controller: the shared state record whose fields the
 * handlers assign in place (monochrome.py:28-38), and the application's
 * handlers (monochrome.py:693-748). Each handler method states its new
 * state outright and returns what it emitted; `Invoke`, `ButtonClick` and
 * `SliderClick` tie the methods to the value-level model in Climate.
 */
module Application {
  import Commands
  import opened Wrappers
  import opened Climate
  import opened Panels

  /** The `HVACState` record, one mutable field per entry. */
  class HVACState {
    var setTempHalves: int
    var outsideTemp: int
    var fanSpeed: int
    var acOn: bool
    var autoMode: bool
    var frontDefrost: bool
    var rearDefrost: bool
    var hours: int
    var minutes: int

    /** The record with its field defaults. */
    constructor ()
      ensures Value() == Defaults()
    {
      setTempHalves := 47;
      outsideTemp := -12;
      fanSpeed := 5;
      acOn := false;
      autoMode := true;
      frontDefrost := true;
      rearDefrost := true;
      hours := 13;
      minutes := 28;
    }

    /** The current field values. */
    function Value(): Snapshot
      reads this
    {
      Snapshot(setTempHalves, outsideTemp, fanSpeed, acOn, autoMode,
               frontDefrost, rearDefrost, hours, minutes)
    }
  }

  /** The application object: it owns the one state record. */
  class HVACApp {
    const state: HVACState

    /**
     * Builds the record with its defaults, then runs the first clock update
     * with the wall-clock time supplied as `hours` and `minutes`, which
     * also draws the display for the first time.
     */
    constructor (hours: int, minutes: int)
      ensures fresh(state)
      ensures state.Value() == Defaults().(hours := hours, minutes := minutes)
      ensures 0 <= hours < 24 && 0 <= minutes < 60 ==> Valid(state.Value())
    {
      state := new HVACState();
      new;
      var _ := UpdateClock(hours, minutes);
    }

    /** `_on_off`: logs OFF, changes nothing. */
    method OnOff() returns (e: Effect)
      ensures e == LogOnly
    {
      e := LogOnly;
    }

    /** `_on_recirc`: logs Recirc, changes nothing. */
    method OnRecirc() returns (e: Effect)
      ensures e == LogOnly
    {
      e := LogOnly;
    }

    /** The lambda bound to `hazard`: logs, changes nothing. */
    method LogHazard() returns (e: Effect)
      ensures e == LogOnly
    {
      e := LogOnly;
    }

    /** The lambda bound to `air_dir`: logs, changes nothing. */
    method LogAirDir() returns (e: Effect)
      ensures e == LogOnly
    {
      e := LogOnly;
    }

    /** `_on_ac`: flips A/C, logs, redraws. */
    method OnAc() returns (e: Effect)
      modifies state
      ensures state.Value() == old(state.Value()).(acOn := !old(state.acOn))
      ensures e == LogAndRefresh
    {
      state.acOn := !state.acOn;
      e := LogAndRefresh;
    }

    /** `_on_auto`: flips auto mode, logs, redraws. */
    method OnAuto() returns (e: Effect)
      modifies state
      ensures state.Value() == old(state.Value()).(autoMode := !old(state.autoMode))
      ensures e == LogAndRefresh
    {
      state.autoMode := !state.autoMode;
      e := LogAndRefresh;
    }

    /** `_on_front_def`: flips front defrost, logs, redraws. */
    method OnFrontDef() returns (e: Effect)
      modifies state
      ensures state.Value() == old(state.Value()).(frontDefrost := !old(state.frontDefrost))
      ensures e == LogAndRefresh
    {
      state.frontDefrost := !state.frontDefrost;
      e := LogAndRefresh;
    }

    /** `_on_rear_def`: flips rear defrost, logs, redraws. */
    method OnRearDef() returns (e: Effect)
      modifies state
      ensures state.Value() == old(state.Value()).(rearDefrost := !old(state.rearDefrost))
      ensures e == LogAndRefresh
    {
      state.rearDefrost := !state.rearDefrost;
      e := LogAndRefresh;
    }

    /** `_on_fan_up`: one level up below 8, otherwise nothing at all. */
    method OnFanUp() returns (e: Effect)
      modifies state
      ensures old(state.fanSpeed) < MaxFanSpeed ==>
        state.Value() == old(state.Value()).(fanSpeed := old(state.fanSpeed) + 1) && e == LogAndRefresh
      ensures old(state.fanSpeed) >= MaxFanSpeed ==> state.Value() == old(state.Value()) && e == Silent
    {
      e := Silent;
      if state.fanSpeed < MaxFanSpeed {
        state.fanSpeed := state.fanSpeed + 1;
        e := LogAndRefresh;
      }
    }

    /** `_on_fan_down`: one level down above 0, otherwise nothing at all. */
    method OnFanDown() returns (e: Effect)
      modifies state
      ensures old(state.fanSpeed) > 0 ==>
        state.Value() == old(state.Value()).(fanSpeed := old(state.fanSpeed) - 1) && e == LogAndRefresh
      ensures old(state.fanSpeed) <= 0 ==> state.Value() == old(state.Value()) && e == Silent
    {
      e := Silent;
      if state.fanSpeed > 0 {
        state.fanSpeed := state.fanSpeed - 1;
        e := LogAndRefresh;
      }
    }

    /** `_on_temp_up`: half a degree up below 32.0 °C, otherwise nothing at all. */
    method OnTempUp() returns (e: Effect)
      modifies state
      ensures old(state.setTempHalves) < MaxTempHalves ==>
        state.Value() == old(state.Value()).(setTempHalves := old(state.setTempHalves) + 1) && e == LogAndRefresh
      ensures old(state.setTempHalves) >= MaxTempHalves ==> state.Value() == old(state.Value()) && e == Silent
    {
      e := Silent;
      if state.setTempHalves < MaxTempHalves {
        state.setTempHalves := state.setTempHalves + 1;
        e := LogAndRefresh;
      }
    }

    /** `_on_temp_down`: half a degree down above 16.0 °C, otherwise nothing at all. */
    method OnTempDown() returns (e: Effect)
      modifies state
      ensures old(state.setTempHalves) > MinTempHalves ==>
        state.Value() == old(state.Value()).(setTempHalves := old(state.setTempHalves) - 1) && e == LogAndRefresh
      ensures old(state.setTempHalves) <= MinTempHalves ==> state.Value() == old(state.Value()) && e == Silent
    {
      e := Silent;
      if state.setTempHalves > MinTempHalves {
        state.setTempHalves := state.setTempHalves - 1;
        e := LogAndRefresh;
      }
    }

    /**
     * `_update_clock` with the wall-clock time as parameters: stores hours
     * and minutes, always redraws, logs nothing.
     */
    method UpdateClock(hours: int, minutes: int) returns (e: Effect)
      modifies state
      ensures state.Value() == old(state.Value()).(hours := hours, minutes := minutes)
      ensures Outcome(state.Value(), e) == Tick(old(state.Value()), hours, minutes)
    {
      state.hours := hours;
      state.minutes := minutes;
      e := RefreshOnly;
    }

    /** Calling the callable a handler names, as the callback map does. */
    method Invoke(h: Commands.Handler) returns (e: Effect)
      modifies state
      ensures Outcome(state.Value(), e) == Step(old(state.Value()), h)
    {
      match h
      case OnOff => e := OnOff();
      case OnRecirc => e := OnRecirc();
      case HazardLog => e := LogHazard();
      case AirDirLog => e := LogAirDir();
      case OnAc => e := OnAc();
      case OnAuto => e := OnAuto();
      case OnFrontDef => e := OnFrontDef();
      case OnRearDef => e := OnRearDef();
      case OnFanUp => e := OnFanUp();
      case OnFanDown => e := OnFanDown();
      case OnTempUp => e := OnTempUp();
      case OnTempDown => e := OnTempDown();
    }

    /**
     * A click on the button row: exactly one callback runs, the one bound
     * to the band of x.
     */
    method ButtonClick(x: int) returns (ran: Commands.Handler, e: Effect)
      modifies state
      ensures Some(ran) == Commands.Lookup(ButtonCommand(x))
      ensures Outcome(state.Value(), e) == Dispatch(old(state.Value()), ButtonCommand(x))
    {
      ran := Commands.Lookup(ButtonCommand(x)).value;
      e := Invoke(ran);
    }

    /**
     * A click on the slider row: the bound callback runs, or nothing runs
     * in a dead zone and nothing changes.
     */
    method SliderClick(x: int) returns (ran: Option<Commands.Handler>, e: Effect)
      modifies state
      ensures SliderCommand(x).None? ==> ran == None && e == Silent && state.Value() == old(state.Value())
      ensures SliderCommand(x).Some? ==>
        ran == Commands.Lookup(SliderCommand(x).value) &&
        Outcome(state.Value(), e) == Dispatch(old(state.Value()), SliderCommand(x).value)
    {
      match SliderCommand(x)
      case None =>
        ran, e := None, Silent;
      case Some(c) =>
        var h := Commands.Lookup(c).value;
        ran := Some(h);
        e := Invoke(h);
    }
  }
}
