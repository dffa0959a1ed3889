/**
 * The command names the two control panels dispatch, the callbacks the
 * application binds to them, and the callback map that joins the two
 * (monochrome.py:654-669).
 */
module Commands {
  import opened Wrappers

  /** The fourteen names a panel can look up in the callback map. */
  datatype Command =
    | Off | Recirc | Ac | Auto | Hazard | FrontDef | AirDir | RearDef
    | FanUp | FanDown | PassTempUp | PassTempDown | DrvTempUp | DrvTempDown
  {
    /** The string key under which the application registers the callback. */
    function Name(): string {
      match this
      case Off => "off"
      case Recirc => "recirc"
      case Ac => "ac"
      case Auto => "auto"
      case Hazard => "hazard"
      case FrontDef => "front_def"
      case AirDir => "air_dir"
      case RearDef => "rear_def"
      case FanUp => "fan_up"
      case FanDown => "fan_down"
      case PassTempUp => "pass_temp_up"
      case PassTempDown => "pass_temp_down"
      case DrvTempUp => "drv_temp_up"
      case DrvTempDown => "drv_temp_down"
    }
  }

  /**
   * The callables stored in the map: the application's `_on_*` methods and
   * the two logging lambdas bound to `hazard` and `air_dir`.
   */
  datatype Handler =
    | OnOff | OnRecirc | OnAc | OnAuto | HazardLog | OnFrontDef | AirDirLog
    | OnRearDef | OnFanUp | OnFanDown | OnTempUp | OnTempDown

  /**
   * The callback map built in the application's constructor. The lemmas
   * below state its keys and which commands share a handler.
   */
  const Callbacks: map<string, Handler> :=
    map[
      "off" := OnOff,
      "recirc" := OnRecirc,
      "ac" := OnAc,
      "auto" := OnAuto,
      "hazard" := HazardLog,
      "front_def" := OnFrontDef,
      "air_dir" := AirDirLog,
      "rear_def" := OnRearDef,
      "fan_up" := OnFanUp,
      "fan_down" := OnFanDown,
      "pass_temp_up" := OnTempUp,
      "pass_temp_down" := OnTempDown,
      "drv_temp_up" := OnTempUp,
      "drv_temp_down" := OnTempDown
    ]

  /** The handler bound to each command, read off the constructor's list entry by entry. */
  function BoundHandler(c: Command): Handler {
    match c
    case Off => OnOff
    case Recirc => OnRecirc
    case Ac => OnAc
    case Auto => OnAuto
    case Hazard => HazardLog
    case FrontDef => OnFrontDef
    case AirDir => AirDirLog
    case RearDef => OnRearDef
    case FanUp => OnFanUp
    case FanDown => OnFanDown
    case PassTempUp => OnTempUp
    case PassTempDown => OnTempDown
    case DrvTempUp => OnTempUp
    case DrvTempDown => OnTempDown
  }

  /**
   * `callbacks.get(name, lambda: None)`: the bound handler, or None for the
   * no-op default. Every name the panels use is bound, so the default
   * never fires.
   */
  function Lookup(c: Command): (r: Option<Handler>)
    ensures r.Some?
    ensures r.value == Callbacks[c.Name()]
    ensures r.value == BoundHandler(c)
  {
    if c.Name() in Callbacks then Some(Callbacks[c.Name()]) else None
  }

  /** Distinct commands have distinct keys, so no command shadows another. */
  lemma NamesAreDistinct(c1: Command, c2: Command)
    requires c1 != c2
    ensures c1.Name() != c2.Name()
  {
  }

  /** The map has exactly the fourteen command names as keys. */
  lemma KeysAreCommandNames(key: string)
    ensures key in Callbacks <==> exists c: Command :: c.Name() == key
  {
    if key in Callbacks {
      var c: Command :|
        c in {Off, Recirc, Ac, Auto, Hazard, FrontDef, AirDir, RearDef,
              FanUp, FanDown, PassTempUp, PassTempDown, DrvTempUp, DrvTempDown}
        && c.Name() == key;
    }
  }

  /**
   * Passenger and driver temperature zones are bound to the same two
   * handlers, so both act on the one set temperature.
   */
  lemma TemperatureZonesShareHandlers()
    ensures Lookup(PassTempUp) == Lookup(DrvTempUp) == Some(OnTempUp)
    ensures Lookup(PassTempDown) == Lookup(DrvTempDown) == Some(OnTempDown)
  {
  }

  /** Apart from the temperature pairs, every command has its own handler. */
  lemma OtherCommandsHaveOwnHandlers(c1: Command, c2: Command)
    requires c1 != c2
    requires Lookup(c1) == Lookup(c2)
    ensures {c1, c2} == {PassTempUp, DrvTempUp} || {c1, c2} == {PassTempDown, DrvTempDown}
  {
    assert BoundHandler(c1) == BoundHandler(c2);
  }
}
