# Ford FG Falcon HVAC display: control core in Dafny

`monochrome.py` recreates the HVAC display of a Ford FG Falcon in tkinter. Under the drawing sits a small control core, and this project models it:

- **Commands** (`commands.dfy`): the fourteen command names, the callables the application binds to them, and the callback map with its `get(name, no-op)` lookup.
- **Panels** (`panels.dfy`): the click dispatchers of the button row (eight contiguous bands) and the slider row (three thirds, each with a decrement zone, a dead zone and an increment zone).
- **Climate** (`climate.dfy`): the state record as a value, and each callback as a transition `Step(state, handler)`. The transition returns the next state and an `Effect`, which says whether a CAN log line was printed and whether the display was redrawn. The clock update is `Tick`. The set temperature is a whole number of half degrees: 23.5 °C is 47, and the bounds 16.0 and 32.0 °C are 32 and 64.
- **Application** (`application.dfy`): the imperative form of the same core. `HVACState` is a class whose fields are assigned in place. `HVACApp` owns one of them and has one method per handler. Each method states its new state and returns its `Effect`. `Invoke`, `ButtonClick` and `SliderClick` prove that the methods agree with `Step` and `Dispatch`.
- **SevenSegment** (`sevenseg.dfy`): the segment pattern table with its all-off default, and the integer polygon geometry of each segment in the large and small size classes.
- **Display** (`display.dfy`): the `HH:MM` clock string, the `04.1f` set-temperature string, the loop that lays out the set-temperature characters at their horizontal pitch, and the loop that draws the eight-cell fan bar.

## Behaviour of the code worth noting

- In the slider row's left third, the passenger temp-up zone starts at x = 141, because the test is `x > 140`. It runs to 192, and the dead zone is 50..140.
- From the default 23.5 °C, seventeen presses of temp up reach 32.0 °C, and every further press is a no-op (`Climate.SeventeenTempUpsFromDefaultSaturate`).
- The bottom label "A/C Off" is a fixed string, so toggling A/C does not change it.
- The last fan-bar cell ends at x = 583, 3 pixels past the 580-pixel canvas width (`Display.BarCellsDisjoint`).

## Model

| member | source | states |
|---|---|---|
| `Commands.Lookup` | monochrome.py:654-669 | every command name is a key of the callback map `Callbacks`, so the no-op default of `get` never fires; the handler found is the map's entry for that name, which is the one the constructor lists for the command (`BoundHandler`) |
| `Commands.NamesAreDistinct` | monochrome.py:654-669 | distinct commands have distinct keys |
| `Commands.KeysAreCommandNames` | monochrome.py:654-669 | a string is a key of the map exactly when it is one of the fourteen command names |
| `Commands.TemperatureZonesShareHandlers` | monochrome.py:665-668 | passenger and driver temp up are both bound to `_on_temp_up`, and both temp downs to `_on_temp_down` |
| `Commands.OtherCommandsHaveOwnHandlers` | monochrome.py:654-669 | two different commands share a handler only when they are the passenger/driver temp-up pair or the temp-down pair |
| `Panels.ButtonCommand` | monochrome.py:482-499 | every x selects one of the eight button commands |
| `Panels.ButtonBandsPartition` | monochrome.py:482-499 | x selects button k exactly when x lies in band k, bounded by dividers k-1 (inclusive) and k (exclusive) of 72, 144, …, 504; x < 72 is OFF and x ≥ 504 is rear defrost |
| `Panels.ButtonBandUnique` | monochrome.py:482-499 | no x lies in two bands |
| `Panels.ButtonCommandCountsDividers` | monochrome.py:482-499 | the button chosen is the one whose index is the number of dividers at or left of x |
| `Panels.ClickAtFortySelectsOff` | monochrome.py:482-485 | a click at x = 40 selects OFF and lies in no other band |
| `Panels.SliderCommand` | monochrome.py:615-634 | a slider click selects one of the six decrement or increment commands, or none |
| `Panels.Section` | monochrome.py:615-634 | the third of the row is found by the edges 193 and 387 |
| `Panels.SliderMatchesZoneTable` | monochrome.py:615-634 | the if/elif chain equals the table form: in its third, left of the dead zone decrements, right of it increments, inside it nothing |
| `Panels.SliderDeadZones` | monochrome.py:615-634 | a click selects nothing exactly when 50 ≤ x ≤ 140, 240 ≤ x ≤ 340 or 430 ≤ x ≤ 530 |
| `Panels.SliderStaysInSection` | monochrome.py:615-634 | passenger commands come only from the left third, fan commands from the centre, driver commands from the right |
| `Panels.DecrementPrecedesIncrement` | monochrome.py:615-634 | in each third every decrement click lies left of the dead zone and every increment click right of it |
| `Panels.PanelsDispatchDisjointCommands` | monochrome.py:482-634 | the button row and the slider row never select the same command |
| `Panels.EveryCommandIsReachable` | monochrome.py:482-634 | each of the fourteen commands is selected by some click on one of the two rows |
| `Climate.Defaults` | monochrome.py:28-38 | the record's defaults (23.5 °C, -12 °C, fan 5, A/C off, auto, both defrosts on, 13:28) satisfy the invariant |
| `Climate.Step` | monochrome.py:693-741 | every callback keeps the invariant (set temp in [16, 32] in half-degree steps, fan in [0, 8]); the display is redrawn exactly when the state changed; a redraw always comes with a log line; the log-only events always log |
| `Climate.Tick` | monochrome.py:743-747 | the clock update stores the supplied hours and minutes, changes no other field, always redraws and logs nothing |
| `Climate.Dispatch` | monochrome.py:654-669 | running a command is running the handler the map binds to it |
| `Climate.LogOnlyKeepsState` | monochrome.py:693-697 | OFF, Recirc, Hazard and Air direction log and leave the whole state unchanged, without a redraw |
| `Climate.ToggleFlipsOnlyItsFlag` | monochrome.py:699-717 | each toggle negates its own flag, keeps the other three flags and every other field, and logs and redraws |
| `Climate.ToggleTwiceIsIdentity` | monochrome.py:699-717 | toggling twice restores the state |
| `Climate.FanUpSteps` | monochrome.py:719-723 | fan up adds exactly 1 below 8, and at 8 is a no-op with no log and no redraw |
| `Climate.FanDownSteps` | monochrome.py:725-729 | fan down subtracts exactly 1 above 0, and at 0 is a no-op with no log and no redraw |
| `Climate.TempUpSteps` | monochrome.py:731-735 | temp up adds 0.5 °C below 32.0 °C, and at 32.0 °C is a no-op with no log and no redraw |
| `Climate.TempDownSteps` | monochrome.py:737-741 | temp down takes 0.5 °C above 16.0 °C, and at 16.0 °C is a no-op with no log and no redraw |
| `Climate.PassengerAndDriverAgree` | monochrome.py:665-668 | the passenger and driver temperature commands have the same effect on the one set temperature |
| `Climate.RunKeepsValid` | monochrome.py:693-741 | any sequence of callbacks from a valid state ends in a valid state |
| `Climate.LogOnlyRunKeepsState` | monochrome.py:693-697 | any sequence of log-only events leaves the state as it was |
| `Climate.RepeatTempUp` | monochrome.py:731-735 | n presses of temp up give min(start + n half degrees, 32.0 °C) and change no other field |
| `Climate.RepeatTempDown` | monochrome.py:737-741 | n presses of temp down give max(start − n half degrees, 16.0 °C) and change no other field |
| `Climate.RepeatFanUp` | monochrome.py:719-723 | n presses of fan up give min(start + n, 8) and change no other field |
| `Climate.RepeatFanDown` | monochrome.py:725-729 | n presses of fan down give max(start − n, 0) and change no other field |
| `Climate.SeventeenTempUpsFromDefaultSaturate` | monochrome.py:731-735 | from 23.5 °C, 16 presses give 31.5 °C, 17 give 32.0 °C, and the next press is a silent no-op |
| `Climate.AcScenario` | monochrome.py:699-702 | from the defaults, A/C turns on with a log line and a redraw, and a second press turns it off |
| `Climate.TickScenario` | monochrome.py:743-746 | a tick at 14:05 stores hours 14 and minutes 5 and nothing else |
| `Application.HVACState.constructor` | monochrome.py:28-38 | a new record holds the defaults |
| `Application.HVACApp.constructor` | monochrome.py:651-688 | the application owns a fresh record holding the defaults, except that the closing clock update has stored the supplied hours and minutes (and drawn the display); for a valid time the record satisfies the invariant |
| `Application.HVACApp.OnOff` | monochrome.py:693-694 | logs and changes nothing |
| `Application.HVACApp.OnRecirc` | monochrome.py:696-697 | logs and changes nothing |
| `Application.HVACApp.LogHazard` | monochrome.py:659 | logs and changes nothing |
| `Application.HVACApp.LogAirDir` | monochrome.py:661 | logs and changes nothing |
| `Application.HVACApp.OnAc` | monochrome.py:699-702 | A/C is negated, every other field kept; logs and redraws |
| `Application.HVACApp.OnAuto` | monochrome.py:704-707 | auto mode is negated, every other field kept; logs and redraws |
| `Application.HVACApp.OnFrontDef` | monochrome.py:709-712 | front defrost is negated, every other field kept; logs and redraws |
| `Application.HVACApp.OnRearDef` | monochrome.py:714-717 | rear defrost is negated, every other field kept; logs and redraws |
| `Application.HVACApp.OnFanUp` | monochrome.py:719-723 | below 8 the fan speed rises by 1 with a log and a redraw; otherwise the record is untouched and nothing is emitted |
| `Application.HVACApp.OnFanDown` | monochrome.py:725-729 | above 0 the fan speed falls by 1 with a log and a redraw; otherwise the record is untouched and nothing is emitted |
| `Application.HVACApp.OnTempUp` | monochrome.py:731-735 | below 32.0 °C the set temperature rises by 0.5 °C with a log and a redraw; otherwise nothing changes or is emitted |
| `Application.HVACApp.OnTempDown` | monochrome.py:737-741 | above 16.0 °C the set temperature falls by 0.5 °C with a log and a redraw; otherwise nothing changes or is emitted |
| `Application.HVACApp.UpdateClock` | monochrome.py:743-747 | hours and minutes are overwritten with the supplied time, every other field kept; redraws without logging |
| `Application.HVACApp.Invoke` | monochrome.py:654-669 | calling any bound callable changes the record and emits exactly as `Step` says |
| `Application.HVACApp.ButtonClick` | monochrome.py:482-499 | a button click runs exactly the handler bound to its band, with the effect `Dispatch` gives |
| `Application.HVACApp.SliderClick` | monochrome.py:615-634 | a slider click in a dead zone runs nothing and changes nothing; otherwise it runs the bound handler with the effect `Dispatch` gives |
| `SevenSegment.DimsOf` | monochrome.py:269-272 | large glyphs are 24 × 44 with thickness 5, small ones 12 × 20 with thickness 3 |
| `SevenSegment.Patterns` | monochrome.py:275-288 | the table has exactly the keys '0'..'9', '-' and ' ', each mapped to seven 0/1 entries |
| `SevenSegment.SegmentsOf` | monochrome.py:275-290 | every character has a pattern of seven 0/1 entries; a character outside the table gets all zeros |
| `SevenSegment.DashLightsOnlyG` | monochrome.py:286 | '-' lights segment G and no other |
| `SevenSegment.EightLightsAll` | monochrome.py:284 | '8' lights all seven segments |
| `SevenSegment.BlankLightsNothing` | monochrome.py:287-290 | ' ' and every character that is not a digit or '-' light nothing |
| `SevenSegment.DigitPatternsDistinct` | monochrome.py:276-285 | the ten digits have ten different patterns |
| `SevenSegment.SegmentPolygon` | monochrome.py:292-360 | each segment is drawn as a quadrilateral whose four vertices all lie inside the box (x, y)–(x + w, y + h) of the size class |
| `SevenSegment.LitIndices` | monochrome.py:292-360 | the segments the chain of `if segs[i]` tests draws from i on: strictly increasing, exactly the lit ones, as many as the pattern lights |
| `SevenSegment.Glyph` | monochrome.py:267-360 | a glyph draws, in order A..G, the polygon of each segment its pattern lights, one polygon per lit segment, and every vertex is inside its box |
| `SevenSegment.GlyphDrawsLitSegments` | monochrome.py:275-360 | a glyph draws as many polygons as its pattern lights, and segment j is among those drawn exactly when the pattern lights it |
| `SevenSegment.GlyphCounts` | monochrome.py:275-360 | '8' draws the seven polygons A..G, '-' draws only the polygon of G, and ' ' or an unknown character draws nothing |
| `SevenSegment.AllLitIndices` | monochrome.py:292-360 | when every segment from i on is lit, they are all drawn, in order |
| `SevenSegment.OnlyLastLitIndices` | monochrome.py:292-360 | when only segment G is lit from i on, G alone is drawn |
| `Display.ClockString` | monochrome.py:86 | `02d:02d` yields only digits and colons; for two-digit values it is five characters, all digits except the colon in the middle |
| `Display.ClockStringShape` | monochrome.py:86 | a valid time is shown as five characters HH:MM, and the hours and minutes read back from them |
| `Display.ClockStringExample` | monochrome.py:86 | 14:05 is shown as "14:05" |
| `Display.SetTempString` | monochrome.py:141 | `04.1f` of a half-degree value: at least four characters, a point before the last, the last '5' exactly for an odd number of halves, a leading '-' exactly for a negative value, digits in between |
| `Display.SetTempRoundTrip` | monochrome.py:141 | the `04.1f` string of any half-degree temperature, negative ones included, reads back to that temperature |
| `Display.ValidSetTempString` | monochrome.py:141 | every set temperature in [16.0, 32.0] is shown as two digits, a point and a digit, all of them in the seven-segment table |
| `Display.SetTempStringExample` | monochrome.py:141 | 23.5 °C is shown as "23.5" |
| `Display.Advance` | monochrome.py:145-153 | every character advances the pen; a digit advances it further than the 24-pixel width of a large glyph |
| `Display.PitchCountsPoints` | monochrome.py:145-153 | the advance of a string is 10 per point and 32 per other character |
| `Display.LayoutSetTemp` | monochrome.py:143-153 | character i is drawn at 455 plus the advance of the characters before it (32 per digit, 10 per point); the loop ends at 455 plus the whole string's advance |
| `Display.LaidOutGlyphsDoNotOverlap` | monochrome.py:143-153 | a digit laid out at 455 plus its pitch draws its large glyph wholly left of where any later character is placed, and at least 32 pixels separate the two |
| `Display.ValidSetTempLayout` | monochrome.py:139-156 | for any valid set temperature the characters sit at 455, 487, 519 (point) and 529, and the degree sign at 566 lies inside the 580-pixel width |
| `Display.DigitsPointDigitPitch` | monochrome.py:143-153 | a string shaped digit, digit, point, digit is laid out at offsets 0, 32, 64 and 74 and ends at 106 |
| `Display.ValidStateRenders` | monochrome.py:86-175 | in every valid state the clock string has five characters, the set-temperature string four ending at x = 561, and the fan bar has exactly `fanSpeed` filled cells |
| `Display.LeftmostFilledCount` | monochrome.py:168-175 | a bar whose cell i is filled exactly when i < level has min(max(level, 0), length) filled cells |
| `Display.FanLevelBar` | monochrome.py:168-175 | the bar for a fan level in [0, 8] has exactly that many filled cells |
| `Display.FanBar` | monochrome.py:165-175 | eight 10 × 14 cells 13 pixels apart from (482, 88); cell i is filled exactly when i < fan speed, so a speed in [0, 8] fills exactly its leftmost cells |
| `Display.BarCellsDisjoint` | monochrome.py:166-175 | the cells do not overlap and span x 482..583 below y 145 |

## Left out

- All tkinter canvas calls, fonts, colours, window setup and packing: drawing primitives are modelled only as the shapes and positions they would receive.
- The trigonometric clock ticks, snowflake and fan icon, and the fixed icon coordinates (car, windshield, seated person, button icons): floating-point or constant geometry with no state dependency.
- `datetime.now()` and the one-second rescheduling with `after`: `UpdateClock` and `Tick` take the hours and minutes as parameters, and the timer loop itself is not modelled.
- The text of the CAN log lines: only whether a line is printed (`Effect.logged`) is modelled. Likewise, `_refresh` is modelled only as `Effect.refreshed`, not as the redraw it triggers.
- The fixed outside-temperature digits ("-", "1", "2") and the fixed labels ("Auto", "Rear", "Outside", "Semi-Auto", "A/C Off"): they do not depend on the state.
- The entry banner and the main loop.
- `SevenSegment.Glyph`: the size is a two-valued datatype, so it does not model that any size string other than 'large' is drawn small. The program only passes 'large' and 'small'.
- `Display.ClockString`: it takes natural numbers, so it does not model the `02d` format of a negative number. The time comes from the wall clock and is never negative.
