# A.R.E.S. rover core, modelled in Dafny

This project models the core logic of Project A.R.E.S., a teleoperated hazard-inspection rover, and proves properties of it. The model covers:

- **Dashboard telemetry histories.** The vanilla-JavaScript page (`frontend/script.js`) and the React app (`frontend_react/src/App.jsx`) each keep a capped history of temperature, gas, radiation and pressure readings. The model covers the series each chart tab selects, what the big readout shows, and how the two dashboards differ on a reading of 0.
- **Firmware actuator controllers.** These are the differential-drive motor controller, the obstacle-avoidance navigation loop, the pump-and-nozzle fire suppression, and the four-servo inspection arm (`firmware/Main_Rover/*.h`). Each is a class whose fields are the pin and servo outputs. Ghost logs record the order of commands and writes.
- **Backend safety logic.**
  - The OLED sender (`backend/oled_sender.py`): its FIRE > GAS_HIGH > TEMP_WARN > SAFE alert chain, the eight-field text packet it posts, and its send guard.
  - The fire-risk heuristic of the AI engine (`backend/ai_engine.py`).
- **Vision bookkeeping** (`backend/object_identifier.py`): the per-cell hazard trackers with bounded history, the flicker-and-growth test, the 30-pixel tracker grid, the fire and smoke detection rules, and how JPEG frames are cut out of the MJPEG stream.
- **Logo converter** (`scripts/convert_logo.py`): RGB565 packing and the layout of the generated C header.
- **Two React panels**: the eleven-gas radar vector (`GasRadarChart.jsx`) and the gyroscope bar widths (`GyroPanel.jsx`).

One Dafny module per source file:

- `Common` in `common.dfy`
- `Js` in `js.dfy`
- `Py` in `py.dfy`
- `Arduino` in `arduino.dfy`
- `ScriptHistory` in `script_history.dfy`
- `ReactHistory` in `react_history.dfy`
- `ObjectIdentifier` in `object_identifier.dfy`
- `OledSender` in `oled_sender.dfy`
- `AiEngine` in `ai_engine.dfy`
- `ConvertLogo` in `convert_logo.dfy`
- `Motors` in `motors.dfy`
- `Navigation` in `navigation.dfy`
- `FireSuppression` in `fire_suppression.dfy`
- `Arm` in `arm.dfy`
- `GasRadarChart` in `gas_radar_chart.dfy`
- `GyroPanel` in `gyro_panel.dfy`

The shared modules hold what the language runtimes supply:

- `Common` has keep-the-last-n, `join`, `split`, `find` and decimal printing.
- `Js` has JavaScript values, truthiness and `||`.
- `Py` has Python values and truthiness.
- `Arduino` has pin levels, `constrain` and `abs`.

Some behaviour is outside the code itself: the network, timers, random numbers, sensors, OpenCV, PIL, and the way Python prints a number. These enter the model as parameters:

- a reading;
- a contour list;
- a chunk of the byte stream;
- a front distance;
- a `render` function for printed numbers.

## Model

| member | source | states |
|---|---|---|
| `Common.LastN` | frontend_react/src/App.jsx:78 | `slice(-n)`: the result is the last min(n, \|s\|) elements of `s`, in order |
| `Common.LastNAppend` | frontend/script.js:63-68 | push-then-shift on a series within the cap appends when there is room, otherwise drops exactly the oldest element; the new value is last |
| `Common.LastNAppendLastN` | frontend/script.js:63-68 | capping after every push keeps the same elements as capping once at the end |
| `Common.Split` | backend/oled_sender.py:56-67 | Python `str.split(sep)`: never an empty list |
| `Common.SplitJoin` | backend/oled_sender.py:56-67 | splitting a `sep.join(parts)` on `sep` gives `parts` back when no part contains the separator's first character |
| `Common.Find` | backend/object_identifier.py:137-138 | `find`: the first occurrence at or after `from`, or -1 exactly when there is none |
| `Common.Decimal` | scripts/convert_logo.py:18-19 | `str(n)`: a non-empty string of digits without a leading zero |
| `Common.Digit` | scripts/convert_logo.py:18-19 | the digit character for d, whose code is '0' + d |
| `Common.DecimalRoundTrip` | scripts/convert_logo.py:18-19 | the digits `Decimal(n)` prints, read back most significant first, are n, so the prologue declares the real width and height |
| `Arduino.Constrain` | firmware/Main_Rover/Motors.h:51 | `constrain`: the result lies in [lo, hi] and equals x when x already does, else the nearer bound |
| `Arduino.Abs` | firmware/Main_Rover/Motors.h:63 | `abs`: x or -x, never negative |
| `ScriptHistory.MetricForTab` | frontend/script.js:176-178 | `metricKeys[tab]` with the temperature fallback, looked up in `telemetryHistory`: tab `rad` selects radiation, `gas` gas; a name `Object.prototype` supplies (`constructor`, `toString`, `__proto__`, ...) selects no series at all; every other name falls back to temperature; pressure is never charted |
| `ScriptHistory.Field` | frontend/script.js:44-47 | the field read for each series is a number or falsy whenever the reading can be displayed |
| `ScriptHistory.Redrawn` | frontend/script.js:173-187 | with no chart nothing happens; an unknown or empty series leaves the chart alone; otherwise the chart's current dataset becomes the selected history array itself (shared, not copied), labelled 1..n |
| `ScriptHistory.Dashboard.constructor` | frontend/script.js:18-24 | four empty series, no chart, the temperature tab active |
| `ScriptHistory.Dashboard.CreateChart` | frontend/script.js:88-99 | with a canvas the chart becomes a new chart with its own empty dataset, showing no bars; without one it is unchanged; the series and the tab are untouched |
| `ScriptHistory.Dashboard.Selected` | frontend/script.js:176-178 | the looked-up history array, with an undefined lookup read as no readings: a name `Object.prototype` supplies selects nothing to draw |
| `ScriptHistory.Dashboard.Bars` | frontend/script.js:184 | the values of the chart's current bars: none without a chart, and for a chart that shares a series, that series as it is now |
| `ScriptHistory.Dashboard.PushHistory` | frontend/script.js:63-68 | the pushed series becomes the last 30 of old series + value, in place: a chart sharing that series now shows the new series, any other chart shows what it showed; the other three series, the chart and the tab are unchanged; the cap is kept |
| `ScriptHistory.Dashboard.UpdateChart` | frontend/script.js:173-187 | the chart becomes `Redrawn` of the selected series, and then shows exactly that series when it is non-empty; the series and the cap are kept |
| `ScriptHistory.Dashboard.SaveToHistory` | frontend/script.js:50-53 | a truthy field is pushed onto its series (within the cap) and a falsy one (missing, null or 0) is skipped; a chart sharing that series shows the result, any other shows what it showed; the other series, the chart and the tab are unchanged |
| `ScriptHistory.Dashboard.UpdateUI` | frontend/script.js:43-61 | each series gets its reading appended within the cap when it is truthy and is unchanged otherwise (a 0 is skipped); the chart is `Redrawn` from the active tab's series, so when that is unknown or empty the chart keeps sharing, and showing, the series it last drew |
| `ScriptHistory.Dashboard.SelectTab` | frontend/script.js:215-222 | the clicked tab becomes active and the chart is `Redrawn` from its series, showing exactly that series when it is non-empty; the series and the cap are kept |
| `ScriptHistory.Dashboard.LatestReading` | frontend/script.js:189-199 | the big readout has a value exactly when the selected series exists and is non-empty (never for an inherited name), and that value is the series' newest element |
| `ScriptHistory.Appended` | frontend/script.js:50-68 | a falsy reading leaves the series alone; a truthy one is pushed, and the oldest reading is shifted out once the series holds 30 |
| `ScriptHistory.Recorded` | frontend/script.js:49-53 | the readings a session pushes are at most one per update |
| `ScriptHistory.Window` | frontend/script.js:24 | a window never holds more than MAX_HISTORY = 30 readings |
| `ScriptHistory.RecordedStep` | frontend/script.js:49-53 | one more update moves each series' window of the last 30 truthy readings forward by exactly that update |
| `ScriptHistory.Session` | frontend/script.js:26-41 | after any sequence of updates on a fresh page, each series is the last 30 truthy readings of its metric in arrival order |
| `ScriptHistory.Feed` | frontend/script.js:26-30 | one `updateUI` on a page holding the windows of the updates so far leaves the windows of those updates followed by this one |
| `ReactHistory.InitialHistory` | frontend_react/src/App.jsx:52 | the state starts with exactly the series temp, gas, rad and pressure, all empty |
| `ReactHistory.FillOther` | frontend_react/src/App.jsx:75-80 | a series no walked key writes keeps what the copied state held |
| `ReactHistory.FillAt` | frontend_react/src/App.jsx:75-80 | the series a walked key writes holds that step's value (or the copied one when the reading is undefined) |
| `ReactHistory.NextHistory` | frontend_react/src/App.jsx:73-82 | the reducer never adds or drops a series |
| `ReactHistory.NextHistoryAt` | frontend_react/src/App.jsx:73-82 | the reducer, entry by entry: a series fed by a defined reading becomes the last 30 of its old array plus the reading (radiation goes to `rad`, and 0 is recorded); every other entry is unchanged; no key is lost |
| `ReactHistory.NextHistoryCapped` | frontend_react/src/App.jsx:78 | after any update each of the four series holds at most 30 readings and ends with the newest defined reading |
| `ReactHistory.InitialWellFormed` | frontend_react/src/App.jsx:52 | the initial state has the four series within the cap |
| `ReactHistory.NextWellFormed` | frontend_react/src/App.jsx:73-82 | the reducer never throws from a well-formed state, and it keeps all four series within the cap |
| `ReactHistory.AgreesWithScriptOnNonZero` | frontend_react/src/App.jsx:76-78 | on a non-zero temperature, the React series and the vanilla page's series record the same last 30 numbers |
| `ReactHistory.DiffersFromScriptOnZero` | frontend_react/src/App.jsx:77 | a temperature of 0 is appended by the React reducer but skipped by the vanilla page |
| `ObjectIdentifier.HazardTracker.constructor` | backend/object_identifier.py:20-22 | an empty history with the given maximum length (and, as a ghost, the cell it was made for) |
| `ObjectIdentifier.HazardTracker.Update` | backend/object_identifier.py:24-25 | `deque.append`: the history becomes the last max_history of old history + sample |
| `ObjectIdentifier.HazardTracker.IsValidHazard` | backend/object_identifier.py:27-46 | valid exactly when the history holds at least 5 samples and, for FLAME, the flicker-and-growth test passes; any other label is valid on count alone |
| `ObjectIdentifier.FlickerNeedsVariation` | backend/object_identifier.py:31-43 | a history that passes the flame test is non-empty and varies in both intensity and area |
| `ObjectIdentifier.Variance` | backend/object_identifier.py:33-34 | `np.var` is never negative |
| `ObjectIdentifier.SteadyLightNeverFlickers` | backend/object_identifier.py:31-43 | a history whose intensity never changes never passes the FLAME test |
| `ObjectIdentifier.TrackerKey` | backend/object_identifier.py:51-54 | the key is the 30-pixel grid cell containing the corner (x, y) |
| `ObjectIdentifier.SameTrackerIffSameCell` | backend/object_identifier.py:51-54 | two regions share a tracker exactly when their corners lie in the same cell, whatever their widths and heights |
| `ObjectIdentifier.FlameDetection` | backend/object_identifier.py:86-90 | label FLAME, the contour's box, confidence at most 0.99, and at least 0.6 for any non-negative area |
| `ObjectIdentifier.SmokeDetection` | backend/object_identifier.py:114-118 | label SMOKE, the contour's box, confidence at most 0.90, and at least 0.4 for any non-negative area |
| `ObjectIdentifier.SmokeDetectionsSound` | backend/object_identifier.py:110-119 | one SMOKE detection per contour over area 1000, each with confidence at most 0.90 and the box of such a contour |
| `ObjectIdentifier.DetectSmoke` | backend/object_identifier.py:99-119 | the loop returns exactly the smoke detections of the contours over area 1000, in order |
| `ObjectIdentifier.Record` | backend/object_identifier.py:71-83 | a contour over area 350 adds its cell to the tracked cells and appends its sample to that cell's history only; any other contour changes nothing |
| `ObjectIdentifier.RecordAll` | backend/object_identifier.py:69-83 | after a frame the tracked cells are the old ones plus this frame's fire cells |
| `ObjectIdentifier.RecordAllCell` | backend/object_identifier.py:69-83 | after a frame each cell's history is the last 10 of its old history (none for a new cell) followed by this frame's samples in that cell, in order |
| `ObjectIdentifier.FireDetectionsSound` | backend/object_identifier.py:69-90 | at most one detection per contour, each the FLAME detection of a contour over area 350 |
| `ObjectIdentifier.NewCellsNeedEvidence` | backend/object_identifier.py:76-85 | when no cell of the frame was tracked before and there are fewer than 5 contours, no FLAME is reported |
| `ObjectIdentifier.TrackerPool.constructor` | backend/object_identifier.py:49 | the pool starts empty |
| `ObjectIdentifier.TrackerPool.TrackerFor` | backend/object_identifier.py:76-77 | the cell's existing tracker, or a fresh one of its own when it has none; no history changes |
| `ObjectIdentifier.TrackerPool.Track` | backend/object_identifier.py:73-90 | the contour's cell history gets the contour's sample (capped at 10), every other cell keeps its history and its tracker; a FLAME detection exactly when the cell's new history holds flame evidence |
| `ObjectIdentifier.TrackerPool.Visit` | backend/object_identifier.py:69-90 | one turn of the loop: the histories become `Record` of the old ones; the result is the FLAME detection exactly when the contour is over area 350 and its cell then holds flame evidence |
| `ObjectIdentifier.TrackerPool.Step` | backend/object_identifier.py:69-90 | after turn i the histories, detections and active cells are those of the first i + 1 contours |
| `ObjectIdentifier.TrackerPool.TrackAll` | backend/object_identifier.py:68-90 | the loop: the histories become `RecordAll` of the old ones, the detections are `FireDetections`, the active cells are this frame's fire cells, and old trackers are kept |
| `ObjectIdentifier.TrackerPool.DropStale` | backend/object_identifier.py:92-95 | the pool keeps exactly the trackers of active cells, with their histories unchanged |
| `ObjectIdentifier.TrackerPool.DetectFire` | backend/object_identifier.py:56-97 | afterwards the pool holds exactly this frame's fire cells, each with the history `RecordAll` gives it; the detections are `FireDetections` of the frame, at most one per contour, each the FLAME detection of a fire contour |
| `ObjectIdentifier.FindMarker` | backend/object_identifier.py:137-138 | the first index of the two-byte marker at or after `from`, or -1 exactly when there is none |
| `ObjectIdentifier.CutFrame` | backend/object_identifier.py:137-142 | without a frame the buffer is kept; with one, frame and kept tail fit in the buffer and at least the EOI marker is consumed |
| `ObjectIdentifier.CutFrameNeedsBoth` | backend/object_identifier.py:137-140 | a frame is cut exactly when the buffer holds both an SOI and an EOI marker; otherwise the buffer is kept |
| `ObjectIdentifier.CutFrameKeepsTail` | backend/object_identifier.py:138-142 | after a cut the buffer is exactly what follows the first FF D9 marker |
| `ObjectIdentifier.CutFrameNonEmpty` | backend/object_identifier.py:137-141 | a cut frame is non-empty exactly when an FF D8 starts before the first FF D9 (the slice `buf[a:b+2]` with a <= b); an EOI first gives the empty frame |
| `ObjectIdentifier.CutFrameIsFrame` | backend/object_identifier.py:137-142 | a non-empty frame starts at the first FF D8 (none occurs before it), ends with the first FF D9, holds no earlier EOI, and frame plus kept tail is a suffix of the buffer |
| `ObjectIdentifier.FrameBuffer.constructor` | backend/object_identifier.py:130 | the stream buffer starts empty |
| `ObjectIdentifier.FrameBuffer.ReadChunk` | backend/object_identifier.py:136-142 | append the chunk, then cut at most one frame as `CutFrame` says |
| `OledSender.AlertName` | backend/oled_sender.py:46-54 | every alert is one of FIRE, GAS_HIGH, TEMP_WARN, SAFE |
| `OledSender.AlertNamesDistinct` | backend/oled_sender.py:46-54 | different alerts print differently |
| `OledSender.AlertOf` | backend/oled_sender.py:46-54 | FIRE exactly when the fire condition holds, whatever the gas; SAFE exactly when no condition of the chain holds |
| `OledSender.AlertClassification` | backend/oled_sender.py:46-54 | FIRE iff the flame flag reads 0 or temp > 70; otherwise GAS_HIGH iff gas > 500, TEMP_WARN iff gas <= 500 and temp > 50, SAFE iff gas <= 500 and temp <= 50 |
| `OledSender.FireOutranksGas` | backend/oled_sender.py:47-50 | high gas gives FIRE when the fire condition also holds, GAS_HIGH otherwise |
| `OledSender.EmptyRecordIsSafe` | backend/oled_sender.py:38-54 | with every field missing (flame defaults to 1, the rest to 0) the alert is SAFE |
| `OledSender.Fields` | backend/oled_sender.py:58-67 | eight fields, the i-th starting with the i-th key of Temp, Gas, Press, Flame, Water, Lat, Lng, Alert; the last names the alert |
| `OledSender.BuildOledText` | backend/oled_sender.py:56-68 | the packet starts with "Temp: " and ends with the alert field |
| `OledSender.PacketSplits` | backend/oled_sender.py:56-67 | the packet split on ", " gives back exactly the eight fields it was joined from (`Fields`): in key order, each "Key: value", the last naming the alert, whenever no printed value contains a comma |
| `OledSender.Tick` | backend/oled_sender.py:98-104 | a packet is built exactly when the fetch succeeded and the record has a truthy timestamp, and it is `build_oled_text` of that record |
| `AiEngine.DetectFireRisk` | backend/ai_engine.py:28-34 | a risk exactly when temp > 70 or gas > 500 |
| `AiEngine.BoundariesAreSafe` | backend/ai_engine.py:32 | temp = 70 with gas <= 500, or gas = 500 with temp <= 70, is not a risk |
| `AiEngine.RiskMonotone` | backend/ai_engine.py:32-34 | raising temperature or gas never clears a risk |
| `AiEngine.AgreesWithOledAlert` | backend/ai_engine.py:32-34 | with no flame reported, a risk exactly when the OLED alert is FIRE or GAS_HIGH |
| `AiEngine.FlameOnlyOledSeesIt` | backend/ai_engine.py:32-34 | a flame flag of 0 on a cool, clean reading gives FIRE on the OLED but no risk here |
| `ConvertLogo.Pack` | scripts/convert_logo.py:28 | the RGB565 value fits in 16 bits |
| `ConvertLogo.PackFields` | scripts/convert_logo.py:28 | bits 15-11 are r >> 3, bits 10-5 are g >> 2, bits 4-0 are b >> 3 |
| `ConvertLogo.UnpackPack` | scripts/convert_logo.py:28 | unpacking gives (r & 0xF8, g & 0xFC, b & 0xF8), and the pixel itself when those low bits are zero |
| `ConvertLogo.Token` | scripts/convert_logo.py:29 | "0x" followed by exactly four upper-case hexadecimal digits |
| `ConvertLogo.ParseTokenRoundTrip` | scripts/convert_logo.py:29 | reading a token back as a hexadecimal literal gives the packed value |
| `ConvertLogo.PixelToken` | scripts/convert_logo.py:26-29 | every pixel prints as six characters |
| `ConvertLogo.RowTokens` | scripts/convert_logo.py:24-29 | a row's tokens are its pixels' tokens, left to right |
| `ConvertLogo.RowTexts` | scripts/convert_logo.py:22-31 | the table lines are the rows' tokens joined by ", ", top to bottom |
| `ConvertLogo.RowLine` | scripts/convert_logo.py:24-30 | the inner loop yields the row's tokens, left to right, joined by ", " |
| `ConvertLogo.ConvertToRgb565` | scripts/convert_logo.py:15-33 | the outer loop (over `RowLine`) and the writes produce exactly `Header`: prologue, rows joined by ",\n", epilogue |
| `ConvertLogo.HeaderFraming` | scripts/convert_logo.py:16-33 | the header starts with the include guard and ends with "\n};\n\n#endif\n" |
| `ConvertLogo.RowTextLength` | scripts/convert_logo.py:29-30 | a row of w pixels prints as 8w - 2 characters |
| `ConvertLogo.TableTokenAt` | scripts/convert_logo.py:22-32 | the table is 8wh - 2 characters, and the token of pixel (x, y) sits at offset 8wy + 8x: row-major, h rows of w tokens |
| `ConvertLogo.TokenAt` | scripts/convert_logo.py:18-32 | in the whole header, pixel (x, y) follows the prologue that declares w and h by 8wy + 8x characters |
| `Motors.Wrap32` | firmware/Main_Rover/Motors.h:28-29 | a 32-bit `int` result: in range, and the exact sum whenever that is in range |
| `Motors.Drive` | firmware/Main_Rover/Motors.h:51-63 | duty = min(\|speed\|, 255) in 0..255; IN1 high iff speed > 0, IN2 high iff speed < 0, never both |
| `Motors.DriveSignedSpeed` | firmware/Main_Rover/Motors.h:51-63 | the direction pins and duty encode exactly the clamped speed |
| `Motors.MixSaturates` | firmware/Main_Rover/Motors.h:26-33 | `move(200, 100)` runs the left side at full duty 255 and the right at 100, both forward |
| `Motors.MotorController.constructor` | firmware/Main_Rover/Motors.h:14 | the controller starts from the given power-on outputs, unconfigured, with no commands |
| `Motors.MotorController.Begin` | firmware/Main_Rover/Motors.h:16-24 | the pins are configured and both channels are stopped |
| `Motors.MotorController.Move` | firmware/Main_Rover/Motors.h:26-33 | left = Drive(speed + turn), right = Drive(speed - turn), computed as 32-bit ints; one Move command is logged |
| `Motors.MotorController.Stop` | firmware/Main_Rover/Motors.h:35-43 | all four IN pins low and both duties 0; one Stop command is logged |
| `Motors.MotorController.SetMotor` | firmware/Main_Rover/Motors.h:46-64 | motor 1 sets only the left channel to Drive(speed); any other number sets only the right |
| `Navigation.Avoidance` | firmware/Main_Rover/Navigation.h:32-38 | `move(0, 150)` iff 0 < distance < 30, else `move(150, 0)` |
| `Navigation.NavigationSystem.constructor` | firmware/Main_Rover/Navigation.h:11-15 | shares the given controller; auto mode starts off |
| `Navigation.NavigationSystem.ToggleAutonomous` | firmware/Main_Rover/Navigation.h:21-24 | the flag is set; turning it off stops the motors, turning it on changes nothing else |
| `Navigation.NavigationSystem.Update` | firmware/Main_Rover/Navigation.h:26-39 | outside auto mode nothing changes; in auto mode exactly one command, Avoidance(distance), is issued and the wheels follow it |
| `Navigation.AvoidanceWheels` | firmware/Main_Rover/Navigation.h:32-38 | near an obstacle the left wheel runs forward and the right backward at 150; otherwise both run forward at 150 |
| `FireSuppression.FireSuppressionSystem.constructor` | firmware/Main_Rover/FireSuppression.h:12 | the system starts from the given relay and servo states, with no outputs |
| `FireSuppression.FireSuppressionSystem.Begin` | firmware/Main_Rover/FireSuppression.h:14-20 | pump off, nozzle at 90, in that order |
| `FireSuppression.FireSuppressionSystem.Activate` | firmware/Main_Rover/FireSuppression.h:22-30 | the nozzle is aimed at the angle, then the pump turns on |
| `FireSuppression.FireSuppressionSystem.Deactivate` | firmware/Main_Rover/FireSuppression.h:32-34 | pump off; nozzle unchanged |
| `FireSuppression.FireSuppressionSystem.CheckAutoTrigger` | firmware/Main_Rover/FireSuppression.h:37-43 | fires iff temperature > 80 (80 itself does not); when it fires the pump is on and the nozzle at 90; otherwise nothing changes |
| `FireSuppression.AppendKeepsAimed` | firmware/Main_Rover/FireSuppression.h:22-30 | every operation keeps the order "aim, then spray" in the output log |
| `Arm.BaseWrites` | firmware/Main_Rover/Arm.h:43-46 | one base write per angle, in order |
| `Arm.RoboticArm.constructor` | firmware/Main_Rover/Arm.h:12-16 | the arm starts from the given servo positions, unattached, with no writes |
| `Arm.RoboticArm.Begin` | firmware/Main_Rover/Arm.h:19-25 | servos attached; the arm ends in the home pose |
| `Arm.RoboticArm.Home` | firmware/Main_Rover/Arm.h:27-32 | base, shoulder and elbow at 90, gripper at 0, written in that order |
| `Arm.RoboticArm.SetPose` | firmware/Main_Rover/Arm.h:34-39 | exactly the four given angles, written base to gripper |
| `Arm.RoboticArm.ScanRoutine` | firmware/Main_Rover/Arm.h:42-48 | the base is swept through the loop's angles, then the arm goes home |
| `Arm.SweepAngles` | firmware/Main_Rover/Arm.h:43 | the sweep is 45, 50, ..., 130: 18 increasing angles within [45, 130], never 135 |
| `Arm.SweepClosedForm` | firmware/Main_Rover/Arm.h:43 | a loop from `from` in steps of 5 to `from + 5n` visits exactly `from + 5k` for k < n |
| `Arm.ScanWrites` | firmware/Main_Rover/Arm.h:42-48 | a scan is 22 writes, of which the first 18 move only the base |
| `GasRadarChart.Level` | frontend_react/src/components/GasRadarChart.jsx:42-52 | a truthy field is drawn as is, anything else as 0 |
| `GasRadarChart.DataValues` | frontend_react/src/components/GasRadarChart.jsx:41-53 | eleven values, as many as labels; without a gas object all 0; with one, entry i is the level of the i-th field |
| `GasRadarChart.FieldsMatchLabels` | frontend_react/src/components/GasRadarChart.jsx:25-52 | the i-th field names the gas of the i-th label |
| `GasRadarChart.ValuesTruthyOrZero` | frontend_react/src/components/GasRadarChart.jsx:41-53 | every drawn value is a truthy reading or 0 |
| `GasRadarChart.Render` | frontend_react/src/components/GasRadarChart.jsx:120-124 | the radar, with the eleven labels and on axis i the level of the gas that label names, exactly when a gas object is present; the placeholder otherwise |
| `GyroPanel.Axis` | frontend_react/src/components/GyroPanel.jsx:6-10 | a missing or falsy axis reads as 0, a truthy one as itself |
| `GyroPanel.Progress` | frontend_react/src/components/GyroPanel.jsx:13 | the width lies in [0, 100], is \|v\| / 20 below 2000 and saturates at 100 from 2000 on |
| `GyroPanel.ProgressSymmetric` | frontend_react/src/components/GyroPanel.jsx:13 | rotation either way gives the same width |
| `GyroPanel.ProgressMonotone` | frontend_react/src/components/GyroPanel.jsx:13 | a faster rotation never draws a shorter bar |
| `GyroPanel.Bars` | frontend_react/src/components/GyroPanel.jsx:30-52 | three widths in [0, 100]; bar i is `Progress` of axis gx, gy, gz's own reading when it is truthy and 0 when it is falsy or absent; all 0 without telemetry |
| `GyroPanel.BarsIndependent` | frontend_react/src/components/GyroPanel.jsx:30-52 | each bar depends only on its own axis |

## Left out

- **Network, timers and processes.** These are left out: HTTP fetches and posts (`fetch`, `requests`, `urlopen`, the post to `/api/objects`), `setInterval`/`time.sleep` polling, `delay()`, `Serial.println` and the printed log lines. Readings, contours, stream chunks and distances arrive as parameters.
- **Random and mock data.** These are not modelled; the model takes whatever reading it is given:
  - the mock telemetry in `fetchTelemetry` (frontend/script.js:33-39, frontend_react/src/App.jsx:63-68);
  - `readFrontDistance`'s `random(20, 200)` (firmware/Main_Rover/Navigation.h:41-45);
  - the randomised "previous" bar series of the chart (frontend/script.js:181, 185).
- **DOM text and number formatting.** `toFixed`, the units in the readouts (frontend/script.js:44-47) and the percent-change badge (frontend/script.js:201-210) are not modelled. `LatestReading` states which value the readout shows, not its text. In the OLED packet, how Python prints a number or a value is the `render` parameter.
- **JavaScript coercions.** NaN, numeric strings and `toFixed` on non-numbers are not modelled. `ScriptHistory.Dashboard.UpdateUI` requires every reading field to be a number or falsy, because `toFixed` would throw first. `GyroPanel.Bars` requires its axes to be numbers once defaulted.
- **Floating point.** Readings, areas, intensities, confidences and distances are real numbers, so float rounding is not modelled. Python's `int` and `float` are one number type (`PyNum`), so the model cannot tell `str(500)` from `str(500.0)` in the OLED packet's plain gas, flame and water fields; the `render` parameter sees the same value for both.
- **ObjectIdentifier.Flickers** compares squares instead of taking `np.std`'s square root; this is exact for the non-negative sides involved. A shifted mean of exactly 0 counts as "no flicker", where numpy would divide by zero. That case needs negative intensities or areas, which OpenCV never produces.
- **OpenCV and decoding.** These are not modelled: colour conversion, masks, blurring, contour finding, `contourArea`, `boundingRect` and the mean grey level of a region (each contour arrives already measured), `imdecode` of a cut frame, and building and posting the found-objects list (backend/object_identifier.py:144-187).
- **Python types.** `OledSender.AlertOf` (through `Readable`) requires temp, pressure, lat and lng to be numbers or missing. It also requires gas to be a number or missing whenever the alert is not FIRE. Python would also accept `True`/`False` there, since it compares them as 1/0. A fetched body that is not a JSON object is not modelled.
- **AI engine.** `analyze_telemetry`, the LLM call, is left out; only `detect_fire_risk` is modelled.
- **PIL.** Loading the image, the resized height `int(width * h / w)` and the resampling are PIL's. The converter starts from the resized pixel rows and the width.
- **Servo and pin hardware.** The model records the angle each `Servo.write` is given. The library's clamping and its microsecond interpretation of large values are not modelled, nor is `attach`'s pin setup beyond a flag. The pump relay and nozzle servo use pins 26 and 27, which are also the left motor's IN pins. Each subsystem is modelled with its own outputs, and no global pin map is asserted.
- **NavigationSystem.begin** is an empty placeholder for a LiDAR start-up, so it has no model.
- **Motors.MotorController.Move** requires `speed` and `turn` to be 32-bit `int`s, as their C++ type says. The mixed sums are wrapped to 32 bits as the ESP32 computes them.
- **React rendering.** Chart.js options and styling, the gyro timestamp text and everything else the components draw beyond the values above are not modelled.
