# Battery discharge calculator: a verified model

This project models the battery-reading and discharge-estimation logic of the
Battery-Discharge Android app in Dafny. The app reads the instantaneous
current and the design capacity of a phone battery (a Galaxy S10+ by default)
from sysfs nodes. It reads through a root shell when one is available and
directly otherwise, with fallbacks at every step. It then turns the readings
into a milliamp figure, a remaining charge and an "hours and minutes left"
text, shown in a notification and on the main screen.

Modules, one per file:

- `Common` (common.dfy): option and result values. It also holds `FirstSome`, the first-hit search that every ordered fallback loop of the app performs. The rest are the conversions of Double/Float arithmetic to integers: `Trunc` is `toInt()` and the `(int)` cast, `TruncDiv` is Java `int` division, `RoundHalfUp` is `%.0f`, and `HoursMinutes` splits hours into hours and minutes.
- `Text` (text.dfy): `trim()`, the first line a reader or a shell returns, and the decimal parsers (`toIntOrNull`, `Integer.parseInt`). It also renders integers as `%d` and string templates print them, with a proved parse/print round trip.
- `Device` (device.dfy): the device as data. It has a map from path to content; a present key means the path exists, and `None` means reading it throws. It also has a map from path to what a privileged `cat` prints.
- `HardwareManager` (hardware_manager.dfy): `BatteryHardwareManager`. It covers:
  - discovery of the fuel-gauge nodes;
  - the three-tier current reading: the discovered node, then the platform property, then a root sweep over every base directory and every file;
  - the design capacity with unit normalisation;
  - the discharge estimate;
  - the `BatteryData` snapshot.
- `LegacyService` (battery_service.dfy): the older `BatteryService`. It covers the first-readable level reader, the current reading that tries root, then direct reads, then a constant 450 mA, the discharge formatter, and the charging flag driven by power broadcasts.
- `MonitorService` (monitor_service.dfy): `BatteryMonitorService`. It covers the start/stop state machine, the action dispatch, the rule for showing or hiding the notification, the notification content, and the icon and colour tables.
- `NotificationService` (notification_service.dfy): `readBatteryInfo` of `BatteryNotificationService`, with `tryReadFile`.
- `MainScreen` (main_activity.dfy): the 60-entry chart buffer of `MainActivity`, the time-remaining label and colour, and the root-status texts.

Where the source changes state in place, the model is a class with the same fields and methods:
- the manager's cached paths;
- the legacy service's charging flag and notification;
- the monitor's flags and last snapshot;
- the activity's readings list.

Each such method is proved against a function of the old state. The facts the source promises are lemmas about those functions. Loops over path arrays are `while` loops whose invariants tie them to `FirstSome` or `SweepOver`.

Inputs that come from outside the core are parameters:
- the device (`Device`);
- whether `su` is available;
- what `getIntProperty` answers (`None` when it throws);
- the sticky battery intent, or the failure of the status query;
- the level the platform reports;
- the clock.

Double and Float values are real numbers. `toInt()` truncates toward zero.

Facts about the code that the model follows and a reader might not expect:
- The level percent is not clamped: a level above the scale gives more than 100 (`PercentExamples`). The bounds on the percent and on the remaining charge are therefore stated for `0 <= level <= scale`.
- The shortest estimate of `calculateTimeRemaining` is `"< 1m"`, with a space.
- `getIntProperty` usually answers instead of throwing (an unsupported property gives a sentinel value), and the root sweep, the third tier of the current reading, runs only when that call throws. The model keeps that order.
- A capacity read from 100001 to 999999 µAh is divided by 1000 and comes out as 100 to 999 mAh. The capacity is never zero, but it can be 1000 or less.
- `BatteryService.java` declares the package `com.batterymod.discharge` though it sits under `com/batterydischarge`. This does not affect the model.

## Model

| member | source | states |
|---|---|---|
| Common.HoursMinutes | app/src/main/java/com/batterydischarge/calculator/BatteryManager.kt:272-274 | hours is the truncated value; minutes lie in [0, 59] for a non-negative time; together they are the whole minutes of the time, truncated |
| Common.TruncDiv | app/src/main/java/com/batterydischarge/BatteryService.java:133 | Java `int` division: the magnitude is the magnitude quotient and the sign follows the dividend |
| Common.RoundHalfUp | app/src/main/java/com/batterydischarge/calculator/BatteryMonitorService.kt:206 | `%.0f` gives the integer within half a unit of the value, an exact half going away from zero (HALF_UP), non-negative for a non-negative value |
| Text.Trim | app/src/main/java/com/batterydischarge/calculator/BatteryManager.kt:197 | `trim()` gives the infix of the text left after cutting blanks, and only blanks, off both ends; it has no blank at either end, and text without blanks is unchanged |
| Text.ParseInt32 | app/src/main/java/com/batterydischarge/calculator/BatteryManager.kt:201-202 | `toIntOrNull()` accepts a signed decimal in the 32-bit range and nothing else |
| Text.DecimalRoundTrip | app/src/main/java/com/batterydischarge/calculator/BatteryManager.kt:277 | parsing the decimal text of any integer gives the integer back |
| Text.ParseRejectsBlank | app/src/main/java/com/batterydischarge/BatteryService.java:117 | a blank anywhere in the text makes it unparsable, which is why every read is trimmed first |
| Device.PrivilegedFirstLine | app/src/main/java/com/batterydischarge/calculator/BatteryManager.kt:196-198 | a root read yields a line exactly when the command ran and printed something, and the line is the first line of that output |
| Device.ReadFirstLine | app/src/main/java/com/batterydischarge/BatteryService.java:114-116 | `readLine()` yields a line exactly when the file opens and is not empty, and the line is the first line of its content |
| HardwareManager.DiscoveryFindsFirst | app/src/main/java/com/batterydischarge/calculator/BatteryManager.kt:91-124 | the base path is the first existing entry of the base list; with no base both leaf paths stay null; each leaf is base + "/" + the first existing leaf name, chosen independently; a null leaf means no candidate exists |
| HardwareManager.FirstExistingSpec | app/src/main/java/com/batterydischarge/calculator/BatteryManager.kt:94-100 | the search returns an existing candidate with no existing candidate before it, and nothing exactly when none exists |
| HardwareManager.LeafFound | app/src/main/java/com/batterydischarge/calculator/BatteryManager.kt:102-121 | a leaf search under a base finds the first existing base/leaf pair, or nothing when none exists |
| HardwareManager.DiscoveryIdempotent | app/src/main/java/com/batterydischarge/calculator/BatteryManager.kt:91-124 | running discovery again on the same file tree changes no cached path |
| HardwareManager.FindFirstExisting | app/src/main/java/com/batterydischarge/calculator/BatteryManager.kt:94-100 | the loop with `break` returns the first existing candidate |
| HardwareManager.BatteryHardwareManager.FindOptimalPaths | app/src/main/java/com/batterydischarge/calculator/BatteryManager.kt:91-124 | the cached paths become the result of discovery from the previous cache: a field is assigned only when a candidate is found |
| HardwareManager.BatteryHardwareManager.constructor | app/src/main/java/com/batterydischarge/calculator/BatteryManager.kt:60-68 | the root flag is the root check's answer and the cache is discovery from nothing cached |
| HardwareManager.SweepAt | app/src/main/java/com/batterydischarge/calculator/BatteryManager.kt:221-227 | one sweep probe yields a value exactly when `su` printed a first line whose trimmed text parses as an `Int` other than 0, and the value is that parse |
| HardwareManager.DiscoveredReadingDecides | app/src/main/java/com/batterydischarge/calculator/BatteryManager.kt:191-207 | when the discovered node yields a value (0 on a parse failure) that is the reading, whatever the platform property or the other nodes say |
| HardwareManager.SweepHit | app/src/main/java/com/batterydischarge/calculator/BatteryManager.kt:217-234 | the sweep's value comes from a (base, file) pair, and every pair before it in base-major order yields nothing usable |
| HardwareManager.SweepIsFirstInBaseMajorOrder | app/src/main/java/com/batterydischarge/calculator/BatteryManager.kt:217-234 | the sweep returns a non-zero value, that of the first usable pair in base-major × leaf order |
| HardwareManager.SweepMissIffNoPair | app/src/main/java/com/batterydischarge/calculator/BatteryManager.kt:217-234 | the sweep finds nothing exactly when no pair yields a usable value |
| HardwareManager.SweepNodes | app/src/main/java/com/batterydischarge/calculator/BatteryManager.kt:217-234 | the nested loop with early return computes the sweep |
| HardwareManager.AllTiersFailGiveZero | app/src/main/java/com/batterydischarge/calculator/BatteryManager.kt:188-238 | when the discovered node yields nothing, the platform property throws and (with root) no swept node prints a line that parses to a non-zero value, the reading is 0 |
| HardwareManager.BatteryHardwareManager.GetHardwareCurrentReading | app/src/main/java/com/batterydischarge/calculator/BatteryManager.kt:188-238 | the method computes the three-tier chain on the cached path and root flag |
| HardwareManager.NormalizeCapacity | app/src/main/java/com/batterydischarge/calculator/BatteryManager.kt:248-250 | 1000 < v <= 100000 is kept; v > 100000 gives v/1000; a missing value or one <= 1000 gives 4100; the result is at least 100 |
| HardwareManager.DesignCapacity | app/src/main/java/com/batterydischarge/calculator/BatteryManager.kt:240-267 | with root the capacity is `NormalizeCapacity` of the trimmed, parsed first line `su` prints for the node, without root of the node's text read directly; 4100 without a discovered node; at least 100 |
| HardwareManager.CapacityExamples | app/src/main/java/com/batterydischarge/calculator/BatteryManager.kt:248-264 | 4100000 gives 4100, 4100 gives 4100, 500 gives 4100, and a missing value gives 4100 |
| HardwareManager.TimeRemaining | app/src/main/java/com/batterydischarge/calculator/BatteryManager.kt:269-281 | "N/A" exactly when the draw is not positive; never empty and never "Error" |
| HardwareManager.TimeRemainingForms | app/src/main/java/com/batterydischarge/calculator/BatteryManager.kt:272-280 | "Hh Mm" from an hour on, "Mm" from a minute on, "< 1m" below a minute, with H >= 1 and M in [0, 59] |
| HardwareManager.TimeRemainingExamples | app/src/main/java/com/batterydischarge/calculator/BatteryManager.kt:269-281 | 2050/1025 gives "2h 0m", 100/200 gives "30m", 1/100 gives "< 1m", draw 0 gives "N/A" |
| HardwareManager.Percent | app/src/main/java/com/batterydischarge/calculator/BatteryManager.kt:138 | `level*100/scale` with integer division when level >= 0 and scale > 0, 0 otherwise; in [0, 100] for 0 <= level <= scale |
| HardwareManager.PercentExamples | app/src/main/java/com/batterydischarge/calculator/BatteryManager.kt:138 | the percent is not clamped (150/100 gives 150), and a missing extra or a zero scale gives 0 |
| HardwareManager.MilliAmps | app/src/main/java/com/batterydischarge/calculator/BatteryManager.kt:143 | the current in mA is non-negative and is the magnitude in µA over 1000 |
| HardwareManager.RemainingMah | app/src/main/java/com/batterydischarge/calculator/BatteryManager.kt:147 | the remaining charge is design × percent / 100, between 0 and the design capacity for a percent in [0, 100] |
| HardwareManager.PowerWatts | app/src/main/java/com/batterydischarge/calculator/BatteryManager.kt:155 | the power in W times 10^6 is the current in mA times the voltage in mV |
| HardwareManager.Snapshot | app/src/main/java/com/batterydischarge/calculator/BatteryManager.kt:126-186 | from a sticky intent (its extras -1 when there is none): the percent is `Percent(level, scale)`, charging means status 2, remaining is design × percent / 100, voltage and temperature are the extras, mA is the magnitude of µA over 1000 (so >= 0); "N/A" when charging or at most 10 mA, the estimate otherwise; "Error" exactly on a failed status query, which gives the degraded snapshot (zeros, 4100 mAh) |
| HardwareManager.BatteryHardwareManager.GetCurrentBatteryData | app/src/main/java/com/batterydischarge/calculator/BatteryManager.kt:126-186 | never fails: the snapshot of the readings, or the degraded snapshot when the status query throws |
| LegacyService.LevelIsFirstReadable | app/src/main/java/com/batterydischarge/BatteryService.java:112-124 | the level is the parsed first line of the first path that opens and parses; the error "Could not read battery level" is raised exactly when none does |
| LegacyService.ReadBatteryLevel | app/src/main/java/com/batterydischarge/BatteryService.java:112-124 | the loop with early return computes that level or error |
| LegacyService.MilliAmps | app/src/main/java/com/batterydischarge/BatteryService.java:133 | `Math.abs(µA / 1000)` is non-negative and is the magnitude in µA over 1000, truncated |
| LegacyService.CurrentDrawTiers | app/src/main/java/com/batterydischarge/BatteryService.java:126-159 | root read of the first path first, then the direct reads in order, skipping failures, then 450; the result is never negative |
| LegacyService.ReadCurrentDraw | app/src/main/java/com/batterydischarge/BatteryService.java:126-154 | the method computes that chain |
| LegacyService.DischargeTime | app/src/main/java/com/batterydischarge/BatteryService.java:161-181 | "Unknown" exactly when the draw is not positive |
| LegacyService.DischargeTimeForms | app/src/main/java/com/batterydischarge/BatteryService.java:167-180 | from 4100 × percent / 100 mAh: "Hh Mm" from an hour on, otherwise "Mm" (possibly "0m"), M in [0, 59], H·60+M the whole minutes left |
| LegacyService.DischargeTimeExamples | app/src/main/java/com/batterydischarge/BatteryService.java:161-181 | 50 % at 1025 mA gives "2h 0m", 0 % gives "0m", a draw of 0 or less gives "Unknown" |
| LegacyService.DischargeNotice | app/src/main/java/com/batterydischarge/BatteryService.java:183-188 | the content is the discharge time, then " remaining (", then digits that read back as the current in mA, then "mA)"; the subtext is "%d%%" and reads back as the level |
| LegacyService.ChargingFollowsLastPowerEvent | app/src/main/java/com/batterydischarge/BatteryService.java:196-209 | after any stream of broadcasts the flag says whether the last power event was a connect; other actions leave it unchanged |
| LegacyService.BatteryService.OnReceive | app/src/main/java/com/batterydischarge/BatteryService.java:196-209 | connect sets the flag and cancels the notification, disconnect clears it, anything else changes nothing |
| LegacyService.BatteryService.UpdateBatteryNotification | app/src/main/java/com/batterydischarge/BatteryService.java:93-110 | while charging only the cancel happens; otherwise the new notice, or no change when the level cannot be read |
| LegacyService.BatteryService.constructor | app/src/main/java/com/batterydischarge/BatteryService.java:28 | the service starts not charging, with nothing shown |
| MonitorService.IconIsHighestThresholdReached | app/src/main/java/com/batterydischarge/calculator/BatteryMonitorService.kt:245-255 | the icon is the one with the highest threshold of 90/80/60/50/30/20 the level reaches, and the alert icon exactly below 20 |
| MonitorService.IconMonotone | app/src/main/java/com/batterydischarge/calculator/BatteryMonitorService.kt:245-255 | a higher level never shows a lower icon |
| MonitorService.ColorMatchesIcon | app/src/main/java/com/batterydischarge/calculator/BatteryMonitorService.kt:257-263 | green exactly from 50, red exactly below 20 (with the alert icon), yellow between |
| MonitorService.DischargeNoticeContent | app/src/main/java/com/batterydischarge/calculator/BatteryMonitorService.kt:205-210 | above 10 mA the content is the estimate, then " remaining (", then the rounded mA, then "mA)"; otherwise "Calculating discharge time..."; the subtext reads back as the percent |
| MonitorService.StartIdempotent | app/src/main/java/com/batterydischarge/calculator/BatteryMonitorService.kt:121-147 | starting twice is starting once; a running service is unchanged; a stopped one ends monitoring with a job and the initial notification |
| MonitorService.StopIdempotent | app/src/main/java/com/batterydischarge/calculator/BatteryMonitorService.kt:149-164 | stopping twice is stopping once; a stopped service is unchanged; a running one ends stopped, with no job and nothing shown |
| MonitorService.StopThenStart | app/src/main/java/com/batterydischarge/calculator/BatteryMonitorService.kt:121-164 | stop followed by start always leaves the service monitoring |
| MonitorService.DispatchDefaultsToStart | app/src/main/java/com/batterydischarge/calculator/BatteryMonitorService.kt:61-66 | any action other than stop and update, and a missing action, starts monitoring |
| MonitorService.UpdateShowsIffDischarging | app/src/main/java/com/batterydischarge/calculator/BatteryMonitorService.kt:166-181 | each update stores the snapshot and shows the notification iff not charging, hiding it otherwise |
| MonitorService.RefreshActsOnlyWhenDischarging | app/src/main/java/com/batterydischarge/calculator/BatteryMonitorService.kt:183-189 | `updateNotification` changes something only with a stored snapshot that is not charging, and is idempotent |
| MonitorService.BatteryMonitorService.StartMonitoring | app/src/main/java/com/batterydischarge/calculator/BatteryMonitorService.kt:121-147 | the new state is `Start` of the old |
| MonitorService.BatteryMonitorService.StopMonitoring | app/src/main/java/com/batterydischarge/calculator/BatteryMonitorService.kt:149-164 | the new state is `Stop` of the old |
| MonitorService.BatteryMonitorService.UpdateBatteryData | app/src/main/java/com/batterydischarge/calculator/BatteryMonitorService.kt:166-181 | the new state is `UpdateData` of the old |
| MonitorService.BatteryMonitorService.UpdateNotification | app/src/main/java/com/batterydischarge/calculator/BatteryMonitorService.kt:183-189 | the new state is `Refresh` of the old |
| MonitorService.BatteryMonitorService.OnStartCommand | app/src/main/java/com/batterydischarge/calculator/BatteryMonitorService.kt:58-69 | the new state is `Dispatch` of the old on the action |
| MonitorService.BatteryMonitorService.constructor | app/src/main/java/com/batterydischarge/calculator/BatteryMonitorService.kt:34-36 | not monitoring, no job, no snapshot, nothing shown |
| NotificationService.TryReadFile | app/src/main/java/com/batterydischarge/calculator/BatteryNotificationService.kt:73-80 | null exactly when the privileged command cannot run; otherwise an infix of its output with only blanks cut off either end and no blank at either end |
| NotificationService.NoPositiveCurrentMeansCalculating | app/src/main/java/com/batterydischarge/calculator/BatteryNotificationService.kt:59-70 | a missing or unparsable current is 0 mA, a parsed one is µA over 1000, and with no positive current the text is "Calculating... p%" whatever the separator, so for the code as written too |
| NotificationService.CapacityFallback | app/src/main/java/com/batterydischarge/calculator/BatteryNotificationService.kt:61 | a missing or unparsable capacity is 4100 mAh; otherwise it is the value in µAh over 1000 |
| NotificationService.RemainingWithinCapacity | app/src/main/java/com/batterydischarge/calculator/BatteryNotificationService.kt:62 | the remaining charge lies in [0, capacity] for a level in [0, 100] |
| NotificationService.EstimateShownIffSomeTimeLeft | app/src/main/java/com/batterydischarge/calculator/BatteryNotificationService.kt:59-70 | for any separator, as written or intended: the estimate text is chosen iff h > 0 or m > 0, which needs a positive current and time; m is in [0, 59] and h·60+m is the whole minutes left; otherwise "Calculating... p%" |
| NotificationService.FormsAreDistinct | app/src/main/java/com/batterydischarge/calculator/BatteryNotificationService.kt:67-70 | the two forms of the text never coincide, whatever the separator and the hours |
| NotificationService.MisencodedSeparator | app/src/main/java/com/batterydischarge/calculator/BatteryNotificationService.kt:68 | as written, every estimate line is two characters longer than the intended one, because the misencoded separator stands where the dash belongs; the calculating text is unaffected |
| NotificationService.MisencodedExample | app/src/main/java/com/batterydischarge/calculator/BatteryNotificationService.kt:59-68 | at 350000 µA, 4100000 µAh and 50 % the intended text is "5h 51m remaining (350mA) — 50%", and the text as written has "â€”" in place of the dash |
| MainScreen.PushKeepsWindow | app/src/main/java/com/batterydischarge/calculator/MainActivity.kt:316-321 | the buffer stays within 60, ends with the new reading, grows by exactly it below the cap, and at the cap loses only the entry at index 0, the rest keeping their order |
| MainScreen.KeepsLastReadings | app/src/main/java/com/batterydischarge/calculator/MainActivity.kt:316-321 | from an empty chart the buffer is exactly the last 60 readings (all while fewer), oldest first |
| MainScreen.MainActivity.UpdateChart | app/src/main/java/com/batterydischarge/calculator/MainActivity.kt:313-321 | appends the entry (minutes since start, mA) and drops the oldest past 60; the size bound is kept |
| MainScreen.TimeLabelBands | app/src/main/java/com/batterydischarge/calculator/MainActivity.kt:293-306 | "Charging" in green while charging; otherwise the estimate, green above 50, orange above 20, red otherwise |
| MainScreen.MainActivity.UpdateBatteryDisplay | app/src/main/java/com/batterydischarge/calculator/MainActivity.kt:293-309 | the label and its colour follow those bands, then the chart is updated |
| MainScreen.RootStatusFollowsFlag | app/src/main/java/com/batterydischarge/calculator/MainActivity.kt:137-151 | the status is "✓ Root Access" iff root is available; the colour and the warning follow the same flag |
| MainScreen.MainActivity.UpdateRootStatus | app/src/main/java/com/batterydischarge/calculator/MainActivity.kt:137-151 | sets the root status texts for the flag and changes nothing else |
| Common.Trunc | app/src/main/java/com/batterydischarge/calculator/BatteryManager.kt:273-274 | `toInt()` truncates toward zero: the result is the integer between 0 and the value at distance below 1 |
| Common.FirstSome | app/src/main/java/com/batterydischarge/BatteryService.java:113-123 | the shape of every ordered fallback loop: the first element's hit, in order; its properties are `FirstSomeNone` and `FirstSomeWitness` |
| Common.FirstSomeNone | app/src/main/java/com/batterydischarge/BatteryService.java:113-123 | a fallback loop finds nothing exactly when no element yields a value |
| Common.FirstSomeWitness | app/src/main/java/com/batterydischarge/BatteryService.java:113-123 | a fallback loop's hit is the value of some element, every earlier element yielding nothing |
| Text.ParseInteger | app/src/main/java/com/batterydischarge/BatteryService.java:117 | a parse succeeds exactly on decimal digits or a sign followed by at least one digit, and a negative value only after '-' |
| Text.FirstLine | app/src/main/java/com/batterydischarge/BatteryService.java:115 | `readLine()`: null exactly for empty text, otherwise the prefix of the text up to the first line break or the end |
| Text.IntToDecimal | app/src/main/java/com/batterydischarge/BatteryService.java:188 | `%d` prints a non-empty text that starts with '-' exactly for a negative value; `DecimalRoundTrip` reads it back |
| HardwareManager.Discover | app/src/main/java/com/batterydischarge/calculator/BatteryManager.kt:91-124 | one discovery from the cached paths; its properties are `DiscoveryFindsFirst`, `DiscoveryKeepsCache` and `DiscoveryIdempotent` |
| HardwareManager.DiscoveryKeepsCache | app/src/main/java/com/batterydischarge/calculator/BatteryManager.kt:91-124 | from any cache, discovery forgets no cached path, and a field it changes holds an existing base from the list or the first existing leaf under the new base |
| HardwareManager.DiscoveredReading | app/src/main/java/com/batterydischarge/calculator/BatteryManager.kt:192-207 | tier 1 yields a value exactly for a discovered node that `su` (with root) or a direct read (without) returned text for, and that value is the text trimmed and parsed, 0 when it does not parse; it fits an `Int` |
| HardwareManager.SweepOver | app/src/main/java/com/batterydischarge/calculator/BatteryManager.kt:219-233 | the base-major sweep; its properties are `SweepHit`, `SweepIsFirstInBaseMajorOrder` and `SweepMissIffNoPair` |
| HardwareManager.Sweep | app/src/main/java/com/batterydischarge/calculator/BatteryManager.kt:217-234 | the root sweep's value is non-zero and is the reading of one of the base × current-file nodes |
| HardwareManager.HardwareCurrent | app/src/main/java/com/batterydischarge/calculator/BatteryManager.kt:188-238 | a tier-1 value decides; otherwise the platform property's answer; otherwise, with root, the sweep's value on a hit; a non-zero result past tier 2 needs root and a sweep hit; without root it is 0 |
| LegacyService.LevelReading | app/src/main/java/com/batterydischarge/BatteryService.java:112-124 | a failure always carries "Could not read battery level"; the full characterisation is `LevelIsFirstReadable` |
| LegacyService.RootCurrent | app/src/main/java/com/batterydischarge/BatteryService.java:128-137 | the root read yields a value exactly when `su` printed a non-empty first line whose trimmed text parses as an `Int`, and the value is `MilliAmps` of that parse, never negative |
| LegacyService.CurrentDraw | app/src/main/java/com/batterydischarge/BatteryService.java:126-154 | root, then the direct reads, then 450; its properties are `CurrentDrawTiers` |
| LegacyService.ChargingAfter | app/src/main/java/com/batterydischarge/BatteryService.java:199-207 | one broadcast: a connect sets the flag, a disconnect clears it, any other action leaves it; its property, over any stream, is `ChargingFollowsLastPowerEvent` |
| LegacyService.ChargingAfterAll | app/src/main/java/com/batterydischarge/BatteryService.java:196-209 | the flag after broadcasts delivered in order; its property is `ChargingFollowsLastPowerEvent` |
| LegacyService.NoticeAfterUpdate | app/src/main/java/com/batterydischarge/BatteryService.java:100-109 | the new notice when the level reads, the old one when the read throws; `BatteryService.UpdateBatteryNotification` states it for the class |
| MonitorService.BatteryIcon | app/src/main/java/com/batterydischarge/calculator/BatteryMonitorService.kt:245-255 | the icon table; its properties are `IconIsHighestThresholdReached` and `IconMonotone` |
| MonitorService.BatteryColor | app/src/main/java/com/batterydischarge/calculator/BatteryMonitorService.kt:257-263 | the colour table; its property is `ColorMatchesIcon` |
| MonitorService.DischargeNotice | app/src/main/java/com/batterydischarge/calculator/BatteryMonitorService.kt:203-231 | the notification's texts, icon and colour; its properties are `DischargeNoticeContent` |
| MonitorService.Start | app/src/main/java/com/batterydischarge/calculator/BatteryMonitorService.kt:121-147 | the guarded start; its properties are `StartIdempotent` and `StopThenStart` |
| MonitorService.Stop | app/src/main/java/com/batterydischarge/calculator/BatteryMonitorService.kt:149-164 | the guarded stop; its properties are `StopIdempotent` and `StopThenStart` |
| MonitorService.UpdateData | app/src/main/java/com/batterydischarge/calculator/BatteryMonitorService.kt:166-181 | one poll's update; its property is `UpdateShowsIffDischarging` |
| MonitorService.Refresh | app/src/main/java/com/batterydischarge/calculator/BatteryMonitorService.kt:183-189 | the re-show of the last snapshot; its property is `RefreshActsOnlyWhenDischarging` |
| MonitorService.Dispatch | app/src/main/java/com/batterydischarge/calculator/BatteryMonitorService.kt:61-66 | the action dispatch; its property is `DispatchDefaultsToStart` |
| NotificationService.CurrentMa | app/src/main/java/com/batterydischarge/calculator/BatteryNotificationService.kt:59 | µA to mA with 0 for a missing or unparsable current; its property is `NoPositiveCurrentMeansCalculating` |
| NotificationService.CapacityMah | app/src/main/java/com/batterydischarge/calculator/BatteryNotificationService.kt:61 | µAh to mAh with a 4100000 µAh fallback; its property is `CapacityFallback` |
| NotificationService.BatteryInfoAsWritten | app/src/main/java/com/batterydischarge/calculator/BatteryNotificationService.kt:59-70 | the text with the separator as written; its properties are `EstimateShownIffSomeTimeLeft` and `MisencodedSeparator` |
| NotificationService.BatteryInfo | app/src/main/java/com/batterydischarge/calculator/BatteryNotificationService.kt:59-70 | the text with the intended em dash; its properties are `EstimateShownIffSomeTimeLeft` and `MisencodedExample` |
| NotificationService.ReadBatteryInfo | app/src/main/java/com/batterydischarge/calculator/BatteryNotificationService.kt:53-71 | the text the program prints: "Calculating... p%" when the privileged read of the current cannot run, and an estimate only after a read that parses to a positive current |
| MainScreen.Push | app/src/main/java/com/batterydischarge/calculator/MainActivity.kt:316-321 | one chart push; its properties are `PushKeepsWindow` and `KeepsLastReadings` |
| MainScreen.TimeLabel | app/src/main/java/com/batterydischarge/calculator/MainActivity.kt:294-298 | the time-remaining text; its property is `TimeLabelBands` |
| MainScreen.TimeColor | app/src/main/java/com/batterydischarge/calculator/MainActivity.kt:294-305 | the time-remaining colour; its property is `TimeLabelBands` |
| MainScreen.RootStatusFor | app/src/main/java/com/batterydischarge/calculator/MainActivity.kt:137-151 | the root status texts and colour; its property is `RootStatusFollowsFlag` |
| LegacyService.EstimateCurrentDraw | app/src/main/java/com/batterydischarge/BatteryService.java:156-159 | the constant 450 mA fallback; `CurrentDrawTiers` states when it is used |
| HardwareManager.IntOrZero | app/src/main/java/com/batterydischarge/calculator/BatteryManager.kt:197 | a node's text read as an `Int`: the parse of the trimmed text when it parses, 0 when it does not |
| HardwareManager.Degraded | app/src/main/java/com/batterydischarge/calculator/BatteryManager.kt:173-184 | the fallback record: zeros, not charging, 4100 mAh, "Error"; `Snapshot` states it is returned exactly on a failed status query |
| NotificationService.ParseNumber | app/src/main/java/com/batterydischarge/calculator/BatteryNotificationService.kt:59 | a value exactly when there is text and `ParseInteger` accepts it, and the value is that integer |
| NotificationService.InfoWith | app/src/main/java/com/batterydischarge/calculator/BatteryNotificationService.kt:59-70 | the text for a given separator; its properties are `EstimateShownIffSomeTimeLeft`, `NoPositiveCurrentMeansCalculating` and `FormsAreDistinct` |

## Left out

- Concurrency: discovery and the root check run in `GlobalScope` coroutines. Here they complete before the first read, and the race where reads start before discovery ends is not modelled. The polling loops (`delay`, every 15 s or 5 s) and the `Handler` runnable are left out; each iteration is one call of the modelled methods.
- `checkRootAccess`: the model takes the answer of `Shell.SU.available()` as a parameter. Its `chmod`/`chown` side effect is not modelled.
- `getDebugInfo`: the source file is truncated inside it.
- RootUtils and BatteryReceiver: RootUtils is platform glue, modelled only as the privileged-read map of `Device`. BatteryReceiver is not modelled. The `BatteryStateReceiver` class that the monitor registers is not part of this model.
- Notification building, channels, pending intents, the wake lock, `startForeground`/`stopSelf`, `onDestroy` and the notification permission: the model keeps only what the notification says and whether it is shown. A `notify` refused for lack of permission is treated as shown.
- The display texts of `updateBatteryDisplay` that use `%.1f`/`%.2f` (current, voltage, temperature, power), and the chart rendering.
- Trunc: does not model the saturation of `toInt()` at the 32-bit bounds. Doubles and Floats are exact reals, so IEEE-754 rounding is not modelled.
- HardwareManager.MilliAmps: does not model `abs(Int.MIN_VALUE)`, which stays negative in Kotlin.
- HardwareManager.Percent: does not model 32-bit overflow of `level * 100`. `RemainingMah` does not model 32-bit overflow of `design * percent`, and `LegacyService.DischargeTime` does not model it for `4100 * percent`.
- Text.ParseInteger: accepts ASCII digits only. Kotlin and Java also accept other Unicode decimal digits. Kotlin's `trim()` removes every Unicode whitespace character and Java's removes every character up to U+0020, while `Text.Trim` removes only space, tab, line feed, carriage return, vertical tab and form feed.
- The exception `getBatteryPercent` (BatteryNotificationService.kt:82-85) throws when the battery service is missing is not modelled: the level is a parameter. Such an exception would end the polling coroutine of `onCreate`, whose loop does not catch it.
- Locale: `String.format` and `"%d".format` use the default locale, which can print non-ASCII digits. The model prints ASCII digits through `Text.IntToDecimal`, here and in `LegacyService.DischargeTime`, `LegacyService.DischargeNotice`, `MonitorService.DischargeNotice` and `NotificationService.InfoWith`.
- NotificationService.ParseNumber: models `toFloatOrNull` on integer texts only. Fractions, exponents, "NaN" and "Infinity" are not parsed.

## Findings

| source | as written | input that shows it | evidently intended | confidence | as-written member | corrected member |
|---|---|---|---|---|---|---|
| app/src/main/java/com/batterydischarge/calculator/BatteryNotificationService.kt:68 | the format string holds the three characters "â€”", which are an em dash's UTF-8 bytes decoded as Windows-1252 | current 350000 µA, capacity 4100000 µAh, level 50 %: the text reads "5h 51m remaining (350mA) â€” 50%" | an em dash: "5h 51m remaining (350mA) — 50%" | high; not executed | NotificationService.MisencodedSeparator | NotificationService.BatteryInfo |
