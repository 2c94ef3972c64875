# The AI Peeps Intiface Sync — verified model of the chat-to-device engine

The userscript watches a chat page. On a polling tick it takes the numbers in a chat message, turns them into per-motor intensities and sends them to sex-toy devices through a websocket client library. The repository holds three revisions of the script. This project models the engine of each revision: the part between the chat text it reads and the device calls it makes.

| revision | source file | module | what its tick does |
|---|---|---|---|
| 1.1 | theaipeeps-buttplug.js | `LegacySync` (legacy_sync.dfy) | Row i drives `client.devices[i]` with one scalar. Numbers are not range-filtered. A changed number is sent at once. An unchanged one starts an oscillation timer (slider above 0) or stops it (slider at 0). |
| 1.3 | theaipeeps-buttplug_dev.js | `DeviceSync` (device_sync.dfy) | One row per motor. Each tick builds one speed vector per device and sends it only when it differs from the cached `lastDeviceCommands` entry. |
| 0.1 | theaipeeps-buttplug_dev_do_not_use.js | `ActuatorSync` (actuator_sync.dfy) | Only the last message is read, as numbers or (phrase system on) as a phrase naming an intensity level. Oscillation re-reads intensities. Every mapped device is flushed, with one command per actuator type. |

The modules share two others:

- `Tokenizer` (tokenizer.dfy) models these pieces of the script:
  - the search for the latest message with a digit;
  - the global scans `/\d{1,3}/g` and `/v(\d{1,3})/gi` (with the `v` stripped);
  - the 0..100 filter.
- `Common` (common.dfy) holds the optional value (`null`), the clamp `Math.min(Math.max(x, lo), hi)` and the percentage-to-intensity map `v / 100`.

Each revision follows the same pattern.

- **Pure specification functions.** These cover the row enumeration of `populateMappingSettings`, the per-row step of a tick, the tick's outcome and the device calls of a tick or a stop. Lemmas state what the script promises about them.
- **A class `Engine`.** Its fields are the script's globals:
  - `isConnected` and `mappingStarted`;
  - `mappingConfig`, held as `rows` plus `intensity`;
  - `lastSentValues`, the oscillation arrays and `lastDeviceCommands`;
  - `sent`, a log of every device call made.

  Its methods are the script's operations, written with the script's loops. Each method's `ensures` ties the new fields and the appended calls to the specification functions.

The model's inputs are:

- the chat messages, as strings;
- the device inventory, as a constant of the engine;
- the tick time `now` and the sine value `s` of an oscillation firing;
- the state of the two checkboxes (v-prefix and phrase system);
- the phrase table.

## Model

| member | source | states |
|---|---|---|
| Common.Clamp | theaipeeps-buttplug.js:551 | The clamp lies in [lo, hi]. It is x itself inside the interval and the nearer bound outside it. |
| Common.Nulls | theaipeeps-buttplug_dev.js:463 | `lastSentValues.push(null)` once per row (and likewise for the bases and start times): n null slots. Its ensures gives the length and that every slot is null. |
| Common.Falses | theaipeeps-buttplug_dev.js:464 | `oscillationTimers.push(null)` once per row: n timer slots, none running. Its ensures gives the length and that no slot runs. |
| Common.Fraction | theaipeeps-buttplug_dev.js:590 | `newValue / 100`, the chat percentage as an intensity (also buttplug.js:551 and do_not_use.js:712). `FractionRange` states its properties. |
| Common.FractionRange | theaipeeps-buttplug_dev.js:590 | `v / 100` lies in [0, 1] exactly when v is in 0..100. 0 maps to 0 and 100 to 1. Values above 100 map above 1. |
| Tokenizer.RunLength | theaipeeps-buttplug_dev.js:564 | The greedy `\d{1,max}` at a position takes at most max characters, all digits. It stops early only at a non-digit or at the end of the text. |
| Tokenizer.HasDigit | theaipeeps-buttplug_dev.js:546 | The `text.match(/\d+/)` test: the message holds a decimal digit. `HasDigitIffTokens`, `LatestWithDigitSpec` and `NumbersNeedDigit` state its properties. |
| Tokenizer.ScanFrom | theaipeeps-buttplug_dev.js:559-564 | The successive matches of `/\d{1,3}/g` (or the captured digits of `/v(\d{1,3})/gi`) from a position. A failed attempt moves on one character and a match resumes after its last digit. `MatchesWellFormed` states what the matches are. |
| Tokenizer.MatchesWellFormed | theaipeeps-buttplug_dev.js:556-565 | Each match of the global scan has one to three digits and is greedy. In the `v` variant it comes right after a `v` or `V`. Matches are in text order and do not overlap. |
| Tokenizer.DigitsValue | theaipeeps-buttplug_dev.js:572 | `parseInt(ds, 10)` of a string of decimal digits: the base-10 value, most significant digit first. `TokensBounded` bounds it for matches. |
| Tokenizer.Tokens | theaipeeps-buttplug_dev.js:559-564 | The numbers of a scan, in text order: each match's digits, with the `v` removed, read by `parseInt`. `TokensBounded` and `PlainMatchesCoverDigits` state its properties. |
| Tokenizer.TokensBounded | theaipeeps-buttplug.js:501 | Every extracted number is at most 999. |
| Tokenizer.PlainMatchesCoverDigits | theaipeeps-buttplug.js:501 | Without the `v` prefix, the matches concatenated are exactly the digits of the text, in order. No digit is lost and none is repeated. |
| Tokenizer.MarkedDigitsMatched | theaipeeps-buttplug_dev.js:559-562 | In the `v` variant, every `v`/`V` directly followed by a digit, at or after the scan position, starts a match. |
| Tokenizer.HasDigitIffTokens | theaipeeps-buttplug.js:491-505 | A text contains a digit exactly when the plain scan yields at least one number. So the "no numbers" return never fires after a message with a digit was found. |
| Tokenizer.FilterRange | theaipeeps-buttplug_dev.js:571-574 | `numberMatches.filter(n => n >= 0 && n <= 100)`: the numbers of at most 100, in order. `FilterRangeSpec` states its properties. |
| Tokenizer.FilterRangeSpec | theaipeeps-buttplug_dev.js:570-578 | After the filter every number is in 0..100. A value survives iff it was present and is at most 100. The survivors keep their relative order. An input already in range passes unchanged. |
| Tokenizer.LatestWithDigit | theaipeeps-buttplug_dev.js:534-550 | The message the backward search settles on: the last one with a digit, or none. `LatestWithDigitSpec` characterises it. |
| Tokenizer.LatestWithDigitSpec | theaipeeps-buttplug_dev.js:533-554 | The search finds nothing iff no message has a digit. Otherwise it finds the message at the highest position with a digit. |
| Tokenizer.FindLatestWithDigit | theaipeeps-buttplug_dev.js:534-550 | The backward loop that stops at the first message with a digit returns that latest such message. |
| Tokenizer.ChatNumbers | theaipeeps-buttplug_dev.js:557-578 | The numbers a tick works with in revisions 1.3 and 0.1: the matches of the scan the v-prefix checkbox chooses, filtered to 0..100. |
| Tokenizer.NumbersNeedDigit | theaipeeps-buttplug_dev_do_not_use.js:677-703 | A filtered number implies an unfiltered one, which implies a digit in the text. Under either scan the number path needs a message with a digit. |
| DeviceSync.Zeros | theaipeeps-buttplug_dev.js:502 | `Array(n).fill(0)` has length n and every slot is 0. |
| DeviceSync.MotorCount | theaipeeps-buttplug_dev.js:334-337 | A device's motor count: `ScalarCmd.length`, or 1 when the device reports no `ScalarCmd`. `RowsFromSpec` uses it for the rows per device. |
| DeviceSync.TotalMotors | theaipeeps-buttplug_dev.js:331-340 | `totalMappingCount`: the motor counts of the devices summed. `RowsFromSpec` proves it is the row count. |
| DeviceSync.Shown | theaipeeps-buttplug_dev.js:327-329 | `devices.slice(0, 4)` when there are more than four devices, else the devices. `PopulateMappingSettingsSpec` states the four-device cut. |
| DeviceSync.RowsFrom | theaipeeps-buttplug_dev.js:348-423 | The rows of the panel: for each device in order, one row per motor, row k preselecting Number k+1 with slider 0. `RowsFromSpec` states the count and order. |
| DeviceSync.RowsFromSpec | theaipeeps-buttplug_dev.js:331-380 | There is one row per motor (`ScalarCmd.length`, or 1 without it), so the row count is the total motor count. Row k preselects Number k+1 with slider 0. Rows come in device-then-motor order. Every motor of every device has a row. |
| DeviceSync.PopulateMappingSettings | theaipeeps-buttplug_dev.js:316-423 | No panel without a connection or devices. Otherwise the rows of at most the first four devices, each drop-down offering one number per motor. |
| DeviceSync.PopulateMappingSettingsSpec | theaipeeps-buttplug_dev.js:316-380 | There is no panel without a connection or with no devices. Otherwise only the first four devices count. Each drop-down offers one number per row, and the rows address in-range devices and motors. |
| DeviceSync.Touched | theaipeeps-buttplug_dev.js:597-599 | The keys of `deviceCommands` after the first k rows: the device of each in-range row, added when not yet present. `TouchedSpec` characterises it. |
| DeviceSync.TouchedSpec | theaipeeps-buttplug_dev.js:582-605 | The keys of `deviceCommands` are exactly the devices with a row whose number is in range. Each key appears once, in first-insertion order. |
| DeviceSync.SlotRow | theaipeeps-buttplug_dev.js:583-601 | Returns the last in-range row writing a motor slot of a device, or none iff no in-range row writes it. |
| DeviceSync.VectorsUpTo | theaipeeps-buttplug_dev.js:592-601 | The vector map has an entry exactly for the touched devices. Each vector's length is that device's motor count. |
| DeviceSync.NextIntensity | theaipeeps-buttplug_dev.js:585-590 | A row's `intensity` after the tick: `clamp(v/100, 0, 1)` for an in-range number that differs from `lastSentValues[i]`, else unchanged. `TickRowSpec` states its properties. |
| DeviceSync.NextLast | theaipeeps-buttplug_dev.js:586-589 | A row's `lastSentValues[i]` after the tick: its number when in range, else unchanged. `TickRowSpec` states it. |
| DeviceSync.TickLastSent | theaipeeps-buttplug_dev.js:583-589 | `NextLast` applied to every row. `RowPass` and `ApplyNumbers` tie the row loop to it. |
| DeviceSync.TickIntensity | theaipeeps-buttplug_dev.js:583-590 | `NextIntensity` applied to every row. `RowPass`, `ApplyNumbers` and `TickRowSpec` tie the row loop and its range to it. |
| DeviceSync.TickRowSpec | theaipeeps-buttplug_dev.js:583-591 | A row with a number records it in `lastSentValues`. A changed number sets the intensity to `v / 100`, the clamp then being the identity on 0..100. A row with no number, or with the same number, keeps its intensity. A row with no number keeps its last value. Intensities stay in [0, 1]. |
| DeviceSync.Vector | theaipeeps-buttplug_dev.js:592-601 | The reference vector of a device: one slot per motor, each holding the intensity of the last in-range row driving it, else 0. |
| DeviceSync.VectorSpec | theaipeeps-buttplug_dev.js:592-601 | A device's vector has its motor count as length. A motor slot holds the intensity of the last in-range row driving it, and is 0 when no in-range row drives it. |
| DeviceSync.VectorsUpToSpec | theaipeeps-buttplug_dev.js:592-601 | The vectors built row by row equal the per-slot reference vectors. |
| DeviceSync.AgreeStep | theaipeeps-buttplug_dev.js:592-601 | One more row keeps every built vector equal to its device's reference vector. |
| DeviceSync.PendingSends | theaipeeps-buttplug_dev.js:607-620 | The calls of the send loop over the devices in `deviceCommands` order: `vibrate(speeds)` for a device whose vector is uncached or differs and that has `vibrate`. `PendingSendsSpec` characterises it. |
| DeviceSync.PendingSendsSpec | theaipeeps-buttplug_dev.js:607-620 | The send loop calls a device iff its vector differs from the cache (or nothing is cached) and the device has `vibrate`. The call carries that vector. For distinct devices each is called at most once. |
| DeviceSync.NoPendingSends | theaipeeps-buttplug_dev.js:607-620 | When every vector equals its cached copy, the send loop makes no call. |
| DeviceSync.Tick | theaipeeps-buttplug_dev.js:581-620 | A tick on numbers: the new last values and intensities, the cache overridden by the tick's vectors, and the pending sends. `TickSendsSpec` and `TickIdempotent` state its properties. |
| DeviceSync.TickSendsSpec | theaipeeps-buttplug_dev.js:581-620 | A device gets a vector iff one of its rows has a number. The vector is sent iff it differs from the cache and the device vibrates, at most once per device. Afterwards the cache holds it. Devices without a vector keep their cache entry. |
| DeviceSync.TickIdempotent | theaipeeps-buttplug_dev.js:588-620 | A second tick on the same numbers changes no last value, intensity or cache entry, and sends nothing. |
| DeviceSync.FirstTickAfterStart | theaipeeps-buttplug_dev.js:441-467 | From the state `startMapping` leaves (all last values null, empty cache), every in-range number sets its row's intensity to `clamp(v/100, 0, 1)`. Every vibrating device with an in-range row receives a vector. |
| DeviceSync.StopSends | theaipeeps-buttplug_dev.js:495-504 | The stop calls: an all-zero vector of the device's motor count for every mapping row whose device vibrates, in row order. |
| DeviceSync.StopSendsSpec | theaipeeps-buttplug_dev.js:495-504 | Every stop command is all zeros, with the device's motor count as length. There is exactly one command per mapping row whose device vibrates, in row order. The cache is neither read nor written. |
| DeviceSync.ArraysEqual | theaipeeps-buttplug_dev.js:39-45 | True iff the lengths are equal and all elements are equal, which is sequence equality. |
| DeviceSync.CacheAfter | theaipeeps-buttplug_dev.js:615-619 | `lastDeviceCommands` after the send loop has handled a list of devices: each handled device holds its vector. `CacheAfterSpec` characterises it. |
| DeviceSync.CacheAfterSpec | theaipeeps-buttplug_dev.js:615-619 | After the send loop, the cache has a key iff it had one before or the device was handled. A handled device holds its new vector. Every other device keeps its old copy. |
| DeviceSync.CacheAfterMerge | theaipeeps-buttplug_dev.js:607-620 | When every vector of the tick is handled, the new cache is the old one overridden by the tick's vectors. |
| DeviceSync.Engine.constructor | theaipeeps-buttplug_dev.js:17-31 | The script starts disconnected or connected as given, not mapping, with no rows, an empty cache and no calls. |
| DeviceSync.Engine.SetConnected | theaipeeps-buttplug_dev.js:291-309 | `isConnected` takes the client's connection state. Nothing else changes. |
| DeviceSync.Engine.StartMapping | theaipeeps-buttplug_dev.js:430-478 | The rows are the panel's settings. Each row has intensity 0 and a null last value, and the cache is empty. Mapping is on and no call is made. |
| DeviceSync.Engine.SliderMoved | theaipeeps-buttplug_dev.js:404-414 | Moving a slider turns mapping off, and nothing else changes. |
| DeviceSync.Engine.SendVibration | theaipeeps-buttplug_dev.js:624-634 | Appends one `vibrate(speeds)` for a device with a `vibrate` method, and nothing otherwise. |
| DeviceSync.Engine.StopMapping | theaipeeps-buttplug_dev.js:481-508 | Mapping turns off. Rows, values, intensities and cache are kept. The calls made are exactly `StopSends`. |
| DeviceSync.Engine.CheckMessages | theaipeeps-buttplug_dev.js:520-621 | Nothing changes when disconnected or stopped, when no message has a digit, or when no number in 0..100 remains. Otherwise values, intensities, cache and calls are those of `Tick` on the filtered numbers of the latest message with a digit. |
| DeviceSync.Engine.RunTick | theaipeeps-buttplug_dev.js:581-620 | The row loop followed by the send loop produce exactly the outcome of `Tick`. |
| DeviceSync.Engine.ApplyNumbers | theaipeeps-buttplug_dev.js:583-605 | The row loop leaves the updated last values and intensities, and `deviceCommands` with exactly the touched devices in insertion order and their reference vectors. |
| DeviceSync.RowPass | theaipeeps-buttplug_dev.js:583-605 | The loop over the rows yields the tick's last values and intensities. It also yields the keys of `deviceCommands` in insertion order and the reference vectors, computed from the new intensities. |
| DeviceSync.ApplyRow | theaipeeps-buttplug_dev.js:584-604 | Row i's body gives its last value and intensity by the per-row rule. It extends the key order and vectors of the first i rows to those of the first i+1. A new device starts with a zero vector. |
| DeviceSync.Engine.SendChanged | theaipeeps-buttplug_dev.js:607-620 | The send loop appends exactly the pending sends and leaves the cache as `CacheAfter`. |
| DeviceSync.SendStep | theaipeeps-buttplug_dev.js:607-620 | When the send loop reaches device j, that device's cache entry is still the one from before the loop. Handling it adds its vector to the cache and its pending call, if any, to the log. |
| LegacySync.PopulateMappingSettings | theaipeeps-buttplug.js:302-386 | No panel without a connection or devices. Otherwise one row per device for at most four devices, row i preselecting Number i+1 with slider 0. |
| LegacySync.PopulateMappingSettingsSpec | theaipeeps-buttplug.js:302-386 | There is no panel without a connection or with no devices. Otherwise there is one row per device for at most four devices. Row k preselects Number k+1 with slider 0, and each drop-down offers one number per row. |
| LegacySync.SendTo | theaipeeps-buttplug.js:549-554 | `sendVibrationCommandToDevice(client.devices[i], percent)`: no call for a missing device or one without `vibrate`, else `vibrate(clamp(percent/100, 0, 1))`. |
| LegacySync.SendToSpec | theaipeeps-buttplug.js:549-554 | A missing device, or one without `vibrate`, gets no call. Otherwise the device gets one call whose level is in [0, 1]. It equals percent/100 for percentages in 0..100, and saturates at 1 above 100 and at 0 below 0. |
| LegacySync.IsNew | theaipeeps-buttplug.js:510-512 | A row's number is in range and differs from `lastSentValues[i]`. `TickSendsSpec` proves a row sends exactly when it holds, and `NoNewTwice` proves it fails once the numbers are recorded. |
| LegacySync.NextLast | theaipeeps-buttplug.js:510-519 | A row's `lastSentValues[i]` after the tick: its number when in range, else unchanged. |
| LegacySync.NextActive | theaipeeps-buttplug.js:512-541 | Whether a row's timer runs after the tick: a new number stops it, a repeated one runs it iff the slider is above 0, and an out-of-range row keeps it. |
| LegacySync.NextBase | theaipeeps-buttplug.js:517 | A row's `oscillationBases[i]`: a new number becomes the base, otherwise it is kept. |
| LegacySync.NextStart | theaipeeps-buttplug.js:518-524 | A row's `oscillationStartTime[i]`: reset to now by a new number and by a timer that starts, otherwise kept. |
| LegacySync.TickCoherent | theaipeeps-buttplug.js:507-545 | A tick keeps the invariant: the oscillation base is always the last value sent, and a running timer has one. |
| LegacySync.TickSends | theaipeeps-buttplug.js:507-520 | The calls of the first k rows: `SendTo` of row i's device for each row whose number is new, in row order. `TickSendsSpec` characterises it. |
| LegacySync.Tick | theaipeeps-buttplug.js:507-545 | A tick on numbers: every row's next last value, timer, base and start time, and the tick's calls. `TickCoherent`, `SecondTickQuiet` and `NoNewTwice` state its properties. |
| LegacySync.TickSendsSpec | theaipeeps-buttplug.js:507-520 | Every call of a tick is for a row with a changed number, on that row's device, at `clamp(v/100, 0, 1)`. Every such row whose device exists and vibrates makes exactly that call. Calls are in row order, at most one per row. |
| LegacySync.SecondTickQuiet | theaipeeps-buttplug.js:510-541 | A second tick on the same numbers sends nothing and keeps every value and base. The in-range rows oscillate afterwards exactly when their slider is above 0. |
| LegacySync.NoNewTwice | theaipeeps-buttplug.js:512-520 | Once every row has recorded the tick's numbers, no row has a changed number, so no call is made. |
| LegacySync.Oscillated | theaipeeps-buttplug.js:528-531 | The value a timer firing sends: `base + (osc/100) * base * s` clamped to [0, 100], s being the sine's value. |
| LegacySync.Amplitude | theaipeeps-buttplug.js:529 | `amplitude = (osc / 100) * base`. `OscillatedSpec` bounds the oscillated value by it. |
| LegacySync.OscillatedSpec | theaipeeps-buttplug.js:525-533 | The oscillated value lies in [0, 100]. For a base of at most 100 it stays within the amplitude (osc% of the base) of the base, and it equals the base where the sine is 0. |
| LegacySync.ClampWithin | theaipeeps-buttplug.js:531 | Clamping base+t to [0, 100] stays within a of the base when \|t\| ≤ a ≤ base ≤ 100. |
| LegacySync.StopSends | theaipeeps-buttplug.js:441-446 | The stop calls: `SendTo(i, 0)` for each client device in order. |
| LegacySync.StopSendsSpec | theaipeeps-buttplug.js:441-446 | Stop sends level 0 to exactly the client devices with `vibrate`, mapped or not, in order. |
| LegacySync.Engine.constructor | theaipeeps-buttplug.js:17-29 | The engine starts not mapping, with no rows and no calls. |
| LegacySync.Engine.SetConnected | theaipeeps-buttplug.js:277-295 | `isConnected` takes the client's connection state. |
| LegacySync.Engine.StartMapping | theaipeeps-buttplug.js:389-424 | The rows are the settings. Every last value, base and start time is null and no timer runs. Mapping is on and no call is made. |
| LegacySync.Engine.SliderMoved | theaipeeps-buttplug.js:366-376 | Moving a slider turns mapping off. |
| LegacySync.Engine.SendVibration | theaipeeps-buttplug.js:549-554 | Appends exactly `SendTo(devices, i, percent)`. |
| LegacySync.Engine.StopMapping | theaipeeps-buttplug.js:427-450 | Mapping turns off and every timer stops. Values and bases are kept. Every client device gets 0 (`StopSends`). |
| LegacySync.Engine.Fire | theaipeeps-buttplug.js:525-533 | A running timer has a base. Its firing sends `Oscillated(base, osc, s)` to the row's device through the clamp, and changes no state. |
| LegacySync.Engine.CheckMessages | theaipeeps-buttplug.js:462-546 | Nothing changes when disconnected or stopped, or when no message has a digit. Otherwise the per-row state and the calls are those of `Tick` on the unfiltered numbers of the latest message with a digit. |
| LegacySync.Engine.RunTick | theaipeeps-buttplug.js:507-545 | The row loop leaves exactly the outcome of `Tick` and keeps the engine's invariant. |
| LegacySync.Engine.TickRows | theaipeeps-buttplug.js:507-545 | The loop over `mappingConfig` writes back each row's `Tick` values and appends the tick's calls in row order. |
| LegacySync.Engine.ApplyRow | theaipeeps-buttplug.js:508-541 | One row's body computes its last value, timer, base and start time by the per-row rules. It sends the new number when the number changed. |
| ActuatorSync.FindDevice | theaipeeps-buttplug_dev_do_not_use.js:813-819 | Any device returned is in the inventory and has the requested `DeviceIndex`. |
| ActuatorSync.FindDeviceSpec | theaipeeps-buttplug_dev_do_not_use.js:813-819 | None is found iff no device has the index. Otherwise the first device with it is found. |
| ActuatorSync.FindGroup | theaipeeps-buttplug_dev_do_not_use.js:510 | Finds the position of the group with a type, and none iff no group has that type. |
| ActuatorSync.Lower | theaipeeps-buttplug_dev_do_not_use.js:509 | `toLowerCase()` on ASCII letters, used for actuator types and, at :608, for messages and phrases. Its ensures keeps the length, and `GroupOfIndex` groups by it. |
| ActuatorSync.AddIndex | theaipeeps-buttplug_dev_do_not_use.js:510-511 | `if (!actuatorGroups[type]) actuatorGroups[type] = []` then `push(i)`: the index goes onto the group of its type, or a new group at the end. `PushExisting`, `PushNew` and `AddIndexKeeps` state its effect. |
| ActuatorSync.Groups | theaipeeps-buttplug_dev_do_not_use.js:506-512 | `actuatorGroups`: the actuator indices grouped by lowercased type, groups in first-seen order. `GroupsSpec` and `GroupOfIndex` state its properties. |
| ActuatorSync.GroupsSpec | theaipeeps-buttplug_dev_do_not_use.js:506-512 | `actuatorGroups` has distinct types and no empty group. Each group's indices ascend and all carry that lowercased type. Every actuator index is in a group. |
| ActuatorSync.GroupOfIndex | theaipeeps-buttplug_dev_do_not_use.js:506-512 | Each actuator index lies in a group, and every group holding it is the group of its lowercased type. |
| ActuatorSync.PushExisting | theaipeeps-buttplug_dev_do_not_use.js:510-511 | Pushing onto an existing key of the insertion-ordered object appends to that group only. |
| ActuatorSync.PushNew | theaipeeps-buttplug_dev_do_not_use.js:510-511 | Creating a new key with `[i]` appends a new group at the end, and the keys stay distinct. |
| ActuatorSync.PushStep | theaipeeps-buttplug_dev_do_not_use.js:506-512 | Handling actuator i either creates its new lowercased type key or appends i to that key. The keys stay distinct and in first-seen order, and the groups become those of the first i+1 actuators. |
| ActuatorSync.GroupActuators | theaipeeps-buttplug_dev_do_not_use.js:506-512 | The grouping loop builds exactly the reference grouping `Groups(types)`. |
| ActuatorSync.FindRow | theaipeeps-buttplug_dev_do_not_use.js:517 | Any row returned drives that `DeviceIndex` and motor. |
| ActuatorSync.FindRowSpec | theaipeeps-buttplug_dev_do_not_use.js:517 | None is found iff no row drives that actuator. Otherwise the first row driving it is found. |
| ActuatorSync.Speeds | theaipeeps-buttplug_dev_do_not_use.js:515-520 | A group's `speeds`: for each index, the intensity of the first row driving that actuator, else 0. |
| ActuatorSync.Known | theaipeeps-buttplug_dev_do_not_use.js:523-529 | The four tested types `vibrate`, `oscillate`, `rotate` and `linear`. `DeviceSendsSpec` and `ZeroCommandSpec` prove a method call is made exactly for these, and the fallback otherwise. |
| ActuatorSync.Dispatch | theaipeeps-buttplug_dev_do_not_use.js:521-544 | The call for one group: the device method of a known type with the speeds, else the fallback `ScalarCmd` reading `speeds[idx]` by actuator index. |
| ActuatorSync.GroupCommands | theaipeeps-buttplug_dev_do_not_use.js:513-550 | The `for (let type in actuatorGroups)` loop: one dispatched call per group, in group order, each with that group's speeds. Its ensures gives one call per group, and `DeviceSendsSpec` the calls themselves. |
| ActuatorSync.DeviceSends | theaipeeps-buttplug_dev_do_not_use.js:499-552 | `sendCommandsForDevice`: nothing without `ScalarCmd`, otherwise one dispatched call per group, in group order. `DeviceSendsSpec` characterises it. |
| ActuatorSync.DeviceSendsSpec | theaipeeps-buttplug_dev_do_not_use.js:499-530 | There is one command per actuator group, to the device's index, and it is a method call iff the type is one of vibrate, oscillate, rotate and linear. The call's vector has one speed per index of the group: the first matching row's intensity, else 0. With intensities in [0, 1] every speed is in [0, 1]. |
| ActuatorSync.FallbackReadsByActuatorIndex | theaipeeps-buttplug_dev_do_not_use.js:533-536 | As written, the fallback indexes `speeds` by the actuator index: a `["Vibrate", "Constrict"]` device's second command is `ScalarCmd` with Index 1 and an undefined Speed. |
| ActuatorSync.UniqueIndices | theaipeeps-buttplug_dev_do_not_use.js:748 | `[...new Set(mappingConfig.map(cfg => cfg.deviceIndex))]`: each mapped index, added when not yet present. `UniqueIndicesSpec` characterises it. |
| ActuatorSync.UniqueIndicesSpec | theaipeeps-buttplug_dev_do_not_use.js:748 | `[...new Set(...)]` holds each mapped `DeviceIndex` exactly once, in order of first appearance. |
| ActuatorSync.SendsFor | theaipeeps-buttplug_dev_do_not_use.js:749-754 | The flush `forEach`: for each index of a list, in order, the sends of the device found for it. `SendsForSpec` and `SendsForStep` state its properties. |
| ActuatorSync.SendsOf | theaipeeps-buttplug_dev_do_not_use.js:750-753 | `if (device) await sendCommandsForDevice(device)`: the device's sends, or none when no device is found. `SendsForSpec` proves that an index yields calls only when a device is found, and then exactly that device's `DeviceSends`. |
| ActuatorSync.SendsForSpec | theaipeeps-buttplug_dev_do_not_use.js:749-754 | The flush over a list of indices makes a call iff it is a `sendCommandsForDevice` call for a listed index whose device is present. |
| ActuatorSync.FlushSends | theaipeeps-buttplug_dev_do_not_use.js:747-754 | The end-of-tick flush: `DeviceSends` of the device found for each distinct mapped index, in that order. |
| ActuatorSync.FlushSendsSpec | theaipeeps-buttplug_dev_do_not_use.js:747-754 | The end-of-tick flush makes a call iff it is a `sendCommandsForDevice` call for a mapped device that is present. Whether anything changed plays no part. |
| ActuatorSync.StopsFor | theaipeeps-buttplug_dev_do_not_use.js:834-879 | The stop calls: the zero command of every group of the device found for each index of a list, in order. |
| ActuatorSync.DeviceStops | theaipeeps-buttplug_dev_do_not_use.js:838-873 | The per-device body of `stopMapping`: the zero command of each group of the device's types, in group order, and none for a device without `ScalarCmd`. `StopsForZero`, `StopsForCover` and `Engine.StopDevice` state its properties. |
| ActuatorSync.StopsOf | theaipeeps-buttplug_dev_do_not_use.js:836-878 | `if (device)` around that body: the device's stops, or none when no device is found. `StopsForStep` unfolds it. |
| ActuatorSync.StopsForZero | theaipeeps-buttplug_dev_do_not_use.js:846-873 | Every stop command is all zeros (ScalarCmd speeds 0). |
| ActuatorSync.StopsForCover | theaipeeps-buttplug_dev_do_not_use.js:834-879 | Every mapped, present device with `ScalarCmd` gets the zero command of each of its actuator groups. |
| ActuatorSync.ZeroCommand | theaipeeps-buttplug_dev_do_not_use.js:847-871 | A group's stop call: zeros of the group's length through the known type's method, else a `ScalarCmd` with Speed 0 for each index. |
| ActuatorSync.ZeroCommandSpec | theaipeeps-buttplug_dev_do_not_use.js:849-871 | A group's zero command goes to the device and is a method call iff the type is known. A method call carries one zero per index of the group. A fallback command carries pairs (index, 0). |
| ActuatorSync.RowsFrom | theaipeeps-buttplug_dev_do_not_use.js:416-492 | The panel rows from device d on: one row per actuator, numbered on from `before`, stopping at the first device without `ScalarCmd`. |
| ActuatorSync.MotorCount | theaipeeps-buttplug_dev_do_not_use.js:400-405 | A device's motor count: `ScalarCmd.length`, or 1 without `ScalarCmd`. `RowsFromCount` and `RowsFromCovers` relate it to the rows. |
| ActuatorSync.TotalMotors | theaipeeps-buttplug_dev_do_not_use.js:397-408 | `totalMappingCount`: the motor counts summed. `RowsFromCount` proves it bounds the row count, and it is the panel's option count. |
| ActuatorSync.Shown | theaipeeps-buttplug_dev_do_not_use.js:394-396 | `devices.slice(0, 4)` when there are more than four devices, else the devices. `PopulateMappingSettingsSpec` states the four-device cut. |
| ActuatorSync.DeviceRows | theaipeeps-buttplug_dev_do_not_use.js:419-447 | The rows of one device: for motor m, Number `before + m + 1` preselected, slider 0, the device's index and motor m. Its ensures gives length and contents, and `RowsFromBlocks` places it in the panel. |
| ActuatorSync.Reached | theaipeeps-buttplug_dev_do_not_use.js:416-420 | Every device from d to e has `ScalarCmd`, so the throwing read at :420 does not stop the enumeration before e. `RowsFromBlocks`, `RowsFromCovers` and `RowsFromSound` are stated for reached devices. |
| ActuatorSync.ReachedMotors | theaipeeps-buttplug_dev_do_not_use.js:416-420 | The actuators of the devices the enumeration reaches before the first device without `ScalarCmd`. `RowsFromCount` proves it is the row count. |
| ActuatorSync.RowsFromCount | theaipeeps-buttplug_dev_do_not_use.js:397-420 | There is exactly one row per actuator of the devices reached (`ReachedMotors`), which is at most the total motor count. |
| ActuatorSync.RowsFromBlocks | theaipeeps-buttplug_dev_do_not_use.js:416-492 | The rows of each reached device form one block, motors 0, 1, … in order, starting after the motors of the devices before it. |
| ActuatorSync.RowsFromDistinct | theaipeeps-buttplug_dev_do_not_use.js:416-492 | With distinct `DeviceIndex` values, no two rows drive the same actuator. |
| ActuatorSync.RowsFromNumbering | theaipeeps-buttplug_dev_do_not_use.js:441-447 | Row k preselects Number before+k+1, with slider 0. |
| ActuatorSync.RowsFromCovers | theaipeeps-buttplug_dev_do_not_use.js:416-440 | Every actuator of every device reached gets a row. A device is reached when it and all devices before it have `ScalarCmd`. |
| ActuatorSync.RowsFromSound | theaipeeps-buttplug_dev_do_not_use.js:416-440 | Every row drives an actuator of a device reached. |
| ActuatorSync.PopulateMappingSettings | theaipeeps-buttplug_dev_do_not_use.js:383-496 | No panel without a connection or devices. Otherwise the rows of at most the first four devices, each drop-down offering one number per motor (1 for a device without `ScalarCmd`). |
| ActuatorSync.PopulateMappingSettingsSpec | theaipeeps-buttplug_dev_do_not_use.js:383-496 | There is no panel without a connection or with no devices. Otherwise row k preselects Number k+1 out of one number per motor of the first four devices. There is exactly one row per actuator of the devices reached, in device-then-motor blocks, and no other row. |
| ActuatorSync.LevelSpec | theaipeeps-buttplug_dev_do_not_use.js:616-637 | The levels are low 0.25, mid 0.5, high 0.75 and orgasm 1, strictly increasing. The stored percentage is the value times 100, and its `v / 100` is the value again. |
| ActuatorSync.LevelValue | theaipeeps-buttplug_dev_do_not_use.js:616-631 | The `switch`: low 0.25, mid 0.5, high 0.75, orgasm 1. `LevelSpec` states the values and their order. |
| ActuatorSync.LevelPercent | theaipeeps-buttplug_dev_do_not_use.js:637 | `intensityValue * 100` as stored in `lastSentValues`. `LevelSpec` proves it is 100 times `LevelValue`. |
| ActuatorSync.FindLevel | theaipeeps-buttplug_dev_do_not_use.js:603-614 | The level of the first table entry, in order, with a phrase in the message (case-insensitive), or none. |
| ActuatorSync.Contains | theaipeeps-buttplug_dev_do_not_use.js:608 | `s.includes(p)`: p occurs somewhere in s. `FindLevelSpec` is stated through it. |
| ActuatorSync.Mentions | theaipeeps-buttplug_dev_do_not_use.js:607-612 | Some phrase of a table entry occurs in the lowercased message, lowercased itself. `FindLevelSpec` proves the level found is that of the first entry for which this holds. |
| ActuatorSync.FindLevelSpec | theaipeeps-buttplug_dev_do_not_use.js:603-614 | No level is found iff no entry has a phrase occurring case-insensitively in the message. Otherwise the first such entry in table order gives the level. |
| ActuatorSync.SelectMessage | theaipeeps-buttplug_dev_do_not_use.js:570-594 | The last message only: no message, the number message if it has a digit, else the phrase message. |
| ActuatorSync.SelectMessageSpec | theaipeeps-buttplug_dev_do_not_use.js:570-594 | Only the last message counts. It is the number message iff it has a digit, and the phrase message otherwise. Earlier messages never matter. |
| ActuatorSync.NumberStep | theaipeeps-buttplug_dev_do_not_use.js:705-742 | One row on the number path. A new value is recorded and becomes `v/100`. A repeat starts a timer on the current intensity (slider above 0, none running) or stops it (slider 0). An out-of-range row is kept. |
| ActuatorSync.PhraseStep | theaipeeps-buttplug_dev_do_not_use.js:634-663 | One row on the phrase path: the level's value as intensity and 100 times it as last value, with the timer rule of the number path on the level's value. |
| ActuatorSync.StepsKeepSane | theaipeeps-buttplug_dev_do_not_use.js:634-737 | With numbers in 0..100, both per-row steps keep the intensity in [0, 1] and give a running timer a base in [0, 1]. |
| ActuatorSync.Tick | theaipeeps-buttplug_dev_do_not_use.js:556-742 | A tick before its flush: aborted, or the new row states of the number path, the phrase path, or unchanged. `TickAbortedSpec`, `TickKeepsSane` and `TickSeesLastOnly` state its properties. |
| ActuatorSync.TickKeepsSane | theaipeeps-buttplug_dev_do_not_use.js:600-742 | A tick that reaches the flush leaves every row sane. |
| ActuatorSync.TickAbortedSpec | theaipeeps-buttplug_dev_do_not_use.js:556-703 | A tick returns before the flush exactly in three cases: there is no message; the phrase system is off and the last message gives no number in 0..100; or the phrase system is on, the last message has a digit and the table has a phrase (the null `phraseMsg` throws). |
| ActuatorSync.TickSeesLastOnly | theaipeeps-buttplug_dev_do_not_use.js:572-594 | Messages before the last one never influence a tick. |
| ActuatorSync.NumberTickSpec | theaipeeps-buttplug_dev_do_not_use.js:705-742 | A row with a number records it. A new value becomes the intensity `v / 100` and leaves any timer alone. A repeated value keeps the intensity, and the row then oscillates iff its slider is above 0. A timer started now takes the current intensity as base. A running timer keeps its base. A row without a number is unchanged. |
| ActuatorSync.NumberTick | theaipeeps-buttplug_dev_do_not_use.js:705-742 | The number-path row loop: `NumberStep` applied to every row. `NumberTickSpec`, `NumberTickRepeated` and `Engine.NumberRows` state its properties. |
| ActuatorSync.NumberTickRepeated | theaipeeps-buttplug_dev_do_not_use.js:705-742 | A second tick on the same numbers changes no intensity and no last value. Rows with a number oscillate iff their slider is above 0. |
| ActuatorSync.PhraseTickSpec | theaipeeps-buttplug_dev_do_not_use.js:634-663 | Every row takes the level's value as intensity and 100 times it as last value, and oscillates iff its slider is above 0. A new timer is based on the level's value, and a running one keeps its base. |
| ActuatorSync.PhraseTick | theaipeeps-buttplug_dev_do_not_use.js:634-663 | The phrase-path row loop: `PhraseStep` applied to every row. `PhraseTickSpec` and `Engine.PhraseRows` state its properties. |
| ActuatorSync.OscLevel | theaipeeps-buttplug_dev_do_not_use.js:719-725 | The intensity a timer firing sets: `base + (osc/100) * base * s` clamped to [0, 1]. |
| ActuatorSync.OscAmplitude | theaipeeps-buttplug_dev_do_not_use.js:722 | `amplitude = (osc / 100) * oscillationBases[i]` (also :647). `OscLevelSpec` bounds the level by it. |
| ActuatorSync.OscLevelSpec | theaipeeps-buttplug_dev_do_not_use.js:719-725 | The oscillated intensity lies in [0, 1]. For a base in [0, 1] and a slider of at most 100 it stays within osc% of the base, and it equals the base where the sine is 0. |
| ActuatorSync.ClampUnitWithin | theaipeeps-buttplug_dev_do_not_use.js:724 | Clamping base+t to [0, 1] stays within a of the base when \|t\| ≤ a ≤ base ≤ 1. |
| ActuatorSync.Engine.constructor | theaipeeps-buttplug_dev_do_not_use.js:17-32 | The engine starts not mapping, with no rows and no calls. |
| ActuatorSync.Engine.SetConnected | theaipeeps-buttplug_dev_do_not_use.js:349-371 | `isConnected` takes the client's connection state. |
| ActuatorSync.Engine.Disconnect | theaipeeps-buttplug_dev_do_not_use.js:320-346 | While connected, a disconnect clears the flag, `mappingConfig`, every per-row array and the timers. While disconnected it changes nothing. It makes no call. |
| ActuatorSync.Engine.StartMapping | theaipeeps-buttplug_dev_do_not_use.js:769-810 | The rows are the settings. Every row has intensity 0, no last value, no base, no start and no timer. Mapping is on and no call is made. |
| ActuatorSync.Engine.SliderMoved | theaipeeps-buttplug_dev_do_not_use.js:473-483 | Moving a slider (or refreshing the devices) turns mapping off. The timers keep running. |
| ActuatorSync.Engine.BuildSpeeds | theaipeeps-buttplug_dev_do_not_use.js:515-520 | The `speeds` loop yields the reference speeds of the group. |
| ActuatorSync.Engine.SendCommandsForDevice | theaipeeps-buttplug_dev_do_not_use.js:499-552 | Appends exactly `DeviceSends(d, ...)`: nothing without `ScalarCmd`, otherwise one command per group in group order. |
| ActuatorSync.Engine.FlushDevices | theaipeeps-buttplug_dev_do_not_use.js:747-754 | Appends exactly `FlushSends`, one `sendCommandsForDevice` per distinct mapped index whose device is present. |
| ActuatorSync.Engine.StopDevice | theaipeeps-buttplug_dev_do_not_use.js:838-873 | Appends each actuator group's zero command for one device. |
| ActuatorSync.Engine.StopDevices | theaipeeps-buttplug_dev_do_not_use.js:834-879 | Appends exactly `StopsFor` over the distinct mapped indices. |
| ActuatorSync.Engine.StopMapping | theaipeeps-buttplug_dev_do_not_use.js:821-880 | Mapping turns off and every timer stops. Rows, intensities, values, bases and start times are kept. The calls are exactly the zero commands of `StopsFor`. |
| ActuatorSync.Engine.ClearTimers | theaipeeps-buttplug_dev_do_not_use.js:826-832 | Mapping turns off and every timer flag clears, while every row stays sane. |
| ActuatorSync.Engine.Fire | theaipeeps-buttplug_dev_do_not_use.js:719-730 | Given the sine's value in [-1, 1], a firing sets the row's intensity to the clamped oscillation level and keeps every row sane. The row's device, if present, is flushed with the new intensities. |
| ActuatorSync.Engine.SetIntensity | theaipeeps-buttplug_dev_do_not_use.js:724 | A firing writes one row's intensity, a level in [0, 1], and changes no other row. Every row stays sane. |
| ActuatorSync.Engine.CheckMessages | theaipeeps-buttplug_dev_do_not_use.js:556-756 | Nothing changes when disconnected or stopped, or when the tick aborts. Otherwise the row states are the tick's, and the calls are the flush of every mapped device on the new intensities. |
| ActuatorSync.Engine.UpdateRows | theaipeeps-buttplug_dev_do_not_use.js:556-742 | An aborted tick leaves every row as it was and reports no flush. Otherwise the rows become the tick's and the flush is reported. |
| ActuatorSync.Engine.NumberRows | theaipeeps-buttplug_dev_do_not_use.js:705-742 | The number-path row loop leaves exactly `NumberTick`, with every row sane. |
| ActuatorSync.Engine.PhraseRows | theaipeeps-buttplug_dev_do_not_use.js:634-663 | The phrase-path row loop leaves exactly `PhraseTick`, with every row sane. |

## Left out

- The UI is not modelled: the DOM panels, buttons, styling, the help and restore panels, and the "Last Read" display. The drop-down and slider values reach the model as the `settings` rows of `StartMapping`.
- Rebuilding a message's text from `.word.AI` spans, `textContent.trim()` and the `MutationObserver` are left out. The chat is an input sequence of already-trimmed strings.
- The websocket connection is observed through its outcome only. This covers `connectToIntiface`, `disconnectFromIntiface`, `checkConnectionStatus` and `startScanning`. `SetConnected` (and, in revision 0.1, `Disconnect`) models the flag and the cleared state.
- `setInterval` and `clearInterval` are modelled as explicit calls. Ticks are calls of `CheckMessages`, timer firings are calls of `Fire`, and a timer is a per-row flag. `Date.now()` is the parameter `now`.
- `Math.sin` is the parameter `s`, with -1 ≤ s ≤ 1. `roundTo3` only formats log lines and is left out. Intensities are exact reals, so floating-point rounding is not modelled.
- The device calls are asynchronous; the model logs them in program order. A rejected promise, a `catch` that swallows it, and the interleaving of the `async forEach` flushes in revision 0.1 are not modelled.
- Devices are referenced by position in a fixed inventory (revisions 1.1 and 1.3) or by `DeviceIndex` (0.1). Devices appearing or vanishing between operations are not modelled.
- The 1.3 cache `lastDeviceCommands` is keyed by the device object, modelled by the device's position.
- In revision 0.1, device objects are taken to have all four methods `vibrate`, `oscillate`, `rotate` and `linear`, as the client library's devices do.
- Fetching the phrase JSON (`loadIntensityPhrases`) is left out; the table is an input. Level names other than low, mid, high and orgasm leave `intensityValue` undefined in the script and are not modelled. The table's order stands for the object's key order.
- The JavaScript property-order corner cases of `actuatorGroups` are not modelled. Integer-like type names would enumerate first, and a type named like an `Object.prototype` member ("constructor") would find an existing value. Lower-casing is ASCII only.
- `updateCommandForDeviceActuator` is never called and is not modelled. `getNextMessageId` is a counter whose value only labels the fallback message, and is not modelled.
- ActuatorSync.DeviceSends: the fallback `ScalarCmd` branch is modelled as written, including its `speeds[idx]` read by actuator index. No correctness property is claimed for it beyond `FallbackReadsByActuatorIndex`.
- ActuatorSync.RowsFrom: a device without `ScalarCmd` makes `ScalarCmd[m].ActuatorType` throw during enumeration, so the panel stops at that device; the model cuts the rows there. The rows built before the throw are kept.
- ActuatorSync.Engine.StopDevice: a mapped device without `ScalarCmd` makes the stop's `ScalarCmd.length` throw inside its own `async` callback. The model makes no call for it.
- The stop methods of all three revisions model the cleared or nulled `oscillationTimers` array as every flag false.
- DeviceSync.Engine.StartMapping: requires the rows to address existing devices and motors (`RowsFit`), as the panel builds them. A hand-edited panel with an out-of-range device would make the script throw. An out-of-range motor would not throw: the write `speeds[mappingObj.motor] = …` (theaipeeps-buttplug_dev.js:601) would lengthen the device's vector. `RowsFit` rules out that case too.
- LegacySync.Engine.StartMapping and ActuatorSync.Engine.StartMapping require every mapping number to be at least 1, as the drop-downs only offer 1 and up.
- Revision 1.1 has no 0..100 filter, unlike 1.3 and 0.1; its numbers reach the rows unfiltered, up to 999.
- Revision 0.1 reads only the last message; 1.1 and 1.3 search back for the latest message with a digit.
- Revision 0.1 reads `phraseMsg.toLowerCase()` on a null `phraseMsg` when the phrase system is on and the last message has a digit. The model gives the resulting `TypeError` as an aborted tick: no state change and no flush. This happens exactly when the table holds at least one phrase.
