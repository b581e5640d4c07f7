# Connected-Sensor-Next, modelled in Dafny

Connected-Sensor-Next is the firmware of a Particle Boron cellular node.
Once an hour it wakes, measures a distance and the battery, queues a report
for a webhook, connects if its battery policy allows, waits for the
webhook's answer and goes back to sleep. This project models the node's
core in Dafny:

- **The duty-cycle controller** (`src/Connected-Sensor-Next.cpp`). The
  states are INITIALIZATION, ERROR, IDLE, SLEEPING, CONNECTING,
  DISCONNECTING, REPORTING and RESP_WAIT.
  - `Controller.Device` is a class whose fields are the program's globals
    and function-statics: `state`, `oldState`, `retainedOldState`,
    `connectionStartTimeStamp`, `webhookTimeStamp`, `resetTimer`,
    `dataInFlight`, `stayAwake` and `stayAwakeTimeStamp`.
  - Its `Setup` and `Loop` methods are `setup()` and one pass of `loop()`.
    Each is proved equal to a pure specification function: `Boot` and
    `Step` respectively.
  - Lemmas state what the firmware promises of those functions: the
    transitions of each state, the entry actions, the battery policy, the
    overrides and the reset.
- **The two persistent records** (`src/MyPersistentData.h/.cpp`).
  - `sysStatusData` holds the configuration. `currentStatusData` holds the
    latest measurements.
  - Each is a class over a `PersistentDataFile` that owns the record's
    bytes as an `array<byte>`. The 16-byte header comes first and the
    members sit at their C `offsetof` offsets (ARM EABI: `time_t` is 8
    bytes aligned to 8, little-endian).
  - Every getter and setter reads or writes those bytes. A ghost `view`
    holds what the getters return.
  - The model also covers `validate`, `initialize`, `resetEverything`,
    `setup` (load with a save delay) and `loop` (a debounced flush).
- **The command dispatcher and the radio teardown**
  (`src/Particle_Functions.cpp`).
  - `jsonFunctionParser` runs over a parsed list of `(var, fn)` items.
  - The `reset`, `status`, `send`, `stay`, `open`, `close` and `type`
    commands are modelled, with `strtol` as the C library defines it.
  - `sendEvent` and the two-phase `disconnectFromParticle` are modelled too.
- **The measurement pass** (`src/take_measurements.cpp`): its effect on the
  records. The sensor and battery readings are inputs.

Everything the device reads from outside becomes an input: the clock
(`Time.now()`, and `millis()` at each point of a pass), the cloud's
connection state, the modem, the wake reason and the button level. What it
asks of the outside becomes an effect of the pass: events to publish, radio
calls, a connect request, a sleep duration and a reset.

Files:

| file | contents |
|---|---|
| `Bytes.dfy` | little-endian and two's-complement encodings; C strings in fixed fields |
| `Layout.dfy` | C struct layout: alignment, `offsetof`, `sizeof` |
| `Access.dfy` | typed `getValue`/`setValue` over a byte image |
| `StorageHelper.dfy` | the persistent-file base class: header, dirty flag, save delay, flush |
| `SysStatus.dfy` | the configuration record |
| `CurrentStatus.dfy` | the measurement record, including its `lastAlertTime` getter |
| `Float32.dfy` | binary32 values and the comparisons the controller makes on them |
| `Measurements.dfy` | `takeMeasurements`, `batteryState`, `isItSafeToCharge` |
| `ParticleFunctions.dfy` | `strtol`, the command dispatcher, `sendEvent`, `disconnectFromParticle` |
| `Controller.dfy` | the state machine, `setup()`, `loop()`, the webhook handler, `isParkOpen`, `softDelay` |

Where the specification of the system and the code differ, the model
follows the code:

- **Validation.** `sysStatusData::validate` rejects a record whose opening
  hour is after 12, whose last connection time is negative, or whose last
  connection took more than 900 s. It does not check the reset count.
- **Sensor type.** The `type` command accepts 0, 1 and 2.
- **Battery policy.** The low-power schedule tests `<= 50` and `<= 65`.
  Between the bands, or on an even hour, the node connects rather than
  refusing. A NaN state of charge fails every comparison, so the node
  connects.
- **Opening hours.** `isParkOpen` is a closed interval: the close hour
  itself is open.
- **DISCONNECTING.** `loop()` has no case for DISCONNECTING, so a pass in
  that state (or in INITIALIZATION) changes nothing in the switch.
- **Sleeping.** SLEEPING tears the radio down on every pass in which the
  cloud is connected or the modem is not off, not only on entry.

At boot, the model runs the daily cleanup only on a new day. The firmware
as written runs it at every boot (see Findings). In neither form does a
new day force a connection.

## Model

| member | source | states |
|---|---|---|
| Bytes.DecodeEncodeLE | src/MyPersistentData.cpp:78-84 | a number stored little-endian in n bytes reads back unchanged |
| Bytes.EncodeDecodeLE | src/MyPersistentData.cpp:78-84 | re-encoding the value of any n bytes gives back the same bytes |
| Bytes.ToTwos | src/MyPersistentData.cpp:281-287 | a signed value's two's-complement pattern fits in n bytes and decodes back to the value |
| Bytes.TwosRoundTrip | src/MyPersistentData.cpp:281-287 | decoding then re-encoding a pattern gives back the same pattern |
| Bytes.CString | src/MyPersistentData.cpp:122-126 | the string read from a fixed field is its longest NUL-free prefix, stopped by a NUL |
| Bytes.StringField | src/MyPersistentData.cpp:128-130 | the bytes stored for a string fill the field exactly |
| Bytes.StringFieldRoundTrip | src/MyPersistentData.cpp:122-130 | a stored string reads back whole when it fits, cut to 38 characters when it does not |
| Bytes.CStringOfTerminated | src/MyPersistentData.cpp:122-126 | a string followed by a NUL reads back as itself |
| Layout.AlignUp | src/MyPersistentData.h:70-92 | a member's offset is rounded up to its alignment, by less than one alignment |
| Layout.MembersDisjoint | src/MyPersistentData.h:70-92 | each member ends before the next one starts |
| Layout.SizeCoversMember | src/MyPersistentData.h:70-92 | every member lies inside `sizeof` of the struct |
| Layout.AppendKeepsOffsets | src/MyPersistentData.h:74-76 | adding members at the end moves none of the existing ones |
| Layout.HeaderFirst | src/MyPersistentData.h:72-73 | the header is at offset 0 and every member follows it |
| Access.Encode | src/MyPersistentData.cpp:82-84 | `setValue<T>` writes exactly `sizeof(T)` bytes |
| Access.DecodeEncode | src/MyPersistentData.cpp:78-84 | `getValue<T>` after `setValue<T>` returns the value set, a string cut to its field |
| Access.DecodeZeros | src/MyPersistentData.cpp:60 | a zero-filled member reads as zero, false or the empty string |
| Access.SpliceFrame | src/MyPersistentData.cpp:82-84 | a write changes the bytes it writes and no others |
| Access.ReadAfterWrite | src/MyPersistentData.cpp:78-84 | reading a member just written returns the value written |
| Access.ReadAfterOtherWrite | src/MyPersistentData.cpp:78-186 | writing one member leaves every non-overlapping member's value as it was |
| StorageHelper.BaseValidOfHeader | src/MyPersistentData.cpp:42 | the library's validity check depends on the header alone |
| StorageHelper.BaseInitialized | src/MyPersistentData.cpp:60 | the library's initialize leaves a valid header and zeroes every member |
| StorageHelper.LoadKeepsPrefix | src/MyPersistentData.cpp:32 | loading a file keeps every member the file covers |
| StorageHelper.Elapsed | src/Connected-Sensor-Next.cpp:131 | `millis() - stamp` on unsigned 32-bit values, wrapping past 2^32 |
| StorageHelper.PersistentDataFile.constructor | src/MyPersistentData.cpp:21 | a new record object is zeroed, clean and has never been written |
| StorageHelper.PersistentDataFile.WithSaveDelayMs | src/MyPersistentData.cpp:31 | sets the save delay and nothing else |
| StorageHelper.PersistentDataFile.SetValue | src/MyPersistentData.cpp:82-84 | writes the bytes in place, marks the record dirty and restarts the save-delay timer |
| StorageHelper.PersistentDataFile.Save | src/MyPersistentData.cpp:38 | the file becomes the record image; one write; clean |
| StorageHelper.PersistentDataFile.Flush | src/MyPersistentData.cpp:37-39 | a dirty record is saved once the save delay has passed since the last change, and otherwise untouched |
| StorageHelper.PersistentDataFile.BaseInitialize | src/MyPersistentData.cpp:60 | the image becomes a valid header over zeroed members |
| StorageHelper.PersistentDataFile.Restore | src/MyPersistentData.cpp:32 | the image becomes the file's bytes, cut or zero-padded to the struct size, and is clean |
| SysStatus.MemberOffsets | src/MyPersistentData.h:70-92 | each member's `offsetof`: 16, 17, …, 61, 62, 64, 72, 80, 88, 90, 91 |
| SysStatus.StructSize | src/MyPersistentData.h:70-92 | `sizeof(SysData)` is 96 |
| SysStatus.LayoutIsCLayout | src/MyPersistentData.h:70-92 | the accessors' offsets and widths are the C layout's |
| SysStatus.HeaderComesFirst | src/MyPersistentData.h:72-73 | every member lies after the header and inside the struct |
| SysStatus.FieldsDisjoint | src/MyPersistentData.h:70-92 | distinct members do not overlap |
| SysStatus.ReadAfterSet | src/MyPersistentData.cpp:78-186 | after `set_f(v)`, `get_f()` returns v (a string cut to the field) and every other getter is unchanged |
| SysStatus.SetKeepsHeader | src/MyPersistentData.cpp:78-186 | no setter touches the header |
| SysStatus.WithChangesOnly | src/MyPersistentData.cpp:78-186 | updating one member of the view leaves the others |
| SysStatus.ViewMatchesGetters | src/MyPersistentData.cpp:78-186 | each member of the view is what its getter returns |
| SysStatus.ViewsEqual | src/MyPersistentData.h:70-92 | two views whose getters agree are equal |
| SysStatus.Validate | src/MyPersistentData.cpp:41-57 | `sysStatusData::validate`: the base check, then the opening hour, then the last connection and its duration, in the source's order; its meaning is stated by ValidateIff |
| SysStatus.Defaults | src/MyPersistentData.cpp:59-76 | the factory settings `initialize` installs, keeping every member it does not set; DefaultsValidIff, DefaultsIdempotent and InitializedValid state their properties |
| SysStatus.ValidateIff | src/MyPersistentData.cpp:41-57 | validate holds exactly when the header is valid and the opening hour is at most 12, the last connection time is not negative and the last connection took at most 900 s |
| SysStatus.DefaultTimeZone | src/MyPersistentData.cpp:71 | the default time zone "ANAT-12" is 7 NUL-free bytes |
| SysStatus.DefaultsValidIff | src/MyPersistentData.cpp:41-76 | the factory settings validate exactly when the one checked member they do not set, the last connection time, is not negative |
| SysStatus.DefaultsIdempotent | src/MyPersistentData.cpp:66-75 | applying the factory settings twice is the same as once |
| SysStatus.ReadZeroBody | src/MyPersistentData.cpp:60 | every getter of a zeroed record returns zero |
| SysStatus.ZeroViewFields | src/MyPersistentData.cpp:60 | the zeroed view has every member zero |
| SysStatus.PresentsIff | src/MyPersistentData.cpp:78-186 | an image presents a view exactly when the view is what the getters read from it |
| SysStatus.ZeroBodyPresents | src/MyPersistentData.cpp:60 | a zeroed image presents the zeroed view |
| SysStatus.PresentsAfterSet | src/MyPersistentData.cpp:78-186 | a setter changes the presented view in that member only |
| SysStatus.InitializedValid | src/MyPersistentData.cpp:41-76 | the record initialize leaves always passes validate's domain checks |
| SysStatus.SysStatusData.constructor | src/MyPersistentData.cpp:21 | a new record object is zeroed and clean |
| SysStatus.SysStatusData.Get | src/MyPersistentData.cpp:78-186 | each getter returns the view's member |
| SysStatus.SysStatusData.Set | src/MyPersistentData.cpp:78-186 | each setter changes that member of the view only, keeps the header, marks the record dirty and restarts the save-delay timer |
| SysStatus.SysStatusData.IsValid | src/MyPersistentData.cpp:41-57 | validate holds exactly when the header is valid and the view is in the domain |
| SysStatus.SysStatusData.Initialize | src/MyPersistentData.cpp:59-76 | initialize leaves the factory settings over a zeroed record with a valid header |
| SysStatus.SysStatusData.InstallModes | src/MyPersistentData.cpp:66-70 | the mode setters: version 1, verbose off, low battery off, solar on, low power off |
| SysStatus.SysStatusData.InstallSettings | src/MyPersistentData.cpp:71-75 | the setting setters: time zone "ANAT-12", sensor type 1, hours 0 to 24, duration 0 |
| SysStatus.SysStatusData.Setup | src/MyPersistentData.cpp:28-35 | save delay 100 ms; a stored file that validates is taken as is and not written; otherwise the record is initialized with a valid header and saved once; either way the result is in the domain and clean |
| SysStatus.SysStatusData.Loop | src/MyPersistentData.cpp:37-39 | `flush(false)` leaves the record unchanged and saves it when it is due |
| CurrentStatus.MemberOffsets | src/MyPersistentData.h:268-284 | each member's `offsetof`: 16, 24, 32, 36, 40, 48, 56, 60 |
| CurrentStatus.StructSize | src/MyPersistentData.h:268-284 | `sizeof(CurrentData)` is 64 |
| CurrentStatus.LayoutIsCLayout | src/MyPersistentData.h:268-284 | the accessors' offsets and widths are the C layout's |
| CurrentStatus.HeaderComesFirst | src/MyPersistentData.h:270-271 | every member lies after the header and inside the struct |
| CurrentStatus.FieldsDisjoint | src/MyPersistentData.h:268-284 | distinct members do not overlap |
| CurrentStatus.ReadAfterSet | src/MyPersistentData.cpp:249-309 | after `set_f(v)`, `get_f()` returns v and every other getter is unchanged (with `lastAlertTime` read as the `time_t` it is stored as) |
| CurrentStatus.SetKeepsHeader | src/MyPersistentData.cpp:249-309 | no setter touches the header |
| CurrentStatus.LastAlertTimeAsWrittenReadsLowByte | src/MyPersistentData.cpp:289-295 | the getter as written returns the stored time's low byte as a signed byte, which equals the time only for -128..127 |
| CurrentStatus.LastAlertTimeAsWrittenLosesTime | src/MyPersistentData.cpp:289-295 | a 2023 time (1700000000) stored reads back as 0 through the getter as written, and whole through the corrected one |
| CurrentStatus.WithChangesOnly | src/MyPersistentData.cpp:249-309 | updating one member of the view leaves the others |
| CurrentStatus.ViewMatchesGetters | src/MyPersistentData.cpp:249-309 | each member of the view is what its getter returns |
| CurrentStatus.ViewsEqual | src/MyPersistentData.h:268-284 | two views whose getters agree are equal |
| CurrentStatus.PresentsIff | src/MyPersistentData.cpp:249-309 | an image presents a view exactly when the view is what the getters read from it |
| CurrentStatus.PresentsAfterSet | src/MyPersistentData.cpp:249-309 | a setter changes the presented view in that member only |
| CurrentStatus.Validate | src/MyPersistentData.cpp:226-236 | `currentStatusData::validate`: the base check, then the distance; its meaning is stated by ValidateIff |
| CurrentStatus.ValidateIff | src/MyPersistentData.cpp:226-236 | validate holds exactly when the header is valid and the distance is at most 1024 cm |
| CurrentStatus.ZeroBodyPresents | src/MyPersistentData.cpp:239 | a zeroed image presents the zeroed view |
| CurrentStatus.CountRestarted | src/MyPersistentData.cpp:221-222 | resetEverything restarts the count at the given time and changes no other member of the record |
| CurrentStatus.Initialized | src/MyPersistentData.cpp:238-247 | initialize leaves a record in the domain, zero except the count time |
| CurrentStatus.CurrentStatusData.constructor | src/MyPersistentData.cpp:204 | a new record object is zeroed and clean |
| CurrentStatus.CurrentStatusData.Get | src/MyPersistentData.cpp:249-309 | each getter returns the view's member |
| CurrentStatus.CurrentStatusData.Set | src/MyPersistentData.cpp:249-309 | each setter changes that member of the view only, keeps the header and restarts the save-delay timer |
| CurrentStatus.CurrentStatusData.IsValid | src/MyPersistentData.cpp:226-236 | validate holds exactly when the header is valid and the view is in the domain |
| CurrentStatus.CurrentStatusData.ResetEverything | src/MyPersistentData.cpp:221-224 | the count time becomes now and the configuration's reset count 0; nothing else changes in either record |
| CurrentStatus.CurrentStatusData.Initialize | src/MyPersistentData.cpp:238-247 | a zeroed record with a valid header, the count restarted and the reset count cleared |
| CurrentStatus.CurrentStatusData.Setup | src/MyPersistentData.cpp:210-215 | save delay 250 ms; a stored file that validates is taken as is, not written, and the configuration untouched; otherwise the record is initialized with a valid header and saved once, which also clears the reset count |
| CurrentStatus.CurrentStatusData.Loop | src/MyPersistentData.cpp:217-219 | `flush(false)` leaves the record unchanged and saves it when it is due |
| Float32.Trichotomy | src/Connected-Sensor-Next.cpp:188-195 | a state of charge that is not NaN is either above a bound or at most it; a NaN is neither, and equals nothing |
| Float32.QuietNaN | src/MyPersistentData.h:282 | the float member can hold a NaN (pattern 0x7FC00000) |
| Measurements.MeasuredSys | src/take_measurements.cpp:9-13 | the pass sets low-power mode exactly when the battery is not OK, and changes nothing else in the configuration |
| Measurements.MeasuredCurrent | src/take_measurements.cpp:36-73 | the pass stores the charge, distance and temperatures; the battery state is the reading, or not charging when the stored temperature is outside 0..37 °C; other members are kept |
| Measurements.MeasuringKeepsLowPower | src/take_measurements.cpp:11 | a measurement never clears low-power mode |
| Measurements.NaNChargeMeansLowPower | src/take_measurements.cpp:56 | a NaN charge fails both tests of `batteryState`, so it sets low-power mode |
| Measurements.MeasuringTwice | src/take_measurements.cpp:9-47 | when the stored internal temperature and the new one agree on whether charging is safe, measuring the same readings twice is the same as once |
| Measurements.StoreBatteryState | src/take_measurements.cpp:50-58 | stores the battery state and charge; returns true exactly when the charge is above 60 or is -1 |
| Measurements.CheckCharging | src/take_measurements.cpp:61-73 | safe exactly when the internal temperature is within 0..37 °C; when not safe, the battery state becomes not charging |
| Measurements.TakeMeasurements | src/take_measurements.cpp:9-47 | the records become `MeasuredSys` and `MeasuredCurrent` of the readings |
| ParticleFunctions.SpaceRun | src/Particle_Functions.cpp:144 | strtol skips exactly the leading white space |
| ParticleFunctions.DigitRun | src/Particle_Functions.cpp:144 | strtol reads exactly the leading digits |
| ParticleFunctions.Positive | src/Particle_Functions.cpp:144 | a magnitude up to LONG_MAX is kept and one above it becomes LONG_MAX |
| ParticleFunctions.Negative | src/Particle_Functions.cpp:144 | a magnitude up to -LONG_MIN is negated and one above it becomes LONG_MIN |
| ParticleFunctions.Strtol | src/Particle_Functions.cpp:144 | the result is always a long |
| ParticleFunctions.DecimalValue | src/Particle_Functions.cpp:144 | the digits of n denote n |
| ParticleFunctions.StrtolDecimal | src/Particle_Functions.cpp:144 | strtol reads back any long written in decimal, whatever non-digit text follows |
| ParticleFunctions.StrtolSignedDecimal | src/Particle_Functions.cpp:144 | the same with a `+` or `-` sign in front |
| ParticleFunctions.StrtolNoNumber | src/Particle_Functions.cpp:144 | text that starts with no space, sign or digit (a word, or nothing) reads as 0 |
| ParticleFunctions.AsUnsigned | src/Particle_Functions.cpp:209-210 | `Time.now()` stored in an `unsigned long` keeps a non-negative time and is congruent to it modulo 2^32 |
| ParticleFunctions.SendEvent | src/Particle_Functions.cpp:207-216 | the report carries the alert code as it was; then the alert code becomes 0 and nothing else changes |
| ParticleFunctions.ResetEverything | src/MyPersistentData.cpp:221-224 | the count time becomes now and the reset count 0, nothing else |
| ParticleFunctions.Reset | src/Particle_Functions.cpp:89-101 | the `reset` command: `all` re-initializes the configuration first, and every reset runs `resetEverything`; ResetAll states it |
| ParticleFunctions.Run | src/Particle_Functions.cpp:77-188 | the command loop over the items it is given, with the sticky success flag; RunSuccess, RejectedThenCarriedOn and RunKeepsHours state its properties |
| ParticleFunctions.Dispatch | src/Particle_Functions.cpp:51-197 | `jsonFunctionParser`: 0 on a parse failure or an empty list, else the loop over the first ten items; DispatchResult and AtMostTen state its properties, and JsonFunctionParser's loop is proved equal to it |
| ParticleFunctions.Command | src/Particle_Functions.cpp:86-188 | success stays true exactly when it was true and the command is accepted; a rejected command changes neither the records nor the events |
| ParticleFunctions.RunSuccess | src/Particle_Functions.cpp:59-196 | the final success is true exactly when it started true and every command was accepted |
| ParticleFunctions.DispatchResult | src/Particle_Functions.cpp:67-82 | a parse failure or an empty list returns 0 and changes nothing; the result is 1 exactly when the list is non-empty and each of its first ten commands is accepted |
| ParticleFunctions.AtMostTen | src/Particle_Functions.cpp:77 | commands after the tenth are ignored |
| ParticleFunctions.RejectedThenCarriedOn | src/Particle_Functions.cpp:185-188 | after a rejected command the next one still runs, and the result stays a failure |
| ParticleFunctions.CommandIgnoresSuccess | src/Particle_Functions.cpp:86-188 | what a command does does not depend on whether an earlier one failed |
| ParticleFunctions.RunKeepsHours | src/Particle_Functions.cpp:141-167 | any command list keeps the opening hour at most 12 and the closing hour within 13..24, and keeps the record in validate's domain |
| ParticleFunctions.CommandKeepsHours | src/Particle_Functions.cpp:141-167 | one command keeps the same |
| ParticleFunctions.OpenRange | src/Particle_Functions.cpp:141-153 | `open` sets the opening hour when strtol of the value is 0..12, and otherwise only fails |
| ParticleFunctions.CloseRange | src/Particle_Functions.cpp:155-167 | `close` sets the closing hour when the value is 13..24, and otherwise only fails |
| ParticleFunctions.TypeRange | src/Particle_Functions.cpp:170-182 | `type` sets the sensor type when the value is 0..2, and otherwise only fails |
| ParticleFunctions.WordOpensAtMidnight | src/Particle_Functions.cpp:144-147 | a word such as "six" reads as 0, so `open` opens at midnight and `type` selects 0 |
| ParticleFunctions.StayRange | src/Particle_Functions.cpp:127-138 | `stay` clears low-power mode exactly for "true", sets it for anything else, and changes nothing more |
| ParticleFunctions.ResetAll | src/Particle_Functions.cpp:89-100 | `reset all` re-initializes the configuration and restarts the count; `reset current` restarts the count and clears the reset count, like resetEverything; resetting twice is the same as once |
| ParticleFunctions.SendReportsAlertOnce | src/Particle_Functions.cpp:119-124 | `send` appends one report carrying the alert code, then clears the alert code |
| ParticleFunctions.ResetCommand | src/Particle_Functions.cpp:89-100 | the records become those `Reset` describes |
| ParticleFunctions.MeasureCommand | src/Particle_Functions.cpp:103-124 | `status` measures; `send` also publishes one report and clears the alert code |
| ParticleFunctions.StayCommand | src/Particle_Functions.cpp:127-138 | stores the low-power mode `stay` asks for |
| ParticleFunctions.OpenCommand | src/Particle_Functions.cpp:141-153 | stores the opening hour exactly when accepted, and otherwise leaves the file untouched |
| ParticleFunctions.CloseCommand | src/Particle_Functions.cpp:155-167 | stores the closing hour exactly when accepted, and otherwise leaves the file untouched |
| ParticleFunctions.TypeCommand | src/Particle_Functions.cpp:170-182 | stores the sensor type exactly when accepted, and otherwise leaves the file untouched |
| ParticleFunctions.Execute | src/Particle_Functions.cpp:86-188 | one loop iteration changes the records, success and events as `Command` says |
| ParticleFunctions.RunStep | src/Particle_Functions.cpp:77-195 | running i+1 commands is running i and then the next |
| ParticleFunctions.JsonFunctionParser | src/Particle_Functions.cpp:51-197 | the loop over at most ten items leaves the records, the events and the result that `Dispatch` gives |
| ParticleFunctions.Teardown | src/Particle_Functions.cpp:219-245 | the cloud is always disconnected first; the cellular phase runs exactly when the cloud disconnect was confirmed; the result is true exactly when both phases confirm |
| ParticleFunctions.DisconnectFromParticle | src/Particle_Functions.cpp:219-245 | the calls made and the result are those of `Teardown` |
| Controller.Time32 | src/Connected-Sensor-Next.cpp:132 | a `time_t` passed as a 32-bit time keeps its value when it fits, and is congruent modulo 2^32 otherwise |
| Controller.HourOf | src/Connected-Sensor-Next.cpp:132 | `Time.hour` is an hour of the day, 0..23 |
| Controller.CRem | src/Connected-Sensor-Next.cpp:144 | C's `%` truncates: the Euclidean remainder for a non-negative time, and a remainder in (-b, 0] for a negative one |
| Controller.WakeInSeconds | src/Connected-Sensor-Next.cpp:144 | the sleep length: the seconds to the next hour boundary, by C's truncating remainder and constrained to 1..3600, plus one; WakeOnTheHour states its range and end |
| Controller.IsParkOpen | src/Connected-Sensor-Next.cpp:324-327 | `isParkOpen` over the stored hours; ParkHours states it |
| Controller.Admit | src/Connected-Sensor-Next.cpp:173-200 | REPORTING's connection decision; AdmitTargets, ButtonForcesConnection, LowBatteryStaysIdle and LowPowerSchedule state its properties |
| Controller.IdleStep | src/Connected-Sensor-Next.cpp:129-133 | the IDLE case; IdleTransitions states it |
| Controller.SleepingStep | src/Connected-Sensor-Next.cpp:135-165 | the SLEEPING case; SleepNeedsRadioOff and WakeTransitions state it |
| Controller.ReportingStep | src/Connected-Sensor-Next.cpp:167-201 | the REPORTING case; ReportingQueuesOneReport, ReportingTransitions and CleanupAtOpening state it |
| Controller.Decided | src/Connected-Sensor-Next.cpp:173-200 | the state REPORTING moves to on the measured records; ReportingTransitions states it |
| Controller.RespWaitStep | src/Connected-Sensor-Next.cpp:203-221 | the RESP_WAIT case; RespWaitEntry and RespWaitTransitions state it |
| Controller.ConnectingStep | src/Connected-Sensor-Next.cpp:223-252 | the CONNECTING case; ConnectingTransitions and ConnectingStartsAtZero state it |
| Controller.Connection | src/Connected-Sensor-Next.cpp:236-251 | the per-pass CONNECTING body; ConnectingTransitions and DurationWraps state it |
| Controller.ErrorStep | src/Connected-Sensor-Next.cpp:254-262 | the ERROR case; ResetOnlyFromError states it |
| Controller.Switch | src/Connected-Sensor-Next.cpp:128-263 | the `switch` of `loop()` over the states, with no case for DISCONNECTING or INITIALIZATION; EntryActionsOnce states its entry bookkeeping |
| Controller.Step | src/Connected-Sensor-Next.cpp:127-283 | one pass of `loop()`: the switch, then the user switch and out-of-memory overrides; EntryAfterChange, Overrides and ResetOnlyFromError state it |
| Controller.NewDayAsWritten | src/Connected-Sensor-Next.cpp:105 | the new-day test as written; NewDayAsWrittenAlwaysTrue shows it always holds |
| Controller.NewDay | src/Connected-Sensor-Next.cpp:105 | the corrected new-day test; NewDaySameDay states it |
| Controller.Defaulted | src/Connected-Sensor-Next.cpp:97-103 | the records after `setup()`'s measurement and the button's factory reset; BootOutcome states it |
| Controller.DayChecked | src/Connected-Sensor-Next.cpp:105-108 | the records after the new-day check; BootDailyCleanup states it |
| Controller.Boot | src/Connected-Sensor-Next.cpp:97-122 | `setup()` from the loaded records; BootOutcome and BootDailyCleanup state its properties |
| Controller.WakeOnTheHour | src/Connected-Sensor-Next.cpp:144 | the sleep lasts 2 to 3601 s and ends one second past the next hour boundary (3601 s before 1970) |
| Controller.ParkHours | src/Connected-Sensor-Next.cpp:324-327 | the park is open exactly when the opening hour <= hour <= closing hour; the factory hours (0 to 24) are always open |
| Controller.AdmitTargets | src/Connected-Sensor-Next.cpp:173-200 | REPORTING goes to RESP_WAIT, IDLE or CONNECTING, and to RESP_WAIT exactly when connected |
| Controller.ButtonForcesConnection | src/Connected-Sensor-Next.cpp:182-187 | with the button held down, REPORTING never falls back to IDLE |
| Controller.LowBatteryStaysIdle | src/Connected-Sensor-Next.cpp:182-185 | disconnected in low-battery mode without the button, REPORTING goes to IDLE |
| Controller.LowPowerSchedule | src/Connected-Sensor-Next.cpp:187-199 | in low-power mode the node connects exactly when the charge is above 65, or at most 65 but above 50 on an even hour, or at most 50 on every fourth hour; a NaN charge always connects |
| Controller.DurationOf | src/Connected-Sensor-Next.cpp:236 | the connection duration is the elapsed whole seconds when they fit in 16 bits, and congruent to them modulo 65536 always |
| Controller.SoftDelay | src/Connected-Sensor-Next.cpp:372-374 | the polling stops at the first `millis()` reading at least t ms after the start |
| Controller.EntryActionsOnce | src/Connected-Sensor-Next.cpp:290-300 | every handled state records itself as the old state, so its entry actions run only on the first pass after a change |
| Controller.EntryAfterChange | src/Connected-Sensor-Next.cpp:127-283 | after a pass, the state differs from the old state exactly when the pass changed the state, so the next pass runs the entry actions exactly then |
| Controller.Overrides | src/Connected-Sensor-Next.cpp:273-282 | after the switch, the user switch forces REPORTING, and otherwise an out-of-memory report forces ERROR; a reset ends the pass |
| Controller.ResetOnlyFromError | src/Connected-Sensor-Next.cpp:254-262 | the device resets exactly in ERROR, more than 30 s after the reset timer started |
| Controller.IdleTransitions | src/Connected-Sensor-Next.cpp:129-133 | IDLE goes to REPORTING exactly when the hour differs from the last report's; otherwise to SLEEPING exactly in low-power mode after the stay-awake time; records untouched |
| Controller.SleepNeedsRadioOff | src/Connected-Sensor-Next.cpp:135-143 | the node sleeps only when the radio is already off or the teardown succeeds; a failed teardown goes to ERROR without sleeping |
| Controller.WakeTransitions | src/Connected-Sensor-Next.cpp:144-164 | a button wake clears low-power mode, restarts the 90 s stay-awake and goes to REPORTING; a timer wake goes to IDLE with the records unchanged |
| Controller.ReportingQueuesOneReport | src/Connected-Sensor-Next.cpp:169-172 | REPORTING stamps the report time and queues one report carrying the alert code, then clears the alert code |
| Controller.ReportingTransitions | src/Connected-Sensor-Next.cpp:167-201 | REPORTING's next state is the battery policy's decision on the freshly measured records, RESP_WAIT exactly when connected |
| Controller.CleanupAtOpening | src/Connected-Sensor-Next.cpp:171 | at the opening hour the daily cleanup clears the reset count and verbose mode and restarts the count; at any other hour they are kept |
| Controller.RespWaitEntry | src/Connected-Sensor-Next.cpp:205-209 | entering RESP_WAIT marks data in flight and stamps the webhook timer |
| Controller.RespWaitTransitions | src/Connected-Sensor-Next.cpp:211-220 | an answered webhook goes to IDLE with a fresh stay-awake; an unanswered one goes to ERROR exactly after 30 s |
| Controller.ConnectingTransitions | src/Connected-Sensor-Next.cpp:223-252 | the connect request is made on entry only; once connected, the node goes to RESP_WAIT if it came from REPORTING, otherwise to IDLE; not connected, it goes to ERROR exactly past 600 s and otherwise stays |
| Controller.ConnectingStartsAtZero | src/Connected-Sensor-Next.cpp:228-236 | the first CONNECTING pass records a duration of 0 |
| Controller.DurationWraps | src/Connected-Sensor-Next.cpp:236 | a connection of 65536 s records a duration of 0 |
| Controller.EpochDays | src/Connected-Sensor-Next.cpp:105 | `Time.day` of times 0 and 1 is 1, and of 86400 is 2 |
| Controller.NewDayAsWrittenAlwaysTrue | src/Connected-Sensor-Next.cpp:105 | the new-day test as written holds at every boot |
| Controller.NewDaySameDay | src/Connected-Sensor-Next.cpp:105-108 | the corrected test is false on the day of the last connection (where the test as written holds) and true the day after |
| Controller.BootOutcome | src/Connected-Sensor-Next.cpp:97-122 | setup ends in CONNECTING exactly when the button is held or the time is invalid, and in SLEEPING otherwise; the button restores the factory settings |
| Controller.BootDailyCleanup | src/Connected-Sensor-Next.cpp:105-108 | at boot the daily cleanup runs exactly on a new day and otherwise changes nothing |
| Controller.HookResponses | src/Connected-Sensor-Next.cpp:330-343 | a webhook response is accepted exactly when its number is 200 or 201; an empty one is not |
| Controller.Device.constructor | src/Connected-Sensor-Next.cpp:45-67 | the globals start in INITIALIZATION with no timers set |
| Controller.Device.DailyCleanup | src/Connected-Sensor-Next.cpp:356-364 | verbose mode off, the count restarted, the reset count cleared |
| Controller.Device.Load | src/Connected-Sensor-Next.cpp:87-88 | both records are loaded, or initialized when they do not validate, with their save delays |
| Controller.Device.Prepare | src/Connected-Sensor-Next.cpp:97-103 | measure, and restore the factory settings if the button is held |
| Controller.Device.CheckDay | src/Connected-Sensor-Next.cpp:105-108 | the daily cleanup on a new day |
| Controller.Device.Start | src/Connected-Sensor-Next.cpp:97-122 | the state and the records become those of `Boot` |
| Controller.Device.Setup | src/Connected-Sensor-Next.cpp:69-125 | `setup()`: load, then `Boot`; only the state of the globals changes |
| Controller.Device.IdleCase | src/Connected-Sensor-Next.cpp:129-133 | the IDLE case as `IdleStep` |
| Controller.Device.SleepingCase | src/Connected-Sensor-Next.cpp:135-165 | the SLEEPING case as `SleepingStep` |
| Controller.Device.Report | src/Connected-Sensor-Next.cpp:169-172 | stamp, measure, clean up at the opening hour, and send |
| Controller.Device.ReportingCase | src/Connected-Sensor-Next.cpp:167-201 | the REPORTING case as `ReportingStep` |
| Controller.Device.Decide | src/Connected-Sensor-Next.cpp:173-200 | the connection decision as `Decided` |
| Controller.Device.RespWaitCase | src/Connected-Sensor-Next.cpp:203-221 | the RESP_WAIT case as `RespWaitStep` |
| Controller.Device.StartConnecting | src/Connected-Sensor-Next.cpp:228-234 | the entry to CONNECTING: the old state is retained, the duration is zeroed and the start is stamped |
| Controller.Device.ConnectingCase | src/Connected-Sensor-Next.cpp:223-252 | the CONNECTING case as `ConnectingStep` |
| Controller.Device.Track | src/Connected-Sensor-Next.cpp:236-251 | the per-pass CONNECTING body as `Connection` |
| Controller.Device.ErrorCase | src/Connected-Sensor-Next.cpp:254-262 | the ERROR case as `ErrorStep` |
| Controller.Device.RunSwitch | src/Connected-Sensor-Next.cpp:128-263 | the switch as `Switch`, touching each record only when the case writes it |
| Controller.Device.Loop | src/Connected-Sensor-Next.cpp:127-283 | one pass of `loop()` as `Step`, with each record flushed once its save delay has passed since its last change |
| Controller.HookAccepted | src/Connected-Sensor-Next.cpp:330-343 | the webhook handler's acceptance test; HookResponses states it |
| Controller.Device.OnHookResponse | src/Connected-Sensor-Next.cpp:330-348 | an accepted response clears data in flight and stamps the hook response time; any other response changes nothing |
| Controller.Device.IsOpenAt | src/Connected-Sensor-Next.cpp:324-327 | open exactly when the opening hour <= hour <= closing hour |

## Findings

| source | as written | input that shows it | evidently intended | confidence | as-written member | corrected member |
|---|---|---|---|---|---|---|
| src/MyPersistentData.cpp:289-291 | `get_lastAlertTime` reads an `int8_t` at the offset of the `time_t` member | store 1700000000 with `set_lastAlertTime`; the getter returns 0 (the low byte) | read the `time_t` that the setter stores | high, not executed | CurrentStatus.LastAlertTimeAsWrittenLosesTime | CurrentStatus.ReadAfterSet |
| src/Connected-Sensor-Next.cpp:105 | `Time.day(sysStatus.get_lastConnection() != Time.day())` passes the comparison's 0 or 1 to `Time.day`, which returns 1 | any boot, including one on the day of the last connection | compare the day of the last connection with today | high, not executed | Controller.NewDayAsWrittenAlwaysTrue | Controller.NewDaySameDay |

The model uses the corrected forms. The `lastAlertTime` member of the
record's view is the stored `time_t`. The boot runs the daily cleanup only
when `NewDay` holds.

## Left out

- Controller.Boot: runs the daily cleanup only on a new day (`NewDay`). The firmware as written runs it at every boot; see Findings.
- CurrentStatus.CurrentStatusData.Get: reads `lastAlertTime` as the `time_t` the setter stores. The firmware as written reads the sign-extended low byte; see Findings.
- CurrentStatus.ReadAfterSet: states the round trip of `lastAlertTime` for the corrected read. The firmware as written loses all but the low byte; see Findings.
- `StorageHelperRK` is not part of this model. Its header hash is an input: a boolean passed to validate.
  - Its base `initialize` is taken to write a valid header over zeroed members.
  - Its `flush` is taken to save a dirty record once the save delay has passed since the last change.
  - Its `load` is taken to save a record it had to initialize at once, and to leave a record that validates unwritten.
  - The file system is the stored byte sequence and a write counter.
- `updateHash` in `currentStatusData::initialize` is left out, because the hash is not modelled.
- `JsonParserGeneratorRK` is left out: a request is either a parse failure or the list of its `(var, fn)` items.
  - Each item is given as the two strings the parser yields for it. The firmware declares `variable` and `function` once, before the loop, so an item without one of the keys may see the previous item's string, unless the parser clears it; that behaviour belongs to the parser and is not modelled.
- The text of every log message, publish and `snprintf` is left out: the floats' formatting, `status`'s text, `publishStateTransition`'s text and the `messaging` buffer.
  - `sendEvent`'s payload is kept as its values only.
  - A publish made only when connected is not an effect of the model.
- PublishQueuePosix is not part of this model: a queued report is an effect of the pass.
- The AB1805 real-time clock and its watchdog are not part of this model.
- `getSignalStrength` is left out.
- `LocalTimeConvert` is left out, because its result is never used.
  - `Time.hour` and `Time.day` are taken in UTC, since the firmware never sets a time zone.
- The hardware is inputs:
  - `millis()` is a separate input at each point of a pass where it is read (`ms`, `msWake`, `msFlush`).
  - The button level, the wake pin and the cloud and modem state are inputs.
  - The analog readings and `System.batteryCharge()` are inputs.
- `Particle.process()` is left out, with the callbacks it runs during `softDelay` and the teardown's waits.
  - The webhook handler is modelled as its own operation (`OnHookResponse`).
- The bounded polls of `waitFor` and `waitForNot` are left out. Only the outcome of each phase of the teardown is an input.
- The interrupt handlers are left out: `userSwitchISR` and `outOfMemoryHandler` become per-pass inputs (`userSwitch`, `outOfMemory`). `userSwitch` is a flag the pass consumes.
  - `sensorISR` and `countSignalTimerISR` are not used by the core.
- The float arithmetic of the measurements is left out: distance, temperatures and the `sqrt` compensation are readings given as inputs. A float member is its 32-bit pattern.
- The empty `if` in `dailyCleanup` changes nothing and is left out.
- `Particle_Functions::setup`, `loop` and the `status` command's output are registrations and logging only, and are left out.
- Controller.Device.Setup: `softDelay(2000)` before loading takes no part. Its only effect is time passing, which the boot inputs' clock already reflects.
