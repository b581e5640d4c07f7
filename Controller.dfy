/** The duty-cycle controller: the state machine loop() runs once per pass,
    the boot sequence setup() runs once, and the webhook-response handler.
    Everything a pass reads from outside the records (the clocks, the cloud
    and modem status, the button, the sensors, the two interrupt flags)
    arrives as an `Inputs` value; what it does to the outside world (reports
    queued, radio calls, a connect request, a sleep, a reset) leaves as an
    `Effects` value. */
module Controller {
  import opened Bytes
  import opened Access
  import opened StorageHelper
  import SysStatus
  import opened CurrentStatus
  import opened Float32
  import opened Measurements
  import opened ParticleFunctions

  // ---------------------------------------------------------------------
  // Constants and clock arithmetic
  // ---------------------------------------------------------------------

  datatype State = Init | Error | Idle | Sleeping | Connecting | Disconnecting | Reporting | RespWait

  datatype Option<T> = None | Some(value: T)

  /** Seconds between reports. */
  const WAKE_BOUNDARY: int := 3600
  /** How long the device stays awake after a connection or a button wake (ms). */
  const STAY_AWAKE_LONG: u32 := 90000
  /** How long a report waits for its webhook response (ms). */
  const WEBHOOK_WAIT: u32 := 30000
  /** How long the error state waits before resetting the device (ms). */
  const RESET_WAIT: u32 := 30000
  /** Seconds of trying to connect before giving up. */
  const CONNECT_LIMIT: int := 600

  /** A time_t converted to the 32-bit time32_t the Time calls take. */
  function Time32(t: i64): (r: i32)
    ensures -0x8000_0000 <= t < 0x8000_0000 ==> r == t
    ensures (r - t) % 0x1_0000_0000 == 0
  {
    (t + 0x8000_0000) % 0x1_0000_0000 - 0x8000_0000
  }

  /** Time.hour(t): the hour of the day (the time zone is never set, so UTC). */
  function HourOf(t: i32): (h: int)
    ensures 0 <= h < 24
  {
    (t % 86400) / 3600
  }

  /** C's % on int, which truncates toward zero. */
  function CRem(a: int, b: int): (r: int)
    requires b > 0
    ensures a >= 0 ==> r == a % b
    ensures a < 0 ==> -b < r <= 0
  {
    if a >= 0 then a % b else -((-a) % b)
  }

  /** Arduino's constrain(x, lo, hi). */
  function Constrain(x: int, lo: int, hi: int): int
  {
    if x < lo then lo else if x > hi then hi else x
  }

  /** The sleep length before the next report, in seconds: up to the next
      hour boundary, plus one. */
  function WakeInSeconds(now: i32): int
  {
    Constrain(WAKE_BOUNDARY - CRem(now, WAKE_BOUNDARY), 1, WAKE_BOUNDARY) + 1
  }

  /** The device sleeps between 2 seconds and an hour and a second, and
      wakes one second past the next hour boundary. Before 1970 the
      truncating remainder is not above 0, and the sleep is the full hour
      and a second. */
  lemma WakeOnTheHour(now: i32)
    ensures 2 <= WakeInSeconds(now) <= WAKE_BOUNDARY + 1
    ensures now >= 0 ==> (now + WakeInSeconds(now) - 1) % WAKE_BOUNDARY == 0
    ensures now < 0 ==> WakeInSeconds(now) == WAKE_BOUNDARY + 1
  {
    if now >= 0 {
      var r := now % WAKE_BOUNDARY;
      assert now == (now / WAKE_BOUNDARY) * WAKE_BOUNDARY + r;
      assert now + WakeInSeconds(now) - 1 == (now / WAKE_BOUNDARY + 1) * WAKE_BOUNDARY;
    }
  }

  /** isParkOpen(): the hour is inside the closed interval from the
      opening hour to the closing hour. */
  predicate IsParkOpen(hour: int, openTime: int, closeTime: int)
  {
    !(hour < openTime || hour > closeTime)
  }

  /** The park is open at exactly the hours from openTime to closeTime,
      both included; with the factory hours 0 and 24 it is always open. */
  lemma ParkHours(hour: int, openTime: int, closeTime: int)
    ensures IsParkOpen(hour, openTime, closeTime) <==> openTime <= hour && hour <= closeTime
    ensures 0 <= hour < 24 ==> IsParkOpen(hour, SysStatus.Initialized().openTime, SysStatus.Initialized().closeTime)
  {
  }

  // ---------------------------------------------------------------------
  // The reporting decision
  // ---------------------------------------------------------------------

  /** Where REPORTING goes after queuing its report: straight to waiting
      for the response when already connected; back to IDLE in low-battery
      mode, or in low-power mode on the battery-dependent schedule, unless
      the button is held down (buttonHigh false); otherwise to CONNECTING.
      The charge is a float: a NaN charge compares false everywhere and
      falls through to CONNECTING. */
  function Admit(connected: bool, lowBattery: bool, lowPower: bool, buttonHigh: bool, soc: F32, hour: int): State
  {
    if connected then RespWait
    else if lowBattery && buttonHigh then Idle
    else if lowPower && buttonHigh then
      if Greater(soc, 65.0) then Connecting
      else if AtMost(soc, 50.0) && hour % 4 != 0 then Idle
      else if AtMost(soc, 65.0) && hour % 2 != 0 then Idle
      else Connecting
    else Connecting
  }

  /** Admit only ever chooses one of these three states. */
  lemma AdmitTargets(connected: bool, lowBattery: bool, lowPower: bool, buttonHigh: bool, soc: F32, hour: int)
    ensures Admit(connected, lowBattery, lowPower, buttonHigh, soc, hour) in {RespWait, Idle, Connecting}
    ensures Admit(connected, lowBattery, lowPower, buttonHigh, soc, hour) == RespWait <==> connected
  {
  }

  /** Holding the button down (buttonHigh false) always connects. */
  lemma ButtonForcesConnection(connected: bool, lowBattery: bool, lowPower: bool, soc: F32, hour: int)
    ensures Admit(connected, lowBattery, lowPower, false, soc, hour) != Idle
  {
  }

  /** In low-battery mode, unconnected and without the button, no report
      connects. */
  lemma LowBatteryStaysIdle(lowPower: bool, soc: F32, hour: int)
    ensures Admit(false, true, lowPower, true, soc, hour) == Idle
  {
  }

  /** The low-power schedule: above 65 % every hour, above 50 % up to 65 %
      every second hour, at 50 % or less every fourth hour; a NaN charge
      always connects. */
  lemma LowPowerSchedule(soc: F32, hour: int)
    ensures soc != NaN ==>
      (Admit(false, false, true, true, soc, hour) == Connecting <==>
         Greater(soc, 65.0) ||
         (Greater(soc, 50.0) && AtMost(soc, 65.0) && hour % 2 == 0) ||
         (AtMost(soc, 50.0) && hour % 4 == 0))
    ensures soc == NaN ==> Admit(false, false, true, true, soc, hour) == Connecting
  {
    if soc != NaN {
      Trichotomy(soc, 65.0);
      Trichotomy(soc, 50.0);
      if hour % 4 == 0 {
        EvenOfFour(hour);
      }
    }
  }

  lemma EvenOfFour(h: int)
    requires h % 4 == 0
    ensures h % 2 == 0
  {
    var q := h / 4;
    assert h == 2 * (2 * q);
  }

  // ---------------------------------------------------------------------
  // One pass of loop(), on values
  // ---------------------------------------------------------------------

  /** The controller's own variables: the state, the last state announced
      by publishStateTransition(), and the statics and globals the states
      keep between passes. resetTimer is None until the error state first
      runs (a function-local static is initialised then). */
  datatype Ctl = Ctl(
    state: State,
    oldState: State,
    retainedOldState: State,
    connectionStart: u32,
    webhookStamp: u32,
    resetTimer: Option<u32>,
    dataInFlight: bool,
    stayAwake: u32,
    stayAwakeStamp: u32)

  /** The variables before setup() runs: all zero, false and
      INITIALIZATION_STATE. */
  const START: Ctl := Ctl(Init, Init, Init, 0, 0, None, false, 0, 0)

  /** What one pass reads from outside the records: Time.now(), millis()
      during the pass, millis() on waking from sleep, millis() at the
      records' flush, Particle.connected(), Cellular.isOff(), how the
      teardown's waits end, whether the button woke the device, the button
      pin level, the sensors, the out-of-memory value and the user-switch
      flag the handlers set. */
  datatype Inputs = Inputs(
    now: i32,
    ms: u32,
    msWake: u32,
    msFlush: u32,
    connected: bool,
    cellularOff: bool,
    teardown: PhaseOutcomes,
    buttonWake: bool,
    buttonHigh: bool,
    readings: Readings,
    outOfMemory: int,
    userSwitch: bool)

  /** What one pass does outside the records: the reports it queues, the
      radio calls of the teardown, whether it asks the cloud to connect,
      how long it sleeps and whether it resets the device. */
  datatype Effects = Effects(
    events: seq<Event>,
    radio: seq<RadioCall>,
    connect: bool,
    sleep: Option<int>,
    reset: bool)

  const NO_EFFECTS: Effects := Effects([], [], false, None, false)

  /** The outcome of a pass: the variables, the records, the effects,
      whether a setter of each record ran, and millis() when they ran. */
  datatype Tick = Tick(ctl: Ctl, store: Store, fx: Effects, touchedSys: bool, touchedCur: bool, touchMs: u32)

  /** publishStateTransition(): the current state is now the announced one. */
  function Entered(c: Ctl): Ctl
  {
    c.(oldState := c.state)
  }

  /** IDLE: in low-power mode, go to sleep once the stay-awake time is up;
      report whenever the hour differs from the last report's. */
  function IdleStep(c: Ctl, s: Store, inp: Inputs): Tick
    requires c.state == Idle
  {
    var sleepy := s.sys.lowPowerMode && Elapsed(inp.ms, c.stayAwakeStamp) > c.stayAwake;
    var next :=
      if HourOf(inp.now) != HourOf(Time32(s.sys.lastReport)) then Reporting
      else if sleepy then Sleeping
      else Idle;
    Tick(Entered(c).(state := next), s, NO_EFFECTS, false, false, inp.ms)
  }

  /** SLEEPING: tear the connection down when it is up; if that fails, go
      to ERROR without sleeping. Otherwise sleep until the next hour; a
      button wake leaves low-power mode, stays awake and reports, a timer
      wake goes to IDLE. */
  function SleepingStep(c: Ctl, s: Store, inp: Inputs): Tick
    requires c.state == Sleeping
  {
    var c1 := Entered(c);
    var (ok, calls) := if inp.connected || !inp.cellularOff then Teardown(inp.teardown) else (true, []);
    if !ok then
      Tick(c1.(state := Error), s, NO_EFFECTS.(radio := calls), false, false, inp.ms)
    else
      var fx := NO_EFFECTS.(radio := calls, sleep := Some(WakeInSeconds(inp.now)));
      if inp.buttonWake then
        Tick(c1.(state := Reporting, stayAwake := STAY_AWAKE_LONG, stayAwakeStamp := inp.msWake),
             s.(sys := s.sys.(lowPowerMode := false)), fx, true, false, inp.msWake)
      else
        Tick(c1.(state := Idle), s, fx, false, false, inp.ms)
  }

  /** dailyCleanup(): verbose mode off, then resetEverything(). */
  function Cleaned(s: Store, now: i32): (r: Store)
  {
    ResetEverything(s.(sys := s.sys.(verboseMode := false)), now)
  }

  /** The records after REPORTING's setters: the report time, a
      measurement pass, the daily cleanup at the opening hour, and the
      alert code cleared by sendEvent(). */
  function ReportedStore(s: Store, inp: Inputs): Store
  {
    var s1 := Measured(s.(sys := s.sys.(lastReport := inp.now)), inp.readings);
    var s2 := if HourOf(inp.now) == s1.sys.openTime then Cleaned(s1, inp.now) else s1;
    s2.(cur := s2.cur.(alertCode := 0))
  }

  /** The report sendEvent() queues: the records before the alert code is
      cleared. */
  function ReportedEvent(s: Store, inp: Inputs): Event
  {
    var s1 := Measured(s.(sys := s.sys.(lastReport := inp.now)), inp.readings);
    var s2 := if HourOf(inp.now) == s1.sys.openTime then Cleaned(s1, inp.now) else s1;
    EventOf(s2, inp.now)
  }

  /** REPORTING: record the report time, measure, clean up at the opening
      hour, queue the report, then decide whether to connect. */
  function ReportingStep(c: Ctl, s: Store, inp: Inputs): Tick
    requires c.state == Reporting
  {
    var r := ReportedStore(s, inp);
    Tick(Decided(Entered(c), r, inp), r, NO_EFFECTS.(events := [ReportedEvent(s, inp)]), true, true, inp.ms)
  }

  /** The end of REPORTING, on the records after its setters: stay awake
      when connected, and go where the reporting decision says. */
  function Decided(c: Ctl, r: Store, inp: Inputs): Ctl
  {
    var next := Admit(inp.connected, r.sys.lowBatteryMode, r.sys.lowPowerMode, inp.buttonHigh,
                      FloatOf(r.cur.stateOfCharge), HourOf(inp.now));
    var c1 := if inp.connected then c.(stayAwake := STAY_AWAKE_LONG, stayAwakeStamp := inp.ms) else c;
    c1.(state := next)
  }

  /** RESP_WAIT: on entry start the webhook timer and mark the report in
      flight; once the response handler clears the flag, stay awake and go
      to IDLE; after the wait without one, go to ERROR. */
  function RespWaitStep(c: Ctl, s: Store, inp: Inputs): Tick
    requires c.state == RespWait
  {
    var c1 := if c.state != c.oldState then Entered(c.(webhookStamp := inp.ms, dataInFlight := true)) else c;
    var t :=
      if !c1.dataInFlight then c1.(stayAwake := STAY_AWAKE_LONG, stayAwakeStamp := inp.ms, state := Idle)
      else if Elapsed(inp.ms, c1.webhookStamp) > WEBHOOK_WAIT then c1.(state := Error)
      else c1;
    Tick(t, s, NO_EFFECTS, false, false, inp.ms)
  }

  /** The connection time set_lastConnectionDuration() stores: whole
      seconds since the connection started, cut to 16 bits. */
  function DurationOf(ms: u32, start: u32): (d: u16)
    ensures Elapsed(ms, start) < 65_536_000 ==> d as int == Elapsed(ms, start) / 1000
    ensures (Elapsed(ms, start) / 1000 - d) % 0x1_0000 == 0
  {
    (Elapsed(ms, start) / 1000) % 0x1_0000
  }

  /** CONNECTING: on entry remember where the device came from, start the
      timer and ask to connect; every pass store the time taken. Once
      connected, record the time and go on to RESP_WAIT when coming from
      REPORTING, to IDLE otherwise; after 600 seconds without, go to ERROR. */
  function ConnectingStep(c: Ctl, s: Store, inp: Inputs): Tick
    requires c.state == Connecting
  {
    var entering := c.state != c.oldState;
    var c1 := if entering then Entered(c.(retainedOldState := c.oldState, connectionStart := inp.ms)) else c;
    var t := Connection(c1, s, inp);
    t.(fx := t.fx.(connect := entering))
  }

  /** Every CONNECTING pass, after the entry actions. */
  function Connection(c: Ctl, s: Store, inp: Inputs): Tick
    requires c.state == Connecting
  {
    var d := DurationOf(inp.ms, c.connectionStart);
    var s1 := s.(sys := s.sys.(lastConnectionDuration := d));
    if inp.connected then
      var next := if c.retainedOldState == Reporting then RespWait else Idle;
      Tick(c.(stayAwake := STAY_AWAKE_LONG, stayAwakeStamp := inp.ms, state := next),
           s1.(sys := s1.sys.(lastConnection := inp.now)), NO_EFFECTS, true, false, inp.ms)
    else
      Tick(c.(state := if d > CONNECT_LIMIT then Error else Connecting), s1, NO_EFFECTS, true, false, inp.ms)
  }

  /** ERROR: the reset timer starts the first time the state runs; 30
      seconds later the device resets. */
  function ErrorStep(c: Ctl, s: Store, inp: Inputs): Tick
    requires c.state == Error
  {
    var timer := if c.resetTimer.Some? then c.resetTimer.value else inp.ms;
    Tick(Entered(c).(resetTimer := Some(timer)), s, NO_EFFECTS.(reset := Elapsed(inp.ms, timer) > RESET_WAIT),
         false, false, inp.ms)
  }

  /** The switch: INITIALIZATION and DISCONNECTING have no case and do
      nothing. */
  function Switch(c: Ctl, s: Store, inp: Inputs): Tick
  {
    match c.state
    case Idle => IdleStep(c, s, inp)
    case Sleeping => SleepingStep(c, s, inp)
    case Reporting => ReportingStep(c, s, inp)
    case RespWait => RespWaitStep(c, s, inp)
    case Connecting => ConnectingStep(c, s, inp)
    case Error => ErrorStep(c, s, inp)
    case Init => Tick(c, s, NO_EFFECTS, false, false, inp.ms)
    case Disconnecting => Tick(c, s, NO_EFFECTS, false, false, inp.ms)
  }

  /** A whole pass: the switch, then (unless the device reset) the
      housekeeping, an out-of-memory error sending the device to ERROR and
      the user switch sending it to REPORTING, the switch winning. */
  function Step(c: Ctl, s: Store, inp: Inputs): Tick
  {
    var t := Switch(c, s, inp);
    if t.fx.reset then t
    else
      var next := if inp.userSwitch then Reporting else if inp.outOfMemory >= 0 then Error else t.ctl.state;
      t.(ctl := t.ctl.(state := next))
  }

  /** The clock readings end a delay of t ms: some reading after the first
      is t ms or more past it. */
  predicate DelayEnds(clock: seq<u32>, t: u32)
  {
    exists i :: 1 <= i < |clock| && Elapsed(clock[i], clock[0]) >= t
  }

  /** softDelay(t): read millis() once to start, then poll it (running the
      cloud's callbacks, which are separate operations here) until t ms have
      passed. `clock` is the sequence of values millis() returns; the result
      is how many readings after the first the delay took. */
  method SoftDelay(clock: seq<u32>, t: u32) returns (i: nat)
    requires DelayEnds(clock, t)
    ensures 1 <= i < |clock| && Elapsed(clock[i], clock[0]) >= t
    ensures forall j :: 1 <= j < i ==> Elapsed(clock[j], clock[0]) < t
  {
    var start := clock[0];
    i := 1;
    while Elapsed(clock[i], start) < t
      invariant 1 <= i < |clock|
      invariant forall j :: 1 <= j < i ==> Elapsed(clock[j], start) < t
      invariant exists k :: i <= k < |clock| && Elapsed(clock[k], start) >= t
      decreases |clock| - i
    {
      i := i + 1;
    }
  }

  // ---------------------------------------------------------------------
  // Properties of a pass
  // ---------------------------------------------------------------------

  /** Every state with a case announces itself in its first pass: after a
      pass the announced state is the state the pass ran, so a state's entry
      actions run once per visit. */
  lemma EntryActionsOnce(c: Ctl, s: Store, inp: Inputs)
    requires c.state !in {Init, Disconnecting}
    ensures Switch(c, s, inp).ctl.oldState == c.state
  {
  }

  /** The next pass runs entry actions exactly when this pass changed the
      state. */
  lemma EntryAfterChange(c: Ctl, s: Store, inp: Inputs)
    requires c.state !in {Init, Disconnecting}
    ensures var t := Step(c, s, inp).ctl; t.state != t.oldState <==> t.state != c.state
  {
    EntryActionsOnce(c, s, inp);
  }

  /** Only the user switch leaves a pass in REPORTING over an out-of-memory
      error; otherwise the error always wins, and a reset ends the pass. */
  lemma Overrides(c: Ctl, s: Store, inp: Inputs)
    ensures !Switch(c, s, inp).fx.reset && inp.userSwitch ==> Step(c, s, inp).ctl.state == Reporting
    ensures !Switch(c, s, inp).fx.reset && !inp.userSwitch && inp.outOfMemory >= 0 ==> Step(c, s, inp).ctl.state == Error
    ensures Switch(c, s, inp).fx.reset ==> Step(c, s, inp) == Switch(c, s, inp)
  {
  }

  /** Only the error state resets the device, and only 30 seconds after it
      first ran. */
  lemma ResetOnlyFromError(c: Ctl, s: Store, inp: Inputs)
    ensures Step(c, s, inp).fx.reset <==>
      c.state == Error && c.resetTimer.Some? && Elapsed(inp.ms, c.resetTimer.value) > RESET_WAIT
  {
    if c.state == Error && c.resetTimer.None? {
      assert Elapsed(inp.ms, inp.ms) == 0;
    }
  }

  /** IDLE goes to sleep only in low-power mode and after the stay-awake
      time, and reports whenever the hour has changed since the last
      report. */
  lemma IdleTransitions(c: Ctl, s: Store, inp: Inputs)
    requires c.state == Idle
    ensures var t := Switch(c, s, inp);
      (t.ctl.state == Reporting <==> HourOf(inp.now) != HourOf(Time32(s.sys.lastReport))) &&
      (t.ctl.state == Sleeping <==>
         HourOf(inp.now) == HourOf(Time32(s.sys.lastReport)) && s.sys.lowPowerMode &&
         Elapsed(inp.ms, c.stayAwakeStamp) > c.stayAwake) &&
      t.store == s
  {
  }

  /** A failed teardown sends the device to ERROR without sleeping; a
      device only sleeps with the radio off or confirmed off. */
  lemma SleepNeedsRadioOff(c: Ctl, s: Store, inp: Inputs)
    requires c.state == Sleeping
    ensures var t := Switch(c, s, inp);
      (t.fx.sleep.Some? <==> !(inp.connected || !inp.cellularOff) || Teardown(inp.teardown).0) &&
      (t.fx.sleep.None? ==> t.ctl.state == Error && t.store == s)
  {
  }

  /** After a sleep, a button wake leaves low-power mode and reports; a
      timer wake goes to IDLE and changes no record. */
  lemma WakeTransitions(c: Ctl, s: Store, inp: Inputs)
    requires c.state == Sleeping
    requires Switch(c, s, inp).fx.sleep.Some?
    ensures var t := Switch(c, s, inp);
      2 <= t.fx.sleep.value <= WAKE_BOUNDARY + 1 &&
      (inp.buttonWake ==> (t.ctl.state == Reporting && !t.store.sys.lowPowerMode &&
                           t.ctl.stayAwake == STAY_AWAKE_LONG && t.ctl.stayAwakeStamp == inp.msWake)) &&
      (!inp.buttonWake ==> t.ctl.state == Idle && t.store == s)
  {
    WakeOnTheHour(inp.now);
  }

  /** A report is queued on every REPORTING pass, carrying the alert code
      the record held (after the measurement pass, which does not change it)
      and leaving the alert code 0, and the report time is the current
      time. */
  lemma ReportingQueuesOneReport(c: Ctl, s: Store, inp: Inputs)
    requires c.state == Reporting
    ensures var t := Switch(c, s, inp);
      |t.fx.events| == 1 && t.fx.events[0].alerts == s.cur.alertCode &&
      t.store.cur.alertCode == 0 && t.store.sys.lastReport == inp.now
  {
  }

  /** REPORTING goes to RESP_WAIT exactly when already connected, and
      otherwise to where the reporting decision says. */
  lemma ReportingTransitions(c: Ctl, s: Store, inp: Inputs)
    requires c.state == Reporting
    ensures var t := Switch(c, s, inp);
      (t.ctl.state == RespWait <==> inp.connected) &&
      t.ctl.state == Admit(inp.connected, s.sys.lowBatteryMode,
                           s.sys.lowPowerMode || !BatteryOk(inp.readings.charge), inp.buttonHigh,
                           FloatOf(inp.readings.charge), HourOf(inp.now))
  {
  }

  /** The opening hour's report resets the daily counts and turns verbose
      mode off; any other hour's report leaves them. */
  lemma CleanupAtOpening(c: Ctl, s: Store, inp: Inputs)
    requires c.state == Reporting
    ensures var t := Switch(c, s, inp);
      (HourOf(inp.now) == s.sys.openTime ==>
         t.store.sys.resetCount == 0 && !t.store.sys.verboseMode && t.store.cur.lastCountTime == inp.now) &&
      (HourOf(inp.now) != s.sys.openTime ==>
         t.store.sys.resetCount == s.sys.resetCount && t.store.sys.verboseMode == s.sys.verboseMode &&
         t.store.cur.lastCountTime == s.cur.lastCountTime)
  {
  }

  /** The first RESP_WAIT pass neither leaves nor times out: the report is
      marked in flight and the timer starts now. */
  lemma RespWaitEntry(c: Ctl, s: Store, inp: Inputs)
    requires c.state == RespWait && c.oldState != RespWait
    ensures var t := Switch(c, s, inp).ctl;
      t.state == RespWait && t.dataInFlight && t.webhookStamp == inp.ms
  {
    assert Elapsed(inp.ms, inp.ms) == 0;
  }

  /** Once the response handler has cleared the in-flight flag, the next
      RESP_WAIT pass goes to IDLE and stays awake; while it is set, the pass
      goes to ERROR exactly when the wait is over. */
  lemma RespWaitTransitions(c: Ctl, s: Store, inp: Inputs)
    requires c.state == RespWait && c.oldState == RespWait
    ensures var t := Switch(c, s, inp).ctl;
      (!c.dataInFlight ==> t.state == Idle && t.stayAwake == STAY_AWAKE_LONG && t.stayAwakeStamp == inp.ms) &&
      (c.dataInFlight ==> (t.state == Error <==> Elapsed(inp.ms, c.webhookStamp) > WEBHOOK_WAIT) &&
                          t.state != Idle)
  {
  }

  /** A connection goes on to RESP_WAIT when the visit came from REPORTING
      and to IDLE otherwise; an unconnected pass gives up after 600
      seconds. The first pass asks to connect, and only it. */
  lemma ConnectingTransitions(c: Ctl, s: Store, inp: Inputs)
    requires c.state == Connecting
    ensures var t := Switch(c, s, inp);
      var from := if c.oldState != Connecting then c.oldState else c.retainedOldState;
      (t.fx.connect <==> c.oldState != Connecting) &&
      (inp.connected ==> (t.ctl.state == (if from == Reporting then RespWait else Idle) &&
                          t.store.sys.lastConnection == inp.now)) &&
      (!inp.connected ==> (t.ctl.state == Error <==> t.store.sys.lastConnectionDuration > CONNECT_LIMIT)) &&
      (!inp.connected ==> t.ctl.state in {Error, Connecting}) &&
      t.store.sys.lastConnectionDuration == DurationOf(inp.ms, t.ctl.connectionStart)
  {
  }

  /** The first CONNECTING pass stores 0 as the connection time. */
  lemma ConnectingStartsAtZero(c: Ctl, s: Store, inp: Inputs)
    requires c.state == Connecting && c.oldState != Connecting
    ensures Switch(c, s, inp).store.sys.lastConnectionDuration == 0
  {
    assert Elapsed(inp.ms, inp.ms) == 0;
  }

  /** The connection time wraps at 65536 seconds: after 65 536 seconds
      (about 18 hours) of trying it reads 0 again, below the limit. */
  lemma DurationWraps(start: u32)
    requires start <= 0xFFFF_FFFF - 65_536_000
    ensures DurationOf(start + 65_536_000, start) == 0
  {
  }

  // ---------------------------------------------------------------------
  // Boot (setup())
  // ---------------------------------------------------------------------

  /** The day of the month of a day counted from 1 January 1970, by the
      civil-from-days conversion (March-based years, 400-year eras). */
  function CivilDayOfMonth(days: int): int
  {
    var z := days + 719468;
    var doe := z % 146097;
    var yoe := (doe - doe / 1460 + doe / 36524 - doe / 146096) / 365;
    var doy := doe - (365 * yoe + yoe / 4 - yoe / 100);
    var mp := (5 * doy + 2) / 153;
    doy - (153 * mp + 2) / 5 + 1
  }

  /** Time.day(t): the day of the month. */
  function DayOfMonth(t: i32): int
  {
    CivilDayOfMonth(t as int / 86400)
  }

  /** 1 January 1970 and the day after, step by step. */
  lemma EpochDays()
    ensures DayOfMonth(0) == 1 && DayOfMonth(1) == 1 && DayOfMonth(86400) == 2
  {
    assert 0 / 86400 == 0 && 1 / 86400 == 0 && 86400 / 86400 == 1;
    assert 719468 % 146097 == 135080 && 719469 % 146097 == 135081;
    assert 135080 / 1460 == 92 && 135080 / 36524 == 3 && 135080 / 146096 == 0;
    assert 135081 / 1460 == 92 && 135081 / 36524 == 3 && 135081 / 146096 == 0;
    assert 134991 / 365 == 369 && 134992 / 365 == 369;
    assert 369 / 4 == 92 && 369 / 100 == 3;
    assert 1532 / 153 == 10 && 1537 / 153 == 10 && 1532 / 5 == 306;
  }

  /** The new-day test at boot as written: the comparison sits inside
      Time.day(), which then gets 0 or 1 (a time on 1 January 1970) and
      returns 1. */
  predicate NewDayAsWritten(lastConnection: i64, now: i32)
  {
    var cmp: i32 := if lastConnection != DayOfMonth(now) then 1 else 0;
    DayOfMonth(cmp) != 0
  }

  /** The test as written is always true: the daily cleanup runs at every
      boot, even one a second after the last connection. */
  lemma NewDayAsWrittenAlwaysTrue(lastConnection: i64, now: i32)
    ensures NewDayAsWritten(lastConnection, now)
  {
    EpochDays();
    var cmp: i32 := if lastConnection != DayOfMonth(now) then 1 else 0;
    assert cmp == 0 || cmp == 1;
  }

  /** The evidently intended test: the last connection's day of the month
      differs from today's. */
  predicate NewDay(lastConnection: i64, now: i32)
  {
    DayOfMonth(Time32(lastConnection)) != DayOfMonth(now)
  }

  /** A boot on the same day as the last connection is not a new day,
      where the test as written says it is; a boot the day after is. */
  lemma NewDaySameDay(lastConnection: i64, now: i32)
    requires -0x8000_0000 <= lastConnection < 0x8000_0000
    requires lastConnection as int / 86400 == now as int / 86400
    ensures !NewDay(lastConnection, now) && NewDayAsWritten(lastConnection, now)
    ensures NewDay(0, 86400)
  {
    NewDayAsWrittenAlwaysTrue(lastConnection, now);
    EpochDays();
    assert Time32(lastConnection) as int == lastConnection as int;
  }

  /** What setup() reads besides the records: Time.now(), millis(), the
      sensors, the button pin level and Time.isValid(). */
  datatype BootInputs = BootInputs(now: i32, ms: u32, readings: Readings, buttonHigh: bool, timeValid: bool)

  /** The records after sysStatus.setup() and current.setup() load the
      files (a record that does not validate is initialized; an initialized
      current record also clears the reset count). */
  function LoadedStore(storedSys: seq<byte>, okSys: bool, storedCur: seq<byte>, okCur: bool, now: i32): Store
  {
    var sysImg := Loaded(storedSys, SysStatus.SIZE);
    var curImg := Loaded(storedCur, CurrentStatus.SIZE);
    var sys := if SysStatus.Validate(sysImg, okSys) then SysStatus.ViewOf(sysImg) else SysStatus.Initialized();
    if CurrentStatus.Validate(curImg, okCur) then Store(sys, ViewOf(curImg))
    else Store(sys.(resetCount := 0), CurrentStatus.Initialized(now))
  }

  /** The rest of setup(): measure; with the button held down, factory
      settings and connect; on a new day, the daily cleanup; with the time
      not yet valid, connect; otherwise sleep. */
  function Boot(s: Store, inp: BootInputs): (State, Store)
  {
    (if !inp.buttonHigh || !inp.timeValid then Connecting else Sleeping, DayChecked(Defaulted(s, inp), inp.now))
  }

  /** The daily cleanup when the last connection was on another day. */
  function DayChecked(s: Store, now: i32): Store
  {
    if NewDay(s.sys.lastConnection, now) then Cleaned(s, now) else s
  }

  /** The records after the measurement pass and, with the button held
      down, the factory settings. */
  function Defaulted(s: Store, inp: BootInputs): Store
  {
    var m := Measured(s, inp.readings);
    if !inp.buttonHigh then m.(sys := SysStatus.Initialized()) else m
  }

  /** setup() ends in CONNECTING when the button is held down or the time
      is not valid, and in SLEEPING otherwise; the button restores the
      factory settings, which take the device out of low-power mode. */
  lemma BootOutcome(s: Store, inp: BootInputs)
    ensures var (st, r) := Boot(s, inp);
      (st == Connecting <==> !inp.buttonHigh || !inp.timeValid) &&
      (st != Connecting ==> st == Sleeping) &&
      (!inp.buttonHigh ==> !r.sys.lowPowerMode && r.sys.openTime == 0 && r.sys.closeTime == 24) &&
      (inp.buttonHigh ==> r.sys.lowPowerMode == (s.sys.lowPowerMode || !BatteryOk(inp.readings.charge)))
  {
  }

  /** At boot the daily cleanup runs exactly when the last connection was
      on another day of the month: it clears the reset count and verbose
      mode and restarts the count time; otherwise the records are those of
      the measurement pass and the button check. */
  lemma BootDailyCleanup(s: Store, inp: BootInputs)
    ensures var d := Defaulted(s, inp); var r := Boot(s, inp).1;
      (NewDay(d.sys.lastConnection, inp.now) ==>
         r.sys.resetCount == 0 && !r.sys.verboseMode && r.cur.lastCountTime == inp.now &&
         r.sys.lastConnection == d.sys.lastConnection && r.cur.distance == d.cur.distance) &&
      (!NewDay(d.sys.lastConnection, inp.now) ==> r == d)
  {
  }

  // ---------------------------------------------------------------------
  // The response handler
  // ---------------------------------------------------------------------

  /** UbidotsHandler(): a non-empty response whose number (atoi) is 200 or
      201 is a success. */
  predicate HookAccepted(data: string)
  {
    |data| > 0 && (Strtol(data) == 200 || Strtol(data) == 201)
  }

  /** The responses "200" and "201", with any non-digit text after them,
      are successes; any other number, and an empty response, are not. */
  lemma HookResponses(n: nat, rest: string)
    requires n <= LONG_MAX
    requires |rest| == 0 || !IsDigit(rest[0])
    ensures HookAccepted(Decimal(n) + rest) <==> n == 200 || n == 201
    ensures !HookAccepted("")
  {
    StrtolDecimal(n, rest);
    DecimalValue(n);
  }

  // ---------------------------------------------------------------------
  // The controller on the record objects
  // ---------------------------------------------------------------------

  /** The controller's globals and statics, with the two record objects it
      drives. */
  class Device {
    const sys: SysStatus.SysStatusData
    const current: CurrentStatusData
    var state: State
    var oldState: State
    var retainedOldState: State
    var connectionStartTimeStamp: u32
    var webhookTimeStamp: u32
    var resetTimer: Option<u32>
    var dataInFlight: bool
    var stayAwake: u32
    var stayAwakeTimeStamp: u32

    ghost predicate Valid()
      reads this, sys, sys.file, sys.file.data, current, current.file, current.file.data
    {
      sys.Valid() && current.Valid() && Separate(sys, current)
    }

    function Vars(): Ctl
      reads this
    {
      Ctl(state, oldState, retainedOldState, connectionStartTimeStamp, webhookTimeStamp,
          resetTimer, dataInFlight, stayAwake, stayAwakeTimeStamp)
    }

    ghost function Records(): Store
      reads this, sys, current
    {
      Store(sys.view, current.view)
    }

    /** The program's globals before setup(), over the two records. */
    constructor (sys: SysStatus.SysStatusData, current: CurrentStatusData)
      ensures this.sys == sys && this.current == current && Vars() == START
    {
      this.sys := sys;
      this.current := current;
      state := Init;
      oldState := Init;
      retainedOldState := Init;
      connectionStartTimeStamp := 0;
      webhookTimeStamp := 0;
      resetTimer := None;
      dataInFlight := false;
      stayAwake := 0;
      stayAwakeTimeStamp := 0;
    }

    /** dailyCleanup() */
    method DailyCleanup(now: i32, ms: u32)
      requires Valid()
      modifies sys, sys.file, sys.file.data, current, current.file, current.file.data
      ensures Valid()
      ensures Records() == Cleaned(old(Records()), now)
      ensures Touched(sys.file, ms) && Touched(current.file, ms)
    {
      sys.Set(SysStatus.VerboseMode, Flag(false), ms);
      current.ResetEverything(sys, now, ms);
    }

    /** sysStatus.setup() and current.setup(). */
    method Load(storedSys: seq<byte>, okSys: bool, storedCur: seq<byte>, okCur: bool, now: i32, ms: u32)
      requires Valid()
      modifies sys, sys.file, sys.file.data, current, current.file, current.file.data
      ensures Valid()
      ensures sys.file.saveDelayMs == SysStatus.SAVE_DELAY_MS
      ensures current.file.saveDelayMs == CurrentStatus.SAVE_DELAY_MS
      ensures Records() == LoadedStore(storedSys, okSys, storedCur, okCur, now)
    {
      sys.Setup(storedSys, okSys, ms);
      current.Setup(storedCur, okCur, sys, now, ms);
    }

    /** setup()'s measurement pass and, with the button held down, the
        factory settings. */
    method Prepare(inp: BootInputs)
      requires Valid()
      modifies sys, sys.file, sys.file.data, current, current.file, current.file.data
      ensures Valid()
      ensures sys.file.saveDelayMs == old(sys.file.saveDelayMs)
      ensures current.file.saveDelayMs == old(current.file.saveDelayMs)
      ensures Records() == Defaulted(old(Records()), inp)
    {
      TakeMeasurements(sys, current, inp.readings, inp.ms);
      if !inp.buttonHigh {
        sys.Initialize(inp.ms);
      }
    }

    /** setup()'s new-day test and daily cleanup. */
    method CheckDay(now: i32, ms: u32)
      requires Valid()
      modifies sys, sys.file, sys.file.data, current, current.file, current.file.data
      ensures Valid()
      ensures sys.file.saveDelayMs == old(sys.file.saveDelayMs)
      ensures current.file.saveDelayMs == old(current.file.saveDelayMs)
      ensures Records() == DayChecked(old(Records()), now)
    {
      var last := sys.Get(SysStatus.LastConnection).n;
      if NewDay(last, now) {
        DailyCleanup(now, ms);
      }
    }

    /** setup() after the records are loaded. */
    method Start(inp: BootInputs)
      requires Valid() && state == Init
      modifies this, sys, sys.file, sys.file.data, current, current.file, current.file.data
      ensures Valid()
      ensures sys.file.saveDelayMs == old(sys.file.saveDelayMs)
      ensures current.file.saveDelayMs == old(current.file.saveDelayMs)
      ensures (state, Records()) == Boot(old(Records()), inp)
      ensures Vars() == old(Vars()).(state := state)
    {
      Prepare(inp);
      if !inp.buttonHigh {
        state := Connecting;
      }
      CheckDay(inp.now, inp.ms);
      if !inp.timeValid {
        state := Connecting;
      }
      if state == Init {
        state := Sleeping;
      }
    }

    /** setup(), from the point where the records are loaded. */
    method Setup(storedSys: seq<byte>, okSys: bool, storedCur: seq<byte>, okCur: bool, inp: BootInputs)
      requires Valid() && state == Init
      modifies this, sys, sys.file, sys.file.data, current, current.file, current.file.data
      ensures Valid()
      ensures sys.file.saveDelayMs == SysStatus.SAVE_DELAY_MS
      ensures current.file.saveDelayMs == CurrentStatus.SAVE_DELAY_MS
      ensures (state, Records()) == Boot(LoadedStore(storedSys, okSys, storedCur, okCur, inp.now), inp)
      ensures Vars() == old(Vars()).(state := state)
    {
      Load(storedSys, okSys, storedCur, okCur, inp.now, inp.ms);
      Start(inp);
    }

    method IdleCase(inp: Inputs) returns (fx: Effects)
      requires Valid() && state == Idle
      modifies this
      ensures var t := IdleStep(old(Vars()), old(Records()), inp);
        Vars() == t.ctl && fx == t.fx
    {
      oldState := state;
      if sys.Get(SysStatus.LowPowerMode).b && Elapsed(inp.ms, stayAwakeTimeStamp) > stayAwake {
        state := Sleeping;
      }
      if HourOf(inp.now) != HourOf(Time32(sys.Get(SysStatus.LastReport).n)) {
        state := Reporting;
      }
      fx := NO_EFFECTS;
    }

    method SleepingCase(inp: Inputs) returns (fx: Effects)
      requires Valid() && state == Sleeping
      modifies this, sys, sys.file, sys.file.data
      ensures Valid()
      ensures var t := SleepingStep(old(Vars()), old(Records()), inp);
        Vars() == t.ctl && Records() == t.store && fx == t.fx && Stamped(sys.file, t.touchedSys, t.touchMs)
    {
      oldState := state;
      fx := NO_EFFECTS;
      if inp.connected || !inp.cellularOff {
        var ok, calls := DisconnectFromParticle(inp.teardown);
        fx := fx.(radio := calls);
        if !ok {
          state := Error;
          return;
        }
      }
      fx := fx.(sleep := Some(WakeInSeconds(inp.now)));
      if inp.buttonWake {
        sys.Set(SysStatus.LowPowerMode, Flag(false), inp.msWake);
        stayAwake := STAY_AWAKE_LONG;
        stayAwakeTimeStamp := inp.msWake;
        state := Reporting;
      } else {
        state := Idle;
      }
    }

    /** REPORTING's setters, up to and including sendEvent(). */
    method Report(inp: Inputs) returns (e: Event)
      requires Valid()
      modifies sys, sys.file, sys.file.data, current, current.file, current.file.data
      ensures Valid()
      ensures Records() == ReportedStore(old(Records()), inp)
      ensures e == ReportedEvent(old(Records()), inp)
      ensures Touched(sys.file, inp.ms) && Touched(current.file, inp.ms)
    {
      sys.Set(SysStatus.LastReport, Num(inp.now), inp.ms);
      TakeMeasurements(sys, current, inp.readings, inp.ms);
      if HourOf(inp.now) == sys.Get(SysStatus.OpenTime).n {
        DailyCleanup(inp.now, inp.ms);
      }
      e := SendEvent(sys, current, inp.now, inp.ms);
    }

    method ReportingCase(inp: Inputs) returns (fx: Effects)
      requires Valid() && state == Reporting
      modifies this, sys, sys.file, sys.file.data, current, current.file, current.file.data
      ensures Valid()
      ensures var t := ReportingStep(old(Vars()), old(Records()), inp);
        Vars() == t.ctl && Records() == t.store && fx == t.fx &&
        Touched(sys.file, t.touchMs) && Touched(current.file, t.touchMs)
    {
      oldState := state;
      var e := Report(inp);
      fx := NO_EFFECTS.(events := [e]);
      Decide(inp);
    }

    /** REPORTING's connection decision. */
    method Decide(inp: Inputs)
      requires Valid()
      modifies this
      ensures Vars() == Decided(old(Vars()), Records(), inp)
    {
      if inp.connected {
        stayAwake := STAY_AWAKE_LONG;
        stayAwakeTimeStamp := inp.ms;
      }
      var lowBattery := sys.Get(SysStatus.LowBatteryMode).b;
      var lowPower := sys.Get(SysStatus.LowPowerMode).b;
      var soc := current.Get(StateOfCharge).n;
      state := Admit(inp.connected, lowBattery, lowPower, inp.buttonHigh, FloatOf(soc), HourOf(inp.now));
    }

    method RespWaitCase(inp: Inputs) returns (fx: Effects)
      requires Valid() && state == RespWait
      modifies this
      ensures var t := RespWaitStep(old(Vars()), old(Records()), inp);
        Vars() == t.ctl && fx == t.fx
    {
      if state != oldState {
        webhookTimeStamp := inp.ms;
        dataInFlight := true;
        oldState := state;
      }
      if !dataInFlight {
        stayAwake := STAY_AWAKE_LONG;
        stayAwakeTimeStamp := inp.ms;
        state := Idle;
      } else if Elapsed(inp.ms, webhookTimeStamp) > WEBHOOK_WAIT {
        state := Error;
      }
      fx := NO_EFFECTS;
    }

    /** CONNECTING's entry actions (Particle.connect() is the `connect`
        effect). */
    method StartConnecting(ms: u32)
      requires Valid()
      modifies this, sys, sys.file, sys.file.data
      ensures Valid()
      ensures Vars() == old(Vars()).(retainedOldState := old(oldState), oldState := old(state), connectionStart := ms)
      ensures sys.view == old(sys.view).(lastConnectionDuration := 0)
      ensures Touched(sys.file, ms)
    {
      retainedOldState := oldState;
      sys.Set(SysStatus.LastConnectionDuration, Num(0), ms);
      oldState := state;
      connectionStartTimeStamp := ms;
    }

    method ConnectingCase(inp: Inputs) returns (fx: Effects)
      requires Valid() && state == Connecting
      modifies this, sys, sys.file, sys.file.data
      ensures Valid()
      ensures var t := ConnectingStep(old(Vars()), old(Records()), inp);
        Vars() == t.ctl && Records() == t.store && fx == t.fx && Touched(sys.file, t.touchMs)
    {
      var entering := state != oldState;
      if entering {
        StartConnecting(inp.ms);
      }
      Track(inp);
      fx := NO_EFFECTS.(connect := entering);
    }

    /** CONNECTING after its entry actions. */
    method Track(inp: Inputs)
      requires Valid() && state == Connecting
      modifies this, sys, sys.file, sys.file.data
      ensures Valid()
      ensures var t := Connection(old(Vars()), old(Records()), inp);
        Vars() == t.ctl && Records() == t.store && Touched(sys.file, inp.ms)
    {
      var duration := DurationOf(inp.ms, connectionStartTimeStamp);
      sys.Set(SysStatus.LastConnectionDuration, Num(duration), inp.ms);
      if inp.connected {
        sys.Set(SysStatus.LastConnection, Num(inp.now), inp.ms);
        stayAwake := STAY_AWAKE_LONG;
        stayAwakeTimeStamp := inp.ms;
        state := if retainedOldState == Reporting then RespWait else Idle;
      } else if duration > CONNECT_LIMIT {  // the getter returns the duration just stored
        state := Error;
      }
    }

    method ErrorCase(inp: Inputs) returns (fx: Effects)
      requires Valid() && state == Error
      modifies this
      ensures var t := ErrorStep(old(Vars()), old(Records()), inp);
        Vars() == t.ctl && fx == t.fx
    {
      oldState := state;
      if resetTimer.None? {
        resetTimer := Some(inp.ms);
      }
      fx := NO_EFFECTS.(reset := Elapsed(inp.ms, resetTimer.value) > RESET_WAIT);
    }

    /** loop()'s switch. */
    method RunSwitch(inp: Inputs) returns (fx: Effects)
      requires Valid()
      modifies this, sys, sys.file, sys.file.data, current, current.file, current.file.data
      ensures Valid()
      ensures var t := Switch(old(Vars()), old(Records()), inp);
        Vars() == t.ctl && Records() == t.store && fx == t.fx &&
        Stamped(sys.file, t.touchedSys, t.touchMs) && Stamped(current.file, t.touchedCur, t.touchMs)
    {
      match state {
        case Idle => fx := IdleCase(inp);
        case Sleeping => fx := SleepingCase(inp);
        case Reporting => fx := ReportingCase(inp);
        case RespWait => fx := RespWaitCase(inp);
        case Connecting => fx := ConnectingCase(inp);
        case Error => fx := ErrorCase(inp);
        case Init => fx := NO_EFFECTS;
        case Disconnecting => fx := NO_EFFECTS;
      }
    }

    /** loop(): the switch; then, unless the device reset, flush both
      records and apply the out-of-memory and user-switch overrides. */
    method Loop(inp: Inputs) returns (fx: Effects)
      requires Valid()
      modifies this, sys, sys.file, sys.file.data, current, current.file, current.file.data
      ensures Valid()
      ensures var t := Step(old(Vars()), old(Records()), inp);
        Vars() == t.ctl && Records() == t.store && fx == t.fx
      ensures var t := Switch(old(Vars()), old(Records()), inp);
        if t.fx.reset then Untouched(sys.file) && Untouched(current.file)
        else Housekept(sys.file, t.touchedSys, t.touchMs, inp.msFlush) &&
             Housekept(current.file, t.touchedCur, t.touchMs, inp.msFlush)
    {
      fx := RunSwitch(inp);
      if fx.reset {
        return;
      }
      current.Loop(inp.msFlush);
      sys.Loop(inp.msFlush);
      if inp.outOfMemory >= 0 {
        state := Error;
      }
      if inp.userSwitch {
        state := Reporting;
      }
    }

    /** UbidotsHandler(): a success response clears the in-flight flag and
      records the response time; anything else changes nothing. */
    method OnHookResponse(data: string, now: i32, ms: u32)
      requires Valid()
      modifies this, sys, sys.file, sys.file.data
      ensures Valid()
      ensures HookAccepted(data) ==>
        Vars() == old(Vars()).(dataInFlight := false) &&
        sys.view == old(sys.view).(lastHookResponse := now) && Touched(sys.file, ms)
      ensures !HookAccepted(data) ==> Vars() == old(Vars()) && sys.view == old(sys.view) && Untouched(sys.file)
    {
      if |data| == 0 {
      } else if Strtol(data) == 200 || Strtol(data) == 201 {
        dataInFlight := false;
        sys.Set(SysStatus.LastHookResponse, Num(now), ms);
      }
    }

    /** isParkOpen() at the given hour. */
    function IsOpenAt(hour: int): (open: bool)
      reads this, sys, sys.file, sys.file.data
      requires sys.Valid()
      ensures open <==> sys.view.openTime <= hour <= sys.view.closeTime
    {
      IsParkOpen(hour, sys.Get(SysStatus.OpenTime).n, sys.Get(SysStatus.CloseTime).n)
    }
  }
}
