/** The cloud-facing functions: the "Commands" dispatcher, the webhook
    report and the two-phase disconnect. The JSON text is taken as already
    tokenised into (var, fn) pairs; the log lines and the reply messages the
    dispatcher publishes are not modelled. */
module ParticleFunctions {
  import opened Bytes
  import opened Access
  import opened StorageHelper
  import SysStatus
  import opened CurrentStatus
  import opened Measurements

  // ---------------------------------------------------------------------
  // strtol(s, &end, 10) with a 32-bit long
  // ---------------------------------------------------------------------

  const LONG_MAX: int := 0x7FFF_FFFF
  const LONG_MIN: int := -0x8000_0000

  /** isspace in the C locale. */
  predicate IsSpace(c: char)
  {
    c == ' ' || 9 <= c as int <= 13
  }

  predicate IsDigit(c: char)
  {
    '0' <= c <= '9'
  }

  function DigitValue(c: char): (d: nat)
    requires IsDigit(c)
    ensures d < 10
  {
    c as int - '0' as int
  }

  function DigitChar(d: nat): (c: char)
    requires d < 10
    ensures IsDigit(c) && DigitValue(c) == d
  {
    ('0' as int + d) as char
  }

  predicate AllDigits(s: string)
  {
    forall i :: 0 <= i < |s| ==> IsDigit(s[i])
  }

  /** The number of leading white-space characters. */
  function SpaceRun(s: string): (n: nat)
    ensures n <= |s|
    ensures forall i :: 0 <= i < n ==> IsSpace(s[i])
    ensures n < |s| ==> !IsSpace(s[n])
  {
    if |s| > 0 && IsSpace(s[0]) then 1 + SpaceRun(s[1..]) else 0
  }

  /** The number of leading decimal digits. */
  function DigitRun(s: string): (n: nat)
    ensures n <= |s| && AllDigits(s[..n])
    ensures n < |s| ==> !IsDigit(s[n])
  {
    if |s| > 0 && IsDigit(s[0]) then
      var n := 1 + DigitRun(s[1..]);
      assert forall i :: 1 <= i < n ==> s[..n][i] == s[1..][..n - 1][i - 1];
      n
    else 0
  }

  /** The number a string of decimal digits spells, most significant first. */
  function DigitsValue(ds: string): (v: nat)
    requires AllDigits(ds)
  {
    if |ds| == 0 then 0 else 10 * DigitsValue(ds[..|ds| - 1]) + DigitValue(ds[|ds| - 1])
  }

  /** The value of the leading run of decimal digits, 0 when there is none. */
  function Magnitude(u: string): (m: nat)
  {
    DigitsValue(u[..DigitRun(u)])
  }

  /** An unsigned magnitude as a long: too large saturates at LONG_MAX. */
  function Positive(m: nat): (v: int)
    ensures 0 <= v <= LONG_MAX && (m <= LONG_MAX ==> v == m)
    ensures m > LONG_MAX ==> v == LONG_MAX
  {
    if m > LONG_MAX then LONG_MAX else m
  }

  /** A negated magnitude as a long: too large saturates at LONG_MIN. */
  function Negative(m: nat): (v: int)
    ensures LONG_MIN <= v <= 0 && (m <= -LONG_MIN ==> v == -(m as int))
    ensures m > -LONG_MIN ==> v == LONG_MIN
  {
    if m > -LONG_MIN then LONG_MIN else -(m as int)
  }

  /** strtol with base 10: leading white space, an optional sign and the
      longest run of decimal digits; 0 when there are no digits, and
      LONG_MAX or LONG_MIN when the number does not fit in a long. */
  function Strtol(s: string): (v: int)
    ensures LONG_MIN <= v <= LONG_MAX
  {
    var t := s[SpaceRun(s)..];
    if |t| > 0 && t[0] == '-' then Negative(Magnitude(t[1..]))
    else if |t| > 0 && t[0] == '+' then Positive(Magnitude(t[1..]))
    else Positive(Magnitude(t))
  }

  /** The decimal rendering of n, without leading zeros. */
  function Decimal(n: nat): (s: string)
    ensures |s| > 0 && AllDigits(s)
  {
    if n < 10 then [DigitChar(n)] else Decimal(n / 10) + [DigitChar(n % 10)]
  }

  lemma {:induction false} DecimalValue(n: nat)
    ensures DigitsValue(Decimal(n)) == n
  {
    if n >= 10 {
      var s := Decimal(n);
      assert s[..|s| - 1] == Decimal(n / 10);
      DecimalValue(n / 10);
    }
  }

  /** The digit run of digits followed by a non-digit is those digits. */
  lemma {:induction false} DigitRunOfDigits(ds: string, rest: string)
    requires AllDigits(ds)
    requires |rest| == 0 || !IsDigit(rest[0])
    ensures DigitRun(ds + rest) == |ds|
  {
    if |ds| > 0 {
      assert (ds + rest)[1..] == ds[1..] + rest;
      DigitRunOfDigits(ds[1..], rest);
    }
  }

  /** The magnitude of digits followed by a non-digit is their value. */
  lemma MagnitudeOfDigits(ds: string, rest: string)
    requires AllDigits(ds)
    requires |rest| == 0 || !IsDigit(rest[0])
    ensures Magnitude(ds + rest) == DigitsValue(ds)
  {
    DigitRunOfDigits(ds, rest);
    assert (ds + rest)[..|ds|] == ds;
  }

  /** strtol of text that does not start with white space. */
  lemma StrtolUnspaced(t: string)
    requires |t| > 0 && !IsSpace(t[0])
    ensures Strtol(t) == if t[0] == '-' then Negative(Magnitude(t[1..]))
                         else if t[0] == '+' then Positive(Magnitude(t[1..]))
                         else Positive(Magnitude(t))
  {
    assert SpaceRun(t) == 0;
    assert t[0..] == t;
  }

  /** strtol reads back every long written in decimal, whatever
      non-digit text follows it. */
  lemma StrtolDecimal(n: nat, rest: string)
    requires n <= LONG_MAX
    requires |rest| == 0 || !IsDigit(rest[0])
    ensures Strtol(Decimal(n) + rest) == n
  {
    DecimalValue(n);
    MagnitudeOfDigits(Decimal(n), rest);
    StrtolUnspaced(Decimal(n) + rest);
  }

  /** ... and with a sign in front of it. */
  lemma StrtolSignedDecimal(sign: char, n: nat, rest: string)
    requires sign == '+' || sign == '-'
    requires n <= LONG_MAX
    requires |rest| == 0 || !IsDigit(rest[0])
    ensures Strtol([sign] + Decimal(n) + rest) == if sign == '-' then -(n as int) else n
  {
    var t := Decimal(n) + rest;
    DecimalValue(n);
    MagnitudeOfDigits(Decimal(n), rest);
    assert Magnitude(t) == n;
    var signed := [sign] + t;
    assert [sign] + Decimal(n) + rest == signed;
    assert signed[0] == sign && signed[1..] == t;
    StrtolUnspaced(signed);
    if sign == '-' {
      assert Strtol(signed) == Negative(n);
    } else {
      assert Strtol(signed) == Positive(n);
    }
  }

  /** Text that starts with neither white space, a sign nor a digit (a
      word such as "true", or nothing at all) reads as 0. */
  lemma StrtolNoNumber(s: string)
    requires |s| == 0 || !(IsSpace(s[0]) || IsDigit(s[0]) || s[0] == '+' || s[0] == '-')
    ensures Strtol(s) == 0
  {
  }

  // ---------------------------------------------------------------------
  // The records as one value, and the webhook report
  // ---------------------------------------------------------------------

  /** What the system and current records' getters present. */
  datatype Store = Store(sys: SysStatus.SysData, cur: CurrentData)

  /** The numbers sendEvent formats into the Ubidots webhook payload:
      distance, battery charge (float bits), battery state, enclosure
      temperature (float bits), reset count, alert code, last connection
      duration and the timestamp in seconds. */
  datatype Event = Event(
    distance: u16,
    battery: u32,
    batteryState: u8,
    temp: u32,
    resets: u8,
    alerts: i8,
    connectTime: u16,
    timestamp: u32)

  /** Time.now() stored into an unsigned long. */
  function AsUnsigned(t: i32): (u: u32)
    ensures t >= 0 ==> u == t
    ensures (u - t) % 0x1_0000_0000 == 0
  {
    if t < 0 then t + 0x1_0000_0000 else t
  }

  /** The report sendEvent queues for the records as they are at the call. */
  function EventOf(s: Store, now: i32): Event
  {
    Event(s.cur.distance, s.cur.stateOfCharge, s.cur.batteryState, s.cur.internalTempC,
          s.sys.resetCount, s.cur.alertCode, s.sys.lastConnectionDuration, AsUnsigned(now))
  }

  /** sendEvent(): queue the report, then clear the alert code, so an alert
      is reported once. */
  method SendEvent(sys: SysStatus.SysStatusData, current: CurrentStatusData, now: i32, ms: u32)
    returns (e: Event)
    requires sys.Valid() && current.Valid() && Separate(sys, current)
    modifies current, current.file, current.file.data
    ensures current.Valid()
    ensures e == EventOf(Store(sys.view, old(current.view)), now)
    ensures e.alerts == old(current.view).alertCode
    ensures current.view == old(current.view).(alertCode := 0)
    ensures Touched(current.file, ms)
  {
    e := Event(current.Get(Distance).n, current.Get(StateOfCharge).n, current.Get(BatteryState).n,
               current.Get(InternalTempC).n, sys.Get(SysStatus.ResetCount).n, current.Get(AlertCode).n,
               sys.Get(SysStatus.LastConnectionDuration).n, AsUnsigned(now));
    current.Set(AlertCode, Num(0), ms);
  }

  // ---------------------------------------------------------------------
  // The "Commands" dispatcher: what each command does to the records
  // ---------------------------------------------------------------------

  /** One element of the "cmd" array: its "var" and "fn" strings. */
  datatype Item = Item(variable: string, fn: string)

  /** The command string, as the JSON parser leaves it. */
  datatype Request = ParseFailed | Parsed(items: seq<Item>)

  /** What the calls the dispatcher makes read from outside the records:
      Time.now() and one pass of the sensors. */
  datatype Env = Env(now: i32, readings: Readings)

  /** The records, the success flag and the reports queued so far. */
  datatype Outcome = Outcome(store: Store, success: bool, events: seq<Event>)

  /** current.resetEverything(): the count restarts now and the system
      record's reset count goes back to 0. */
  function ResetEverything(s: Store, now: i32): (r: Store)
    ensures r.cur.lastCountTime == now && r.sys.resetCount == 0
    ensures r == Store(s.sys.(resetCount := 0), s.cur.(lastCountTime := now))
  {
    Store(s.sys.(resetCount := 0), CountRestarted(s.cur, now))
  }

  /** "reset": with var "all", sysStatus.initialize() and resetEverything
      first; then resetEverything in every case. */
  function Reset(s: Store, variable: string, now: i32): Store
  {
    var s1 := if variable == "all" then ResetEverything(s.(sys := SysStatus.Initialized()), now) else s;
    ResetEverything(s1, now)
  }

  /** takeMeasurements() on both records. */
  function Measured(s: Store, r: Readings): Store
  {
    Store(MeasuredSys(s.sys, r), MeasuredCurrent(s.cur, r))
  }

  /** The commands the dispatcher knows. */
  datatype Fn = ResetFn | StatusFn | SendFn | StayFn | OpenFn | CloseFn | TypeFn | UnknownFn

  /** The "fn" string, compared with each command name in turn. */
  function FnOf(fn: string): Fn
  {
    if fn == "reset" then ResetFn
    else if fn == "status" then StatusFn
    else if fn == "send" then SendFn
    else if fn == "stay" then StayFn
    else if fn == "open" then OpenFn
    else if fn == "close" then CloseFn
    else if fn == "type" then TypeFn
    else UnknownFn
  }

  /** Whether the command is carried out, which is what decides the
      success flag: the four commands without a value always are, "open",
      "close" and "type" when their value is in range, and an unknown
      command never is. */
  predicate Accepted(it: Item)
  {
    match FnOf(it.fn)
    case OpenFn => 0 <= Strtol(it.variable) <= 12
    case CloseFn => 13 <= Strtol(it.variable) <= 24
    case TypeFn => 0 <= Strtol(it.variable) <= 2
    case UnknownFn => false
    case _ => true
  }

  /** The commands that set one member of the system record. */
  predicate IsSetting(fn: Fn)
  {
    fn.StayFn? || fn.OpenFn? || fn.CloseFn? || fn.TypeFn?
  }

  /** What an accepted setting command does to the system record: "stay"
      sets low-power mode unless the value is "true"; "open", "close" and
      "type" store the number the value starts with. */
  function Setting(sys: SysStatus.SysData, it: Item): SysStatus.SysData
    requires IsSetting(FnOf(it.fn)) && Accepted(it)
  {
    match FnOf(it.fn)
    case StayFn => sys.(lowPowerMode := it.variable != "true")
    case OpenFn => sys.(openTime := Strtol(it.variable))
    case CloseFn => sys.(closeTime := Strtol(it.variable))
    case TypeFn => sys.(sensorType := Strtol(it.variable))
  }

  /** One pass of the loop body on one item. */
  function Command(o: Outcome, it: Item, env: Env): (o': Outcome)
    ensures o'.success == (o.success && Accepted(it))
    ensures !Accepted(it) ==> o'.store == o.store && o'.events == o.events
  {
    var s := o.store;
    match FnOf(it.fn)
    case ResetFn =>
      o.(store := Reset(s, it.variable, env.now))
    case StatusFn =>
      o.(store := Measured(s, env.readings))
    case SendFn =>
      var m := Measured(s, env.readings);
      o.(store := m.(cur := m.cur.(alertCode := 0)), events := o.events + [EventOf(m, env.now)])
    case UnknownFn =>
      o.(success := false)
    case _ =>
      if Accepted(it) then o.(store := s.(sys := Setting(s.sys, it))) else o.(success := false)
  }

  /** The loop over a list of items, first to last. */
  function Run(o: Outcome, items: seq<Item>, env: Env): Outcome
  {
    if |items| == 0 then o else Command(Run(o, items[..|items| - 1], env), items[|items| - 1], env)
  }

  /** jsonFunctionParser: 0 when the command does not parse or its "cmd"
      array is empty; otherwise the first ten items are carried out in order
      and the result is 1 when every one of them was accepted, else 0. */
  function Dispatch(req: Request, s: Store, env: Env): (res: (int, Outcome))
  {
    var start := Outcome(s, true, []);
    if req.ParseFailed? || |req.items| == 0 then (0, start)
    else
      var o := Run(start, if |req.items| > 10 then req.items[..10] else req.items, env);
      (if o.success then 1 else 0, o)
  }

  // ---------------------------------------------------------------------
  // Properties of the dispatcher
  // ---------------------------------------------------------------------

  /** success starts true and is cleared for good by the first item that is
      not accepted: after a run it is true exactly when every item was. */
  lemma {:induction false} RunSuccess(o: Outcome, items: seq<Item>, env: Env)
    ensures Run(o, items, env).success <==> o.success && forall i :: 0 <= i < |items| ==> Accepted(items[i])
  {
    if |items| > 0 {
      var init := items[..|items| - 1];
      RunSuccess(o, init, env);
      assert forall i :: 0 <= i < |init| ==> init[i] == items[i];
    }
  }

  /** The result is 1 exactly when the "cmd" array has an item and each of
      its first ten items is accepted; a failed parse or an empty array gives
      0 and leaves the records alone. */
  lemma DispatchResult(req: Request, s: Store, env: Env)
    ensures req.ParseFailed? || |req.items| == 0 ==> Dispatch(req, s, env) == (0, Outcome(s, true, []))
    ensures Dispatch(req, s, env).0 == 1 <==>
              req.Parsed? && |req.items| > 0 && forall i :: 0 <= i < |req.items| && i < 10 ==> Accepted(req.items[i])
    ensures Dispatch(req, s, env).0 == 0 || Dispatch(req, s, env).0 == 1
  {
    if req.Parsed? && |req.items| > 0 {
      var items := if |req.items| > 10 then req.items[..10] else req.items;
      RunSuccess(Outcome(s, true, []), items, env);
      assert forall i :: 0 <= i < |items| ==> items[i] == req.items[i];
    }
  }

  /** Items after the tenth are never looked at. */
  lemma AtMostTen(items: seq<Item>, extra: seq<Item>, s: Store, env: Env)
    requires |items| >= 10
    ensures Dispatch(Parsed(items + extra), s, env) == Dispatch(Parsed(items), s, env)
  {
    var first := items[..10];
    assert (items + extra)[..10] == first;
    assert |items| == 10 ==> items == first;
    assert |items + extra| == 10 ==> items + extra == first;
  }

  /** A rejected command changes nothing but the success flag, and the
      commands after it are still carried out. */
  lemma RejectedThenCarriedOn(o: Outcome, bad: Item, it: Item, env: Env)
    requires !Accepted(bad)
    ensures Run(o, [bad, it], env).store == Command(o, it, env).store
    ensures Run(o, [bad, it], env).events == Command(o, it, env).events
    ensures !Run(o, [bad, it], env).success
  {
    assert [bad, it][..1] == [bad];
    assert [bad][..0] == [];
    assert Run(o, [bad], env) == Command(o, bad, env) == o.(success := false);
    CommandIgnoresSuccess(o, it, env);
  }

  /** The success flag does not steer what a command does. */
  lemma CommandIgnoresSuccess(o: Outcome, it: Item, env: Env)
    ensures Command(o.(success := false), it, env) == Command(o, it, env).(success := false)
  {
  }

  /** Opening and closing hours bracket the day: opening at or before noon,
      closing from 13 to 24. */
  predicate HoursOrdered(sys: SysStatus.SysData)
  {
    sys.openTime <= 12 && 13 <= sys.closeTime <= 24
  }

  /** No command can move the opening hour past noon or the closing hour
      out of 13 to 24, and none can make the system record fail validation:
      "open" and "close" refuse such values and "reset all" installs 0
      and 24. */
  lemma {:induction false} RunKeepsHours(o: Outcome, items: seq<Item>, env: Env)
    requires HoursOrdered(o.store.sys) && SysStatus.InDomain(o.store.sys)
    ensures HoursOrdered(Run(o, items, env).store.sys)
    ensures SysStatus.InDomain(Run(o, items, env).store.sys)
  {
    if |items| > 0 {
      RunKeepsHours(o, items[..|items| - 1], env);
      CommandKeepsHours(Run(o, items[..|items| - 1], env), items[|items| - 1], env);
    }
  }

  lemma CommandKeepsHours(o: Outcome, it: Item, env: Env)
    requires HoursOrdered(o.store.sys) && SysStatus.InDomain(o.store.sys)
    ensures HoursOrdered(Command(o, it, env).store.sys)
    ensures SysStatus.InDomain(Command(o, it, env).store.sys)
  {
    var fn := FnOf(it.fn);
    if fn == ResetFn {
      SysStatus.InitializedValid();
    } else if fn == StatusFn || fn == SendFn {
    } else {
    }
  }

  /** "open" with a value from 0 to 12 sets the opening hour and changes
      nothing else; any other value changes nothing but the success flag. */
  lemma OpenRange(o: Outcome, v: string, env: Env)
    ensures var r := Command(o, Item(v, "open"), env);
      if 0 <= Strtol(v) <= 12 then r == o.(store := o.store.(sys := o.store.sys.(openTime := Strtol(v))))
      else r == o.(success := false)
  {
    assert FnOf("open") == OpenFn;
  }

  /** "close" with a value from 13 to 24 sets the closing hour and changes
      nothing else; any other value changes nothing but the success flag. */
  lemma CloseRange(o: Outcome, v: string, env: Env)
    ensures var r := Command(o, Item(v, "close"), env);
      if 13 <= Strtol(v) <= 24 then r == o.(store := o.store.(sys := o.store.sys.(closeTime := Strtol(v))))
      else r == o.(success := false)
  {
    assert FnOf("close") == CloseFn;
  }

  /** "type" with a value from 0 to 2 sets the sensor type and changes
      nothing else; any other value changes nothing but the success flag. */
  lemma TypeRange(o: Outcome, v: string, env: Env)
    ensures var r := Command(o, Item(v, "type"), env);
      if 0 <= Strtol(v) <= 2 then r == o.(store := o.store.(sys := o.store.sys.(sensorType := Strtol(v))))
      else r == o.(success := false)
  {
    assert FnOf("type") == TypeFn;
  }

  /** A value with no number in it reads as 0, which "open" and "type"
      accept: "open" with "noon" opens at midnight. */
  lemma WordOpensAtMidnight(o: Outcome, v: string, env: Env)
    requires |v| > 0 && 'a' <= v[0] <= 'z'
    ensures Command(o, Item(v, "open"), env) == o.(store := o.store.(sys := o.store.sys.(openTime := 0)))
    ensures Command(o, Item(v, "type"), env) == o.(store := o.store.(sys := o.store.sys.(sensorType := 0)))
  {
    StrtolNoNumber(v);
    OpenRange(o, v, env);
    TypeRange(o, v, env);
  }

  /** "stay" with "true" keeps the device online (low-power mode off); any
      other value puts it back into low-power mode. */
  lemma StayRange(o: Outcome, v: string, env: Env)
    ensures Command(o, Item(v, "stay"), env).store.sys.lowPowerMode <==> v != "true"
    ensures Command(o, Item(v, "stay"), env) ==
              o.(store := o.store.(sys := o.store.sys.(lowPowerMode := Command(o, Item(v, "stay"), env).store.sys.lowPowerMode)))
  {
  }

  /** Running resetEverything a second time changes nothing, so "reset all"
      calling it twice leaves what one call leaves: the factory settings
      with the count restarted now. */
  lemma ResetAll(s: Store, now: i32)
    ensures ResetEverything(ResetEverything(s, now), now) == ResetEverything(s, now)
    ensures Reset(s, "all", now) == Store(SysStatus.Initialized(), CountRestarted(s.cur, now))
    ensures Reset(s, "current", now) == ResetEverything(s, now)
  {
  }

  /** "send" queues one report carrying the alert code the record held,
      and leaves the alert code 0. */
  lemma SendReportsAlertOnce(o: Outcome, v: string, env: Env)
    ensures var r := Command(o, Item(v, "send"), env);
      |r.events| == |o.events| + 1 && r.events[..|o.events|] == o.events &&
      r.events[|o.events|].alerts == o.store.cur.alertCode &&
      r.store.cur.alertCode == 0
  {
  }

  // ---------------------------------------------------------------------
  // The dispatcher on the record objects
  // ---------------------------------------------------------------------

  /** The "reset" branch. */
  method ResetCommand(sys: SysStatus.SysStatusData, current: CurrentStatusData, variable: string, now: i32, ms: u32)
    requires sys.Valid() && current.Valid() && Separate(sys, current)
    modifies sys, sys.file, sys.file.data, current, current.file, current.file.data
    ensures sys.Valid() && current.Valid()
    ensures Store(sys.view, current.view) == Reset(Store(old(sys.view), old(current.view)), variable, now)
    ensures Touched(sys.file, ms) && Touched(current.file, ms)
  {
    if variable == "all" {
      sys.Initialize(ms);
      current.ResetEverything(sys, now, ms);
    }
    current.ResetEverything(sys, now, ms);
  }

  /** The "status" and "send" branches. */
  method MeasureCommand(sys: SysStatus.SysStatusData, current: CurrentStatusData, send: bool, env: Env, ms: u32)
    returns (events: seq<Event>)
    requires sys.Valid() && current.Valid() && Separate(sys, current)
    modifies sys, sys.file, sys.file.data, current, current.file, current.file.data
    ensures sys.Valid() && current.Valid()
    ensures var m := Measured(Store(old(sys.view), old(current.view)), env.readings);
      if send then Store(sys.view, current.view) == m.(cur := m.cur.(alertCode := 0)) && events == [EventOf(m, env.now)]
      else Store(sys.view, current.view) == m && events == []
    ensures Touched(current.file, ms) && Unsaved(sys.file, ms)
  {
    TakeMeasurements(sys, current, env.readings, ms);
    events := [];
    if send {
      var e := SendEvent(sys, current, env.now, ms);
      events := [e];
    }
  }

  /** The "stay" branch. */
  method StayCommand(sys: SysStatus.SysStatusData, it: Item, ms: u32) returns (accepted: bool)
    requires sys.Valid() && FnOf(it.fn) == StayFn
    modifies sys, sys.file, sys.file.data
    ensures sys.Valid() && accepted == Accepted(it)
    ensures sys.view == if accepted then Setting(old(sys.view), it) else old(sys.view)
    ensures accepted ==> Touched(sys.file, ms)
    ensures !accepted ==> Untouched(sys.file)
  {
    sys.Set(SysStatus.LowPowerMode, Flag(it.variable != "true"), ms);
    accepted := true;
  }

  /** The "open" branch: hours 0 to 12. */
  method OpenCommand(sys: SysStatus.SysStatusData, it: Item, ms: u32) returns (accepted: bool)
    requires sys.Valid() && FnOf(it.fn) == OpenFn
    modifies sys, sys.file, sys.file.data
    ensures sys.Valid() && accepted == Accepted(it)
    ensures sys.view == if accepted then Setting(old(sys.view), it) else old(sys.view)
    ensures accepted ==> Touched(sys.file, ms)
    ensures !accepted ==> Untouched(sys.file)
  {
    var v := Strtol(it.variable);
    accepted := 0 <= v <= 12;
    if accepted {
      sys.Set(SysStatus.OpenTime, Num(v), ms);
    }
  }

  /** The "close" branch: hours 13 to 24. */
  method CloseCommand(sys: SysStatus.SysStatusData, it: Item, ms: u32) returns (accepted: bool)
    requires sys.Valid() && FnOf(it.fn) == CloseFn
    modifies sys, sys.file, sys.file.data
    ensures sys.Valid() && accepted == Accepted(it)
    ensures sys.view == if accepted then Setting(old(sys.view), it) else old(sys.view)
    ensures accepted ==> Touched(sys.file, ms)
    ensures !accepted ==> Untouched(sys.file)
  {
    var v := Strtol(it.variable);
    accepted := 13 <= v <= 24;
    if accepted {
      sys.Set(SysStatus.CloseTime, Num(v), ms);
    }
  }

  /** The "type" branch: sensor types 0 to 2. */
  method TypeCommand(sys: SysStatus.SysStatusData, it: Item, ms: u32) returns (accepted: bool)
    requires sys.Valid() && FnOf(it.fn) == TypeFn
    modifies sys, sys.file, sys.file.data
    ensures sys.Valid() && accepted == Accepted(it)
    ensures sys.view == if accepted then Setting(old(sys.view), it) else old(sys.view)
    ensures accepted ==> Touched(sys.file, ms)
    ensures !accepted ==> Untouched(sys.file)
  {
    var v := Strtol(it.variable);
    accepted := 0 <= v <= 2;
    if accepted {
      sys.Set(SysStatus.SensorType, Num(v), ms);
    }
  }

  /** One pass of the loop body: the command named by "fn". */
  method Execute(sys: SysStatus.SysStatusData, current: CurrentStatusData, it: Item, env: Env, ms: u32,
                 success: bool, events: seq<Event>) returns (success': bool, events': seq<Event>)
    requires sys.Valid() && current.Valid() && Separate(sys, current)
    modifies sys, sys.file, sys.file.data, current, current.file, current.file.data
    ensures sys.Valid() && current.Valid()
    ensures Outcome(Store(sys.view, current.view), success', events') ==
              Command(Outcome(Store(old(sys.view), old(current.view)), success, events), it, env)
    ensures Unsaved(sys.file, ms) && Unsaved(current.file, ms)
  {
    success', events' := success, events;
    var fn := FnOf(it.fn);
    if fn == ResetFn {
      ResetCommand(sys, current, it.variable, env.now, ms);
    } else if fn == StatusFn || fn == SendFn {
      var queued := MeasureCommand(sys, current, fn == SendFn, env, ms);
      events' := events + queued;
    } else if IsSetting(fn) {
      var accepted;
      if fn == StayFn {
        accepted := StayCommand(sys, it, ms);
      } else if fn == OpenFn {
        accepted := OpenCommand(sys, it, ms);
      } else if fn == CloseFn {
        accepted := CloseCommand(sys, it, ms);
      } else {
        accepted := TypeCommand(sys, it, ms);
      }
      success' := success && accepted;
    } else {
      success' := false;
    }
  }

  /** The loop over the first i + 1 items is the loop over the first i
      followed by item i. */
  lemma RunStep(o: Outcome, items: seq<Item>, i: nat, env: Env)
    requires i < |items|
    ensures Run(o, items[..i + 1], env) == Command(Run(o, items[..i], env), items[i], env)
  {
    assert items[..i + 1][..i] == items[..i];
  }

  /** jsonFunctionParser(command) on the record objects: proved to do what
      Dispatch says. Nothing is written to the files; each record is at
      most marked changed at millis() == ms. */
  method JsonFunctionParser(sys: SysStatus.SysStatusData, current: CurrentStatusData, req: Request, env: Env, ms: u32)
    returns (result: int, events: seq<Event>)
    requires sys.Valid() && current.Valid() && Separate(sys, current)
    modifies sys, sys.file, sys.file.data, current, current.file, current.file.data
    ensures sys.Valid() && current.Valid()
    ensures var (r, o) := Dispatch(req, Store(old(sys.view), old(current.view)), env);
      result == r && Store(sys.view, current.view) == o.store && events == o.events
    ensures Unsaved(sys.file, ms) && Unsaved(current.file, ms)
  {
    if req.ParseFailed? {
      return 0, [];
    }
    var items := req.items;
    ghost var start := Outcome(Store(sys.view, current.view), true, []);
    var success := true;
    events := [];
    var i := 0;
    while i < 10
      invariant 0 <= i <= 10 && i <= |items|
      invariant sys.Valid() && current.Valid()
      invariant Outcome(Store(sys.view, current.view), success, events) == Run(start, items[..i], env)
      invariant Unsaved(sys.file, ms) && Unsaved(current.file, ms)
    {
      if i >= |items| {
        if i == 0 {
          return 0, [];
        } else {
          break;
        }
      }
      RunStep(start, items, i, env);
      success, events := Execute(sys, current, items[i], env, ms, success, events);
      i := i + 1;
    }
    assert items[..i] == if |items| > 10 then items[..10] else items;
    result := if success then 1 else 0;
  }

  // ---------------------------------------------------------------------
  // disconnectFromParticle
  // ---------------------------------------------------------------------

  /** The calls the teardown makes on the radio. */
  datatype RadioCall = CloudDisconnect | CellularDisconnect | ModemOff

  /** What the two phases found when their waits ended: still connected to
      the cloud after phase 1, modem still on after phase 2. */
  datatype PhaseOutcomes = PhaseOutcomes(stillConnected: bool, modemOn: bool)

  /** What disconnectFromParticle() does: disconnect from the cloud and
      wait; only once the cloud connection is confirmed gone, disconnect
      the cellular network and power the modem down. The result is whether
      both waits ended with the radio off, and the calls made, in order. */
  function Teardown(env: PhaseOutcomes): (r: (bool, seq<RadioCall>))
    ensures |r.1| > 0 && r.1[0] == CloudDisconnect
    ensures (CellularDisconnect in r.1 || ModemOff in r.1) <==> !env.stillConnected
    ensures r.0 <==> !env.stillConnected && !env.modemOn
    ensures r.0 ==> ModemOff in r.1
  {
    if env.stillConnected then (false, [CloudDisconnect])
    else (!env.modemOn, [CloudDisconnect, CellularDisconnect, ModemOff])
  }

  /** disconnectFromParticle() */
  method DisconnectFromParticle(env: PhaseOutcomes) returns (ok: bool, calls: seq<RadioCall>)
    ensures (ok, calls) == Teardown(env)
  {
    calls := [CloudDisconnect];
    if env.stillConnected {
      return false, calls;
    }
    calls := calls + [CellularDisconnect, ModemOff];
    assert calls == [CloudDisconnect, CellularDisconnect, ModemOff];
    ok := !env.modemOn;
  }
}
