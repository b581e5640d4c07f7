/** takeMeasurements: what a measurement pass writes into the two records.
    The analog conversions, the temperature compensation and the charger
    control are not modelled: the values they produce arrive as `Readings`,
    already in the form the records store them. */
module Measurements {
  import opened Bytes
  import opened Access
  import opened Float32
  import opened StorageHelper
  import SysStatus
  import opened CurrentStatus

  /** One pass of the sensors: System.batteryState(), the bit pattern of
      System.batteryCharge(), the outside temperature, the compensated
      distance in cm and the enclosure temperature. */
  datatype Readings = Readings(
    batteryState: u8,
    charge: u32,
    externalTempC: u32,
    distance: u16,
    internalTempC: u32)

  /** batteryState(): the charge is above 60 %, or the gauge reported -1
      (a bad reading must not force low-power mode). */
  predicate BatteryOk(charge: u32)
  {
    Greater(FloatOf(charge), 60.0) || Equals(FloatOf(charge), -1.0)
  }

  /** isItSafeToCharge(): the enclosure is between 0 and 37 degrees C. */
  predicate SafeToCharge(internalTempC: u32)
  {
    !(Less(FloatOf(internalTempC), 0.0) || Greater(FloatOf(internalTempC), 37.0))
  }

  /** "Not Charging", the battery state written when charging is unsafe. */
  const NOT_CHARGING: u8 := 1

  /** The system record after a measurement pass: low-power mode is switched
      on when the battery check fails, and nothing else changes. */
  function MeasuredSys(sys: SysStatus.SysData, r: Readings): (s: SysStatus.SysData)
    ensures s.lowPowerMode <==> sys.lowPowerMode || !BatteryOk(r.charge)
    ensures s == sys.(lowPowerMode := s.lowPowerMode)
  {
    if BatteryOk(r.charge) then sys else sys.(lowPowerMode := true)
  }

  /** The current record after a measurement pass. The charging check reads
      the enclosure temperature stored by the previous pass, before this
      pass stores the new one. */
  function MeasuredCurrent(cur: CurrentData, r: Readings): (c: CurrentData)
    ensures c.stateOfCharge == r.charge && c.distance == r.distance
    ensures c.internalTempC == r.internalTempC && c.externalTempC == r.externalTempC
    ensures c.batteryState == if SafeToCharge(cur.internalTempC) then r.batteryState else NOT_CHARGING
    ensures c.lastCountTime == cur.lastCountTime && c.alertCode == cur.alertCode
    ensures c.lastAlertTime == cur.lastAlertTime
  {
    cur.(batteryState := if SafeToCharge(cur.internalTempC) then r.batteryState else NOT_CHARGING,
         stateOfCharge := r.charge, externalTempC := r.externalTempC,
         distance := r.distance, internalTempC := r.internalTempC)
  }

  /** A measurement pass never takes the device out of low-power mode. */
  lemma MeasuringKeepsLowPower(sys: SysStatus.SysData, r: Readings)
    requires sys.lowPowerMode
    ensures MeasuredSys(sys, r).lowPowerMode
  {
  }

  /** A charge reading that is NaN fails the battery check: only a number
      above 60 or exactly -1 passes. */
  lemma NaNChargeMeansLowPower(sys: SysStatus.SysData, r: Readings)
    requires FloatOf(r.charge) == NaN
    ensures MeasuredSys(sys, r).lowPowerMode
  {
  }

  /** Two passes with the same readings leave the records as one pass does,
      unless the first pass changed the enclosure temperature the charging
      check reads. */
  lemma MeasuringTwice(sys: SysStatus.SysData, cur: CurrentData, r: Readings)
    requires SafeToCharge(cur.internalTempC) <==> SafeToCharge(r.internalTempC)
    ensures MeasuredSys(MeasuredSys(sys, r), r) == MeasuredSys(sys, r)
    ensures MeasuredCurrent(MeasuredCurrent(cur, r), r) == MeasuredCurrent(cur, r)
  {
  }

  /** batteryState(): store the battery state and the charge, and report
      whether the stored charge passes the battery check. */
  method StoreBatteryState(current: CurrentStatusData, r: Readings, ms: u32) returns (ok: bool)
    requires current.Valid()
    modifies current, current.file, current.file.data
    ensures current.Valid() && ok == BatteryOk(r.charge)
    ensures current.view == old(current.view).(batteryState := r.batteryState, stateOfCharge := r.charge)
    ensures Touched(current.file, ms)
  {
    current.Set(BatteryState, Num(r.batteryState), ms);
    current.Set(StateOfCharge, Num(r.charge), ms);
    var soc := FloatOf(current.Get(StateOfCharge).n);
    ok := Greater(soc, 60.0) || Equals(soc, -1.0);
  }

  /** isItSafeToCharge(): outside 0 to 37 degrees C the battery state is
      overwritten with "Not Charging" (the charger is switched off, which is
      not modelled). */
  method CheckCharging(current: CurrentStatusData, ms: u32) returns (safe: bool)
    requires current.Valid()
    modifies current, current.file, current.file.data
    ensures current.Valid() && safe == SafeToCharge(old(current.view).internalTempC)
    ensures safe ==> current.view == old(current.view) && Untouched(current.file)
    ensures !safe ==> current.view == old(current.view).(batteryState := NOT_CHARGING) && Touched(current.file, ms)
  {
    var internal := FloatOf(current.Get(InternalTempC).n);
    if Less(internal, 0.0) || Greater(internal, 37.0) {
      current.Set(BatteryState, Num(NOT_CHARGING), ms);
      safe := false;
    } else {
      safe := true;
    }
  }

  /** takeMeasurements(): batteryState() stores the battery state and the
      charge, a failed battery check switches on low-power mode,
      isItSafeToCharge() may overwrite the battery state, then the outside
      temperature, the distance and the enclosure temperature are stored. */
  method TakeMeasurements(sys: SysStatus.SysStatusData, current: CurrentStatusData, r: Readings, ms: u32)
    requires sys.Valid() && current.Valid() && Separate(sys, current)
    modifies sys, sys.file, sys.file.data, current, current.file, current.file.data
    ensures sys.Valid() && current.Valid()
    ensures sys.view == MeasuredSys(old(sys.view), r)
    ensures current.view == MeasuredCurrent(old(current.view), r)
    ensures Touched(current.file, ms)
    ensures BatteryOk(r.charge) ==> Untouched(sys.file)
    ensures !BatteryOk(r.charge) ==> Touched(sys.file, ms)
  {
    var ok := StoreBatteryState(current, r, ms);
    if !ok {
      sys.Set(SysStatus.LowPowerMode, Flag(true), ms);
    }
    var _ := CheckCharging(current, ms);
    current.Set(ExternalTempC, Num(r.externalTempC), ms);
    current.Set(Distance, Num(r.distance), ms);
    current.Set(InternalTempC, Num(r.internalTempC), ms);
  }
}
