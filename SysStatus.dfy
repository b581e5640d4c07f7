/** The system-status record (`sysStatusData`): the device's configuration and
    connection bookkeeping, a 96-byte struct kept in the file
    /usr/sysStatus.dat and written back 100 ms after the last change. */
module SysStatus {
  import opened Bytes
  import opened Layout
  import opened Access
  import opened StorageHelper

  const SYS_DATA_MAGIC: u32 := 0x20a99e75
  const SYS_DATA_VERSION: u16 := 2
  /** withSaveDelayMs(100) in setup. */
  const SAVE_DELAY_MS: nat := 100

  /** The members of SysData in declaration order, header first. */
  const Members: seq<CType> :=
    [Header, U8, Bool, Bool, Bool, Bool, U8, Chars(39), U8, U8, TimeT, TimeT, TimeT, U16, U8, Bool]

  /** sizeof(SysData) */
  const SIZE: nat := 96

  datatype Field =
    | StructuresVersion | VerboseMode | SolarPowerMode | LowPowerMode | LowBatteryMode
    | ResetCount | TimeZoneStr | OpenTime | CloseTime | LastReport | LastConnection
    | LastHookResponse | LastConnectionDuration | SensorType | VerizonSim

  /** Position of the field among Members. */
  function Index(f: Field): nat
  {
    match f
    case StructuresVersion => 1
    case VerboseMode => 2
    case SolarPowerMode => 3
    case LowPowerMode => 4
    case LowBatteryMode => 5
    case ResetCount => 6
    case TimeZoneStr => 7
    case OpenTime => 8
    case CloseTime => 9
    case LastReport => 10
    case LastConnection => 11
    case LastHookResponse => 12
    case LastConnectionDuration => 13
    case SensorType => 14
    case VerizonSim => 15
  }

  /** The accessor type of each field (its get_/set_ signature). */
  function KindOf(f: Field): Kind
  {
    match f
    case StructuresVersion => KU8
    case VerboseMode => KBool
    case SolarPowerMode => KBool
    case LowPowerMode => KBool
    case LowBatteryMode => KBool
    case ResetCount => KU8
    case TimeZoneStr => KString(39)
    case OpenTime => KU8
    case CloseTime => KU8
    case LastReport => KTime
    case LastConnection => KTime
    case LastHookResponse => KTime
    case LastConnectionDuration => KU16
    case SensorType => KU8
    case VerizonSim => KBool
  }

  /** offsetof(SysData, f) */
  function Offset(f: Field): nat
  {
    match f
    case StructuresVersion => 16
    case VerboseMode => 17
    case SolarPowerMode => 18
    case LowPowerMode => 19
    case LowBatteryMode => 20
    case ResetCount => 21
    case TimeZoneStr => 22
    case OpenTime => 61
    case CloseTime => 62
    case LastReport => 64
    case LastConnection => 72
    case LastHookResponse => 80
    case LastConnectionDuration => 88
    case SensorType => 90
    case VerizonSim => 91
  }

  /** The offsets the compiler gives the first members of SysData, up to
      the time-zone string. */
  lemma LeadingOffsets()
    ensures OffsetOf(Members, 0) == 0 && OffsetOf(Members, 1) == 16
    ensures OffsetOf(Members, 2) == 17 && OffsetOf(Members, 3) == 18
    ensures OffsetOf(Members, 4) == 19 && OffsetOf(Members, 5) == 20
    ensures OffsetOf(Members, 6) == 21 && OffsetOf(Members, 7) == 22
  {
    var M := Members;
    assert OffsetOf(M, 0) == 0;
    assert OffsetOf(M, 1) == 16;
    assert OffsetOf(M, 2) == 17;
    assert OffsetOf(M, 3) == 18;
    assert OffsetOf(M, 4) == 19;
    assert OffsetOf(M, 5) == 20;
    assert OffsetOf(M, 6) == 21;
  }

  /** The offsets the compiler gives the remaining members: openTime right
      after the string, then a padding byte before the 8-aligned time_t
      members. */
  lemma MemberOffsets()
    ensures OffsetOf(Members, 0) == 0 && OffsetOf(Members, 1) == 16
    ensures OffsetOf(Members, 2) == 17 && OffsetOf(Members, 3) == 18
    ensures OffsetOf(Members, 4) == 19 && OffsetOf(Members, 5) == 20
    ensures OffsetOf(Members, 6) == 21 && OffsetOf(Members, 7) == 22
    ensures OffsetOf(Members, 8) == 61 && OffsetOf(Members, 9) == 62
    ensures OffsetOf(Members, 10) == 64 && OffsetOf(Members, 11) == 72
    ensures OffsetOf(Members, 12) == 80 && OffsetOf(Members, 13) == 88
    ensures OffsetOf(Members, 14) == 90 && OffsetOf(Members, 15) == 91
  {
    var M := Members;
    LeadingOffsets();
    assert OffsetOf(M, 8) == 61;
    assert OffsetOf(M, 9) == 62;
    assert OffsetOf(M, 10) == 64;
    assert OffsetOf(M, 11) == 72;
    assert OffsetOf(M, 12) == 80;
    assert OffsetOf(M, 13) == 88;
    assert OffsetOf(M, 14) == 90;
  }

  /** sizeof(SysData) is 96: the members end at 92 and the time_t members
      align the struct to 8. */
  lemma StructSize()
    ensures SizeOfStruct(Members) == SIZE
  {
    var M := Members;
    MemberOffsets();
    assert End(M) == 92;
    assert MaxAlign(M, 5) == 4;
    assert MaxAlign(M, 10) == 4;
    assert MaxAlign(M, 11) == 8;
    assert MaxAlign(M, 16) == 8;
  }

  /** The offsets above are the ones the compiler computes for SysData, and
      each accessor's type has the width of its member. */
  lemma LayoutIsCLayout(f: Field)
    ensures Index(f) < |Members|
    ensures Offset(f) == OffsetOf(Members, Index(f))
    ensures Width(KindOf(f)) == SizeOf(Members[Index(f)])
  {
    MemberOffsets();
  }

  /** The record begins with the 16-byte header and every field lies after it. */
  lemma HeaderComesFirst(f: Field)
    ensures Members[0] == Header && OffsetOf(Members, 0) == 0
    ensures Offset(f) >= HEADER_SIZE && Offset(f) + Width(KindOf(f)) <= SIZE
  {
    LayoutIsCLayout(f);
    StructSize();
    HeaderFirst(Members, Index(f));
    SizeCoversMember(Members, Index(f));
  }

  /** Distinct fields occupy disjoint bytes. */
  lemma FieldsDisjoint(f: Field, g: Field)
    requires f != g
    ensures Offset(f) + Width(KindOf(f)) <= Offset(g) || Offset(g) + Width(KindOf(g)) <= Offset(f)
  {
    LayoutIsCLayout(f);
    LayoutIsCLayout(g);
    if Index(f) < Index(g) {
      MembersDisjoint(Members, Index(f), Index(g));
    } else {
      MembersDisjoint(Members, Index(g), Index(f));
    }
  }

  /** get_f() on the struct image. */
  function Read(img: seq<byte>, f: Field): (v: Value)
    requires |img| == SIZE
    ensures Fits(KindOf(f), v)
  {
    ReadAt(img, Offset(f), KindOf(f))
  }

  /** The struct image after set_f(v). */
  function Write(img: seq<byte>, f: Field, v: Value): (r: seq<byte>)
    requires |img| == SIZE && Fits(KindOf(f), v)
    ensures |r| == SIZE
  {
    WriteAt(img, Offset(f), KindOf(f), v)
  }

  /** set_f(v) then get_f() returns v (a time-zone string cut to 38
      characters), and every other getter returns what it did before. */
  lemma ReadAfterSet(img: seq<byte>, f: Field, v: Value, g: Field)
    requires |img| == SIZE && Fits(KindOf(f), v)
    ensures Read(Write(img, f, v), g) == if g == f then Stored(KindOf(f), v) else Read(img, g)
  {
    if g == f {
      ReadAfterWrite(img, Offset(f), KindOf(f), v);
    } else {
      FieldsDisjoint(f, g);
      ReadAfterOtherWrite(img, Offset(f), KindOf(f), v, Offset(g), KindOf(g));
    }
  }

  /** A setter leaves the header (magic, version, size and hash) alone. */
  lemma SetKeepsHeader(img: seq<byte>, f: Field, v: Value)
    requires |img| == SIZE && Fits(KindOf(f), v)
    ensures Write(img, f, v)[..HEADER_SIZE] == img[..HEADER_SIZE]
  {
    HeaderComesFirst(f);
  }

  /** The record as its getters present it. */
  datatype SysData = SysData(
    structuresVersion: u8,
    verboseMode: bool,
    solarPowerMode: bool,
    lowPowerMode: bool,
    lowBatteryMode: bool,
    resetCount: u8,
    timeZoneStr: seq<byte>,
    openTime: u8,
    closeTime: u8,
    lastReport: i64,
    lastConnection: i64,
    lastHookResponse: i64,
    lastConnectionDuration: u16,
    sensorType: u8,
    verizonSim: bool)

  /** What get_f() returns on a record whose getters present d. */
  function FieldOf(d: SysData, f: Field): (v: Value)
  {
    match f
    case StructuresVersion => Num(d.structuresVersion)
    case VerboseMode => Flag(d.verboseMode)
    case SolarPowerMode => Flag(d.solarPowerMode)
    case LowPowerMode => Flag(d.lowPowerMode)
    case LowBatteryMode => Flag(d.lowBatteryMode)
    case ResetCount => Num(d.resetCount)
    case TimeZoneStr => Text(d.timeZoneStr)
    case OpenTime => Num(d.openTime)
    case CloseTime => Num(d.closeTime)
    case LastReport => Num(d.lastReport)
    case LastConnection => Num(d.lastConnection)
    case LastHookResponse => Num(d.lastHookResponse)
    case LastConnectionDuration => Num(d.lastConnectionDuration)
    case SensorType => Num(d.sensorType)
    case VerizonSim => Flag(d.verizonSim)
  }

  /** d with field f replaced by v. */
  function With(d: SysData, f: Field, v: Value): (r: SysData)
    requires Fits(KindOf(f), v)
  {
    match f
    case StructuresVersion => d.(structuresVersion := v.n)
    case VerboseMode => d.(verboseMode := v.b)
    case SolarPowerMode => d.(solarPowerMode := v.b)
    case LowPowerMode => d.(lowPowerMode := v.b)
    case LowBatteryMode => d.(lowBatteryMode := v.b)
    case ResetCount => d.(resetCount := v.n)
    case TimeZoneStr => d.(timeZoneStr := v.s)
    case OpenTime => d.(openTime := v.n)
    case CloseTime => d.(closeTime := v.n)
    case LastReport => d.(lastReport := v.n)
    case LastConnection => d.(lastConnection := v.n)
    case LastHookResponse => d.(lastHookResponse := v.n)
    case LastConnectionDuration => d.(lastConnectionDuration := v.n)
    case SensorType => d.(sensorType := v.n)
    case VerizonSim => d.(verizonSim := v.b)
  }

  /** get_f() for the members of each C type, as the C type. */
  function ReadU8(img: seq<byte>, f: Field): (n: u8)
    requires |img| == SIZE && KindOf(f) == KU8
    ensures Read(img, f) == Num(n)
  {
    Read(img, f).n
  }

  function ReadU16(img: seq<byte>, f: Field): (n: u16)
    requires |img| == SIZE && KindOf(f) == KU16
    ensures Read(img, f) == Num(n)
  {
    Read(img, f).n
  }

  function ReadTime(img: seq<byte>, f: Field): (t: i64)
    requires |img| == SIZE && KindOf(f) == KTime
    ensures Read(img, f) == Num(t)
  {
    Read(img, f).n
  }

  function ReadBool(img: seq<byte>, f: Field): (b: bool)
    requires |img| == SIZE && KindOf(f) == KBool
    ensures Read(img, f) == Flag(b)
  {
    Read(img, f).b
  }

  /** Replacing a field changes that field and no other. */
  lemma WithChangesOnly(d: SysData, f: Field, v: Value, g: Field)
    requires Fits(KindOf(f), v)
    ensures FieldOf(With(d, f, v), g) == if g == f then v else FieldOf(d, g)
  {
  }

  /** The getters' view of a struct image. */
  function ViewOf(img: seq<byte>): (d: SysData)
    requires |img| == SIZE
  {
    SysData(
      ReadU8(img, StructuresVersion), ReadBool(img, VerboseMode), ReadBool(img, SolarPowerMode),
      ReadBool(img, LowPowerMode), ReadBool(img, LowBatteryMode), ReadU8(img, ResetCount),
      Read(img, TimeZoneStr).s, ReadU8(img, OpenTime), ReadU8(img, CloseTime),
      ReadTime(img, LastReport), ReadTime(img, LastConnection), ReadTime(img, LastHookResponse),
      ReadU16(img, LastConnectionDuration), ReadU8(img, SensorType), ReadBool(img, VerizonSim))
  }

  /** The view presents exactly what the getters return. */
  lemma ViewMatchesGetters(img: seq<byte>, f: Field)
    requires |img| == SIZE
    ensures FieldOf(ViewOf(img), f) == Read(img, f)
  {
  }

  /** Two views that agree on every getter are the same view. */
  lemma ViewsEqual(d: SysData, e: SysData)
    requires forall f :: FieldOf(d, f) == FieldOf(e, f)
    ensures d == e
  {
    assert FieldOf(d, StructuresVersion) == FieldOf(e, StructuresVersion);
    assert FieldOf(d, VerboseMode) == FieldOf(e, VerboseMode);
    assert FieldOf(d, SolarPowerMode) == FieldOf(e, SolarPowerMode);
    assert FieldOf(d, LowPowerMode) == FieldOf(e, LowPowerMode);
    assert FieldOf(d, LowBatteryMode) == FieldOf(e, LowBatteryMode);
    assert FieldOf(d, ResetCount) == FieldOf(e, ResetCount);
    assert FieldOf(d, TimeZoneStr) == FieldOf(e, TimeZoneStr);
    assert FieldOf(d, OpenTime) == FieldOf(e, OpenTime);
    assert FieldOf(d, CloseTime) == FieldOf(e, CloseTime);
    assert FieldOf(d, LastReport) == FieldOf(e, LastReport);
    assert FieldOf(d, LastConnection) == FieldOf(e, LastConnection);
    assert FieldOf(d, LastHookResponse) == FieldOf(e, LastHookResponse);
    assert FieldOf(d, LastConnectionDuration) == FieldOf(e, LastConnectionDuration);
    assert FieldOf(d, SensorType) == FieldOf(e, SensorType);
    assert FieldOf(d, VerizonSim) == FieldOf(e, VerizonSim);
  }

  /** sysStatusData::validate: the library's header check, then the domain
      checks on the opening hour and the last connection. */
  function Validate(img: seq<byte>, hashOk: bool): (valid: bool)
    requires |img| == SIZE
  {
    var valid := BaseValid(img, SYS_DATA_MAGIC, SYS_DATA_VERSION, hashOk);
    if !valid then false
    else
      var d := ViewOf(img);
      if d.openTime < 0 || d.openTime > 12 then false
      else if d.lastConnection < 0 || d.lastConnectionDuration > 900 then false
      else true
  }

  /** The domain checks of validate, on the view. */
  predicate InDomain(d: SysData)
  {
    d.openTime <= 12 && d.lastConnection >= 0 && d.lastConnectionDuration <= 900
  }

  /** validate fails when the header check fails, and otherwise fails
      exactly when the opening hour is after 12, the last connection time is
      negative or the last connection took more than 900 s. */
  lemma ValidateIff(img: seq<byte>, hashOk: bool)
    requires |img| == SIZE
    ensures Validate(img, hashOk) <==>
      BaseValid(img, SYS_DATA_MAGIC, SYS_DATA_VERSION, hashOk) && InDomain(ViewOf(img))
  {
  }

  /** "ANAT-12", the time zone initialize writes. */
  function DefaultTimeZone(): (s: seq<byte>)
    ensures |s| == 7 && 0 !in s
  {
    Ascii("ANAT-12")
  }

  /** The factory settings: what initialize's setters change. Every other
      member (reset count, report, connection and webhook times, SIM flag)
      keeps the value it had. */
  function Defaults(d: SysData): (r: SysData)
  {
    d.(structuresVersion := 1, verboseMode := false, lowBatteryMode := false,
       solarPowerMode := true, lowPowerMode := false, timeZoneStr := DefaultTimeZone(),
       sensorType := 1, openTime := 0, closeTime := 24, lastConnectionDuration := 0)
  }

  /** The factory settings pass the domain checks exactly when the one
      checked member they do not set, the last connection time, is not
      negative. */
  lemma DefaultsValidIff(d: SysData)
    ensures InDomain(Defaults(d)) <==> d.lastConnection >= 0
  {
  }

  /** Applying the factory settings twice gives the same record as once. */
  lemma DefaultsIdempotent(d: SysData)
    ensures Defaults(Defaults(d)) == Defaults(d)
  {
  }

  /** Every member is zero: the struct as the library's initialize leaves it
      after writing the header. */
  predicate ZeroBody(img: seq<byte>)
  {
    |img| == SIZE && forall i :: HEADER_SIZE <= i < SIZE ==> img[i] == 0
  }

  /** Every getter of a zeroed struct returns zero, false or "". */
  lemma ReadZeroBody(img: seq<byte>, f: Field)
    requires ZeroBody(img)
    ensures Read(img, f) == Zero(KindOf(f))
  {
    HeaderComesFirst(f);
    var w := Width(KindOf(f));
    var o := Offset(f);
    var member := img[o..o + w];
    forall i | 0 <= i < w ensures member[i] == 0 {
      assert member[i] == img[o + i];
    }
    assert member == Zeros(w);
    DecodeZeros(KindOf(f));
  }

  /** The view of a record with every member zero. */
  function ZeroView(): SysData
  {
    SysData(0, false, false, false, false, 0, [], 0, 0, 0, 0, 0, 0, 0, false)
  }

  lemma ZeroViewFields(f: Field)
    ensures FieldOf(ZeroView(), f) == Zero(KindOf(f))
  {
  }

  /** d is what every getter of the struct img returns. */
  predicate Presents(img: seq<byte>, d: SysData)
  {
    |img| == SIZE && forall f :: Read(img, f) == FieldOf(d, f)
  }

  /** The getters present exactly one view of a struct: ViewOf. */
  lemma PresentsIff(img: seq<byte>, d: SysData)
    requires |img| == SIZE
    ensures Presents(img, d) <==> d == ViewOf(img)
  {
    forall f ensures FieldOf(ViewOf(img), f) == Read(img, f) {
      ViewMatchesGetters(img, f);
    }
    if Presents(img, d) {
      ViewsEqual(ViewOf(img), d);
    }
  }

  /** A zeroed struct presents the zero view. */
  lemma ZeroBodyPresents(img: seq<byte>)
    requires ZeroBody(img)
    ensures Presents(img, ZeroView())
  {
    forall f ensures Read(img, f) == FieldOf(ZeroView(), f) {
      ReadZeroBody(img, f);
      ZeroViewFields(f);
    }
  }

  /** A setter changes what the getters present in its own field and no other. */
  lemma PresentsAfterSet(img: seq<byte>, d: SysData, f: Field, v: Value)
    requires Presents(img, d) && Fits(KindOf(f), v)
    ensures Presents(Write(img, f, v), With(d, f, Stored(KindOf(f), v)))
  {
    forall g ensures Read(Write(img, f, v), g) == FieldOf(With(d, f, Stored(KindOf(f), v)), g) {
      ReadAfterSet(img, f, v, g);
      WithChangesOnly(d, f, Stored(KindOf(f), v), g);
    }
  }

  /** What sysStatusData::initialize leaves, as its getters present it: the
      factory settings over a cleared record. */
  function Initialized(): SysData
  {
    Defaults(ZeroView())
  }

  /** The record initialize leaves always validates (given an intact hash). */
  lemma InitializedValid()
    ensures InDomain(Initialized())
  {
    DefaultsValidIff(ZeroView());
  }

  /** The record object: the library's PersistentDataFile over a SysData
      struct. `view` is what its getters return. */
  class SysStatusData {
    const file: PersistentDataFile
    ghost var view: SysData

    ghost predicate Valid()
      reads this, file, file.data
    {
      file.Valid() && file.data.Length == SIZE &&
      file.magic == SYS_DATA_MAGIC && file.version == SYS_DATA_VERSION &&
      Presents(file.Image(), view)
    }

    constructor ()
      ensures Valid() && fresh(file) && fresh(file.data)
      ensures view == ZeroView() && !file.dirty && file.writes == 0
    {
      file := new PersistentDataFile(SIZE, SYS_DATA_MAGIC, SYS_DATA_VERSION);
      view := ZeroView();
      new;
      ZeroBodyPresents(file.Image());
    }

    /** get_f() */
    function Get(f: Field): (v: Value)
      reads this, file, file.data
      requires Valid()
      ensures v == FieldOf(view, f) && Fits(KindOf(f), v)
    {
      Read(file.Image(), f)
    }

    /** set_f(v): the field takes v (a string cut to 38 characters), the
        rest of the record is unchanged, and the save-delay timer restarts. */
    method Set(f: Field, v: Value, now: u32)
      requires Valid() && Fits(KindOf(f), v)
      modifies this, file, file.data
      ensures Valid()
      ensures file.Image()[..HEADER_SIZE] == old(file.Image())[..HEADER_SIZE]
      ensures view == With(old(view), f, Stored(KindOf(f), v))
      ensures Touched(file, now)
    {
      HeaderComesFirst(f);
      PresentsAfterSet(file.Image(), view, f, v);
      SetKeepsHeader(file.Image(), f, v);
      file.SetValue(Offset(f), Encode(KindOf(f), v), now);
      view := With(view, f, Stored(KindOf(f), v));
    }

    /** validate(dataSize) */
    function IsValid(hashOk: bool): (valid: bool)
      reads this, file, file.data
      requires Valid()
      ensures valid <==> BaseValid(file.Image(), SYS_DATA_MAGIC, SYS_DATA_VERSION, hashOk) && InDomain(view)
    {
      PresentsIff(file.Image(), view);
      ValidateIff(file.Image(), hashOk);
      Validate(file.Image(), hashOk)
    }

    /** initialize(): the library's initialize, then the factory settings. */
    method Initialize(now: u32)
      requires Valid()
      modifies this, file, file.data
      ensures Valid() && view == Initialized()
      ensures BaseValid(file.Image(), SYS_DATA_MAGIC, SYS_DATA_VERSION, true)
      ensures Touched(file, now)
    {
      file.BaseInitialize();
      ghost var img0 := file.Image();
      ZeroBodyPresents(file.Image());
      view := ZeroView();
      InstallModes(now);
      InstallSettings(now);
      BaseValidOfHeader(file.Image(), img0, SYS_DATA_MAGIC, SYS_DATA_VERSION, true);
    }

    /** The first five setters initialize calls: format version and modes. */
    method InstallModes(now: u32)
      requires Valid()
      modifies this, file, file.data
      ensures Valid()
      ensures view == old(view).(structuresVersion := 1, verboseMode := false,
                lowBatteryMode := false, solarPowerMode := true, lowPowerMode := false)
      ensures file.Image()[..HEADER_SIZE] == old(file.Image())[..HEADER_SIZE]
      ensures Touched(file, now)
    {
      Set(StructuresVersion, Num(1), now);
      Set(VerboseMode, Flag(false), now);
      Set(LowBatteryMode, Flag(false), now);
      Set(SolarPowerMode, Flag(true), now);
      Set(LowPowerMode, Flag(false), now);
    }

    /** The last five setters initialize calls: time zone, sensor, hours. */
    method InstallSettings(now: u32)
      requires Valid()
      modifies this, file, file.data
      ensures Valid()
      ensures view == old(view).(timeZoneStr := DefaultTimeZone(), sensorType := 1,
                openTime := 0, closeTime := 24, lastConnectionDuration := 0)
      ensures file.Image()[..HEADER_SIZE] == old(file.Image())[..HEADER_SIZE]
      ensures Touched(file, now)
    {
      var zone := DefaultTimeZone();
      Set(TimeZoneStr, Text(zone), now);
      Set(SensorType, Num(1), now);
      Set(OpenTime, Num(0), now);
      Set(CloseTime, Num(24), now);
      Set(LastConnectionDuration, Num(0), now);
    }

    /** setup(): withSaveDelayMs(100), then load: the file is read into the
        struct and, when it does not validate, the record is initialized and
        saved at once. */
    method Setup(stored: seq<byte>, hashOk: bool, now: u32)
      requires Valid()
      modifies this, file, file.data
      ensures Valid() && file.saveDelayMs == SAVE_DELAY_MS && !file.dirty
      ensures Validate(Loaded(stored, SIZE), hashOk) ==>
                file.Image() == Loaded(stored, SIZE) && view == ViewOf(Loaded(stored, SIZE)) &&
                file.contents == stored && file.writes == old(file.writes)
      ensures !Validate(Loaded(stored, SIZE), hashOk) ==>
                view == Initialized() && BaseValid(file.Image(), SYS_DATA_MAGIC, SYS_DATA_VERSION, true) &&
                file.contents == file.Image() && file.writes == old(file.writes) + 1
      ensures InDomain(view)
    {
      file.WithSaveDelayMs(SAVE_DELAY_MS);
      file.Restore(stored);
      view := ViewOf(file.Image());
      PresentsIff(file.Image(), view);
      var valid := IsValid(hashOk);
      ValidateIff(file.Image(), hashOk);
      if !valid {
        Initialize(now);
        InitializedValid();
        file.Save();
      }
    }

    /** loop(): flush(false). */
    method Loop(now: u32)
      requires Valid()
      modifies file
      ensures Valid() && file.Image() == old(file.Image())
      ensures Flushed(file, now)
    {
      file.Flush(false, now);
    }
  }
}
