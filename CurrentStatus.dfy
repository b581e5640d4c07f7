/** The current-data record (`currentStatusData`): the latest measurements
    and alert, a 64-byte struct kept in the file /usr/current.dat and written
    back 250 ms after the last change. */
module CurrentStatus {
  import opened Bytes
  import opened Layout
  import opened Access
  import opened StorageHelper
  import SysStatus

  const CURRENT_DATA_MAGIC: u32 := 0x20a99e74
  const CURRENT_DATA_VERSION: u16 := 2
  /** withSaveDelayMs(250) in setup. */
  const SAVE_DELAY_MS: nat := 250
  /** The largest distance, in cm, validate accepts. */
  const MAX_DISTANCE: nat := 1024

  /** The members of CurrentData in declaration order, header first. */
  const Members: seq<CType> := [Header, U16, TimeT, Float, Float, U8, TimeT, Float, U8]

  /** sizeof(CurrentData) */
  const SIZE: nat := 64

  datatype Field =
    | Distance | LastCountTime | InternalTempC | ExternalTempC | AlertCode
    | LastAlertTime | StateOfCharge | BatteryState

  /** Position of the field among Members. */
  function Index(f: Field): nat
  {
    match f
    case Distance => 1
    case LastCountTime => 2
    case InternalTempC => 3
    case ExternalTempC => 4
    case AlertCode => 5
    case LastAlertTime => 6
    case StateOfCharge => 7
    case BatteryState => 8
  }

  /** The accessor type of each field. The alert code is an unsigned byte in
      the struct but its getter and setter take int8_t; float members are
      carried as their bit patterns. */
  function KindOf(f: Field): Kind
  {
    match f
    case Distance => KU16
    case LastCountTime => KTime
    case InternalTempC => KFloatBits
    case ExternalTempC => KFloatBits
    case AlertCode => KI8
    case LastAlertTime => KTime
    case StateOfCharge => KFloatBits
    case BatteryState => KU8
  }

  /** offsetof(CurrentData, f) */
  function Offset(f: Field): nat
  {
    match f
    case Distance => 16
    case LastCountTime => 24
    case InternalTempC => 32
    case ExternalTempC => 36
    case AlertCode => 40
    case LastAlertTime => 48
    case StateOfCharge => 56
    case BatteryState => 60
  }

  /** The offsets the compiler gives the members of CurrentData: padding
      before each 8-aligned time_t. */
  lemma MemberOffsets()
    ensures OffsetOf(Members, 0) == 0 && OffsetOf(Members, 1) == 16
    ensures OffsetOf(Members, 2) == 24 && OffsetOf(Members, 3) == 32
    ensures OffsetOf(Members, 4) == 36 && OffsetOf(Members, 5) == 40
    ensures OffsetOf(Members, 6) == 48 && OffsetOf(Members, 7) == 56
    ensures OffsetOf(Members, 8) == 60
  {
    var M := Members;
    assert OffsetOf(M, 0) == 0;
    assert OffsetOf(M, 1) == 16;
    assert OffsetOf(M, 2) == 24;
    assert OffsetOf(M, 3) == 32;
    assert OffsetOf(M, 4) == 36;
    assert OffsetOf(M, 5) == 40;
    assert OffsetOf(M, 6) == 48;
    assert OffsetOf(M, 7) == 56;
  }

  /** sizeof(CurrentData) is 64: the members end at 61 and the time_t
      members align the struct to 8. */
  lemma StructSize()
    ensures SizeOfStruct(Members) == SIZE
  {
    var M := Members;
    MemberOffsets();
    assert End(M) == 61;
    assert MaxAlign(M, 2) == 4;
    assert MaxAlign(M, 3) == 8;
    assert MaxAlign(M, 9) == 8;
  }

  /** The offsets above are the ones the compiler computes for CurrentData,
      and each accessor's type has the width of its member. */
  lemma LayoutIsCLayout(f: Field)
    ensures Index(f) < |Members|
    ensures Offset(f) == OffsetOf(Members, Index(f))
    ensures Width(KindOf(f)) == SizeOf(Members[Index(f)])
  {
    MemberOffsets();
  }

  /** The record begins with the 16-byte header and every field lies after it. */
  lemma HeaderComesFirst(f: Field)
    ensures Members[0] == Header && OffsetOf(Members, 0) == 0
    ensures Offset(f) >= HEADER_SIZE && Offset(f) + Width(KindOf(f)) <= SIZE
  {
    LayoutIsCLayout(f);
    StructSize();
    HeaderFirst(Members, Index(f));
    SizeCoversMember(Members, Index(f));
  }

  /** Distinct fields occupy disjoint bytes. */
  lemma FieldsDisjoint(f: Field, g: Field)
    requires f != g
    ensures Offset(f) + Width(KindOf(f)) <= Offset(g) || Offset(g) + Width(KindOf(g)) <= Offset(f)
  {
    LayoutIsCLayout(f);
    LayoutIsCLayout(g);
    if Index(f) < Index(g) {
      MembersDisjoint(Members, Index(f), Index(g));
    } else {
      MembersDisjoint(Members, Index(g), Index(f));
    }
  }

  /** get_f() on the struct image. */
  function Read(img: seq<byte>, f: Field): (v: Value)
    requires |img| == SIZE
    ensures Fits(KindOf(f), v)
  {
    ReadAt(img, Offset(f), KindOf(f))
  }

  /** The struct image after set_f(v). */
  function Write(img: seq<byte>, f: Field, v: Value): (r: seq<byte>)
    requires |img| == SIZE && Fits(KindOf(f), v)
    ensures |r| == SIZE
  {
    WriteAt(img, Offset(f), KindOf(f), v)
  }

  /** set_f(v) then get_f() returns v, and every other getter returns what
      it did before. */
  lemma ReadAfterSet(img: seq<byte>, f: Field, v: Value, g: Field)
    requires |img| == SIZE && Fits(KindOf(f), v)
    ensures Read(Write(img, f, v), g) == if g == f then v else Read(img, g)
  {
    HeaderComesFirst(f);
    HeaderComesFirst(g);
    if g == f {
      ReadAfterWrite(img, Offset(f), KindOf(f), v);
    } else {
      FieldsDisjoint(f, g);
      ReadAfterOtherWrite(img, Offset(f), KindOf(f), v, Offset(g), KindOf(g));
    }
  }

  /** A setter leaves the header (magic, version, size and hash) alone. */
  lemma SetKeepsHeader(img: seq<byte>, f: Field, v: Value)
    requires |img| == SIZE && Fits(KindOf(f), v)
    ensures Write(img, f, v)[..HEADER_SIZE] == img[..HEADER_SIZE]
  {
    HeaderComesFirst(f);
  }

  /** get_lastAlertTime() as written: it reads an int8_t at the offset of the
      time_t member, that is, the low byte of the stored time taken as a
      signed number. */
  function LastAlertTimeAsWritten(img: seq<byte>): (t: i8)
    requires |img| == SIZE
  {
    HeaderComesFirst(LastAlertTime);
    ReadAt(img, Offset(LastAlertTime), KI8).n
  }

  /** After set_lastAlertTime(t), the getter as written returns the low byte
      of t's two's-complement pattern read as a signed byte, so it returns t
      only for -128 <= t < 128. */
  lemma {:induction false} LastAlertTimeAsWrittenReadsLowByte(img: seq<byte>, t: i64)
    requires |img| == SIZE
    ensures LastAlertTimeAsWritten(Write(img, LastAlertTime, Num(t))) ==
              FromTwos(ToTwos(t, 8) % 0x100, 1)
    ensures LastAlertTimeAsWritten(Write(img, LastAlertTime, Num(t))) == t <==> -0x80 <= t < 0x80
  {
    HeaderComesFirst(LastAlertTime);
    var o := Offset(LastAlertTime);
    var bs := Encode(KTime, Num(t));
    var img' := Write(img, LastAlertTime, Num(t));
    assert img'[o..o + 8] == bs;
    assert img'[o..o + 1] == [bs[0]];
    assert bs[0] == ToTwos(t, 8) % 0x100;
    if -0x80 <= t < 0x80 {
      if t < 0 {
        assert ToTwos(t, 8) % 0x100 == t + 0x100;
      }
    } else {
      assert -0x80 <= FromTwos(ToTwos(t, 8) % 0x100, 1) < 0x80;
    }
  }

  /** A time stored in 2023 (1700000000 s after the epoch) reads back as 0
      through the getter as written. */
  lemma LastAlertTimeAsWrittenLosesTime(img: seq<byte>)
    requires |img| == SIZE
    ensures LastAlertTimeAsWritten(Write(img, LastAlertTime, Num(1700000000))) == 0
    ensures Read(Write(img, LastAlertTime, Num(1700000000)), LastAlertTime) == Num(1700000000)
  {
    LastAlertTimeAsWrittenReadsLowByte(img, 1700000000);
    assert ToTwos(1700000000, 8) == 1700000000;
    assert 1700000000 % 0x100 == 0;
    assert FromTwos(0, 1) == 0;
    ReadAfterSet(img, LastAlertTime, Num(1700000000), LastAlertTime);
  }

  /** The record as its getters present it, the alert time read as the
      time_t it is stored as. */
  datatype CurrentData = CurrentData(
    distance: u16,
    lastCountTime: i64,
    internalTempC: u32,
    externalTempC: u32,
    alertCode: i8,
    lastAlertTime: i64,
    stateOfCharge: u32,
    batteryState: u8)

  /** What get_f() returns on a record whose getters present d. */
  function FieldOf(d: CurrentData, f: Field): (v: Value)
  {
    match f
    case Distance => Num(d.distance)
    case LastCountTime => Num(d.lastCountTime)
    case InternalTempC => Num(d.internalTempC)
    case ExternalTempC => Num(d.externalTempC)
    case AlertCode => Num(d.alertCode)
    case LastAlertTime => Num(d.lastAlertTime)
    case StateOfCharge => Num(d.stateOfCharge)
    case BatteryState => Num(d.batteryState)
  }

  /** d with field f replaced by v. */
  function With(d: CurrentData, f: Field, v: Value): (r: CurrentData)
    requires Fits(KindOf(f), v)
  {
    match f
    case Distance => d.(distance := v.n)
    case LastCountTime => d.(lastCountTime := v.n)
    case InternalTempC => d.(internalTempC := v.n)
    case ExternalTempC => d.(externalTempC := v.n)
    case AlertCode => d.(alertCode := v.n)
    case LastAlertTime => d.(lastAlertTime := v.n)
    case StateOfCharge => d.(stateOfCharge := v.n)
    case BatteryState => d.(batteryState := v.n)
  }

  /** Replacing a field changes that field and no other. */
  lemma WithChangesOnly(d: CurrentData, f: Field, v: Value, g: Field)
    requires Fits(KindOf(f), v)
    ensures FieldOf(With(d, f, v), g) == if g == f then v else FieldOf(d, g)
  {
  }

  /** get_f() for the members of each C type, as the C type. */
  function ReadU8(img: seq<byte>, f: Field): (n: u8)
    requires |img| == SIZE && KindOf(f) == KU8
    ensures Read(img, f) == Num(n)
  {
    Read(img, f).n
  }

  function ReadI8(img: seq<byte>, f: Field): (n: i8)
    requires |img| == SIZE && KindOf(f) == KI8
    ensures Read(img, f) == Num(n)
  {
    Read(img, f).n
  }

  function ReadU16(img: seq<byte>, f: Field): (n: u16)
    requires |img| == SIZE && KindOf(f) == KU16
    ensures Read(img, f) == Num(n)
  {
    Read(img, f).n
  }

  function ReadBits(img: seq<byte>, f: Field): (n: u32)
    requires |img| == SIZE && KindOf(f) == KFloatBits
    ensures Read(img, f) == Num(n)
  {
    Read(img, f).n
  }

  function ReadTime(img: seq<byte>, f: Field): (t: i64)
    requires |img| == SIZE && KindOf(f) == KTime
    ensures Read(img, f) == Num(t)
  {
    Read(img, f).n
  }

  /** The getters' view of a struct image. */
  function ViewOf(img: seq<byte>): (d: CurrentData)
    requires |img| == SIZE
  {
    CurrentData(
      ReadU16(img, Distance), ReadTime(img, LastCountTime), ReadBits(img, InternalTempC),
      ReadBits(img, ExternalTempC), ReadI8(img, AlertCode), ReadTime(img, LastAlertTime),
      ReadBits(img, StateOfCharge), ReadU8(img, BatteryState))
  }

  /** The view presents exactly what the getters return. */
  lemma ViewMatchesGetters(img: seq<byte>, f: Field)
    requires |img| == SIZE
    ensures FieldOf(ViewOf(img), f) == Read(img, f)
  {
  }

  /** d is what every getter of the struct img returns. */
  predicate Presents(img: seq<byte>, d: CurrentData)
  {
    |img| == SIZE && forall f :: Read(img, f) == FieldOf(d, f)
  }

  /** Two views that agree on every getter are the same view. */
  lemma ViewsEqual(d: CurrentData, e: CurrentData)
    requires forall f :: FieldOf(d, f) == FieldOf(e, f)
    ensures d == e
  {
    assert FieldOf(d, Distance) == FieldOf(e, Distance);
    assert FieldOf(d, LastCountTime) == FieldOf(e, LastCountTime);
    assert FieldOf(d, InternalTempC) == FieldOf(e, InternalTempC);
    assert FieldOf(d, ExternalTempC) == FieldOf(e, ExternalTempC);
    assert FieldOf(d, AlertCode) == FieldOf(e, AlertCode);
    assert FieldOf(d, LastAlertTime) == FieldOf(e, LastAlertTime);
    assert FieldOf(d, StateOfCharge) == FieldOf(e, StateOfCharge);
    assert FieldOf(d, BatteryState) == FieldOf(e, BatteryState);
  }

  /** The getters present exactly one view of a struct: ViewOf. */
  lemma PresentsIff(img: seq<byte>, d: CurrentData)
    requires |img| == SIZE
    ensures Presents(img, d) <==> d == ViewOf(img)
  {
    forall f ensures FieldOf(ViewOf(img), f) == Read(img, f) {
      ViewMatchesGetters(img, f);
    }
    if Presents(img, d) {
      ViewsEqual(ViewOf(img), d);
    }
  }

  /** A setter changes what the getters present in its own field and no other. */
  lemma PresentsAfterSet(img: seq<byte>, d: CurrentData, f: Field, v: Value)
    requires Presents(img, d) && Fits(KindOf(f), v)
    ensures Presents(Write(img, f, v), With(d, f, v))
  {
    forall g ensures Read(Write(img, f, v), g) == FieldOf(With(d, f, v), g) {
      ReadAfterSet(img, f, v, g);
      WithChangesOnly(d, f, v, g);
    }
  }

  /** currentStatusData::validate: the library's header check, then the
      distance must be at most 1024 cm (a uint16_t is never negative). */
  function Validate(img: seq<byte>, hashOk: bool): (valid: bool)
    requires |img| == SIZE
  {
    var valid := BaseValid(img, CURRENT_DATA_MAGIC, CURRENT_DATA_VERSION, hashOk);
    if !valid then false
    else if ReadU16(img, Distance) < 0 || ReadU16(img, Distance) > 1024 then false
    else true
  }

  /** The domain check of validate, on the view. */
  predicate InDomain(d: CurrentData)
  {
    d.distance <= MAX_DISTANCE
  }

  /** validate fails when the header check fails, and otherwise fails
      exactly when the distance exceeds 1024 cm. */
  lemma ValidateIff(img: seq<byte>, hashOk: bool)
    requires |img| == SIZE
    ensures Validate(img, hashOk) <==>
      BaseValid(img, CURRENT_DATA_MAGIC, CURRENT_DATA_VERSION, hashOk) && InDomain(ViewOf(img))
  {
  }

  /** Every member is zero: the struct as the library's initialize leaves it
      after writing the header. */
  predicate ZeroBody(img: seq<byte>)
  {
    |img| == SIZE && forall i :: HEADER_SIZE <= i < SIZE ==> img[i] == 0
  }

  /** The view of a record with every member zero. */
  function ZeroView(): CurrentData
  {
    CurrentData(0, 0, 0, 0, 0, 0, 0, 0)
  }

  /** Every getter of a zeroed struct returns zero. */
  lemma ZeroBodyPresents(img: seq<byte>)
    requires ZeroBody(img)
    ensures Presents(img, ZeroView())
  {
    forall f ensures Read(img, f) == FieldOf(ZeroView(), f) {
      HeaderComesFirst(f);
      var w := Width(KindOf(f));
      var o := Offset(f);
      var member := img[o..o + w];
      forall i | 0 <= i < w ensures member[i] == 0 {
        assert member[i] == img[o + i];
      }
      assert member == Zeros(w);
      DecodeZeros(KindOf(f));
    }
  }

  /** What resetEverything does to a current record: the count restarts at
      the given time. */
  function CountRestarted(d: CurrentData, time: i32): (r: CurrentData)
    ensures r.lastCountTime == time
    ensures r == d.(lastCountTime := r.lastCountTime)
  {
    d.(lastCountTime := time)
  }

  /** What currentStatusData::initialize leaves: a cleared record whose
      count starts at the given time. */
  function Initialized(time: i32): (d: CurrentData)
    ensures InDomain(d)
    ensures d.lastCountTime == time
    ensures forall f :: f != LastCountTime ==> FieldOf(d, f) == FieldOf(ZeroView(), f)
  {
    CountRestarted(ZeroView(), time)
  }

  /** The two record objects own different structs, so a setter of one
      leaves the other alone. */
  predicate Separate(sys: SysStatus.SysStatusData, cur: CurrentStatusData)
  {
    sys.file != cur.file && sys.file.data != cur.file.data
  }

  /** The record object: the library's PersistentDataFile over a
      CurrentData struct. `view` is what its getters return. */
  class CurrentStatusData {
    const file: PersistentDataFile
    ghost var view: CurrentData

    ghost predicate Valid()
      reads this, file, file.data
    {
      file.Valid() && file.data.Length == SIZE &&
      file.magic == CURRENT_DATA_MAGIC && file.version == CURRENT_DATA_VERSION &&
      Presents(file.Image(), view)
    }

    constructor ()
      ensures Valid() && fresh(file) && fresh(file.data)
      ensures view == ZeroView() && !file.dirty && file.writes == 0
    {
      file := new PersistentDataFile(SIZE, CURRENT_DATA_MAGIC, CURRENT_DATA_VERSION);
      view := ZeroView();
      new;
      ZeroBodyPresents(file.Image());
    }

    /** get_f() */
    function Get(f: Field): (v: Value)
      reads this, file, file.data
      requires Valid()
      ensures v == FieldOf(view, f) && Fits(KindOf(f), v)
    {
      Read(file.Image(), f)
    }

    /** set_f(v): the field takes v, the rest of the record is unchanged,
        and the save-delay timer restarts. */
    method Set(f: Field, v: Value, now: u32)
      requires Valid() && Fits(KindOf(f), v)
      modifies this, file, file.data
      ensures Valid()
      ensures file.Image()[..HEADER_SIZE] == old(file.Image())[..HEADER_SIZE]
      ensures view == With(old(view), f, v)
      ensures Touched(file, now)
    {
      HeaderComesFirst(f);
      PresentsAfterSet(file.Image(), view, f, v);
      SetKeepsHeader(file.Image(), f, v);
      file.SetValue(Offset(f), Encode(KindOf(f), v), now);
      view := With(view, f, v);
    }

    /** validate(dataSize) */
    function IsValid(hashOk: bool): (valid: bool)
      reads this, file, file.data
      requires Valid()
      ensures valid <==> BaseValid(file.Image(), CURRENT_DATA_MAGIC, CURRENT_DATA_VERSION, hashOk) && InDomain(view)
    {
      PresentsIff(file.Image(), view);
      ValidateIff(file.Image(), hashOk);
      Validate(file.Image(), hashOk)
    }

    /** resetEverything(): the count restarts now, and the system record's
        reset count goes back to 0. */
    method ResetEverything(sys: SysStatus.SysStatusData, time: i32, now: u32)
      requires Valid() && sys.Valid()
      requires Separate(sys, this)
      modifies this, file, file.data, sys, sys.file, sys.file.data
      ensures Valid() && sys.Valid()
      ensures view == CountRestarted(old(view), time)
      ensures sys.view == old(sys.view).(resetCount := 0)
      ensures file.Image()[..HEADER_SIZE] == old(file.Image())[..HEADER_SIZE]
      ensures Touched(file, now) && Touched(sys.file, now)
    {
      Set(LastCountTime, Num(time), now);
      sys.Set(SysStatus.ResetCount, Num(0), now);
    }

    /** initialize(): the library's initialize, then resetEverything. */
    method Initialize(sys: SysStatus.SysStatusData, time: i32, now: u32)
      requires Valid() && sys.Valid()
      requires Separate(sys, this)
      modifies this, file, file.data, sys, sys.file, sys.file.data
      ensures Valid() && sys.Valid()
      ensures view == Initialized(time)
      ensures sys.view == old(sys.view).(resetCount := 0)
      ensures BaseValid(file.Image(), CURRENT_DATA_MAGIC, CURRENT_DATA_VERSION, true)
      ensures Touched(file, now) && Touched(sys.file, now)
    {
      file.BaseInitialize();
      ghost var img0 := file.Image();
      ZeroBodyPresents(file.Image());
      view := ZeroView();
      ResetEverything(sys, time, now);
      BaseValidOfHeader(file.Image(), img0, CURRENT_DATA_MAGIC, CURRENT_DATA_VERSION, true);
    }

    /** setup(): withSaveDelayMs(250), then load: the file is read into the
        struct and, when it does not validate, the record is initialized and
        saved at once (the change initialize makes to the system record is
        left to that record's own flush). */
    method Setup(stored: seq<byte>, hashOk: bool, sys: SysStatus.SysStatusData, time: i32, now: u32)
      requires Valid() && sys.Valid()
      requires Separate(sys, this)
      modifies this, file, file.data, sys, sys.file, sys.file.data
      ensures Valid() && sys.Valid() && file.saveDelayMs == SAVE_DELAY_MS && !file.dirty
      ensures Validate(Loaded(stored, SIZE), hashOk) ==>
                file.Image() == Loaded(stored, SIZE) && view == ViewOf(Loaded(stored, SIZE)) &&
                file.contents == stored && file.writes == old(file.writes) && sys.view == old(sys.view)
      ensures !Validate(Loaded(stored, SIZE), hashOk) ==>
                view == Initialized(time) && sys.view == old(sys.view).(resetCount := 0) &&
                BaseValid(file.Image(), CURRENT_DATA_MAGIC, CURRENT_DATA_VERSION, true) &&
                file.contents == file.Image() && file.writes == old(file.writes) + 1
      ensures Validate(Loaded(stored, SIZE), hashOk) ==> Untouched(sys.file)
      ensures !Validate(Loaded(stored, SIZE), hashOk) ==> Touched(sys.file, now)
      ensures InDomain(view)
    {
      file.WithSaveDelayMs(SAVE_DELAY_MS);
      file.Restore(stored);
      view := ViewOf(file.Image());
      PresentsIff(file.Image(), view);
      var valid := IsValid(hashOk);
      ValidateIff(file.Image(), hashOk);
      if !valid {
        Initialize(sys, time, now);
        file.Save();
      }
    }

    /** loop(): flush(false). */
    method Loop(now: u32)
      requires Valid()
      modifies file
      ensures Valid() && file.Image() == old(file.Image())
      ensures Flushed(file, now)
    {
      file.Flush(false, now);
    }
  }
}
