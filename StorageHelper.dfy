/** The part of the storage library the two records are built on: a record
    struct in RAM whose first 16 bytes are a header, a file it is loaded from
    and saved to, and the deferred save (a change marks the record dirty and
    restarts a save-delay timer; `flush` writes the file once the delay has
    passed). The library's source is not part of this model: its hash and
    size checks are represented by their outcome, `hashOk`, and its dirty
    and save-delay bookkeeping by the fields of `PersistentDataFile`. */
module StorageHelper {
  import opened Bytes
  import opened Access

  /** sizeof(SavedDataHeader): magic (uint32 at 0), version (uint16 at 4),
      size (uint16 at 6), hash (uint32 at 8), reserved (uint32 at 12). */
  const HEADER_SIZE: nat := 16

  function HeaderMagic(img: seq<byte>): nat
    requires |img| >= HEADER_SIZE
  {
    DecodeLE(img[0..4])
  }

  function HeaderVersion(img: seq<byte>): nat
    requires |img| >= HEADER_SIZE
  {
    DecodeLE(img[4..6])
  }

  function HeaderSize(img: seq<byte>): nat
    requires |img| >= HEADER_SIZE
  {
    DecodeLE(img[6..8])
  }

  /** The library's check of a loaded record: the header names this record
      type and format version, and the size and hash checks (not modelled)
      came out as `hashOk`. */
  predicate BaseValid(img: seq<byte>, magic: u32, version: u16, hashOk: bool)
  {
    |img| >= HEADER_SIZE && HeaderMagic(img) == magic && HeaderVersion(img) == version && hashOk
  }

  /** The library's check looks at the header bytes only (its hash check is
      the separate outcome hashOk). */
  lemma BaseValidOfHeader(img: seq<byte>, img': seq<byte>, magic: u32, version: u16, hashOk: bool)
    requires |img| >= HEADER_SIZE && |img'| >= HEADER_SIZE
    requires img[..HEADER_SIZE] == img'[..HEADER_SIZE]
    ensures BaseValid(img, magic, version, hashOk) <==> BaseValid(img', magic, version, hashOk)
  {
    assert img[0..4] == img[..HEADER_SIZE][0..4] == img'[..HEADER_SIZE][0..4] == img'[0..4];
    assert img[4..6] == img[..HEADER_SIZE][4..6] == img'[..HEADER_SIZE][4..6] == img'[4..6];
  }

  /** The record the library's initialize leaves: header naming the record,
      every member zero. */
  function BaseInitialized(size: nat, magic: u32, version: u16): (img: seq<byte>)
    requires HEADER_SIZE <= size < 0x1_0000
    ensures |img| == size && HeaderSize(img) == size
    ensures BaseValid(img, magic, version, true)
    ensures forall i :: HEADER_SIZE <= i < size ==> img[i] == 0
  {
    var img := EncodeLE(magic, 4) + EncodeLE(version, 2) + EncodeLE(size, 2) + Zeros(size - 8);
    assert img[0..4] == EncodeLE(magic, 4) && img[4..6] == EncodeLE(version, 2) && img[6..8] == EncodeLE(size, 2);
    DecodeEncodeLE(magic, 4);
    DecodeEncodeLE(version, 2);
    DecodeEncodeLE(size, 2);
    img
  }

  /** The struct after loading a file of the given contents into it: the
      struct cleared, then as many bytes as the file holds copied to its
      front. A file written by an older, shorter layout leaves the members
      appended since then zero. */
  function Loaded(contents: seq<byte>, size: nat): (img: seq<byte>)
    ensures |img| == size
  {
    if |contents| >= size then contents[..size] else contents + Zeros(size - |contents|)
  }

  /** Loading a file shorter than the struct keeps every member the file
      covers: a record extended with new members at its end reads its old
      members back unchanged from a file the previous version wrote. */
  lemma LoadKeepsPrefix(contents: seq<byte>, size: nat, off: nat, k: Kind)
    requires WellFormed(k) && off + Width(k) <= |contents| && off + Width(k) <= size
    ensures ReadAt(Loaded(contents, size), off, k) == ReadAt(contents, off, k)
  {
    var img := Loaded(contents, size);
    assert img[off..off + Width(k)] == contents[off..off + Width(k)];
  }

  /** millis() - since on the 32-bit unsigned millisecond clock. */
  function Elapsed(now: u32, since: u32): (e: u32)
    ensures now >= since ==> e == now - since
    ensures now < since ==> e == now - since + 0x1_0000_0000
  {
    (now - since) % 0x1_0000_0000
  }

  /** flush(force) writes the file when the record changed since the last
      write and either the caller forces it or the save delay has passed. */
  predicate FlushDue(dirty: bool, force: bool, now: u32, lastUpdate: u32, saveDelayMs: nat)
  {
    dirty && (force || Elapsed(now, lastUpdate) >= saveDelayMs)
  }

  /** A setter ran at millis() == ms: the record is dirty with its
      save-delay timer restarted at ms, and the file is as it was. */
  twostate predicate Touched(f: PersistentDataFile, ms: u32)
    reads f
  {
    f.dirty && f.lastUpdate == ms &&
    f.contents == old(f.contents) && f.writes == old(f.writes) && f.saveDelayMs == old(f.saveDelayMs)
  }

  /** No setter ran and nothing was written: the save bookkeeping and the
      file are as they were. */
  twostate predicate Untouched(f: PersistentDataFile)
    reads f
  {
    f.dirty == old(f.dirty) && f.lastUpdate == old(f.lastUpdate) &&
    f.contents == old(f.contents) && f.writes == old(f.writes) && f.saveDelayMs == old(f.saveDelayMs)
  }

  /** The file was not written, and the record is either as it was or
      marked changed at millis() == ms: what any sequence of setters, run
      at ms, leaves. */
  twostate predicate Unsaved(f: PersistentDataFile, ms: u32)
    reads f
  {
    f.contents == old(f.contents) && f.writes == old(f.writes) && f.saveDelayMs == old(f.saveDelayMs) &&
    ((f.dirty == old(f.dirty) && f.lastUpdate == old(f.lastUpdate)) || (f.dirty && f.lastUpdate == ms))
  }

  /** What flush(false) at millis() == now did: the file was written, once,
      when the save delay had passed since a change, and left alone
      otherwise. */
  twostate predicate Flushed(f: PersistentDataFile, now: u32)
    reads f, f.data
  {
    f.lastUpdate == old(f.lastUpdate) && f.saveDelayMs == old(f.saveDelayMs) &&
    if FlushDue(old(f.dirty), false, now, old(f.lastUpdate), f.saveDelayMs) then
      f.contents == f.Image() && f.writes == old(f.writes) + 1 && !f.dirty
    else
      f.contents == old(f.contents) && f.writes == old(f.writes) && f.dirty == old(f.dirty)
  }

  /** Touched when the flag says a setter ran, Untouched otherwise. */
  twostate predicate Stamped(f: PersistentDataFile, touched: bool, ms: u32)
    reads f
  {
    if touched then Touched(f, ms) else Untouched(f)
  }

  /** Setters (when `touched`) at millis() == ms, then flush(false) at
      millis() == now: the file is written, once, exactly when the record is
      dirty afterwards and its save delay has passed by `now`. */
  twostate predicate Housekept(f: PersistentDataFile, touched: bool, ms: u32, now: u32)
    reads f, f.data
  {
    var dirty := touched || old(f.dirty);
    var last := if touched then ms else old(f.lastUpdate);
    f.lastUpdate == last && f.saveDelayMs == old(f.saveDelayMs) &&
    if FlushDue(dirty, false, now, last, f.saveDelayMs) then
      f.contents == f.Image() && f.writes == old(f.writes) + 1 && !f.dirty
    else
      f.contents == old(f.contents) && f.writes == old(f.writes) && f.dirty == dirty
  }

  class PersistentDataFile {
    /** The record struct, header included. */
    const data: array<byte>
    const magic: u32
    const version: u16
    /** Milliseconds a change waits before flush writes it. */
    var saveDelayMs: nat
    /** The struct changed since it was last written to the file. */
    var dirty: bool
    /** millis() at the latest change. */
    var lastUpdate: u32
    /** What the file holds. */
    var contents: seq<byte>
    /** How many times the file was written. */
    var writes: nat

    ghost predicate Valid()
      reads this
    {
      HEADER_SIZE <= data.Length < 0x1_0000
    }

    function Image(): (img: seq<byte>)
      reads this, data
      ensures |img| == data.Length
    {
      data[..]
    }

    /** A record of the given size, type and format version, not yet loaded. */
    constructor (size: nat, magic: u32, version: u16)
      requires HEADER_SIZE <= size < 0x1_0000
      ensures Valid() && fresh(data) && data.Length == size && Image() == Zeros(size)
      ensures this.magic == magic && this.version == version && saveDelayMs == 0
      ensures !dirty && contents == [] && writes == 0
    {
      data := new byte[size](_ => 0);
      this.magic := magic;
      this.version := version;
      saveDelayMs := 0;
      dirty := false;
      lastUpdate := 0;
      contents := [];
      writes := 0;
    }

    /** withSaveDelayMs(ms) */
    method WithSaveDelayMs(ms: nat)
      modifies this
      ensures saveDelayMs == ms
      ensures dirty == old(dirty) && lastUpdate == old(lastUpdate)
      ensures contents == old(contents) && writes == old(writes)
    {
      saveDelayMs := ms;
    }

    /** setValue: copy the member's bytes into the struct and start the
        save-delay timer. */
    method SetValue(off: nat, bs: seq<byte>, now: u32)
      requires Valid() && off + |bs| <= data.Length
      modifies this, data
      ensures Valid() && Image() == Splice(old(Image()), off, bs)
      ensures Touched(this, now)
    {
      var i := 0;
      while i < |bs|
        modifies data
        invariant 0 <= i <= |bs|
        invariant forall j :: 0 <= j < data.Length && !(off <= j < off + i) ==> data[j] == old(data[j])
        invariant forall j :: off <= j < off + i ==> data[j] == bs[j - off]
      {
        data[off + i] := bs[i];
        i := i + 1;
      }
      SpliceFrame(old(Image()), off, bs);
      assert Image() == Splice(old(Image()), off, bs);
      dirty := true;
      lastUpdate := now;
    }

    /** save: write the whole struct to the file. */
    method Save()
      requires Valid()
      modifies this
      ensures Valid()
      ensures contents == Image() && writes == old(writes) + 1 && !dirty
      ensures lastUpdate == old(lastUpdate) && saveDelayMs == old(saveDelayMs)
    {
      contents := data[..];
      writes := writes + 1;
      dirty := false;
    }

    /** flush(force): at most one write, and only of a changed record. */
    method Flush(force: bool, now: u32)
      requires Valid()
      modifies this
      ensures Valid() && lastUpdate == old(lastUpdate) && saveDelayMs == old(saveDelayMs)
      ensures FlushDue(old(dirty), force, now, old(lastUpdate), saveDelayMs) ==>
                contents == Image() && writes == old(writes) + 1 && !dirty
      ensures !FlushDue(old(dirty), force, now, old(lastUpdate), saveDelayMs) ==>
                contents == old(contents) && writes == old(writes) && dirty == old(dirty)
    {
      if dirty && (force || Elapsed(now, lastUpdate) >= saveDelayMs) {
        Save();
      }
    }

    /** The library's initialize: the struct cleared, the header rewritten. */
    method BaseInitialize()
      requires Valid()
      modifies data
      ensures Image() == BaseInitialized(data.Length, magic, version)
    {
      var img := BaseInitialized(data.Length, magic, version);
      forall i | 0 <= i < data.Length {
        data[i] := img[i];
      }
    }

    /** The first half of load: read the file into the struct. */
    method Restore(file: seq<byte>)
      requires Valid()
      modifies this, data
      ensures Valid() && Image() == Loaded(file, data.Length)
      ensures contents == file && !dirty && writes == old(writes) && saveDelayMs == old(saveDelayMs)
    {
      var img := Loaded(file, data.Length);
      forall i | 0 <= i < data.Length {
        data[i] := img[i];
      }
      contents := file;
      dirty := false;
    }
  }
}
