/** Where the compiler puts the members of a record struct. Each member is
    placed at the first offset after the previous member that is a multiple
    of its alignment, and the struct is padded to its largest alignment
    (the ARM EABI rules the firmware is compiled with: time_t is a 64-bit
    integer aligned to 8, float and uint32_t to 4, uint16_t to 2). Every
    getter and setter addresses its member through `offsetof`, that is,
    through these offsets. */
module Layout {

  /** The member types the two records use. `Header` is the 16-byte
      SavedDataHeader of the storage library (magic, version, size, hash). */
  datatype CType = U8 | Bool | U16 | U32 | Float | TimeT | Chars(n: nat) | Header

  function SizeOf(t: CType): nat
  {
    match t
    case U8 => 1
    case Bool => 1
    case U16 => 2
    case U32 => 4
    case Float => 4
    case TimeT => 8
    case Chars(n) => n
    case Header => 16
  }

  function AlignOf(t: CType): (a: nat)
    ensures a >= 1
  {
    match t
    case U16 => 2
    case U32 => 4
    case Float => 4
    case TimeT => 8
    case Header => 4
    case _ => 1
  }

  /** The first multiple of a at or after pos. */
  function AlignUp(pos: nat, a: nat): (r: nat)
    requires a >= 1
    ensures pos <= r < pos + a
  {
    if pos % a == 0 then pos else pos + (a - pos % a)
  }

  /** offsetof the k-th member of a struct with members ts. */
  function OffsetOf(ts: seq<CType>, k: nat): nat
    requires k < |ts|
  {
    if k == 0 then AlignUp(0, AlignOf(ts[0]))
    else AlignUp(OffsetOf(ts, k - 1) + SizeOf(ts[k - 1]), AlignOf(ts[k]))
  }

  /** The first byte after the last member. */
  function End(ts: seq<CType>): nat
  {
    if ts == [] then 0 else OffsetOf(ts, |ts| - 1) + SizeOf(ts[|ts| - 1])
  }

  /** The largest alignment among the first k members. */
  function MaxAlign(ts: seq<CType>, k: nat): (a: nat)
    requires k <= |ts|
    ensures a >= 1
  {
    if k == 0 then 1
    else if AlignOf(ts[k - 1]) > MaxAlign(ts, k - 1) then AlignOf(ts[k - 1])
    else MaxAlign(ts, k - 1)
  }

  /** sizeof the struct: the end of its last member, padded to its alignment. */
  function SizeOfStruct(ts: seq<CType>): nat
  {
    AlignUp(End(ts), MaxAlign(ts, |ts|))
  }

  /** Members lie in declaration order and no two share a byte. */
  lemma {:induction false} MembersDisjoint(ts: seq<CType>, i: nat, j: nat)
    requires i < j < |ts|
    ensures OffsetOf(ts, i) + SizeOf(ts[i]) <= OffsetOf(ts, j)
  {
    if i < j - 1 {
      MembersDisjoint(ts, i, j - 1);
    }
  }

  /** Every member ends within the struct. */
  lemma {:induction false} SizeCoversMember(ts: seq<CType>, k: nat)
    requires k < |ts|
    ensures OffsetOf(ts, k) + SizeOf(ts[k]) <= End(ts) <= SizeOfStruct(ts)
  {
    var last := |ts| - 1;
    assert End(ts) == OffsetOf(ts, last) + SizeOf(ts[last]);
    if k < last {
      MembersDisjoint(ts, k, |ts| - 1);
    }
  }

  /** Members appended at the end of a struct leave the offsets of the
      members before them unchanged: the layout is append-only, so a record
      extended with new fields still finds its old fields where it wrote them. */
  lemma {:induction false} AppendKeepsOffsets(ts: seq<CType>, more: seq<CType>, k: nat)
    requires k < |ts|
    ensures OffsetOf(ts + more, k) == OffsetOf(ts, k)
  {
    assert (ts + more)[k] == ts[k];
    if k > 0 {
      assert (ts + more)[k - 1] == ts[k - 1];
      AppendKeepsOffsets(ts, more, k - 1);
    }
  }

  /** A struct that begins with the header has it at offset 0, and every
      other member after its 16 bytes. */
  lemma {:induction false} HeaderFirst(ts: seq<CType>, k: nat)
    requires |ts| > 0 && ts[0] == Header && 0 < k < |ts|
    ensures OffsetOf(ts, 0) == 0
    ensures OffsetOf(ts, k) >= SizeOf(Header)
  {
    MembersDisjoint(ts, 0, k);
  }
}
