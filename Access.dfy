/** Typed access to a member of a record image: what the storage library's
    getValue<T>(offset) and setValue<T>(offset, value) (and their string
    variants) do to the bytes of the struct. */
module Access {
  import opened Bytes

  /** The C type an accessor reads or writes, i.e. its template argument.
      A float member is carried as its 32-bit pattern: the model never
      interprets floating point. */
  datatype Kind = KU8 | KI8 | KBool | KU16 | KFloatBits | KTime | KString(n: nat)

  /** A member's value as an accessor hands it over. */
  datatype Value = Num(n: int) | Flag(b: bool) | Text(s: seq<byte>)

  function Width(k: Kind): nat
  {
    match k
    case KU8 => 1
    case KI8 => 1
    case KBool => 1
    case KU16 => 2
    case KFloatBits => 4
    case KTime => 8
    case KString(n) => n
  }

  predicate WellFormed(k: Kind)
  {
    k.KString? ==> k.n > 0
  }

  /** v is a value of the accessor's C type (a C string holds no NUL). */
  predicate Fits(k: Kind, v: Value)
  {
    match k
    case KU8 => v.Num? && 0 <= v.n < 0x100
    case KI8 => v.Num? && -0x80 <= v.n < 0x80
    case KBool => v.Flag?
    case KU16 => v.Num? && 0 <= v.n < 0x1_0000
    case KFloatBits => v.Num? && 0 <= v.n < 0x1_0000_0000
    case KTime => v.Num? && -0x8000_0000_0000_0000 <= v.n < 0x8000_0000_0000_0000
    case KString(n) => n > 0 && v.Text? && 0 !in v.s
  }

  function Encode(k: Kind, v: Value): (bs: seq<byte>)
    requires Fits(k, v)
    ensures |bs| == Width(k)
  {
    match k
    case KU8 => [v.n]
    case KI8 => [ToTwos(v.n, 1)]
    case KBool => [if v.b then 1 else 0]
    case KU16 => EncodeLE(v.n, 2)
    case KFloatBits => EncodeLE(v.n, 4)
    case KTime => EncodeLE(ToTwos(v.n, 8), 8)
    case KString(n) => StringField(v.s, n)
  }

  function Decode(k: Kind, bs: seq<byte>): (v: Value)
    requires WellFormed(k) && |bs| == Width(k)
    ensures Fits(k, v)
  {
    match k
    case KU8 => Num(bs[0])
    case KI8 => Num(FromTwos(bs[0], 1))
    case KBool => Flag(bs[0] != 0)
    case KU16 => Num(DecodeLE(bs))
    case KFloatBits => Num(DecodeLE(bs))
    case KTime => Num(FromTwos(DecodeLE(bs), 8))
    case KString(n) => Text(CString(bs))
  }

  /** What a getter returns after the setter was given v: v itself, except
      that a string too long for its member is cut to the member's size
      less the terminating NUL. */
  function Stored(k: Kind, v: Value): (r: Value)
    requires Fits(k, v)
    ensures Fits(k, r)
  {
    if k.KString? && |v.s| >= k.n then Text(v.s[..k.n - 1]) else v
  }

  lemma DecodeEncode(k: Kind, v: Value)
    requires Fits(k, v)
    ensures Decode(k, Encode(k, v)) == Stored(k, v)
  {
    match k
    case KU16 => DecodeEncodeLE(v.n, 2);
    case KFloatBits => DecodeEncodeLE(v.n, 4);
    case KTime => DecodeEncodeLE(ToTwos(v.n, 8), 8);
    case KString(n) => StringFieldRoundTrip(v.s, n);
    case _ =>
  }

  /** The value a member reads as in a cleared struct. */
  function Zero(k: Kind): (v: Value)
    requires WellFormed(k)
    ensures Fits(k, v)
  {
    match k
    case KBool => Flag(false)
    case KString(_) => Text([])
    case _ => Num(0)
  }

  lemma {:induction false} DecodeLEZeros(n: nat)
    ensures DecodeLE(Zeros(n)) == 0
  {
    if n > 0 {
      assert Zeros(n)[1..] == Zeros(n - 1);
      DecodeLEZeros(n - 1);
    }
  }

  /** Every member of a cleared struct reads as zero, false or the empty string. */
  lemma DecodeZeros(k: Kind)
    requires WellFormed(k)
    ensures Decode(k, Zeros(Width(k))) == Zero(k)
  {
    DecodeLEZeros(Width(k));
  }

  /** The image with bytes bs put at offset off: the memcpy of a setter. */
  function Splice(img: seq<byte>, off: nat, bs: seq<byte>): (r: seq<byte>)
    requires off + |bs| <= |img|
    ensures |r| == |img|
    ensures r[off..off + |bs|] == bs
  {
    img[..off] + bs + img[off + |bs|..]
  }

  /** Splice changes the bytes it writes and no others. */
  lemma SpliceFrame(img: seq<byte>, off: nat, bs: seq<byte>)
    requires off + |bs| <= |img|
    ensures forall i :: 0 <= i < |img| ==>
      Splice(img, off, bs)[i] == if off <= i < off + |bs| then bs[i - off] else img[i]
  {
  }

  /** getValue<T>(off) */
  function ReadAt(img: seq<byte>, off: nat, k: Kind): Value
    requires WellFormed(k) && off + Width(k) <= |img|
  {
    Decode(k, img[off..off + Width(k)])
  }

  /** The image after setValue<T>(off, v) */
  function WriteAt(img: seq<byte>, off: nat, k: Kind, v: Value): (r: seq<byte>)
    requires Fits(k, v) && off + Width(k) <= |img|
    ensures |r| == |img|
  {
    Splice(img, off, Encode(k, v))
  }

  /** Reading a member right after writing it gives back what was written. */
  lemma ReadAfterWrite(img: seq<byte>, off: nat, k: Kind, v: Value)
    requires Fits(k, v) && off + Width(k) <= |img|
    ensures WellFormed(k) && ReadAt(WriteAt(img, off, k, v), off, k) == Stored(k, v)
  {
    DecodeEncode(k, v);
  }

  /** Writing one member leaves every member that does not overlap it as it was. */
  lemma ReadAfterOtherWrite(img: seq<byte>, off: nat, k: Kind, v: Value, off2: nat, k2: Kind)
    requires Fits(k, v) && off + Width(k) <= |img|
    requires WellFormed(k2) && off2 + Width(k2) <= |img|
    requires off + Width(k) <= off2 || off2 + Width(k2) <= off
    ensures ReadAt(WriteAt(img, off, k, v), off2, k2) == ReadAt(img, off2, k2)
  {
    var bs := Encode(k, v);
    var img' := WriteAt(img, off, k, v);
    assert img' == Splice(img, off, bs);
    SpliceFrame(img, off, bs);
    var w := Width(k2);
    assert forall i :: off2 <= i < off2 + w ==> img'[i] == img[i];
    assert img'[off2..off2 + w] == img[off2..off2 + w];
  }
}
