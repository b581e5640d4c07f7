/** Fixed-width integers and the byte encodings the persistent records use:
    little-endian unsigned and two's-complement integers (the firmware runs
    on a little-endian ARM Cortex-M) and NUL-terminated C strings held in
    fixed-size character arrays. */
module Bytes {

  type byte = x: int | 0 <= x < 0x100
  type u8 = x: int | 0 <= x < 0x100
  type u16 = x: int | 0 <= x < 0x1_0000
  type u32 = x: int | 0 <= x < 0x1_0000_0000
  type i8 = x: int | -0x80 <= x < 0x80
  type i32 = x: int | -0x8000_0000 <= x < 0x8000_0000
  type i64 = x: int | -0x8000_0000_0000_0000 <= x < 0x8000_0000_0000_0000

  /** 256 to the power n: the number of values n bytes can hold. */
  function Pow256(n: nat): (p: nat)
    ensures p >= 1
  {
    if n == 0 then 1 else 0x100 * Pow256(n - 1)
  }

  /** Little-endian encoding of v in n bytes. */
  function EncodeLE(v: nat, n: nat): (bs: seq<byte>)
    requires v < Pow256(n)
    ensures |bs| == n
  {
    if n == 0 then [] else [v % 0x100] + EncodeLE(v / 0x100, n - 1)
  }

  /** The unsigned number that little-endian bytes bs stand for. */
  function DecodeLE(bs: seq<byte>): (v: nat)
    ensures v < Pow256(|bs|)
  {
    if bs == [] then 0
    else
      var rest := DecodeLE(bs[1..]);
      assert bs[0] + 0x100 * rest <= 0xFF + 0x100 * (Pow256(|bs| - 1) - 1);
      bs[0] + 0x100 * rest
  }

  lemma {:induction false} DecodeEncodeLE(v: nat, n: nat)
    requires v < Pow256(n)
    ensures DecodeLE(EncodeLE(v, n)) == v
  {
    if n > 0 {
      DecodeEncodeLE(v / 0x100, n - 1);
      assert EncodeLE(v, n)[1..] == EncodeLE(v / 0x100, n - 1);
    }
  }

  lemma {:induction false} EncodeDecodeLE(bs: seq<byte>)
    ensures EncodeLE(DecodeLE(bs), |bs|) == bs
  {
    if bs != [] {
      EncodeDecodeLE(bs[1..]);
      var v := DecodeLE(bs);
      assert v % 0x100 == bs[0] && v / 0x100 == DecodeLE(bs[1..]);
    }
  }

  /** Half the range of n bytes: the first negative pattern in two's complement. */
  function SignBoundary(n: nat): (b: int)
    requires n > 0
    ensures 0 < b < Pow256(n)
  {
    0x80 * Pow256(n - 1)
  }

  /** The n-byte two's-complement pattern of v. */
  function ToTwos(v: int, n: nat): (u: nat)
    requires n > 0 && -SignBoundary(n) <= v < SignBoundary(n)
    ensures u < Pow256(n)
    ensures FromTwos(u, n) == v
  {
    if v < 0 then v + Pow256(n) else v
  }

  /** The signed number an n-byte two's-complement pattern stands for. */
  function FromTwos(u: nat, n: nat): (v: int)
    requires n > 0 && u < Pow256(n)
    ensures -SignBoundary(n) <= v < SignBoundary(n)
  {
    if u >= SignBoundary(n) then u - Pow256(n) else u
  }

  lemma TwosRoundTrip(u: nat, n: nat)
    requires n > 0 && u < Pow256(n)
    ensures ToTwos(FromTwos(u, n), n) == u
  {
  }

  /** The bytes of a C string: everything before the first NUL. */
  function CString(bs: seq<byte>): (s: seq<byte>)
    ensures |s| <= |bs| && s == bs[..|s|]
    ensures 0 !in s
    ensures |s| < |bs| ==> bs[|s|] == 0
  {
    if bs == [] || bs[0] == 0 then [] else [bs[0]] + CString(bs[1..])
  }

  function Zeros(n: nat): (z: seq<byte>)
    ensures |z| == n && forall i :: 0 <= i < n ==> z[i] == 0
  {
    seq(n, _ => 0)
  }

  /** What setValueString leaves in a char[n] member: the field cleared, then
      at most n - 1 characters of s copied, so the last byte stays NUL. */
  function StringField(s: seq<byte>, n: nat): (bs: seq<byte>)
    requires n > 0
    ensures |bs| == n
  {
    var kept := if |s| < n then s else s[..n - 1];
    kept + Zeros(n - |kept|)
  }

  /** A string setter followed by the string getter returns the string cut
      to the n - 1 characters the member holds. */
  lemma {:induction false} StringFieldRoundTrip(s: seq<byte>, n: nat)
    requires n > 0 && 0 !in s
    ensures CString(StringField(s, n)) == if |s| < n then s else s[..n - 1]
  {
    var kept := if |s| < n then s else s[..n - 1];
    CStringOfTerminated(kept, Zeros(n - |kept|));
  }

  lemma {:induction false} CStringOfTerminated(s: seq<byte>, rest: seq<byte>)
    requires 0 !in s && |rest| > 0 && rest[0] == 0
    ensures CString(s + rest) == s
  {
    if s == [] {
      assert (s + rest)[0] == 0;
    } else {
      assert (s + rest)[1..] == s[1..] + rest;
      CStringOfTerminated(s[1..], rest);
    }
  }

  /** Bytes of an ASCII text. */
  function Ascii(s: string): (bs: seq<byte>)
    requires forall i :: 0 <= i < |s| ==> s[i] as int < 0x100
    ensures |bs| == |s|
    ensures forall i :: 0 <= i < |s| ==> bs[i] == s[i] as int
  {
    seq(|s|, i requires 0 <= i < |s| => s[i] as int)
  }
}
