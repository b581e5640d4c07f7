/** The IEEE 754 binary32 values the firmware's float members hold, and the
    comparisons it makes on them. A float member is stored as its 32-bit
    pattern; the controller compares the state of charge against constants,
    and a comparison with a NaN is false whatever the constant. */
module Float32 {
  import opened Bytes

  /** The value a 32-bit pattern denotes: a finite number (both zeros are
      0.0), an infinity, or not a number. */
  datatype F32 = Finite(r: real) | Infinity(negative: bool) | NaN

  function Pow2(n: nat): (p: nat)
    ensures p >= 1
  {
    if n == 0 then 1 else 2 * Pow2(n - 1)
  }

  /** 2 to the power e, for an integer e of either sign. */
  function Scale(e: int): (s: real)
    ensures s > 0.0
  {
    if e >= 0 then Pow2(e) as real else 1.0 / Pow2(-e) as real
  }

  /** Sign bit 31, exponent bits 30-23 (bias 127), fraction bits 22-0;
      exponent 255 is an infinity or NaN, exponent 0 a subnormal. */
  function FloatOf(bits: u32): (x: F32)
  {
    var negative := bits >= 0x8000_0000;
    var exponent := (bits / 0x80_0000) % 0x100;
    var fraction := bits % 0x80_0000;
    if exponent == 0xFF then
      if fraction == 0 then Infinity(negative) else NaN
    else
      var magnitude :=
        if exponent == 0 then fraction as real * Scale(-149)
        else (0x80_0000 + fraction) as real * Scale(exponent - 150);
      Finite(if negative then -magnitude else magnitude)
  }

  /** x > c */
  predicate Greater(x: F32, c: real)
  {
    match x
    case Finite(r) => r > c
    case Infinity(negative) => !negative
    case NaN => false
  }

  /** x < c */
  predicate Less(x: F32, c: real)
  {
    match x
    case Finite(r) => r < c
    case Infinity(negative) => negative
    case NaN => false
  }

  /** x <= c */
  predicate AtMost(x: F32, c: real)
  {
    match x
    case Finite(r) => r <= c
    case Infinity(negative) => negative
    case NaN => false
  }

  /** x == c */
  predicate Equals(x: F32, c: real)
  {
    x.Finite? && x.r == c
  }

  /** Every value other than NaN is either above a constant or at most it;
      NaN is neither. */
  lemma Trichotomy(x: F32, c: real)
    ensures x != NaN <==> (Greater(x, c) <==> !AtMost(x, c))
    ensures x == NaN ==> !Greater(x, c) && !AtMost(x, c) && !Equals(x, c)
  {
  }

  /** The all-ones exponent with a nonzero fraction is NaN, e.g. 0x7FC00000. */
  lemma QuietNaN()
    ensures FloatOf(0x7FC0_0000) == NaN
  {
    var bits: u32 := 0x7FC0_0000;
    assert bits / 0x80_0000 == 0xFF;
    assert (bits / 0x80_0000) % 0x100 == 0xFF;
    assert bits % 0x80_0000 == 0x40_0000;
  }
}
