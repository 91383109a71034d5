// 32.32 fixed point multiplication (timeconversion.h, timeconversion.cpp).

module FixedPoint {
  import opened Word

  function Lo(x: u64): u32 { x % 0x1_0000_0000 }

  function Hi(x: u64): u32 { x / 0x1_0000_0000 }

  /** 32 x 32 -> 64 multiplication: never wraps. */
  function Mul32x32to64(a: u32, b: u32): (r: u64)
    ensures r == a * b
    ensures r <= 0xffff_ffff * 0xffff_ffff
  {
    MulMono(a, b, 0xffff_ffff, 0xffff_ffff);
    a * b
  }

  /** The product by factor / 2^32, without its fractional part. */
  function Scale(x: nat, factor: nat): nat
  {
    x * factor / 0x1_0000_0000
  }

  /** Scale rounds towards lowest. */
  lemma ScaleBounds(x: nat, factor: nat)
    ensures Scale(x, factor) * 0x1_0000_0000 <= x * factor < Scale(x, factor) * 0x1_0000_0000 + 0x1_0000_0000
  {
  }

  lemma ScaleUnique(x: nat, factor: nat, r: int)
    requires r * 0x1_0000_0000 <= x * factor < r * 0x1_0000_0000 + 0x1_0000_0000
    ensures Scale(x, factor) == r
  {
  }

  /** The schoolbook product, one 32 bit column at a time. */
  lemma PartialProducts(aLo: u32, aHi: u32, bi: u32, bf: u32)
    ensures Scale(aHi * 0x1_0000_0000 + aLo, bi * 0x1_0000_0000 + bf)
         == bi * aHi * 0x1_0000_0000 + bi * aLo + bf * aHi + bf * aLo / 0x1_0000_0000
  {
    var a, b := aHi * 0x1_0000_0000 + aLo, bi * 0x1_0000_0000 + bf;
    var p, q, r, s := bi * aHi, bi * aLo, bf * aHi, bf * aLo;
    Distribute(aHi, aLo, bi, bf);
    ScaleUnique(a, b, p * 0x1_0000_0000 + q + r + s / 0x1_0000_0000);
  }

  lemma Distribute(aHi: int, aLo: int, bi: int, bf: int)
    ensures (aHi * 0x1_0000_0000 + aLo) * (bi * 0x1_0000_0000 + bf)
         == bi * aHi * 0x1_0000_0000_0000_0000 + (bi * aLo + bf * aHi) * 0x1_0000_0000 + bf * aLo
  {
  }

  /**
   * Wrapping after every addition, and dropping the high word of the product
   * that is shifted by 32, is the same as wrapping the true sum once.
   */
  lemma AccumulatedWrap(r1: nat, r2: nat, r3: nat, x: nat)
    ensures Wrap64(Wrap64(Wrap64(r1 + r2) + r3) + Wrap32(x) * 0x1_0000_0000)
         == Wrap64(x * 0x1_0000_0000 + r1 + r2 + r3)
  {
  }

  /**
   * Multiplies a 64 bit integer by the fixed point number bi + bf / 2^32 with
   * four 32 bit multiplications, one of which keeps only its low word. Every
   * addition wraps at 64 bits; the caller must make sure that the product fits.
   */
  method Mul64x32d32(a: u64, bi: u32, bf: u32) returns (result: u64)
    ensures result == Wrap64(Scale(a, bi * 0x1_0000_0000 + bf))
  {
    var aLo := Lo(a);
    var aHi := Hi(a);
    result := Mul32x32to64(bi, aLo);
    result := Wrap64(result + Mul32x32to64(bf, aHi));
    var bfaLo := Mul32x32to64(bf, aLo);
    result := Wrap64(result + Hi(bfaLo));
    result := Wrap64(result + Wrap32(Mul32x32to64(bi, aHi)) * 0x1_0000_0000);
    PartialProducts(aLo, aHi, bi, bf);
    AccumulatedWrap(bi * aLo, bf * aHi, Hi(bfaLo), bi * aHi);
  }

  /** A 32.32 fixed point number. */
  datatype Factor = Factor(i: u32, f: u32) {

    /** The number scaled by 2^32. */
    function Scaled(): nat { i * 0x1_0000_0000 + f }

    /** operator+: corrects the fractional part only, in 32 bit arithmetic. */
    function Plus(delta: int): Factor { Factor(i, Wrap32(f + delta)) }
  }

  /** What a conversion computes: the scaled value, wrapped to a word. */
  function Convert(x: u64, tcf: Factor): u64
  {
    Wrap64(Scale(x, tcf.Scaled()))
  }

  /**
   * The product is exact precisely when it fits a word: a conversion that
   * overflows is never right by accident.
   */
  lemma ConvertExact(x: u64, tcf: Factor)
    ensures Convert(x, tcf) == Scale(x, tcf.Scaled()) <==> Scale(x, tcf.Scaled()) < 0x1_0000_0000_0000_0000
  {
  }

  lemma ScaleMonotone(x: nat, y: nat, factor: nat)
    requires x <= y
    ensures Scale(x, factor) <= Scale(y, factor)
  {
    MulMono(x, factor, y, factor);
  }

  lemma ScaleMonotoneFactor(x: nat, f: nat, g: nat)
    requires f <= g
    ensures Scale(x, f) <= Scale(x, g)
  {
    MulMono(x, f, x, g);
  }
}
