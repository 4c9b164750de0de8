/** The numbers that single-precision words stand for, by sign, exponent and fraction as IEEE 754 lays them out. */
module Floats {
  import opened Words

  /** Two to the power of `n`. */
  function Scale(n: int): (r: real)
    ensures r > 0.0
    decreases if n < 0 then -n else n
  {
    if n == 0 then 1.0 else if n > 0 then 2.0 * Scale(n - 1) else Scale(n + 1) / 2.0
  }

  function Sign(w: Word): real {
    if w >= 0x8000_0000 then -1.0 else 1.0
  }

  function Exponent(w: Word): nat {
    w / 0x80_0000 % 256
  }

  function Fraction(w: Word): nat {
    w % 0x80_0000
  }

  /** Neither zero nor subnormal, infinite or no number. */
  predicate IsNormal(w: Word) {
    0 < Exponent(w) < 255
  }

  /** The value of a normal word. */
  function Value(w: Word): real
    requires IsNormal(w)
  {
    Sign(w) * (1.0 + Fraction(w) as real / 8388608.0) * Scale(Exponent(w) - 127)
  }

  /** The product is a normal number and has not been rounded. */
  ghost predicate ExactProduct(mul: (Word, Word) -> Word, a: Word, b: Word) {
    IsNormal(a) && IsNormal(b) && IsNormal(mul(a, b)) && Value(mul(a, b)) == Value(a) * Value(b)
  }

  const FLOAT_HALF: Word := 0x3F00_0000
  const FLOAT_ONE: Word := 0x3F80_0000

  /** The two constants of the application are the numbers they are named for. */
  lemma HalfAndOne()
    ensures IsNormal(FLOAT_HALF) && Value(FLOAT_HALF) == 0.5
    ensures IsNormal(FLOAT_ONE) && Value(FLOAT_ONE) == 1.0
  {
    assert Exponent(FLOAT_HALF) == 126 && Fraction(FLOAT_HALF) == 0;
    assert Exponent(FLOAT_ONE) == 127 && Fraction(FLOAT_ONE) == 0;
    assert Scale(-1) == Scale(0) / 2.0;
  }

  /** Half of a number, whenever the multiplication by the constant is exact. */
  lemma HalfOf(mul: (Word, Word) -> Word, w: Word)
    requires ExactProduct(mul, w, FLOAT_HALF)
    ensures Value(mul(w, FLOAT_HALF)) == Value(w) / 2.0
  {
    HalfAndOne();
  }

  lemma ByFields(w: Word, e: nat, f: nat)
    requires w < 0x8000_0000 && w / 0x80_0000 == e && w % 0x80_0000 == f && 0 < e < 255
    ensures IsNormal(w) && Value(w) == (1.0 + f as real / 8388608.0) * Scale(e - 127)
  {
  }

  /** The screen's sizes as the application has them: the words for 400, 240 and their halves. */
  lemma ScreenSizes()
    ensures IsNormal(0x43C8_0000) && Value(0x43C8_0000) == 400.0 && IsNormal(0x4348_0000) && Value(0x4348_0000) == 200.0
    ensures IsNormal(0x4370_0000) && Value(0x4370_0000) == 240.0 && IsNormal(0x42F0_0000) && Value(0x42F0_0000) == 120.0
  {
    ByFields(0x43C8_0000, 135, 0x48_0000);
    ByFields(0x4348_0000, 134, 0x48_0000);
    ByFields(0x4370_0000, 134, 0x70_0000);
    ByFields(0x42F0_0000, 133, 0x70_0000);
    SmallScales();
  }

  lemma SmallScales()
    ensures Scale(6) == 64.0 && Scale(7) == 128.0 && Scale(8) == 256.0
  {
    assert Scale(3) == 8.0;
    assert Scale(6) == 8.0 * Scale(3);
  }
}
