/**
  32-bit machine words, held as unbounded integers below 2^32.
  Every place where C or the hardware wraps around is written out as a remainder.
 */
module Words {
  const WORD_MOD: int := 0x1_0000_0000
  const SIGN_BIT: int := 0x8000_0000

  type Word = x: int | 0 <= x < 0x1_0000_0000

  function Add32(a: Word, b: Word): Word {
    (a + b) % WORD_MOD
  }

  /** One bit of the three logic operations of the ALU. */
  datatype Logic = And | Or | Xor

  function LogicBit(op: Logic, a: int, b: int): (r: int)
    requires 0 <= a < 2 && 0 <= b < 2
    ensures 0 <= r < 2
  {
    match op
    case And => if a == 1 && b == 1 then 1 else 0
    case Or => if a == 1 || b == 1 then 1 else 0
    case Xor => if a != b then 1 else 0
  }

  function Pow2(n: nat): (r: int)
    ensures r > 0
  {
    if n == 0 then 1 else 2 * Pow2(n - 1)
  }

  /** Bitwise operation on the low `n` bits. */
  function Bitwise(op: Logic, a: int, b: int, n: nat): (r: int)
    requires 0 <= a && 0 <= b
    ensures 0 <= r < Pow2(n)
    decreases n
  {
    if n == 0 then 0
    else LogicBit(op, a % 2, b % 2) + 2 * Bitwise(op, a / 2, b / 2, n - 1)
  }

  function Bit(a: nat, i: nat): (b: int)
    ensures 0 <= b < 2
  {
    if i == 0 then a % 2 else Bit(a / 2, i - 1)
  }

  /** Every bit of the result is the operation on the two bits at its place. */
  lemma {:induction false} BitwiseBit(op: Logic, a: nat, b: nat, n: nat, i: nat)
    requires i < n
    ensures Bit(Bitwise(op, a, b, n), i) == LogicBit(op, Bit(a, i), Bit(b, i))
    decreases n
  {
    if i > 0 {
      BitwiseBit(op, a / 2, b / 2, n - 1, i - 1);
    }
  }

  /** Both bits, at least one, exactly one. */
  lemma BitwiseMeans(a: nat, b: nat, n: nat, i: nat)
    requires i < n
    ensures Bit(Bitwise(And, a, b, n), i) == 1 <==> Bit(a, i) == 1 && Bit(b, i) == 1
    ensures Bit(Bitwise(Or, a, b, n), i) == 1 <==> Bit(a, i) == 1 || Bit(b, i) == 1
    ensures Bit(Bitwise(Xor, a, b, n), i) == 1 <==> Bit(a, i) != Bit(b, i)
  {
    BitwiseBit(And, a, b, n, i);
    BitwiseBit(Or, a, b, n, i);
    BitwiseBit(Xor, a, b, n, i);
  }

  lemma Pow2Of32()
    ensures Pow2(32) == WORD_MOD
  {
    assert Pow2(8) == 256;
    assert Pow2(16) == 256 * Pow2(8);
    assert Pow2(24) == 256 * Pow2(16);
    assert Pow2(32) == 256 * Pow2(24);
  }

  function Bitwise32(op: Logic, a: Word, b: Word): Word {
    Pow2Of32();
    Bitwise(op, a, b, 32)
  }
}
