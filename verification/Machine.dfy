/**
  What one GPPCU thread does with one instruction word: register file, local memory,
  read-only constants and status flags. Floating point is left to functions of the caller's choice.
 */
module Machine {
  import opened Words
  import opened Isa

  datatype Fpu = Fpu(
    mul: (Word, Word) -> Word,
    div: (Word, Word) -> Word,
    add: (Word, Word) -> Word,
    sub: (Word, Word) -> Word,
    sqrt: Word -> Word,
    itof: Word -> Word,
    ftoi: Word -> Word)

  datatype Flags = Flags(v: bool, c: bool, n: bool, z: bool)

  const CLEAR := Flags(false, false, false, false)

  datatype State = State(regs: seq<Word>, mem: seq<Word>, flags: Flags)

  /** Constant word 0 reads as `cycleBase`; `window` is the machine address of memory cell 0. */
  datatype Env = Env(fpu: Fpu, consts: seq<Word>, cycleBase: Word, window: nat)

  // The decoder's own tables: which operations read the register fields A and B, and which write back to D.

  predicate ReadsRegA(opc: nat) {
    3 <= opc <= 9 || 11 <= opc <= 19 || opc == 21 || opc == 24
  }

  predicate ReadsRegB(opc: nat) {
    1 <= opc <= 7 || 16 <= opc <= 19 || opc == 22 || opc == 24
  }

  predicate WritesRegD(opc: nat) {
    1 <= opc <= 19 || 21 <= opc <= 23
  }

  predicate StoresLocal(opc: nat) {
    opc == 24
  }

  /** The emitter's tables name every register field that the decoder uses, and two more: RA of LDL and of FNEG. */
  lemma TablesCoverDecoder(opc: U5)
    ensures UsesRegA(opc) <==> ReadsRegA(opc) || opc == 22 || opc == 20
    ensures UsesRegB(opc) <==> ReadsRegB(opc)
    ensures UsesRegD(opc) <==> WritesRegD(opc)
  {
  }

  predicate CondHolds(cond: nat, g: Flags) {
    match cond
    case 0 => true
    case 2 => g.c
    case 3 => !g.c
    case 4 => g.z
    case 5 => !g.z
    case 6 => g.v
    case 7 => !g.v
    case 8 => g.n
    case 9 => !g.n
    case 10 => (!g.v && g.n) || (g.v && g.c)
    case 11 => (!g.v && !g.n) || (g.v && !g.c)
    case 12 => !g.c && g.z
    case 13 => (!g.v && !g.n) || (g.v && !g.c)
    case 14 => (!g.v && g.n) || (g.v && g.c)
    case _ => false
  }

  function Reg(regs: seq<Word>, i: nat): Word {
    if i < |regs| then regs[i] else 0
  }

  function SetReg(regs: seq<Word>, i: nat, v: Word): (r: seq<Word>)
    ensures |r| == |regs|
  {
    if i < |regs| then regs[i := v] else regs
  }

  function Cell(e: Env, mem: seq<Word>, address: Word): (i: nat)
    requires |mem| > 0
    ensures i < |mem|
  {
    (address - e.window) % |mem|
  }

  function Constant(e: Env, n: nat): Word {
    if n == 0 then e.cycleBase else if |e.consts| == 0 then 0 else e.consts[n % |e.consts|]
  }

  function OperandA(s: State, f: Instr): Word {
    if ReadsRegA(f.opr) then Reg(s.regs, f.ra) else 0
  }

  function OperandB(e: Env, s: State, f: Instr): Word {
    if ReadsRegB(f.opr) then Add32(Reg(s.regs, f.rb), f.imm7)
    else if f.opr == 8 || f.opr == 9 then f.Imm12()
    else if f.opr == 10 then f.Imm17()
    else if f.opr == 23 then Constant(e, f.Imm17())
    else 0
  }

  function Carry(g: Flags): Word {
    if g.c then 1 else 0
  }

  function Result(e: Env, s: State, opc: nat, a: Word, b: Word): Word
    requires |s.mem| > 0
  {
    match opc
    case 1 => b
    case 2 => WORD_MOD - 1 - b
    case 3 => (a + b + Carry(s.flags)) % WORD_MOD
    case 4 => (a - b - Carry(s.flags)) % WORD_MOD
    case 5 => Bitwise32(And, a, b)
    case 6 => Bitwise32(Or, a, b)
    case 7 => Bitwise32(Xor, a, b)
    case 8 => Add32(a, b)
    case 9 => (a - b) % WORD_MOD
    case 10 => b
    case 11 => a * 2 % WORD_MOD
    case 12 => a / 2
    case 13 => a / 2 + (if a >= SIGN_BIT then SIGN_BIT else 0)
    case 14 => e.fpu.itof(a)
    case 15 => e.fpu.ftoi(a)
    case 16 => e.fpu.mul(a, b)
    case 17 => e.fpu.div(a, b)
    case 18 => e.fpu.add(a, b)
    case 19 => e.fpu.sub(a, b)
    case 21 => e.fpu.sqrt(a)
    case 22 => s.mem[Cell(e, s.mem, b)]
    case 23 => b
    case _ => 0
  }

  /** The status register after an S-form arithmetic instruction; floating point clears it. */
  function FlagsAfter(s: State, opc: nat, a: Word, b: Word, q: Word): Flags {
    if 1 <= opc <= 13 then
      var carry :=
        match opc
        case 2 => true
        case 3 => a + b + Carry(s.flags) >= WORD_MOD
        case 4 => a - b - Carry(s.flags) < 0
        case 8 => a + b >= WORD_MOD
        case 9 => a < b
        case _ => false;
      Flags((a >= SIGN_BIT) == (b >= SIGN_BIT) && (a >= SIGN_BIT) != (q >= SIGN_BIT), carry, q >= SIGN_BIT, q == 0)
    else CLEAR
  }

  // The names of the assembler select the operations they stand for.

  lemma NamedMoves(e: Env, s: State, a: Word, b: Word)
    requires |s.mem| > 0
    ensures Result(e, s, OPR_MOV, a, b) == Result(e, s, OPR_MVI, a, b) == Result(e, s, OPR_LDCI, a, b) == b
    ensures Result(e, s, OPR_MVN, a, b) == 0xFFFF_FFFF - b
    ensures Result(e, s, OPR_LDL, a, b) == s.mem[Cell(e, s.mem, b)]
    ensures StoresLocal(OPR_STL) && !WritesRegD(OPR_STL) && !WritesRegD(OPR_NOP) && !WritesRegD(OPR_FNEG)
  {
  }

  lemma NamedSums(e: Env, s: State, a: Word, b: Word)
    requires |s.mem| > 0
    ensures Result(e, s, OPR_ADC, a, b) == (a + b + Carry(s.flags)) % 0x1_0000_0000
    ensures Result(e, s, OPR_SBC, a, b) == (a - b - Carry(s.flags)) % 0x1_0000_0000
    ensures Result(e, s, OPR_ADI, a, b) == (a + b) % 0x1_0000_0000
    ensures Result(e, s, OPR_SBI, a, b) == (a - b) % 0x1_0000_0000
  {
  }

  lemma NamedBits(e: Env, s: State, a: Word, b: Word)
    requires |s.mem| > 0
    ensures Result(e, s, OPR_AND, a, b) == Bitwise32(And, a, b)
    ensures Result(e, s, OPR_ORR, a, b) == Bitwise32(Or, a, b)
    ensures Result(e, s, OPR_XOR, a, b) == Bitwise32(Xor, a, b)
  {
  }

  lemma NamedShifts(e: Env, s: State, a: Word, b: Word)
    requires |s.mem| > 0
    ensures Result(e, s, OPR_LSL, a, b) == 2 * a % 0x1_0000_0000 && Result(e, s, OPR_LSR, a, b) == a / 2
    ensures Result(e, s, OPR_ASR, a, b) == if a >= 0x8000_0000 then a / 2 + 0x8000_0000 else a / 2
  {
  }

  lemma NamedFloats(e: Env, s: State, a: Word, b: Word)
    requires |s.mem| > 0
    ensures Result(e, s, OPR_ITOF, a, b) == e.fpu.itof(a) && Result(e, s, OPR_FTOI, a, b) == e.fpu.ftoi(a)
    ensures Result(e, s, OPR_FMUL, a, b) == e.fpu.mul(a, b) && Result(e, s, OPR_FDIV, a, b) == e.fpu.div(a, b)
    ensures Result(e, s, OPR_FADD, a, b) == e.fpu.add(a, b) && Result(e, s, OPR_FSUB, a, b) == e.fpu.sub(a, b)
    ensures Result(e, s, OPR_FSQRT, a, b) == e.fpu.sqrt(a)
  {
  }

  // ---- comparisons ----

  /** The number that a word stands for in two's complement. */
  function Signed(w: Word): int {
    if w < 0x8000_0000 then w else w - 0x1_0000_0000
  }

  /** The status register after the S-form subtraction of `b` from `a`. */
  function Compared(e: Env, s: State, a: Word, b: Word): Flags
    requires |s.mem| > 0
  {
    FlagsAfter(s, OPR_SBI, a, b, Result(e, s, OPR_SBI, a, b))
  }

  /** The conditions on carry and zero compare the operands without signs. */
  lemma UnsignedConditions(e: Env, s: State, a: Word, b: Word)
    requires |s.mem| > 0
    ensures CondHolds(2, Compared(e, s, a, b)) <==> a < b
    ensures CondHolds(3, Compared(e, s, a, b)) <==> a >= b
    ensures CondHolds(4, Compared(e, s, a, b)) <==> a == b
    ensures CondHolds(5, Compared(e, s, a, b)) <==> a != b
    ensures CondHolds(12, Compared(e, s, a, b)) <==> a == b
  {
  }

  /** Less, and its complement under the name of greater, compare with signs exactly if the difference has 32 bits. */
  lemma SignedConditions(e: Env, s: State, a: Word, b: Word)
    requires |s.mem| > 0
    ensures var fits := -0x8000_0000 <= Signed(a) - Signed(b) < 0x8000_0000;
            && ((CondHolds(14, Compared(e, s, a, b)) <==> Signed(a) < Signed(b)) <==> fits)
            && ((CondHolds(13, Compared(e, s, a, b)) <==> Signed(a) >= Signed(b)) <==> fits)
    ensures CondHolds(10, Compared(e, s, a, b)) <==> CondHolds(14, Compared(e, s, a, b))
    ensures CondHolds(11, Compared(e, s, a, b)) <==> CondHolds(13, Compared(e, s, a, b))
  {
    var q := Result(e, s, OPR_SBI, a, b);
    assert q == if a >= b then a - b else a - b + 0x1_0000_0000;
  }

  /** Two words whose comparison with signs comes out wrong: 2^31 - 1 and -1. */
  lemma WrongComparison(e: Env, s: State)
    requires |s.mem| > 0
    ensures Signed(0x7FFF_FFFF) > Signed(0xFFFF_FFFF) && CondHolds(14, Compared(e, s, 0x7FFF_FFFF, 0xFFFF_FFFF))
  {
    SignedConditions(e, s, 0x7FFF_FFFF, 0xFFFF_FFFF);
  }

  // ---- numbers of 64 bits ----

  lemma CarryOver(q: int, d: int, total: int)
    requires 0 <= q < WORD_MOD * WORD_MOD && total == q + d * (WORD_MOD * WORD_MOD)
    ensures total % (WORD_MOD * WORD_MOD) == q
  {
  }

  /** Two additions with carry, the low words first, add numbers of 64 bits. */
  lemma LongSum(e: Env, s: State, a1: Word, a0: Word, b1: Word, b0: Word)
    requires |s.mem| > 0 && !s.flags.c
    ensures var q0 := Result(e, s, OPR_ADC, a0, b0);
            var q1 := Result(e, s.(flags := FlagsAfter(s, OPR_ADC, a0, b0, q0)), OPR_ADC, a1, b1);
            q1 * WORD_MOD + q0 == (a1 * WORD_MOD + a0 + (b1 * WORD_MOD + b0)) % (WORD_MOD * WORD_MOD)
  {
    var c := if a0 + b0 >= WORD_MOD then 1 else 0;
    var d := if a1 + b1 + c >= WORD_MOD then 1 else 0;
    var q0, q1 := a0 + b0 - c * WORD_MOD, a1 + b1 + c - d * WORD_MOD;
    CarryOver(q1 * WORD_MOD + q0, d, a1 * WORD_MOD + a0 + (b1 * WORD_MOD + b0));
    assert Result(e, s, OPR_ADC, a0, b0) == q0;
  }

  /** Two subtractions with borrow likewise subtract them. */
  lemma LongDifference(e: Env, s: State, a1: Word, a0: Word, b1: Word, b0: Word)
    requires |s.mem| > 0 && !s.flags.c
    ensures var q0 := Result(e, s, OPR_SBC, a0, b0);
            var q1 := Result(e, s.(flags := FlagsAfter(s, OPR_SBC, a0, b0, q0)), OPR_SBC, a1, b1);
            q1 * WORD_MOD + q0 == (a1 * WORD_MOD + a0 - (b1 * WORD_MOD + b0)) % (WORD_MOD * WORD_MOD)
  {
    var c := if a0 < b0 then 1 else 0;
    var d := if a1 - b1 - c < 0 then 1 else 0;
    var q0, q1 := a0 - b0 + c * WORD_MOD, a1 - b1 - c + d * WORD_MOD;
    CarryOver(q1 * WORD_MOD + q0, 0 - d, a1 * WORD_MOD + a0 - (b1 * WORD_MOD + b0));
    assert Result(e, s, OPR_SBC, a0, b0) == q0;
  }

  function Exec(e: Env, s: State, f: Instr): (t: State)
    requires |s.mem| > 0
    ensures |t.regs| == |s.regs| && |t.mem| == |s.mem|
  {
    if !CondHolds(f.cond, s.flags) then s
    else
      var a := OperandA(s, f);
      var b := OperandB(e, s, f);
      var q := Result(e, s, f.opr, a, b);
      State(
        if WritesRegD(f.opr) then SetReg(s.regs, f.rd, q) else s.regs,
        if StoresLocal(f.opr) then s.mem[Cell(e, s.mem, b) := a] else s.mem,
        if f.s == 1 then FlagsAfter(s, f.opr, a, b, q) else s.flags)
  }

  function Run(e: Env, s: State, program: seq<Instr>): (t: State)
    requires |s.mem| > 0
    ensures |t.regs| == |s.regs| && |t.mem| == |s.mem|
    decreases |program|
  {
    if program == [] then s else Run(e, Exec(e, s, program[0]), program[1..])
  }

  lemma RunCons(e: Env, s: State, f: Instr, rest: seq<Instr>)
    requires |s.mem| > 0
    ensures Run(e, s, [f] + rest) == Run(e, Exec(e, s, f), rest)
  {
    assert ([f] + rest)[1..] == rest;
  }

  lemma RunOne(e: Env, s: State, f: Instr)
    requires |s.mem| > 0
    ensures Run(e, s, [f]) == Exec(e, s, f)
  {
  }

  lemma {:induction false} RunConcat(e: Env, s: State, p: seq<Instr>, q: seq<Instr>)
    requires |s.mem| > 0
    ensures Run(e, s, p + q) == Run(e, Run(e, s, p), q)
    decreases |p|
  {
    if p == [] {
      assert p + q == q;
    } else {
      assert (p + q)[1..] == p[1..] + q;
      RunConcat(e, Exec(e, s, p[0]), p[1..], q);
    }
  }
}
