/**
  The GPPCU instruction word: its seven fields, the three assembler formats,
  the register-use tables, and the renaming of one word for one lane.
 */
module Isa {
  import opened Words

  const OPR_NOP := 0
  const OPR_MOV := 1
  const OPR_MVN := 2
  const OPR_ADC := 3
  const OPR_SBC := 4
  const OPR_AND := 5
  const OPR_ORR := 6
  const OPR_XOR := 7
  const OPR_ADI := 8
  const OPR_SBI := 9
  const OPR_MVI := 10
  const OPR_LSL := 11
  const OPR_LSR := 12
  const OPR_ASR := 13
  const OPR_ITOF := 14
  const OPR_FTOI := 15
  const OPR_FMUL := 16
  const OPR_FDIV := 17
  const OPR_FADD := 18
  const OPR_FSUB := 19
  const OPR_FNEG := 20
  const OPR_FSQRT := 21
  const OPR_LDL := 22
  const OPR_LDCI := 23
  const OPR_STL := 24

  const COND_ALWAYS := 0

  const PARALLEL_CNT := 3
  const REG_PER_THREAD := 10
  const REGPIVOT := 9

  type U1 = x: int | 0 <= x < 2
  type U4 = x: int | 0 <= x < 16
  type U5 = x: int | 0 <= x < 32
  type U7 = x: int | 0 <= x < 128

  /** An instruction by its fields, most significant first. */
  datatype Instr = Instr(cond: U4, opr: U5, s: U1, rd: U5, ra: U5, imm7: U7, rb: U5) {
    // Formats B and C overlay wider immediates on the low fields.
    function Imm12(): nat {
      imm7 * 32 + rb
    }

    function Imm17(): nat {
      ra * 4096 + Imm12()
    }
  }

  const NOP := Instr(0, 0, 0, 0, 0, 0, 0)

  function Decode(w: Word): Instr {
    Instr(w / 0x1000_0000, w / 0x80_0000 % 32, w / 0x40_0000 % 2, w / 0x2_0000 % 32, w / 0x1000 % 32, w / 32 % 128, w % 32)
  }

  /** A field of 2, 32 or 128 values comes back off the low end of a word. */
  lemma Peel(q: int, r: nat)
    ensures r < 2 ==> (q * 2 + r) / 2 == q && (q * 2 + r) % 2 == r
    ensures r < 32 ==> (q * 32 + r) / 32 == q && (q * 32 + r) % 32 == r
    ensures r < 128 ==> (q * 128 + r) / 128 == q && (q * 128 + r) % 128 == r
  {
  }

  lemma NestedShifts(w: int)
    requires 0 <= w
    ensures w / 0x1000 == w / 32 / 128
    ensures w / 0x2_0000 == w / 0x1000 / 32
    ensures w / 0x40_0000 == w / 0x2_0000 / 32
    ensures w / 0x80_0000 == w / 0x40_0000 / 2
    ensures w / 0x1000_0000 == w / 0x80_0000 / 32
  {
  }

  function Pack(f: Instr): int {
    f.cond * 0x1000_0000 + f.opr * 0x80_0000 + f.s * 0x40_0000 + f.rd * 0x2_0000 + f.ra * 0x1000 + f.imm7 * 32 + f.rb
  }

  lemma PackRange(f: Instr)
    ensures 0 <= Pack(f) < WORD_MOD
  {
  }

  lemma PackUnpack(f: Instr)
    ensures 0 <= Pack(f) < WORD_MOD
    ensures Decode(Pack(f)) == f
  {
    var q1 := f.cond * 32 + f.opr;
    var q2 := q1 * 2 + f.s;
    var q3 := q2 * 32 + f.rd;
    var q4 := q3 * 32 + f.ra;
    var q5 := q4 * 128 + f.imm7;
    var w := q5 * 32 + f.rb;
    assert w == Pack(f);
    NestedShifts(w);
    Peel(q5, f.rb);
    Peel(q4, f.imm7);
    Peel(q3, f.ra);
    Peel(q2, f.rd);
    Peel(q1, f.s);
    Peel(f.cond, f.opr);
  }

  function Encode(f: Instr): Word {
    PackRange(f);
    Pack(f)
  }

  /** Packing and field extraction are inverse to each other. */
  lemma DecodeEncode(f: Instr)
    ensures Decode(Encode(f)) == f
  {
    PackUnpack(f);
  }

  lemma EncodeDecode(w: Word)
    ensures Encode(Decode(w)) == w
  {
    NestedShifts(w);
  }

  function DecodeAll(words: seq<Word>): (program: seq<Instr>)
    ensures |program| == |words|
  {
    if words == [] then [] else [Decode(words[0])] + DecodeAll(words[1..])
  }

  lemma {:induction false} DecodeAllConcat(a: seq<Word>, b: seq<Word>)
    ensures DecodeAll(a + b) == DecodeAll(a) + DecodeAll(b)
    decreases |a|
  {
    if a == [] {
      assert a + b == b;
    } else {
      assert (a + b)[1..] == a[1..] + b;
      DecodeAllConcat(a[1..], b);
    }
  }

  lemma {:induction false} DecodeAllPick(words: seq<Word>, i: nat)
    requires i < |words|
    ensures DecodeAll(words)[i] == Decode(words[i])
  {
    if i > 0 {
      DecodeAllPick(words[1..], i - 1);
    }
  }

  lemma DecodeAllSnoc(words: seq<Word>, w: Word)
    ensures DecodeAll(words + [w]) == DecodeAll(words) + [Decode(w)]
  {
    DecodeAllConcat(words, [w]);
  }

  // The assembler macros, by fields. The macro's bit ranges are disjoint, so its `|` is the `+` of Pack;
  // an immediate is masked to its width, which for a negative number is its Euclidean remainder.

  function FormatA(opr: nat, rd: nat, ra: nat, imm: int, rb: nat): Instr
    requires opr < 32 && rd < 32 && ra < 32 && rb < 32
  {
    Instr(COND_ALWAYS, opr, 0, rd, ra, imm % 128, rb)
  }

  /** `rd` may be too wide for its five bits, as in the third prologue instruction; bit 5 then lands in S. */
  function FormatB(opr: nat, rd: nat, ra: nat, imm: int): Instr
    requires opr < 32 && rd < 64 && ra < 32
  {
    Instr(COND_ALWAYS, opr, rd / 32, rd % 32, ra, imm / 32 % 128, imm % 32)
  }

  function FormatC(opr: nat, rd: nat, imm: int): Instr
    requires opr < 32 && rd < 32
  {
    Instr(COND_ALWAYS, opr, 0, rd, imm / 4096 % 32, imm / 32 % 128, imm % 32)
  }

  lemma Immediates(opr: nat, rd: nat, ra: nat, imm: int)
    requires opr < 32 && rd < 32 && ra < 32
    ensures FormatB(opr, rd, ra, imm).Imm12() == imm % 4096
    ensures FormatC(opr, rd, imm).Imm17() == imm % 0x2_0000
  {
    assert imm / 4096 == imm / 32 / 128;
  }

  predicate UsesRegD(opc: nat) {
    1 <= opc <= 23 && opc != OPR_FNEG
  }

  predicate UsesRegA(opc: nat) {
    3 <= opc <= 9 || 11 <= opc <= 22 || opc == OPR_STL
  }

  predicate UsesRegB(opc: nat) {
    1 <= opc <= 7 || 16 <= opc <= 19 || opc == OPR_LDL || opc == OPR_STL
  }

  /** The register fields that the tables call used lie below the ten registers of a lane. */
  predicate LaneRegisters(f: Instr) {
    && (UsesRegD(f.opr) ==> f.rd < REG_PER_THREAD)
    && (UsesRegA(f.opr) ==> f.ra < REG_PER_THREAD)
    && (UsesRegB(f.opr) ==> f.rb < REG_PER_THREAD)
  }

  function LaneInstr(f: Instr, lane: nat): Instr
    requires LaneRegisters(f) && lane < PARALLEL_CNT
  {
    var k := lane * REG_PER_THREAD;
    f.(rd := if UsesRegD(f.opr) then f.rd + k else f.rd,
       ra := if UsesRegA(f.opr) then f.ra + k else f.ra,
       rb := if UsesRegB(f.opr) then f.rb + k else f.rb)
  }

  function AddIf(use: bool, w: Word, d: nat): Word {
    if use then (w + d) % WORD_MOD else w
  }

  /** What the emitter adds to a packed word of the given opcode for one lane, wrapping at 32 bits. */
  function AddLane(w: Word, opc: nat, lane: nat): Word {
    var k := lane * REG_PER_THREAD;
    AddIf(UsesRegD(opc), AddIf(UsesRegB(opc), AddIf(UsesRegA(opc), w, k * 0x1000), k), k * 0x2_0000)
  }

  function LaneWord(w: Word, lane: nat): Word {
    AddLane(w, w / 0x80_0000 % 32, lane)
  }

  lemma AddIfFits(use: bool, w: Word, v: Word, d: nat)
    requires v == w + if use then d else 0
    ensures AddIf(use, w, d) == v
  {
  }

  lemma AddIfPacks(use: bool, f: Instr, g: Instr, d: nat)
    requires Pack(g) == Pack(f) + if use then d else 0
    ensures 0 <= Pack(f) < WORD_MOD && AddIf(use, Pack(f), d) == Pack(g)
  {
    PackRange(f);
    PackRange(g);
    AddIfFits(use, Pack(f), Pack(g), d);
  }

  lemma AddLanePacks(f: Instr, lane: nat)
    requires LaneRegisters(f) && lane < PARALLEL_CNT
    ensures 0 <= Pack(f) < WORD_MOD
    ensures AddLane(Pack(f), f.opr, lane) == Pack(LaneInstr(f, lane))
  {
    var g, k := LaneInstr(f, lane), lane * REG_PER_THREAD;
    AddIfPacks(UsesRegA(f.opr), f, f.(ra := g.ra), k * 0x1000);
    AddIfPacks(UsesRegB(f.opr), f.(ra := g.ra), f.(ra := g.ra, rb := g.rb), k);
    AddIfPacks(UsesRegD(f.opr), f.(ra := g.ra, rb := g.rb), g, k * 0x2_0000);
  }

  lemma PackDecode(w: Word)
    ensures Pack(Decode(w)) == w
  {
    EncodeDecode(w);
  }

  /** No carry leaves a field: adding to the packed word is renaming the used registers. */
  lemma LaneWordRenames(w: Word, lane: nat)
    requires lane < PARALLEL_CNT && LaneRegisters(Decode(w))
    ensures LaneWord(w, lane) == Encode(LaneInstr(Decode(w), lane))
  {
    PackDecode(w);
    AddLanePacks(Decode(w), lane);
  }

  lemma LaneWordDecodes(w: Word, lane: nat)
    requires lane < PARALLEL_CNT && LaneRegisters(Decode(w))
    ensures Decode(LaneWord(w, lane)) == LaneInstr(Decode(w), lane)
  {
    LaneWordRenames(w, lane);
    DecodeEncode(LaneInstr(Decode(w), lane));
  }
}
