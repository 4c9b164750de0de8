/**
  A run whose last lane runs past the end of memory does no harm as long as no instruction reaches there:
  the memory extended to hold all rows stands in for the real one.
 */
module Reach {
  import opened Words
  import opened Arithmetic
  import opened Isa
  import opened Machine
  import opened LaneSimulation
  import opened DeviceRun

  /** How far into its segment an instruction reaches: its offset has seven bits. */
  function Span(width: nat): nat {
    if width < 128 then width else 128
  }

  /** The first address that the lanes of `rows` rows cannot reach. */
  function Reached(rows: nat, width: nat): nat {
    if rows == 0 then 0 else Times(rows - 1, width) + Span(width)
  }

  // ---- a machine with more memory ----

  /** `t` is `s` with memory added at the end. */
  ghost predicate Extends(s: State, t: State) {
    t.regs == s.regs && t.flags == s.flags && 0 < |s.mem| <= |t.mem| && t.mem[..|s.mem|] == s.mem
  }

  predicate AddressesMemory(f: Instr) {
    f.opr == OPR_LDL || f.opr == OPR_STL
  }

  /** The instruction addresses memory that both have. */
  ghost predicate Below(e: Env, s: State, f: Instr, size: nat) {
    AddressesMemory(f) ==> OperandB(e, s, f) < size
  }

  lemma SameCellBelow(e: Env, s: State, t: State, a: Word)
    requires Extends(s, t) && e.window == 0 && a < |s.mem|
    ensures Cell(e, s.mem, a) == Cell(e, t.mem, a) == a && s.mem[a] == t.mem[a]
  {
    SmallMod(a, |s.mem|);
    SmallMod(a, |t.mem|);
    assert t.mem[..|s.mem|][a] == t.mem[a];
  }

  lemma ExtendsExec(e: Env, s: State, t: State, f: Instr)
    requires Extends(s, t) && e.window == 0 && Below(e, t, f, |s.mem|)
    ensures Extends(Exec(e, s, f), Exec(e, t, f))
  {
    var a, b := OperandA(s, f), OperandB(e, s, f);
    assert a == OperandA(t, f) && b == OperandB(e, t, f);
    if AddressesMemory(f) {
      SameCellBelow(e, s, t, b);
    }
    assert Result(e, s, f.opr, a, b) == Result(e, t, f.opr, a, b);
    assert FlagsAfter(s, f.opr, a, b, Result(e, s, f.opr, a, b)) == FlagsAfter(t, f.opr, a, b, Result(e, s, f.opr, a, b));
  }

  /** A lane's copy of a body instruction stays below the lane's start plus the span. */
  lemma LaneBelow(e: Env, t: State, f: Instr, base: nat, width: nat, lane: nat, size: nat)
    requires Pivots(t, base, width) && lane < PARALLEL_CNT && BodyInstr(f, width)
    requires base + 2 * width + Span(width) <= size
    ensures Below(e, t, LaneInstr(f, lane), size)
  {
  }

  lemma ExtendsCopy(e: Env, s: State, t: State, f: Instr, base: nat, width: nat, lane: nat)
    requires Extends(s, t) && Pivots(t, base, width) && lane < PARALLEL_CNT && e.window == 0 && BodyInstr(f, width)
    requires base + 2 * width + Span(width) <= |s.mem|
    ensures Extends(Exec(e, s, LaneInstr(f, lane)), Exec(e, t, LaneInstr(f, lane)))
    ensures Pivots(Exec(e, t, LaneInstr(f, lane)), base, width)
  {
    LaneBelow(e, t, f, base, width, lane, |s.mem|);
    ExtendsExec(e, s, t, LaneInstr(f, lane));
    StepLanes(e, t, f, base, width, lane);
  }

  lemma ExtendsGroup(e: Env, s: State, t: State, f: Instr, base: nat, width: nat)
    requires Extends(s, t) && Pivots(t, base, width) && e.window == 0 && BodyInstr(f, width)
    requires base + 2 * width + Span(width) <= |s.mem|
    ensures Extends(Run(e, s, EmitInstr(f)), Run(e, t, EmitInstr(f)))
    ensures Pivots(Run(e, t, EmitInstr(f)), base, width)
  {
    if f.opr == OPR_NOP {
      NopIdles(e, s);
      NopIdles(e, t);
      RunOne(e, s, NOP);
      RunOne(e, t, NOP);
    } else {
      RunGroup(e, s, f);
      RunGroup(e, t, f);
      ExtendsCopy(e, s, t, f, base, width, 0);
      var s1, t1 := Exec(e, s, LaneInstr(f, 0)), Exec(e, t, LaneInstr(f, 0));
      ExtendsCopy(e, s1, t1, f, base, width, 1);
      ExtendsCopy(e, Exec(e, s1, LaneInstr(f, 1)), Exec(e, t1, LaneInstr(f, 1)), f, base, width, 2);
    }
  }

  lemma {:induction false} ExtendsBody(e: Env, s: State, t: State, program: seq<Instr>, base: nat, width: nat)
    requires Extends(s, t) && Pivots(t, base, width) && e.window == 0 && BodyProgram(program, width)
    requires base + 2 * width + Span(width) <= |s.mem|
    ensures Extends(Run(e, s, EmitBody(program)), Run(e, t, EmitBody(program)))
    decreases |program|
  {
    if program != [] {
      var group, rest := EmitInstr(program[0]), EmitBody(program[1..]);
      ExtendsGroup(e, s, t, program[0], base, width);
      ExtendsBody(e, Run(e, s, group), Run(e, t, group), program[1..], base, width);
      RunConcat(e, s, group, rest);
      RunConcat(e, t, group, rest);
    }
  }

  /** The prologue gives both machines the same registers and writes no memory. */
  lemma ExtendsPrologue(e: Env, s: State, t: State, base: nat, width: nat)
    requires Extends(s, t) && |t.regs| == 32 && 0 < width < 256 && e.cycleBase == base
    requires base + PARALLEL_CNT * width <= |t.mem| < SIGN_BIT
    ensures Extends(Run(e, s, Prologue(width)), Run(e, t, Prologue(width)))
    ensures Pivots(Run(e, t, Prologue(width)), base, width)
  {
    PrologueSetsPivots(e, s, base, width);
    PrologueSetsPivots(e, t, base, width);
  }

  lemma ExtendsPass(e: Env, s: State, t: State, program: seq<Instr>, base: nat, width: nat)
    requires Extends(s, t) && |t.regs| == 32 && 0 < width < 256 && e.cycleBase == base && e.window == 0
    requires base + PARALLEL_CNT * width <= |t.mem| < SIGN_BIT && base + 2 * width + Span(width) <= |s.mem|
    requires BodyProgram(program, width)
    ensures Extends(Run(e, s, Emit(program, width)), Run(e, t, Emit(program, width)))
  {
    ExtendsPrologue(e, s, t, base, width);
    RunConcat(e, s, Prologue(width), EmitBody(program));
    RunConcat(e, t, Prologue(width), EmitBody(program));
    ExtendsBody(e, Run(e, s, Prologue(width)), Run(e, t, Prologue(width)), program, base, width);
  }

  /** The last lane of an earlier pass reaches no further than that of the last one. */
  lemma ReachedInPass(c: nat, width: nat)
    ensures Reached(PARALLEL_CNT * (c + 1), width) == Times(PARALLEL_CNT * c, width) + 2 * width + Span(width)
    ensures Reached(PARALLEL_CNT * c, width) <= Reached(PARALLEL_CNT * (c + 1), width)
    ensures Times(PARALLEL_CNT * (c + 1), width) == Times(PARALLEL_CNT * c, width) + PARALLEL_CNT * width
  {
    RowPlace(c, 0, width);
    var b := PARALLEL_CNT * c;
    assert Times(b + 1, width) == Times(b, width) + width;
    assert Times(b + 2, width) == Times(b + 1, width) + width;
  }

  lemma {:induction false} ExtendsCycles(e: Env, s: State, t: State, program: seq<Instr>, width: nat, n: nat)
    requires Extends(s, t) && |t.regs| == 32 && 0 < width < 256 && e.window == 0 && BodyProgram(program, width)
    requires Times(PARALLEL_CNT * n, width) <= |t.mem| < SIGN_BIT && Reached(PARALLEL_CNT * n, width) <= |s.mem|
    ensures var code, size := Emit(program, width), PARALLEL_CNT * width;
            Extends(RunCycles(e, s, code, size, n), RunCycles(e, t, code, size, n))
  {
    if n > 0 {
      var c, code, size := n - 1, Emit(program, width), PARALLEL_CNT * width;
      var base := Times(PARALLEL_CNT * c, width);
      ReachedInPass(c, width);
      TimesThrice(c, width);
      ExtendsCycles(e, s, t, program, width, c);
      LastCycle(e, s, code, size, c, base);
      LastCycle(e, t, code, size, c, base);
      ExtendsPass(e.(cycleBase := base), RunCycles(e, s, code, size, c), RunCycles(e, t, code, size, c), program,
                  base, width);
    }
  }

  // ---- rows that fit ----

  /** After the run the row holds f of what it held before. */
  ghost predicate RowServed(e: Env, s: State, code: seq<Instr>, width: nat, cycles: nat, f: RowFunction, j: nat)
    requires 0 < |s.mem| && Times(j, width) + width <= |s.mem|
  {
    Row(RunCycles(e, s, code, PARALLEL_CNT * width, cycles).mem, width, j) == f(j, Row(s.mem, width, j))
  }

  /** Every row of the cycles that fits a memory of `depth` words is served, whatever else a thread holds. */
  ghost predicate Serves(e: Env, code: seq<Instr>, width: nat, depth: nat, cycles: nat, f: RowFunction) {
    forall s: State, j: nat {:trigger RowServed(e, s, code, width, cycles, f, j)} ::
      |s.regs| == 32 && 0 < |s.mem| == depth && j < PARALLEL_CNT * cycles && Times(j, width) + width <= depth ==>
        RowServed(e, s, code, width, cycles, f, j)
  }

  lemma SameRow(s: State, t: State, width: nat, j: nat)
    requires Extends(s, t) && Times(j, width) + width <= |s.mem|
    ensures Row(t.mem, width, j) == Row(s.mem, width, j)
  {
    var a := Times(j, width);
    assert t.mem[..|s.mem|][a..a + width] == t.mem[a..a + width];
  }

  lemma RowIsServed(e: Env, s: State, t: State, program: seq<Instr>, width: nat, cycles: nat, f: RowFunction, j: nat)
    requires Extends(s, t) && |t.regs| == 32 && 0 < width < 256 && e.window == 0 && BodyProgram(program, width)
    requires Times(PARALLEL_CNT * cycles, width) <= |t.mem| < SIGN_BIT
    requires Reached(PARALLEL_CNT * cycles, width) <= |s.mem|
    requires Implements(e, Emit(program, width), width, f)
    requires j < PARALLEL_CNT * cycles && Times(j, width) + width <= |s.mem|
    ensures RowServed(e, s, Emit(program, width), width, cycles, f, j)
  {
    var code, size := Emit(program, width), PARALLEL_CNT * width;
    AllCycles(e, t, code, width, cycles, f);
    ExtendsCycles(e, s, t, program, width, cycles);
    var s', t' := RunCycles(e, s, code, size, cycles), RunCycles(e, t, code, size, cycles);
    SameRow(s, t, width, j);
    SameRow(s', t', width, j);
    assert Row(t'.mem, width, j) == f(j, Row(t.mem, width, j));
  }

  /** A run whose rows stay within reach serves every row that fits. */
  lemma EmitServes(e: Env, program: seq<Instr>, width: nat, depth: nat, cycles: nat)
    requires 0 < width < 256 && e.window == 0 && TaskProgram(program, width)
    requires Reached(PARALLEL_CNT * cycles, width) <= depth < SIGN_BIT - 128
    ensures Serves(e, Emit(program, width), width, depth, cycles, RowResults(e, program, width))
  {
    var code, f, all := Emit(program, width), RowResults(e, program, width), Times(PARALLEL_CNT * cycles, width);
    EmitImplements(e, program, width);
    forall s: State, j: nat |
        |s.regs| == 32 && 0 < |s.mem| == depth && j < PARALLEL_CNT * cycles && Times(j, width) + width <= depth
      ensures RowServed(e, s, code, width, cycles, f, j)
    {
      var padding: seq<Word> := seq(if all <= depth then 0 else all - depth, _ => 0);
      var t := s.(mem := s.mem + padding);
      RowIsServed(e, s, t, program, width, cycles, f, j);
    }
  }
}
