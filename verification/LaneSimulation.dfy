/**
  The three-copy rewriting of a program keeps its meaning: on the 32-register machine each lane
  does what the source program does alone on ten registers and its own memory segment.
 */
module LaneSimulation {
  import opened Words
  import opened Arithmetic
  import opened Isa
  import opened Machine

  /** The source instructions the rewriting is meant for, with memory reached only as pivot + offset. */
  predicate BodyInstr(f: Instr, width: nat) {
    && LaneRegisters(f)
    && f.s == 0
    && (UsesRegD(f.opr) ==> f.rd != REGPIVOT)
    && (f.opr == OPR_LDL || f.opr == OPR_STL ==> f.rb == REGPIVOT && f.imm7 < width)
  }

  predicate BodyProgram(program: seq<Instr>, width: nat) {
    forall i :: 0 <= i < |program| ==> BodyInstr(program[i], width)
  }

  /** Every lane's pivot register holds the first address of its segment. */
  predicate Pivots(s: State, base: nat, width: nat) {
    && |s.regs| == 32
    && base + PARALLEL_CNT * width <= |s.mem| <= WORD_MOD
    && width > 0
    && s.regs[9] == base
    && s.regs[19] == base + width
    && s.regs[29] == base + 2 * width
  }

  function Lane(s: State, base: nat, width: nat, lane: nat): (t: State)
    requires |s.regs| == 32 && base + PARALLEL_CNT * width <= |s.mem| && lane < PARALLEL_CNT
    ensures |t.regs| == REG_PER_THREAD && |t.mem| == width
  {
    var start := Start(base, width, lane);
    State(s.regs[lane * REG_PER_THREAD..lane * REG_PER_THREAD + REG_PER_THREAD], s.mem[start..start + width], s.flags)
  }

  function Start(base: nat, width: nat, lane: nat): nat
    requires lane < PARALLEL_CNT
  {
    if lane == 0 then base else if lane == 1 then base + width else base + 2 * width
  }

  function TaskEnv(e: Env, base: nat, width: nat, lane: nat): Env
    requires lane < PARALLEL_CNT
  {
    e.(window := Start(base, width, lane))
  }

  /** The renamed instruction reads the same operands as the source instruction does in its lane. */
  lemma SameOperands(e: Env, s: State, f: Instr, base: nat, width: nat, lane: nat)
    requires Pivots(s, base, width) && lane < PARALLEL_CNT && LaneRegisters(f)
    ensures OperandA(s, LaneInstr(f, lane)) == OperandA(Lane(s, base, width, lane), f)
    ensures OperandB(e, s, LaneInstr(f, lane)) == OperandB(TaskEnv(e, base, width, lane), Lane(s, base, width, lane), f)
  {
  }

  /** ... and reaches the cell of its own segment that the source instruction reaches. */
  lemma SameCell(e: Env, s: State, f: Instr, base: nat, width: nat, lane: nat)
    requires Pivots(s, base, width) && lane < PARALLEL_CNT && e.window == 0 && BodyInstr(f, width)
    requires f.opr == OPR_LDL || f.opr == OPR_STL
    ensures Cell(e, s.mem, OperandB(e, s, LaneInstr(f, lane))) == Start(base, width, lane) + f.imm7
    ensures var t := TaskEnv(e, base, width, lane);
            Cell(t, Lane(s, base, width, lane).mem, OperandB(t, Lane(s, base, width, lane), f)) == f.imm7
  {
    var a := Start(base, width, lane) + f.imm7;
    assert OperandB(e, s, LaneInstr(f, lane)) == a;
    SmallMod(a, |s.mem|);
    SmallMod(f.imm7, width);
    assert OperandB(TaskEnv(e, base, width, lane), Lane(s, base, width, lane), f) == a;
  }

  lemma StepOwnLane(e: Env, s: State, f: Instr, base: nat, width: nat, lane: nat)
    requires Pivots(s, base, width) && lane < PARALLEL_CNT && e.window == 0 && BodyInstr(f, width)
    ensures Lane(Exec(e, s, LaneInstr(f, lane)), base, width, lane)
         == Exec(TaskEnv(e, base, width, lane), Lane(s, base, width, lane), f)
  {
    var g, u, t := LaneInstr(f, lane), TaskEnv(e, base, width, lane), Lane(s, base, width, lane);
    SameOperands(e, s, f, base, width, lane);
    var a, b := OperandA(t, f), OperandB(u, t, f);
    if f.opr == OPR_LDL || f.opr == OPR_STL {
      SameCell(e, s, f, base, width, lane);
    }
    assert Result(e, s, g.opr, a, b) == Result(u, t, f.opr, a, b);
    var s', t' := Exec(e, s, g), Exec(u, t, f);
    assert Lane(s', base, width, lane).regs == t'.regs;
    assert Lane(s', base, width, lane).mem == t'.mem;
  }

  /** Everything a body instruction of one lane must leave alone. */
  ghost predicate OnlyLaneChanged(s: State, t: State, base: nat, width: nat, lane: nat)
    requires |s.regs| == 32 && base + PARALLEL_CNT * width <= |s.mem| && lane < PARALLEL_CNT
  {
    && |t.regs| == |s.regs| && |t.mem| == |s.mem|
    && t.flags == s.flags
    && (forall r :: 0 <= r < 32 && !(lane * REG_PER_THREAD <= r < lane * REG_PER_THREAD + REGPIVOT) ==> t.regs[r] == s.regs[r])
    && (forall a :: 0 <= a < |s.mem| && !(Start(base, width, lane) <= a < Start(base, width, lane) + width) ==> t.mem[a] == s.mem[a])
  }

  lemma StepFrame(e: Env, s: State, f: Instr, base: nat, width: nat, lane: nat)
    requires Pivots(s, base, width) && lane < PARALLEL_CNT && e.window == 0 && BodyInstr(f, width)
    ensures OnlyLaneChanged(s, Exec(e, s, LaneInstr(f, lane)), base, width, lane)
  {
    if f.opr == OPR_STL {
      SameCell(e, s, f, base, width, lane);
    }
  }

  /** One lane's copy of a source instruction: its own lane steps, the other two and their pivots stay. */
  lemma StepLanes(e: Env, s: State, f: Instr, base: nat, width: nat, lane: nat)
    requires Pivots(s, base, width) && lane < PARALLEL_CNT && e.window == 0 && BodyInstr(f, width)
    ensures var t := Exec(e, s, LaneInstr(f, lane));
            && Pivots(t, base, width)
            && OnlyLaneChanged(s, t, base, width, lane)
            && forall p: nat :: p < PARALLEL_CNT ==>
                 Lane(t, base, width, p)
                 == if p == lane then Exec(TaskEnv(e, base, width, p), Lane(s, base, width, p), f) else Lane(s, base, width, p)
  {
    StepOwnLane(e, s, f, base, width, lane);
    StepFrame(e, s, f, base, width, lane);
    var t := Exec(e, s, LaneInstr(f, lane));
    forall p: nat | p < PARALLEL_CNT && p != lane
      ensures Lane(t, base, width, p) == Lane(s, base, width, p)
    {
      assert Lane(t, base, width, p).regs == Lane(s, base, width, p).regs;
      assert Lane(t, base, width, p).mem == Lane(s, base, width, p).mem;
    }
  }

  // ---- what the emitter pushes ----

  predicate IsFloat(opc: nat) {
    OPR_ITOF <= opc <= OPR_FSQRT
  }

  function EmitInstr(f: Instr): seq<Instr>
    requires LaneRegisters(f)
  {
    if f.opr == OPR_NOP then [NOP]
    else [LaneInstr(f, 0), LaneInstr(f, 1), LaneInstr(f, 2), NOP] + (if IsFloat(f.opr) then [NOP] else [])
  }

  predicate AllLaneRegisters(program: seq<Instr>) {
    forall i :: 0 <= i < |program| ==> LaneRegisters(program[i])
  }

  function EmitBody(program: seq<Instr>): seq<Instr>
    requires AllLaneRegisters(program)
    decreases |program|
  {
    if program == [] then [] else EmitInstr(program[0]) + EmitBody(program[1..])
  }

  lemma NopIdles(e: Env, s: State)
    requires |s.mem| > 0
    ensures Exec(e, s, NOP) == s
  {
  }

  /** What one source instruction becomes moves all three lanes by one source step and nothing else. */
  ghost predicate GroupStep(e: Env, s: State, t: State, f: Instr, base: nat, width: nat)
    requires Pivots(s, base, width)
  {
    && Pivots(t, base, width)
    && Elsewhere(s, t, base, width)
    && forall p: nat :: p < PARALLEL_CNT ==>
         Lane(t, base, width, p) == Exec(TaskEnv(e, base, width, p), Lane(s, base, width, p), f)
  }

  ghost predicate Elsewhere(s: State, t: State, base: nat, width: nat) {
    && |t.regs| == |s.regs| == 32 && |t.mem| == |s.mem|
    && t.flags == s.flags && t.regs[30] == s.regs[30] && t.regs[31] == s.regs[31]
    && forall a :: 0 <= a < |s.mem| && !(base <= a < base + PARALLEL_CNT * width) ==> t.mem[a] == s.mem[a]
  }

  lemma SkipGroup(e: Env, s: State, f: Instr, base: nat, width: nat)
    requires Pivots(s, base, width) && BodyInstr(f, width) && f.opr == OPR_NOP
    ensures GroupStep(e, s, s, f, base, width)
  {
  }

  lemma ThreeCopies(e: Env, s: State, f: Instr, base: nat, width: nat)
    requires Pivots(s, base, width) && e.window == 0 && BodyInstr(f, width)
    ensures GroupStep(e, s, Exec(e, Exec(e, Exec(e, s, LaneInstr(f, 0)), LaneInstr(f, 1)), LaneInstr(f, 2)), f, base, width)
  {
    StepLanes(e, s, f, base, width, 0);
    var s1 := Exec(e, s, LaneInstr(f, 0));
    StepLanes(e, s1, f, base, width, 1);
    var s2 := Exec(e, s1, LaneInstr(f, 1));
    StepLanes(e, s2, f, base, width, 2);
  }

  lemma RunGroup(e: Env, s: State, f: Instr)
    requires |s.mem| > 0 && LaneRegisters(f) && f.opr != OPR_NOP
    ensures Run(e, s, EmitInstr(f)) == Exec(e, Exec(e, Exec(e, s, LaneInstr(f, 0)), LaneInstr(f, 1)), LaneInstr(f, 2))
  {
    var a, b, c := LaneInstr(f, 0), LaneInstr(f, 1), LaneInstr(f, 2);
    var s1 := Exec(e, s, a);
    var s2 := Exec(e, s1, b);
    var s3 := Exec(e, s2, c);
    var tail := if IsFloat(f.opr) then [NOP] else [];
    assert EmitInstr(f) == [a] + ([b] + ([c] + ([NOP] + tail)));
    RunCons(e, s, a, [b] + ([c] + ([NOP] + tail)));
    RunCons(e, s1, b, [c] + ([NOP] + tail));
    RunCons(e, s2, c, [NOP] + tail);
    RunCons(e, s3, NOP, tail);
    NopIdles(e, s3);
    RunOne(e, s3, NOP);
  }

  lemma Group(e: Env, s: State, f: Instr, base: nat, width: nat)
    requires Pivots(s, base, width) && e.window == 0 && BodyInstr(f, width)
    ensures GroupStep(e, s, Run(e, s, EmitInstr(f)), f, base, width)
  {
    if f.opr == OPR_NOP {
      NopIdles(e, s);
      RunOne(e, s, NOP);
      SkipGroup(e, s, f, base, width);
    } else {
      RunGroup(e, s, f);
      ThreeCopies(e, s, f, base, width);
    }
  }

  /** Every lane of `t` is where the source program takes that lane of `s` alone; nothing else moved. */
  ghost predicate LanesRan(e: Env, s: State, t: State, program: seq<Instr>, base: nat, width: nat)
    requires Pivots(s, base, width)
  {
    && Pivots(t, base, width)
    && Elsewhere(s, t, base, width)
    && forall p: nat :: p < PARALLEL_CNT ==>
         Lane(t, base, width, p) == Run(TaskEnv(e, base, width, p), Lane(s, base, width, p), program)
  }

  /** Main result: the rewritten program runs the source program in every lane, and nothing else moves. */
  lemma {:induction false} BodySimulation(e: Env, s: State, program: seq<Instr>, base: nat, width: nat)
    requires Pivots(s, base, width) && e.window == 0 && BodyProgram(program, width)
    ensures LanesRan(e, s, Run(e, s, EmitBody(program)), program, base, width)
    decreases |program|
  {
    if program != [] {
      var s1 := Run(e, s, EmitInstr(program[0]));
      Group(e, s, program[0], base, width);
      BodySimulation(e, s1, program[1..], base, width);
      RunConcat(e, s, EmitInstr(program[0]), EmitBody(program[1..]));
    }
  }
}
