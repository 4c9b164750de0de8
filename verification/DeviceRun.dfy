/**
  The whole emitted program: the prologue that gives each lane its base pointer, one device cycle,
  and the run of all cycles over one thread's local memory.
 */
module DeviceRun {
  import opened Words
  import opened Arithmetic
  import opened Isa
  import opened Machine
  import opened LaneSimulation

  // ---- prologue ----

  const LOAD_BASE: Instr := FormatC(OPR_LDCI, REGPIVOT, 0)

  /** The n-th pivot instruction; for n = 2 the destination is register 39, which no lane owns. */
  function PivotInstr(width: nat, n: nat): Instr
    requires n < PARALLEL_CNT
  {
    FormatB(OPR_ADI, REGPIVOT + REG_PER_THREAD * (n + 1), REGPIVOT, Times(n + 1, width))
  }

  /** Each instruction behind two bubbles. */
  function Spaced(words: seq<Instr>): seq<Instr>
    decreases |words|
  {
    if words == [] then [] else [NOP, NOP, words[0]] + Spaced(words[1..])
  }

  function PivotInstrs(width: nat, n: nat): seq<Instr>
    requires n <= PARALLEL_CNT
  {
    if n == 0 then [] else PivotInstrs(width, n - 1) + [PivotInstr(width, n - 1)]
  }

  function Prologue(width: nat): seq<Instr> {
    Spaced([LOAD_BASE] + PivotInstrs(width, PARALLEL_CNT)) + [NOP, NOP]
  }

  function Emit(program: seq<Instr>, width: nat): seq<Instr>
    requires AllLaneRegisters(program)
  {
    Prologue(width) + EmitBody(program)
  }

  lemma AfterNops(e: Env, s: State, rest: seq<Instr>)
    requires |s.mem| > 0
    ensures Run(e, s, [NOP, NOP] + rest) == Run(e, s, rest)
  {
    NopIdles(e, s);
    assert [NOP, NOP] + rest == [NOP] + ([NOP] + rest);
    RunCons(e, s, NOP, [NOP] + rest);
    RunCons(e, s, NOP, rest);
  }

  lemma {:induction false} RunSpaced(e: Env, s: State, words: seq<Instr>)
    requires |s.mem| > 0
    ensures Run(e, s, Spaced(words) + [NOP, NOP]) == Run(e, s, words)
    decreases |words|
  {
    var tail := [NOP, NOP];
    if words == [] {
      assert Spaced(words) + tail == tail + [];
      AfterNops(e, s, []);
    } else {
      var w, rest := words[0], Spaced(words[1..]) + tail;
      assert Spaced(words) + tail == [NOP, NOP] + ([w] + rest);
      AfterNops(e, s, [w] + rest);
      RunCons(e, s, w, rest);
      RunSpaced(e, Exec(e, s, w), words[1..]);
    }
  }

  lemma RunFour(e: Env, s: State, a: Instr, b: Instr, c: Instr, d: Instr)
    requires |s.mem| > 0
    ensures Run(e, s, [a, b, c, d]) == Exec(e, Exec(e, Exec(e, Exec(e, s, a), b), c), d)
  {
    var s1 := Exec(e, s, a);
    var s2 := Exec(e, s1, b);
    var s3 := Exec(e, s2, c);
    assert [a, b, c, d] == [a] + ([b] + ([c] + ([d] + [])));
    RunCons(e, s, a, [b] + ([c] + ([d] + [])));
    RunCons(e, s1, b, [c] + ([d] + []));
    RunCons(e, s2, c, [d] + []);
    RunCons(e, s3, d, []);
  }

  lemma LoadConstant(e: Env, s: State, f: Instr)
    requires |s.mem| > 0
    requires f.cond == COND_ALWAYS && f.opr == OPR_LDCI && f.s == 0
    ensures Exec(e, s, f) == s.(regs := SetReg(s.regs, f.rd, Constant(e, f.Imm17())))
  {
  }

  lemma LoadBase(e: Env, s: State)
    requires |s.regs| == 32 && |s.mem| > 0
    ensures Exec(e, s, LOAD_BASE) == s.(regs := s.regs[REGPIVOT := e.cycleBase])
  {
    LoadConstant(e, s, LOAD_BASE);
  }

  lemma AddImmediate(e: Env, s: State, f: Instr, base: nat, d: nat)
    requires |s.mem| > 0 && |s.regs| == 32
    requires f.cond == COND_ALWAYS && f.opr == OPR_ADI && f.ra == REGPIVOT && f.Imm12() == d
    requires s.regs[REGPIVOT] == base && 0 < d && base + d < SIGN_BIT
    ensures Exec(e, s, f) == State(s.regs[f.rd := base + d], s.mem, if f.s == 1 then CLEAR else s.flags)
  {
    SmallSum(s, base, d);
    assert OperandA(s, f) == base && OperandB(e, s, f) == d;
    assert Result(e, s, OPR_ADI, base, d) == base + d;
  }

  /** A sum of two small numbers neither wraps nor raises a flag. */
  lemma SmallSum(s: State, base: nat, d: nat)
    requires 0 < d && base + d < SIGN_BIT
    ensures Add32(base, d) == base + d && FlagsAfter(s, OPR_ADI, base, d, base + d) == CLEAR
  {
  }

  lemma SmallImmediate(opr: nat, rd: nat, ra: nat, imm: nat)
    requires opr < 32 && rd < 64 && ra < 32 && imm < 4096
    ensures FormatB(opr, rd, ra, imm).Imm12() == imm
  {
    Immediates(opr, rd % 32, ra, imm);
  }

  /** The fields of the three pivot instructions; the third one's register 39 is S and register 7. */
  lemma PivotFields(width: nat, n: nat)
    requires n < PARALLEL_CNT && 0 < width < 256
    ensures var f := PivotInstr(width, n);
            && f.cond == COND_ALWAYS && f.opr == OPR_ADI && f.ra == REGPIVOT
            && f.rd == (if n == 0 then 19 else if n == 1 then 29 else 7) && f.s == (if n == 2 then 1 else 0)
            && f.Imm12() == (if n == 0 then width else if n == 1 then 2 * width else 3 * width)
  {
    assert Times(1, width) == width;
    assert Times(2, width) == 2 * width;
    assert Times(3, width) == 3 * width;
    SmallImmediate(OPR_ADI, REGPIVOT + REG_PER_THREAD * (n + 1), REGPIVOT, Times(n + 1, width));
  }

  lemma PivotStep(e: Env, s: State, base: nat, width: nat, n: nat)
    requires |s.regs| == 32 && |s.mem| > 0 && n < PARALLEL_CNT && 0 < width < 256
    requires s.regs[REGPIVOT] == base && base + PARALLEL_CNT * width < SIGN_BIT
    ensures Exec(e, s, PivotInstr(width, n))
         == if n == 0 then s.(regs := s.regs[19 := base + width])
            else if n == 1 then s.(regs := s.regs[29 := base + 2 * width])
            else State(s.regs[7 := base + 3 * width], s.mem, CLEAR)
  {
    PivotFields(width, n);
    PivotExec(e, s, PivotInstr(width, n), base, width, n);
  }

  lemma PivotExec(e: Env, s: State, f: Instr, base: nat, width: nat, n: nat)
    requires |s.regs| == 32 && |s.mem| > 0 && n < PARALLEL_CNT && 0 < width < 256
    requires s.regs[REGPIVOT] == base && base + PARALLEL_CNT * width < SIGN_BIT
    requires f.cond == COND_ALWAYS && f.opr == OPR_ADI && f.ra == REGPIVOT
    requires f.rd == (if n == 0 then 19 else if n == 1 then 29 else 7) && f.s == (if n == 2 then 1 else 0)
    requires f.Imm12() == (if n == 0 then width else if n == 1 then 2 * width else 3 * width)
    ensures Exec(e, s, f)
         == if n == 0 then s.(regs := s.regs[19 := base + width])
            else if n == 1 then s.(regs := s.regs[29 := base + 2 * width])
            else State(s.regs[7 := base + 3 * width], s.mem, CLEAR)
  {
    AddImmediate(e, s, f, base, f.Imm12());
  }

  lemma ThreePivots(width: nat)
    ensures [LOAD_BASE] + PivotInstrs(width, PARALLEL_CNT)
         == [LOAD_BASE, PivotInstr(width, 0), PivotInstr(width, 1), PivotInstr(width, 2)]
  {
    assert PivotInstrs(width, 1) == [PivotInstr(width, 0)];
    assert PivotInstrs(width, 2) == [PivotInstr(width, 0), PivotInstr(width, 1)];
  }

  /** The prologue sets the three pivots, spoils R7 of lane 0, clears the flags and touches no memory. */
  lemma PrologueSetsPivots(e: Env, s: State, base: nat, width: nat)
    requires |s.regs| == 32 && |s.mem| > 0 && 0 < width < 256
    requires e.cycleBase == base && base + PARALLEL_CNT * width < SIGN_BIT
    ensures Run(e, s, Prologue(width))
         == State(s.regs[9 := base][19 := base + width][29 := base + 2 * width][7 := base + 3 * width], s.mem, CLEAR)
  {
    var l, p0, p1, p2 := LOAD_BASE, PivotInstr(width, 0), PivotInstr(width, 1), PivotInstr(width, 2);
    ThreePivots(width);
    RunSpaced(e, s, [l, p0, p1, p2]);
    RunFour(e, s, l, p0, p1, p2);
    LoadBase(e, s);
    var s0 := s.(regs := s.regs[REGPIVOT := base]);
    PivotStep(e, s0, base, width, 0);
    var s1 := s0.(regs := s0.regs[19 := base + width]);
    PivotStep(e, s1, base, width, 1);
    var s2 := s1.(regs := s1.regs[29 := base + 2 * width]);
    PivotStep(e, s2, base, width, 2);
  }

  // ---- one task alone ----

  /**
    No register is read before the program has written it; only the pivot holds a value at the start.
    Which conditional words execute is known: the flags are clear and no word sets them.
   */
  predicate InitBeforeUse(program: seq<Instr>, defined: set<nat>)
    decreases |program|
  {
    if program == [] then true
    else
      var f := program[0];
      if !CondHolds(f.cond, CLEAR) then InitBeforeUse(program[1..], defined)
      else
        && (ReadsRegA(f.opr) ==> f.ra in defined)
        && (ReadsRegB(f.opr) ==> f.rb in defined)
        && InitBeforeUse(program[1..], if WritesRegD(f.opr) then defined + {f.rd} else defined)
  }

  predicate TaskProgram(program: seq<Instr>, width: nat) {
    BodyProgram(program, width) && InitBeforeUse(program, {REGPIVOT})
  }

  const ZERO_REGS: seq<Word> := [0, 0, 0, 0, 0, 0, 0, 0, 0, 0]

  /** The source program run once on one record, with the record's address in the pivot register. */
  function TaskResult(e: Env, program: seq<Instr>, start: Word, record: seq<Word>): (r: seq<Word>)
    requires |record| > 0
    ensures |r| == |record|
  {
    Run(e.(window := start), State(ZERO_REGS[REGPIVOT := start], record, CLEAR), program).mem
  }

  ghost predicate AgreeOn(s: State, t: State, defined: set<nat>) {
    && |s.regs| == |t.regs| == REG_PER_THREAD && s.mem == t.mem && s.flags == t.flags == CLEAR
    && forall r :: r in defined && r < REG_PER_THREAD ==> s.regs[r] == t.regs[r]
  }

  lemma AgreeStep(e: Env, s: State, t: State, f: Instr, defined: set<nat>, width: nat)
    requires AgreeOn(s, t, defined) && |s.mem| > 0 && BodyInstr(f, width)
    requires InitBeforeUse([f], defined)
    ensures AgreeOn(Exec(e, s, f), Exec(e, t, f),
                    if CondHolds(f.cond, CLEAR) && WritesRegD(f.opr) then defined + {f.rd} else defined)
  {
    if CondHolds(f.cond, CLEAR) {
      var a, b := OperandA(s, f), OperandB(e, s, f);
      assert a == OperandA(t, f);
      assert b == OperandB(e, t, f);
      assert Result(e, s, f.opr, a, b) == Result(e, t, f.opr, a, b);
    }
  }

  /** Such a program computes the same memory whatever the other registers held. */
  lemma {:induction false} RegistersDoNotMatter(e: Env, s: State, t: State, program: seq<Instr>, defined: set<nat>,
          width: nat)
    requires AgreeOn(s, t, defined) && |s.mem| > 0
    requires BodyProgram(program, width) && InitBeforeUse(program, defined)
    ensures Run(e, s, program).mem == Run(e, t, program).mem
    decreases |program|
  {
    if program != [] {
      var f := program[0];
      AgreeStep(e, s, t, f, defined, width);
      RegistersDoNotMatter(e, Exec(e, s, f), Exec(e, t, f), program[1..],
                           if CondHolds(f.cond, CLEAR) && WritesRegD(f.opr) then defined + {f.rd} else defined, width);
    }
  }

  // ---- one device cycle ----

  lemma TaskAlone(e: Env, lane: State, start: Word, program: seq<Instr>, width: nat)
    requires |lane.regs| == REG_PER_THREAD && lane.regs[REGPIVOT] == start && lane.flags == CLEAR
    requires |lane.mem| == width > 0
    requires TaskProgram(program, width)
    ensures Run(e.(window := start), lane, program).mem == TaskResult(e, program, start, lane.mem)
  {
    var alone := State(ZERO_REGS[REGPIVOT := start], lane.mem, CLEAR);
    assert AgreeOn(lane, alone, {REGPIVOT});
    RegistersDoNotMatter(e.(window := start), lane, alone, program, {REGPIVOT}, width);
  }

  /** The record at row `j`, in cycle j/3 and lane j%3, as the task program leaves it. */
  function RowResult(e: Env, program: seq<Instr>, width: nat, j: nat, record: seq<Word>): (r: seq<Word>)
    ensures |r| == |record|
  {
    if |record| == 0 then record
    else
      var cycleBase := Times(j / PARALLEL_CNT, PARALLEL_CNT * width) % WORD_MOD;
      TaskResult(e.(cycleBase := cycleBase), program, Times(j, width) % WORD_MOD, record)
  }

  type RowFunction = (nat, seq<Word>) -> seq<Word>

  function RowResults(e: Env, program: seq<Instr>, width: nat): RowFunction {
    (j: nat, record: seq<Word>) => RowResult(e, program, width, j, record)
  }

  /** The segment of lane `p` in the memory of a cycle that starts at `base`. */
  function Segment(mem: seq<Word>, base: nat, width: nat, p: nat): (r: seq<Word>)
    requires base + PARALLEL_CNT * width <= |mem| && p < PARALLEL_CNT
    ensures |r| == width
  {
    mem[Start(base, width, p)..Start(base, width, p) + width]
  }

  /** One pass put f into the three segments of cycle `c`, which start at `base`, and changed nothing else. */
  ghost predicate CycleDone(s: State, t: State, c: nat, base: nat, width: nat, f: RowFunction)
    requires base + PARALLEL_CNT * width <= |s.mem|
  {
    && |t.regs| == |s.regs| && |t.mem| == |s.mem|
    && (forall a :: 0 <= a < |s.mem| && !(base <= a < base + PARALLEL_CNT * width) ==> t.mem[a] == s.mem[a])
    && forall p: nat :: p < PARALLEL_CNT ==>
         Segment(t.mem, base, width, p) == f(PARALLEL_CNT * c + p, Segment(s.mem, base, width, p))
  }

  /** Where row `j` lies relative to the segments of cycle `c`. */
  lemma RowPlace(c: nat, j: nat, width: nat)
    requires j < PARALLEL_CNT * c + PARALLEL_CNT
    ensures var base := Times(PARALLEL_CNT * c, width);
            && base == Times(c, PARALLEL_CNT * width)
            && base + PARALLEL_CNT * width == Times(PARALLEL_CNT * (c + 1), width)
            && (j < PARALLEL_CNT * c ==> Times(j, width) + width <= base)
            && (PARALLEL_CNT * c <= j ==>
                  && j / PARALLEL_CNT == c
                  && Start(base, width, j - PARALLEL_CNT * c) == Times(j, width))
  {
    TimesThrice(c, width);
    var b := PARALLEL_CNT * c;
    assert Times(b + 1, width) == Times(b, width) + width;
    assert Times(b + 2, width) == Times(b + 1, width) + width;
    assert Times(b + 3, width) == Times(b + 2, width) + width;
    if j < b {
      Inside(j, b, width);
    }
  }

  lemma RowResultAt(e: Env, program: seq<Instr>, width: nat, c: nat, base: nat, p: nat, record: seq<Word>)
    requires p < PARALLEL_CNT && base == Times(PARALLEL_CNT * c, width) && |record| > 0
    requires base + PARALLEL_CNT * width < WORD_MOD
    ensures RowResult(e, program, width, PARALLEL_CNT * c + p, record)
         == TaskResult(e.(cycleBase := base), program, Start(base, width, p), record)
  {
    var j := PARALLEL_CNT * c + p;
    RowPlace(c, j, width);
    SmallMod(base, WORD_MOD);
    SmallMod(Times(j, width), WORD_MOD);
  }

  lemma LaneCycle(e: Env, s: State, t: State, program: seq<Instr>, c: nat, base: nat, width: nat, p: nat)
    requires Pivots(s, base, width) && s.flags == CLEAR && |s.mem| < SIGN_BIT && p < PARALLEL_CNT
    requires base == Times(PARALLEL_CNT * c, width)
    requires TaskProgram(program, width)
    requires LanesRan(e.(cycleBase := base), s, t, program, base, width)
    ensures |t.mem| == |s.mem|
    ensures Segment(t.mem, base, width, p) == RowResult(e, program, width, PARALLEL_CNT * c + p, Segment(s.mem, base, width, p))
  {
    var e', lane, start := e.(cycleBase := base), Lane(s, base, width, p), Start(base, width, p);
    TaskAlone(e', lane, start, program, width);
    RowResultAt(e, program, width, c, base, p, lane.mem);
    assert Lane(t, base, width, p) == Run(TaskEnv(e', base, width, p), lane, program);
  }

  lemma OneCycle(e: Env, s: State, program: seq<Instr>, c: nat, base: nat, width: nat)
    requires |s.regs| == 32 && 0 < width < 256 && e.window == 0
    requires base == Times(PARALLEL_CNT * c, width)
    requires base + PARALLEL_CNT * width <= |s.mem| < SIGN_BIT
    requires TaskProgram(program, width)
    ensures CycleDone(s, Run(e.(cycleBase := base), s, Emit(program, width)), c, base, width, RowResults(e, program, width))
  {
    var e' := e.(cycleBase := base);
    PrologueSetsPivots(e', s, base, width);
    RunConcat(e', s, Prologue(width), EmitBody(program));
    var s0 := Run(e', s, Prologue(width));
    BodySimulation(e', s0, program, base, width);
    LanesAreRows(e, s, s0, Run(e', s0, EmitBody(program)), program, c, base, width);
  }

  lemma LanesAreRows(e: Env, s: State, s0: State, t: State, program: seq<Instr>, c: nat, base: nat, width: nat)
    requires Pivots(s0, base, width) && s0.flags == CLEAR && |s0.mem| < SIGN_BIT
    requires |s.regs| == 32 && s.mem == s0.mem && base == Times(PARALLEL_CNT * c, width)
    requires TaskProgram(program, width)
    requires LanesRan(e.(cycleBase := base), s0, t, program, base, width)
    ensures CycleDone(s, t, c, base, width, RowResults(e, program, width))
  {
    LaneCycle(e, s0, t, program, c, base, width, 0);
    LaneCycle(e, s0, t, program, c, base, width, 1);
    LaneCycle(e, s0, t, program, c, base, width, 2);
    ThreeSegments(s, t, c, base, width, RowResults(e, program, width));
  }

  /** Three segments done and nothing else touched is a cycle done. */
  lemma ThreeSegments(s: State, t: State, c: nat, base: nat, width: nat, f: RowFunction)
    requires |t.regs| == |s.regs| && |t.mem| == |s.mem| && base + PARALLEL_CNT * width <= |s.mem|
    requires forall a :: 0 <= a < |s.mem| && !(base <= a < base + PARALLEL_CNT * width) ==> t.mem[a] == s.mem[a]
    requires Segment(t.mem, base, width, 0) == f(PARALLEL_CNT * c, Segment(s.mem, base, width, 0))
    requires Segment(t.mem, base, width, 1) == f(PARALLEL_CNT * c + 1, Segment(s.mem, base, width, 1))
    requires Segment(t.mem, base, width, 2) == f(PARALLEL_CNT * c + 2, Segment(s.mem, base, width, 2))
    ensures CycleDone(s, t, c, base, width, f)
  {
  }

  /** One run of the code in cycle `c` is a cycle done. */
  ghost predicate CycleRuns(e: Env, s: State, code: seq<Instr>, c: nat, width: nat, f: RowFunction)
    requires 0 < |s.mem| < SIGN_BIT && Times(PARALLEL_CNT * c, width) + PARALLEL_CNT * width <= |s.mem|
  {
    var base := Times(PARALLEL_CNT * c, width);
    CycleDone(s, Run(e.(cycleBase := base), s, code), c, base, width, f)
  }

  /** The property of emitted code that the cycles below build on. */
  ghost predicate Implements(e: Env, code: seq<Instr>, width: nat, f: RowFunction) {
    forall s: State, c: nat ::
      |s.regs| == 32 && 0 < |s.mem| < SIGN_BIT && Times(PARALLEL_CNT * c, width) + PARALLEL_CNT * width <= |s.mem| ==>
        CycleRuns(e, s, code, c, width, f)
  }

  lemma EmitImplements(e: Env, program: seq<Instr>, width: nat)
    requires 0 < width < 256 && e.window == 0 && TaskProgram(program, width)
    ensures Implements(e, Emit(program, width), width, RowResults(e, program, width))
  {
    var code, f := Emit(program, width), RowResults(e, program, width);
    forall s: State, c: nat |
        |s.regs| == 32 && 0 < |s.mem| < SIGN_BIT && Times(PARALLEL_CNT * c, width) + PARALLEL_CNT * width <= |s.mem|
      ensures CycleRuns(e, s, code, c, width, f)
    {
      OneCycle(e, s, program, c, Times(PARALLEL_CNT * c, width), width);
    }
  }

  // ---- all cycles ----

  /** The queue restarts the program `n` times, raising constant word 0 by `size` each time. */
  function RunCycles(e: Env, s: State, code: seq<Instr>, size: nat, n: nat): (t: State)
    requires |s.mem| > 0
    ensures |t.regs| == |s.regs| && |t.mem| == |s.mem|
  {
    if n == 0 then s
    else Run(e.(cycleBase := Times(n - 1, size) % WORD_MOD), RunCycles(e, s, code, size, n - 1), code)
  }

  function Row(mem: seq<Word>, width: nat, j: nat): (r: seq<Word>)
    requires Times(j, width) + width <= |mem|
    ensures |r| == width
  {
    mem[Times(j, width)..Times(j, width) + width]
  }

  lemma TailRow(a: seq<Word>, b: seq<Word>, base: nat, width: nat, j: nat)
    requires |a| == |b| && base <= Times(j, width) && Times(j, width) + width <= |a|
    requires a[base..] == b[base..]
    ensures Row(a, width, j) == Row(b, width, j)
  {
    var k := Times(j, width);
    forall i | k <= i < k + width
      ensures a[i] == b[i]
    {
      assert a[base..][i - base] == b[base..][i - base];
    }
  }

  ghost predicate RowsBelow(s: State, t: State, width: nat, rows: nat, f: RowFunction)
    requires |t.mem| == |s.mem|
  {
    forall j: nat {:trigger Row(s.mem, width, j)} :: j < rows ==>
      && Times(j, width) + width <= |s.mem|
      && Row(t.mem, width, j) == f(j, Row(s.mem, width, j))
  }

  /** f is in the rows below 3n, the rest of the memory is untouched. */
  ghost predicate RowsDone(s: State, t: State, width: nat, n: nat, f: RowFunction)
    requires Times(PARALLEL_CNT * n, width) <= |s.mem|
  {
    && |t.regs| == |s.regs| && |t.mem| == |s.mem|
    && RowsBelow(s, t, width, PARALLEL_CNT * n, f)
    && t.mem[Times(PARALLEL_CNT * n, width)..] == s.mem[Times(PARALLEL_CNT * n, width)..]
  }

  lemma EarlierRow(u: State, t: State, width: nat, c: nat, base: nat, f: RowFunction, j: nat)
    requires base + PARALLEL_CNT * width <= |u.mem| && CycleDone(u, t, c, base, width, f)
    requires Times(j, width) + width <= base
    ensures Row(t.mem, width, j) == Row(u.mem, width, j)
  {
  }

  lemma LastRow(u: State, t: State, width: nat, c: nat, base: nat, f: RowFunction, j: nat)
    requires base == Times(PARALLEL_CNT * c, width) && PARALLEL_CNT * c <= j < PARALLEL_CNT * c + PARALLEL_CNT
    requires base + PARALLEL_CNT * width <= |u.mem| && CycleDone(u, t, c, base, width, f)
    ensures Times(j, width) + width <= |u.mem|
    ensures Row(t.mem, width, j) == f(j, Row(u.mem, width, j))
  {
    RowPlace(c, j, width);
    var p: nat := j - PARALLEL_CNT * c;
    assert Segment(t.mem, base, width, p) == Row(t.mem, width, j);
    assert Segment(u.mem, base, width, p) == Row(u.mem, width, j);
  }

  lemma LastCycleRow(s: State, u: State, t: State, width: nat, c: nat, base: nat, f: RowFunction, j: nat)
    requires base == Times(PARALLEL_CNT * c, width) && j < PARALLEL_CNT * c + PARALLEL_CNT
    requires base + PARALLEL_CNT * width <= |s.mem|
    requires RowsDone(s, u, width, c, f) && CycleDone(u, t, c, base, width, f)
    ensures Times(j, width) + width <= |s.mem|
    ensures Row(t.mem, width, j) == f(j, Row(s.mem, width, j))
  {
    RowPlace(c, j, width);
    if j < PARALLEL_CNT * c {
      assert Row(u.mem, width, j) == f(j, Row(s.mem, width, j));
      EarlierRow(u, t, width, c, base, f, j);
    } else {
      LastRow(u, t, width, c, base, f, j);
      TailRow(s.mem, u.mem, base, width, j);
    }
  }

  lemma LastCycleTail(s: State, u: State, t: State, width: nat, c: nat, base: nat, f: RowFunction)
    requires base == Times(PARALLEL_CNT * c, width)
    requires base + PARALLEL_CNT * width <= |s.mem|
    requires RowsDone(s, u, width, c, f) && CycleDone(u, t, c, base, width, f)
    ensures t.mem[base + PARALLEL_CNT * width..] == s.mem[base + PARALLEL_CNT * width..]
  {
    TailKept(s.mem, u.mem, t.mem, base, base + PARALLEL_CNT * width);
  }

  lemma LastCycleRows(s: State, u: State, t: State, width: nat, c: nat, base: nat, f: RowFunction)
    requires base == Times(PARALLEL_CNT * c, width)
    requires base + PARALLEL_CNT * width <= |s.mem|
    requires RowsDone(s, u, width, c, f) && CycleDone(u, t, c, base, width, f)
    ensures RowsBelow(s, t, width, PARALLEL_CNT * (c + 1), f)
  {
    forall j: nat | j < PARALLEL_CNT * (c + 1)
      ensures Times(j, width) + width <= |s.mem| && Row(t.mem, width, j) == f(j, Row(s.mem, width, j))
    {
      LastCycleRow(s, u, t, width, c, base, f, j);
    }
  }

  lemma ExtendRows(s: State, u: State, t: State, width: nat, c: nat, base: nat, f: RowFunction)
    requires base == Times(PARALLEL_CNT * c, width)
    requires base + PARALLEL_CNT * width <= |s.mem|
    requires RowsDone(s, u, width, c, f) && CycleDone(u, t, c, base, width, f)
    ensures Times(PARALLEL_CNT * (c + 1), width) <= |s.mem| && RowsDone(s, t, width, c + 1, f)
  {
    RowPlace(c, 0, width);
    LastCycleRows(s, u, t, width, c, base, f);
    LastCycleTail(s, u, t, width, c, base, f);
  }

  lemma TailKept(a: seq<Word>, b: seq<Word>, c: seq<Word>, low: nat, high: nat)
    requires low <= high <= |a| == |b| == |c| && a[low..] == b[low..]
    requires forall i :: high <= i < |b| ==> c[i] == b[i]
    ensures c[high..] == a[high..]
  {
    assert a[low..][high - low..] == a[high..];
    assert b[low..][high - low..] == b[high..];
  }

  /** One more cycle puts f into three more rows. */
  lemma NextCycle(e: Env, s: State, u: State, code: seq<Instr>, width: nat, c: nat, f: RowFunction)
    requires |s.regs| == 32 && Implements(e, code, width, f)
    requires Times(PARALLEL_CNT * c, width) + PARALLEL_CNT * width <= |s.mem| < SIGN_BIT && |s.mem| > 0
    requires RowsDone(s, u, width, c, f)
    ensures var base := Times(PARALLEL_CNT * c, width);
            && Times(PARALLEL_CNT * (c + 1), width) <= |s.mem|
            && RowsDone(s, Run(e.(cycleBase := base), u, code), width, c + 1, f)
  {
    var base := Times(PARALLEL_CNT * c, width);
    assert CycleRuns(e, u, code, c, width, f);
    ExtendRows(s, u, Run(e.(cycleBase := base), u, code), width, c, base, f);
  }

  /** After `n` cycles the first 3n rows hold f of what they held, and the rest of the memory is untouched. */
  lemma {:induction false} AllCycles(e: Env, s: State, code: seq<Instr>, width: nat, n: nat, f: RowFunction)
    requires |s.regs| == 32 && Implements(e, code, width, f)
    requires Times(PARALLEL_CNT * n, width) <= |s.mem| && 0 < |s.mem| < SIGN_BIT
    ensures RowsDone(s, RunCycles(e, s, code, PARALLEL_CNT * width, n), width, n, f)
  {
    if n > 0 {
      var c, size := n - 1, PARALLEL_CNT * width;
      RowPlace(c, 0, width);
      LastCycle(e, s, code, size, c, Times(PARALLEL_CNT * c, width));
      AllCycles(e, s, code, width, c, f);
      NextCycle(e, s, RunCycles(e, s, code, size, c), code, width, c, f);
    }
  }

  lemma LastCycle(e: Env, s: State, code: seq<Instr>, size: nat, c: nat, base: nat)
    requires |s.mem| > 0 && base == Times(c, size) < WORD_MOD
    ensures RunCycles(e, s, code, size, c + 1) == Run(e.(cycleBase := base), RunCycles(e, s, code, size, c), code)
  {
  }
}
