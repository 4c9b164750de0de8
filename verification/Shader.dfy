/**
  The vertex shader: the program the application builds, what it leaves in one task's record, and
  the matrix routine of the math library that it reproduces.
 */
module Shader {
  import opened Words
  import opened Arithmetic
  import opened Isa
  import opened Machine
  import opened LaneSimulation
  import opened DeviceRun

  // Words of a task's record.
  const OFST_VTEX_INPUT := 1
  const OFST_VTEX_OUTPUT := 4
  const OFST_TABLE := 8
  const TASK_SPACE := 12

  const VEC4_SIZE: nat := 4

  // Constant memory.
  const COFST_FLOAT_ONE := 1
  const COFST_WIDTH_HALF := 14
  const COFST_HEIGHT_HALF := 15
  const COFST_WORLD_VIEW_PROJ := 16
  const CONSTANTS := 32

  // Registers.
  const RX := 0
  const RY := 1
  const RZ := 2
  const RW := 3
  const ACC := 4
  const CALC := 5
  const LOADER := 6
  const RA := 4
  const RB := 5

  // ---- the program ----

  function Ldl(rd: nat, ofst: int): Instr
    requires rd < 32
  {
    FormatA(OPR_LDL, rd, 0, ofst, REGPIVOT)
  }

  function Stl(data: nat, ofst: int): Instr
    requires data < 32
  {
    FormatA(OPR_STL, 0, data, ofst, REGPIVOT)
  }

  function Ldci(rd: nat, address: int): Instr
    requires rd < 32
  {
    FormatC(OPR_LDCI, rd, address)
  }

  function Mvi(rd: nat, imm: int): Instr
    requires rd < 32
  {
    FormatC(OPR_MVI, rd, imm)
  }

  function Adi(rd: nat, ra: nat, imm: int): Instr
    requires rd < 32 && ra < 32
  {
    FormatB(OPR_ADI, rd, ra, imm)
  }

  function Fmul(rd: nat, ra: nat, rb: nat): Instr
    requires rd < 32 && ra < 32 && rb < 32
  {
    FormatA(OPR_FMUL, rd, ra, 0, rb)
  }

  function Fadd(rd: nat, ra: nat, rb: nat): Instr
    requires rd < 32 && ra < 32 && rb < 32
  {
    FormatA(OPR_FADD, rd, ra, 0, rb)
  }

  function Ftoi(rd: nat, ra: nat): Instr
    requires rd < 32 && ra < 32
  {
    FormatA(OPR_FTOI, rd, ra, 0, 0)
  }

  function LoadInput(): seq<Instr> {
    [Stl(REGPIVOT, 0), Ldl(RX, OFST_VTEX_INPUT), Ldl(RY, OFST_VTEX_INPUT + 1), Ldl(RZ, OFST_VTEX_INPUT + 2),
     Ldci(RW, COFST_FLOAT_ONE)]
  }

  /** Adds component `row` of the vector times the matrix element below it to the accumulator. */
  function Term(col: nat, row: nat): seq<Instr>
    requires row < 4
  {
    [Ldci(LOADER, COFST_WORLD_VIEW_PROJ + col + row * 4), Fmul(CALC, RX + row, LOADER),
     Adi(LOADER, ACC, 0), Fadd(ACC, LOADER, CALC)]
  }

  function Terms(col: nat, n: nat): seq<Instr>
    requires n <= 4
  {
    if n == 0 then [] else Terms(col, n - 1) + Term(col, n - 1)
  }

  function Column(col: nat): seq<Instr> {
    [Mvi(ACC, 0)] + Terms(col, VEC4_SIZE) + [Stl(ACC, OFST_TABLE + col)]
  }

  function Columns(n: nat): seq<Instr> {
    if n == 0 then [] else Columns(n - 1) + Column(n - 1)
  }

  /** Adds half the screen size to one component and stores it as an integer. */
  function ToScreen(r: nat, table: nat, half: nat, output: nat): seq<Instr>
    requires r < 4
  {
    [Ldl(r, table), Ldci(RA, half), Fadd(RB, RA, r), Ftoi(RA, RB), Stl(RA, output)]
  }

  function ToScreenX(): seq<Instr> {
    ToScreen(RX, OFST_TABLE, COFST_WIDTH_HALF, OFST_VTEX_OUTPUT)
  }

  function ToScreenY(): seq<Instr> {
    ToScreen(RY, OFST_TABLE + 1, COFST_HEIGHT_HALF, OFST_VTEX_OUTPUT + 1)
  }

  function ShaderProgram(): seq<Instr> {
    LoadInput() + Columns(VEC4_SIZE) + ToScreenX() + ToScreenY()
  }

  // ---- single instructions on one task's ten registers and twelve words ----

  /** The registers and memory of one task while the shader runs on it. */
  ghost predicate OneTask(e: Env, s: State, start: Word) {
    && |s.regs| == REG_PER_THREAD && |s.mem| == TASK_SPACE && s.flags == CLEAR
    && s.regs[REGPIVOT] == start == e.window && start + TASK_SPACE <= WORD_MOD && CONSTANTS <= |e.consts|
  }

  lemma CellOf(e: Env, s: State, start: Word, ofst: nat)
    requires OneTask(e, s, start) && ofst < TASK_SPACE
    ensures Cell(e, s.mem, Add32(start, ofst)) == ofst
  {
  }

  lemma ExecLdl(e: Env, s: State, start: Word, rd: nat, ofst: nat)
    requires OneTask(e, s, start) && rd < REGPIVOT && ofst < TASK_SPACE
    ensures Exec(e, s, Ldl(rd, ofst)) == s.(regs := s.regs[rd := s.mem[ofst]])
  {
    CellOf(e, s, start, ofst);
  }

  lemma ExecStl(e: Env, s: State, start: Word, data: nat, ofst: nat)
    requires OneTask(e, s, start) && data < REG_PER_THREAD && ofst < TASK_SPACE
    ensures Exec(e, s, Stl(data, ofst)) == s.(mem := s.mem[ofst := s.regs[data]])
  {
    CellOf(e, s, start, ofst);
  }

  lemma ConstantAt(e: Env, address: nat)
    requires 0 < address < |e.consts|
    ensures Constant(e, address) == e.consts[address]
  {
    SmallMod(address, |e.consts|);
  }

  lemma LdciFields(rd: nat, address: nat)
    requires rd < 32 && address < CONSTANTS
    ensures Ldci(rd, address) == Instr(COND_ALWAYS, OPR_LDCI, 0, rd, 0, 0, address)
  {
  }

  lemma ExecLoad(e: Env, s: State, rd: nat, address: nat)
    requires |s.mem| > 0 && rd < |s.regs| <= 32 && address < CONSTANTS
    ensures Exec(e, s, Instr(COND_ALWAYS, OPR_LDCI, 0, rd, 0, 0, address)) == s.(regs := s.regs[rd := Constant(e, address)])
  {
    LoadConstant(e, s, Instr(COND_ALWAYS, OPR_LDCI, 0, rd, 0, 0, address));
  }

  lemma ExecLdci(e: Env, s: State, start: Word, rd: nat, address: nat)
    requires OneTask(e, s, start) && rd < REGPIVOT && 0 < address < CONSTANTS
    ensures Exec(e, s, Ldci(rd, address)) == s.(regs := s.regs[rd := e.consts[address]])
  {
    LdciFields(rd, address);
    ExecLoad(e, s, rd, address);
    ConstantAt(e, address);
  }

  lemma ExecMvi(e: Env, s: State, start: Word, rd: nat)
    requires OneTask(e, s, start) && rd < REGPIVOT
    ensures Exec(e, s, Mvi(rd, 0)) == s.(regs := s.regs[rd := 0])
  {
  }

  lemma ExecAdi(e: Env, s: State, start: Word, rd: nat, ra: nat)
    requires OneTask(e, s, start) && rd < REGPIVOT && ra < REGPIVOT
    ensures Exec(e, s, Adi(rd, ra, 0)) == s.(regs := s.regs[rd := s.regs[ra]])
  {
  }

  lemma ExecFmul(e: Env, s: State, start: Word, rd: nat, ra: nat, rb: nat)
    requires OneTask(e, s, start) && rd < REGPIVOT && ra < REGPIVOT && rb < REGPIVOT
    ensures Exec(e, s, Fmul(rd, ra, rb)) == s.(regs := s.regs[rd := e.fpu.mul(s.regs[ra], s.regs[rb])])
  {
  }

  lemma ExecFadd(e: Env, s: State, start: Word, rd: nat, ra: nat, rb: nat)
    requires OneTask(e, s, start) && rd < REGPIVOT && ra < REGPIVOT && rb < REGPIVOT
    ensures Exec(e, s, Fadd(rd, ra, rb)) == s.(regs := s.regs[rd := e.fpu.add(s.regs[ra], s.regs[rb])])
  {
  }

  lemma ExecFtoi(e: Env, s: State, start: Word, rd: nat, ra: nat)
    requires OneTask(e, s, start) && rd < REGPIVOT && ra < REGPIVOT
    ensures Exec(e, s, Ftoi(rd, ra)) == s.(regs := s.regs[rd := e.fpu.ftoi(s.regs[ra])])
  {
  }

  // ---- what the parts of the program do ----

  /** The vector is in its registers and the memory is `mem`. */
  ghost predicate Holds(e: Env, s: State, start: Word, v: seq<Word>, mem: seq<Word>) {
    OneTask(e, s, start) && |v| == 4 && s.regs[..4] == v && s.mem == mem
  }

  /** One scratch register changes; the vector, the pivot and the memory stay. */
  lemma HoldsScratch(e: Env, s: State, start: Word, v: seq<Word>, mem: seq<Word>, rd: nat, w: Word)
    requires Holds(e, s, start, v, mem) && ACC <= rd < REGPIVOT
    ensures Holds(e, s.(regs := s.regs[rd := w]), start, v, mem)
  {
  }

  /** Element of the uploaded matrix, row after row. */
  function Element(e: Env, row: nat, col: nat): Word
    requires CONSTANTS <= |e.consts| && row < 4 && col < 4
  {
    e.consts[COFST_WORLD_VIEW_PROJ + col + row * 4]
  }

  lemma TermRun(e: Env, s: State, start: Word, v: seq<Word>, mem: seq<Word>, col: nat, row: nat)
    requires Holds(e, s, start, v, mem) && col < 4 && row < 4
    ensures var t := Run(e, s, Term(col, row));
            && Holds(e, t, start, v, mem)
            && t.regs[ACC] == e.fpu.add(s.regs[ACC], e.fpu.mul(v[row], Element(e, row, col)))
  {
    var f0, f1 := Ldci(LOADER, COFST_WORLD_VIEW_PROJ + col + row * 4), Fmul(CALC, row, LOADER);
    var f2, f3 := Adi(LOADER, ACC, 0), Fadd(ACC, LOADER, CALC);
    var m := Element(e, row, col);
    RunFour(e, s, f0, f1, f2, f3);
    ExecLdci(e, s, start, LOADER, COFST_WORLD_VIEW_PROJ + col + row * 4);
    var s1 := s.(regs := s.regs[LOADER := m]);
    HoldsScratch(e, s, start, v, mem, LOADER, m);
    assert s1.regs[row] == v[row];
    ExecFmul(e, s1, start, CALC, row, LOADER);
    var s2 := s1.(regs := s1.regs[CALC := e.fpu.mul(v[row], m)]);
    HoldsScratch(e, s1, start, v, mem, CALC, e.fpu.mul(v[row], m));
    ExecAdi(e, s2, start, LOADER, ACC);
    var s3 := s2.(regs := s2.regs[LOADER := s.regs[ACC]]);
    HoldsScratch(e, s2, start, v, mem, LOADER, s.regs[ACC]);
    ExecFadd(e, s3, start, ACC, LOADER, CALC);
    HoldsScratch(e, s3, start, v, mem, ACC, e.fpu.add(s.regs[ACC], e.fpu.mul(v[row], m)));
  }

  /** The first `n` products of a column added up from zero, left to right. */
  function Sum(e: Env, v: seq<Word>, col: nat, n: nat): Word
    requires CONSTANTS <= |e.consts| && |v| == 4 && col < 4 && n <= 4
  {
    if n == 0 then 0 else e.fpu.add(Sum(e, v, col, n - 1), e.fpu.mul(v[n - 1], Element(e, n - 1, col)))
  }

  lemma {:induction false} TermsRun(e: Env, s: State, start: Word, v: seq<Word>, mem: seq<Word>, col: nat, n: nat)
    requires Holds(e, s, start, v, mem) && s.regs[ACC] == 0 && col < 4 && n <= 4
    ensures var t := Run(e, s, Terms(col, n));
            Holds(e, t, start, v, mem) && t.regs[ACC] == Sum(e, v, col, n)
  {
    if n > 0 {
      TermsRun(e, s, start, v, mem, col, n - 1);
      RunConcat(e, s, Terms(col, n - 1), Term(col, n - 1));
      TermRun(e, Run(e, s, Terms(col, n - 1)), start, v, mem, col, n - 1);
    }
  }

  lemma ColumnRun(e: Env, s: State, start: Word, v: seq<Word>, mem: seq<Word>, col: nat)
    requires Holds(e, s, start, v, mem) && col < 4
    ensures Holds(e, Run(e, s, Column(col)), start, v, mem[OFST_TABLE + col := Sum(e, v, col, 4)])
  {
    var head, terms, last := Mvi(ACC, 0), Terms(col, VEC4_SIZE), Stl(ACC, OFST_TABLE + col);
    var s1 := s.(regs := s.regs[ACC := 0]);
    ExecMvi(e, s, start, ACC);
    HoldsScratch(e, s, start, v, mem, ACC, 0);
    assert Column(col) == [head] + (terms + [last]);
    RunCons(e, s, head, terms + [last]);
    RunConcat(e, s1, terms, [last]);
    TermsRun(e, s1, start, v, mem, col, 4);
    var s2 := Run(e, s1, terms);
    RunOne(e, s2, last);
    ExecStl(e, s2, start, ACC, OFST_TABLE + col);
  }

  /** The table with its first `n` columns filled in. */
  function Filled(e: Env, v: seq<Word>, mem: seq<Word>, n: nat): (r: seq<Word>)
    requires CONSTANTS <= |e.consts| && |v| == 4 && |mem| == TASK_SPACE && n <= 4
    ensures |r| == TASK_SPACE
  {
    if n == 0 then mem else Filled(e, v, mem, n - 1)[OFST_TABLE + n - 1 := Sum(e, v, n - 1, 4)]
  }

  lemma {:induction false} ColumnsRun(e: Env, s: State, start: Word, v: seq<Word>, mem: seq<Word>, n: nat)
    requires Holds(e, s, start, v, mem) && n <= 4
    ensures Holds(e, Run(e, s, Columns(n)), start, v, Filled(e, v, mem, n))
  {
    if n > 0 {
      ColumnsRun(e, s, start, v, mem, n - 1);
      RunConcat(e, s, Columns(n - 1), Column(n - 1));
      ColumnRun(e, Run(e, s, Columns(n - 1)), start, v, Filled(e, v, mem, n - 1), n - 1);
    }
  }

  /** The vertex of a record, with the constant one behind it. */
  function Vertex(e: Env, record: seq<Word>): (v: seq<Word>)
    requires CONSTANTS <= |e.consts| && |record| == TASK_SPACE
    ensures |v| == 4
  {
    record[OFST_VTEX_INPUT..OFST_VTEX_INPUT + 3] + [e.consts[COFST_FLOAT_ONE]]
  }

  lemma LoadInputRun(e: Env, s: State, start: Word)
    requires OneTask(e, s, start)
    ensures Holds(e, Run(e, s, LoadInput()), start, Vertex(e, s.mem), s.mem[0 := start])
  {
    var f0, f1, f2, f3, f4 := Stl(REGPIVOT, 0), Ldl(RX, 1), Ldl(RY, 2), Ldl(RZ, 3), Ldci(RW, COFST_FLOAT_ONE);
    assert LoadInput() == [f0] + [f1, f2, f3, f4];
    RunCons(e, s, f0, [f1, f2, f3, f4]);
    ExecStl(e, s, start, REGPIVOT, 0);
    var s1 := s.(mem := s.mem[0 := start]);
    RunFour(e, s1, f1, f2, f3, f4);
    ExecLdl(e, s1, start, RX, 1);
    var s2 := s1.(regs := s1.regs[RX := s.mem[1]]);
    ExecLdl(e, s2, start, RY, 2);
    var s3 := s2.(regs := s2.regs[RY := s.mem[2]]);
    ExecLdl(e, s3, start, RZ, 3);
    var s4 := s3.(regs := s3.regs[RZ := s.mem[3]]);
    ExecLdci(e, s4, start, RW, COFST_FLOAT_ONE);
  }

  /** Half the screen size plus one component of the table, as an integer. */
  function Screen(e: Env, half: nat, component: Word): Word
    requires half < CONSTANTS <= |e.consts|
  {
    e.fpu.ftoi(e.fpu.add(e.consts[half], component))
  }

  lemma ToScreenRun(e: Env, s: State, start: Word, r: nat, table: nat, half: nat, output: nat)
    requires OneTask(e, s, start) && r < 4 && table < TASK_SPACE && 0 < half < CONSTANTS && output < TASK_SPACE
    ensures var t := Run(e, s, ToScreen(r, table, half, output));
            OneTask(e, t, start) && t.mem == s.mem[output := Screen(e, half, s.mem[table])]
  {
    var f0, f1, f2, f3, f4 := Ldl(r, table), Ldci(RA, half), Fadd(RB, RA, r), Ftoi(RA, RB), Stl(RA, output);
    assert ToScreen(r, table, half, output) == [f0] + [f1, f2, f3, f4];
    RunCons(e, s, f0, [f1, f2, f3, f4]);
    ExecLdl(e, s, start, r, table);
    var s1 := s.(regs := s.regs[r := s.mem[table]]);
    RunFour(e, s1, f1, f2, f3, f4);
    ExecLdci(e, s1, start, RA, half);
    var s2 := s1.(regs := s1.regs[RA := e.consts[half]]);
    ExecFadd(e, s2, start, RB, RA, r);
    var s3 := s2.(regs := s2.regs[RB := e.fpu.add(e.consts[half], s.mem[table])]);
    ExecFtoi(e, s3, start, RA, RB);
    var s4 := s3.(regs := s3.regs[RA := Screen(e, half, s.mem[table])]);
    ExecStl(e, s4, start, RA, output);
  }

  // ---- the whole shader ----

  /** The record that the shader leaves: pivot, vertex, screen position, two words not touched, clip position. */
  function ShadedRecord(e: Env, start: Word, record: seq<Word>): (r: seq<Word>)
    requires CONSTANTS <= |e.consts| && |record| == TASK_SPACE
    ensures |r| == TASK_SPACE
  {
    var v := Vertex(e, record);
    var c0, c1, c2, c3 := Sum(e, v, 0, 4), Sum(e, v, 1, 4), Sum(e, v, 2, 4), Sum(e, v, 3, 4);
    [start, record[1], record[2], record[3],
     Screen(e, COFST_WIDTH_HALF, c0), Screen(e, COFST_HEIGHT_HALF, c1), record[6], record[7],
     c0, c1, c2, c3]
  }

  lemma FilledTable(e: Env, v: seq<Word>, mem: seq<Word>)
    requires CONSTANTS <= |e.consts| && |v| == 4 && |mem| == TASK_SPACE
    ensures Filled(e, v, mem, 4) == mem[..8] + [Sum(e, v, 0, 4), Sum(e, v, 1, 4), Sum(e, v, 2, 4), Sum(e, v, 3, 4)]
  {
    assert Filled(e, v, mem, 1) == mem[8 := Sum(e, v, 0, 4)];
    assert Filled(e, v, mem, 2) == Filled(e, v, mem, 1)[9 := Sum(e, v, 1, 4)];
    assert Filled(e, v, mem, 3) == Filled(e, v, mem, 2)[10 := Sum(e, v, 2, 4)];
  }

  lemma ScreenInto(e: Env, start: Word, record: seq<Word>)
    requires CONSTANTS <= |e.consts| && |record| == TASK_SPACE
    ensures var table := Filled(e, Vertex(e, record), record[0 := start], 4);
            var withX := table[4 := Screen(e, COFST_WIDTH_HALF, table[8])];
            withX[5 := Screen(e, COFST_HEIGHT_HALF, withX[9])] == ShadedRecord(e, start, record)
  {
    FilledTable(e, Vertex(e, record), record[0 := start]);
  }

  lemma ShaderRun(e: Env, s: State, start: Word)
    requires OneTask(e, s, start)
    ensures Run(e, s, ShaderProgram()).mem == ShadedRecord(e, start, s.mem)
  {
    var v, mem := Vertex(e, s.mem), s.mem[0 := start];
    RunConcat(e, s, LoadInput() + Columns(VEC4_SIZE) + ToScreenX(), ToScreenY());
    RunConcat(e, s, LoadInput() + Columns(VEC4_SIZE), ToScreenX());
    RunConcat(e, s, LoadInput(), Columns(VEC4_SIZE));
    LoadInputRun(e, s, start);
    var s1 := Run(e, s, LoadInput());
    ColumnsRun(e, s1, start, v, mem, 4);
    var s2 := Run(e, s1, Columns(VEC4_SIZE));
    ToScreenRun(e, s2, start, RX, OFST_TABLE, COFST_WIDTH_HALF, OFST_VTEX_OUTPUT);
    var s3 := Run(e, s2, ToScreenX());
    ToScreenRun(e, s3, start, RY, OFST_TABLE + 1, COFST_HEIGHT_HALF, OFST_VTEX_OUTPUT + 1);
    ScreenInto(e, start, s.mem);
  }

  /** The two hold the same words where the shader reads constants. */
  ghost predicate SameConstants(e: Env, e': Env) {
    && CONSTANTS <= |e.consts| && CONSTANTS <= |e'.consts| && e'.fpu == e.fpu
    && e'.consts[COFST_FLOAT_ONE] == e.consts[COFST_FLOAT_ONE]
    && forall i :: COFST_WIDTH_HALF <= i < CONSTANTS ==> e'.consts[i] == e.consts[i]
  }

  /** The shader's results depend on the arithmetic and those constants alone, not on where it runs. */
  lemma {:induction false} SumAnywhere(e: Env, e': Env, v: seq<Word>, col: nat, n: nat)
    requires SameConstants(e, e') && |v| == 4 && col < 4 && n <= 4
    ensures Sum(e', v, col, n) == Sum(e, v, col, n)
  {
    if n > 0 {
      SumAnywhere(e, e', v, col, n - 1);
    }
  }

  lemma ShadedAnywhere(e: Env, e': Env, start: Word, record: seq<Word>)
    requires SameConstants(e, e') && |record| == TASK_SPACE
    ensures ShadedRecord(e', start, record) == ShadedRecord(e, start, record)
  {
    var v := Vertex(e, record);
    SumAnywhere(e, e', v, 0, 4);
    SumAnywhere(e, e', v, 1, 4);
    SumAnywhere(e, e', v, 2, 4);
    SumAnywhere(e, e', v, 3, 4);
  }

  lemma AloneState(e: Env, start: Word, record: seq<Word>)
    requires CONSTANTS <= |e.consts| && |record| == TASK_SPACE && start + TASK_SPACE <= WORD_MOD
    ensures OneTask(e.(window := start), State(ZERO_REGS[REGPIVOT := start], record, CLEAR), start)
  {
  }

  lemma ShaderAlone(e: Env, start: Word, record: seq<Word>, program: seq<Instr>)
    requires CONSTANTS <= |e.consts| && |record| == TASK_SPACE
    requires Run(e.(window := start), State(ZERO_REGS[REGPIVOT := start], record, CLEAR), program).mem
          == ShadedRecord(e.(window := start), start, record)
    ensures TaskResult(e, program, start, record) == ShadedRecord(e, start, record)
  {
    ShadedAnywhere(e, e.(window := start), start, record);
  }

  /** The shader run alone on one task, with any record and any constants. */
  lemma ShaderResult(e: Env, start: Word, record: seq<Word>)
    requires CONSTANTS <= |e.consts| && |record| == TASK_SPACE && start + TASK_SPACE <= WORD_MOD
    ensures TaskResult(e, ShaderProgram(), start, record) == ShadedRecord(e, start, record)
  {
    AloneState(e, start, record);
    ShaderRun(e.(window := start), State(ZERO_REGS[REGPIVOT := start], record, CLEAR), start);
    ShaderAlone(e, start, record, ShaderProgram());
  }

  /** The input words stay, so the next frame starts from the same vertex. */
  lemma NextFrame(e: Env, e': Env, start: Word, record: seq<Word>)
    requires CONSTANTS <= |e.consts| && CONSTANTS <= |e'.consts| && |record| == TASK_SPACE
    ensures ShadedRecord(e', start, ShadedRecord(e, start, record)) == ShadedRecord(e', start, record)
  {
    var after := ShadedRecord(e, start, record);
    assert Vertex(e', after) == Vertex(e', record);
  }

  // ---- the math library's product ----

  /** One component of the row vector times the matrix, as the library adds it up. */
  function Vec4MultiplyMat4(u: Fpu, v: seq<Word>, m: seq<Word>, col: nat): Word
    requires |v| == 4 && |m| == 16 && col < 4
  {
    u.add(u.add(u.add(u.mul(m[col], v[0]), u.mul(m[4 + col], v[1])), u.mul(m[8 + col], v[2])), u.mul(m[12 + col], v[3]))
  }

  function Matrix(e: Env): (m: seq<Word>)
    requires CONSTANTS <= |e.consts|
    ensures |m| == 16
  {
    e.consts[COFST_WORLD_VIEW_PROJ..COFST_WORLD_VIEW_PROJ + 16]
  }

  /** If products commute and the first one survives the addition to zero, the sums agree bit for bit. */
  lemma SumIsVec4Multiply(e: Env, v: seq<Word>, col: nat)
    requires CONSTANTS <= |e.consts| && |v| == 4 && col < 4
    requires forall a: Word, b: Word :: e.fpu.mul(a, b) == e.fpu.mul(b, a)
    requires e.fpu.add(0, e.fpu.mul(v[0], Matrix(e)[col])) == e.fpu.mul(v[0], Matrix(e)[col])
    ensures Sum(e, v, col, 4) == Vec4MultiplyMat4(e.fpu, v, Matrix(e), col)
  {
    var u, m := e.fpu, Matrix(e);
    assert Sum(e, v, col, 1) == u.mul(v[0], m[col]);
    assert Sum(e, v, col, 2) == u.add(Sum(e, v, col, 1), u.mul(v[1], m[4 + col]));
    assert Sum(e, v, col, 3) == u.add(Sum(e, v, col, 2), u.mul(v[2], m[8 + col]));
    assert Sum(e, v, col, 4) == u.add(Sum(e, v, col, 3), u.mul(v[3], m[12 + col]));
  }

  // ---- the shader is a program the emitter may be given ----

  function Defined(program: seq<Instr>, defined: set<nat>): (r: set<nat>)
    ensures defined <= r
    decreases |program|
  {
    if program == [] then defined
    else Defined(program[1..], if CondHolds(program[0].cond, CLEAR) && WritesRegD(program[0].opr) then defined + {program[0].rd} else defined)
  }

  lemma {:induction false} InitConcat(p: seq<Instr>, q: seq<Instr>, defined: set<nat>)
    requires InitBeforeUse(p, defined) && InitBeforeUse(q, Defined(p, defined))
    ensures InitBeforeUse(p + q, defined) && Defined(p + q, defined) == Defined(q, Defined(p, defined))
    decreases |p|
  {
    if p == [] {
      assert p + q == q;
    } else {
      assert (p + q)[1..] == p[1..] + q;
      InitConcat(p[1..], q, if CondHolds(p[0].cond, CLEAR) && WritesRegD(p[0].opr) then defined + {p[0].rd} else defined);
    }
  }

  lemma {:induction false} InitMonotone(p: seq<Instr>, less: set<nat>, more: set<nat>)
    requires InitBeforeUse(p, less) && less <= more
    ensures InitBeforeUse(p, more)
    decreases |p|
  {
    if p != [] {
      var step := CondHolds(p[0].cond, CLEAR) && WritesRegD(p[0].opr);
      if CondHolds(p[0].cond, CLEAR) {
        InitMonotone(p[1..], if step then less + {p[0].rd} else less, if step then more + {p[0].rd} else more);
      } else {
        InitMonotone(p[1..], less, more);
      }
    }
  }

  /** A part that needs only `base` may follow anything that defines at least that. */
  lemma Follows(p: seq<Instr>, q: seq<Instr>, defined: set<nat>, base: set<nat>)
    requires InitBeforeUse(p, defined) && base <= Defined(p, defined) && InitBeforeUse(q, base)
    ensures InitBeforeUse(p + q, defined) && Defined(p, defined) <= Defined(p + q, defined)
  {
    InitMonotone(q, base, Defined(p, defined));
    InitConcat(p, q, defined);
  }

  lemma BodyConcat(p: seq<Instr>, q: seq<Instr>, width: nat)
    requires BodyProgram(p, width) && BodyProgram(q, width)
    ensures BodyProgram(p + q, width)
  {
  }

  const VECTOR: set<nat> := {RX, RY, RZ, RW, REGPIVOT}

  lemma InitStep(f: Instr, rest: seq<Instr>, defined: set<nat>)
    requires f.cond == COND_ALWAYS
    requires (ReadsRegA(f.opr) ==> f.ra in defined) && (ReadsRegB(f.opr) ==> f.rb in defined)
    requires InitBeforeUse(rest, if WritesRegD(f.opr) then defined + {f.rd} else defined)
    ensures InitBeforeUse([f] + rest, defined)
    ensures Defined([f] + rest, defined) == Defined(rest, if WritesRegD(f.opr) then defined + {f.rd} else defined)
  {
    assert ([f] + rest)[1..] == rest;
  }

  lemma InitFour(a: Instr, b: Instr, c: Instr, d: Instr, defined: set<nat>)
    requires a.cond == b.cond == c.cond == d.cond == COND_ALWAYS
    requires (ReadsRegA(a.opr) ==> a.ra in defined) && (ReadsRegB(a.opr) ==> a.rb in defined)
    requires WritesRegD(a.opr) && WritesRegD(b.opr) && WritesRegD(c.opr)
    requires (ReadsRegA(b.opr) ==> b.ra in defined + {a.rd}) && (ReadsRegB(b.opr) ==> b.rb in defined + {a.rd})
    requires (ReadsRegA(c.opr) ==> c.ra in defined + {a.rd, b.rd}) && (ReadsRegB(c.opr) ==> c.rb in defined + {a.rd, b.rd})
    requires (ReadsRegA(d.opr) ==> d.ra in defined + {a.rd, b.rd, c.rd}) && (ReadsRegB(d.opr) ==> d.rb in defined + {a.rd, b.rd, c.rd})
    ensures InitBeforeUse([a, b, c, d], defined)
    ensures defined + {a.rd, b.rd, c.rd} <= Defined([a, b, c, d], defined)
    ensures WritesRegD(d.opr) ==> d.rd in Defined([a, b, c, d], defined)
  {
    var d1, d2, d3 := defined + {a.rd}, defined + {a.rd} + {b.rd}, defined + {a.rd} + {b.rd} + {c.rd};
    InitStep(d, [], d3);
    assert [d] + [] == [d];
    InitStep(c, [d], d2);
    InitStep(b, [c] + [d], d1);
    InitStep(a, [b] + ([c] + [d]), defined);
    assert [a, b, c, d] == [a] + ([b] + ([c] + [d]));
  }

  lemma TermInit(col: nat, row: nat)
    requires row < 4 && col < 4
    ensures InitBeforeUse(Term(col, row), VECTOR + {ACC}) && BodyProgram(Term(col, row), TASK_SPACE)
  {
    InitFour(Ldci(LOADER, COFST_WORLD_VIEW_PROJ + col + row * 4), Fmul(CALC, RX + row, LOADER), Adi(LOADER, ACC, 0),
        Fadd(ACC, LOADER, CALC), VECTOR + {ACC});
  }

  lemma {:induction false} TermsInit(col: nat, n: nat)
    requires n <= 4 && col < 4
    ensures InitBeforeUse(Terms(col, n), VECTOR + {ACC}) && BodyProgram(Terms(col, n), TASK_SPACE)
  {
    if n > 0 {
      TermsInit(col, n - 1);
      TermInit(col, n - 1);
      Follows(Terms(col, n - 1), Term(col, n - 1), VECTOR + {ACC}, VECTOR + {ACC});
      BodyConcat(Terms(col, n - 1), Term(col, n - 1), TASK_SPACE);
    }
  }

  lemma ColumnInit(col: nat)
    requires col < 4
    ensures InitBeforeUse(Column(col), VECTOR)
  {
    var last := Stl(ACC, OFST_TABLE + col);
    TermsInit(col, 4);
    InitStep(last, [], VECTOR + {ACC});
    assert [last] + [] == [last];
    Follows(Terms(col, VEC4_SIZE), [last], VECTOR + {ACC}, VECTOR + {ACC});
    InitStep(Mvi(ACC, 0), Terms(col, VEC4_SIZE) + [last], VECTOR);
    assert Column(col) == [Mvi(ACC, 0)] + (Terms(col, VEC4_SIZE) + [last]);
  }

  lemma ColumnBody(col: nat)
    requires col < 4
    ensures BodyProgram(Column(col), TASK_SPACE)
  {
    TermsInit(col, 4);
    BodyConcat([Mvi(ACC, 0)], Terms(col, VEC4_SIZE), TASK_SPACE);
    BodyConcat([Mvi(ACC, 0)] + Terms(col, VEC4_SIZE), [Stl(ACC, OFST_TABLE + col)], TASK_SPACE);
  }

  lemma {:induction false} ColumnsInit(n: nat)
    requires n <= 4
    ensures InitBeforeUse(Columns(n), VECTOR) && BodyProgram(Columns(n), TASK_SPACE)
  {
    if n > 0 {
      ColumnsInit(n - 1);
      ColumnInit(n - 1);
      ColumnBody(n - 1);
      Follows(Columns(n - 1), Column(n - 1), VECTOR, VECTOR);
      BodyConcat(Columns(n - 1), Column(n - 1), TASK_SPACE);
    }
  }

  lemma LoadInputInit()
    ensures InitBeforeUse(LoadInput(), {REGPIVOT}) && VECTOR <= Defined(LoadInput(), {REGPIVOT})
    ensures BodyProgram(LoadInput(), TASK_SPACE)
  {
    var first, rest := Stl(REGPIVOT, 0), [Ldl(RX, 1), Ldl(RY, 2), Ldl(RZ, 3), Ldci(RW, COFST_FLOAT_ONE)];
    InitFour(Ldl(RX, 1), Ldl(RY, 2), Ldl(RZ, 3), Ldci(RW, COFST_FLOAT_ONE), {REGPIVOT});
    InitStep(first, rest, {REGPIVOT});
    assert LoadInput() == [first] + rest;
  }

  lemma ToScreenInit(r: nat, table: nat, half: nat, output: nat)
    requires r < 4 && table < TASK_SPACE && half < CONSTANTS && output < TASK_SPACE
    ensures InitBeforeUse(ToScreen(r, table, half, output), VECTOR)
    ensures BodyProgram(ToScreen(r, table, half, output), TASK_SPACE)
  {
    var first, rest := [Ldl(r, table), Ldci(RA, half), Fadd(RB, RA, r), Ftoi(RA, RB)], [Stl(RA, output)];
    InitFour(Ldl(r, table), Ldci(RA, half), Fadd(RB, RA, r), Ftoi(RA, RB), VECTOR);
    InitStep(Stl(RA, output), [], VECTOR + {RA});
    assert rest + [] == rest;
    Follows(first, rest, VECTOR, VECTOR + {RA});
    assert ToScreen(r, table, half, output) == first + rest;
  }

  /** The shader keeps the rules under which the emitter preserves meaning. */
  lemma ShaderIsTaskProgram()
    ensures TaskProgram(ShaderProgram(), TASK_SPACE)
  {
    LoadInputInit();
    ColumnsInit(4);
    ToScreenInit(RX, OFST_TABLE, COFST_WIDTH_HALF, OFST_VTEX_OUTPUT);
    ToScreenInit(RY, OFST_TABLE + 1, COFST_HEIGHT_HALF, OFST_VTEX_OUTPUT + 1);
    Follows(LoadInput(), Columns(VEC4_SIZE), {REGPIVOT}, VECTOR);
    Follows(LoadInput() + Columns(VEC4_SIZE), ToScreenX(), {REGPIVOT}, VECTOR);
    Follows(LoadInput() + Columns(VEC4_SIZE) + ToScreenX(), ToScreenY(), {REGPIVOT}, VECTOR);
    BodyConcat(LoadInput(), Columns(VEC4_SIZE), TASK_SPACE);
    BodyConcat(LoadInput() + Columns(VEC4_SIZE), ToScreenX(), TASK_SPACE);
    BodyConcat(LoadInput() + Columns(VEC4_SIZE) + ToScreenX(), ToScreenY(), TASK_SPACE);
  }
}
