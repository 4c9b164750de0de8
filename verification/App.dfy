/** The application's set-up around the shader: building and loading the program, uploading vertices and constants. */
module App {
  import opened Words
  import opened Arithmetic
  import opened Buffers
  import opened Isa
  import opened Machine
  import opened LaneSimulation
  import opened DeviceRun
  import opened TaskLayout
  import opened Floats
  import opened Gppcu
  import opened Shader

  // ---- building the program ----

  /** One builder call: assemble the word and append it. */
  method Put(host: Host, f: Instr)
    requires host.Valid() && host.mnum < host.marr.Length
    modifies host`mnum, host.marr
    ensures host.Valid() && host.mnum == old(host.mnum) + 1
    ensures DecodeAll(host.Program()) == old(DecodeAll(host.Program())) + [f]
  {
    DecodeAllSnoc(host.Program(), Encode(f));
    DecodeEncode(f);
    host.PutInstr(Encode(f));
  }

  method PutFour(host: Host, a: Instr, b: Instr, c: Instr, d: Instr)
    requires host.Valid() && host.mnum + 4 <= host.marr.Length
    modifies host`mnum, host.marr
    ensures host.Valid() && host.mnum == old(host.mnum) + 4
    ensures DecodeAll(host.Program()) == old(DecodeAll(host.Program())) + [a, b, c, d]
  {
    Put(host, a);
    Put(host, b);
    Put(host, c);
    Put(host, d);
  }

  lemma Regroup(a: seq<Instr>, b: seq<Instr>, c: seq<Instr>)
    ensures (a + b) + c == a + (b + c)
  {
  }

  method PutTerms(host: Host, col: nat)
    requires host.Valid() && host.mnum + 16 <= host.marr.Length
    modifies host`mnum, host.marr
    ensures host.Valid() && host.mnum == old(host.mnum) + 16
    ensures DecodeAll(host.Program()) == old(DecodeAll(host.Program())) + Terms(col, VEC4_SIZE)
  {
    ghost var start := DecodeAll(host.Program());
    for row := 0 to VEC4_SIZE
      invariant host.Valid() && host.mnum == old(host.mnum) + 4 * row
      invariant DecodeAll(host.Program()) == start + Terms(col, row)
    {
      Regroup(start, Terms(col, row), Term(col, row));
      PutFour(host, Ldci(LOADER, COFST_WORLD_VIEW_PROJ + col + row * 4), Fmul(CALC, RX + row, LOADER),
              Adi(LOADER, ACC, 0), Fadd(ACC, LOADER, CALC));
    }
  }

  method PutColumn(host: Host, col: nat)
    requires host.Valid() && host.mnum + 18 <= host.marr.Length
    modifies host`mnum, host.marr
    ensures host.Valid() && host.mnum == old(host.mnum) + 18
    ensures DecodeAll(host.Program()) == old(DecodeAll(host.Program())) + Column(col)
  {
    ghost var start := DecodeAll(host.Program());
    Regroup(start, [Mvi(ACC, 0)], Terms(col, VEC4_SIZE));
    Regroup(start, [Mvi(ACC, 0)] + Terms(col, VEC4_SIZE), [Stl(ACC, OFST_TABLE + col)]);
    Put(host, Mvi(ACC, 0));
    PutTerms(host, col);
    Put(host, Stl(ACC, OFST_TABLE + col));
  }

  method PutColumns(host: Host, n: nat)
    requires host.Valid() && host.mnum + 18 * n <= host.marr.Length
    modifies host`mnum, host.marr
    ensures host.Valid() && host.mnum == old(host.mnum) + 18 * n
    ensures DecodeAll(host.Program()) == old(DecodeAll(host.Program())) + Columns(n)
  {
    ghost var start := DecodeAll(host.Program());
    for col := 0 to n
      invariant host.Valid() && host.mnum == old(host.mnum) + 18 * col
      invariant DecodeAll(host.Program()) == start + Columns(col)
    {
      Regroup(start, Columns(col), Column(col));
      PutColumn(host, col);
    }
  }

  method PutLoadInput(host: Host)
    requires host.Valid() && host.mnum + 5 <= host.marr.Length
    modifies host`mnum, host.marr
    ensures host.Valid() && host.mnum == old(host.mnum) + 5
    ensures DecodeAll(host.Program()) == old(DecodeAll(host.Program())) + LoadInput()
  {
    Put(host, Stl(REGPIVOT, 0));
    PutFour(host, Ldl(RX, OFST_VTEX_INPUT), Ldl(RY, OFST_VTEX_INPUT + 1), Ldl(RZ, OFST_VTEX_INPUT + 2), Ldci(RW,
        COFST_FLOAT_ONE));
  }

  method PutToScreen(host: Host, r: nat, table: nat, half: nat, output: nat)
    requires host.Valid() && host.mnum + 5 <= host.marr.Length && r < 4
    modifies host`mnum, host.marr
    ensures host.Valid() && host.mnum == old(host.mnum) + 5
    ensures DecodeAll(host.Program()) == old(DecodeAll(host.Program())) + ToScreen(r, table, half, output)
  {
    PutFour(host, Ldl(r, table), Ldci(RA, half), Fadd(RB, RA, r), Ftoi(RA, RB));
    Put(host, Stl(RA, output));
  }

  method BuildInput(host: Host, n: nat)
    requires host.Valid() && 5 + 18 * n <= host.marr.Length
    modifies host`mnum, host.marr
    ensures host.Valid() && host.mnum == 5 + 18 * n
    ensures DecodeAll(host.Program()) == LoadInput() + Columns(n)
  {
    host.ClearInstr();
    PutLoadInput(host);
    PutColumns(host, n);
  }

  /** The builder's calls, for a matrix of `n` columns. */
  method BuildParts(host: Host, n: nat)
    requires host.Valid() && 15 + 18 * n < host.marr.Length
    modifies host`mnum, host.marr
    ensures host.Valid()
    ensures DecodeAll(host.Program()) == LoadInput() + Columns(n) + ToScreenX() + ToScreenY()
  {
    BuildInput(host, n);
    PutToScreen(host, RX, OFST_TABLE, COFST_WIDTH_HALF, OFST_VTEX_OUTPUT);
    PutToScreen(host, RY, OFST_TABLE + 1, COFST_HEIGHT_HALF, OFST_VTEX_OUTPUT + 1);
  }

  method BuildProgram(host: Host)
    requires host.Valid() && 87 < host.marr.Length
    modifies host`mnum, host.marr
    ensures host.Valid() && DecodeAll(host.Program()) == ShaderProgram()
  {
    BuildParts(host, VEC4_SIZE);
  }

  method UploadProgram(host: Host)
    requires host.Valid() && 87 < host.marr.Length
    modifies host`mnum, host.marr, host.device`pmem, host.device`sizePerCycle, host.device`numCycles
    ensures AllLaneRegisters(ShaderProgram()) && host.device.Code() == Emit(ShaderProgram(), host.mtaskmem)
    ensures host.device.sizePerCycle == PARALLEL_CNT * host.mtaskmem
    ensures host.device.numCycles == DeviceCycles(host.mtaskcycle)
  {
    BuildProgram(host);
    ShaderIsTaskProgram();
    host.ProgramAutofeedDeviceParallel();
  }

  // ---- data ----

  method UploadVertices(host: Host, vertices: seq<Word>, n: nat)
    requires host.mnumthr == |host.device.threads| > 0 && AllHeld(host.device.threads, n, TASK_SPACE)
    requires Times(n, 3) <= |vertices|
    modifies host`numTask, host`mtaskcycle, host`mtaskmem, host`taskMaxCycle
    modifies host.device`threads, host.device`sizePerCycle, host.device`numCycles
    ensures host.numTask == n && host.mtaskmem == 12 && host.mtaskcycle == TaskCycles(n, host.mnumthr)
    ensures host.device.threads == WriteTasks(old(host.device.threads), n, 12, vertices, 3, 1)
  {
    host.InitTaskParallel(TASK_SPACE, n);
    host.Write(vertices, 3, OFST_VTEX_INPUT);
  }

  /** What the host computes once per frame: the transformation and the size of the screen. */
  datatype ObjectConstant = ObjectConstant(worldViewProj: seq<Word>, width: Word, height: Word) {
    predicate Valid() {
      |worldViewProj| == 16
    }
  }

  /** Multiplication of floating point numbers as the host does it. */
  type HostMul = (Word, Word) -> Word

  /** Word `i` of constant memory after an upload, if `before` was there. */
  function ConstantWord(mul: HostMul, c: ObjectConstant, before: Word, i: nat): Word
    requires c.Valid()
  {
    if COFST_WORLD_VIEW_PROJ <= i < COFST_WORLD_VIEW_PROJ + 16 then c.worldViewProj[i - COFST_WORLD_VIEW_PROJ]
    else if i == COFST_WIDTH_HALF then mul(c.width, FLOAT_HALF)
    else if i == COFST_HEIGHT_HALF then mul(c.height, FLOAT_HALF)
    else if i == COFST_FLOAT_ONE then FLOAT_ONE
    else before
  }

  ghost predicate ConstantsSet(before: seq<Word>, after: seq<Word>, mul: HostMul, c: ObjectConstant)
    requires c.Valid()
  {
    && |after| == |before|
    && forall i :: 0 <= i < |after| ==> after[i] == ConstantWord(mul, c, before[i], i)
  }

  /** Word 1 is the number one, and words 14 and 15 are half the width and height if their products are exact. */
  ghost predicate HalvesAndOne(consts: seq<Word>, mul: HostMul, c: ObjectConstant)
    requires CONSTANTS <= |consts|
  {
    && IsNormal(consts[1]) && Value(consts[1]) == 1.0
    && (ExactProduct(mul, c.width, 0x3F00_0000) ==> IsNormal(consts[14]) && Value(consts[14]) == Value(c.width) / 2.0)
    && (ExactProduct(mul, c.height, 0x3F00_0000) ==> IsNormal(consts[15]) && Value(consts[15]) == Value(c.height) / 2.0)
  }

  lemma SetIsHalves(consts: seq<Word>, mul: HostMul, c: ObjectConstant)
    requires CONSTANTS <= |consts| && consts[COFST_FLOAT_ONE] == FLOAT_ONE
    requires consts[COFST_WIDTH_HALF] == mul(c.width, FLOAT_HALF) && consts[COFST_HEIGHT_HALF] == mul(c.height, FLOAT_HALF)
    ensures HalvesAndOne(consts, mul, c)
  {
    HalfAndOne();
    if ExactProduct(mul, c.width, FLOAT_HALF) {
      HalfOf(mul, c.width);
    }
    if ExactProduct(mul, c.height, FLOAT_HALF) {
      HalfOf(mul, c.height);
    }
  }

  lemma OneConstant(before: seq<Word>, at: nat, w: Word)
    requires at < |before|
    ensures Copied(before, at, [w]) == before[at := w]
  {
    CopiedSnoc(before, at, [], w);
    assert [] + [w] == [w];
  }

  method WriteOne(host: Host, w: Word, at: nat)
    requires at < |host.device.consts|
    modifies host.device`consts
    ensures host.device.consts == old(host.device.consts)[at := w]
  {
    OneConstant(host.device.consts, at, w);
    assert [w][..1] == [w];
    host.WriteConst([w], at, 1);
  }

  /** Every word of constant memory that the shader reads gets its value, and no other changes. */
  method UploadObjectConstant(host: Host, mul: HostMul, c: ObjectConstant)
    requires c.Valid() && CONSTANTS <= |host.device.consts|
    modifies host.device`consts
    ensures ConstantsSet(old(host.device.consts), host.device.consts, mul, c)
    ensures HalvesAndOne(host.device.consts, mul, c)
  {
    CopiedCells(host.device.consts, COFST_WORLD_VIEW_PROJ, c.worldViewProj);
    assert c.worldViewProj[..16] == c.worldViewProj;
    host.WriteConst(c.worldViewProj, COFST_WORLD_VIEW_PROJ, 16);
    var w, h := mul(c.width, FLOAT_HALF), mul(c.height, FLOAT_HALF);
    WriteOne(host, w, COFST_WIDTH_HALF);
    WriteOne(host, h, COFST_HEIGHT_HALF);
    WriteOne(host, FLOAT_ONE, COFST_FLOAT_ONE);
    SetIsHalves(host.device.consts, mul, c);
  }
}
