/**
  The application's loop: vertices and program are uploaded once, then every frame uploads its
  constants, runs the device and downloads the points.
 */
module Frames {
  import opened Words
  import opened Arithmetic
  import opened Buffers
  import opened Isa
  import opened Machine
  import opened LaneSimulation
  import opened DeviceRun
  import opened Reach
  import opened TaskLayout
  import opened Floats
  import opened Gppcu
  import opened EndToEnd
  import opened Shader
  import opened App

  // ---- the words of a point ----

  /** What the shader writes for the read-out of one row. */
  lemma PointOfRow(e: Env, j: nat, record: seq<Word>)
    requires CONSTANTS <= |e.consts| && |record| == TASK_SPACE && Times(j, TASK_SPACE) + TASK_SPACE <= WORD_MOD
    ensures RowResult(e, ShaderProgram(), TASK_SPACE, j, record) == ShadedRecord(e, Times(j, TASK_SPACE), record)
  {
    var e' := e.(cycleBase := Times(j / PARALLEL_CNT, PARALLEL_CNT * TASK_SPACE) % WORD_MOD);
    SmallMod(Times(j, TASK_SPACE), WORD_MOD);
    ShaderResult(e', Times(j, TASK_SPACE), record);
    ShadedAnywhere(e, e', Times(j, TASK_SPACE), record);
  }

  /** f shades the record of every row that lies in the address space. */
  ghost predicate Shades(e: Env, f: RowFunction)
    requires CONSTANTS <= |e.consts|
  {
    forall j: nat, r :: |r| == TASK_SPACE && Times(j, TASK_SPACE) + TASK_SPACE <= WORD_MOD ==>
      f(j, r) == ShadedRecord(e, Times(j, TASK_SPACE), r)
  }

  lemma RowResultsShade(e: Env)
    requires CONSTANTS <= |e.consts|
    ensures Shades(e, RowResults(e, ShaderProgram(), TASK_SPACE))
  {
    var f := RowResults(e, ShaderProgram(), TASK_SPACE);
    forall j: nat, r: seq<Word> | |r| == TASK_SPACE && Times(j, TASK_SPACE) + TASK_SPACE <= WORD_MOD
      ensures f(j, r) == ShadedRecord(e, Times(j, TASK_SPACE), r)
    {
      PointOfRow(e, j, r);
    }
  }

  /** The words of task `t` begin with the screen position of its own vertex. */
  ghost predicate PointAt(e: Env, words: seq<Word>, vertices: seq<Word>, t: nat)
    requires CONSTANTS <= |e.consts|
  {
    && Times(t, 3) + 3 <= |words| && Times(t, 3) + 3 <= |vertices|
    && var v := Chunk(vertices, t, 3) + [e.consts[COFST_FLOAT_ONE]];
       && words[Times(t, 3)] == Screen(e, COFST_WIDTH_HALF, Sum(e, v, 0, VEC4_SIZE))
       && words[Times(t, 3) + 1] == Screen(e, COFST_HEIGHT_HALF, Sum(e, v, 1, VEC4_SIZE))
  }

  // ---- frame after frame ----

  /** Words 1 to 3 of task `t`'s record are its vertex. */
  ghost predicate VertexHeld(threads: seq<State>, vertices: seq<Word>, t: nat, p: Spot) {
    && Held(threads, p, TASK_SPACE) && Times(t, 3) + 3 <= |vertices|
    && Record(threads, p, TASK_SPACE)[OFST_VTEX_INPUT..OFST_VTEX_INPUT + 3] == Chunk(vertices, t, 3)
  }

  ghost predicate VerticesHeld(threads: seq<State>, vertices: seq<Word>, n: nat) {
    |threads| > 0 && forall t: nat {:trigger VertexHeld(threads, vertices, t, SpotOf(t, |threads|))} :: t < n ==>
      VertexHeld(threads, vertices, t, SpotOf(t, |threads|))
  }

  lemma VertexWritten(threads: seq<State>, written: seq<State>, n: nat, vertices: seq<Word>, t: nat, p: Spot)
    requires Held(threads, p, TASK_SPACE) && t < n && Times(t, 3) + 3 <= |vertices|
    requires TaskWritten(threads, written, n, TASK_SPACE, vertices, 3, OFST_VTEX_INPUT, t, p)
    ensures VertexHeld(written, vertices, t, p)
  {
    CopiedSlice(Record(threads, p, TASK_SPACE), OFST_VTEX_INPUT, Chunk(vertices, t, 3));
  }

  lemma VerticesWritten(threads: seq<State>, vertices: seq<Word>, n: nat)
    requires AllHeld(threads, n, TASK_SPACE) && Times(n, 3) <= |vertices|
    ensures VerticesHeld(WriteTasks(threads, n, TASK_SPACE, vertices, 3, OFST_VTEX_INPUT), vertices, n)
  {
    var written := WriteTasks(threads, n, TASK_SPACE, vertices, 3, OFST_VTEX_INPUT);
    forall t: nat | t < n
      ensures VertexHeld(written, vertices, t, SpotOf(t, |threads|))
    {
      assert Held(threads, SpotOf(t, |threads|), TASK_SPACE);
      RecordWritten(threads, n, TASK_SPACE, vertices, 3, OFST_VTEX_INPUT, t);
      VertexWritten(threads, written, n, vertices, t, SpotOf(t, |threads|));
    }
  }

  /** Task `t`'s record has been shaded and still holds the vertex. */
  ghost predicate TaskShaded(e: Env, threads: seq<State>, done: seq<State>, vertices: seq<Word>, t: nat, p: Spot)
    requires CONSTANTS <= |e.consts|
  {
    && VertexHeld(threads, vertices, t, p) && VertexHeld(done, vertices, t, p) && Times(p.row, TASK_SPACE) < WORD_MOD
    && Record(done, p, TASK_SPACE) == ShadedRecord(e, Times(p.row, TASK_SPACE), Record(threads, p, TASK_SPACE))
  }

  lemma RecordShaded(e: Env, f: RowFunction, threads: seq<State>, done: seq<State>, depth: nat, vertices: seq<Word>,
                     t: nat, p: Spot)
    requires CONSTANTS <= |e.consts| && Shades(e, f) && VertexHeld(threads, vertices, t, p)
    requires Shaped(threads, depth) && depth < SIGN_BIT && Held(done, p, TASK_SPACE)
    requires Record(done, p, TASK_SPACE) == f(p.row, Record(threads, p, TASK_SPACE))
    ensures TaskShaded(e, threads, done, vertices, t, p)
  {
    var start, record := Times(p.row, TASK_SPACE), Record(threads, p, TASK_SPACE);
    assert f(p.row, record) == ShadedRecord(e, start, record);
    assert ShadedRecord(e, start, record)[OFST_VTEX_INPUT..OFST_VTEX_INPUT + 3]
        == record[OFST_VTEX_INPUT..OFST_VTEX_INPUT + 3];
  }

  /** A run shades every task's record. */
  lemma TaskFrame(e: Env, f: RowFunction, threads: seq<State>, code: seq<Instr>, n: nat, depth: nat,
                  vertices: seq<Word>, t: nat)
    requires CONSTANTS <= |e.consts| && Shades(e, f) && Shaped(threads, depth) && 0 < depth < SIGN_BIT && t < n
    requires VertexHeld(threads, vertices, t, SpotOf(t, |threads|))
    requires Serves(e, code, TASK_SPACE, depth, DeviceCycles(TaskCycles(n, |threads|)), f)
    ensures var done := RunThreads(e, threads, code, PARALLEL_CNT * TASK_SPACE, DeviceCycles(TaskCycles(n, |threads|)));
            TaskShaded(e, threads, done, vertices, t, SpotOf(t, |threads|))
  {
    var p, cycles := SpotOf(t, |threads|), DeviceCycles(TaskCycles(n, |threads|));
    CyclesCover(t, n, |threads|);
    RecordRun(e, threads, code, TASK_SPACE, depth, cycles, f, p);
    RecordShaded(e, f, threads, RunThreads(e, threads, code, PARALLEL_CNT * TASK_SPACE, cycles), depth, vertices, t, p);
  }

  ghost predicate TasksShaded(e: Env, threads: seq<State>, done: seq<State>, vertices: seq<Word>, n: nat)
    requires CONSTANTS <= |e.consts|
  {
    |done| == |threads| > 0
    && forall t: nat {:trigger TaskShaded(e, threads, done, vertices, t, SpotOf(t, |threads|))} :: t < n ==>
         TaskShaded(e, threads, done, vertices, t, SpotOf(t, |threads|))
  }

  lemma FrameRan(e: Env, threads: seq<State>, code: seq<Instr>, n: nat, depth: nat, vertices: seq<Word>)
    requires e.window == 0 && CONSTANTS <= |e.consts|
    requires Shaped(threads, depth) && 0 < depth < SIGN_BIT - 128 && Fits(n, |threads|, TASK_SPACE, depth)
    requires VerticesHeld(threads, vertices, n)
    requires AllLaneRegisters(ShaderProgram()) && code == Emit(ShaderProgram(), TASK_SPACE)
    ensures var done := RunThreads(e, threads, code, PARALLEL_CNT * TASK_SPACE, DeviceCycles(TaskCycles(n, |threads|)));
            TasksShaded(e, threads, done, vertices, n)
  {
    var f, cycles := RowResults(e, ShaderProgram(), TASK_SPACE), DeviceCycles(TaskCycles(n, |threads|));
    var done := RunThreads(e, threads, code, PARALLEL_CNT * TASK_SPACE, cycles);
    ShaderIsTaskProgram();
    RowResultsShade(e);
    EmitServes(e, ShaderProgram(), TASK_SPACE, depth, cycles);
    forall t: nat | t < n
      ensures TaskShaded(e, threads, done, vertices, t, SpotOf(t, |threads|))
    {
      assert VertexHeld(threads, vertices, t, SpotOf(t, |threads|));
      TaskFrame(e, f, threads, code, n, depth, vertices, t);
    }
  }

  lemma StillHeld(e: Env, threads: seq<State>, done: seq<State>, vertices: seq<Word>, n: nat)
    requires CONSTANTS <= |e.consts| && TasksShaded(e, threads, done, vertices, n)
    ensures VerticesHeld(done, vertices, n) && AllHeld(done, n, TASK_SPACE)
  {
    forall t: nat | t < n
      ensures VertexHeld(done, vertices, t, SpotOf(t, |done|))
      ensures Held(done, SpotOf(t, |done|), TASK_SPACE)
    {
      assert TaskShaded(e, threads, done, vertices, t, SpotOf(t, |threads|));
    }
  }

  lemma ShadedPoint(e: Env, record: seq<Word>, start: Word, chunk: seq<Word>)
    requires CONSTANTS <= |e.consts| && |record| == TASK_SPACE
    requires record[OFST_VTEX_INPUT..OFST_VTEX_INPUT + 3] == chunk
    ensures var shaded, v := ShadedRecord(e, start, record), chunk + [e.consts[COFST_FLOAT_ONE]];
            && shaded[OFST_VTEX_OUTPUT] == Screen(e, COFST_WIDTH_HALF, Sum(e, v, 0, VEC4_SIZE))
            && shaded[OFST_VTEX_OUTPUT + 1] == Screen(e, COFST_HEIGHT_HALF, Sum(e, v, 1, VEC4_SIZE))
  {
  }

  lemma TripleAt(words: seq<Word>, at: nat, result: seq<Word>, ofst: nat)
    requires at + 3 <= |words| && ofst + 3 <= |result| && words[at..at + 3] == result[ofst..ofst + 3]
    ensures words[at] == result[ofst] && words[at + 1] == result[ofst + 1]
  {
    assert words[at..at + 3][0] == words[at] && words[at..at + 3][1] == words[at + 1];
  }

  /** The words read for a task are the screen position of its vertex. */
  lemma PointRead(e: Env, threads: seq<State>, done: seq<State>, vertices: seq<Word>, n: nat, m: nat, t: nat)
    requires CONSTANTS <= |e.consts| && TasksShaded(e, threads, done, vertices, n) && t < m <= n
    requires AllHeld(done, m, TASK_SPACE)
    ensures PointAt(e, ReadTasks(done, m, TASK_SPACE, 3, OFST_VTEX_OUTPUT), vertices, t)
  {
    var p := SpotOf(t, |threads|);
    assert TaskShaded(e, threads, done, vertices, t, p);
    ReadAt(done, m, TASK_SPACE, 3, OFST_VTEX_OUTPUT, t);
    ShadedPoint(e, Record(threads, p, TASK_SPACE), Times(p.row, TASK_SPACE), Chunk(vertices, t, 3));
    TripleAt(ReadTasks(done, m, TASK_SPACE, 3, OFST_VTEX_OUTPUT), Times(t, 3), Record(done, p, TASK_SPACE),
             OFST_VTEX_OUTPUT);
  }

  /** The constant words of one frame on their own. */
  function FrameEnv(fpu: Fpu, mul: HostMul, c: ObjectConstant): (e: Env)
    requires c.Valid()
    ensures |e.consts| == CONSTANTS
  {
    Env(fpu, seq(CONSTANTS, i requires 0 <= i < CONSTANTS => ConstantWord(mul, c, 0, i)), 0, 0)
  }

  lemma FrameConstants(e: Env, before: seq<Word>, mul: HostMul, c: ObjectConstant)
    requires c.Valid() && ConstantsSet(before, e.consts, mul, c) && CONSTANTS <= |before|
    ensures SameConstants(e, FrameEnv(e.fpu, mul, c))
  {
  }

  lemma PointAnywhere(e: Env, e': Env, words: seq<Word>, vertices: seq<Word>, t: nat)
    requires SameConstants(e, e') && PointAt(e, words, vertices, t)
    ensures PointAt(e', words, vertices, t)
  {
    var v := Chunk(vertices, t, 3) + [e.consts[COFST_FLOAT_ONE]];
    SumAnywhere(e, e', v, 0, VEC4_SIZE);
    SumAnywhere(e, e', v, 1, VEC4_SIZE);
  }

  /** The first `m` points of a frame are those of the vertices under the frame's own constants. */
  ghost predicate FrameShown(fpu: Fpu, mul: HostMul, c: ObjectConstant, words: seq<Word>, vertices: seq<Word>, m: nat)
    requires c.Valid()
  {
    forall t: nat {:trigger PointAt(FrameEnv(fpu, mul, c), words, vertices, t)} :: t < m ==>
      PointAt(FrameEnv(fpu, mul, c), words, vertices, t)
  }

  lemma PointsShown(e: Env, before: seq<Word>, mul: HostMul, c: ObjectConstant, threads: seq<State>, done: seq<State>,
                    vertices: seq<Word>, n: nat, m: nat)
    requires c.Valid() && ConstantsSet(before, e.consts, mul, c) && CONSTANTS <= |before| && m <= n
    requires TasksShaded(e, threads, done, vertices, n) && AllHeld(done, m, TASK_SPACE)
    ensures FrameShown(e.fpu, mul, c, ReadTasks(done, m, TASK_SPACE, 3, OFST_VTEX_OUTPUT), vertices, m)
  {
    FrameConstants(e, before, mul, c);
    var words := ReadTasks(done, m, TASK_SPACE, 3, OFST_VTEX_OUTPUT);
    forall t: nat | t < m
      ensures PointAt(FrameEnv(e.fpu, mul, c), words, vertices, t)
    {
      PointRead(e, threads, done, vertices, n, m, t);
      PointAnywhere(e, FrameEnv(e.fpu, mul, c), words, vertices, t);
    }
  }

  /** The device holds the shader and the vertices of `n` tasks, as the set-up leaves it and every frame keeps it. */
  ghost predicate Ready(host: Host, vertices: seq<Word>, n: nat, depth: nat)
    reads host, host.device
  {
    && host.mnumthr == |host.device.threads| && host.numTask == n && host.mtaskmem == TASK_SPACE
    && AllLaneRegisters(ShaderProgram()) && host.device.Code() == Emit(ShaderProgram(), TASK_SPACE)
    && host.device.sizePerCycle == PARALLEL_CNT * TASK_SPACE
    && Shaped(host.device.threads, depth) && 0 < depth < SIGN_BIT - 128 && Fits(n, host.mnumthr, TASK_SPACE, depth)
    && host.device.numCycles == DeviceCycles(TaskCycles(n, host.mnumthr))
    && VerticesHeld(host.device.threads, vertices, n) && CONSTANTS <= |host.device.consts|
  }

  /** Vertices and program, once. */
  method SetUp(host: Host, vertices: seq<Word>, n: nat, ghost depth: nat)
    requires host.Valid() && 87 < host.marr.Length && CONSTANTS <= |host.device.consts|
    requires host.mnumthr == |host.device.threads| && Shaped(host.device.threads, depth) && 0 < depth < SIGN_BIT - 128
    requires Fits(n, host.mnumthr, TASK_SPACE, depth) && Times(n, 3) <= |vertices|
    modifies host, host.marr, host.device
    ensures Ready(host, vertices, n, depth)
  {
    TasksHeld(host.device.threads, n, TASK_SPACE, depth);
    VerticesWritten(host.device.threads, vertices, n);
    UploadVertices(host, vertices, n);
    UploadProgram(host);
  }

  method DownloadPoints(host: Host, dst: array<Word>, capacity: nat)
    requires host.mnumthr == |host.device.threads| && AllHeld(host.device.threads, host.numTask, host.mtaskmem)
    requires OFST_VTEX_OUTPUT + 3 <= host.mtaskmem && Times(ReadCount(host.numTask, capacity, 3), 3) <= dst.Length
    modifies dst
    ensures ReadCount(host.numTask, capacity, 3) <= host.numTask
    ensures dst[..Times(ReadCount(host.numTask, capacity, 3), 3)]
         == ReadTasks(host.device.threads, ReadCount(host.numTask, capacity, 3), host.mtaskmem, 3, 4)
  {
    host.Read(dst, capacity, 3, OFST_VTEX_OUTPUT);
  }

  /** One run of the device. */
  method RunFrame(host: Host, fpu: Fpu, ghost vertices: seq<Word>, ghost n: nat, ghost depth: nat)
    requires Ready(host, vertices, n, depth)
    modifies host.device`threads
    ensures Ready(host, vertices, n, depth) && AllHeld(host.device.threads, n, TASK_SPACE)
    ensures TasksShaded(Env(fpu, host.device.consts, 0, 0), old(host.device.threads), host.device.threads, vertices, n)
  {
    var device := host.device;
    ghost var threads, e := device.threads, Env(fpu, device.consts, 0, 0);
    FrameRan(e, threads, device.Code(), n, depth, vertices);
    device.Run(fpu);
    StillHeld(e, threads, device.threads, vertices, n);
  }

  method ShowFrame(host: Host, dst: array<Word>, capacity: nat, ghost e: Env, ghost before: seq<Word>,
                   ghost mul: HostMul, ghost c: ObjectConstant, ghost threads: seq<State>, ghost vertices: seq<Word>, ghost n: nat)
    requires host.mnumthr == |host.device.threads| && host.numTask == n && host.mtaskmem == TASK_SPACE
    requires c.Valid() && ConstantsSet(before, e.consts, mul, c) && CONSTANTS <= |before|
    requires TasksShaded(e, threads, host.device.threads, vertices, n) && AllHeld(host.device.threads, n, TASK_SPACE)
    requires Times(ReadCount(n, capacity, 3), 3) <= dst.Length
    modifies dst
    ensures FrameShown(e.fpu, mul, c, dst[..Times(ReadCount(n, capacity, 3), 3)], vertices, ReadCount(n, capacity, 3))
  {
    DownloadPoints(host, dst, capacity);
    PointsShown(e, before, mul, c, threads, host.device.threads, vertices, n, ReadCount(n, capacity, 3));
  }

  method SetConstants(host: Host, mul: HostMul, c: ObjectConstant, ghost vertices: seq<Word>, ghost n: nat,
                      ghost depth: nat)
    requires Ready(host, vertices, n, depth) && c.Valid()
    modifies host.device`consts
    ensures Ready(host, vertices, n, depth)
    ensures ConstantsSet(old(host.device.consts), host.device.consts, mul, c) && CONSTANTS <= |old(host.device.consts)|
  {
    UploadObjectConstant(host, mul, c);
  }

  /** Constants, run, download: the points of the vertices under this frame's constants. */
  method DrawFrame(host: Host, fpu: Fpu, mul: HostMul, c: ObjectConstant, dst: array<Word>, capacity: nat,
                   ghost vertices: seq<Word>, ghost n: nat, ghost depth: nat)
    requires Ready(host, vertices, n, depth) && c.Valid() && Times(ReadCount(n, capacity, 3), 3) <= dst.Length
    modifies host.device`consts, host.device`threads, dst
    ensures Ready(host, vertices, n, depth)
    ensures FrameShown(fpu, mul, c, dst[..Times(ReadCount(n, capacity, 3), 3)], vertices, ReadCount(n, capacity, 3))
  {
    ghost var threads, before := host.device.threads, host.device.consts;
    SetConstants(host, mul, c, vertices, n, depth);
    ghost var e := Env(fpu, host.device.consts, 0, 0);
    RunFrame(host, fpu, vertices, n, depth);
    ShowFrame(host, dst, capacity, e, before, mul, c, threads, vertices, n);
  }

  ghost predicate FramesShown(fpu: Fpu, mul: HostMul, constants: seq<ObjectConstant>, frames: seq<seq<Word>>,
                              vertices: seq<Word>, m: nat)
  {
    && |frames| <= |constants|
    && forall k :: 0 <= k < |frames| ==>
         constants[k].Valid() && FrameShown(fpu, mul, constants[k], frames[k], vertices, m)
  }

  lemma OneMoreFrame(fpu: Fpu, mul: HostMul, constants: seq<ObjectConstant>, frames: seq<seq<Word>>, words: seq<Word>,
                     vertices: seq<Word>, m: nat)
    requires FramesShown(fpu, mul, constants, frames, vertices, m) && |frames| < |constants|
    requires constants[|frames|].Valid() && FrameShown(fpu, mul, constants[|frames|], words, vertices, m)
    ensures FramesShown(fpu, mul, constants, frames + [words], vertices, m)
  {
  }

  method FrameLoop(host: Host, fpu: Fpu, mul: HostMul, constants: seq<ObjectConstant>, dst: array<Word>, capacity: nat,
                   words: nat, ghost vertices: seq<Word>, ghost n: nat, ghost depth: nat)
    returns (frames: seq<seq<Word>>)
    requires Ready(host, vertices, n, depth) && words == Times(ReadCount(n, capacity, 3), 3) <= dst.Length
    requires forall c :: c in constants ==> c.Valid()
    modifies host.device`consts, host.device`threads, dst
    ensures |frames| == |constants| && FramesShown(fpu, mul, constants, frames, vertices, ReadCount(n, capacity, 3))
  {
    frames := [];
    for k := 0 to |constants|
      invariant Ready(host, vertices, n, depth)
      invariant |frames| == k && FramesShown(fpu, mul, constants, frames, vertices, ReadCount(n, capacity, 3))
    {
      DrawFrame(host, fpu, mul, constants[k], dst, capacity, vertices, n, depth);
      OneMoreFrame(fpu, mul, constants, frames, dst[..words], vertices, ReadCount(n, capacity, 3));
      frames := frames + [dst[..words]];
    }
  }

  /** The program: vertices and shader are uploaded once, and the k-th frame shows the k-th constants' points. */
  method DrawFrames(host: Host, fpu: Fpu, mul: HostMul, constants: seq<ObjectConstant>, vertices: seq<Word>, n: nat,
                    dst: array<Word>, capacity: nat, ghost depth: nat) returns (frames: seq<seq<Word>>)
    requires host.Valid() && 87 < host.marr.Length && CONSTANTS <= |host.device.consts| && dst != host.marr
    requires host.mnumthr == |host.device.threads| && Shaped(host.device.threads, depth) && 0 < depth < SIGN_BIT - 128
    requires Fits(n, host.mnumthr, TASK_SPACE, depth) && Times(n, 3) <= |vertices|
    requires Times(ReadCount(n, capacity, 3), 3) <= dst.Length && forall c :: c in constants ==> c.Valid()
    modifies host, host.marr, host.device, dst
    ensures |frames| == |constants| && FramesShown(fpu, mul, constants, frames, vertices, ReadCount(n, capacity, 3))
  {
    SetUp(host, vertices, n, depth);
    var words := Times(ReadCount(n, capacity, 3), 3);
    frames := FrameLoop(host, fpu, mul, constants, dst, capacity, words, vertices, n, depth);
  }

  lemma VertexOf(vertices: seq<Word>, t: nat, w: Word)
    requires 3 * t + 3 <= |vertices|
    ensures Times(t, 3) == 3 * t
    ensures Chunk(vertices, t, 3) + [w] == [vertices[3 * t], vertices[3 * t + 1], vertices[3 * t + 2], w]
  {
    TimesIsProduct(t, 3);
  }

  /**
    In the library's terms: if products commute and the first product survives the addition to zero, the words shown for
    a vertex are half the screen's size plus the row vector (x, y, z, 1) times the matrix, as integers.
   */
  lemma PointIsProduct(fpu: Fpu, mul: HostMul, c: ObjectConstant, words: seq<Word>, vertices: seq<Word>, m: nat, t: nat)
    requires c.Valid() && FrameShown(fpu, mul, c, words, vertices, m) && t < m && 3 * t + 3 <= |vertices|
    requires forall a: Word, b: Word :: fpu.mul(a, b) == fpu.mul(b, a)
    requires var x, w := vertices[3 * t], c.worldViewProj;
             && fpu.add(0, fpu.mul(x, w[0])) == fpu.mul(x, w[0])
             && fpu.add(0, fpu.mul(x, w[1])) == fpu.mul(x, w[1])
    ensures 3 * t + 3 <= |words|
    ensures var v := [vertices[3 * t], vertices[3 * t + 1], vertices[3 * t + 2], 0x3F80_0000];
            && words[3 * t] == fpu.ftoi(fpu.add(mul(c.width, 0x3F00_0000), Vec4MultiplyMat4(fpu, v, c.worldViewProj, 0)))
            && words[3 * t + 1] == fpu.ftoi(fpu.add(mul(c.height, 0x3F00_0000), Vec4MultiplyMat4(fpu, v, c.worldViewProj, 1)))
    ensures Value(0x3F80_0000) == 1.0
    ensures ExactProduct(mul, c.width, 0x3F00_0000) ==> Value(mul(c.width, 0x3F00_0000)) == Value(c.width) / 2.0
    ensures ExactProduct(mul, c.height, 0x3F00_0000) ==> Value(mul(c.height, 0x3F00_0000)) == Value(c.height) / 2.0
  {
    VertexOf(vertices, t, FLOAT_ONE);
    ProductAtPoint(fpu, mul, c, words, vertices, m, t, Chunk(vertices, t, 3) + [FLOAT_ONE]);
    HalfAndOne();
    if ExactProduct(mul, c.width, FLOAT_HALF) {
      HalfOf(mul, c.width);
    }
    if ExactProduct(mul, c.height, FLOAT_HALF) {
      HalfOf(mul, c.height);
    }
  }

  lemma ProductAtPoint(fpu: Fpu, mul: HostMul, c: ObjectConstant, words: seq<Word>, vertices: seq<Word>, m: nat, t: nat,
                       v: seq<Word>)
    requires c.Valid() && FrameShown(fpu, mul, c, words, vertices, m) && t < m && Times(t, 3) + 3 <= |vertices|
    requires v == Chunk(vertices, t, 3) + [FLOAT_ONE] && forall a: Word, b: Word :: fpu.mul(a, b) == fpu.mul(b, a)
    requires forall col :: 0 <= col < 2 ==> fpu.add(0, fpu.mul(v[0], c.worldViewProj[col])) == fpu.mul(v[0], c.worldViewProj[col])
    ensures Times(t, 3) + 3 <= |words|
    ensures words[Times(t, 3)]
         == fpu.ftoi(fpu.add(mul(c.width, FLOAT_HALF), Vec4MultiplyMat4(fpu, v, c.worldViewProj, 0)))
    ensures words[Times(t, 3) + 1]
         == fpu.ftoi(fpu.add(mul(c.height, FLOAT_HALF), Vec4MultiplyMat4(fpu, v, c.worldViewProj, 1)))
  {
    var e := FrameEnv(fpu, mul, c);
    assert PointAt(e, words, vertices, t);
    assert Matrix(e) == c.worldViewProj;
    SumIsVec4Multiply(e, v, 0);
    SumIsVec4Multiply(e, v, 1);
  }
}
