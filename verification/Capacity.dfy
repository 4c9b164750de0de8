/**
  When a batch that passes the host's check is computed right. The host checks the number of tasks; the
  device also runs the padding lanes of its last cycle, and those may reach round the end of memory.
 */
module Capacity {
  import opened Words
  import opened Arithmetic
  import opened Isa
  import opened Machine
  import opened LaneSimulation
  import opened DeviceRun
  import opened Reach
  import opened TaskLayout

  /** The host's check makes the tasks' own rows fit. */
  lemma CheckedTasksFit(tasks: nat, threads: nat, width: nat, depth: nat)
    requires threads > 0 && width > 0 && tasks < depth / width * threads
    ensures Times(TaskCycles(tasks, threads), width) <= depth
  {
    var rows, most := TaskCycles(tasks, threads), depth / width;
    Split(tasks + threads - 1, threads);
    assert (most + 1) * threads == most * threads + threads;
    if rows > most {
      MulMonotone(most + 1, rows, threads);
    }
    TimesIsProduct(rows, width);
    MulMonotone(rows, most, width);
    Split(depth, width);
  }

  // ---- batches that run right ----

  /** The run leaves task `t`'s record as the task program alone does. */
  ghost predicate TaskRight(e: Env, program: seq<Instr>, threads: seq<State>, width: nat, cycles: nat, t: nat)
    requires AllLaneRegisters(program) && forall i :: 0 <= i < |threads| ==> |threads[i].mem| > 0
  {
    |threads| > 0 && Held(threads, SpotOf(t, |threads|), width)
    && var p, done := SpotOf(t, |threads|), RunThreads(e, threads, Emit(program, width), PARALLEL_CNT * width, cycles);
       Record(done, p, width) == RowResult(e, program, width, p.row, Record(threads, p, width))
  }

  /** It does so for every task, whatever the threads held. */
  ghost predicate RunsRight(e: Env, program: seq<Instr>, tasks: nat, count: nat, width: nat, depth: nat)
    requires count > 0 && depth > 0 && AllLaneRegisters(program)
  {
    forall threads: seq<State>, t: nat :: Shaped(threads, depth) && |threads| == count && t < tasks ==>
      TaskRight(e, program, threads, width, DeviceCycles(TaskCycles(tasks, count)), t)
  }

  lemma BatchFits(e: Env, program: seq<Instr>, tasks: nat, count: nat, width: nat, depth: nat)
    requires count > 0 && 0 < width < 256 && 0 < depth < SIGN_BIT - 128 && e.window == 0
    requires Fits(tasks, count, width, depth) && TaskProgram(program, width)
    ensures RunsRight(e, program, tasks, count, width, depth)
  {
    var code, cycles := Emit(program, width), DeviceCycles(TaskCycles(tasks, count));
    EmitServes(e, program, width, depth, cycles);
    forall threads: seq<State>, t: nat | Shaped(threads, depth) && |threads| == count && t < tasks
      ensures TaskRight(e, program, threads, width, cycles, t)
    {
      CyclesCover(t, tasks, count);
      TaskHeld(threads, t, tasks, TaskCycles(tasks, count), width, depth);
      RecordRun(e, threads, code, width, depth, cycles, RowResults(e, program, width), SpotOf(t, count));
    }
  }

  // ---- a store that reaches round the end ----

  /** Store the pivot at offset `k`. */
  function StoreAt(k: U7): Instr {
    FormatA(OPR_STL, 0, REGPIVOT, k, REGPIVOT)
  }

  lemma StorePivot(e: Env, s: State, f: Instr)
    requires |s.mem| > 0 && f.cond == COND_ALWAYS && f.opr == OPR_STL && f.s == 0
    ensures Exec(e, s, f) == s.(mem := s.mem[Cell(e, s.mem, Add32(Reg(s.regs, f.rb), f.imm7)) := Reg(s.regs, f.ra)])
  {
  }

  lemma StoreIsTaskProgram(k: U7, width: nat)
    requires k < width
    ensures TaskProgram([StoreAt(k)], width)
  {
    assert InitBeforeUse([], {REGPIVOT});
  }

  lemma StoreKeepsRegisters(e: Env, s: State, k: U7, lane: nat)
    requires |s.mem| > 0 && lane < PARALLEL_CNT
    ensures Exec(e, s, LaneInstr(StoreAt(k), lane)).regs == s.regs
  {
    StorePivot(e, s, LaneInstr(StoreAt(k), lane));
  }

  lemma ThirdCopyStores(e: Env, s: State, k: U7, last: nat)
    requires |s.regs| == 32 && |s.mem| > 0 && e.window == 0 && s.regs[29] == last < SIGN_BIT
    ensures Exec(e, s, LaneInstr(StoreAt(k), 2)).mem[(last + k) % |s.mem|] == last
  {
    StorePivot(e, s, LaneInstr(StoreAt(k), 2));
    SmallMod(last + k, WORD_MOD);
  }

  /** After the three copies the cell that the last one reaches holds the last pivot. */
  lemma ThreeStores(e: Env, s: State, k: U7, last: nat)
    requires |s.regs| == 32 && |s.mem| > 0 && e.window == 0 && s.regs[29] == last < SIGN_BIT
    ensures Run(e, s, EmitBody([StoreAt(k)])).mem[(last + k) % |s.mem|] == last
  {
    var f := StoreAt(k);
    assert EmitBody([f]) == EmitInstr(f) + EmitBody([]) == EmitInstr(f);
    RunGroup(e, s, f);
    StoreKeepsRegisters(e, s, k, 0);
    var s1 := Exec(e, s, LaneInstr(f, 0));
    StoreKeepsRegisters(e, s1, k, 1);
    ThirdCopyStores(e, Exec(e, s1, LaneInstr(f, 1)), k, last);
  }

  lemma LastPivot(e: Env, s: State, base: nat, width: nat)
    requires |s.regs| == 32 && |s.mem| > 0 && 0 < width < 256
    requires e.cycleBase == base && base + PARALLEL_CNT * width < SIGN_BIT
    ensures Run(e, s, Prologue(width)).regs[29] == base + 2 * width
  {
    PrologueSetsPivots(e, s, base, width);
  }

  lemma PassStores(e: Env, s: State, k: U7, base: nat, width: nat)
    requires |s.regs| == 32 && |s.mem| > 0 && e.window == 0 && 0 < width < 256
    requires e.cycleBase == base && base + PARALLEL_CNT * width < SIGN_BIT
    ensures AllLaneRegisters([StoreAt(k)])
    ensures Run(e, s, Emit([StoreAt(k)], width)).mem[(base + 2 * width + k) % |s.mem|] == base + 2 * width
  {
    var prologue, body := Prologue(width), EmitBody([StoreAt(k)]);
    LastPivot(e, s, base, width);
    RunConcat(e, s, prologue, body);
    ThreeStores(e, Run(e, s, prologue), k, base + 2 * width);
  }

  /** The last pass leaves the last lane's pivot in the cell that its store reaches. */
  lemma LastStore(e: Env, s: State, k: U7, code: seq<Instr>, width: nat, cycles: nat)
    requires |s.regs| == 32 && |s.mem| > 0 && e.window == 0 && 0 < width < 256 && cycles > 0
    requires AllLaneRegisters([StoreAt(k)]) && code == Emit([StoreAt(k)], width)
    requires Times(PARALLEL_CNT * cycles, width) < SIGN_BIT
    ensures var last := Times(PARALLEL_CNT * cycles - 1, width);
            RunCycles(e, s, code, PARALLEL_CNT * width, cycles).mem[(last + k) % |s.mem|] == last
  {
    var size, c := PARALLEL_CNT * width, cycles - 1;
    var base := Times(PARALLEL_CNT * c, width);
    LastLane(c, width);
    TimesThrice(c, width);
    LastCycle(e, s, code, size, c, base);
    PassStores(e.(cycleBase := base), RunCycles(e, s, code, size, c), k, base, width);
  }

  lemma LastLane(c: nat, width: nat)
    ensures Times(PARALLEL_CNT * (c + 1) - 1, width) == Times(PARALLEL_CNT * c, width) + 2 * width
    ensures Times(PARALLEL_CNT * (c + 1), width) == Times(PARALLEL_CNT * c, width) + PARALLEL_CNT * width
  {
    var b := PARALLEL_CNT * c;
    assert Times(b + 1, width) == Times(b, width) + width;
    assert Times(b + 2, width) == Times(b + 1, width) + width;
  }

  /** A task that stores its pivot leaves only that pivot in a record of zeros. */
  lemma StoreAlone(e: Env, k: U7, width: nat, j: nat, record: seq<Word>, i: nat)
    requires i < |record| == width && k < width && Times(j, width) < SIGN_BIT
    requires forall i :: 0 <= i < |record| ==> record[i] == 0
    ensures RowResult(e, [StoreAt(k)], width, j, record)[i] in {0, Times(j, width)}
  {
    SmallMod(Times(j, width), WORD_MOD);
    var start, f := Times(j, width), StoreAt(k);
    var e', s := e.(cycleBase := Times(j / PARALLEL_CNT, PARALLEL_CNT * width) % WORD_MOD),
                 State(ZERO_REGS[REGPIVOT := Times(j, width)], record, CLEAR);
    RunOne(e'.(window := start), s, f);
    StorePivot(e'.(window := start), s, f);
  }

  // ---- which record it hits ----

  lemma OnePeriodBack(a: nat, m: nat)
    requires m <= a < 2 * m
    ensures a % m == a - m
  {
    Quotient(1, m, a - m);
  }

  lemma TwoPeriodsBack(m: nat)
    requires m > 0
    ensures 2 * m % m == 0
  {
    Quotient(2, m, 0);
  }

  /** The offset at which the last lane, at address `last`, reaches just past the end or, failing that, lowest. */
  function WrapOffset(last: nat, depth: nat): nat {
    if last < depth then depth - last else 0
  }

  /** The cell hit by the last lane lies in row 0 or row 1, and that is a row of tasks. */
  lemma HitRow(taskRows: nat, rows: nat, width: nat, depth: nat) returns (j: nat, i: nat)
    requires taskRows < rows <= taskRows + 2 && taskRows > 0 && width > 0
    requires Times(taskRows, width) <= depth < Reached(rows, width)
    ensures var last := Times(rows - 1, width);
            && WrapOffset(last, depth) < Span(width)
            && depth > 0
            && (last + WrapOffset(last, depth)) % depth == Times(j, width) + i
    ensures j < taskRows && i < width && j < 2
  {
    var last := Times(rows - 1, width);
    assert Times(1, width) == width && Times(0, width) == 0;
    Inside(0, taskRows, width);
    LastRowNear(taskRows, rows, width);
    if last < depth {
      OnePeriodBack(depth, depth);
      j, i := 0, 0;
    } else if last < depth + width {
      OnePeriodBack(last, depth);
      j, i := 0, last - depth;
    } else if taskRows == 1 {
      TwoPeriodsBack(depth);
      j, i := 0, 0;
    } else {
      Inside(1, taskRows, width);
      OnePeriodBack(last, depth);
      j, i := 1, 0;
    }
  }

  lemma LastRowNear(taskRows: nat, rows: nat, width: nat)
    requires taskRows < rows <= taskRows + 2
    ensures Times(rows - 1, width) <= Times(taskRows, width) + width
    ensures Times(taskRows, width) <= Times(rows - 1, width)
  {
    assert Times(taskRows + 1, width) == Times(taskRows, width) + width;
  }

  lemma RowsOfTasks(tasks: nat, count: nat)
    requires count > 0
    ensures TaskCycles(tasks, count) <= Rows(tasks, count) <= TaskCycles(tasks, count) + 2
    ensures tasks > 0 <==> TaskCycles(tasks, count) > 0
    ensures TaskCycles(tasks, count) > 1 ==> tasks > count
  {
    var n := tasks + count - 1;
    Split(n, count);
    if tasks == 0 {
      Quotient(0, count, count - 1);
    }
    if tasks <= count && n / count > 1 {
      MulMonotone(2, n / count, count);
    }
    if tasks > 0 {
      MulMonotone(1, n / count, count);
    }
  }

  /** Rows 0 and 1 of thread 0 belong to tasks 0 and `count`. */
  lemma FirstTasks(j: nat, tasks: nat, count: nat)
    requires count > 0 && j < TaskCycles(tasks, count) && j < 2
    ensures (if j == 0 then 0 else count) < tasks
    ensures SpotOf(if j == 0 then 0 else count, count) == Spot(0, j)
  {
    RowsOfTasks(tasks, count);
    if j == 1 {
      SpotIsDivision(count, count);
      Quotient(1, count, 0);
    }
  }

  // ---- the exact condition ----

  function Zeros(n: nat): (r: seq<Word>)
    ensures |r| == n && forall i :: 0 <= i < n ==> r[i] == 0
  {
    seq(n, _ => 0)
  }

  lemma LastStoreInRow(e: Env, s: State, k: U7, code: seq<Instr>, width: nat, cycles: nat, j: nat, i: nat)
    requires |s.regs| == 32 && |s.mem| > 0 && e.window == 0 && 0 < width < 256 && cycles > 0
    requires AllLaneRegisters([StoreAt(k)]) && code == Emit([StoreAt(k)], width)
    requires Times(PARALLEL_CNT * cycles, width) < SIGN_BIT
    requires Times(j, width) + width <= |s.mem| && i < width
    requires (Times(PARALLEL_CNT * cycles - 1, width) + k) % |s.mem| == Times(j, width) + i
    ensures Row(RunCycles(e, s, code, PARALLEL_CNT * width, cycles).mem, width, j)[i]
         == Times(PARALLEL_CNT * cycles - 1, width)
  {
    LastStore(e, s, k, code, width, cycles);
  }

  lemma WrongRow(e: Env, s: State, k: U7, code: seq<Instr>, width: nat, cycles: nat, j: nat, i: nat)
    requires |s.regs| == 32 && |s.mem| > 0 && e.window == 0 && 0 < width < 256 && cycles > 0 && k < width
    requires AllLaneRegisters([StoreAt(k)]) && code == Emit([StoreAt(k)], width)
    requires Times(PARALLEL_CNT * cycles, width) < SIGN_BIT && (forall a :: 0 <= a < |s.mem| ==> s.mem[a] == 0)
    requires Times(j, width) + width <= |s.mem| && i < width && j < PARALLEL_CNT * cycles - 1
    requires (Times(PARALLEL_CNT * cycles - 1, width) + k) % |s.mem| == Times(j, width) + i
    ensures Row(RunCycles(e, s, code, PARALLEL_CNT * width, cycles).mem, width, j)
         != RowResult(e, [StoreAt(k)], width, j, Row(s.mem, width, j))
  {
    LastStoreInRow(e, s, k, code, width, cycles, j, i);
    LowerRow(j, PARALLEL_CNT * cycles - 1, width);
    Inside(PARALLEL_CNT * cycles - 1, PARALLEL_CNT * cycles, width);
    StoreAlone(e, k, width, j, Row(s.mem, width, j), i);
  }

  lemma LowerRow(j: nat, last: nat, width: nat)
    requires j < last && width > 0
    ensures 0 <= Times(j, width) < Times(last, width)
  {
    Inside(j, last, width);
  }

  lemma RowOfTask(e: Env, program: seq<Instr>, threads: seq<State>, width: nat, cycles: nat, t: nat, s: State, j: nat)
    requires AllLaneRegisters(program) && forall i :: 0 <= i < |threads| ==> |threads[i].mem| > 0
    requires TaskRight(e, program, threads, width, cycles, t)
    requires SpotOf(t, |threads|) == Spot(0, j) && threads[0] == s
    ensures Times(j, width) + width <= |s.mem|
    ensures Row(RunCycles(e, s, Emit(program, width), PARALLEL_CNT * width, cycles).mem, width, j)
         == RowResult(e, program, width, j, Row(s.mem, width, j))
  {
  }

  /** Threads of zeros on which the store goes wrong for the task in row `j` of thread 0. */
  lemma WrongTask(e: Env, k: U7, count: nat, width: nat, depth: nat, cycles: nat, t: nat, j: nat, i: nat)
      returns (threads: seq<State>)
    requires count > 0 && depth > 0 && e.window == 0 && 0 < width < 256 && cycles > 0 && k < width
    requires Times(PARALLEL_CNT * cycles, width) < SIGN_BIT && AllLaneRegisters([StoreAt(k)])
    requires SpotOf(t, count) == Spot(0, j) && i < width && j < PARALLEL_CNT * cycles - 1
    requires (Times(PARALLEL_CNT * cycles - 1, width) + k) % depth == Times(j, width) + i
    ensures Shaped(threads, depth) && |threads| == count
    ensures !TaskRight(e, [StoreAt(k)], threads, width, cycles, t)
  {
    var s := State(Zeros(32), Zeros(depth), CLEAR);
    threads := seq(count, _ => s);
    if TaskRight(e, [StoreAt(k)], threads, width, cycles, t) {
      RowOfTask(e, [StoreAt(k)], threads, width, cycles, t, s, j);
      WrongRow(e, s, k, Emit([StoreAt(k)], width), width, cycles, j, i);
    }
  }

  lemma BatchWraps(e: Env, tasks: nat, count: nat, width: nat, depth: nat) returns (k: U7)
    requires count > 0 && 0 < width < 256 && 0 < depth < SIGN_BIT - 512 && e.window == 0
    requires Times(TaskCycles(tasks, count), width) <= depth < Reached(Rows(tasks, count), width)
    ensures TaskProgram([StoreAt(k)], width) && !RunsRight(e, [StoreAt(k)], tasks, count, width, depth)
  {
    var taskRows, rows := TaskCycles(tasks, count), Rows(tasks, count);
    RowsOfTasks(tasks, count);
    FullRowsReach(taskRows, width);
    var j, i := HitRow(taskRows, rows, width, depth);
    k := WrapOffset(Times(rows - 1, width), depth);
    StoreIsTaskProgram(k, width);
    FirstTasks(j, tasks, count);
    LastRowNear(taskRows, rows, width);
    Inside(rows - 1, rows, width);
    var t := if j == 0 then 0 else count;
    var threads := WrongTask(e, k, count, width, depth, DeviceCycles(taskRows), t, j, i);
  }

  lemma FullRowsReach(rows: nat, width: nat)
    ensures Reached(rows, width) <= Times(rows, width)
  {
  }

  /**
    Of the batches that pass the host's check, exactly those are computed right by every program whose last
    lane, padding or not, has its reachable words inside the memory.
   */
  lemma RunsRightExactly(e: Env, tasks: nat, count: nat, width: nat, depth: nat)
    requires count > 0 && 0 < width < 256 && 0 < depth < SIGN_BIT - 512 && e.window == 0
    requires tasks < depth / width * count
    ensures (forall program: seq<Instr> ::
               TaskProgram(program, width) ==> RunsRight(e, program, tasks, count, width, depth))
       <==> Reached(Rows(tasks, count), width) <= depth
  {
    CheckedTasksFit(tasks, count, width, depth);
    if Reached(Rows(tasks, count), width) <= depth {
      forall program: seq<Instr> | TaskProgram(program, width)
        ensures RunsRight(e, program, tasks, count, width, depth)
      {
        BatchFits(e, program, tasks, count, width, depth);
      }
    } else {
      var k := BatchWraps(e, tasks, count, width, depth);
    }
  }

  /**
    One task of 255 words on 24 threads of 512 words passes the check, yet the last lane reaches word 638 and
    so overwrites the task's record.
   */
  lemma PaddingLaneWraps(e: Env) returns (k: U7)
    requires e.window == 0
    ensures 1 < 512 / 255 * 24 && TaskProgram([StoreAt(k)], 255) && !RunsRight(e, [StoreAt(k)], 1, 24, 255, 512)
  {
    OneTaskReaches(255);
    k := BatchWraps(e, 1, 24, 255, 512);
  }

  /** With 171 words three rows do not fit either, but no lane reaches past word 470. */
  lemma OverlapIsHarmless(e: Env, program: seq<Instr>)
    requires e.window == 0 && TaskProgram(program, 171)
    ensures Times(Rows(1, 24), 171) > 512 && RunsRight(e, program, 1, 24, 171, 512)
  {
    OneTaskReaches(171);
    BatchFits(e, program, 1, 24, 171, 512);
  }

  lemma OneTaskReaches(width: nat)
    ensures Times(TaskCycles(1, 24), width) == width && Times(Rows(1, 24), width) == 3 * width
    ensures Reached(Rows(1, 24), width) == 2 * width + Span(width)
  {
    TimesIsProduct(1, width);
    TimesIsProduct(2, width);
    TimesIsProduct(3, width);
  }
}
