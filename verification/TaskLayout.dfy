/**
  How N task records lie over threads, device cycles and lanes, and what writing, running and
  reading them does, on values.
 */
module TaskLayout {
  import opened Words
  import opened Arithmetic
  import opened Buffers
  import opened Isa
  import opened Machine
  import opened LaneSimulation
  import opened DeviceRun
  import opened Reach

  /** The number of rows a thread holds, and the number of passes over three rows that covers them. */
  function TaskCycles(tasks: nat, threads: nat): nat
    requires threads > 0
  {
    (tasks + threads - 1) / threads
  }

  function DeviceCycles(taskCycles: nat): nat {
    (taskCycles + PARALLEL_CNT - 1) / PARALLEL_CNT
  }

  /** The rows of the programmed cycles: those of the tasks and up to two of padding. */
  function Rows(tasks: nat, threads: nat): nat
    requires threads > 0
  {
    PARALLEL_CNT * DeviceCycles(TaskCycles(tasks, threads))
  }

  /** The tasks' rows lie in a thread's memory, and no lane of the programmed cycles reaches past its end. */
  predicate Fits(tasks: nat, threads: nat, width: nat, depth: nat)
    requires threads > 0
  {
    Times(TaskCycles(tasks, threads), width) <= depth && Reached(Rows(tasks, threads), width) <= depth
  }

  /** The thread and the row of a task, as the copy loops count them up. */
  datatype Spot = Spot(thread: nat, row: nat)

  function NextSpot(p: Spot, threads: nat): Spot {
    if p.thread + 1 == threads then Spot(0, p.row + 1) else Spot(p.thread + 1, p.row)
  }

  function SpotOf(t: nat, threads: nat): (p: Spot)
    requires threads > 0
    ensures p.thread < threads
  {
    if t == 0 then Spot(0, 0) else NextSpot(SpotOf(t - 1, threads), threads)
  }

  /** The counters are remainder and quotient. */
  lemma {:induction false} SpotIsDivision(t: nat, threads: nat)
    requires threads > 0
    ensures SpotOf(t, threads) == Spot(t % threads, t / threads)
  {
    if t == 0 {
      Quotient(0, threads, 0);
    } else {
      SpotIsDivision(t - 1, threads);
      Split(t - 1, threads);
      var p := SpotOf(t, threads);
      assert t == p.row * threads + p.thread;
      Quotient(p.row, threads, p.thread);
    }
  }

  /** Task t <-> (thread, device cycle, lane) is one to one: thread t mod T, cycle (t/T)/3, lane (t/T) mod 3. */
  lemma TaskAddressing(t: nat, thread: nat, cycle: nat, lane: nat, threads: nat)
    requires thread < threads && lane < PARALLEL_CNT
    ensures SpotOf(t, threads) == Spot(thread, cycle * PARALLEL_CNT + lane)
       <==> t == (cycle * PARALLEL_CNT + lane) * threads + thread
    ensures t == (cycle * PARALLEL_CNT + lane) * threads + thread
       <==> thread == t % threads && cycle == t / threads / PARALLEL_CNT && lane == t / threads % PARALLEL_CNT
  {
    var row := cycle * PARALLEL_CNT + lane;
    SpotIsDivision(t, threads);
    Split(t, threads);
    if t == row * threads + thread {
      DivisionUnique(row, thread, t / threads, t % threads, threads);
    }
  }

  lemma SameTask(t: nat, u: nat, threads: nat)
    requires threads > 0 && SpotOf(t, threads) == SpotOf(u, threads)
    ensures t == u
  {
    SpotIsDivision(t, threads);
    SpotIsDivision(u, threads);
    Split(t, threads);
    Split(u, threads);
  }

  /** Every task's row is among the rows counted, and those among the rows of the device cycles. */
  lemma CyclesCover(t: nat, tasks: nat, threads: nat)
    requires threads > 0 && t < tasks
    ensures SpotOf(t, threads).row < TaskCycles(tasks, threads) <= PARALLEL_CNT * DeviceCycles(TaskCycles(tasks, threads))
  {
    var c, q, n := TaskCycles(tasks, threads), t / threads, tasks + threads - 1;
    SpotIsDivision(t, threads);
    Split(n, threads);
    Split(t, threads);
    if q >= c {
      MulMonotone(c, q, threads);
    }
  }

  /** The programmed number of cycles is ceil(N / 3T). */
  lemma CyclesAreCeiling(tasks: nat, threads: nat)
    requires threads > 0
    ensures DeviceCycles(TaskCycles(tasks, threads)) == (tasks + PARALLEL_CNT * threads - 1) / (PARALLEL_CNT * threads)
  {
    var c := TaskCycles(tasks, threads);
    var d, l, r := DeviceCycles(c), (c + 2) % PARALLEL_CNT, (tasks + threads - 1) % threads;
    Split(tasks + threads - 1, threads);
    assert (c + 2) * threads == c * threads + 2 * threads;
    assert (d * PARALLEL_CNT + l) * threads == d * (PARALLEL_CNT * threads) + l * threads;
    Quotient(d, PARALLEL_CNT * threads, l * threads + r);
  }

  // ---- records ----

  ghost predicate Shaped(threads: seq<State>, depth: nat) {
    |threads| > 0 && forall i :: 0 <= i < |threads| ==> |threads[i].regs| == 32 && |threads[i].mem| == depth
  }

  ghost predicate Held(threads: seq<State>, p: Spot, width: nat) {
    p.thread < |threads| && Times(p.row, width) + width <= |threads[p.thread].mem|
  }

  /** If `rows` rows fit a thread, the records of all tasks in them do. */
  lemma TaskHeld(threads: seq<State>, t: nat, tasks: nat, rows: nat, width: nat, depth: nat)
    requires Shaped(threads, depth) && t < tasks && TaskCycles(tasks, |threads|) <= rows && Times(rows, width) <= depth
    ensures Held(threads, SpotOf(t, |threads|), width)
  {
    CyclesCover(t, tasks, |threads|);
    Inside(SpotOf(t, |threads|).row, rows, width);
  }

  function Record(threads: seq<State>, p: Spot, width: nat): (r: seq<Word>)
    requires Held(threads, p, width)
    ensures |r| == width
  {
    Row(threads[p.thread].mem, width, p.row)
  }

  // ---- writing ----

  function Chunk(data: seq<Word>, t: nat, size: nat): (r: seq<Word>)
    requires Times(t, size) + size <= |data|
    ensures |r| == size
  {
    data[Times(t, size)..Times(t, size) + size]
  }

  ghost predicate SameShape(threads: seq<State>, r: seq<State>) {
    |r| == |threads| && forall i :: 0 <= i < |r| ==> |r[i].regs| == |threads[i].regs| && |r[i].mem| == |threads[i].mem|
  }

  function WriteAt(threads: seq<State>, p: Spot, width: nat, words: seq<Word>, ofst: nat): (r: seq<State>)
    requires Held(threads, p, width) && ofst + |words| <= width
    ensures SameShape(threads, r)
  {
    threads[p.thread := threads[p.thread].(mem := Copied(threads[p.thread].mem, Times(p.row, width) + ofst, words))]
  }

  ghost predicate AllHeld(threads: seq<State>, n: nat, width: nat) {
    |threads| > 0 && forall t: nat :: t < n ==> Held(threads, SpotOf(t, |threads|), width)
  }

  /** The first `n` tasks get their chunks of `data`, `size` words each, at offset `ofst` of their records. */
  function WriteTasks(threads: seq<State>, n: nat, width: nat, data: seq<Word>, size: nat, ofst: nat): (r: seq<State>)
    requires AllHeld(threads, n, width) && ofst + size <= width && Times(n, size) <= |data|
    ensures SameShape(threads, r)
  {
    if n == 0 then threads
    else
      Inside(n - 1, n, size);
      var before, p := WriteTasks(threads, n - 1, width, data, size, ofst), SpotOf(n - 1, |threads|);
      assert Held(threads, p, width);
      WriteAt(before, p, width, Chunk(data, n - 1, size), ofst)
  }

  lemma RowCopiedHere(mem: seq<Word>, j: nat, width: nat, words: seq<Word>, ofst: nat)
    requires Times(j, width) + width <= |mem| && ofst + |words| <= width
    ensures Row(Copied(mem, Times(j, width) + ofst, words), width, j) == Copied(Row(mem, width, j), ofst, words)
  {
    CopiedInside(mem, Times(j, width) + ofst, words, Times(j, width), width);
  }

  lemma RowCopiedElsewhere(mem: seq<Word>, j: nat, width: nat, words: seq<Word>, ofst: nat, i: nat)
    requires Times(j, width) + width <= |mem| && Times(i, width) + width <= |mem| && ofst + |words| <= width
    requires i != j
    ensures Row(Copied(mem, Times(j, width) + ofst, words), width, i) == Row(mem, width, i)
  {
    if i < j {
      Inside(i, j, width);
    } else {
      Inside(j, i, width);
    }
    CopiedOutside(mem, Times(j, width) + ofst, words, Times(i, width), width);
  }

  lemma MemoryWritten(threads: seq<State>, q: Spot, width: nat, words: seq<Word>, ofst: nat, i: nat)
    requires Held(threads, q, width) && ofst + |words| <= width && i < |threads|
    ensures WriteAt(threads, q, width, words, ofst)[i].mem
         == if i == q.thread then Copied(threads[i].mem, Times(q.row, width) + ofst, words) else threads[i].mem
  {
  }

  lemma SameThreadWritten(mem: seq<Word>, j: nat, width: nat, words: seq<Word>, ofst: nat, i: nat)
    requires Times(j, width) + width <= |mem| && Times(i, width) + width <= |mem| && ofst + |words| <= width
    ensures Row(Copied(mem, Times(j, width) + ofst, words), width, i)
         == if i == j then Copied(Row(mem, width, i), ofst, words) else Row(mem, width, i)
  {
    if i == j {
      RowCopiedHere(mem, j, width, words, ofst);
    } else {
      RowCopiedElsewhere(mem, j, width, words, ofst, i);
    }
  }

  /** Writing at one place changes the record there and no other. */
  lemma OneRecordWritten(threads: seq<State>, q: Spot, width: nat, words: seq<Word>, ofst: nat, p: Spot)
    requires Held(threads, q, width) && Held(threads, p, width) && ofst + |words| <= width
    ensures Held(WriteAt(threads, q, width, words, ofst), p, width)
    ensures Record(WriteAt(threads, q, width, words, ofst), p, width)
         == if p == q then Copied(Record(threads, p, width), ofst, words) else Record(threads, p, width)
  {
    MemoryWritten(threads, q, width, words, ofst, p.thread);
    if p.thread == q.thread {
      SameThreadWritten(threads[q.thread].mem, q.row, width, words, ofst, p.row);
    }
  }

  /** `after` is `before` with task `u`'s words written: its record gets them, no other changes. */
  lemma NextRecordWritten(before: seq<State>, after: seq<State>, count: nat, u: nat, width: nat, words: seq<Word>,
                          ofst: nat, t: nat)
    requires |before| == count > 0 && Held(before, SpotOf(u, count), width) && Held(before, SpotOf(t, count), width)
    requires ofst + |words| <= width && after == WriteAt(before, SpotOf(u, count), width, words, ofst)
    ensures Held(after, SpotOf(t, count), width)
    ensures Record(after, SpotOf(t, count), width)
         == if t == u then Copied(Record(before, SpotOf(t, count), width), ofst, words)
            else Record(before, SpotOf(t, count), width)
  {
    var p, q := SpotOf(t, count), SpotOf(u, count);
    if p == q {
      SameTask(t, u, count);
    }
    OneRecordWritten(before, q, width, words, ofst, p);
  }

  /** Task `t`'s record after the first `n` tasks have been written. */
  ghost predicate TaskWritten(threads: seq<State>, after: seq<State>, n: nat, width: nat, data: seq<Word>, size: nat,
                              ofst: nat, t: nat, p: Spot)
    requires Held(threads, p, width) && ofst + size <= width && (t < n ==> Times(t, size) + size <= |data|)
  {
    && Held(after, p, width)
    && Record(after, p, width)
       == if t < n then Copied(Record(threads, p, width), ofst, Chunk(data, t, size)) else Record(threads, p, width)
  }

  lemma LastTaskWritten(threads: seq<State>, before: seq<State>, after: seq<State>, n: nat, width: nat,
                        data: seq<Word>, size: nat, ofst: nat, t: nat)
    requires n > 0 && |before| == |threads| > 0 && Held(threads, SpotOf(t, |threads|), width)
    requires Held(before, SpotOf(n - 1, |threads|), width) && ofst + size <= width
    requires Times(n - 1, size) + size <= |data| && (t < n ==> Times(t, size) + size <= |data|)
    requires TaskWritten(threads, before, n - 1, width, data, size, ofst, t, SpotOf(t, |threads|))
    requires after == WriteAt(before, SpotOf(n - 1, |threads|), width, Chunk(data, n - 1, size), ofst)
    ensures TaskWritten(threads, after, n, width, data, size, ofst, t, SpotOf(t, |threads|))
  {
    NextRecordWritten(before, after, |threads|, n - 1, width, Chunk(data, n - 1, size), ofst, t);
  }

  /** Writing puts each task's words into its own record and leaves the rest of every record alone. */
  lemma {:induction false} RecordWritten(threads: seq<State>, n: nat, width: nat, data: seq<Word>, size: nat,
          ofst: nat, t: nat)
    requires AllHeld(threads, n, width) && Held(threads, SpotOf(t, |threads|), width)
    requires ofst + size <= width && Times(n, size) <= |data|
    ensures t < n ==> Times(t, size) + size <= |data|
    ensures TaskWritten(threads, WriteTasks(threads, n, width, data, size, ofst), n, width, data, size, ofst, t,
                        SpotOf(t, |threads|))
  {
    if n > 0 {
      Inside(n - 1, n, size);
      if t < n {
        Inside(t, n, size);
      }
      var before := WriteTasks(threads, n - 1, width, data, size, ofst);
      var after := WriteTasks(threads, n, width, data, size, ofst);
      RecordWritten(threads, n - 1, width, data, size, ofst, t);
      LastTaskWritten(threads, before, after, n, width, data, size, ofst, t);
    }
  }

  /** All of them. */
  ghost predicate TasksWritten(threads: seq<State>, after: seq<State>, tasks: nat, width: nat, data: seq<Word>,
                               size: nat, ofst: nat)
    requires AllHeld(threads, tasks, width) && ofst + size <= width && Times(tasks, size) <= |data|
  {
    |after| == |threads|
    && forall t: nat {:trigger TaskWritten(threads, after, tasks, width, data, size, ofst, t, SpotOf(t, |threads|))} ::
         t < tasks ==>
           && Times(t, size) + size <= |data|
           && TaskWritten(threads, after, tasks, width, data, size, ofst, t, SpotOf(t, |threads|))
  }

  lemma RecordsWritten(threads: seq<State>, tasks: nat, width: nat, data: seq<Word>, size: nat, ofst: nat)
    requires AllHeld(threads, tasks, width) && ofst + size <= width && Times(tasks, size) <= |data|
    ensures TasksWritten(threads, WriteTasks(threads, tasks, width, data, size, ofst), tasks, width, data, size, ofst)
  {
    var written := WriteTasks(threads, tasks, width, data, size, ofst);
    forall t: nat | t < tasks
      ensures Times(t, size) + size <= |data|
      ensures TaskWritten(threads, written, tasks, width, data, size, ofst, t, SpotOf(t, |threads|))
    {
      assert Held(threads, SpotOf(t, |threads|), width);
      RecordWritten(threads, tasks, width, data, size, ofst, t);
    }
  }

  // ---- running ----

  function RunThreads(e: Env, threads: seq<State>, code: seq<Instr>, size: nat, cycles: nat): (r: seq<State>)
    requires forall i :: 0 <= i < |threads| ==> |threads[i].mem| > 0
    ensures |r| == |threads|
    ensures forall i :: 0 <= i < |r| ==> r[i] == RunCycles(e, threads[i], code, size, cycles)
  {
    seq(|threads|, i requires 0 <= i < |threads| => RunCycles(e, threads[i], code, size, cycles))
  }

  /** Running code that serves f applies f to every record of the cycles, each exactly once. */
  lemma RecordRun(e: Env, threads: seq<State>, code: seq<Instr>, width: nat, depth: nat, cycles: nat,
          f: RowFunction, p: Spot)
    requires Shaped(threads, depth) && p.row < PARALLEL_CNT * cycles && depth > 0
    requires Serves(e, code, width, depth, cycles, f)
    requires Held(threads, p, width)
    ensures Held(RunThreads(e, threads, code, PARALLEL_CNT * width, cycles), p, width)
    ensures Record(RunThreads(e, threads, code, PARALLEL_CNT * width, cycles), p, width) == f(p.row, Record(threads, p, width))
  {
    assert RowServed(e, threads[p.thread], code, width, cycles, f, p.row);
  }

  // ---- reading ----

  /** The words at one offset of the first `n` records, task after task. */
  function ReadTasks(threads: seq<State>, n: nat, width: nat, size: nat, ofst: nat): (r: seq<Word>)
    requires AllHeld(threads, n, width) && ofst + size <= width
    ensures |r| == Times(n, size)
  {
    if n == 0 then []
    else ReadTasks(threads, n - 1, width, size, ofst) + Record(threads, SpotOf(n - 1, |threads|), width)[ofst..ofst + size]
  }

  lemma {:induction false} ReadLength(threads: seq<State>, n: nat, width: nat, size: nat, ofst: nat, t: nat)
    requires AllHeld(threads, n, width) && ofst + size <= width && t < n
    ensures Times(t, size) + size <= |ReadTasks(threads, n, width, size, ofst)|
    ensures Held(threads, SpotOf(t, |threads|), width)
  {
    Inside(t, n, size);
  }

  /** The words that a read delivers for task `t` are those of its own record. */
  lemma {:induction false} ReadAt(threads: seq<State>, n: nat, width: nat, size: nat, ofst: nat, t: nat)
    requires AllHeld(threads, n, width) && ofst + size <= width && t < n
    ensures Held(threads, SpotOf(t, |threads|), width)
    ensures Times(t, size) + size <= |ReadTasks(threads, n, width, size, ofst)|
    ensures ReadTasks(threads, n, width, size, ofst)[Times(t, size)..Times(t, size) + size]
         == Record(threads, SpotOf(t, |threads|), width)[ofst..ofst + size]
  {
    ReadLength(threads, n, width, size, ofst, t);
    var front := ReadTasks(threads, n - 1, width, size, ofst);
    var piece := Record(threads, SpotOf(n - 1, |threads|), width)[ofst..ofst + size];
    assert ReadTasks(threads, n, width, size, ofst) == front + piece;
    if t < n - 1 {
      ReadAt(threads, n - 1, width, size, ofst, t);
      FrontSlice(front, piece, Times(t, size), Times(t, size) + size);
    } else {
      BackSlice(front, piece);
    }
  }

  lemma FrontSlice(front: seq<Word>, back: seq<Word>, a: nat, b: nat)
    requires a <= b <= |front|
    ensures (front + back)[a..b] == front[a..b]
  {
  }

  lemma BackSlice(front: seq<Word>, back: seq<Word>)
    ensures (front + back)[|front|..|front| + |back|] == back
  {
  }

  /** How many tasks a read delivers before the next element would reach the end of the buffer. */
  function ReadCount(tasks: nat, capacity: nat, size: nat): nat {
    if capacity == 0 then 0
    else if size == 0 then tasks
    else if tasks <= (capacity - 1) / size then tasks
    else (capacity - 1) / size
  }

  /** Task t is delivered exactly if it exists and ends strictly before the capacity. */
  lemma ReadCountIs(t: nat, tasks: nat, capacity: nat, size: nat)
    ensures t < ReadCount(tasks, capacity, size) <==> t < tasks && Times(t, size) + size < capacity
  {
    TimesIsProduct(t, size);
    if capacity > 0 && size > 0 {
      var q := (capacity - 1) / size;
      Split(capacity - 1, size);
      if t < q {
        MulMonotone(t + 1, q, size);
      } else {
        MulMonotone(q + 1, t + 1, size);
      }
    }
  }

  /** Never more than the capacity. */
  lemma ReadWithinCapacity(tasks: nat, capacity: nat, size: nat)
    ensures size > 0 ==> Times(ReadCount(tasks, capacity, size), size) <= capacity
  {
    var n := ReadCount(tasks, capacity, size);
    if n > 0 {
      ReadCountIs(n - 1, tasks, capacity, size);
    }
  }

  lemma NextChunk(data: seq<Word>, n: nat, size: nat)
    requires n > 0 && Times(n, size) <= |data|
    ensures Times(n - 1, size) + size == Times(n, size)
    ensures data[..Times(n, size)] == data[..Times(n - 1, size)] + Chunk(data, n - 1, size)
  {
  }

  lemma ChunkBack(record: seq<Word>, written: seq<Word>, chunk: seq<Word>, ofst: nat)
    requires ofst + |chunk| <= |record| && written == Copied(record, ofst, chunk)
    ensures written[ofst..ofst + |chunk|] == chunk
  {
    CopiedSlice(record, ofst, chunk);
  }

  lemma OneMoreBack(written: seq<State>, n: nat, width: nat, data: seq<Word>, size: nat, ofst: nat)
    requires n > 0 && AllHeld(written, n, width) && ofst + size <= width && Times(n, size) <= |data|
    requires Times(n - 1, size) + size <= |data|
    requires ReadTasks(written, n - 1, width, size, ofst) == data[..Times(n - 1, size)]
    requires Record(written, SpotOf(n - 1, |written|), width)[ofst..ofst + size] == Chunk(data, n - 1, size)
    ensures ReadTasks(written, n, width, size, ofst) == data[..Times(n, size)]
  {
    NextChunk(data, n, size);
  }

  lemma {:induction false} ReadBack(threads: seq<State>, written: seq<State>, n: nat, tasks: nat, width: nat,
          data: seq<Word>, size: nat, ofst: nat)
    requires AllHeld(threads, tasks, width) && ofst + size <= width && Times(tasks, size) <= |data| && n <= tasks
    requires TasksWritten(threads, written, tasks, width, data, size, ofst)
    ensures AllHeld(written, n, width) && Times(n, size) <= |data|
    ensures ReadTasks(written, n, width, size, ofst) == data[..Times(n, size)]
  {
    if n > 0 {
      var p := SpotOf(n - 1, |threads|);
      ReadBack(threads, written, n - 1, tasks, width, data, size, ofst);
      Inside(n - 1, tasks, size);
      assert TaskWritten(threads, written, tasks, width, data, size, ofst, n - 1, p);
      ChunkBack(Record(threads, p, width), Record(written, p, width), Chunk(data, n - 1, size), ofst);
      OneMoreBack(written, n, width, data, size, ofst);
    }
  }

  /** Reading back what was written at the same place gives the data itself. */
  lemma RoundTrip(threads: seq<State>, n: nat, tasks: nat, width: nat, data: seq<Word>, size: nat, ofst: nat)
    requires AllHeld(threads, tasks, width) && n <= tasks && ofst + size <= width && Times(tasks, size) <= |data|
    ensures AllHeld(WriteTasks(threads, tasks, width, data, size, ofst), n, width) && Times(n, size) <= |data|
    ensures ReadTasks(WriteTasks(threads, tasks, width, data, size, ofst), n, width, size, ofst) == data[..Times(n, size)]
  {
    RecordsWritten(threads, tasks, width, data, size, ofst);
    ReadBack(threads, WriteTasks(threads, tasks, width, data, size, ofst), n, tasks, width, data, size, ofst);
  }

  lemma {:induction false} ReadElsewhere(threads: seq<State>, written: seq<State>, n: nat, tasks: nat, width: nat,
          data: seq<Word>, size: nat, ofst: nat, size': nat, ofst': nat)
    requires AllHeld(threads, tasks, width) && ofst + size <= width && Times(tasks, size) <= |data| && n <= tasks
    requires TasksWritten(threads, written, tasks, width, data, size, ofst)
    requires (ofst' + size' <= ofst || ofst + size <= ofst') && ofst' + size' <= width
    ensures AllHeld(written, n, width)
    ensures ReadTasks(written, n, width, size', ofst') == ReadTasks(threads, n, width, size', ofst')
  {
    if n > 0 {
      var p := SpotOf(n - 1, |threads|);
      ReadElsewhere(threads, written, n - 1, tasks, width, data, size, ofst, size', ofst');
      Inside(n - 1, tasks, size);
      assert TaskWritten(threads, written, tasks, width, data, size, ofst, n - 1, p);
      CopiedOutside(Record(threads, p, width), ofst, Chunk(data, n - 1, size), ofst', size');
    }
  }

  /** A write leaves every disjoint range of offsets of every record as it was. */
  lemma WriteFrame(threads: seq<State>, n: nat, tasks: nat, width: nat, data: seq<Word>, size: nat, ofst: nat,
                   size': nat, ofst': nat)
    requires AllHeld(threads, tasks, width) && n <= tasks && ofst + size <= width && Times(tasks, size) <= |data|
    requires (ofst' + size' <= ofst || ofst + size <= ofst') && ofst' + size' <= width
    ensures var written := WriteTasks(threads, tasks, width, data, size, ofst);
            && AllHeld(written, n, width)
            && ReadTasks(written, n, width, size', ofst') == ReadTasks(threads, n, width, size', ofst')
  {
    RecordsWritten(threads, tasks, width, data, size, ofst);
    var written := WriteTasks(threads, tasks, width, data, size, ofst);
    ReadElsewhere(threads, written, n, tasks, width, data, size, ofst, size', ofst');
  }

  // ---- all of it ----

  /** f mapped over the written records: what the read after the run is to deliver. */
  function MappedWords(threads: seq<State>, n: nat, width: nat, data: seq<Word>, size: nat, ofst: nat,
          f: RowFunction, size': nat, ofst': nat): seq<Word>
    requires AllHeld(threads, n, width) && ofst + size <= width && Times(n, size) <= |data|
    requires forall j: nat, r :: |f(j, r)| == |r|
    requires ofst' + size' <= width
  {
    if n == 0 then []
    else
      Inside(n - 1, n, size);
      var p := SpotOf(n - 1, |threads|);
      MappedWords(threads, n - 1, width, data, size, ofst, f, size', ofst')
        + f(p.row, Copied(Record(threads, p, width), ofst, Chunk(data, n - 1, size)))[ofst'..ofst' + size']
  }

  /** Every task's record in `done` is f of its own record with its chunk of `data` written into it. */
  ghost predicate TasksMapped(threads: seq<State>, done: seq<State>, tasks: nat, width: nat, data: seq<Word>, size: nat,
                              ofst: nat, f: RowFunction)
    requires AllHeld(threads, tasks, width) && ofst + size <= width && Times(tasks, size) <= |data|
    requires |done| == |threads|
  {
    forall t: nat {:trigger TaskMapped(threads, done, width, data, size, ofst, f, t, SpotOf(t, |threads|))} ::
      t < tasks ==> TaskMapped(threads, done, width, data, size, ofst, f, t, SpotOf(t, |threads|))
  }

  ghost predicate TaskMapped(threads: seq<State>, done: seq<State>, width: nat, data: seq<Word>, size: nat, ofst: nat,
                             f: RowFunction, t: nat, p: Spot)
    requires Held(threads, p, width) && ofst + size <= width
  {
    && Held(done, p, width) && Times(t, size) + size <= |data|
    && Record(done, p, width) == f(p.row, Copied(Record(threads, p, width), ofst, Chunk(data, t, size)))
  }

  lemma RunMapsOne(e: Env, threads: seq<State>, written: seq<State>, code: seq<Instr>, width: nat, depth: nat,
                   cycles: nat, f: RowFunction, tasks: nat, data: seq<Word>, size: nat, ofst: nat, t: nat)
    requires Shaped(threads, depth) && Shaped(written, depth) && |written| == |threads| && depth > 0
    requires Serves(e, code, width, depth, cycles, f) && cycles == DeviceCycles(TaskCycles(tasks, |threads|))
    requires t < tasks && ofst + size <= width && Times(t, size) + size <= |data|
    requires Held(threads, SpotOf(t, |threads|), width)
    requires TaskWritten(threads, written, tasks, width, data, size, ofst, t, SpotOf(t, |threads|))
    ensures var done := RunThreads(e, written, code, PARALLEL_CNT * width, cycles);
            TaskMapped(threads, done, width, data, size, ofst, f, t, SpotOf(t, |threads|))
  {
    CyclesCover(t, tasks, |threads|);
    RecordRun(e, written, code, width, depth, cycles, f, SpotOf(t, |threads|));
  }

  lemma RunMaps(e: Env, threads: seq<State>, written: seq<State>, code: seq<Instr>, width: nat, depth: nat, cycles: nat,
                f: RowFunction, tasks: nat, data: seq<Word>, size: nat, ofst: nat)
    requires Shaped(threads, depth) && Shaped(written, depth) && depth > 0 && AllHeld(threads, tasks, width)
    requires Serves(e, code, width, depth, cycles, f) && cycles == DeviceCycles(TaskCycles(tasks, |threads|))
    requires ofst + size <= width && Times(tasks, size) <= |data|
    requires TasksWritten(threads, written, tasks, width, data, size, ofst)
    ensures TasksMapped(threads, RunThreads(e, written, code, PARALLEL_CNT * width, cycles), tasks, width, data, size, ofst, f)
  {
    var done := RunThreads(e, written, code, PARALLEL_CNT * width, cycles);
    forall t: nat | t < tasks
      ensures TaskMapped(threads, done, width, data, size, ofst, f, t, SpotOf(t, |threads|))
    {
      assert Held(threads, SpotOf(t, |threads|), width);
      Inside(t, tasks, size);
      assert TaskWritten(threads, written, tasks, width, data, size, ofst, t, SpotOf(t, |threads|));
      RunMapsOne(e, threads, written, code, width, depth, cycles, f, tasks, data, size, ofst, t);
    }
  }

  lemma {:induction false} ReadMapped(threads: seq<State>, done: seq<State>, n: nat, tasks: nat, width: nat,
          data: seq<Word>, size: nat, ofst: nat, f: RowFunction, size': nat, ofst': nat)
    requires AllHeld(threads, tasks, width) && n <= tasks && ofst + size <= width && ofst' + size' <= width
    requires Times(tasks, size) <= |data| && |done| == |threads|
    requires forall j: nat, r :: |f(j, r)| == |r|
    requires TasksMapped(threads, done, tasks, width, data, size, ofst, f)
    ensures AllHeld(threads, n, width) && AllHeld(done, n, width) && Times(n, size) <= |data|
    ensures ReadTasks(done, n, width, size', ofst') == MappedWords(threads, n, width, data, size, ofst, f, size', ofst')
  {
    if n > 0 {
      Inside(n - 1, tasks, size);
      ReadMapped(threads, done, n - 1, tasks, width, data, size, ofst, f, size', ofst');
      assert TaskMapped(threads, done, width, data, size, ofst, f, n - 1, SpotOf(n - 1, |threads|));
    }
  }

  /** Write, run, read: every task's words are f of its own record, each task once. */
  lemma WriteRunRead(e: Env, threads: seq<State>, code: seq<Instr>, width: nat, depth: nat, cycles: nat, f: RowFunction,
                     n: nat, tasks: nat, data: seq<Word>, size: nat, ofst: nat, size': nat, ofst': nat)
    requires Shaped(threads, depth) && depth > 0 && AllHeld(threads, tasks, width)
    requires Serves(e, code, width, depth, cycles, f)
    requires cycles == DeviceCycles(TaskCycles(tasks, |threads|)) && n <= tasks
    requires ofst + size <= width && Times(tasks, size) <= |data| && ofst' + size' <= width
    requires forall j: nat, r :: |f(j, r)| == |r|
    ensures AllHeld(threads, n, width) && Times(n, size) <= |data|
    ensures var written := WriteTasks(threads, tasks, width, data, size, ofst);
            var done := RunThreads(e, written, code, PARALLEL_CNT * width, cycles);
            && AllHeld(done, n, width)
            && ReadTasks(done, n, width, size', ofst') == MappedWords(threads, n, width, data, size, ofst, f, size', ofst')
  {
    var written := WriteTasks(threads, tasks, width, data, size, ofst);
    RecordsWritten(threads, tasks, width, data, size, ofst);
    RunMaps(e, threads, written, code, width, depth, cycles, f, tasks, data, size, ofst);
    ReadMapped(threads, RunThreads(e, written, code, PARALLEL_CNT * width, cycles), n, tasks, width, data, size, ofst, f,
               size', ofst');
  }
}
