/**
  The host's whole pass over a batch of tasks: write the records, load the program, run the device,
  read the results.
 */
module EndToEnd {
  import opened Words
  import opened Arithmetic
  import opened Isa
  import opened Machine
  import opened LaneSimulation
  import opened DeviceRun
  import opened Reach
  import opened TaskLayout
  import opened Gppcu

  lemma RowResultsKeepLength(e: Env, program: seq<Instr>, width: nat)
    ensures forall j: nat, r :: |RowResults(e, program, width)(j, r)| == |r|
  {
  }

  lemma TasksHeld(threads: seq<State>, tasks: nat, width: nat, depth: nat)
    requires Shaped(threads, depth) && Times(TaskCycles(tasks, |threads|), width) <= depth
    ensures AllHeld(threads, tasks, width)
  {
    forall t: nat | t < tasks
      ensures Held(threads, SpotOf(t, |threads|), width)
    {
      TaskHeld(threads, t, tasks, TaskCycles(tasks, |threads|), width, depth);
    }
  }

  /** The words at one offset of the first `n` records, each record put through the one-task program. */
  function BatchWords(e: Env, program: seq<Instr>, threads: seq<State>, n: nat, width: nat, data: seq<Word>,
          size: nat, ofst: nat,
                      size': nat, ofst': nat): seq<Word>
    requires AllHeld(threads, n, width) && ofst + size <= width && Times(n, size) <= |data| && ofst' + size' <= width
  {
    RowResultsKeepLength(e, program, width);
    MappedWords(threads, n, width, data, size, ofst, RowResults(e, program, width), size', ofst')
  }

  /** Write, load, run, read, on values. */
  lemma BatchRan(e: Env, program: seq<Instr>, threads: seq<State>, code: seq<Instr>, width: nat, depth: nat, n: nat,
                 tasks: nat, data: seq<Word>, size: nat, ofst: nat, size': nat, ofst': nat)
    requires e.window == 0 && 0 < width < 256 && Shaped(threads, depth) && 0 < depth < SIGN_BIT - 128 && n <= tasks
    requires AllHeld(threads, tasks, width) && Fits(tasks, |threads|, width, depth)
    requires TaskProgram(program, width) && code == Emit(program, width)
    requires ofst + size <= width && Times(tasks, size) <= |data| && ofst' + size' <= width
    ensures AllHeld(threads, n, width) && Times(n, size) <= |data|
    ensures var cycles := DeviceCycles(TaskCycles(tasks, |threads|));
            var written := WriteTasks(threads, tasks, width, data, size, ofst);
            var done := RunThreads(e, written, code, PARALLEL_CNT * width, cycles);
            && AllHeld(done, n, width)
            && ReadTasks(done, n, width, size', ofst') == BatchWords(e, program, threads, n, width, data, size, ofst, size', ofst')
  {
    var cycles := DeviceCycles(TaskCycles(tasks, |threads|));
    RowResultsKeepLength(e, program, width);
    EmitServes(e, program, width, depth, cycles);
    WriteRunRead(e, threads, code, width, depth, cycles, RowResults(e, program, width),
                 n, tasks, data, size, ofst, size', ofst');
  }

  /** The same for a read that stops after `n` of the tasks: all of them are held, and those are read. */
  lemma BatchReady(e: Env, program: seq<Instr>, threads: seq<State>, code: seq<Instr>, width: nat, depth: nat, n: nat,
                   tasks: nat, data: seq<Word>, size: nat, ofst: nat, size': nat, ofst': nat)
    requires e.window == 0 && 0 < width < 256 && Shaped(threads, depth) && 0 < depth < SIGN_BIT - 128 && n <= tasks
    requires AllHeld(threads, tasks, width) && Fits(tasks, |threads|, width, depth)
    requires TaskProgram(program, width) && code == Emit(program, width)
    requires ofst + size <= width && Times(tasks, size) <= |data| && ofst' + size' <= width
    ensures AllHeld(threads, n, width) && Times(n, size) <= |data|
    ensures var written := WriteTasks(threads, tasks, width, data, size, ofst);
            var done := RunThreads(e, written, code, PARALLEL_CNT * width, DeviceCycles(TaskCycles(tasks, |threads|)));
            && AllHeld(done, tasks, width) && AllHeld(done, n, width)
            && ReadTasks(done, n, width, size', ofst') == BatchWords(e, program, threads, n, width, data, size, ofst, size', ofst')
  {
    BatchRan(e, program, threads, code, width, depth, n, tasks, data, size, ofst, size', ofst');
    BatchRan(e, program, threads, code, width, depth, tasks, tasks, data, size, ofst, size', ofst');
  }

  /** Everything before the run: the layout, the records and the rewritten program. */
  method Load(host: Host, tasks: nat, width: nat, data: seq<Word>, size: nat, ofst: nat)
    requires host.Valid() && host.mnumthr == |host.device.threads| && AllHeld(host.device.threads, tasks, width)
    requires 0 < width && ofst + size <= width && Times(tasks, size) <= |data|
    requires AllLaneRegisters(DecodeAll(host.Program()))
    modifies host`numTask, host`mtaskcycle, host`mtaskmem, host`taskMaxCycle
    modifies host.device`threads, host.device`pmem, host.device`sizePerCycle, host.device`numCycles
    ensures host.numTask == tasks && host.mtaskmem == width
    ensures host.device.threads == WriteTasks(old(host.device.threads), tasks, width, data, size, ofst)
    ensures host.device.Code() == Emit(DecodeAll(host.Program()), width)
    ensures host.device.sizePerCycle == PARALLEL_CNT * width
    ensures host.device.numCycles == DeviceCycles(TaskCycles(tasks, host.mnumthr))
  {
    host.InitTaskParallel(width, tasks);
    host.Write(data, size, ofst);
    host.ProgramAutofeedDeviceParallel();
  }

  /**
    For any number of records and any well-formed program: what comes back is the one-task program
    mapped over the records, each task once.
   */
  method ProcessTasks(host: Host, fpu: Fpu, tasks: nat, width: nat, data: seq<Word>, size: nat, ofst: nat,
                      dst: array<Word>, capacity: nat, size': nat, ofst': nat, ghost depth: nat) returns (ghost n: nat)
    requires host.Valid() && host.mnumthr == |host.device.threads| && Shaped(host.device.threads, depth)
    requires 0 < width < 256 && 0 < depth < SIGN_BIT - 128 && Fits(tasks, host.mnumthr, width, depth)
    requires TaskProgram(DecodeAll(host.Program()), width)
    requires ofst + size <= width && Times(tasks, size) <= |data|
    requires ofst' + size' <= width && Times(ReadCount(tasks, capacity, size'), size') <= dst.Length
    requires dst != host.marr
    modifies host, host.device, dst
    ensures host.device.consts == old(host.device.consts)
    ensures n == ReadCount(tasks, capacity, size') <= tasks && Times(n, size') <= dst.Length
    ensures AllHeld(old(host.device.threads), n, width) && Times(n, size) <= |data|
    ensures dst[..Times(n, size')]
         == BatchWords(Env(fpu, host.device.consts, 0, 0), DecodeAll(old(host.Program())), old(host.device.threads),
                       n, width, data, size, ofst, size', ofst')
    ensures dst[Times(n, size')..] == old(dst[..])[Times(n, size')..]
  {
    var device := host.device;
    ghost var threads, program := device.threads, DecodeAll(host.Program());
    ghost var e := Env(fpu, device.consts, 0, 0);
    n := ReadCount(tasks, capacity, size');
    TasksHeld(threads, tasks, width, depth);
    Load(host, tasks, width, data, size, ofst);
    device.Run(fpu);
    ReadCountIs(tasks, tasks, capacity, size');
    BatchReady(e, program, threads, device.Code(), width, depth, n, tasks, data, size, ofst, size', ofst');
    host.Read(dst, capacity, size', ofst');
  }
}
