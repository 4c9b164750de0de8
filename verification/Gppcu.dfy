/**
  The host side: the program buffer, the emitter that rewrites it for three lanes, and the transfers
  of task records. Each device transaction is one atomic call on the device.
 */
module Gppcu {
  import opened Words
  import opened Arithmetic
  import opened Buffers
  import opened Isa
  import opened Machine
  import opened LaneSimulation
  import opened DeviceRun
  import opened TaskLayout

  /** Program memory, constant memory, and for each thread its registers and local memory. */
  class Device {
    var pmem: seq<Word>
    var threads: seq<State>
    var consts: seq<Word>
    var sizePerCycle: nat
    var numCycles: nat

    /** The loaded program, by fields. */
    ghost function Code(): seq<Instr>
      reads `pmem
    {
      DecodeAll(pmem)
    }

    constructor (threads: seq<State>, consts: seq<Word>)
      ensures this.threads == threads && this.consts == consts && pmem == []
    {
      this.threads := threads;
      this.consts := consts;
      pmem := [];
      sizePerCycle, numCycles := 0, 0;
    }

    method ResetProgram()
      modifies `pmem
      ensures pmem == [] && Code() == []
    {
      pmem := [];
    }

    method PushInstr(w: Word)
      modifies `pmem
      ensures pmem == old(pmem) + [w] && Code() == old(Code()) + [Decode(w)]
    {
      DecodeAllSnoc(pmem, w);
      pmem := pmem + [w];
    }

    method PushNop()
      modifies `pmem
      ensures pmem == old(pmem) + [0] && Code() == old(Code()) + [NOP]
    {
      PushInstr(0);
    }

    method SetSizePerCycle(n: nat)
      modifies `sizePerCycle
      ensures sizePerCycle == n
    {
      sizePerCycle := n;
    }

    method SetNumCycles(n: nat)
      modifies `numCycles
      ensures numCycles == n
    {
      numCycles := n;
    }

    method DataWrite(thread: nat, address: nat, data: Word)
      requires thread < |threads| && address < |threads[thread].mem|
      modifies `threads
      ensures threads == old(threads)[thread := old(threads)[thread].(mem := old(threads)[thread].mem[address := data])]
    {
      threads := threads[thread := threads[thread].(mem := threads[thread].mem[address := data])];
    }

    method DataRead(thread: nat, address: nat) returns (data: Word)
      requires thread < |threads| && address < |threads[thread].mem|
      ensures data == threads[thread].mem[address]
    {
      data := threads[thread].mem[address];
    }

    method ConstantWrite(address: nat, data: Word)
      requires address < |consts|
      modifies `consts
      ensures consts == old(consts)[address := data]
    {
      consts := consts[address := data];
    }

    /** The queue feeds every thread the program once per cycle. */
    method Run(fpu: Fpu)
      requires forall i :: 0 <= i < |threads| ==> |threads[i].mem| > 0
      modifies `threads
      ensures threads == RunThreads(Env(fpu, consts, 0, 0), old(threads), DecodeAll(pmem), sizePerCycle, numCycles)
    {
      threads := RunThreads(Env(fpu, consts, 0, 0), threads, DecodeAll(pmem), sizePerCycle, numCycles);
    }
  }

  // ---- the host ----

  /** With the first `head` instructions pushed, what is still to come completes the body. */
  ghost predicate HeadPushed(start: seq<Instr>, code: seq<Instr>, program: seq<Instr>, head: nat)
    requires AllLaneRegisters(program) && head <= |program|
  {
    code + EmitBody(program[head..]) == start + EmitBody(program)
  }

  lemma NextPushed(start: seq<Instr>, code: seq<Instr>, program: seq<Instr>, head: nat)
    requires AllLaneRegisters(program) && head < |program| && HeadPushed(start, code, program, head)
    ensures HeadPushed(start, code + EmitInstr(program[head]), program, head + 1)
  {
    var group, rest := EmitInstr(program[head]), EmitBody(program[head + 1..]);
    assert program[head..][1..] == program[head + 1..];
    assert EmitBody(program[head..]) == group + rest;
    assert (code + group) + rest == code + (group + rest);
  }

  /** The copies of an instruction for the first `n` lanes. */
  function Copies(f: Instr, n: nat): seq<Instr>
    requires LaneRegisters(f) && n <= PARALLEL_CNT
  {
    if n == 0 then [] else Copies(f, n - 1) + [LaneInstr(f, n - 1)]
  }

  lemma NextCopy(start: seq<Instr>, f: Instr, n: nat)
    requires LaneRegisters(f) && n < PARALLEL_CNT
    ensures start + Copies(f, n) + [LaneInstr(f, n)] == start + Copies(f, n + 1)
  {
  }

  lemma AllCopies(f: Instr)
    requires LaneRegisters(f)
    ensures Copies(f, PARALLEL_CNT) == [LaneInstr(f, 0), LaneInstr(f, 1), LaneInstr(f, 2)]
  {
    assert Copies(f, 1) == [LaneInstr(f, 0)];
    assert Copies(f, 2) == [LaneInstr(f, 0), LaneInstr(f, 1)];
  }

  lemma {:induction false} SpacedSnoc(program: seq<Instr>, f: Instr)
    ensures Spaced(program + [f]) == Spaced(program) + [NOP, NOP, f]
    decreases |program|
  {
    if program == [] {
      assert program + [f] == [f];
    } else {
      assert (program + [f])[1..] == program[1..] + [f];
      SpacedSnoc(program[1..], f);
    }
  }

  lemma SubSlice(mem: seq<Word>, start: nat, width: nat, ofst: nat, size: nat)
    requires start + width <= |mem| && ofst + size <= width
    ensures mem[start..start + width][ofst..ofst + size] == mem[start + ofst..start + ofst + size]
  {
    var a, b := mem[start..start + width][ofst..ofst + size], mem[start + ofst..start + ofst + size];
    assert forall i :: 0 <= i < size ==> a[i] == b[i];
  }

  lemma RecordPart(threads: seq<State>, p: Spot, width: nat, size: nat, ofst: nat)
    requires Held(threads, p, width) && ofst + size <= width
    ensures Times(p.row, width) + ofst + size <= |threads[p.thread].mem|
    ensures Record(threads, p, width)[ofst..ofst + size]
         == threads[p.thread].mem[Times(p.row, width) + ofst..Times(p.row, width) + ofst + size]
  {
    SubSlice(threads[p.thread].mem, Times(p.row, width), width, ofst, size);
  }

  /** What a read appends for task `t`. */
  lemma NextRead(threads: seq<State>, t: nat, width: nat, size: nat, ofst: nat)
    requires AllHeld(threads, t + 1, width) && ofst + size <= width
    ensures Held(threads, SpotOf(t, |threads|), width)
    ensures var p := SpotOf(t, |threads|);
            var from := Times(p.row, width) + ofst;
            && from + size <= |threads[p.thread].mem|
            && ReadTasks(threads, t + 1, width, size, ofst)
               == ReadTasks(threads, t, width, size, ofst) + threads[p.thread].mem[from..from + size]
  {
    var p := SpotOf(t, |threads|);
    assert Held(threads, p, width);
    RecordPart(threads, p, width, size, ofst);
  }

  lemma Snoc(done: seq<Word>, words: seq<Word>, k: nat)
    requires k < |words|
    ensures (done + words[..k]) + [words[k]] == done + words[..k + 1]
  {
  }

  lemma CopiedOnward(before: seq<Word>, done: seq<Word>, words: seq<Word>, k: nat)
    requires k < |words| && |done| + |words| <= |before|
    ensures Copied(before, 0, done + words[..k])[|done| + k := words[k]] == Copied(before, 0, done + words[..k + 1])
  {
    CopiedSnoc(before, 0, done + words[..k], words[k]);
    Snoc(done, words, k);
  }

  lemma WriteAtNothing(threads: seq<State>, p: Spot, width: nat, ofst: nat)
    requires Held(threads, p, width) && ofst <= width
    ensures WriteAt(threads, p, width, [], ofst) == threads
  {
  }

  lemma WriteAtMore(threads: seq<State>, p: Spot, width: nat, words: seq<Word>, ofst: nat, w: Word)
    requires Held(threads, p, width) && ofst + |words| < width
    ensures var before := WriteAt(threads, p, width, words, ofst);
            WriteAt(threads, p, width, words + [w], ofst)
            == before[p.thread := before[p.thread].(mem := before[p.thread].mem[Times(p.row, width) + ofst + |words| := w])]
  {
    CopiedSnoc(threads[p.thread].mem, Times(p.row, width) + ofst, words, w);
  }

  class Host {
    const device: Device
    var marr: array<Word>
    var mnum: nat
    var mnumthr: nat
    var mtaskcycle: nat
    var mtaskmem: nat
    var taskMaxCycle: nat
    var numTask: nat
    var maxWordPerThread: nat

    ghost predicate Valid()
      reads this
    {
      mnum <= marr.Length
    }

    ghost function Program(): seq<Word>
      reads this, marr
      requires Valid()
    {
      marr[..mnum]
    }

    constructor (device: Device, numThreads: nat, capacity: nat, maxWordPerThread: nat)
      ensures Valid() && fresh(marr) && marr.Length == capacity && Program() == []
      ensures this.device == device && mnumthr == numThreads && this.maxWordPerThread == maxWordPerThread
      ensures mtaskcycle == mtaskmem == numTask == 0
    {
      this.device := device;
      marr := new Word[capacity];
      mnum, mnumthr := 0, numThreads;
      mtaskcycle, mtaskmem, taskMaxCycle, numTask := 0, 0, 0, 0;
      this.maxWordPerThread := maxWordPerThread;
    }

    method ClearInstr()
      modifies `mnum
      ensures Valid() && Program() == []
    {
      mnum := 0;
    }

    method PutInstr(instr: Word)
      requires Valid() && mnum < marr.Length
      modifies `mnum, marr
      ensures Valid() && Program() == old(Program()) + [instr] && mnum == old(mnum) + 1
    {
      marr[mnum] := instr;
      mnum := mnum + 1;
    }

    method InitTaskParallel(wordsPerTask: nat, numTasks: nat)
      requires wordsPerTask > 0 && mnumthr > 0
      modifies `numTask, `mtaskcycle, `mtaskmem, `taskMaxCycle, device`sizePerCycle, device`numCycles
      ensures numTask == numTasks && mtaskmem == wordsPerTask && taskMaxCycle == maxWordPerThread / wordsPerTask
      ensures mtaskcycle == TaskCycles(numTasks, mnumthr)
      ensures device.sizePerCycle == PARALLEL_CNT * wordsPerTask
      ensures device.numCycles == DeviceCycles(TaskCycles(numTasks, mnumthr))
    {
      numTask := numTasks;
      mtaskcycle := (numTasks + mnumthr - 1) / mnumthr;
      mtaskmem := wordsPerTask;
      taskMaxCycle := maxWordPerThread / wordsPerTask;
      device.SetSizePerCycle(mtaskmem * PARALLEL_CNT);
      device.SetNumCycles((mtaskcycle + PARALLEL_CNT - 1) / PARALLEL_CNT);
    }

    /** Rewrites the buffered program for three lanes and loads it into the device. */
    method ProgramAutofeedDeviceParallel()
      requires Valid()
      modifies device`pmem, device`sizePerCycle, device`numCycles
      ensures device.sizePerCycle == PARALLEL_CNT * mtaskmem && device.numCycles == DeviceCycles(mtaskcycle)
      ensures AllLaneRegisters(DecodeAll(Program())) ==> device.Code() == Emit(DecodeAll(Program()), mtaskmem)
    {
      device.ResetProgram();
      device.SetSizePerCycle(mtaskmem * PARALLEL_CNT);
      device.SetNumCycles((mtaskcycle + PARALLEL_CNT - 1) / PARALLEL_CNT);
      PushPrologue();
      PushBody();
    }

    method PushPrologue()
      modifies device`pmem
      ensures device.Code() == old(device.Code()) + Prologue(mtaskmem)
    {
      ghost var start, pushed := device.Code(), [LOAD_BASE];
      SpacedSnoc([], LOAD_BASE);
      assert [] + [LOAD_BASE] == [LOAD_BASE];
      PushSpaced(FormatC(OPR_LDCI, REGPIVOT, 0));
      for pcnt := 0 to PARALLEL_CNT
        invariant pushed == [LOAD_BASE] + PivotInstrs(mtaskmem, pcnt)
        invariant device.Code() == start + Spaced(pushed)
      {
        TimesIsProduct(pcnt + 1, mtaskmem);
        var f := FormatB(OPR_ADI, REGPIVOT + REG_PER_THREAD * (pcnt + 1), REGPIVOT, mtaskmem * (pcnt + 1));
        assert f == PivotInstr(mtaskmem, pcnt);
        SpacedSnoc(pushed, f);
        pushed := pushed + [f];
        PushSpaced(f);
      }
      device.PushNop();
      device.PushNop();
    }

    method PushSpaced(f: Instr)
      modifies device`pmem
      ensures device.Code() == old(device.Code()) + [NOP, NOP, f]
    {
      device.PushNop();
      device.PushNop();
      device.PushInstr(Encode(f));
      DecodeEncode(f);
    }

    method PushBody()
      requires Valid()
      modifies device`pmem
      ensures AllLaneRegisters(DecodeAll(Program())) ==> device.Code() == old(device.Code()) + EmitBody(DecodeAll(Program()))
    {
      ghost var start, program := device.Code(), DecodeAll(Program());
      var head := 0;
      while head < mnum
        invariant head <= mnum
        invariant AllLaneRegisters(program) ==> HeadPushed(start, device.Code(), program, head)
      {
        DecodeAllPick(Program(), head);
        ghost var before := device.Code();
        PushGroup(marr[head], program[head]);
        if AllLaneRegisters(program) {
          NextPushed(start, before, program, head);
        }
        head := head + 1;
      }
    }

    method PushGroup(instr: Word, ghost f: Instr)
      requires f == Decode(instr)
      modifies device`pmem
      ensures LaneRegisters(f) ==> device.Code() == old(device.Code()) + EmitInstr(f)
    {
      ghost var start := device.Code();
      ghost var ok := LaneRegisters(f);
      var opc := instr / 0x80_0000 % 32;
      if opc == OPR_NOP {
        device.PushNop();
        return;
      }
      for pcnt := 0 to PARALLEL_CNT
        invariant ok ==> device.Code() == start + Copies(f, pcnt)
      {
        var toadd := pcnt * REG_PER_THREAD;
        var pinstr: Word := instr;
        if UsesRegA(opc) {
          pinstr := (pinstr + toadd * 0x1000) % WORD_MOD;
        }
        if UsesRegB(opc) {
          pinstr := (pinstr + toadd) % WORD_MOD;
        }
        if UsesRegD(opc) {
          pinstr := (pinstr + toadd * 0x2_0000) % WORD_MOD;
        }
        assert pinstr == LaneWord(instr, pcnt);
        if ok {
          LaneWordDecodes(instr, pcnt);
          NextCopy(start, f, pcnt);
        }
        device.PushInstr(pinstr);
      }
      if ok {
        AllCopies(f);
      }
      device.PushNop();
      if OPR_ITOF <= opc <= OPR_FSQRT {
        device.PushNop();
      }
    }

    /** Copies `size` words of every task to offset `ofst` of its record. */
    method Write(data: seq<Word>, size: nat, ofst: nat)
      requires mnumthr == |device.threads| && AllHeld(device.threads, numTask, mtaskmem)
      requires ofst + size <= mtaskmem && Times(numTask, size) <= |data|
      modifies device`threads
      ensures device.threads == WriteTasks(old(device.threads), numTask, mtaskmem, data, size, ofst)
    {
      ghost var start := device.threads;
      var idxCycle, cycleBasedOffset, idxThread, head := 0, 0, 0, 0;
      for idxTask := 0 to numTask
        invariant Spot(idxThread, idxCycle) == SpotOf(idxTask, mnumthr)
        invariant cycleBasedOffset == Times(idxCycle, mtaskmem) && head == Times(idxTask, size) <= |data|
        invariant device.threads == WriteTasks(start, idxTask, mtaskmem, data, size, ofst)
      {
        Inside(idxTask, numTask, size);
        ghost var p := SpotOf(idxTask, mnumthr);
        assert Held(start, p, mtaskmem);
        WriteElement(data, head, idxThread, cycleBasedOffset, size, ofst, p);
        head := head + size;
        idxThread := idxThread + 1;
        if idxThread == mnumthr {
          idxThread := 0;
          idxCycle := idxCycle + 1;
          cycleBasedOffset := cycleBasedOffset + mtaskmem;
        }
      }
    }

    /** The inner loop of a write. */
    method WriteElement(data: seq<Word>, head: nat, idxThread: nat, cycleBasedOffset: nat, size: nat, ofst: nat,
                        ghost p: Spot)
      requires Held(device.threads, p, mtaskmem) && ofst + size <= mtaskmem && head + size <= |data|
      requires p.thread == idxThread && cycleBasedOffset == Times(p.row, mtaskmem)
      modifies device`threads
      ensures device.threads == WriteAt(old(device.threads), p, mtaskmem, data[head..head + size], ofst)
    {
      ghost var before, words := device.threads, data[head..head + size];
      WriteAtNothing(before, p, mtaskmem, ofst);
      for elem := 0 to size
        invariant device.threads == WriteAt(before, p, mtaskmem, words[..elem], ofst)
      {
        WriteAtMore(before, p, mtaskmem, words[..elem], ofst, words[elem]);
        assert words[..elem] + [words[elem]] == words[..elem + 1];
        device.DataWrite(idxThread, cycleBasedOffset + ofst + elem, data[head + elem]);
      }
      assert words[..size] == words;
    }

    /** Copies `size` words at offset `ofst` of each record out, as long as the next element ends before the capacity. */
    method Read(dst: array<Word>, capacity: nat, size: nat, ofst: nat)
      requires mnumthr == |device.threads| && AllHeld(device.threads, numTask, mtaskmem)
      requires ofst + size <= mtaskmem && Times(ReadCount(numTask, capacity, size), size) <= dst.Length
      modifies dst
      ensures var n := ReadCount(numTask, capacity, size);
              && n <= numTask
              && dst[..Times(n, size)] == ReadTasks(device.threads, n, mtaskmem, size, ofst)
              && dst[Times(n, size)..] == old(dst[Times(n, size)..])
    {
      ghost var count, start := ReadCount(numTask, capacity, size), dst[..];
      var idxCycle, cycleBasedOffset, idxTask, idxThread, head := 0, 0, 0, 0, 0;
      while idxTask < numTask
        invariant idxTask <= count <= numTask
        invariant Spot(idxThread, idxCycle) == SpotOf(idxTask, mnumthr)
        invariant cycleBasedOffset == Times(idxCycle, mtaskmem) && head == Times(idxTask, size) <= Times(count, size)
        invariant dst[..] == Copied(start, 0, ReadTasks(device.threads, idxTask, mtaskmem, size, ofst))
      {
        ReadCountIs(idxTask, numTask, capacity, size);
        if head + size >= capacity {
          break;
        }
        Inside(idxTask, count, size);
        ReadTask(dst, head, idxTask, idxThread, cycleBasedOffset, size, ofst, start, idxCycle);
        head := head + size;
        idxTask := idxTask + 1;
        idxThread := idxThread + 1;
        if idxThread == mnumthr {
          idxThread := 0;
          idxCycle := idxCycle + 1;
          cycleBasedOffset := cycleBasedOffset + mtaskmem;
        }
      }
      ReadCountIs(idxTask, numTask, capacity, size);
      CopiedSlice(start, 0, ReadTasks(device.threads, count, mtaskmem, size, ofst));
    }

    method ReadTask(dst: array<Word>, head: nat, ghost t: nat, idxThread: nat, cycleBasedOffset: nat, size: nat,
            ofst: nat,
                    ghost start: seq<Word>, ghost idxCycle: nat)
      requires mnumthr == |device.threads| && AllHeld(device.threads, t + 1, mtaskmem) && ofst + size <= mtaskmem
      requires Spot(idxThread, idxCycle) == SpotOf(t, mnumthr) && cycleBasedOffset == Times(idxCycle, mtaskmem)
      requires head == Times(t, size) && head + size <= dst.Length == |start|
      requires dst[..] == Copied(start, 0, ReadTasks(device.threads, t, mtaskmem, size, ofst))
      modifies dst
      ensures Times(t + 1, size) <= |start|
      ensures dst[..] == Copied(start, 0, ReadTasks(device.threads, t + 1, mtaskmem, size, ofst))
    {
      ghost var done := ReadTasks(device.threads, t, mtaskmem, size, ofst);
      var from := cycleBasedOffset + ofst;
      NextRead(device.threads, t, mtaskmem, size, ofst);
      assert ReadTasks(device.threads, t + 1, mtaskmem, size, ofst)
          == done + device.threads[idxThread].mem[from..from + size];
      ReadElement(dst, head, idxThread, from, size, start, done);
    }

    /** The inner loop of a read. */
    method ReadElement(dst: array<Word>, head: nat, thread: nat, address: nat, size: nat, ghost start: seq<Word>,
            ghost done: seq<Word>)
      requires thread < |device.threads| && address + size <= |device.threads[thread].mem|
      requires |done| == head && head + size <= dst.Length == |start| && dst[..] == Copied(start, 0, done)
      modifies dst
      ensures dst[..] == Copied(start, 0, done + device.threads[thread].mem[address..address + size])
    {
      ghost var words := device.threads[thread].mem[address..address + size];
      assert done + words[..0] == done;
      for elem := 0 to size
        invariant dst[..] == Copied(start, 0, done + words[..elem])
      {
        CopiedOnward(start, done, words, elem);
        dst[head + elem] := device.DataRead(thread, address + elem);
      }
      assert words[..size] == words;
    }

    method WriteConst(data: seq<Word>, ofst: nat, size: nat)
      requires size <= |data| && ofst + size <= |device.consts|
      modifies device`consts
      ensures device.consts == Copied(old(device.consts), ofst, data[..size])
    {
      ghost var start := device.consts;
      var head := 0;
      while head != size
        invariant head <= size
        invariant device.consts == Copied(start, ofst, data[..head])
      {
        CopiedMore(start, ofst, data[..size], head);
        assert data[..size][..head] == data[..head] && data[..size][..head + 1] == data[..head + 1];
        device.ConstantWrite(ofst + head, data[head]);
        head := head + 1;
      }
    }
  }
}
