/**
  Why the emitter pushes bubbles: on a pipeline whose register results arrive late and that never
  stalls, the emitted program still computes, pass after pass, what it computes one instruction at a time.
 */
module Pipeline {
  import opened Words
  import opened Arithmetic
  import opened Isa
  import opened Machine
  import opened LaneSimulation
  import opened DeviceRun

  // ---- how far apart dependent instructions are ----

  /** By the emitter's tables, `g` reads the register that `f` writes. */
  predicate DependsOn(f: Instr, g: Instr) {
    UsesRegD(f.opr) && ((UsesRegA(g.opr) && g.ra == f.rd) || (UsesRegB(g.opr) && g.rb == f.rd))
  }

  /** `g` reads or overwrites the register that `f` writes. */
  predicate Conflicts(f: Instr, g: Instr) {
    DependsOn(f, g) || (UsesRegD(f.opr) && UsesRegD(g.opr) && f.rd == g.rd)
  }

  predicate InLane(r: nat, lane: nat) {
    lane * REG_PER_THREAD <= r < lane * REG_PER_THREAD + REG_PER_THREAD
  }

  predicate UsesLane(g: Instr, lane: nat) {
    || (UsesRegA(g.opr) && InLane(g.ra, lane))
    || (UsesRegB(g.opr) && InLane(g.rb, lane))
    || (UsesRegD(g.opr) && InLane(g.rd, lane))
  }

  lemma GroupUses(f: Instr, m: nat, lane: nat)
    requires LaneRegisters(f) && m < |EmitInstr(f)| && lane < PARALLEL_CNT && UsesLane(EmitInstr(f)[m], lane)
    ensures m == lane && |EmitInstr(f)| >= 4
  {
  }

  /** The copy for lane p is never among the first p slots of what follows. */
  lemma {:induction false} LaneOffset(program: seq<Instr>, m: nat, lane: nat)
    requires AllLaneRegisters(program) && m < |EmitBody(program)| && lane < PARALLEL_CNT
    requires UsesLane(EmitBody(program)[m], lane)
    ensures m >= lane
    decreases |program|
  {
    var n := |EmitInstr(program[0])|;
    if m < n {
      GroupUses(program[0], m, lane);
    } else {
      LaneOffset(program[1..], m - n, lane);
    }
  }

  lemma GroupWriter(f: Instr, i: nat, g: Instr)
    requires LaneRegisters(f) && i < |EmitInstr(f)| && Conflicts(EmitInstr(f)[i], g)
    ensures i < PARALLEL_CNT && UsesLane(g, i)
    ensures EmitInstr(f)[i].opr == f.opr && |EmitInstr(f)| == if IsFloat(f.opr) then 5 else 4
  {
  }

  lemma GroupIndependent(f: Instr, i: nat, j: nat)
    requires LaneRegisters(f) && i < j < |EmitInstr(f)|
    ensures !Conflicts(EmitInstr(f)[i], EmitInstr(f)[j])
  {
    if Conflicts(EmitInstr(f)[i], EmitInstr(f)[j]) {
      GroupWriter(f, i, EmitInstr(f)[j]);
      GroupUses(f, j, i);
    }
  }

  /** In the body a conflicting instruction comes at least four slots later, five after floating point. */
  lemma {:induction false} BodyDistance(program: seq<Instr>, i: nat, j: nat)
    requires AllLaneRegisters(program) && i < j < |EmitBody(program)|
    requires Conflicts(EmitBody(program)[i], EmitBody(program)[j])
    ensures j - i >= if IsFloat(EmitBody(program)[i].opr) then 5 else 4
    decreases |program|
  {
    var f, rest := program[0], EmitBody(program[1..]);
    var n := |EmitInstr(f)|;
    if j < n {
      GroupIndependent(f, i, j);
    } else if i < n {
      GroupWriter(f, i, rest[j - n]);
      LaneOffset(program[1..], j - n, i);
    } else {
      BodyDistance(program[1..], i - n, j - n);
    }
  }

  /** At least one bubble follows the last writer of the body, two after floating point. */
  lemma {:induction false} BodyEnd(program: seq<Instr>, i: nat)
    requires AllLaneRegisters(program) && i < |EmitBody(program)| && UsesRegD(EmitBody(program)[i].opr)
    ensures |EmitBody(program)| - i >= if IsFloat(EmitBody(program)[i].opr) then 3 else 2
    decreases |program|
  {
    var f, rest := program[0], EmitBody(program[1..]);
    var n := |EmitInstr(f)|;
    if i < n {
      assert EmitBody(program)[i] == EmitInstr(f)[i];
    } else {
      assert EmitBody(program)[i] == rest[i - n];
      BodyEnd(program[1..], i - n);
    }
  }

  lemma {:induction false} SpacedShape(program: seq<Instr>, i: nat)
    ensures |Spaced(program)| == 3 * |program|
    ensures i < |Spaced(program)| && i % 3 != 2 ==> Spaced(program)[i] == NOP
    decreases |program|
  {
    if program != [] {
      var rest := Spaced(program[1..]);
      assert Spaced(program) == [NOP, NOP, program[0]] + rest;
      SpacedShape(program[1..], if i < 3 then 0 else i - 3);
      assert 3 <= i < |Spaced(program)| ==> Spaced(program)[i] == rest[i - 3];
    }
  }

  const PROLOGUE_LENGTH := 14

  lemma PrologueShape(width: nat, i: nat)
    ensures |Prologue(width)| == PROLOGUE_LENGTH
    ensures i < PROLOGUE_LENGTH && (i % 3 != 2 || i >= 12) ==> Prologue(width)[i] == NOP
  {
    ThreePivots(width);
    SpacedShape([LOAD_BASE] + PivotInstrs(width, PARALLEL_CNT), i);
  }

  lemma SlotOf(program: seq<Instr>, width: nat, i: nat)
    requires AllLaneRegisters(program) && i < |Emit(program, width)|
    ensures |Prologue(width)| == PROLOGUE_LENGTH
    ensures i < PROLOGUE_LENGTH && (i % 3 != 2 || i >= 12) ==> Emit(program, width)[i] == NOP
    ensures PROLOGUE_LENGTH <= i ==>
              && i - PROLOGUE_LENGTH < |EmitBody(program)|
              && Emit(program, width)[i] == EmitBody(program)[i - PROLOGUE_LENGTH]
  {
    PrologueShape(width, i);
  }

  /** For how many slots a result may be late: three in the prologue, four in the body, five from floating point. */
  function Bound(code: seq<Instr>, i: nat): nat
    requires i < |code|
  {
    if i < PROLOGUE_LENGTH then 3 else if IsFloat(code[i].opr) then 5 else 4
  }

  /** Over the whole emitted program conflicting instructions are that far apart. */
  lemma HazardDistance(program: seq<Instr>, width: nat, i: nat, j: nat)
    requires AllLaneRegisters(program) && i < j < |Emit(program, width)|
    requires Conflicts(Emit(program, width)[i], Emit(program, width)[j])
    ensures j - i >= Bound(Emit(program, width), i)
  {
    SlotOf(program, width, i);
    SlotOf(program, width, j);
    if PROLOGUE_LENGTH <= i {
      BodyDistance(program, i - PROLOGUE_LENGTH, j - PROLOGUE_LENGTH);
    }
  }

  /** With the two bubbles that begin the next pass, so is every writer from what that pass does. */
  lemma EndDistance(program: seq<Instr>, width: nat, i: nat)
    requires AllLaneRegisters(program) && i < |Emit(program, width)| && UsesRegD(Emit(program, width)[i].opr)
    ensures |Emit(program, width)| - i + 2 >= Bound(Emit(program, width), i)
  {
    SlotOf(program, width, i);
    if PROLOGUE_LENGTH <= i {
      BodyEnd(program, i - PROLOGUE_LENGTH);
    }
  }

  // ---- the pipeline ----

  /** One issue slot: the constants of its pass, its instruction, and how many slots later the result is there. */
  datatype Slot = Slot(env: Env, instr: Instr, latency: nat)

  /** A register result on its way, and the first slot that sees it. */
  datatype Flight = Flight(rd: nat, value: Word, issued: nat, due: nat)

  /** A thread before slot `now`, with the results still on their way in the order they were issued. */
  datatype Piped = Piped(s: State, inFlight: seq<Flight>, now: nat)

  /** The registers after the results due by `now` have landed; a late one overwrites what landed before it. */
  function LandDue(regs: seq<Word>, flights: seq<Flight>, now: nat): (t: seq<Word>)
    ensures |t| == |regs|
    decreases |flights|
  {
    if flights == [] then regs
    else LandDue(if flights[0].due <= now then SetReg(regs, flights[0].rd, flights[0].value) else regs, flights[1..], now)
  }

  function StillFlying(flights: seq<Flight>, now: nat): seq<Flight>
    decreases |flights|
  {
    if flights == [] then []
    else (if flights[0].due <= now then [] else [flights[0]]) + StillFlying(flights[1..], now)
  }

  function LandAll(regs: seq<Word>, flights: seq<Flight>): (t: seq<Word>)
    ensures |t| == |regs|
    decreases |flights|
  {
    if flights == [] then regs else LandAll(SetReg(regs, flights[0].rd, flights[0].value), flights[1..])
  }

  /** What slot `k` puts on its way, from the operands that it sees. */
  function Issued(e: Env, s: State, f: Instr, k: nat, latency: nat): seq<Flight>
    requires |s.mem| > 0
  {
    if CondHolds(f.cond, s.flags) && WritesRegD(f.opr)
    then [Flight(f.rd, Result(e, s, f.opr, OperandA(s, f), OperandB(e, s, f)), k, k + latency)]
    else []
  }

  /** What is due lands, the instruction takes its operands as they are then, and nothing waits for anything. */
  function PipeStep(d: Piped, slot: Slot): (d': Piped)
    requires |d.s.mem| > 0
    ensures |d'.s.mem| == |d.s.mem| && |d'.s.regs| == |d.s.regs|
  {
    var s := d.s.(regs := LandDue(d.s.regs, d.inFlight, d.now));
    Piped(Exec(slot.env, s, slot.instr).(regs := s.regs),
          StillFlying(d.inFlight, d.now) + Issued(slot.env, s, slot.instr, d.now, slot.latency), d.now + 1)
  }

  function PipeRun(d: Piped, slots: seq<Slot>): (d': Piped)
    requires |d.s.mem| > 0
    ensures |d'.s.mem| == |d.s.mem| && |d'.s.regs| == |d.s.regs|
    decreases |slots|
  {
    if slots == [] then d else PipeRun(PipeStep(d, slots[0]), slots[1..])
  }

  /** The thread once everything has landed. */
  function Drained(d: Piped): State {
    d.s.(regs := LandAll(d.s.regs, d.inFlight))
  }

  /** The same slots one after the other. */
  function RunSlots(s: State, slots: seq<Slot>): (t: State)
    requires |s.mem| > 0
    ensures |t.regs| == |s.regs| && |t.mem| == |s.mem|
    decreases |slots|
  {
    if slots == [] then s else RunSlots(Exec(slots[0].env, s, slots[0].instr), slots[1..])
  }

  // ---- landing ----

  /** No two results on their way are for the same register. */
  predicate Distinct(flights: seq<Flight>)
    decreases |flights|
  {
    flights == [] || ((forall f :: f in flights[1..] ==> f.rd != flights[0].rd) && Distinct(flights[1..]))
  }

  lemma {:induction false} LandSnoc(regs: seq<Word>, flights: seq<Flight>, f: Flight)
    ensures LandAll(regs, flights + [f]) == SetReg(LandAll(regs, flights), f.rd, f.value)
    decreases |flights|
  {
    if flights == [] {
      assert flights + [f] == [f];
    } else {
      assert (flights + [f])[1..] == flights[1..] + [f];
      LandSnoc(SetReg(regs, flights[0].rd, flights[0].value), flights[1..], f);
    }
  }

  lemma {:induction false} LandElsewhere(regs: seq<Word>, flights: seq<Flight>, i: nat)
    requires forall f :: f in flights ==> f.rd != i
    ensures Reg(LandAll(regs, flights), i) == Reg(regs, i)
    decreases |flights|
  {
    if flights != [] {
      LandElsewhere(SetReg(regs, flights[0].rd, flights[0].value), flights[1..], i);
    }
  }

  lemma SetRegsCommute(regs: seq<Word>, i: nat, v: Word, j: nat, w: Word)
    requires i != j
    ensures SetReg(SetReg(regs, i, v), j, w) == SetReg(SetReg(regs, j, w), i, v)
  {
  }

  lemma {:induction false} LandDueLater(regs: seq<Word>, flights: seq<Flight>, now: nat, i: nat, v: Word)
    requires forall f :: f in flights ==> f.rd != i
    ensures LandDue(SetReg(regs, i, v), flights, now) == SetReg(LandDue(regs, flights, now), i, v)
    decreases |flights|
  {
    if flights != [] {
      var f := flights[0];
      SetRegsCommute(regs, i, v, f.rd, f.value);
      LandDueLater(if f.due <= now then SetReg(regs, f.rd, f.value) else regs, flights[1..], now, i, v);
    }
  }

  /** Landing what is due first makes no difference to where everything ends up. */
  lemma {:induction false} LandInParts(regs: seq<Word>, flights: seq<Flight>, now: nat)
    requires Distinct(flights)
    ensures LandAll(LandDue(regs, flights, now), StillFlying(flights, now)) == LandAll(regs, flights)
    decreases |flights|
  {
    if flights != [] {
      var f, rest := flights[0], flights[1..];
      LandInParts(SetReg(regs, f.rd, f.value), rest, now);
      if f.due > now {
        LandDueLater(regs, rest, now, f.rd, f.value);
        assert ([f] + StillFlying(rest, now))[1..] == StillFlying(rest, now);
      } else {
        assert [] + StillFlying(rest, now) == StillFlying(rest, now);
      }
    }
  }

  lemma {:induction false} FlyingOnes(flights: seq<Flight>, now: nat)
    ensures forall f :: f in StillFlying(flights, now) ==> f in flights && f.due > now
    ensures Distinct(flights) ==> Distinct(StillFlying(flights, now))
    decreases |flights|
  {
    if flights != [] {
      var rest := StillFlying(flights[1..], now);
      FlyingOnes(flights[1..], now);
      assert ([flights[0]] + rest)[1..] == rest;
      assert [] + rest == rest;
    }
  }

  lemma {:induction false} DistinctSnoc(flights: seq<Flight>, f: Flight)
    requires Distinct(flights) && forall g :: g in flights ==> g.rd != f.rd
    ensures Distinct(flights + [f])
    decreases |flights|
  {
    if flights == [] {
      assert flights + [f] == [f];
    } else {
      assert (flights + [f])[1..] == flights[1..] + [f];
      DistinctSnoc(flights[1..], f);
    }
  }

  // ---- the refinement ----

  /** Every conflicting slot comes when the result has landed. */
  ghost predicate Safe(slots: seq<Slot>) {
    forall i, j :: 0 <= i < j < |slots| && Conflicts(slots[i].instr, slots[j].instr) ==> j - i >= slots[i].latency
  }

  /** The flight is the result of the slot that issued it. */
  predicate OwnFlight(f: Flight, slots: seq<Slot>, k: nat) {
    && f.issued < k <= |slots| && f.due == f.issued + slots[f.issued].latency
    && UsesRegD(slots[f.issued].instr.opr) && slots[f.issued].instr.rd == f.rd
  }

  /** Before slot k, with everything landed the pipeline stands where the machine does. */
  ghost predicate Tracks(d: Piped, s: State, slots: seq<Slot>, k: nat) {
    && d.now == k && Drained(d) == s && |s.mem| > 0 && Distinct(d.inFlight)
    && forall f :: f in d.inFlight ==> OwnFlight(f, slots, k)
  }

  /** What is still flying at slot k is for no register that slot k reads or writes. */
  lemma NoConflict(flights: seq<Flight>, slots: seq<Slot>, k: nat)
    requires Safe(slots) && k < |slots| && forall f :: f in flights ==> OwnFlight(f, slots, k)
    ensures forall f :: f in StillFlying(flights, k) ==>
              && OwnFlight(f, slots, k + 1)
              && (UsesRegA(slots[k].instr.opr) ==> f.rd != slots[k].instr.ra)
              && (UsesRegB(slots[k].instr.opr) ==> f.rd != slots[k].instr.rb)
              && (UsesRegD(slots[k].instr.opr) ==> f.rd != slots[k].instr.rd)
  {
    FlyingOnes(flights, k);
    forall f | f in StillFlying(flights, k)
      ensures !Conflicts(slots[f.issued].instr, slots[k].instr)
    {
      assert OwnFlight(f, slots, k);
    }
  }

  lemma OperandsLanded(e: Env, t: State, s: State, flights: seq<Flight>, g: Instr)
    requires s == t.(regs := LandAll(t.regs, flights))
    requires forall f :: f in flights ==> (UsesRegA(g.opr) ==> f.rd != g.ra) && (UsesRegB(g.opr) ==> f.rd != g.rb)
    ensures OperandA(t, g) == OperandA(s, g) && OperandB(e, t, g) == OperandB(e, s, g)
  {
    if UsesRegA(g.opr) {
      LandElsewhere(t.regs, flights, g.ra);
    }
    if UsesRegB(g.opr) {
      LandElsewhere(t.regs, flights, g.rb);
    }
  }

  lemma ExecByOperands(e: Env, s: State, t: State, f: Instr, k: nat, latency: nat)
    requires |s.mem| > 0 && s.mem == t.mem && s.flags == t.flags && |s.regs| == |t.regs|
    requires OperandA(s, f) == OperandA(t, f) && OperandB(e, s, f) == OperandB(e, t, f)
    ensures Issued(e, s, f, k, latency) == Issued(e, t, f, k, latency)
    ensures Exec(e, s, f).mem == Exec(e, t, f).mem && Exec(e, s, f).flags == Exec(e, t, f).flags
    ensures Exec(e, t, f).regs == LandAll(t.regs, Issued(e, t, f, k, latency))
  {
    var a, b := OperandA(s, f), OperandB(e, s, f);
    assert Result(e, s, f.opr, a, b) == Result(e, t, f.opr, a, b);
  }

  lemma LandIssued(e: Env, t: State, s: State, flights: seq<Flight>, f: Instr, k: nat, latency: nat)
    requires s == t.(regs := LandAll(t.regs, flights)) && |s.mem| > 0
    requires OperandA(t, f) == OperandA(s, f) && OperandB(e, t, f) == OperandB(e, s, f)
    ensures Exec(e, s, f)
         == Exec(e, t, f).(regs := LandAll(t.regs, flights + Issued(e, t, f, k, latency)))
  {
    ExecByOperands(e, t, s, f, k, latency);
    var own := Issued(e, t, f, k, latency);
    if own == [] {
      assert flights + own == flights;
    } else {
      LandSnoc(t.regs, flights, own[0]);
    }
  }

  lemma TrackStep(d: Piped, s: State, slots: seq<Slot>, k: nat)
    requires Tracks(d, s, slots, k) && k < |slots| && Safe(slots)
    ensures Tracks(PipeStep(d, slots[k]), Exec(slots[k].env, s, slots[k].instr), slots, k + 1)
  {
    var e, g, latency := slots[k].env, slots[k].instr, slots[k].latency;
    var t, flying := d.s.(regs := LandDue(d.s.regs, d.inFlight, k)), StillFlying(d.inFlight, k);
    LandInParts(d.s.regs, d.inFlight, k);
    FlyingOnes(d.inFlight, k);
    NoConflict(d.inFlight, slots, k);
    OperandsLanded(e, t, s, flying, g);
    LandIssued(e, t, s, flying, g, k, latency);
    OneMoreFlight(e, t, flying, slots, k);
  }

  lemma OneMoreFlight(e: Env, t: State, flying: seq<Flight>, slots: seq<Slot>, k: nat)
    requires |t.mem| > 0 && k < |slots| && Distinct(flying)
    requires forall f :: f in flying ==> OwnFlight(f, slots, k + 1)
    requires forall f :: f in flying && UsesRegD(slots[k].instr.opr) ==> f.rd != slots[k].instr.rd
    ensures var all := flying + Issued(e, t, slots[k].instr, k, slots[k].latency);
            Distinct(all) && forall f :: f in all ==> OwnFlight(f, slots, k + 1)
  {
    var own := Issued(e, t, slots[k].instr, k, slots[k].latency);
    if own == [] {
      assert flying + own == flying;
    } else {
      DistinctSnoc(flying, own[0]);
    }
  }

  lemma {:induction false} PipelineFrom(d: Piped, s: State, slots: seq<Slot>, k: nat)
    requires Tracks(d, s, slots, k) && k <= |slots| && Safe(slots)
    ensures Drained(PipeRun(d, slots[k..])) == RunSlots(s, slots[k..])
    decreases |slots| - k
  {
    if k < |slots| {
      assert slots[k..][1..] == slots[k + 1..];
      TrackStep(d, s, slots, k);
      PipelineFrom(PipeStep(d, slots[k]), Exec(slots[k].env, s, slots[k].instr), slots, k + 1);
    }
  }

  /** Slots without close conflicts run on the pipeline as they run one after the other. */
  lemma PipelineRefines(s: State, slots: seq<Slot>)
    requires |s.mem| > 0 && Safe(slots)
    ensures Drained(PipeRun(Piped(s, [], 0), slots)) == RunSlots(s, slots)
  {
    assert slots[0..] == slots;
    PipelineFrom(Piped(s, [], 0), s, slots, 0);
  }

  // ---- pass after pass ----

  /** One pass of the code; each result may be as late as the code allows at its slot, or come sooner. */
  ghost predicate FeedsPass(slots: seq<Slot>, e: Env, code: seq<Instr>) {
    && |slots| == |code|
    && forall i :: 0 <= i < |code| ==>
         slots[i].env == e && slots[i].instr == code[i] && slots[i].latency <= Bound(code, i)
  }

  /** The queue restarts the code `n` times, without a gap. */
  ghost predicate FeedsPasses(slots: seq<Slot>, e: Env, code: seq<Instr>, size: nat, n: nat)
    decreases n
  {
    if n == 0 then slots == []
    else
      && |slots| >= |code|
      && FeedsPasses(slots[..|slots| - |code|], e, code, size, n - 1)
      && FeedsPass(slots[|slots| - |code|..], e.(cycleBase := Times(n - 1, size) % WORD_MOD), code)
  }

  lemma {:induction false} RunSlotsConcat(s: State, a: seq<Slot>, b: seq<Slot>)
    requires |s.mem| > 0
    ensures RunSlots(s, a + b) == RunSlots(RunSlots(s, a), b)
    decreases |a|
  {
    if a == [] {
      assert a + b == b;
    } else {
      assert (a + b)[1..] == a[1..] + b;
      RunSlotsConcat(Exec(a[0].env, s, a[0].instr), a[1..], b);
    }
  }

  lemma {:induction false} RunPass(s: State, slots: seq<Slot>, e: Env, code: seq<Instr>)
    requires |s.mem| > 0 && |slots| == |code|
    requires forall i :: 0 <= i < |code| ==> slots[i].env == e && slots[i].instr == code[i]
    ensures RunSlots(s, slots) == Run(e, s, code)
    decreases |code|
  {
    if code != [] {
      RunPass(Exec(e, s, code[0]), slots[1..], e, code[1..]);
    }
  }

  lemma {:induction false} RunPasses(s: State, slots: seq<Slot>, e: Env, code: seq<Instr>, size: nat, n: nat)
    requires |s.mem| > 0 && FeedsPasses(slots, e, code, size, n)
    ensures RunSlots(s, slots) == RunCycles(e, s, code, size, n)
    decreases n
  {
    if n > 0 {
      var front, last := slots[..|slots| - |code|], slots[|slots| - |code|..];
      assert slots == front + last;
      RunPasses(s, front, e, code, size, n - 1);
      RunSlotsConcat(s, front, last);
      RunPass(RunSlots(s, front), last, e.(cycleBase := Times(n - 1, size) % WORD_MOD), code);
    }
  }

  /** Two slots after the last one every result has landed. */
  ghost predicate Settles(slots: seq<Slot>) {
    forall i :: 0 <= i < |slots| && UsesRegD(slots[i].instr.opr) ==> |slots| - i + 2 >= slots[i].latency
  }

  lemma PassIsSafe(slots: seq<Slot>, e: Env, program: seq<Instr>, width: nat)
    requires AllLaneRegisters(program) && FeedsPass(slots, e, Emit(program, width))
    ensures Safe(slots) && Settles(slots)
  {
    var code := Emit(program, width);
    forall i, j | 0 <= i < j < |slots| && Conflicts(slots[i].instr, slots[j].instr)
      ensures j - i >= slots[i].latency
    {
      HazardDistance(program, width, i, j);
    }
    forall i | 0 <= i < |slots| && UsesRegD(slots[i].instr.opr)
      ensures |slots| - i + 2 >= slots[i].latency
    {
      EndDistance(program, width, i);
    }
  }

  lemma SafeAppend(front: seq<Slot>, last: seq<Slot>)
    requires Safe(front) && Settles(front) && Safe(last) && Settles(last)
    requires |last| >= 2 && last[0].instr == last[1].instr == NOP
    ensures Safe(front + last) && Settles(front + last)
  {
    var all := front + last;
    forall i, j | 0 <= i < j < |all| && Conflicts(all[i].instr, all[j].instr)
      ensures j - i >= all[i].latency
    {
      if j < |front| {
        assert all[i] == front[i] && all[j] == front[j];
      } else if i < |front| {
        assert all[i] == front[i] && all[j] == last[j - |front|];
      } else {
        assert all[i] == last[i - |front|] && all[j] == last[j - |front|];
      }
    }
  }

  lemma {:induction false} PassesAreSafe(slots: seq<Slot>, e: Env, program: seq<Instr>, width: nat, size: nat, n: nat)
    requires AllLaneRegisters(program) && FeedsPasses(slots, e, Emit(program, width), size, n)
    ensures Safe(slots) && Settles(slots)
    decreases n
  {
    if n > 0 {
      var code := Emit(program, width);
      var front, last := slots[..|slots| - |code|], slots[|slots| - |code|..];
      PassesAreSafe(front, e, program, width, size, n - 1);
      PassIsSafe(last, e.(cycleBase := Times(n - 1, size) % WORD_MOD), program, width);
      PrologueShape(width, 0);
      PrologueShape(width, 1);
      SafeAppend(front, last);
      assert slots == front + last;
    }
  }

  /**
    Main result: any number of passes of any emitted program, one behind the other on a pipeline that never
    stalls, end as the same passes in order, whatever each result's delay within the code's bounds.
   */
  lemma PassesRunOnPipeline(e: Env, s: State, program: seq<Instr>, width: nat, n: nat, slots: seq<Slot>)
    requires |s.mem| > 0 && AllLaneRegisters(program)
    requires FeedsPasses(slots, e, Emit(program, width), PARALLEL_CNT * width, n)
    ensures Drained(PipeRun(Piped(s, [], 0), slots)) == RunCycles(e, s, Emit(program, width), PARALLEL_CNT * width, n)
  {
    PassesAreSafe(slots, e, program, width, PARALLEL_CNT * width, n);
    PipelineRefines(s, slots);
    RunPasses(s, slots, e, Emit(program, width), PARALLEL_CNT * width, n);
  }
}
