/**
  The two character rings of the fast JTAG UART driver, shared without locks between main code and
  the interrupt routine, and the enabling of the two interrupts.

  Wherever main code calls `Interrupts`, any number of interrupts is taken. Ghost histories record what
  has crossed the driver's two ends; the invariant ties each pair of histories to the ring between them.
 */
module JtagUart {
  import opened Buffers

  const BUF_LEN: nat := 2048
  const INT_MAX: nat := 0x7FFF_FFFF

  type Byte = x: int | 0 <= x < 256

  // ---- one ring ----

  function Next(i: nat): nat {
    (i + 1) % BUF_LEN
  }

  /** Cell `i` holds a byte that was put in and not yet taken out. */
  predicate IsHeld(i: nat, head: nat, tail: nat) {
    if head <= tail then head <= i < tail else i >= head || i < tail
  }

  function HeldCount(head: nat, tail: nat): int {
    if head <= tail then tail - head else BUF_LEN + tail - head
  }

  /** Cell number `k` from `head` on, around the end of the buffer. */
  function Around(head: nat, k: nat): (i: nat)
    requires head < BUF_LEN && k < BUF_LEN
    ensures i < BUF_LEN
  {
    if head + k < BUF_LEN then head + k else head + k - BUF_LEN
  }

  /** The bytes of a ring, oldest first: taken out at `head`, put in at `tail`. */
  function Contents(buf: seq<Byte>, head: nat, tail: nat): (s: seq<Byte>)
    requires |buf| == BUF_LEN && head < BUF_LEN && tail < BUF_LEN
    ensures |s| == HeldCount(head, tail) < BUF_LEN
  {
    seq(HeldCount(head, tail), k requires 0 <= k < HeldCount(head, tail) => buf[Around(head, k)])
  }

  /** What left the ring, followed by what it holds, is what entered it. */
  ghost predicate Carries(left: seq<Byte>, buf: seq<Byte>, head: nat, tail: nat, entered: seq<Byte>) {
    |buf| == BUF_LEN && head < BUF_LEN && tail < BUF_LEN && left + Contents(buf, head, tail) == entered
  }

  /** A store into a cell that is not held goes unnoticed. */
  lemma CarriesFree(left: seq<Byte>, buf: seq<Byte>, head: nat, tail: nat, entered: seq<Byte>, i: nat, b: Byte)
    requires Carries(left, buf, head, tail, entered) && i < BUF_LEN && !IsHeld(i, head, tail)
    ensures Carries(left, buf[i := b], head, tail, entered)
  {
    assert Contents(buf[i := b], head, tail) == Contents(buf, head, tail);
  }

  lemma TailMoves(head: nat, tail: nat, n: nat)
    requires head < BUF_LEN && tail < BUF_LEN && tail + n <= BUF_LEN && HeldCount(head, tail) + n < BUF_LEN
    ensures HeldCount(head, (tail + n) % BUF_LEN) == HeldCount(head, tail) + n
  {
  }

  lemma PutContents(buf: seq<Byte>, head: nat, tail: nat, n: nat)
    requires |buf| == BUF_LEN && head < BUF_LEN && tail < BUF_LEN && tail + n <= BUF_LEN
    requires HeldCount(head, tail) + n < BUF_LEN
    ensures Contents(buf, head, (tail + n) % BUF_LEN) == Contents(buf, head, tail) + buf[tail..tail + n]
  {
    if tail + n == BUF_LEN {
      assert buf[..tail] + buf[tail..tail + n] == buf;
    } else {
      assert (tail + n) % BUF_LEN == tail + n;
    }
  }

  /** Moving the tail over free cells puts their bytes in, in order. */
  lemma CarriesPut(left: seq<Byte>, buf: seq<Byte>, head: nat, tail: nat, entered: seq<Byte>, n: nat)
    requires Carries(left, buf, head, tail, entered) && tail + n <= BUF_LEN && HeldCount(head, tail) + n < BUF_LEN
    ensures Carries(left, buf, head, (tail + n) % BUF_LEN, entered + buf[tail..tail + n])
    ensures HeldCount(head, (tail + n) % BUF_LEN) == HeldCount(head, tail) + n
  {
    TailMoves(head, tail, n);
    PutContents(buf, head, tail, n);
  }

  lemma HeadMoves(head: nat, tail: nat, n: nat)
    requires head < BUF_LEN && tail < BUF_LEN && head + n <= BUF_LEN && n <= HeldCount(head, tail)
    ensures HeldCount((head + n) % BUF_LEN, tail) == HeldCount(head, tail) - n
  {
  }

  lemma TakeContents(buf: seq<Byte>, head: nat, tail: nat, n: nat)
    requires |buf| == BUF_LEN && head < BUF_LEN && tail < BUF_LEN && head + n <= BUF_LEN && n <= HeldCount(head, tail)
    ensures Contents(buf, head, tail) == buf[head..head + n] + Contents(buf, (head + n) % BUF_LEN, tail)
  {
    if head + n == BUF_LEN {
      assert buf[head..] == buf[head..head + n];
    } else {
      assert (head + n) % BUF_LEN == head + n;
    }
  }

  /** Moving the head over held cells takes their bytes out, in order. */
  lemma CarriesTake(left: seq<Byte>, buf: seq<Byte>, head: nat, tail: nat, entered: seq<Byte>, n: nat)
    requires Carries(left, buf, head, tail, entered) && head + n <= BUF_LEN && n <= HeldCount(head, tail)
    ensures Carries(left + buf[head..head + n], buf, (head + n) % BUF_LEN, tail, entered)
    ensures HeldCount((head + n) % BUF_LEN, tail) == HeldCount(head, tail) - n
  {
    HeadMoves(head, tail, n);
    TakeContents(buf, head, tail, n);
  }

  lemma CarriesPutOne(left: seq<Byte>, buf: seq<Byte>, head: nat, tail: nat, entered: seq<Byte>, b: Byte)
    requires Carries(left, buf, head, tail, entered) && Next(tail) != head
    ensures Carries(left, buf[tail := b], head, Next(tail), entered + [b])
    ensures HeldCount(head, Next(tail)) == HeldCount(head, tail) + 1
    ensures !IsHeld(tail, head, tail)
  {
    CarriesFree(left, buf, head, tail, entered, tail, b);
    CarriesPut(left, buf[tail := b], head, tail, entered, 1);
  }

  lemma CarriesTakeOne(left: seq<Byte>, buf: seq<Byte>, head: nat, tail: nat, entered: seq<Byte>)
    requires Carries(left, buf, head, tail, entered) && head != tail
    ensures Carries(left + [buf[head]], buf, Next(head), tail, entered)
    ensures HeldCount(Next(head), tail) == HeldCount(head, tail) - 1
  {
    CarriesTake(left, buf, head, tail, entered, 1);
    assert buf[head..head + 1] == [buf[head]];
  }

  /** The writer's chunk: contiguous free cells from `tail`, one cell of the ring always staying free. */
  function WriteChunk(head: nat, tail: nat): int {
    if tail < head then head - 1 - tail else if head > 0 then BUF_LEN - tail else BUF_LEN - 1 - tail
  }

  /** The reader's chunk: contiguous held cells from `head`. */
  function ReadChunk(head: nat, tail: nat): int {
    if tail >= head then tail - head else BUF_LEN - head
  }

  lemma FreeCell(head: nat, tail: nat, i: nat)
    requires head < BUF_LEN && tail < BUF_LEN && tail <= i < BUF_LEN && HeldCount(head, tail) + i - tail < BUF_LEN
    ensures !IsHeld(i, head, tail)
  {
  }

  lemma WriteChunkIsFree(head: nat, tail: nat)
    requires head < BUF_LEN && tail < BUF_LEN
    ensures var n := WriteChunk(head, tail);
            && 0 <= n && tail + n <= BUF_LEN && HeldCount(head, tail) + n < BUF_LEN
            && (n == 0 <==> HeldCount(head, tail) == BUF_LEN - 1)
  {
  }

  lemma ReadChunkIsHeld(head: nat, tail: nat)
    requires head < BUF_LEN && tail < BUF_LEN
    ensures var n := ReadChunk(head, tail);
            && 0 <= n <= HeldCount(head, tail) && head + n <= BUF_LEN
            && (n == 0 <==> HeldCount(head, tail) == 0)
  {
  }

  lemma HeldCell(head: nat, tail: nat, k: nat)
    requires head < BUF_LEN && tail < BUF_LEN && head + k < BUF_LEN && k < HeldCount(head, tail)
    ensures IsHeld(head + k, head, tail)
  {
  }

  lemma HeldChunk(head: nat, tail: nat, n: nat)
    requires head < BUF_LEN && tail < BUF_LEN && head + n <= BUF_LEN && n <= HeldCount(head, tail)
    ensures forall i: nat :: head <= i < head + n ==> IsHeld(i, head, tail)
  {
  }

  /** What is left of `held` bytes after `space` of them could be sent. */
  function Drained(held: int, space: nat): int {
    if space >= held then 0 else held - space
  }

  /** How many bytes the device has had space for, over all its requests to transmit. */
  function SpaceOffered(asked: seq<Control>): nat {
    if asked == [] then 0
    else SpaceOffered(asked[..|asked| - 1]) + if asked[|asked| - 1].writePending then asked[|asked| - 1].writeSpace else 0
  }

  /** Every control word requests something. */
  predicate AllRequest(asked: seq<Control>) {
    forall i :: 0 <= i < |asked| ==> asked[i].readPending || asked[i].writePending
  }

  /** All but the last do, and the last requests nothing. */
  predicate EndsIdle(asked: seq<Control>) {
    && asked != [] && AllRequest(asked[..|asked| - 1])
    && !asked[|asked| - 1].readPending && !asked[|asked| - 1].writePending
  }

  predicate ReceiveAsked(asked: seq<Control>) {
    exists i :: 0 <= i < |asked| && asked[i].readPending
  }

  lemma OneMoreRequest(asked: seq<Control>, c: Control, held: nat)
    ensures SpaceOffered(asked + [c]) == SpaceOffered(asked) + if c.writePending then c.writeSpace else 0
    ensures AllRequest(asked) ==> if c.readPending || c.writePending then AllRequest(asked + [c]) else EndsIdle(asked + [c])
    ensures ReceiveAsked(asked + [c]) == (ReceiveAsked(asked) || c.readPending)
    ensures Drained(Drained(held, SpaceOffered(asked)), if c.writePending then c.writeSpace else 0)
         == Drained(held, SpaceOffered(asked + [c]))
  {
    assert (asked + [c])[..|asked|] == asked && (asked + [c])[|asked|] == c;
    if ReceiveAsked(asked) {
      var i :| 0 <= i < |asked| && asked[i].readPending;
      assert (asked + [c])[i] == asked[i];
    }
  }

  /** The interrupt routine's two tests, `next == out` and `out != in`, are exact. */
  lemma FullAndEmpty(head: nat, tail: nat)
    requires head < BUF_LEN && tail < BUF_LEN
    ensures Next(tail) == head <==> HeldCount(head, tail) == BUF_LEN - 1
    ensures head == tail <==> HeldCount(head, tail) == 0
    ensures 0 <= HeldCount(head, tail) < BUF_LEN
  {
  }

  lemma Appended(log0: seq<Byte>, log1: seq<Byte>, log2: seq<Byte>, a: seq<Byte>, b: seq<Byte>)
    requires log1 == log0 + a && log2 == log1 + b
    ensures log2 == log0 + (a + b)
  {
  }

  lemma Joined(log0: seq<Byte>, log1: seq<Byte>, log2: seq<Byte>, data: seq<Byte>, i: nat, j: nat, k: nat)
    requires i <= j <= k <= |data| && log1 == log0 + data[i..j] && log2 == log1 + data[j..k]
    ensures log2 == log0 + data[i..k]
  {
    assert data[i..j] + data[j..k] == data[i..k];
  }

  // ---- the device ----

  datatype Control = Control(readPending: bool, writePending: bool, writeSpace: nat)

  datatype Data = Data(valid: bool, avail: nat, byte: Byte)

  /** The device's registers. The host on the other side of the cable may do anything at any time. */
  class Core {
    var readEnabled: bool
    var writeEnabled: bool
    ghost var taken: seq<Byte>
    ghost var sent: seq<Byte>
    ghost var drained: bool  // the last read of the data register found no byte
    ghost var rest: nat  // how many bytes that read left in the receive FIFO
    ghost var requests: seq<Control>  // what the reads of the control register returned

    constructor ()
      ensures taken == [] && sent == [] && requests == [] && !readEnabled && !writeEnabled
    {
      readEnabled, writeEnabled := false, false;
      taken, sent, requests := [], [], [];
    }

    method ReadControl() returns (c: Control)
      modifies `requests
      ensures requests == old(requests) + [c]
    {
      c := *;
      requests := requests + [c];
    }

    method WriteControl(re: bool, we: bool)
      modifies `readEnabled, `writeEnabled
      ensures readEnabled == re && writeEnabled == we
    {
      readEnabled, writeEnabled := re, we;
    }

    /** A read takes one byte off the receive FIFO; if there was none, none is available after it. */
    method ReadData() returns (d: Data)
      modifies `taken, `drained, `rest
      ensures taken == old(taken) + if d.valid then [d.byte] else []
      ensures drained == !d.valid && rest == d.avail && (!d.valid ==> d.avail == 0)
    {
      d := *;
      if !d.valid {
        d := Data(false, 0, 0);
      }
      taken := taken + if d.valid then [d.byte] else [];
      drained, rest := !d.valid, d.avail;
    }

    method WriteData(b: Byte)
      modifies `sent
      ensures sent == old(sent) + [b]
    {
      sent := sent + [b];
    }
  }

  // ---- the driver ----

  /** What a call returns; `StillWaiting` if it has not returned by the end of the observation. */
  datatype Outcome = Count(n: nat) | WouldBlock | IoError | StillWaiting

  class Uart {
    const core: Core
    const rxBuf: array<Byte>
    const txBuf: array<Byte>
    var rxIn: nat
    var rxOut: nat
    var txIn: nat
    var txOut: nat
    var re: bool
    var we: bool
    var timeout: nat
    var hostInactive: nat
    ghost var accepted: seq<Byte>
    ghost var returned: seq<Byte>
    ghost var peak: nat  // the highest count of inactive seconds since a read began
    ghost var writing: bool  // between an update of txIn and the enabling that follows it
    ghost var reading: bool  // between an update of rxOut and the enabling that follows it

    ghost predicate TxRing()
      reads this, txBuf, core
    {
      Carries(core.sent, txBuf[..], txOut, txIn, accepted)
    }

    ghost predicate RxRing()
      reads this, rxBuf, core
    {
      Carries(returned, rxBuf[..], rxOut, rxIn, core.taken)
    }

    /** An interrupt is off only while it would have nothing to do. */
    ghost predicate Armed()
      reads this
    {
      (we || writing || HeldCount(txOut, txIn) == 0) && (re || reading || HeldCount(rxOut, rxIn) == BUF_LEN - 1)
    }

    ghost predicate Valid()
      reads this, rxBuf, txBuf, core
    {
      && rxBuf != txBuf && timeout > 0
      && TxRing() && RxRing() && Armed()
      && core.readEnabled == re && core.writeEnabled == we
      && hostInactive <= peak <= INT_MAX - 2
    }

    /** Neither a write nor a read has moved a pointer without enabling the interrupt since. */
    ghost predicate Idle()
      reads this
    {
      !writing && !reading
    }

    /** Main code's pointers and histories stay; the transmit ring only drains and the receive ring only fills. */
    twostate predicate MainStays()
      reads this
    {
      && txIn == old(txIn) && rxOut == old(rxOut) && timeout == old(timeout)
      && accepted == old(accepted) && returned == old(returned)
      && writing == old(writing) && reading == old(reading)
      && HeldCount(txOut, txIn) <= old(HeldCount(txOut, txIn))
      && HeldCount(rxOut, rxIn) >= old(HeldCount(rxOut, rxIn))
      && (txOut == old(txOut) || HeldCount(txOut, txIn) < old(HeldCount(txOut, txIn)))
    }

    twostate predicate ReaderStays()
      reads this
    {
      returned == old(returned) && rxOut == old(rxOut) && reading == old(reading) && timeout == old(timeout)
    }

    twostate predicate WriterStays()
      reads this
    {
      accepted == old(accepted) && txIn == old(txIn) && writing == old(writing) && timeout == old(timeout)
    }

    /** What interrupts leave alone: also the whole transmit buffer and every held cell of the receive buffer. */
    twostate predicate OnlyInterrupted()
      reads this, rxBuf, txBuf
    {
      && MainStays() && txBuf[..] == old(txBuf[..])
      && (forall i: nat :: i < rxBuf.Length && old(IsHeld(i, rxOut, rxIn)) ==> rxBuf[i] == old(rxBuf[i]))
    }

    /** Without its one-second alarm the driver never takes the host for inactive. */
    constructor (core: Core, timeout: nat, alarmStarted: bool)
      requires timeout > 0 && core.taken == [] && core.sent == []
      modifies core
      ensures Valid() && Idle() && this.core == core && fresh(rxBuf) && fresh(txBuf)
      ensures re && !we && this.timeout == (if alarmStarted then timeout else 0x7FFF_FFFF)
      ensures accepted == [] && returned == [] && core.taken == [] && core.sent == []
    {
      this.core := core;
      rxBuf, txBuf := new Byte[BUF_LEN](_ => 0), new Byte[BUF_LEN](_ => 0);
      rxIn, rxOut, txIn, txOut := 0, 0, 0, 0;
      re, we := true, false;
      this.timeout, hostInactive, peak := timeout, 0, 0;
      if !alarmStarted {
        this.timeout := INT_MAX;
      }
      accepted, returned, writing, reading := [], [], false, false;
      new;
      core.WriteControl(re, we);
    }

    // ---- the interrupt routine ----

    /** The ring has a free cell for the byte that the device just gave. */
    method Receive(b: Byte, ghost before: seq<Byte>)
      requires rxBuf != txBuf && Next(rxIn) != rxOut
      requires Carries(returned, rxBuf[..], rxOut, rxIn, before) && core.taken == before + [b]
      modifies `rxIn, rxBuf
      ensures RxRing()
      ensures HeldCount(rxOut, rxIn) == old(HeldCount(rxOut, rxIn)) + 1
      ensures rxBuf[..] == old(rxBuf[..])[old(rxIn) := b]
    {
      CarriesPutOne(returned, rxBuf[..], rxOut, rxIn, before, b);
      rxBuf[rxIn] := b;
      rxIn := Next(rxIn);
    }

    /** The receive half: one byte at a time until the ring is full or the device has no more. */
    method IrqReceive()
      requires Valid()
      modifies `rxIn, `re, rxBuf, core`taken, core`drained, core`rest, core`readEnabled, core`writeEnabled
      ensures Valid() && OnlyInterrupted()
      ensures HeldCount(rxOut, rxIn) == BUF_LEN - 1 || (core.drained && re == old(re))
      ensures re == (old(re) && old(HeldCount(rxOut, rxIn)) < BUF_LEN - 1 && core.rest == 0)
      ensures old(HeldCount(rxOut, rxIn)) == BUF_LEN - 1 ==> core.taken == old(core.taken)
    {
      var avail := 1;
      while true
        invariant Valid() && OnlyInterrupted() && re == old(re)
        invariant if core.taken == old(core.taken) then avail == 1 && rxIn == old(rxIn) else avail == core.rest
        invariant core.taken != old(core.taken) ==> old(HeldCount(rxOut, rxIn)) < BUF_LEN - 1
        decreases BUF_LEN - HeldCount(rxOut, rxIn)
      {
        FullAndEmpty(rxOut, rxIn);
        if Next(rxIn) == rxOut {
          break;
        }
        ghost var before := core.taken;
        var data := core.ReadData();
        avail := data.avail;
        if !data.valid {
          break;
        }
        Receive(data.byte, before);
      }
      if avail > 0 {
        re := false;
        core.WriteControl(re, we);
      }
    }

    method Send()
      requires Valid() && txOut != txIn
      modifies `txOut, core`sent
      ensures Valid() && OnlyInterrupted() && HeldCount(txOut, txIn) == old(HeldCount(txOut, txIn)) - 1
    {
      FullAndEmpty(txOut, txIn);
      CarriesTakeOne(core.sent, txBuf[..], txOut, txIn, accepted);
      core.WriteData(txBuf[txOut]);
      txOut := Next(txOut);
    }

    /** The transmit half: one byte at a time until the FIFO is full or the ring is empty. */
    method IrqTransmit(writeSpace: nat)
      requires Valid()
      modifies `txOut, `we, core`sent, core`readEnabled, core`writeEnabled
      ensures Valid() && OnlyInterrupted()
      ensures HeldCount(txOut, txIn) == Drained(old(HeldCount(txOut, txIn)), writeSpace)
      ensures we == (old(we) && writeSpace <= old(HeldCount(txOut, txIn)))
    {
      var space := writeSpace;
      FullAndEmpty(txOut, txIn);
      while space > 0 && txOut != txIn
        invariant Valid() && OnlyInterrupted() && we == old(we)
        invariant 0 <= space <= writeSpace && 0 <= HeldCount(txOut, txIn)
        invariant HeldCount(txOut, txIn) - space == old(HeldCount(txOut, txIn)) - writeSpace
      {
        Send();
        FullAndEmpty(txOut, txIn);
        space := space - 1;
      }
      if space > 0 {
        we := false;
        core.WriteControl(re, we);
      }
    }

    /** One pass over the device's two requests. */
    method Serve(control: Control)
      requires Valid()
      modifies `rxIn, `txOut, `re, `we, rxBuf, core`taken, core`drained, core`rest, core`sent, core`readEnabled, core`writeEnabled
      ensures Valid() && OnlyInterrupted()
      ensures if control.readPending then HeldCount(rxOut, rxIn) == BUF_LEN - 1 || core.drained
              else core.taken == old(core.taken) && rxIn == old(rxIn) && re == old(re) && core.drained == old(core.drained)
      ensures var space := if control.writePending then control.writeSpace else 0;
              && HeldCount(txOut, txIn) == Drained(old(HeldCount(txOut, txIn)), space)
              && we == (old(we) && space <= old(HeldCount(txOut, txIn)))
    {
      FullAndEmpty(txOut, txIn);
      if control.readPending {
        IrqReceive();
      }
      if control.writePending {
        IrqTransmit(control.writeSpace);
      }
    }

    /** How far rings and interrupts are after the requests `asked`, from what they were before the first. */
    ghost predicate InService(asked: seq<Control>, held: nat, we0: bool, re0: bool, rxIn0: nat, taken: seq<Byte>)
      reads this, core
    {
      && HeldCount(txOut, txIn) == Drained(held, SpaceOffered(asked))
      && we == (we0 && SpaceOffered(asked) <= held)
      && if ReceiveAsked(asked) then HeldCount(rxOut, rxIn) == BUF_LEN - 1 || core.drained
         else core.taken == taken && rxIn == rxIn0 && re == re0
    }

    /** One pass of the loop: it ends the loop if the device requests nothing. */
    method Pass(ghost asked: seq<Control>, ghost held: nat, ghost we0: bool, ghost re0: bool, ghost rxIn0: nat,
                ghost taken: seq<Byte>) returns (more: bool, ghost control: Control)
      requires Valid() && InService(asked, held, we0, re0, rxIn0, taken) && AllRequest(asked)
      modifies `rxIn, `txOut, `re, `we, rxBuf, core
      ensures Valid() && OnlyInterrupted() && InService(asked + [control], held, we0, re0, rxIn0, taken)
      ensures core.requests == old(core.requests) + [control]
      ensures if more then AllRequest(asked + [control]) else EndsIdle(asked + [control])
    {
      var c := core.ReadControl();
      control := c;
      OneMoreRequest(asked, control, held);
      more := c.readPending || c.writePending;
      if more {
        Serve(c);
      }
    }

    /**
      One interrupt: the device is served until it requests nothing, or for `passes` requests. `asked` are the
      control words that it gave. Over all of them as many bytes leave the ring as there is space offered, if it
      holds so many; a request to receive is met until the ring is full or the device drained.
     */
    method Irq(passes: nat) returns (ghost asked: seq<Control>)
      requires Valid()
      modifies `rxIn, `txOut, `re, `we, rxBuf, core
      ensures Valid() && OnlyInterrupted()
      ensures core.requests == old(core.requests) + asked && |asked| <= passes
      ensures AllRequest(asked) || EndsIdle(asked)
      ensures |asked| < passes ==> EndsIdle(asked)
      ensures var held, space := old(HeldCount(txOut, txIn)), SpaceOffered(asked);
              && HeldCount(txOut, txIn) == (if space < held then held - space else 0)
              && we == (old(we) && space <= held)
      ensures if ReceiveAsked(asked) then HeldCount(rxOut, rxIn) == 2047 || core.drained
              else core.taken == old(core.taken) && rxIn == old(rxIn) && re == old(re)
    {
      asked := [];
      FullAndEmpty(txOut, txIn);
      for i := 0 to passes
        invariant Valid() && OnlyInterrupted()
        invariant InService(asked, old(HeldCount(txOut, txIn)), old(we), old(re), old(rxIn), old(core.taken))
        invariant core.requests == old(core.requests) + asked && |asked| == i
        invariant AllRequest(asked)
      {
        var more;
        ghost var control;
        more, control := Pass(asked, old(HeldCount(txOut, txIn)), old(we), old(re), old(rxIn), old(core.taken));
        asked := asked + [control];
        if !more {
          break;
        }
      }
    }

    /** The one-second timer: it sees whether the host has been active since. */
    method HostTimer(active: bool)
      requires Valid()
      modifies `hostInactive, `peak, core`readEnabled, core`writeEnabled
      ensures Valid() && OnlyInterrupted()
      ensures active ==> hostInactive == 0
      ensures !active ==> hostInactive == old(hostInactive) + if old(hostInactive) < INT_MAX - 2 then 1 else 0
      ensures peak == if hostInactive > old(peak) then hostInactive else old(peak)
    {
      if active {
        core.WriteControl(re, we);
        hostInactive := 0;
      } else if hostInactive < INT_MAX - 2 {
        hostInactive := hostInactive + 1;
        peak := if hostInactive > peak then hostInactive else peak;
      }
    }

    /** Any number of interrupts, of the device and of the timer in any order. */
    method Interrupts()
      requires Valid()
      modifies `rxIn, `txOut, `re, `we, `hostInactive, `peak, rxBuf, core
      ensures Valid() && OnlyInterrupted() && peak >= old(peak)
    {
      var count: nat :| 0 <= count;
      for i := 0 to count
        invariant Valid() && OnlyInterrupted() && peak >= old(peak)
      {
        if * {
          var passes: nat :| 0 <= passes;
          ghost var asked := Irq(passes);
        } else {
          var active: bool := *;
          HostTimer(active);
        }
      }
    }

    // ---- write ----

    /** One byte of the copy, with interrupts before it. */
    method CopyByte(cell: nat, b: Byte)
      requires Valid() && txIn <= cell < BUF_LEN && HeldCount(txOut, txIn) + cell - txIn < BUF_LEN
      modifies `rxIn, `txOut, `re, `we, `hostInactive, `peak, rxBuf, txBuf, core
      ensures Valid() && MainStays() && txBuf[..] == old(txBuf[..])[cell := b]
    {
      Interrupts();
      FreeCell(txOut, txIn, cell);
      CarriesFree(core.sent, txBuf[..], txOut, txIn, accepted, cell, b);
      txBuf[cell] := b;
    }

    /** Copies into free cells behind the tail, none of which the interrupt routine may read. */
    method CopyBytes(bytes: seq<Byte>)
      requires Valid() && txIn + |bytes| <= BUF_LEN && HeldCount(txOut, txIn) + |bytes| < BUF_LEN
      modifies `rxIn, `txOut, `re, `we, `hostInactive, `peak, rxBuf, txBuf, core
      ensures Valid() && MainStays() && txBuf[..] == Copied(old(txBuf[..]), txIn, bytes)
    {
      ghost var before := txBuf[..];
      for k := 0 to |bytes|
        invariant Valid() && MainStays() && txBuf[..] == Copied(before, txIn, bytes[..k])
      {
        CopiedMore(before, txIn, bytes, k);
        CopyByte(txIn + k, bytes[k]);
      }
      assert bytes[..|bytes|] == bytes;
    }

    method AdvanceTail(ghost bytes: seq<Byte>, n: nat)
      requires Valid() && n == |bytes| && txIn + n <= BUF_LEN && HeldCount(txOut, txIn) + n < BUF_LEN
      requires txBuf[..][txIn..txIn + n] == bytes
      modifies `txIn, `accepted, `writing
      ensures Valid() && writing && accepted == old(accepted) + bytes
      ensures HeldCount(txOut, txIn) == old(HeldCount(txOut, txIn)) + n
    {
      CarriesPut(core.sent, txBuf[..], txOut, txIn, accepted, n);
      accepted := accepted + bytes;
      txIn := (txIn + n) % BUF_LEN;
      writing := true;
    }

    /** One chunk goes into the ring: the bytes first, the pointer after them. */
    method PutChunk(bytes: seq<Byte>)
      requires Valid() && txIn + |bytes| <= BUF_LEN && HeldCount(txOut, txIn) + |bytes| < BUF_LEN
      modifies `rxIn, `txIn, `txOut, `re, `we, `hostInactive, `peak, `accepted, `writing, rxBuf, txBuf, core
      ensures Valid() && writing && ReaderStays()
      ensures accepted == old(accepted) + bytes
      ensures HeldCount(txOut, txIn) <= old(HeldCount(txOut, txIn)) + |bytes|
    {
      ghost var before := txBuf[..];
      CopyBytes(bytes);
      CopiedSlice(before, txIn, bytes);
      Interrupts();
      AdvanceTail(bytes, |bytes|);
    }

    /** How much of `limit` bytes fits in one piece, by the head as it is seen now. */
    method FreeChunk(limit: nat) returns (n: nat, out: nat)
      requires Valid()
      modifies `rxIn, `txOut, `re, `we, `hostInactive, `peak, rxBuf, core
      ensures Valid() && OnlyInterrupted() && out == txOut
      ensures n <= limit && txIn + n <= BUF_LEN && HeldCount(txOut, txIn) + n < BUF_LEN
      ensures n == 0 && limit > 0 ==> HeldCount(txOut, txIn) == BUF_LEN - 1
    {
      var tail := txIn;
      Interrupts();
      out := txOut;
      WriteChunkIsFree(out, tail);
      n := WriteChunk(out, tail);
      if n > limit {
        n := limit;
      }
    }

    /** Puts one chunk of data[at..] in, unless the ring is full. */
    method PutSome(data: seq<Byte>, at: nat) returns (n: nat, out: nat)
      requires Valid() && at < |data|
      modifies `rxIn, `txIn, `txOut, `re, `we, `hostInactive, `peak, `accepted, `writing, rxBuf, txBuf, core
      ensures Valid() && ReaderStays() && at + n <= |data|
      ensures accepted == old(accepted) + data[at..at + n]
      ensures HeldCount(txOut, txIn) <= old(HeldCount(txOut, txIn)) + n
      ensures n == 0 ==> out == txOut && HeldCount(txOut, txIn) == BUF_LEN - 1
    {
      n, out := FreeChunk(|data| - at);
      if n > 0 {
        PutChunk(data[at..at + n]);
      }
    }

    /** Fills the ring from data[start..] until either runs out; `out` is the head it last saw. */
    method CopyIn(data: seq<Byte>, start: nat) returns (at: nat, out: nat)
      requires Valid() && start <= |data|
      modifies `rxIn, `txIn, `txOut, `re, `we, `hostInactive, `peak, `accepted, `writing, rxBuf, txBuf, core
      ensures Valid() && ReaderStays() && start <= at <= |data|
      ensures accepted == old(accepted) + data[start..at]
      ensures at < |data| ==> out == txOut && HeldCount(txOut, txIn) == BUF_LEN - 1
      ensures at < |data| ==> at - start >= BUF_LEN - 1 - old(HeldCount(txOut, txIn))
    {
      at, out := start, 0;
      while at < |data|
        invariant Valid() && ReaderStays() && start <= at <= |data|
        invariant accepted == old(accepted) + data[start..at]
        invariant HeldCount(txOut, txIn) <= old(HeldCount(txOut, txIn)) + at - start
      {
        ghost var before := accepted;
        var n;
        n, out := PutSome(data, at);
        if n == 0 {
          break;
        }
        Joined(old(accepted), before, accepted, data, start, at, at + n);
        at := at + n;
      }
    }

    /** With interrupts disabled around it: turns the transmit interrupt on. */
    method ArmWrite()
      requires Valid()
      modifies `we, `writing, core`readEnabled, core`writeEnabled
      ensures Valid() && we && !writing
    {
      we := true;
      core.WriteControl(re, we);
      writing := false;
    }

    /** The wait for the head to leave `out`, looked at as often as `patience` says. */
    method AwaitSpace(out: nat, patience: nat) returns (left: nat, waiting: bool)
      requires Valid()
      modifies `rxIn, `txOut, `re, `we, `hostInactive, `peak, rxBuf, core
      ensures Valid() && OnlyInterrupted()
      ensures if waiting then left == 0 else left < patience && (txOut != out || hostInactive >= timeout)
      ensures left <= patience && (waiting && patience > 0 ==> txOut == out && hostInactive < timeout)
    {
      left := patience;
      while left > 0
        invariant Valid() && OnlyInterrupted() && left <= patience
        invariant left < patience ==> txOut == out && hostInactive < timeout
      {
        left := left - 1;
        Interrupts();
        if txOut != out || hostInactive >= timeout {
          return left, false;
        }
      }
      waiting := true;
    }

    /** One round of a write: fill the ring, turn the interrupt on, wait if there is more and it may wait. */
    method WriteRound(data: seq<Byte>, start: nat, nonblock: bool, patience: nat)
      returns (at: nat, again: bool, left: nat, waiting: bool)
      requires Valid() && start <= |data|
      modifies this, rxBuf, txBuf, core
      ensures Valid() && !writing && ReaderStays() && start <= at <= |data|
      ensures accepted == old(accepted) + data[start..at]
      ensures at < |data| ==> at - start >= BUF_LEN - 1 - old(HeldCount(txOut, txIn))
      ensures left <= patience && (again ==> at < |data| && left < patience && !waiting && hostInactive == 0)
      ensures !again ==> at == |data| || nonblock || waiting || hostInactive > 0
      ensures waiting ==> at < |data| && !nonblock && (patience > 0 ==> hostInactive < timeout)
    {
      var out;
      at, out := CopyIn(data, start);
      Interrupts();
      ArmWrite();
      if at == |data| || nonblock {
        return at, false, patience, false;
      }
      left, waiting := AwaitSpace(out, patience);
      if waiting {
        return at, false, left, true;
      }
      Interrupts();
      again := hostInactive == 0;
    }

    /**
      Accepts a prefix of `data`, `n` bytes: at least what fits at the time of the call, and all of it unless
      the call may not block, is still waiting, or finds the host inactive after a wait.
     */
    method Write(data: seq<Byte>, nonblock: bool, patience: nat) returns (r: Outcome, ghost n: nat)
      requires Valid()
      modifies this, rxBuf, txBuf, core
      ensures Valid() && !writing && reading == old(reading)
      ensures n <= |data| && accepted == old(accepted) + data[..n] && returned == old(returned)
      ensures r == StillWaiting ==> !nonblock && n < |data|
      ensures r != StillWaiting ==> r == if n > 0 then Count(n) else if nonblock then WouldBlock else IoError
      ensures n < |data| ==> n >= 2047 - old(HeldCount(txOut, txIn))
      ensures n < |data| ==> nonblock || r == StillWaiting || hostInactive > 0
    {
      var at, again, left, waiting := WriteRound(data, 0, nonblock, patience);
      while again
        invariant Valid() && !writing && ReaderStays() && at <= |data|
        invariant accepted == old(accepted) + data[0..at]
        invariant at < |data| ==> at >= BUF_LEN - 1 - old(HeldCount(txOut, txIn))
        invariant !again ==> at == |data| || nonblock || waiting || hostInactive > 0
        invariant waiting ==> at < |data| && !nonblock
        decreases left, again
      {
        ghost var before, start := accepted, at;
        at, again, left, waiting := WriteRound(data, at, nonblock, left);
        Joined(old(accepted), before, accepted, data, 0, start, at);
      }
      n := at;
      r := if waiting then StillWaiting else if at > 0 then Count(at) else if nonblock then WouldBlock else IoError;
    }

    // ---- read ----

    /** One byte of the copy, with interrupts before it; they leave the held cell alone. */
    method ReadByte(dst: array<Byte>, at: nat, cell: nat)
      requires Valid() && dst != rxBuf && dst != txBuf && at < dst.Length && cell < BUF_LEN && IsHeld(cell, rxOut, rxIn)
      modifies `rxIn, `txOut, `re, `we, `hostInactive, `peak, rxBuf, core, dst
      ensures Valid() && OnlyInterrupted() && dst[..] == old(dst[..])[at := old(rxBuf[cell])]
    {
      Interrupts();
      dst[at] := rxBuf[cell];
    }

    /** Copies `n` held cells out. */
    method ReadBytes(dst: array<Byte>, at: nat, n: nat)
      requires Valid() && dst != rxBuf && dst != txBuf && at + n <= dst.Length
      requires rxOut + n <= BUF_LEN && n <= HeldCount(rxOut, rxIn)
      modifies `rxIn, `txOut, `re, `we, `hostInactive, `peak, rxBuf, core, dst
      ensures Valid() && OnlyInterrupted()
      ensures dst[..] == Copied(old(dst[..]), at, old(rxBuf[..])[rxOut..rxOut + n])
    {
      ghost var before, bytes := dst[..], rxBuf[..][rxOut..rxOut + n];
      for k := 0 to n
        invariant Valid() && OnlyInterrupted()
        invariant dst[..] == Copied(before, at, bytes[..k])
      {
        CopiedMore(before, at, bytes, k);
        HeldCell(old(rxOut), old(rxIn), k);
        HeldCell(rxOut, rxIn, k);
        assert rxBuf[rxOut + k] == bytes[k];
        ReadByte(dst, at + k, rxOut + k);
      }
      assert bytes[..n] == bytes;
    }

    method AdvanceHead(ghost bytes: seq<Byte>, n: nat)
      requires Valid() && rxOut + n <= BUF_LEN && n <= HeldCount(rxOut, rxIn) && rxBuf[..][rxOut..rxOut + n] == bytes
      modifies `rxOut, `returned, `reading
      ensures Valid() && reading && returned == old(returned) + bytes
      ensures HeldCount(rxOut, rxIn) == old(HeldCount(rxOut, rxIn)) - n
    {
      CarriesTake(returned, rxBuf[..], rxOut, rxIn, core.taken, n);
      returned := returned + bytes;
      rxOut := (rxOut + n) % BUF_LEN;
      reading := true;
    }

    /** One chunk leaves the ring: the bytes are copied first, the pointer moves after them. */
    method GetChunk(dst: array<Byte>, at: nat, n: nat) returns (ghost bytes: seq<Byte>)
      requires Valid() && dst != rxBuf && dst != txBuf && at + n <= dst.Length
      requires rxOut + n <= BUF_LEN && n <= HeldCount(rxOut, rxIn)
      modifies `rxIn, `rxOut, `txOut, `re, `we, `hostInactive, `peak, `returned, `reading, rxBuf, core, dst
      ensures Valid() && reading && WriterStays() && |bytes| == n
      ensures dst[..] == Copied(old(dst[..]), at, bytes) && returned == old(returned) + bytes
      ensures HeldCount(rxOut, rxIn) >= old(HeldCount(rxOut, rxIn)) - n
    {
      bytes := rxBuf[..][rxOut..rxOut + n];
      ReadBytes(dst, at, n);
      Interrupts();
      HeldChunk(old(rxOut), old(rxIn), n);
      assert rxBuf[..][rxOut..rxOut + n] == bytes;
      AdvanceHead(bytes, n);
    }

    /** How much of `limit` bytes can be taken in one piece, by the tail as it is seen now. */
    method HeldChunkNow(limit: nat) returns (n: nat, tail: nat)
      requires Valid()
      modifies `rxIn, `txOut, `re, `we, `hostInactive, `peak, rxBuf, core
      ensures Valid() && OnlyInterrupted()
      ensures n <= limit && rxOut + n <= BUF_LEN && n <= HeldCount(rxOut, rxIn)
      ensures n == 0 && limit > 0 ==> tail == rxIn && HeldCount(rxOut, rxIn) == 0
    {
      Interrupts();
      tail := rxIn;
      ReadChunkIsHeld(rxOut, tail);
      n := ReadChunk(rxOut, tail);
      if n > limit {
        n := limit;
      }
    }

    /** Takes one chunk out to dst[at..space], unless the ring is empty. */
    method GetSome(dst: array<Byte>, at: nat, space: nat) returns (n: nat, tail: nat, ghost bytes: seq<Byte>)
      requires Valid() && dst != rxBuf && dst != txBuf && at < space <= dst.Length
      modifies `rxIn, `rxOut, `txOut, `re, `we, `hostInactive, `peak, `returned, `reading, rxBuf, core, dst
      ensures Valid() && WriterStays() && at + n <= space && |bytes| == n
      ensures HeldCount(rxOut, rxIn) >= old(HeldCount(rxOut, rxIn)) - n
      ensures dst[..] == Copied(old(dst[..]), at, bytes) && returned == old(returned) + bytes
      ensures n == 0 ==> reading == old(reading) && tail == rxIn && HeldCount(rxOut, rxIn) == 0
    {
      n, tail := HeldChunkNow(space - at);
      bytes := [];
      if n > 0 {
        bytes := GetChunk(dst, at, n);
      }
    }

    /** Empties the ring into dst[..space] until either runs out; `tail` is the tail it last saw. */
    method CopyOut(dst: array<Byte>, space: nat) returns (at: nat, tail: nat, ghost bytes: seq<Byte>)
      requires Valid() && dst != rxBuf && dst != txBuf && 0 < space <= dst.Length
      modifies `rxIn, `rxOut, `txOut, `re, `we, `hostInactive, `peak, `returned, `reading, rxBuf, core, dst
      ensures Valid() && WriterStays() && |bytes| == at <= space
      ensures at == 0 ==> reading == old(reading) && tail == rxIn && HeldCount(rxOut, rxIn) == 0
      ensures at < space ==> at >= old(HeldCount(rxOut, rxIn))
      ensures dst[..] == Copied(old(dst[..]), 0, bytes) && returned == old(returned) + bytes
    {
      ghost var start := dst[..];
      at, tail, bytes := 0, 0, [];
      while at < space
        invariant Valid() && WriterStays() && |bytes| == at <= space
        invariant at == 0 ==> reading == old(reading)
        invariant HeldCount(rxOut, rxIn) >= old(HeldCount(rxOut, rxIn)) - at
        invariant dst[..] == Copied(start, 0, bytes) && returned == old(returned) + bytes
      {
        ghost var before := returned;
        var n;
        ghost var more;
        n, tail, more := GetSome(dst, at, space);
        if n == 0 {
          break;
        }
        CopiedTwice(start, 0, bytes, more);
        Appended(old(returned), before, returned, bytes, more);
        bytes := bytes + more;
        at := at + n;
      }
    }

    /** With interrupts disabled around it: turns the receive interrupt on. */
    method ArmRead()
      requires Valid()
      modifies `re, `reading, core`readEnabled, core`writeEnabled
      ensures Valid() && re && !reading
    {
      re := true;
      core.WriteControl(re, we);
      reading := false;
    }

    /** The wait for the tail to leave `tail`, looked at as often as `patience` says. */
    method AwaitData(tail: nat, patience: nat) returns (waiting: bool)
      requires Valid() && rxIn == tail && HeldCount(rxOut, rxIn) == 0
      modifies `rxIn, `txOut, `re, `we, `hostInactive, `peak, rxBuf, core
      ensures Valid() && OnlyInterrupted() && peak >= old(peak)
      ensures if waiting then HeldCount(rxOut, rxIn) == 0 else HeldCount(rxOut, rxIn) > 0 || peak >= timeout
      ensures waiting && patience > 0 ==> hostInactive < timeout
    {
      var left := patience;
      while left > 0
        invariant Valid() && OnlyInterrupted() && peak >= old(peak)
        invariant rxIn == tail && HeldCount(rxOut, rxIn) == 0
        invariant left <= patience && (left < patience ==> hostInactive < timeout)
      {
        left := left - 1;
        Interrupts();
        FullAndEmpty(rxOut, rxIn);
        if rxIn != tail || hostInactive >= timeout {
          return false;
        }
      }
      waiting := true;
    }

    /** One round of a read: take what there is, and wait for more if there was nothing and it may wait. */
    method ReadRound(dst: array<Byte>, space: nat, nonblock: bool, patience: nat)
      returns (at: nat, again: bool, waiting: bool, ghost bytes: seq<Byte>)
      requires Valid() && !reading && dst != rxBuf && dst != txBuf && 0 < space <= dst.Length
      modifies this, rxBuf, core, dst
      ensures Valid() && WriterStays() && |bytes| == at <= space && (at == 0 ==> !reading)
      ensures at < space ==> at >= old(HeldCount(rxOut, rxIn))
      ensures dst[..] == Copied(old(dst[..]), 0, bytes) && returned == old(returned) + bytes
      ensures again ==> at == 0 && !nonblock && !waiting && HeldCount(rxOut, rxIn) > 0
      ensures waiting ==> at == 0 && !nonblock && HeldCount(rxOut, rxIn) == 0
      ensures !again ==> at > 0 || nonblock || waiting || peak >= timeout
    {
      var tail;
      at, tail, bytes := CopyOut(dst, space);
      again, waiting := false, false;
      if at == 0 && !nonblock {
        waiting := AwaitData(tail, patience);
        if !waiting {
          Interrupts();
          FullAndEmpty(rxOut, rxIn);
          again := rxIn != tail;
        }
      }
    }

    /**
      Delivers at least what was in the ring at the time of the call, as far as there is space for it. A blocking
      call gives up with an error only if the host has been inactive for the whole timeout since the call.
     */
    method Read(dst: array<Byte>, space: nat, nonblock: bool, patience: nat) returns (r: Outcome)
      requires Valid() && !reading && dst != rxBuf && dst != txBuf && space <= dst.Length
      modifies this, rxBuf, core, dst
      ensures Valid() && !reading && writing == old(writing) && accepted == old(accepted)
      ensures r.Count? ==> 0 < r.n <= space
      ensures var n := if r.Count? then r.n else 0;
              && returned == old(returned) + dst[..n] && dst[n..] == old(dst[n..])
              && (n < space ==> n >= old(HeldCount(rxOut, rxIn)))
      ensures r == WouldBlock ==> nonblock
      ensures r == IoError ==> !nonblock && (space == 0 || peak >= timeout)
      ensures r == StillWaiting ==> !nonblock && HeldCount(rxOut, rxIn) == 0
    {
      var at, again, waiting := 0, space > 0, false;
      ghost var bytes := [];
      peak := hostInactive;
      while again
        invariant Valid() && WriterStays() && |bytes| == at <= space && (at == 0 ==> !reading)
        invariant dst[..] == Copied(old(dst[..]), 0, bytes) && returned == old(returned) + bytes
        invariant again ==> 0 == at < space && HeldCount(rxOut, rxIn) >= old(HeldCount(rxOut, rxIn))
        invariant !again && at < space ==> at >= old(HeldCount(rxOut, rxIn))
        invariant waiting ==> at == 0 && !nonblock && HeldCount(rxOut, rxIn) == 0
        invariant !again ==> at > 0 || nonblock || waiting || space == 0 || peak >= timeout
        decreases again, HeldCount(rxOut, rxIn) == 0
      {
        at, again, waiting, bytes := ReadRound(dst, space, nonblock, patience);
      }
      CopiedSlice(old(dst[..]), 0, bytes);
      if at > 0 {
        Interrupts();
        ArmRead();
      }
      r := if at > 0 then Count(at) else if nonblock then WouldBlock else if waiting then StillWaiting else IoError;
    }
  }
}
