/** One differential case, run: the C++ trace producer and the RTL trace collector
    as loops over the live objects, and the comparison of what they emit. */
module Differential {
  import opened Words
  import I = Isa
  import opened Trace
  import S = Simulator
  import SI = SimulatorIsa
  import SO = SimulatorObjects
  import Rtl
  import RtlIsa
  import RO = RtlObjects
  import R = Refinement
  import Control

  // ---- ref_trace.cpp ----

  datatype Change = Unchanged | ChangedTo(rd: RegIndex, value: Word) | Several

  /** The before/after scan of the register file. */
  method DiffRegisters(before: seq<Word>, registers: SO.RegisterFile) returns (c: Change)
    requires |before| == 32 && registers.Valid()
    requires forall i :: 0 <= i < 32 ==> before[i] == S.RegRead(before, i)
    ensures var changed := Changed(before, registers.State(), 32);
            && (c.Several? <==> |changed| > 1)
            && (c.Unchanged? ==> changed == [])
            && (c.ChangedTo? ==> changed == [c.rd] && c.value == S.RegRead(registers.State(), c.rd))
  {
    hide S.RegRead;
    c := Unchanged;
    for index := 0 to 32
      invariant c.Unchanged? ==> Changed(before, registers.State(), index) == []
      invariant c.ChangedTo? ==>
                  Changed(before, registers.State(), index) == [c.rd] && c.value == S.RegRead(registers.State(), c.rd)
      invariant !c.Several?
    {
      var after := registers.Read(index);
      if after != before[index] {
        if c.ChangedTo? {
          ChangedGrows(before, registers.State(), index + 1, 32);
          return Several;
        }
        c := ChangedTo(index, after);
      }
    }
  }

  lemma {:induction false} ChangedGrows(before: I.Registers, after: I.Registers, i: nat, n: nat)
    requires i <= n <= 32
    ensures |Changed(before, after, i)| <= |Changed(before, after, n)|
  {
    hide S.RegRead;
    if i < n {
      ChangedGrows(before, after, i, n - 1);
    }
  }

  /** The registers as the guest reads them. */
  method Snapshot(registers: SO.RegisterFile) returns (before: seq<Word>)
    requires registers.Valid()
    ensures |before| == 32 && forall i :: 0 <= i < 32 ==> before[i] == S.RegRead(registers.State(), i)
  {
    before := [];
    for index := 0 to 32
      invariant |before| == index && forall i :: 0 <= i < index ==> before[i] == S.RegRead(registers.State(), i)
    {
      var v := registers.Read(index);
      before := before + [v];
    }
  }

  /** One iteration of the producer's loop: step the core and reconstruct the
      record, if anything retired. `several` is the error the source reports when
      an instruction changed two registers. */
  method TraceStep(cpu: SO.CpuCore) returns (record: Option<I.Record>, several: bool)
    requires cpu.Valid() && S.WellFormed(cpu.State().core)
    modifies cpu.Repr()
    ensures S.WellFormed(old(cpu.State()).core) && S.WellFormed(cpu.State().core)
    ensures cpu.State() == SI.Step(old(cpu.State()))
    ensures var s, t := old(cpu.State()), cpu.State();
            && (several <==> t.core.retired != s.core.retired && |Changed(s.core.regs, t.core.regs, 32)| > 1)
            && (!several ==> record == if t.core.retired == s.core.retired then None else Some(RefRecord(s, t)))
  {
    hide S.WellFormed, SI.Step, S.Fetch32, SO.SystemBus.State, Reconstruct, RefRecord, Changed, S.RegRead;
    ghost var s := cpu.State();
    var pc := cpu.pc;
    var fetched := cpu.bus.Fetch32(pc);
    var w := if fetched.Data? then fetched.value else 0;
    var before := Snapshot(cpu.registers);
    var retiredBefore := cpu.retired;
    var _ := cpu.Step();
    if cpu.retired == retiredBefore {
      return None, false;
    }
    SnapshotReads(before, s.core.regs, cpu.registers.State());
    var change := DiffRegisters(before, cpu.registers);
    if change.Several? {
      return None, true;
    }
    record, several := Some(Reconstruct(pc, w, cpu.pc, change, before)), false;
    ReconstructIsRef(s, cpu.State(), change, before);
  }

  /** The record emitted from what the loop observed around one step. */
  function Reconstruct(pc: Word, w: Word, nextPc: Word, change: Change, before: I.Registers): I.Record {
    var d := S.DecodeWord(w);
    var stores := d.Instruction? && d.decoded.opcode == 0x0F;
    I.Record(pc, w, nextPc, change.ChangedTo?, if change.ChangedTo? then change.rd else 0,
             if change.ChangedTo? then change.value else 0,
             stores,
             if stores then Wrap(before[d.decoded.rs1] + S.ImmediateValue(Control.Signed16, d.decoded.imm16)) else 0,
             if stores then before[d.decoded.rs2] else 0)
  }

  lemma ReconstructIsRef(s: S.Sim, t: S.Sim, change: Change, before: I.Registers)
    requires forall i :: 0 <= i < 32 ==> before[i] == S.RegRead(s.core.regs, i)
    requires var changed := Changed(s.core.regs, t.core.regs, 32);
             && !change.Several? && (change.Unchanged? ==> changed == [])
             && (change.ChangedTo? ==> changed == [change.rd] && change.value == S.RegRead(t.core.regs, change.rd))
    ensures var fetched := S.Fetch32(s.bus, s.core.pc);
            Reconstruct(s.core.pc, if fetched.Data? then fetched.value else 0, t.core.pc, change, before) ==
            RefRecord(s, t)
  {
    hide S.Fetch32, S.DecodeWord, S.ImmediateValue, S.RegRead, Changed, Wrap;
  }

  /** Comparing against the snapshot is comparing against the register file it was taken from. */
  lemma SnapshotReads(before: seq<Word>, regs: I.Registers, after: I.Registers)
    requires |before| == 32 && forall i :: 0 <= i < 32 ==> before[i] == S.RegRead(regs, i)
    ensures forall i :: 0 <= i < 32 ==> before[i] == S.RegRead(before, i)
    ensures Changed(before, after, 32) == Changed(regs, after, 32)
  {
    SnapshotChanged(before, regs, after, 32);
  }

  lemma {:induction false} SnapshotChanged(before: I.Registers, regs: I.Registers, after: I.Registers, n: nat)
    requires n <= 32 && forall i :: 0 <= i < 32 ==> before[i] == S.RegRead(regs, i)
    ensures Changed(before, after, n) == Changed(regs, after, n)
  {
    if n > 0 {
      SnapshotChanged(before, regs, after, n - 1);
    }
  }

  datatype Outcome = Complete(trace: seq<Entry>) | LimitReached | MultipleRegisters

  ghost predicate FromReset(s: S.Sim) {
    exists rom, ram, gpioIn :: s == SI.ResetSim(rom, ram, gpioIn)
  }

  /** The loop body: the entries this step adds. */
  method Iterate(cpu: SO.CpuCore, ghost c: S.Sim, ghost step: nat, index: nat) returns (more: seq<Entry>, several: bool)
    requires cpu.Valid() && FromReset(c) && S.WellFormed(c.core) && cpu.State() == SI.StepN(c, step)
    requires !cpu.State().core.Stopped() && index == cpu.State().core.retired
    modifies cpu.Repr()
    ensures cpu.State() == SI.StepN(c, step + 1) && !several && RefEntries(c, step + 1) == RefEntries(c, step) + more
  {
    hide S.WellFormed, SI.Step, RefRecord, SO.CpuCore.State, FromReset, Changed;
    OneRegisterAtMost(c, step);
    R.StepNSucc(c, step);
    var record;
    record, several := TraceStep(cpu);
    more := if record.Some? then [Retire(index, record.value)] else [];
  }

  /** The C++ producer from reset: never the multiple-register error, and exactly the specified trace. */
  method ProduceTrace(cpu: SO.CpuCore, limit: nat) returns (out: Outcome)
    requires cpu.Valid() && FromReset(cpu.State())
    modifies cpu.Repr()
    ensures S.WellFormed(old(cpu.State()).core)
    ensures match RefTrace(old(cpu.State()), limit)
            case Some(t) => out == Complete(t)
            case None => out == LimitReached
  {
    hide S.WellFormed, SI.Step, RefRecord, SO.CpuCore.State, SI.ResetSim, FromReset, Changed, RefFinal;
    hide RefEntries, SI.StepN;
    ghost var c := cpu.State();
    ResetWellFormed(c);
    NoEntries(c);
    var entries: seq<Entry> := [];
    var step := 0;
    var stopped, index := cpu.Progress();
    while step < limit && !stopped
      invariant step <= limit
      invariant S.WellFormed(cpu.State().core) && cpu.State() == SI.StepN(c, step)
      invariant stopped == cpu.State().core.Stopped() && index == cpu.State().core.retired
      invariant entries == RefEntries(c, step)
    {
      var more, several := Iterate(cpu, c, step, index);
      if several {
        return MultipleRegisters;
      }
      entries := entries + more;
      step := step + 1;
      stopped, index := cpu.Progress();
    }
    if !stopped {
      return LimitReached;
    }
    StoppedStays(c, step, limit);
    var final := EmitFinal(cpu);
    out := Complete(entries + [final]);
  }

  lemma ResetWellFormed(s: S.Sim)
    requires FromReset(s)
    ensures S.WellFormed(s.core)
  {
  }

  lemma NoEntries(c: S.Sim)
    requires S.WellFormed(c.core)
    ensures SI.StepN(c, 0) == c && RefEntries(c, 0) == []
  {
  }

  lemma OneRegisterAtMost(c: S.Sim, n: nat)
    requires FromReset(c) && S.WellFormed(c.core)
    ensures var s, t := SI.StepN(c, n), SI.Step(SI.StepN(c, n));
            !s.core.Stopped() && t.core.retired != s.core.retired ==> |Changed(s.core.regs, t.core.regs, 32)| <= 1
  {
    hide I.Step, I.Run, SI.StepN, SI.Step, SI.WordsOf, SI.ArchOf, SI.EnvOf, Changed, S.WellFormed;
    var rom, ram, gpioIn :| c == SI.ResetSim(rom, ram, gpioIn);
    var env, m0 := I.Env(SI.WordsOf(rom), gpioIn), I.Running(I.ResetArch(SI.WordsOf(ram)));
    SI.ResetDenotes(rom, ram, gpioIn);
    SI.RunDenotes(c, env, m0, n);
    var s, m := SI.StepN(c, n), I.Run(env, m0, n);
    SI.StepDenotes(s, env, m);
    if m.Running? && !I.Step(env, m.arch).Faulted? {
      RefRecordIsRecord(s, env, m.arch);
    }
  }

  lemma {:induction false} StoppedStays(c: S.Sim, i: nat, n: nat)
    requires S.WellFormed(c.core) && i <= n && SI.StepN(c, i).core.Stopped()
    ensures SI.StepN(c, n) == SI.StepN(c, i) && RefEntries(c, n) == RefEntries(c, i)
  {
    hide RefRecord, S.WellFormed, S.Tick;
    if i < n {
      StoppedStays(c, i, n - 1);
    }
  }

  method EmitFinal(cpu: SO.CpuCore) returns (final: Entry)
    requires cpu.Valid()
    ensures final == RefFinal(cpu.State())
  {
    var timer, gpio := cpu.bus.timer, cpu.bus.gpio;
    var fields := NO_FAULT_FIELDS;
    if cpu.micro == S.Fault {
      fields := FaultFields(cpu.fault.code, cpu.fault.pc, cpu.fault.instruction, cpu.fault.address.Some?,
                            if cpu.fault.address.Some? then cpu.fault.address.value else 0);
    }
    final := Final(cpu.micro == S.Fault, cpu.pc, cpu.retired, cpu.bus.uart.transcript, cpu.bus.debug.value, gpio.output,
                   gpio.direction, timer.counter, timer.compare, if timer.enabled then 1 else 0, fields);
  }

  // ---- tb_differential_trace.sv ----

  class TraceCollector {
    var index: nat
    var uart: seq<Byte>
    var finalPending: bool
    var finished: bool
    var trace: seq<Entry>

    ghost function State(): Collector
      reads this
    {
      Collector(index, uart, finalPending, finished, trace)
    }

    constructor ()
      ensures State() == COLLECTING
    {
      index, uart, finalPending, finished, trace := 0, [], false, false, [];
    }

    /** One rising edge, before the system's own registers move. */
    method PosEdge(system: RO.Mini32System)
      requires system.Valid() && this !in system.cpu.Repr() + system.bus.Repr()
      modifies this
      ensures State() == CollectorClock(old(State()), old(system.State()))
    {
      hide PortRecord, CollectedFinal, RO.RegisterFile.State, RO.Ram.State;
      if finished {
        return;
      }
      var cpu, bus := system.cpu, system.bus;
      var stopped := cpu.state == Rtl.HALTED || cpu.state == Rtl.FAULT;
      var done := finalPending && stopped;
      var events := if bus.uart.txValid then [bus.uart.txData] else [];
      var entries := if cpu.retire.valid then [Retire(index, PortRecord(cpu.retire))] else [];
      var last: seq<Entry> := [];
      if done {
        var final := FinalOf(system, Collector(index, uart, finalPending, finished, trace));
        last := [final];
      }
      index, uart, trace := index + |entries|, uart + events, trace + entries + last;
      finalPending, finished := finalPending || stopped, done;
    }

    method FinalOf(system: RO.Mini32System, k: Collector) returns (final: Entry)
      requires system.Valid()
      ensures final == CollectedFinal(k, system.State())
    {
      var cpu, bus := system.cpu, system.bus;
      var fields := NO_FAULT_FIELDS;
      if cpu.state == Rtl.FAULT {
        fields := FaultFields(cpu.fault.code, cpu.fault.pc, cpu.fault.instruction, cpu.fault.addressValid,
                              cpu.fault.address);
      }
      final := Final(cpu.state == Rtl.FAULT, cpu.pc, k.index, k.uart, bus.debug.value, bus.gpio.output,
                     bus.gpio.direction, bus.timer.counter, bus.timer.compare,
                     if bus.timer.enabled then 1 else 0, fields);
    }
  }

  /** The RTL side of a case: clock system and collector together, up to a cycle
      limit. None means exactly that the collector had not finished by then. */
  method CollectTrace(system: RO.Mini32System, maxCycles: nat) returns (trace: Option<seq<Entry>>)
    requires system.Valid()
    modifies system.cpu.Repr(), system.bus.Repr()
    ensures var k := Collect(system.env, old(system.State()), maxCycles);
            trace == if k.finished then Some(k.trace) else None
  {
    hide Rtl.Clock, CollectorClock, RO.Mini32System.State;
    ghost var s := system.State();
    var collector := new TraceCollector();
    var cycle := 0;
    while cycle < maxCycles && !collector.finished
      invariant cycle <= maxCycles
      invariant fresh(collector) && system.State() == R.RunClocks(system.env, s, cycle)
      invariant collector.State() == Collect(system.env, s, cycle)
    {
      collector.PosEdge(system);
      system.PosEdge();
      cycle := cycle + 1;
    }
    if collector.finished {
      FinishedStays(system.env, s, cycle, maxCycles);
      return Some(collector.trace);
    }
    trace := None;
  }

  // ---- run_case ----

  datatype Verdict = Agreed | Disagreed | NoVerdict

  /** A whole differential case on live objects, under any two limits. There is no
      verdict exactly when one side runs into its limit; otherwise the verdict is
      agreement exactly unless the program ended in a fetch from the reserved
      window. A program that stops within k instructions gets its verdict from
      limits of k and 9k + 2, and once the instruction limit exceeds a fifth of
      the cycle limit only the cycle limit matters. */
  method RunCase(cpu: SO.CpuCore, system: RO.Mini32System, limit: nat, maxCycles: nat,
                 ghost rom: S.Bytes64K, ghost ram: S.Bytes64K, ghost gpioIn: Word) returns (verdict: Verdict)
    requires cpu.Valid() && system.Valid() && cpu.Repr() !! (system.cpu.Repr() + system.bus.Repr())
    requires cpu.bus.rom.bytes as object !in system.cpu.Repr() + system.bus.Repr()
    requires cpu.State() == SI.ResetSim(rom, ram, gpioIn) && system.env == I.Env(SI.WordsOf(rom), gpioIn)
    requires Rtl.IsReset(system.State()) && system.State().bus.ram.words == SI.WordsOf(ram)
    modifies cpu.Repr(), system.cpu.Repr(), system.bus.Repr()
    ensures var c := SI.ResetSim(rom, ram, gpioIn);
            var collected := FinishedAt(system.env, old(system.State()), maxCycles);
            && S.WellFormed(c.core)
            && (verdict == NoVerdict <==> !SI.StepN(c, limit).core.Stopped() || !collected)
            && (limit > maxCycles / 5 ==> (verdict == NoVerdict <==> !collected))
            && (forall k: nat :: k <= limit && 9 * k + 2 <= maxCycles && SI.StepN(c, k).core.Stopped() ==>
                  verdict != NoVerdict)
    ensures verdict != NoVerdict ==>
              var last := SI.StepN(SI.ResetSim(rom, ram, gpioIn), limit).core;
              verdict == Agreed <==> !(last.micro == S.Fault && ReservedFetch(last.fault))
  {
    hide Rtl.Clock, Collect, RefTrace, Rtl.IsReset, SI.StepN, SO.CpuCore.State, RO.Mini32System.State, R.Retired,
      SI.WordsOf, ReservedFetch, SI.ResetSim;
    ghost var s, c := system.State(), cpu.State();
    assert FromReset(c);
    ResetWellFormed(c);
    FinishedTrace(c, limit);
    LimitsSuffice(rom, ram, gpioIn, s, limit, maxCycles);
    var out := ProduceTrace(cpu, limit);
    if !out.Complete? {
      return NoVerdict;
    }
    var rtl := CollectTrace(system, maxCycles);
    if rtl.None? {
      return NoVerdict;
    }
    TraceAgreement(rom, ram, gpioIn, s, maxCycles, limit);
    var cppOk := ParseTrace(out.trace);
    var rtlOk := ParseTrace(rtl.value);
    var accepted := CompareTraces(out.trace, rtl.value);
    verdict := if cppOk && rtlOk && accepted then Agreed else Disagreed;
  }

  /** Which limits let both sides finish. */
  lemma LimitsSuffice(rom: S.Bytes64K, ram: S.Bytes64K, gpioIn: Word, s: Rtl.System, limit: nat, maxCycles: nat)
    requires Rtl.IsReset(s) && s.bus.ram.words == SI.WordsOf(ram)
    ensures var env, c := I.Env(SI.WordsOf(rom), gpioIn), SI.ResetSim(rom, ram, gpioIn);
            && S.WellFormed(c.core)
            && (limit > maxCycles / 5 && FinishedAt(env, s, maxCycles) ==> SI.StepN(c, limit).core.Stopped())
            && (forall k: nat :: k <= limit && 9 * k + 2 <= maxCycles && SI.StepN(c, k).core.Stopped() ==>
                  SI.StepN(c, limit).core.Stopped() && FinishedAt(env, s, maxCycles))
  {
    hide Collect, Rtl.IsReset, SI.StepN, SI.WordsOf, RefEntries;
    var env, c := I.Env(SI.WordsOf(rom), gpioIn), SI.ResetSim(rom, ram, gpioIn);
    SI.ResetDenotes(rom, ram, gpioIn);
    if limit > maxCycles / 5 && FinishedAt(env, s, maxCycles) {
      FinishedNeedsFewSteps(rom, ram, gpioIn, s, maxCycles, limit);
    }
    forall k: nat | k <= limit && 9 * k + 2 <= maxCycles && SI.StepN(c, k).core.Stopped()
      ensures SI.StepN(c, limit).core.Stopped() && FinishedAt(env, s, maxCycles)
    {
      CollectorFinishes(rom, ram, gpioIn, s, k, maxCycles);
      StoppedStays(c, k, limit);
    }
  }
}
