/** The differential check on records: the C++ trace producer, the RTL trace
    collector, the structural checks and the comparison. */
module Trace {
  import opened Words
  import I = Isa
  import opened Replay
  import S = Simulator
  import SI = SimulatorIsa
  import Rtl
  import RtlIsa
  import Control
  import R = Refinement

  // ---- Records (differential.py's schema, values instead of JSON) ----

  datatype FaultFields = FaultFields(code: I.CpuFault, pc: Word, instruction: Word, addressValid: bool, address: Word)

  datatype Entry =
    | Retire(index: nat, record: I.Record)
    | Final(faulted: bool, pc: Word, retired: nat, uart: seq<Byte>, debug: Word, gpioOut: Word, gpioDir: Word,
            counter: Word, compare: Word, control: Word, fault: FaultFields)

  const NO_FAULT_FIELDS := FaultFields(I.NoFault, 0, 0, false, 0)

  /** parse_trace: one final record, last; contiguous indices from zero; a matching count. */
  predicate WellFormedTrace(t: seq<Entry>) {
    && |t| > 0
    && t[|t| - 1].Final?
    && (forall i :: 0 <= i < |t| - 1 ==> t[i].Retire? && t[i].index == i)
    && t[|t| - 1].retired == |t| - 1
  }

  predicate RetireMatches(e: Entry, a: Entry)
    requires e.Retire? && a.Retire?
  {
    var x, y := e.record, a.record;
    && e.index == a.index && x.pc == y.pc && x.instruction == y.instruction && x.nextPc == y.nextPc
    && x.regWrite == y.regWrite && (x.regWrite ==> x.rd == y.rd && x.regValue == y.regValue)
    && x.memWrite == y.memWrite && (x.memWrite ==> x.memAddr == y.memAddr && x.memValue == y.memValue)
  }

  predicate FinalMatches(e: Entry, a: Entry)
    requires e.Final? && a.Final?
  {
    && e.faulted == a.faulted && e.pc == a.pc && e.retired == a.retired && e.uart == a.uart && e.debug == a.debug
    && e.gpioOut == a.gpioOut && e.gpioDir == a.gpioDir && e.counter == a.counter && e.compare == a.compare
    && e.control == a.control
    && (e.faulted ==>
          && e.fault.code == a.fault.code && e.fault.pc == a.fault.pc && e.fault.instruction == a.fault.instruction
          && e.fault.addressValid == a.fault.addressValid
          && (e.fault.addressValid ==> e.fault.address == a.fault.address))
  }

  predicate TracesMatch(cpp: seq<Entry>, rtl: seq<Entry>)
    requires WellFormedTrace(cpp) && WellFormedTrace(rtl)
  {
    && |cpp| == |rtl|
    && (forall i :: 0 <= i < |cpp| - 1 ==> RetireMatches(cpp[i], rtl[i]))
    && FinalMatches(cpp[|cpp| - 1], rtl[|rtl| - 1])
  }

  /** What the comparison looks at in an entry: the whole entry, with fields that
      carry no information blanked (a register or store that was not written, a
      fault that did not happen, an address that is not valid). */
  function Observed(e: Entry): Entry {
    match e
    case Retire(i, r) =>
      var x := if r.regWrite then r else r.(rd := 0, regValue := 0);
      Retire(i, if x.memWrite then x else x.(memAddr := 0, memValue := 0))
    case Final(_, _, _, _, _, _, _, _, _, _, f) =>
      if !e.faulted then e.(fault := NO_FAULT_FIELDS)
      else if !f.addressValid then e.(fault := f.(address := 0))
      else e
  }

  function ObservedTrace(t: seq<Entry>): seq<Entry> {
    seq(|t|, i requires 0 <= i < |t| => Observed(t[i]))
  }

  lemma RetireMatchesIffObserved(e: Entry, a: Entry)
    requires e.Retire? && a.Retire?
    ensures RetireMatches(e, a) <==> Observed(e) == Observed(a)
  {
  }

  lemma FinalMatchesIffObserved(e: Entry, a: Entry)
    requires e.Final? && a.Final?
    ensures FinalMatches(e, a) <==> Observed(e) == Observed(a)
  {
  }

  /** Matching is equality of everything observed: no field can differ unseen,
      and no unobserved field matters. */
  lemma MatchIffObserved(cpp: seq<Entry>, rtl: seq<Entry>)
    requires WellFormedTrace(cpp) && WellFormedTrace(rtl)
    ensures TracesMatch(cpp, rtl) <==> ObservedTrace(cpp) == ObservedTrace(rtl)
  {
    hide RetireMatches, FinalMatches, Observed;
    var x, y := ObservedTrace(cpp), ObservedTrace(rtl);
    if |cpp| == |rtl| {
      var n := |cpp| - 1;
      forall i | 0 <= i < n
        ensures RetireMatches(cpp[i], rtl[i]) <==> x[i] == y[i]
      {
        RetireMatchesIffObserved(cpp[i], rtl[i]);
      }
      FinalMatchesIffObserved(cpp[n], rtl[n]);
      assert x == y <==> forall i :: 0 <= i < |x| ==> x[i] == y[i];
      assert x[n] == y[n] <==> FinalMatches(cpp[n], rtl[n]);
    } else {
      assert |x| != |y|;
    }
  }

  /** compare_traces: the pairwise loop stops at the first difference, before
      lengths and the final records are looked at. */
  method CompareTraces(cpp: seq<Entry>, rtl: seq<Entry>) returns (accepted: bool)
    requires WellFormedTrace(cpp) && WellFormedTrace(rtl)
    ensures accepted <==> ObservedTrace(cpp) == ObservedTrace(rtl)
    ensures accepted <==> TracesMatch(cpp, rtl)
  {
    MatchIffObserved(cpp, rtl);
    var i := 0;
    while i < |cpp| - 1 && i < |rtl| - 1
      invariant 0 <= i <= |cpp| - 1 && i <= |rtl| - 1
      invariant forall j :: 0 <= j < i ==> RetireMatches(cpp[j], rtl[j])
    {
      if !RetireMatches(cpp[i], rtl[i]) {
        return false;
      }
      i := i + 1;
    }
    if |cpp| != |rtl| {
      return false;
    }
    accepted := FinalMatches(cpp[|cpp| - 1], rtl[|rtl| - 1]);
  }

  /** Where the final records are, among the first n. */
  function FinalPositions(t: seq<Entry>, n: nat): (r: seq<nat>)
    requires n <= |t|
    ensures forall i :: 0 <= i < |r| ==> r[i] < n && t[r[i]].Final?
  {
    if n == 0 then [] else FinalPositions(t, n - 1) + (if t[n - 1].Final? then [n - 1] else [])
  }

  /** parse_trace: the final positions, the index loop and the count, each of
      which rejects. */
  method ParseTrace(records: seq<Entry>) returns (accepted: bool)
    ensures accepted <==>
              && |records| > 0 && FinalPositions(records, |records|) == [|records| - 1]
              && (forall i :: 0 <= i < |records| - 1 ==> records[i].Retire? && records[i].index == i)
              && records[|records| - 1].Final? && records[|records| - 1].retired == |records| - 1
    ensures accepted <==> WellFormedTrace(records)
  {
    hide FinalPositions;
    WellFormedIff(records);
    if |records| == 0 {
      return false;
    }
    var positions := ListFinals(records);
    if positions != [|records| - 1] {
      return false;
    }
    var i := 0;
    while i < |records| - 1
      invariant 0 <= i <= |records| - 1
      invariant forall j :: 0 <= j < i ==> records[j].Retire? && records[j].index == j
    {
      if !records[i].Retire? || records[i].index != i {
        return false;
      }
      i := i + 1;
    }
    assert positions[0] == |records| - 1;
    accepted := records[|records| - 1].retired == |records| - 1;
  }

  method ListFinals(records: seq<Entry>) returns (positions: seq<nat>)
    ensures positions == FinalPositions(records, |records|)
  {
    positions := [];
    for k := 0 to |records|
      invariant positions == FinalPositions(records, k)
    {
      if records[k].Final? {
        positions := positions + [k];
      }
    }
  }

  lemma WellFormedIff(t: seq<Entry>)
    ensures WellFormedTrace(t) <==>
              && |t| > 0 && FinalPositions(t, |t|) == [|t| - 1]
              && (forall i :: 0 <= i < |t| - 1 ==> t[i].Retire? && t[i].index == i)
              && t[|t| - 1].Final? && t[|t| - 1].retired == |t| - 1
  {
    hide FinalPositions;
    if WellFormedTrace(t) {
      NoFinals(t, |t| - 1);
      LastFinal(t, |t|);
    }
  }

  /** Each broken check rejects: an index out of place, a final record before the
      last, no final record at the end, a wrong count. */
  lemma BrokenTraces(t: seq<Entry>, i: nat)
    requires i < |t|
    ensures i < |t| - 1 && t[i].Retire? && t[i].index != i ==> !WellFormedTrace(t)
    ensures i < |t| - 1 && t[i].Final? ==> !WellFormedTrace(t)
    ensures t[|t| - 1].Retire? ==> !WellFormedTrace(t)
    ensures t[|t| - 1].Final? && t[|t| - 1].retired != |t| - 1 ==> !WellFormedTrace(t)
  {
  }

  lemma LastFinal(t: seq<Entry>, n: nat)
    requires 0 < n <= |t| && FinalPositions(t, n - 1) == [] && t[n - 1].Final?
    ensures FinalPositions(t, n) == [n - 1]
  {
  }

  lemma {:induction false} NoFinals(t: seq<Entry>, n: nat)
    requires n <= |t| && forall i :: 0 <= i < n ==> t[i].Retire?
    ensures FinalPositions(t, n) == []
  {
    if n > 0 {
      NoFinals(t, n - 1);
    }
  }

  // ---- ref_trace.cpp ----

  /** Registers whose value differs, among the first n. */
  function Changed(before: I.Registers, after: I.Registers, n: nat): seq<RegIndex>
    requires n <= 32
  {
    if n == 0 then [] else
      Changed(before, after, n - 1)
      + (if S.RegRead(before, n - 1) != S.RegRead(after, n - 1) then [n - 1] else [])
  }

  /** The record the producer reconstructs from the states around one step(). */
  function RefRecord(before: S.Sim, after: S.Sim): I.Record {
    var pc := before.core.pc;
    var fetched := S.Fetch32(before.bus, pc);
    var w := if fetched.Data? then fetched.value else 0;
    var changed := Changed(before.core.regs, after.core.regs, 32);
    var d := S.DecodeWord(w);
    var isStore := d.Instruction? && d.decoded.opcode == 0x0F;
    I.Record(pc, w, after.core.pc,
             changed != [], if changed != [] then changed[|changed| - 1] else 0,
             if changed != [] then S.RegRead(after.core.regs, changed[|changed| - 1]) else 0,
             isStore,
             if isStore
             then Wrap(S.RegRead(before.core.regs, d.decoded.rs1)
                       + S.ImmediateValue(Control.Signed16, d.decoded.imm16))
             else 0,
             if isStore then S.RegRead(before.core.regs, d.decoded.rs2) else 0)
  }

  lemma {:induction false} ChangedIs(before: I.Registers, after: I.Registers, rd: RegIndex, v: Word, n: nat)
    requires n <= 32 && I.RegsOf(after) == I.SetReg(I.RegsOf(before), rd, v)
    ensures Changed(before, after, n) ==
            if rd != 0 && rd < n && v != I.RegsOf(before)[rd] then [rd] else []
  {
    if n > 0 {
      ChangedIs(before, after, rd, v, n - 1);
      assert S.RegRead(before, n - 1) == I.RegsOf(before)[n - 1];
      assert S.RegRead(after, n - 1) == I.RegsOf(after)[n - 1];
    }
  }

  /** The reconstruction from before/after states is the architectural record,
      and no step changes two registers. */
  lemma RefRecordIsRecord(s: S.Sim, env: I.Env, a: I.Arch)
    requires SI.Denotes(s, env, I.Running(a)) && !I.Step(env, a).Faulted?
    ensures |Changed(s.core.regs, SI.Step(s).core.regs, 32)| <= 1
    ensures RefRecord(s, SI.Step(s)) == I.RecordFor(env, a)
  {
    hide S.Fetch32, S.DecodeWord, SI.Step, I.Fetch, I.Decode, I.Load, I.Store, I.Alu, SI.DevicesOf, SI.EnvOf, Wrap,
      Changed, S.RegRead, S.ImmediateValue, S.ControlFor, S.BranchDisplacement, S.JumpDisplacement;
    SI.StepDenotes(s, env, I.Running(a));
    SI.BusReadAgrees(s.bus, s.core.pc);
    var w := I.Fetch(env, a.pc).value;
    var i := I.Decode(w).instr;
    SI.DecoderAgrees(w);
    StoreOpcode(w);
    var before, after := s.core.regs, SI.Step(s).core.regs;
    var e := if i.Lw? then I.Effect(Wrap(a.pc + 4), i.rd,
                                    I.Load(env, a.dev, I.EffectiveAddress(a, i.base, i.offset)).value)
             else if I.IsComputation(i) then I.Compute(a, i) else I.Effect(0, 0, 0);
    ChangedIs(before, after, e.rd, e.value, 32);
    RegReadView(after, e.rd);
    if i.Sw? {
      var d := S.DecodeWord(w).decoded;
      RegReadView(before, d.rs1);
      RegReadView(before, d.rs2);
      WrapAdd(a.regs[i.base], i.offset);
    }
  }

  lemma RegReadView(regs: I.Registers, r: RegIndex)
    ensures S.RegRead(regs, r) == I.RegsOf(regs)[r]
  {
  }

  lemma StoreOpcode(w: Word)
    ensures I.Decode(w).Ok? && S.DecodeWord(w).Instruction? ==>
              var d := S.DecodeWord(w).decoded;
              && (d.opcode == 0x0F <==> I.Decode(w).instr.Sw?)
              && (d.opcode == 0x0F ==> S.ControlFor(d.opcode).value.immediate == Control.Signed16)
  {
  }

  /** The retire entries after n iterations of the producer's loop, which stops
      stepping once halted or faulted and emits nothing when nothing retired. */
  function RefEntries(c: S.Sim, n: nat): seq<Entry>
    requires S.WellFormed(c.core)
  {
    if n == 0 then [] else
      var s, t := SI.StepN(c, n - 1), SI.StepN(c, n);
      RefEntries(c, n - 1)
      + (if s.core.Stopped() || t.core.retired == s.core.retired then [] else [Retire(s.core.retired, RefRecord(s, t))])
  }

  function RefFinal(t: S.Sim): Entry {
    Final(t.core.micro == S.Fault, t.core.pc, t.core.retired, t.bus.tx, t.bus.debug, t.bus.gpio.output,
          t.bus.gpio.direction, t.bus.timer.counter, t.bus.timer.compare, if t.bus.timer.enabled then 1 else 0,
          if t.core.micro == S.Fault
          then FaultFields(t.core.fault.code, t.core.fault.pc, t.core.fault.instruction, t.core.fault.address.Some?,
                           if t.core.fault.address.Some? then t.core.fault.address.value else 0)
          else NO_FAULT_FIELDS)
  }

  /** The whole C++ trace under an instruction limit; None when the limit was hit first. */
  function RefTrace(c: S.Sim, limit: nat): Option<seq<Entry>>
    requires S.WellFormed(c.core)
  {
    var t := SI.StepN(c, limit);
    if t.core.Stopped() then Some(RefEntries(c, limit) + [RefFinal(t)]) else None
  }

  /** The architectural retire entries of the first k instructions. */
  ghost function SpecEntries(env: I.Env, m0: I.Machine, k: nat): (r: seq<Entry>)
    requires AllRetire(env, m0, k)
    ensures |r| == k && forall i :: 0 <= i < k ==> r[i].Retire? && r[i].index == i
  {
    seq(k, i requires 0 <= i < k => Retire(i, Records(env, m0, k)[i]))
  }

  lemma SpecEntriesSnoc(env: I.Env, m0: I.Machine, k: nat)
    requires k > 0 && AllRetire(env, m0, k)
    ensures AllRetire(env, m0, k - 1) && I.Run(env, m0, k - 1).Running?
            && !I.Step(env, I.Run(env, m0, k - 1).arch).Faulted?
    ensures SpecEntries(env, m0, k) ==
            SpecEntries(env, m0, k - 1) + [Retire(k - 1, I.RecordFor(env, I.Run(env, m0, k - 1).arch))]
  {
    hide I.Step, I.RecordFor, Apply;
    RetiringStep(env, m0, k);
    AllButLast(env, m0, k);
    var rs := Records(env, m0, k);
    forall i | 0 <= i < k - 1
      ensures rs[i] == Records(env, m0, k - 1)[i]
    {
      assert rs[..k - 1][i] == rs[i];
    }
  }

  /** The instruction count of a run after n step() calls, none past the stop. */
  lemma {:induction false} RefEntriesAreSpec(c: S.Sim, env: I.Env, m0: I.Machine, n: nat)
    requires SI.Denotes(c, env, m0) && m0.Running? && c.core.retired == 0
    ensures var k := SI.StepN(c, n).core.retired;
            && AllRetire(env, m0, k)
            && RefEntries(c, n) == SpecEntries(env, m0, k)
            && (I.Run(env, m0, n).Running? ==> k == n)
            && (I.Run(env, m0, n).Halted? ==> I.Run(env, m0, k) == I.Run(env, m0, n))
            && (I.Run(env, m0, n).Faulted? ==> I.Run(env, m0, k).Running? && I.Run(env, m0, k + 1) == I.Run(env, m0, n))
  {
    hide I.Step, I.RecordFor, SI.Step, RefRecord, SI.ArchOf, SI.EnvOf, SpecEntries;
    if n == 0 {
      EmptyEntries(env, m0);
    } else {
      RefEntriesAreSpec(c, env, m0, n - 1);
      var s, t, m := SI.StepN(c, n - 1), SI.StepN(c, n), I.Run(env, m0, n - 1);
      SI.RunDenotes(c, env, m0, n - 1);
      SI.StepDenotes(s, env, m);
      if m.Running? && !I.Next(env, m).Faulted? {
        RefRecordIsRecord(s, env, m.arch);
        SpecEntriesSnoc(env, m0, n);
      }
    }
  }

  lemma EmptyEntries(env: I.Env, m0: I.Machine)
    requires m0.Running?
    ensures AllRetire(env, m0, 0) && SpecEntries(env, m0, 0) == []
  {
  }

  // ---- tb_differential_trace.sv ----

  datatype Collector = Collector(index: nat, uart: seq<Byte>, finalPending: bool, finished: bool, trace: seq<Entry>)

  function PortRecord(p: Rtl.RetirePort): I.Record {
    I.Record(p.pc, p.instruction, p.nextPc, p.regWrite, p.rd, p.value, p.memWrite, p.memAddr, p.memValue)
  }

  function CollectedFinal(k: Collector, s: Rtl.System): Entry {
    Final(s.cpu.state == Rtl.FAULT, s.cpu.pc, k.index, k.uart, s.bus.debug.value, s.bus.gpio.output,
          s.bus.gpio.direction, s.bus.timer.counter, s.bus.timer.compare, if s.bus.timer.enabled then 1 else 0,
          if s.cpu.state == Rtl.FAULT
          then FaultFields(s.cpu.fault.code, s.cpu.fault.pc, s.cpu.fault.instruction, s.cpu.fault.addressValid,
                           s.cpu.fault.address)
          else NO_FAULT_FIELDS)
  }

  /** One rising edge of the collector, looking at the system before the edge. */
  function CollectorClock(k: Collector, s: Rtl.System): Collector {
    if k.finished then k else
      var stopped := s.cpu.state == Rtl.HALTED || s.cpu.state == Rtl.FAULT;
      var entries := if s.cpu.retire.valid then [Retire(k.index, PortRecord(s.cpu.retire))] else [];
      Collector(k.index + |entries|, k.uart + RtlIsa.Emitted(s.bus), k.finalPending || stopped,
                k.finalPending && stopped,
                k.trace + entries + (if k.finalPending && stopped then [CollectedFinal(k, s)] else []))
  }

  const COLLECTING := Collector(0, [], false, false, [])

  function Collect(env: I.Env, s: Rtl.System, n: nat): Collector {
    if n == 0 then COLLECTING else CollectorClock(Collect(env, s, n - 1), R.RunClocks(env, s, n - 1))
  }

  ghost predicate EntriesMatch(spec: seq<Entry>, rtl: seq<Entry>)
    requires forall i :: 0 <= i < |spec| ==> spec[i].Retire?
  {
    && |spec| == |rtl|
    && forall i :: 0 <= i < |spec| ==> rtl[i].Retire? && RetireMatches(spec[i], rtl[i])
  }

  /** The collector is one clock behind: it has every retirement but the pulse now showing. */
  ghost predicate Collecting(env: I.Env, s: Rtl.System, n: nat, k: Collector) {
    var t, m0 := R.RunClocks(env, s, n), R.Start(s);
    && !k.finished
    && k.index + RtlIsa.Count(t.cpu.retire.valid) == R.Retired(env, s, n)
    && k.uart == R.Transcript(env, s, n)
    && AllRetire(env, m0, k.index) && EntriesMatch(SpecEntries(env, m0, k.index), k.trace)
    && (t.cpu.retire.valid ==>
          && AllRetire(env, m0, k.index + 1) && I.Run(env, m0, k.index).Running?
          && !I.Step(env, I.Run(env, m0, k.index).arch).Faulted?
          && RtlIsa.RetireAgrees(t.cpu.retire, I.RecordFor(env, I.Run(env, m0, k.index).arch)))
    && (k.finalPending ==> (t.cpu.state == Rtl.HALTED || t.cpu.state == Rtl.FAULT) && !t.cpu.retire.valid)
  }

  /** What the collector holds after an edge. */
  lemma CollectorTakes(env: I.Env, s: Rtl.System, n: nat, k: Collector)
    requires Collecting(env, s, n, k) && !CollectorClock(k, R.RunClocks(env, s, n)).finished
    ensures var k' := CollectorClock(k, R.RunClocks(env, s, n));
            && k'.index == R.Retired(env, s, n) && k'.uart == R.Transcript(env, s, n + 1)
            && AllRetire(env, R.Start(s), k'.index) && EntriesMatch(SpecEntries(env, R.Start(s), k'.index), k'.trace)
  {
    hide Rtl.Clock, I.Step, I.RecordFor, I.Run, RtlIsa.RetireAgrees, AllRetire, RtlIsa.Emitted, SpecEntries,
      R.RunClocks, RetireMatches, PortRecord, R.Retired;
    var t, m0 := R.RunClocks(env, s, n), R.Start(s);
    if t.cpu.retire.valid {
      var rec := I.RecordFor(env, I.Run(env, m0, k.index).arch);
      SpecEntriesSnoc(env, m0, k.index + 1);
      PortMatches(t.cpu.retire, k.index, rec);
      EntriesMatchSnoc(SpecEntries(env, m0, k.index), k.trace, Retire(k.index, rec),
                       Retire(k.index, PortRecord(t.cpu.retire)));
    }
    hide EntriesMatch;
    var entries := if t.cpu.retire.valid then [Retire(k.index, PortRecord(t.cpu.retire))] else [];
    assert k.trace + entries + [] == k.trace + entries && k.trace + [] == k.trace;
  }

  /** What shows on the retirement port after the next edge. */
  lemma NextPulse(env: I.Env, s: Rtl.System, n: nat)
    requires Rtl.IsReset(s)
    ensures var t, t', m0, i := R.RunClocks(env, s, n), R.RunClocks(env, s, n + 1), R.Start(s), R.Retired(env, s, n);
            && R.Retired(env, s, n + 1) == i + RtlIsa.Count(t'.cpu.retire.valid)
            && (t'.cpu.retire.valid ==>
                  && AllRetire(env, m0, i + 1) && I.Run(env, m0, i).Running?
                  && !I.Step(env, I.Run(env, m0, i).arch).Faulted?
                  && RtlIsa.RetireAgrees(t'.cpu.retire, I.RecordFor(env, I.Run(env, m0, i).arch)))
            && (t.cpu.state == Rtl.HALTED || t.cpu.state == Rtl.FAULT ==>
                  t'.cpu.state == t.cpu.state && !t'.cpu.retire.valid)
  {
    hide Rtl.Clock, I.Step, I.RecordFor, I.Run, Rtl.IsReset, RtlIsa.RetireAgrees, RtlIsa.InFlight, RtlIsa.AtRest,
      AllRetire, R.TotalCost, RtlIsa.FaultAgrees, RtlIsa.Emitted;
    var t, m0, r := R.RunClocks(env, s, n), R.Start(s), R.Retired(env, s, n);
    R.RunTracks(env, s, n);
    R.TracksClock(env, t, R.Transcript(env, s, n), n, r, m0);
    R.RetiredAllRetire(env, s, n + 1);
    if t.cpu.state == Rtl.HALTED || t.cpu.state == Rtl.FAULT {
      RtlIsa.ClockAtRest(env, t, R.Transcript(env, s, n), I.Run(env, m0, r).arch);
    }
  }

  lemma CollectorStep(env: I.Env, s: Rtl.System, n: nat, k: Collector)
    requires Rtl.IsReset(s) && Collecting(env, s, n, k) && !CollectorClock(k, R.RunClocks(env, s, n)).finished
    ensures Collecting(env, s, n + 1, CollectorClock(k, R.RunClocks(env, s, n)))
  {
    hide I.Step, I.RecordFor, I.Run, Rtl.IsReset, RtlIsa.RetireAgrees, AllRetire, SpecEntries, R.RunClocks, R.Retired,
      R.Transcript, EntriesMatch, PortRecord, CollectedFinal, RtlIsa.Emitted;
    CollectorTakes(env, s, n, k);
    NextPulse(env, s, n);
  }

  lemma PortMatches(p: Rtl.RetirePort, i: nat, r: I.Record)
    requires RtlIsa.RetireAgrees(p, r)
    ensures RetireMatches(Retire(i, r), Retire(i, PortRecord(p)))
  {
  }

  lemma EntriesMatchSnoc(spec: seq<Entry>, rtl: seq<Entry>, e: Entry, a: Entry)
    requires (forall i :: 0 <= i < |spec| ==> spec[i].Retire?) && EntriesMatch(spec, rtl)
    requires e.Retire? && a.Retire? && RetireMatches(e, a)
    ensures EntriesMatch(spec + [e], rtl + [a])
  {
  }

  /** Either still collecting, or finished at an earlier edge at which the final
      record was already pending, so the last Timer tick has landed. */
  lemma {:induction false} CollectInvariant(env: I.Env, s: Rtl.System, n: nat) returns (j: nat)
    requires Rtl.IsReset(s)
    ensures !Collect(env, s, n).finished ==> Collecting(env, s, n, Collect(env, s, n))
    ensures Collect(env, s, n).finished ==>
              && j < n && Collecting(env, s, j, Collect(env, s, j)) && Collect(env, s, j).finalPending
              && Collect(env, s, n) == CollectorClock(Collect(env, s, j), R.RunClocks(env, s, j))
  {
    hide Rtl.Clock, I.Step, I.RecordFor, I.Run, Collecting, SpecEntries;
    if n == 0 {
      j := 0;
      CollectStart(env, s);
    } else {
      j := CollectInvariant(env, s, n - 1);
      var k := Collect(env, s, n - 1);
      if !k.finished {
        j := n - 1;
        if !Collect(env, s, n).finished {
          CollectorStep(env, s, n - 1, k);
        }
      }
    }
  }

  lemma CollectStart(env: I.Env, s: Rtl.System)
    requires Rtl.IsReset(s)
    ensures Collecting(env, s, 0, COLLECTING)
  {
    EmptyEntries(env, R.Start(s));
  }

  // ---- Agreement ----

  lemma {:induction false} Absorbs(env: I.Env, m0: I.Machine, i: nat, j: nat)
    requires i <= j && !I.Run(env, m0, i).Running?
    ensures I.Run(env, m0, j) == I.Run(env, m0, i)
  {
    hide I.Step;
    if i < j {
      Absorbs(env, m0, i, j - 1);
    }
  }

  /** A run stops at one instruction count only. */
  lemma SameStop(env: I.Env, m0: I.Machine, j: nat, k: nat)
    requires AllRetire(env, m0, j) && AllRetire(env, m0, k)
    requires I.Run(env, m0, j).Halted? || (I.Run(env, m0, j).Running? && I.Step(env, I.Run(env, m0, j).arch).Faulted?)
    requires I.Run(env, m0, k).Halted? || (I.Run(env, m0, k).Running? && I.Step(env, I.Run(env, m0, k).arch).Faulted?)
    ensures j == k
  {
    hide I.Step;
    if j < k {
      EarlierRunning(env, m0, j, k);
    } else if k < j {
      EarlierRunning(env, m0, k, j);
    }
  }

  /** The stopped simulator and the stopped RTL, at the same instruction count. */
  lemma StoppedTogether(c: S.Sim, env: I.Env, s: Rtl.System, j: nat, limit: nat)
    requires Rtl.IsReset(s) && SI.Denotes(c, env, R.Start(s)) && c.core.retired == 0
    requires R.RunClocks(env, s, j).cpu.state == Rtl.HALTED || R.RunClocks(env, s, j).cpu.state == Rtl.FAULT
    requires SI.StepN(c, limit).core.Stopped()
    ensures var t, u, r := SI.StepN(c, limit), R.RunClocks(env, s, j), R.Retired(env, s, j);
            && t.core.retired == r && AllRetire(env, R.Start(s), r)
            && RefEntries(c, limit) == SpecEntries(env, R.Start(s), r)
            && t.core.Stopped() && (t.core.micro == S.Fault <==> u.cpu.state == Rtl.FAULT)
            && RtlIsa.AtRest(u, R.Transcript(env, s, j), SI.ArchOf(t))
            && (t.core.micro == S.Fault ==> RtlIsa.FaultAgrees(u.cpu.fault, t.core.fault))
  {
    hide Rtl.Clock, I.Step, I.Run, R.RunClocks, R.Retired, R.Transcript, R.TotalCost, RtlIsa.InFlight, RtlIsa.AtRest,
      SI.StepN, RtlIsa.FaultAgrees, SI.ArchOf, SI.EnvOf, RefEntries, SpecEntries, Rtl.IsReset, AllRetire, I.ResetArch;
    var m0, r := R.Start(s), R.Retired(env, s, j);
    R.RunTracks(env, s, j);
    R.RetiredAllRetire(env, s, j);
    SI.RunDenotes(c, env, m0, limit);
    RefEntriesAreSpec(c, env, m0, limit);
    RunSucc(env, m0, r);
    var k := SI.StepN(c, limit).core.retired;
    RunSucc(env, m0, k);
    SI.FaultIsInert(env, I.Run(env, m0, r).arch);
    SameStop(env, m0, r, k);
  }

  lemma RunSucc(env: I.Env, m0: I.Machine, k: nat)
    ensures I.Run(env, m0, k + 1) == I.Next(env, I.Run(env, m0, k))
  {
  }

  /** The one documented disagreement: a fetch from the reserved window. */
  predicate ReservedFetch(f: I.FaultInfo) {
    f.code == I.UnmappedInstructionFetch && RtlIsa.InStm32Fetch(f.pc)
  }

  lemma FinalsMatch(t: S.Sim, u: Rtl.System, k: Collector)
    requires t.core.Stopped() && (t.core.micro == S.Fault <==> u.cpu.state == Rtl.FAULT)
    requires RtlIsa.AtRest(u, k.uart, SI.ArchOf(t)) && !u.cpu.retire.valid && k.index == t.core.retired
    requires t.core.micro == S.Fault ==> RtlIsa.FaultAgrees(u.cpu.fault, t.core.fault)
    ensures FinalMatches(RefFinal(t), CollectedFinal(k, u))
            <==> !(t.core.micro == S.Fault && ReservedFetch(t.core.fault))
  {
    hide SI.WordsOf;
    assert k.uart + [] == k.uart;
    var d := SI.ArchOf(t).dev;
    assert d == RtlIsa.DevicesOf(u.bus, false, k.uart);
  }

  /** Trace agreement: whenever both producers have finished, under whatever
      limits, both traces pass the structural checks, and the comparison accepts
      them except exactly when the run ended in a fetch from the reserved STM32
      window. */
  lemma TraceAgreement(rom: S.Bytes64K, ram: S.Bytes64K, gpioIn: Word, s: Rtl.System, n: nat, limit: nat)
    requires Rtl.IsReset(s) && s.bus.ram.words == SI.WordsOf(ram)
    requires Collect(I.Env(SI.WordsOf(rom), gpioIn), s, n).finished
    requires RefTrace(SI.ResetSim(rom, ram, gpioIn), limit).Some?
    ensures var env, c := I.Env(SI.WordsOf(rom), gpioIn), SI.ResetSim(rom, ram, gpioIn);
            && S.WellFormed(c.core)
            && var cpp, rtl, last := RefTrace(c, limit).value, Collect(env, s, n).trace, SI.StepN(c, limit).core;
            && WellFormedTrace(cpp) && WellFormedTrace(rtl)
            && (TracesMatch(cpp, rtl) <==> !(last.micro == S.Fault && ReservedFetch(last.fault)))
  {
    hide Rtl.Clock, I.Step, I.Run, R.RunClocks, R.Retired, R.Transcript, SI.StepN, SI.WordsOf, SI.ArchOf, SI.EnvOf,
      RefEntries, Collect, Rtl.IsReset, FinalMatches, RefFinal, CollectedFinal, RtlIsa.AtRest, RtlIsa.FaultAgrees,
      SpecEntries, RetireMatches, ReservedFetch, RtlIsa.Emitted, AllRetire;
    var env, c := I.Env(SI.WordsOf(rom), gpioIn), SI.ResetSim(rom, ram, gpioIn);
    SI.ResetDenotes(rom, ram, gpioIn);
    var j := CollectInvariant(env, s, n);
    var k, u := Collect(env, s, j), R.RunClocks(env, s, j);
    StoppedTogether(c, env, s, j, limit);
    FinalsMatch(SI.StepN(c, limit), u, k);
    var rtl := Collect(env, s, n).trace;
    assert k.trace + [] + [CollectedFinal(k, u)] == k.trace + [CollectedFinal(k, u)];
    assert FinalShape(RefFinal(SI.StepN(c, limit)), k.index) by { FinalShapes(SI.StepN(c, limit), u, k); }
    assert FinalShape(CollectedFinal(k, u), k.index) by { FinalShapes(SI.StepN(c, limit), u, k); }
    JoinTraces(SpecEntries(env, R.Start(s), k.index), k.trace, RefFinal(SI.StepN(c, limit)), CollectedFinal(k, u));
  }

  predicate FinalShape(e: Entry, n: nat) { e.Final? && e.retired == n }

  lemma FinalShapes(t: S.Sim, u: Rtl.System, k: Collector)
    requires k.index == t.core.retired
    ensures FinalShape(RefFinal(t), k.index) && FinalShape(CollectedFinal(k, u), k.index)
  {
  }

  lemma JoinTraces(spec: seq<Entry>, rtl: seq<Entry>, e: Entry, a: Entry)
    requires forall i :: 0 <= i < |spec| ==> spec[i].Retire? && spec[i].index == i
    requires EntriesMatch(spec, rtl) && FinalShape(e, |spec|) && FinalShape(a, |spec|)
    ensures WellFormedTrace(spec + [e]) && WellFormedTrace(rtl + [a])
    ensures TracesMatch(spec + [e], rtl + [a]) <==> FinalMatches(e, a)
  {
    var x, y := spec + [e], rtl + [a];
    assert x[|spec|] == e && y[|spec|] == a;
    assert forall i :: 0 <= i < |spec| ==> x[i] == spec[i] && y[i] == rtl[i];
  }

  predicate FinishedAt(env: I.Env, s: Rtl.System, n: nat) { Collect(env, s, n).finished }

  lemma {:induction false} FinishedStays(env: I.Env, s: Rtl.System, i: nat, n: nat)
    requires i <= n && Collect(env, s, i).finished
    ensures Collect(env, s, n) == Collect(env, s, i)
  {
    hide R.RunClocks;
    if i < n {
      FinishedStays(env, s, i, n - 1);
    }
  }

  /** If the simulator's run stops within k steps, the RTL collector has finished after 9k + 2 clocks. */
  lemma CollectorFinishes(rom: S.Bytes64K, ram: S.Bytes64K, gpioIn: Word, s: Rtl.System, k: nat, n: nat)
    requires Rtl.IsReset(s) && s.bus.ram.words == SI.WordsOf(ram) && n >= 9 * k + 2
    requires SI.StepN(SI.ResetSim(rom, ram, gpioIn), k).core.Stopped()
    ensures FinishedAt(I.Env(SI.WordsOf(rom), gpioIn), s, n)
  {
    hide Rtl.Clock, I.Step, I.Run, SI.StepN, SI.WordsOf, SI.ArchOf, SI.EnvOf, Rtl.IsReset, CollectedFinal, PortRecord,
      RtlIsa.Emitted, R.RunClocks;
    var env, c := I.Env(SI.WordsOf(rom), gpioIn), SI.ResetSim(rom, ram, gpioIn);
    SI.ResetDenotes(rom, ram, gpioIn);
    SI.RunDenotes(c, env, R.Start(s), k);
    var j := R.ReachesStop(env, s, k);
    NextPulse(env, s, j);
    assert FinishedAt(env, s, j + 2) by {
      assert Collect(env, s, j + 1) == CollectorClock(Collect(env, s, j), R.RunClocks(env, s, j));
      assert Collect(env, s, j + 2) == CollectorClock(Collect(env, s, j + 1), R.RunClocks(env, s, j + 1));
    }
    FinishedStays(env, s, j + 2, n);
  }

  /** If the RTL collector has finished after n clocks, the simulator's run stops
      within n / 5 + 1 steps. */
  lemma FinishedNeedsFewSteps(rom: S.Bytes64K, ram: S.Bytes64K, gpioIn: Word, s: Rtl.System, n: nat, limit: nat)
    requires Rtl.IsReset(s) && s.bus.ram.words == SI.WordsOf(ram) && limit > n / 5
    requires FinishedAt(I.Env(SI.WordsOf(rom), gpioIn), s, n)
    ensures var c := SI.ResetSim(rom, ram, gpioIn);
            S.WellFormed(c.core) && SI.StepN(c, limit).core.Stopped()
  {
    hide Rtl.Clock, I.Step, I.Run, SI.StepN, SI.WordsOf, SI.ArchOf, SI.EnvOf, Rtl.IsReset, R.RunClocks, R.Retired,
      R.Transcript, AllRetire, SpecEntries, EntriesMatch, RtlIsa.RetireAgrees, RtlIsa.InFlight, RtlIsa.AtRest,
      RtlIsa.FaultAgrees, R.TotalCost, I.ResetArch;
    var env, c := I.Env(SI.WordsOf(rom), gpioIn), SI.ResetSim(rom, ram, gpioIn);
    SI.ResetDenotes(rom, ram, gpioIn);
    var j := CollectInvariant(env, s, n);
    var r, m0 := R.Retired(env, s, j), R.Start(s);
    R.RunTracks(env, s, j);
    R.RetiredAllRetire(env, s, j);
    R.TotalCostGrows(env, m0, 0, r);
    RunSucc(env, m0, r);
    if I.Run(env, m0, r).Running? {
      Absorbs(env, m0, r + 1, limit);
    } else {
      Absorbs(env, m0, r, limit);
    }
    SI.RunDenotes(c, env, m0, limit);
  }

  // ---- The exception is real ----

  /** LUI r1, 0x2000; ADDI r1, r1, 0x400; JR r1. */
  function ReservedJumpProgram(): S.Bytes64K {
    [0x00, 0x20, 0x20, 0x34, 0x00, 0x04, 0x21, 0x24, 0x00, 0x00, 0x20, 0x58] + seq(65524, i => 0)
  }

  lemma ReservedJumpWords()
    ensures var w := SI.WordsOf(ReservedJumpProgram());
            w[0] == 0x3420_2000 && w[1] == 0x2421_0400 && w[2] == 0x5820_0000
  {
    hide SI.WordsOf;
    WordAt(ReservedJumpProgram(), 0);
    WordAt(ReservedJumpProgram(), 1);
    WordAt(ReservedJumpProgram(), 2);
  }

  lemma WordAt(bytes: S.Bytes64K, i: nat)
    requires i < 16384
    ensures SI.WordsOf(bytes)[i] == S.ReadWord(bytes, 4 * i)
  {
  }

  lemma DecodeReservedJump()
    ensures I.Decode(0x3420_2000) == I.Ok(I.Lui(1, 0x2000))
    ensures I.Decode(0x2421_0400) == I.Ok(I.Imm(I.Add, 1, 1, 0x400))
    ensures I.Decode(0x5820_0000) == I.Ok(I.Jr(1))
  {
  }

  lemma ReservedStep(env: I.Env, a: I.Arch)
    requires env.rom[0] == 0x3420_2000 && env.rom[1] == 0x2421_0400 && env.rom[2] == 0x5820_0000
    ensures a.pc == 0 ==>
            I.Step(env, a).Running? && I.Step(env, a).arch.pc == 4 && I.Step(env, a).arch.regs[1] == 0x2000_0000
    ensures a.pc == 4 && a.regs[1] == 0x2000_0000 ==>
              I.Step(env, a).Running? && I.Step(env, a).arch.pc == 8 && I.Step(env, a).arch.regs[1] == 0x2000_0400
    ensures a.pc == 8 && a.regs[1] == 0x2000_0400 ==> I.Step(env, a).Running? && I.Step(env, a).arch.pc == 0x2000_0400
    ensures a.pc == 0x2000_0400 ==> I.Step(env, a).Faulted? && ReservedFetch(I.Step(env, a).info)
  {
    hide I.Decode;
    DecodeReservedJump();
  }

  /** The three instructions jump into the window; the fourth fetch is the disagreement. */
  lemma ReservedJumpRuns(env: I.Env, a: I.Arch)
    requires env.rom[0] == 0x3420_2000 && env.rom[1] == 0x2421_0400 && env.rom[2] == 0x5820_0000 && a.pc == 0
    ensures I.Run(env, I.Running(a), 4).Faulted? && ReservedFetch(I.Run(env, I.Running(a), 4).info)
  {
    hide I.Step, I.Run, ReservedFetch;
    var m0 := I.Running(a);
    assert I.Run(env, m0, 0) == m0 by { RunZero(env, m0); }
    RunSucc(env, m0, 0);
    RunSucc(env, m0, 1);
    RunSucc(env, m0, 2);
    RunSucc(env, m0, 3);
    ReservedStep(env, a);
    ReservedStep(env, I.Run(env, m0, 1).arch);
    ReservedStep(env, I.Run(env, m0, 2).arch);
    ReservedStep(env, I.Run(env, m0, 3).arch);
  }

  lemma RunZero(env: I.Env, m0: I.Machine)
    ensures I.Run(env, m0, 0) == m0
  {
  }

  /** Both traces are complete and well formed, and the comparison rejects the pair. */
  predicate Rejected(rom: S.Bytes64K, ram: S.Bytes64K, gpioIn: Word, s: Rtl.System, n: nat, limit: nat) {
    var env, c := I.Env(SI.WordsOf(rom), gpioIn), SI.ResetSim(rom, ram, gpioIn);
    && FinishedAt(env, s, n) && S.WellFormed(c.core) && RefTrace(c, limit).Some?
    && WellFormedTrace(RefTrace(c, limit).value) && WellFormedTrace(Collect(env, s, n).trace)
    && !TracesMatch(RefTrace(c, limit).value, Collect(env, s, n).trace)
  }

  lemma FinishedTrace(c: S.Sim, limit: nat)
    requires S.WellFormed(c.core)
    ensures RefTrace(c, limit).Some? <==> SI.StepN(c, limit).core.Stopped()
  {
  }

  /** The concrete program that separates the two machines, in four steps and 38 clocks. */
  lemma ReservedJumpIsRejected(ram: S.Bytes64K, gpioIn: Word, s: Rtl.System)
    requires Rtl.IsReset(s) && s.bus.ram.words == SI.WordsOf(ram)
    ensures Rejected(ReservedJumpProgram(), ram, gpioIn, s, 38, 4)
  {
    hide Rtl.Clock, I.Step, I.Run, R.RunClocks, R.Retired, SI.StepN, SI.WordsOf, SI.EnvOf, RefTrace, TracesMatch,
      ReservedFetch, Collect, Rtl.IsReset, WellFormedTrace, ReservedJumpProgram;
    var rom := ReservedJumpProgram();
    var env, c, m0 := I.Env(SI.WordsOf(rom), gpioIn), SI.ResetSim(rom, ram, gpioIn), R.Start(s);
    SI.ResetDenotes(rom, ram, gpioIn);
    ReservedJumpWords();
    ReservedJumpRuns(env, m0.arch);
    SI.RunDenotes(c, env, m0, 4);
    CollectorFinishes(rom, ram, gpioIn, s, 4, 38);
    FinishedTrace(c, 4);
    TraceAgreement(rom, ram, gpioIn, s, 38, 4);
    assert Rejected(rom, ram, gpioIn, s, 38, 4);
  }

  // ---- What acceptance implies ----

  lemma MatchingRecordsApplyAlike(a: I.Arch, x: Entry, y: Entry)
    requires x.Retire? && y.Retire? && RetireMatches(x, y)
    ensures Apply(a, x.record) == Apply(a, y.record)
  {
    hide I.Store, I.Retire;
  }

  lemma {:induction false} MatchingEntriesSameArch(env1: I.Env, env2: I.Env, m0: I.Machine, k: nat)
    requires AllRetire(env1, m0, k) && AllRetire(env2, m0, k)
    requires forall i :: 0 <= i < k ==> RetireMatches(SpecEntries(env1, m0, k)[i], SpecEntries(env2, m0, k)[i])
    ensures I.Run(env1, m0, k).arch == I.Run(env2, m0, k).arch
  {
    hide I.Step, I.RecordFor, Apply, RetireMatches, SpecEntries, AllRetire;
    if k > 0 {
      SpecEntriesSnoc(env1, m0, k);
      SpecEntriesSnoc(env2, m0, k);
      var e1, e2 := SpecEntries(env1, m0, k), SpecEntries(env2, m0, k);
      var p1, p2 := SpecEntries(env1, m0, k - 1), SpecEntries(env2, m0, k - 1);
      forall i | 0 <= i < k - 1
        ensures RetireMatches(p1[i], p2[i])
      {
        assert RetireMatches(e1[i], e2[i]);
      }
      MatchingEntriesSameArch(env1, env2, m0, k - 1);
      RetiringStep(env1, m0, k);
      RetiringStep(env2, m0, k);
      assert RetireMatches(e1[k - 1], e2[k - 1]);
      MatchingRecordsApplyAlike(I.Run(env1, m0, k - 1).arch, e1[k - 1], e2[k - 1]);
    }
  }

  /** Two C++ traces the comparison accepts, of any two programs from the same
      reset RAM, end in the same registers, RAM and devices. */
  lemma AcceptedTracesSameState(rom1: S.Bytes64K, rom2: S.Bytes64K, ram: S.Bytes64K, g1: Word, g2: Word,
                                l1: nat, l2: nat)
    requires var c1, c2 := SI.ResetSim(rom1, ram, g1), SI.ResetSim(rom2, ram, g2);
             && RefTrace(c1, l1).Some? && RefTrace(c2, l2).Some?
             && WellFormedTrace(RefTrace(c1, l1).value) && WellFormedTrace(RefTrace(c2, l2).value)
             && TracesMatch(RefTrace(c1, l1).value, RefTrace(c2, l2).value)
    ensures SI.ArchOf(SI.StepN(SI.ResetSim(rom1, ram, g1), l1)) == SI.ArchOf(SI.StepN(SI.ResetSim(rom2, ram, g2), l2))
  {
    hide I.Step, I.RecordFor, SI.StepN, SI.WordsOf, SI.EnvOf, SI.ArchOf, RefEntries, SpecEntries, FinalMatches,
      RetireMatches, RefFinal, AllRetire, I.Run;
    var env1, env2 := I.Env(SI.WordsOf(rom1), g1), I.Env(SI.WordsOf(rom2), g2);
    var m0 := I.Running(I.ResetArch(SI.WordsOf(ram)));
    var k1 := RefEndsAt(rom1, ram, g1, l1);
    var k2 := RefEndsAt(rom2, ram, g2, l2);
    var t1, t2 := RefTrace(SI.ResetSim(rom1, ram, g1), l1).value, RefTrace(SI.ResetSim(rom2, ram, g2), l2).value;
    forall i | 0 <= i < k1
      ensures RetireMatches(SpecEntries(env1, m0, k1)[i], SpecEntries(env2, m0, k1)[i])
    {
      assert RetireMatches(t1[i], t2[i]);
    }
    MatchingEntriesSameArch(env1, env2, m0, k1);
  }

  /** A finished C++ trace is the architectural entries up to its stop, and the final state is theirs. */
  lemma RefEndsAt(rom: S.Bytes64K, ram: S.Bytes64K, gpioIn: Word, limit: nat) returns (k: nat)
    requires RefTrace(SI.ResetSim(rom, ram, gpioIn), limit).Some?
    ensures var env, m0 := I.Env(SI.WordsOf(rom), gpioIn), I.Running(I.ResetArch(SI.WordsOf(ram)));
            var c := SI.ResetSim(rom, ram, gpioIn);
            && AllRetire(env, m0, k) && k == SI.StepN(c, limit).core.retired
            && RefTrace(c, limit).value == SpecEntries(env, m0, k) + [RefFinal(SI.StepN(c, limit))]
            && SI.ArchOf(SI.StepN(c, limit)) == I.Run(env, m0, k).arch
  {
    hide I.Step, I.RecordFor, SI.StepN, SI.WordsOf, SI.EnvOf, SI.ArchOf, RefEntries, SpecEntries, RefFinal, AllRetire,
      I.Run;
    var env, m0 := I.Env(SI.WordsOf(rom), gpioIn), I.Running(I.ResetArch(SI.WordsOf(ram)));
    var c := SI.ResetSim(rom, ram, gpioIn);
    SI.ResetDenotes(rom, ram, gpioIn);
    SI.RunDenotes(c, env, m0, limit);
    RefEntriesAreSpec(c, env, m0, limit);
    k := SI.StepN(c, limit).core.retired;
    RunSucc(env, m0, k);
    SI.FaultIsInert(env, I.Run(env, m0, k).arch);
  }

  // ---- What a finished C++ trace determines ----

  function RecordsOf(t: seq<Entry>): (r: seq<I.Record>)
    requires WellFormedTrace(t)
  {
    seq(|t| - 1, i requires 0 <= i < |t| - 1 => t[i].record)
  }

  /** A finished trace is well formed, and its records are those of the instructions it ran. */
  lemma FinishedRecords(rom: S.Bytes64K, ram: S.Bytes64K, gpioIn: Word, limit: nat) returns (k: nat)
    requires RefTrace(SI.ResetSim(rom, ram, gpioIn), limit).Some?
    ensures var env, m0 := I.Env(SI.WordsOf(rom), gpioIn), I.Running(I.ResetArch(SI.WordsOf(ram)));
            var c := SI.ResetSim(rom, ram, gpioIn);
            && AllRetire(env, m0, k) && WellFormedTrace(RefTrace(c, limit).value)
            && RecordsOf(RefTrace(c, limit).value) == Records(env, m0, k)
            && SI.ArchOf(SI.StepN(c, limit)) == I.Run(env, m0, k).arch
  {
    hide I.Step, I.RecordFor, SI.StepN, SI.WordsOf, SI.EnvOf, SI.ArchOf, RefFinal, AllRetire, I.Run, RefTrace, Records;
    k := RefEndsAt(rom, ram, gpioIn, limit);
    var env, m0 := I.Env(SI.WordsOf(rom), gpioIn), I.Running(I.ResetArch(SI.WordsOf(ram)));
    var c := SI.ResetSim(rom, ram, gpioIn);
    var spec := SpecEntries(env, m0, k);
    var t := RefTrace(c, limit).value;
    FinalShapeOf(SI.StepN(c, limit));
    assert t == spec + [RefFinal(SI.StepN(c, limit))];
    assert forall i :: 0 <= i < k ==> t[i] == spec[i];
    assert RecordsOf(t) == Records(env, m0, k);
  }

  lemma FinalShapeOf(t: S.Sim)
    ensures FinalShape(RefFinal(t), t.core.retired)
  {
  }

  /** Trace replay: applying a finished trace's register changes and stores from
      reset, with a tick per record, reconstructs the final PC, registers, RAM,
      Timer, transcript and latches; and consecutive records chain. */
  lemma TraceReplays(rom: S.Bytes64K, ram: S.Bytes64K, gpioIn: Word, limit: nat)
    requires RefTrace(SI.ResetSim(rom, ram, gpioIn), limit).Some?
    ensures var t := RefTrace(SI.ResetSim(rom, ram, gpioIn), limit).value;
            && WellFormedTrace(t)
            && ApplyAll(I.ResetArch(SI.WordsOf(ram)), RecordsOf(t)) ==
                  SI.ArchOf(SI.StepN(SI.ResetSim(rom, ram, gpioIn), limit))
            && forall i :: 0 <= i < |t| - 2 ==> t[i].record.nextPc == t[i + 1].record.pc
  {
    hide I.Step, I.RecordFor, SI.StepN, SI.WordsOf, SI.EnvOf, SI.ArchOf, AllRetire, I.Run, Records, RefTrace,
      I.ResetArch, ApplyAll;
    var env, m0 := I.Env(SI.WordsOf(rom), gpioIn), I.Running(I.ResetArch(SI.WordsOf(ram)));
    var k := FinishedRecords(rom, ram, gpioIn, limit);
    var t := RefTrace(SI.ResetSim(rom, ram, gpioIn), limit).value;
    var rs := RecordsOf(t);
    ReplayReconstructs(env, m0, k);
    forall i | 0 <= i < |t| - 2
      ensures t[i].record.nextPc == t[i + 1].record.pc
    {
      RecordsChain(env, m0, k, i);
      assert rs[i] == t[i].record && rs[i + 1] == t[i + 1].record;
    }
  }

  /** Timer conservation in the simulator, over its own finished trace. */
  lemma SimulatorTimer(rom: S.Bytes64K, ram: S.Bytes64K, gpioIn: Word, limit: nat, j: nat)
    requires var out := RefTrace(SI.ResetSim(rom, ram, gpioIn), limit);
             && out.Some? && WellFormedTrace(out.value) && j < |out.value| - 1
             && var rs := RecordsOf(out.value);
             && (j == 0 || StoresTo(rs[j], TIMER_COUNTER))
             && forall i :: j < i < |rs| ==> !StoresTo(rs[i], TIMER_COUNTER)
    ensures var rs := RecordsOf(RefTrace(SI.ResetSim(rom, ram, gpioIn), limit).value);
            var base := if StoresTo(rs[j], TIMER_COUNTER) then rs[j].memValue else 0;
            SI.StepN(SI.ResetSim(rom, ram, gpioIn), limit).bus.timer.counter ==
            Wrap(base + EnabledRetirements(rs, j, |rs|))
  {
    hide I.Step, I.RecordFor, SI.StepN, SI.WordsOf, SI.EnvOf, AllRetire, I.Run, Records, RefTrace, StoresTo,
      EnabledRetirements, Wrap;
    var env, m0 := I.Env(SI.WordsOf(rom), gpioIn), I.Running(I.ResetArch(SI.WordsOf(ram)));
    var k := FinishedRecords(rom, ram, gpioIn, limit);
    TimerConservation(env, m0, k, j);
  }
}
