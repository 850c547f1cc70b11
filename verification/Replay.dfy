/** What a retirement trace determines: replaying its register changes and
    stores reconstructs the whole machine, and the Timer is a count over it. */
module Replay {
  import opened Words
  import opened Isa

  /** The first k instructions all retire; only the last may halt. */
  ghost predicate AllRetire(env: Env, m0: Machine, k: nat) {
    !Run(env, m0, k).Faulted? && (k > 0 ==> Run(env, m0, k - 1).Running?)
  }

  lemma AllButLast(env: Env, m0: Machine, k: nat)
    requires k > 0 && AllRetire(env, m0, k)
    ensures AllRetire(env, m0, k - 1) && Run(env, m0, k - 1).Running? && !Step(env, Run(env, m0, k - 1).arch).Faulted?
  {
    hide Step;
    if k > 1 {
      assert Run(env, m0, k - 1) == Next(env, Run(env, m0, k - 2));
    }
  }

  lemma {:induction false} EarlierRunning(env: Env, m0: Machine, j: nat, k: nat)
    requires j < k && AllRetire(env, m0, k)
    ensures Run(env, m0, j).Running? && !Step(env, Run(env, m0, j).arch).Faulted? && AllRetire(env, m0, j + 1)
    decreases k - j
  {
    hide Step;
    AllButLast(env, m0, k);
    if j + 1 < k {
      EarlierRunning(env, m0, j, k - 1);
    }
  }

  /** The records of the first k instructions. */
  ghost function Records(env: Env, m0: Machine, k: nat): (r: seq<Record>)
    requires AllRetire(env, m0, k)
    ensures |r| == k
  {
    if k == 0 then [] else
      AllButLast(env, m0, k);
      Records(env, m0, k - 1) + [RecordFor(env, Run(env, m0, k - 1).arch)]
  }

  /** Apply one record: its register change, its store through the bus, one instruction tick. */
  function Apply(a: Arch, r: Record): Arch {
    var regs := if r.regWrite then a.regs[r.rd := r.regValue] else a.regs;
    var dev := if r.memWrite && Store(a.dev, r.memAddr, r.memValue).Written?
               then Store(a.dev, r.memAddr, r.memValue).devices else a.dev;
    Retire(r.nextPc, regs, dev)
  }

  function ApplyAll(a: Arch, rs: seq<Record>): Arch {
    if rs == [] then a else Apply(ApplyAll(a, rs[..|rs| - 1]), rs[|rs| - 1])
  }

  lemma RecordDeterminesStep(env: Env, a: Arch)
    requires !Step(env, a).Faulted?
    ensures Apply(a, RecordFor(env, a)) == Step(env, a).arch
    ensures RecordFor(env, a).pc == a.pc && RecordFor(env, a).nextPc == Step(env, a).arch.pc
    ensures RecordFor(env, a).memWrite ==> Store(a.dev, RecordFor(env, a).memAddr, RecordFor(env, a).memValue).Written?
  {
    hide Decode, Fetch, Load, Store, Alu, Wrap;
    var i := Decode(Fetch(env, a.pc).value).instr;
    if i.Lw? || IsComputation(i) {
      var e := if i.Lw? then Effect(Wrap(a.pc + 4), i.rd, Load(env, a.dev, EffectiveAddress(a, i.base, i.offset)).value)
               else Compute(a, i);
      UnchangedWrite(a.regs, e.rd, e.value);
    }
  }

  lemma UnchangedWrite(regs: Registers, rd: RegIndex, v: Word)
    ensures regs[rd] == v ==> regs[rd := v] == regs
  {
  }

  lemma RetiringStep(env: Env, m0: Machine, k: nat)
    requires AllRetire(env, m0, k) && k > 0
    ensures AllRetire(env, m0, k - 1) && Run(env, m0, k - 1).Running? && !Step(env, Run(env, m0, k - 1).arch).Faulted?
    ensures Run(env, m0, k).arch == Apply(Run(env, m0, k - 1).arch, RecordFor(env, Run(env, m0, k - 1).arch))
    ensures Records(env, m0, k)[..k - 1] == Records(env, m0, k - 1)
    ensures Records(env, m0, k)[k - 1] == RecordFor(env, Run(env, m0, k - 1).arch)
  {
    hide Step, RecordFor, Apply;
    AllButLast(env, m0, k);
    RecordDeterminesStep(env, Run(env, m0, k - 1).arch);
  }

  /** Trace replay: from reset, the trace alone reconstructs PC, registers, RAM,
      Timer, UART transcript and the GPIO and Debug latches. */
  lemma {:induction false} ReplayReconstructs(env: Env, m0: Machine, k: nat)
    requires AllRetire(env, m0, k)
    ensures ApplyAll(m0.arch, Records(env, m0, k)) == Run(env, m0, k).arch
  {
    hide Step, RecordFor, Apply;
    if k > 0 {
      RetiringStep(env, m0, k);
      ReplayReconstructs(env, m0, k - 1);
    }
  }

  /** Consecutive records chain next_pc to pc. */
  lemma RecordsChain(env: Env, m0: Machine, k: nat, i: nat)
    requires AllRetire(env, m0, k) && i + 1 < k
    ensures Records(env, m0, k)[i].nextPc == Records(env, m0, k)[i + 1].pc
  {
    hide Step, RecordFor;
    RecordAt(env, m0, k, i);
    RecordAt(env, m0, k, i + 1);
    RecordDeterminesStep(env, Run(env, m0, i).arch);
    RecordDeterminesStep(env, Run(env, m0, i + 1).arch);
    assert Run(env, m0, i + 1) == Next(env, Run(env, m0, i));
  }

  lemma {:induction false} RecordAt(env: Env, m0: Machine, k: nat, i: nat)
    requires AllRetire(env, m0, k) && i < k
    ensures Run(env, m0, i).Running? && !Step(env, Run(env, m0, i).arch).Faulted?
    ensures Records(env, m0, k)[i] == RecordFor(env, Run(env, m0, i).arch)
  {
    hide Step, RecordFor;
    AllButLast(env, m0, k);
    if i < k - 1 {
      RecordAt(env, m0, k - 1, i);
    }
  }

  // ---- Timer conservation ----

  const TIMER_COUNTER: Word := 0x2000_0100
  const TIMER_CONTROL: Word := 0x2000_0108

  predicate StoresTo(r: Record, addr: Word) { r.memWrite && r.memAddr == addr }

  /** Whether the Timer is enabled after the first n records: the last CONTROL store decides. */
  function EnabledAfter(rs: seq<Record>, n: nat): bool
    requires n <= |rs|
  {
    if n == 0 then false
    else if StoresTo(rs[n - 1], TIMER_CONTROL) then rs[n - 1].memValue % 2 == 1
    else EnabledAfter(rs, n - 1)
  }

  /** Retirements j up to k after which the Timer is enabled. */
  function EnabledRetirements(rs: seq<Record>, j: nat, k: nat): nat
    requires j <= k <= |rs|
  {
    if j == k then 0 else EnabledRetirements(rs, j, k - 1) + (if EnabledAfter(rs, k) then 1 else 0)
  }

  lemma ApplyTimer(a: Arch, r: Record)
    requires r.memWrite ==> Store(a.dev, r.memAddr, r.memValue).Written?
    ensures var t := Apply(a, r).dev.timer;
            && t.enabled == (if StoresTo(r, TIMER_CONTROL) then r.memValue % 2 == 1 else a.dev.timer.enabled)
            && t.counter == Wrap((if StoresTo(r, TIMER_COUNTER) then r.memValue else a.dev.timer.counter)
                                 + (if t.enabled then 1 else 0))
  {
  }

  lemma {:induction false} EnabledTracks(env: Env, m0: Machine, k: nat)
    requires AllRetire(env, m0, k) && !m0.arch.dev.timer.enabled
    ensures Run(env, m0, k).arch.dev.timer.enabled == EnabledAfter(Records(env, m0, k), k)
  {
    hide Step, RecordFor, Apply;
    if k > 0 {
      RetiringStep(env, m0, k);
      EnabledTracks(env, m0, k - 1);
      var a := Run(env, m0, k - 1).arch;
      RecordDeterminesStep(env, a);
      ApplyTimer(a, RecordFor(env, a));
      EnabledPrefix(Records(env, m0, k - 1), Records(env, m0, k), k - 1);
    }
  }

  lemma {:induction false} EnabledPrefix(p: seq<Record>, rs: seq<Record>, n: nat)
    requires n <= |p| && p <= rs
    ensures EnabledAfter(p, n) == EnabledAfter(rs, n)
  {
    if n > 0 {
      EnabledPrefix(p, rs, n - 1);
    }
  }

  lemma {:induction false} RetirementsPrefix(p: seq<Record>, rs: seq<Record>, j: nat, k: nat)
    requires j <= k <= |p| && p <= rs
    ensures EnabledRetirements(p, j, k) == EnabledRetirements(rs, j, k)
  {
    if j < k {
      RetirementsPrefix(p, rs, j, k - 1);
      EnabledPrefix(p, rs, k);
    }
  }

  /** Timer conservation: COUNTER is the value last stored to it at record j (or
      reset zero, from j = 0) plus, modulo 2^32, the retirements from j on after
      which the Timer is enabled. The storing and the enabling instruction
      themselves count; a disabling store does not. */
  lemma {:induction false} TimerConservation(env: Env, m0: Machine, k: nat, j: nat)
    requires AllRetire(env, m0, k) && m0.arch.dev.timer == Timer(0, 0, false) && j < k
    requires j == 0 || StoresTo(Records(env, m0, k)[j], TIMER_COUNTER)
    requires forall i :: j < i < k ==> !StoresTo(Records(env, m0, k)[i], TIMER_COUNTER)
    ensures var rs := Records(env, m0, k);
            var base := if StoresTo(rs[j], TIMER_COUNTER) then rs[j].memValue else 0;
            Run(env, m0, k).arch.dev.timer.counter == Wrap(base + EnabledRetirements(rs, j, k))
  {
    hide Step, RecordFor, Apply;
    RetiringStep(env, m0, k);
    EnabledTracks(env, m0, k);
    var rs, p, a := Records(env, m0, k), Records(env, m0, k - 1), Run(env, m0, k - 1).arch;
    RecordDeterminesStep(env, a);
    ApplyTimer(a, RecordFor(env, a));
    if j == k - 1 {
      assert EnabledRetirements(rs, j, j) == 0;
    } else {
      forall i | j <= i < k - 1
        ensures p[i] == rs[i]
      {
      }
      TimerConservation(env, m0, k - 1, j);
      RetirementsPrefix(p, rs, j, k - 1);
      var base := if StoresTo(rs[j], TIMER_COUNTER) then rs[j].memValue else 0;
      WrapAdd(base + EnabledRetirements(rs, j, k - 1), if EnabledAfter(rs, k) then 1 else 0);
    }
  }
}
