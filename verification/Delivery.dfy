/** Everything a program transmits arrives: when the platform's FIFO cannot
    overflow, and when the wire has carried the last byte. */
module Delivery {
  import opened Words
  import I = Isa
  import opened Rtl
  import RtlIsa
  import opened Serial
  import opened Wire
  import opened Throughput
  import opened Platform
  import R = Refinement
  import S = Simulator
  import SI = SimulatorIsa
  import Trace

  predicate StoppedAt(env: I.Env, s: System, n: nat) { R.HaltedAt(env, s, n) || R.FaultedAt(env, s, n) }

  lemma {:induction false} StaysStopped(env: I.Env, s: System, i: nat, n: nat)
    requires IsReset(s) && i <= n && StoppedAt(env, s, i)
    ensures StoppedAt(env, s, n) && R.RunClocks(env, s, n).cpu.state == R.RunClocks(env, s, i).cpu.state
  {
    hide Clock, R.RunClocks, IsReset, I.Run, I.Step, RtlIsa.RetireAgrees, R.Retired;
    if i < n {
      StaysStopped(env, s, i, n - 1);
      Trace.NextPulse(env, s, n - 1);
    }
  }

  lemma NoEventAtRest(env: I.Env, s: System, n: nat)
    requires IsReset(s) && StoppedAt(env, s, n)
    ensures EventsOf(env, s)(n).None?
  {
    hide Clock, R.RunClocks, IsReset;
    R.RunHandshake(env, s, n);
  }

  /** A stopped CPU offers no more events. */
  lemma QuietWhenStopped(env: I.Env, s: System, i: nat, n: nat)
    requires IsReset(s) && StoppedAt(env, s, i)
    ensures Quiet(EventsOf(env, s), i, n)
  {
    hide Clock, R.RunClocks, IsReset, EventsOf, StoppedAt;
    forall j: nat | i <= j < n
      ensures EventsOf(env, s)(j).None?
    {
      StaysStopped(env, s, i, j);
      NoEventAtRest(env, s, j);
    }
  }

  /** The CPU's events are eight clocks apart. */
  lemma EventsSpaced(env: I.Env, s: System)
    requires IsReset(s)
    ensures Spaced(EventsOf(env, s))
  {
    hide R.RunClocks, IsReset;
    var ev := EventsOf(env, s);
    forall i: nat, j: nat | i < j && ev(i).Some? && ev(j).Some?
      ensures i + 8 <= j
    {
      R.EventSpacing(env, s, i, j);
    }
  }

  ghost predicate TransmitsAtMost(rom: S.Bytes64K, ram: S.Bytes64K, gpioIn: Word, total: nat) {
    var cpp := SI.ResetSim(rom, ram, gpioIn);
    S.WellFormed(cpp.core) && forall k: nat :: |SI.StepN(cpp, k).bus.tx| <= total
  }

  /** A program, terminating or not, that transmits at most `total` bytes never
      overflows a FIFO that can absorb them, for instance one of that depth. */
  lemma NeverOverflows(rom: S.Bytes64K, ram: S.Bytes64K, gpioIn: Word, p: Platform, c: nat, total: nat, n: nat)
    requires IsResetPlatform(p, |p.path.fifo.storage|, c) && p.system.bus.ram.words == SI.WordsOf(ram)
    requires TransmitsAtMost(rom, ram, gpioIn, total) && Absorbed(total, |p.path.fifo.storage|, c)
    ensures p.path.Valid(c) && !PlatformRun(I.Env(SI.WordsOf(rom), gpioIn), c, p, n).path.fifo.overflow
  {
    assert p.path.Valid(c);
    hide PlatformRun, PathRun, R.RunClocks, R.Retired, R.Transcript, SI.StepN, SI.WordsOf, SI.ResetSim, IsReset,
      EventsOf, Offered, Path.Valid, Spaced, Absorbed;
    var env := I.Env(SI.WordsOf(rom), gpioIn);
    var ev := EventsOf(env, p.system);
    EventsSpaced(env, p.system);
    forall t: nat
      ensures |Offered(ev, t)| <= total
    {
      OfferedIsTranscript(env, p.system, t);
      TranscriptIsSimulators(rom, ram, gpioIn, p.system, t);
    }
    SpacedNoOverflow(p.path, c, ev, total, n);
    PlatformSplits(env, c, p, n);
  }

  // ---- Terminating programs ----

  /** Once the RTL has stopped, what it has emitted is the simulator's final transcript. */
  lemma FinalTranscript(rom: S.Bytes64K, ram: S.Bytes64K, gpioIn: Word, s: System, k: nat, n: nat)
    requires IsReset(s) && s.bus.ram.words == SI.WordsOf(ram)
    requires SI.StepN(SI.ResetSim(rom, ram, gpioIn), k).core.Stopped() && n >= 9 * k
    ensures var env, cpp := I.Env(SI.WordsOf(rom), gpioIn), SI.ResetSim(rom, ram, gpioIn);
            && S.WellFormed(cpp.core) && StoppedAt(env, s, n)
            && R.Transcript(env, s, n) == SI.StepN(cpp, k).bus.tx
  {
    hide Clock, I.Step, I.Run, R.RunClocks, R.Retired, R.Transcript, SI.StepN, SI.WordsOf, SI.EnvOf, IsReset,
      RtlIsa.AtRest, RtlIsa.InFlight, RtlIsa.FaultAgrees, Trace.RefEntries, Trace.SpecEntries;
    var env, cpp := I.Env(SI.WordsOf(rom), gpioIn), SI.ResetSim(rom, ram, gpioIn);
    SI.ResetDenotes(rom, ram, gpioIn);
    SI.RunDenotes(cpp, env, R.Start(s), k);
    var j := R.ReachesStop(env, s, k);
    StaysStopped(env, s, j, n);
    Trace.StoppedTogether(cpp, env, s, n, k);
    RtlIsa.CollectedBytes(env, R.RunClocks(env, s, n), R.Transcript(env, s, n), SI.ArchOf(SI.StepN(cpp, k)));
  }

  lemma {:induction false} TranscriptGrows(env: I.Env, s: System, i: nat, n: nat)
    requires i <= n
    ensures |R.Transcript(env, s, i)| <= |R.Transcript(env, s, n)|
  {
    hide R.RunClocks;
    if i < n {
      TranscriptGrows(env, s, i, n - 1);
    }
  }

  /** The clock by which a program of at most k instructions has stopped and its
      last byte has left the wire, at any depth and divider. */
  function DeliveryClock(k: nat, depth: nat, c: nat): nat { 9 * k + Times(depth, c) + 10 * c }

  /** Delivery: a program that stops within k instructions has, from
      DeliveryClock on, stopped the CPU, emptied the FIFO and idled the serializer.
      The bytes decoded from the wire are then exactly the simulator's final
      transcript unless an event was dropped, and none is dropped when the
      transcript fits what the FIFO can absorb. */
  lemma WireDelivers(rom: S.Bytes64K, ram: S.Bytes64K, gpioIn: Word, p: Platform, c: nat, k: nat, n: nat)
    requires IsResetPlatform(p, |p.path.fifo.storage|, c) && c >= 2 && p.system.bus.ram.words == SI.WordsOf(ram)
    requires SI.StepN(SI.ResetSim(rom, ram, gpioIn), k).core.Stopped()
    requires n >= DeliveryClock(k, |p.path.fifo.storage|, c)
    ensures p.path.Valid(c)
    ensures var env, cpp := I.Env(SI.WordsOf(rom), gpioIn), SI.ResetSim(rom, ram, gpioIn);
            var q, heard := PlatformRun(env, c, p, n), Heard(env, c, p, n);
            && S.WellFormed(cpp.core) && StoppedAt(env, p.system, n)
            && q.path.fifo.count == 0 && Ready(q.path.phy)
            && var tx := SI.StepN(cpp, k).bus.tx;
            && heard.phase != Failed
            && (!q.path.fifo.overflow ==> heard.received == tx)
            && (Absorbed(|tx|, |p.path.fifo.storage|, c) ==> !q.path.fifo.overflow)
  {
    assert p.path.Valid(c);
    hide Clock, PlatformRun, Heard, PathRun, Listen, R.RunClocks, R.Retired, R.Transcript, SI.StepN, SI.WordsOf,
      IsReset, EventsOf, Offered, Path.Valid, Fifo.Valid, Phy.Valid, Times, Absorbed, StoppedAt, Quiet, Spaced;
    var env, cpp := I.Env(SI.WordsOf(rom), gpioIn), SI.ResetSim(rom, ram, gpioIn);
    var ev, u := EventsOf(env, p.system), 9 * k;
    PlatformSplits(env, c, p, n);
    FinalTranscript(rom, ram, gpioIn, p.system, k, u);
    FinalTranscript(rom, ram, gpioIn, p.system, k, n);
    QuietWhenStopped(env, p.system, u, n);
    Drains(p.path, c, ev, u, n);
    DecodedIsPrefix(p.path, c, ev, n);
    OfferedIsTranscript(env, p.system, n);
    var tx := SI.StepN(cpp, k).bus.tx;
    if Absorbed(|tx|, |p.path.fifo.storage|, c) {
      EventsSpaced(env, p.system);
      forall t: nat
        ensures |Offered(ev, t)| <= |tx|
      {
        OfferedAtMost(rom, ram, gpioIn, p.system, k, t);
      }
      SpacedNoOverflow(p.path, c, ev, |tx|, n);
    }
  }

  lemma OfferedAtMost(rom: S.Bytes64K, ram: S.Bytes64K, gpioIn: Word, s: System, k: nat, t: nat)
    requires IsReset(s) && s.bus.ram.words == SI.WordsOf(ram)
    requires SI.StepN(SI.ResetSim(rom, ram, gpioIn), k).core.Stopped()
    ensures var env, cpp := I.Env(SI.WordsOf(rom), gpioIn), SI.ResetSim(rom, ram, gpioIn);
            S.WellFormed(cpp.core) && |Offered(EventsOf(env, s), t)| <= |SI.StepN(cpp, k).bus.tx|
  {
    hide Clock, R.RunClocks, R.Transcript, SI.StepN, SI.WordsOf, IsReset, EventsOf, Offered, StoppedAt;
    var env := I.Env(SI.WordsOf(rom), gpioIn);
    OfferedIsTranscript(env, s, t);
    TranscriptGrows(env, s, t, 9 * k + t);
    FinalTranscript(rom, ram, gpioIn, s, k, 9 * k + t);
  }
}
