# Mini32: two machines, one meaning

Mini32 is a 32-bit RISC computer implemented twice, as a C++ golden model and as
synthesizable SystemVerilog, with a Python assembler and disassembler and a physical
UART transmit path. This project models all of them in Dafny and proves how they fit
together.

The independent reference is `Isa`: the instruction table of docs/isa.md and the address
map of docs/memory-map.md as a one-shot interpreter over architectural state, with no
microstate, latch, handshake or control signal. Everything else is measured against it.

- **Simulator** (`Simulator`, `SimulatorIsa`, `SimulatorObjects`). The decoder, control
  table, byte-addressed memories, bus and tick function as values; the same as classes
  that update their fields in place. One `step()` is one instruction of the interpreter,
  from any microstate and for every 32-bit word, within five ticks.
- **RTL** (`Rtl`, `RtlIsa`, `RtlObjects`). Every clocked process as a function from the
  registers before an edge to the registers after it, and as an object with a `PosEdge`
  method. An abstraction relation accounts for the bus request in flight, a store's write
  that shows before its instruction retires, and the Timer tick that is one clock late.
- **Refinement** (`Refinement`, `Replay`, `Trace`, `Differential`). For every image,
  initial RAM and number of clocks, the RTL after its k-th retirement is the simulator
  after k steps, and the clock count is an exact function of the instructions. The two
  trace producers agree, the comparison accepts them, and the one exception is exact.
- **Serial path** (`Serial`, `Wire`, `Throughput`, `SerialObjects`, `Platform`, `Delivery`,
  `PlatformObjects`). A FIFO of any depth and a serializer at any divider, decoded by the
  testbench's receiver; the bytes on the wire are the simulator's transcript, all of them
  by a stated clock.
- **Toolchain** (`Text`, `Assembler`, `Disassembler`, `Linking`, `Syntax`, `Image`, `Build`).
  Assembling a disassembly returns the image, through printed and re-parsed text; every
  mnemonic, by name, means its documented instruction; labels mean what the CPU executes
  once the assembled bytes are in ROM; the byte and word images are one memory.

## Conventions

Words are integers below 2^32 with explicit wrap-around. A shift by a constant is a
division or multiplication, a low mask a remainder, and an OR of disjoint fields a sum;
the ALU's AND, OR and XOR are rows of gates and its shifts move one place at a time, proved
against the bits of the result and against powers of two. The GPIO input pins
and the ROM are fixed for a run; RAM at power-up is arbitrary and equal in both machines.
The memory outputs and physical register 0, which the RTL reset does not touch, are
arbitrary too.

## Where the code and its documentation disagree

- docs/memory-map.md calls the STM32 window "currently unmapped". The RTL reports an
  aligned instruction fetch from it as non-executable (rtl/bus/system_bus.sv:100-101), the
  simulator as unmapped (simulator/src/bus.cpp:85). Both fault with otherwise equal
  records. `Trace.TraceAgreement` shows that this is the only case in which the
  comparison rejects a pair of traces, and `Trace.ReservedJumpIsRejected` gives a
  three-instruction program for which it does.
- The testbench receiver samples the level before the clock edge it waited for, so its
  first sample is one period earlier than the bit centre. At two or more clocks per bit
  it reads every frame; at one clock per bit it reads none
  (`Wire.FrameReadIffTwoClocks`), although the serializer accepts a divider of one.

## Model

| member | source | states |
|---|---|---|
| `SimulatorIsa.SignExtensions` | simulator/src/decoder.cpp:207-231 | the OR-with-ones extensions and the displacements are the signed field modulo 2^32 |
| `SimulatorIsa.DecoderAgrees` | simulator/src/decoder.cpp:73-205 | the decoder accepts exactly the documented encodings, tells illegal from malformed as documented, always has control signals for what it accepts, and signals plus used operands implement the instruction |
| `SimulatorIsa.AluAgrees` | simulator/src/alu.cpp:8-38 | every operation of the C++ ALU is the documented one: gate rows against the bits of the result, place-by-place shifts against scaling by powers of two, the sign-bit comparison against true signed order |
| `Isa.AluBits` | docs/isa.md:34-36 | bit i of AND, OR and XOR is the conjunction, disjunction and inequality of bits i of the operands |
| `Isa.BitwiseAgrees` | docs/isa.md:34-39 | the operators both machines use compute those words, and their shifts multiply modulo 2^32 and divide by 2^(rs2 mod 32) |
| `SimulatorIsa.DeviceGuards` | simulator/src/timer.cpp:5-32 | every memory and device refuses a misaligned address first, then one outside its own window, and grants the rest |
| `SimulatorIsa.ByteWriteIsWordWrite` | simulator/src/ram.cpp:28-41 | four byte stores change exactly one word of the little-endian word view |
| `SimulatorIsa.BusReadAgrees` | simulator/src/bus.cpp:22-86 | reads and fetches, with their faults, are those of the address map |
| `SimulatorIsa.BusWriteAgrees` | simulator/src/bus.cpp:88-117 | a write changes exactly the addressed device word, or faults and changes nothing |
| `SimulatorIsa.TickInFlight` | simulator/src/cpu_core.cpp:38-158 | each tick either moves the same instruction to a later microstate with nothing architectural changed, or finishes it with the interpreter's result |
| `SimulatorIsa.TickProgress` | simulator/src/cpu_core.cpp:38-158 | from every well-formed microstate a tick stops, retires or lowers the rank, and the optionals stay present where they are dereferenced |
| `SimulatorIsa.StepWithinFiveTicks` | simulator/src/cpu_core.cpp:183-197 | step() is between one and five ticks, fewer from a later microstate |
| `SimulatorIsa.StepIsInstruction` | simulator/src/cpu_core.cpp:183-197 | step() from any microstate equals the one-shot interpreter, leaves ROM and pins alone and never raises UnsupportedInstruction |
| `SimulatorIsa.StepDenotes` | simulator/src/cpu_core.cpp:183-197 | step() on a running, halted or faulted core is one step of the documented machine, which absorbs once stopped; the count moves only on retirement |
| `SimulatorIsa.RunDenotes` | simulator/src/cpu_core.cpp:183-197 | any number of step() calls is that many instructions |
| `SimulatorIsa.StepIsPrecise` | simulator/src/cpu_core.cpp:199-205 | a faulting step leaves registers, PC, memory, devices, transcript, Timer and count unchanged; a retiring one adds one and changes at most one register, never r0 |
| `SimulatorIsa.ResetDenotes` | simulator/src/cpu_core.cpp:20-36 | the reset core with zeroed devices is the documented reset state |
| `SimulatorObjects.RegisterFile.Read` | simulator/src/register_file.cpp:12-15 | r0 reads as zero, others as stored |
| `SimulatorObjects.RegisterFile.Write` | simulator/src/register_file.cpp:17-22 | the new array is the old one with one register changed, or unchanged for r0 |
| `SimulatorObjects.ByteMemory.LoadWord` | simulator/src/rom.cpp:40-46 | the little-endian word at an offset |
| `SimulatorObjects.ByteMemory.StoreWord` | simulator/src/ram.cpp:35-39 | the in-place byte stores equal the word-write function |
| `SimulatorObjects.ByteMemory.LoadBytes` | simulator/src/rom.cpp:9-16 | the copy loop splices the image into the old contents, or rejects it and changes nothing |
| `SimulatorObjects.Timer.Read32` | simulator/src/timer.cpp:10-20 | each register's value, or the address fault |
| `SimulatorObjects.Timer.Write32` | simulator/src/timer.cpp:22-32 | the whole new Timer state, unchanged on a fault |
| `SimulatorObjects.Timer.RetireTick` | simulator/src/timer.cpp:34-36 | counts modulo 2^32 only when enabled |
| `SimulatorObjects.Uart.Write32` | simulator/src/uart.cpp:35-54 | a DATA write appends exactly its low byte to the transcript |
| `SimulatorObjects.GpioDevice.Write32` | simulator/src/gpio.cpp:21-30 | the whole new GPIO state |
| `SimulatorObjects.DebugDevice.Write32` | simulator/src/debug_device.cpp:21-30 | only VALUE stores |
| `SimulatorObjects.SystemBus.Read32` | simulator/src/bus.cpp:22-65 | the routed read equals the bus function on the objects' state |
| `SimulatorObjects.SystemBus.Fetch32` | simulator/src/bus.cpp:67-86 | the routed fetch equals the bus function |
| `SimulatorObjects.SystemBus.Write32` | simulator/src/bus.cpp:88-117 | the whole new state of RAM and devices, unchanged on a fault |
| `SimulatorObjects.CpuCore.constructor` | simulator/src/cpu_core.cpp:16-36 | a new core is in the reset state on the bus it was given |
| `SimulatorObjects.CpuCore.EnterFault` | simulator/src/cpu_core.cpp:199-205 | only the fault record and the microstate change |
| `SimulatorObjects.CpuCore.RetireTo` | simulator/src/cpu_core.cpp:176-181 | PC, count, microstate and the Timer change as one retirement |
| `SimulatorObjects.CpuCore.Tick` | simulator/src/cpu_core.cpp:38-158 | the mutated object is the tick function of its old state, bus and registers included |
| `SimulatorObjects.CpuCore.Step` | simulator/src/cpu_core.cpp:183-197 | the loop terminates, its result state is one instruction of the old state, and the returned result names how it ended |
| `RtlIsa.SignExtensions` | rtl/core/immediate_generator.sv:8-16 | replicated-sign-bit concatenations are the signed field modulo 2^32 |
| `RtlIsa.DecoderAgrees` | rtl/core/decoder.sv:14-65 | slicing and validation accept exactly the documented encodings and control_unit drives signals that implement the instruction |
| `RtlIsa.AluAgrees` | rtl/core/alu.sv:9-22 | every operation of the RTL ALU is the documented one, by the same independent definitions |
| `RtlIsa.TimerEdge` | rtl/peripherals/timer_mmio.sv:18-51 | under any combination of access and tick the write comes first and the tick counts with the enable bit it leaves, while a read sees the state before the edge |
| `RtlIsa.PeripheralEdges` | rtl/memory/ram.sv:16-19 | RAM, UART, GPIO and Debug under any combination of enables: a read registers the old state, a write changes the addressed register alone |
| `RtlIsa.IdleEdge` | rtl/bus/system_bus.sv:152-159 | an idle bus captures the request, and the retirement pulse lands on the Timer at that same edge |
| `RtlIsa.FetchEdge` | rtl/bus/system_bus.sv:69-142 | a fetch access answers with the documented word or fault, except for the reserved window, and touches no device |
| `RtlIsa.LoadEdge` | rtl/bus/system_bus.sv:107-142 | a load access answers with the documented value or fault from whichever device is selected |
| `RtlIsa.StoreEdge` | rtl/bus/system_bus.sv:107-132 | a store performs exactly its device write at the access edge, or none if it faults |
| `RtlIsa.RespondEdge` | rtl/bus/system_bus.sv:161-161 | the response edge changes no device and ends a UART event after one clock |
| `RtlIsa.ExecuteValues` | rtl/core/cpu_core.sv:109-120 | branch decision, targets, effective address and ALU value in the interpreter's terms |
| `RtlIsa.WritebackCommits` | rtl/core/cpu_core.sv:290-298 | WRITEBACK commits the effect it holds and the port reports a register change only if the value changes and the target is not r0 |
| `RtlIsa.ClockInFlight` | rtl/core/cpu_core.sv:182-305 | every clock keeps the abstraction relation, retires with the interpreter's effect and record at exactly the instruction's cost, or faults with its record |
| `RtlIsa.ClockAtRest` | rtl/core/cpu_core.sv:299-301 | HALTED and FAULT absorb every clock |
| `RtlIsa.ResetInFlight` | rtl/core/cpu_core.sv:183-207 | reset starts the first instruction whatever RAM, memory outputs and r0's storage hold |
| `RtlIsa.AgeBound` | rtl/core/cpu_core.sv:212-298 | an instruction retires before its cost is exceeded and a faulting one faults within eight clocks |
| `RtlIsa.StoreAccounting` | rtl/bus/system_bus.sv:112-129 | write strobes and retired stores are in one-to-one correspondence |
| `RtlObjects.RegisterFile.PosEdge` | rtl/core/register_file.sv:23-25 | at most the addressed register changes, never r0 |
| `RtlObjects.RegisterFile.Reset` | rtl/core/register_file.sv:19-22 | the loop clears r1 to r31 and leaves r0's storage |
| `RtlObjects.Ram.PosEdge` | rtl/memory/ram.sv:16-19 | the write and the registered read of the old word, as one edge |
| `RtlObjects.TimerRegisters.PosEdge` | rtl/peripherals/timer_mmio.sv:18-51 | the whole new Timer state for every combination of access and tick |
| `RtlObjects.UartRegisters.PosEdge` | rtl/peripherals/uart_mmio.sv:17-33 | one event for one clock per DATA write |
| `RtlObjects.GpioRegisters.PosEdge` | rtl/peripherals/gpio_mmio.sv:14-36 | the whole new GPIO state |
| `RtlObjects.DebugRegisters.PosEdge` | rtl/peripherals/debug_mmio.sv:12-23 | the whole new Debug state |
| `RtlObjects.SystemBus.PosEdge` | rtl/bus/system_bus.sv:144-165 | request registers and all devices move together as the bus function says |
| `RtlObjects.CpuCore.PosEdge` | rtl/core/cpu_core.sv:182-305 | the case statement with simultaneous updates equals the CPU function |
| `RtlObjects.Mini32System.constructor` | rtl/top/mini32_system.sv:41-59 | the composed system starts in a reset state |
| `RtlObjects.Mini32System.PosEdge` | rtl/top/mini32_system.sv:41-59 | CPU and bus sample each other's wires before the edge, retire_tick included |
| `Refinement.TracksClock` | rtl/core/cpu_core.sv:182-305 | one clock keeps the relation to the machine after k instructions, moves k exactly on a retirement pulse, and the port then shows that instruction's record |
| `Refinement.RunTracks` | rtl/core/cpu_core.sv:182-305 | stuttering refinement of the documented machine for every ROM, RAM and clock count, with an exact clock account |
| `Refinement.RunHandshake` | rtl/bus/system_bus.sv:107-165 | in every reachable state a busy bus holds the request the CPU still asserts, a retirement pulse meets an idle bus, and a UART event belongs to a store's response |
| `Refinement.OneWritePerStore` | rtl/bus/system_bus.sv:107-165 | over any run, device writes equal retired stores plus the one awaiting retirement |
| `Refinement.RetirementClock` | rtl/core/cpu_core.sv:212-298 | the k-th retirement is at exactly the sum of the instructions' costs (5, 6, 8 or 9), so between 5k and 9k clocks |
| `Refinement.FaultClock` | rtl/core/cpu_core.sv:172-180 | a faulting instruction leaves the CPU in FAULT for good within eight clocks of the last retirement |
| `Refinement.EventSpacing` | rtl/peripherals/uart_mmio.sv:27-31 | two UART events are at least eight clocks apart |
| `Refinement.SameControl` | rtl/core/control_unit.sv:8-78 | the two control tables support the same opcodes with the same signals |
| `Refinement.Lockstep` | rtl/core/cpu_core.sv:182-305 | for every image, RAM, pins and clock count, RTL equals the simulator after as many steps as it has retired: PC, registers, RAM, transcript, latches, Timer with its tick in flight, halt, and fault record up to the reserved window |
| `Refinement.StopsTogether` | simulator/src/cpu_core.cpp:183-197 | RTL halts exactly when the simulator halts and faults exactly when it faults |
| `Replay.RecordDeterminesStep` | simulator/app/ref_trace.cpp:136-161 | an instruction's record alone determines the whole next state |
| `Replay.ReplayReconstructs` | simulator/app/ref_trace.cpp:124-162 | applying the records of any run reconstructs every register, RAM word and device |
| `Replay.TimerConservation` | simulator/src/timer.cpp:22-36 | COUNTER is the last value stored to it, or zero, plus the later retirements after which the Timer is enabled, modulo 2^32 |
| `Trace.ParseTrace` | verification/differential.py:112-122 | accepts exactly when the final positions are the last index alone, the retire indices count from zero and the final count matches |
| `Trace.WellFormedIff` | verification/differential.py:114-121 | the three checks are the well-formedness every trace theorem concludes |
| `Trace.BrokenTraces` | verification/differential.py:114-121 | an index out of place, a second or early final record, none at the end or a wrong count each rejects |
| `Trace.CompareTraces` | verification/differential.py:132-159 | accepts exactly when the observed forms of the traces are equal: whole entries with only unwritten registers and stores, absent faults and invalid addresses blanked |
| `Trace.MatchIffObserved` | verification/differential.py:132-159 | the field-by-field comparison is equality of observed forms, so no compared field can differ unseen |
| `Trace.RefRecordIsRecord` | simulator/app/ref_trace.cpp:125-161 | reconstructing a record from before and after states yields the architectural one, and no step changes two registers |
| `Trace.RefEntriesAreSpec` | simulator/app/ref_trace.cpp:124-162 | after any number of iterations the emitted entries are those of the retired instructions, indexed from zero |
| `Trace.CollectorStep` | rtl/tb/tb_differential_trace.sv:58-89 | the collector has every retirement but the pulse now showing, and its UART bytes are the transcript |
| `Trace.CollectInvariant` | rtl/tb/tb_differential_trace.sv:72-87 | the final record is taken one clock after stopping, when no pulse is in flight |
| `Trace.TraceAgreement` | verification/differential.py:132-159 | whenever both producers finish, under any limits, both traces are well formed and the comparison accepts them if and only if the run did not end in a reserved-window fetch |
| `Trace.CollectorFinishes` | rtl/tb/tb_differential_trace.sv:72-87 | a run the simulator stops within k steps has made the RTL collector finish after 9k + 2 clocks, and from then on |
| `Trace.FinishedNeedsFewSteps` | simulator/app/ref_trace.cpp:124-168 | if the RTL collector finishes within n clocks, any instruction limit above n / 5 lets the C++ producer finish |
| `Trace.ReservedJumpIsRejected` | rtl/bus/system_bus.sv:100-101 | a concrete program whose complete, well-formed traces, after four steps and 38 clocks, the comparison rejects |
| `Trace.AcceptedTracesSameState` | verification/differential.py:132-159 | two C++ traces that the comparison accepts end in equal registers, RAM and devices |
| `Trace.TraceReplays` | simulator/app/ref_trace.cpp:124-183 | a finished C++ trace replays to the simulator's final state and its records chain next_pc to pc |
| `Trace.SimulatorTimer` | simulator/src/cpu_core.cpp:149-151 | Timer conservation over the simulator's own finished trace |
| `Differential.DiffRegisters` | simulator/app/ref_trace.cpp:136-147 | the scan reports no change, the one change, or that there were several |
| `Differential.TraceStep` | simulator/app/ref_trace.cpp:125-161 | one loop iteration steps the core and reconstructs the specified record |
| `Differential.ProduceTrace` | simulator/app/ref_trace.cpp:124-184 | from reset the loop returns exactly the specified trace or the limit, never the multiple-register error |
| `Differential.TraceCollector.PosEdge` | rtl/tb/tb_differential_trace.sv:58-89 | the collector object's edge equals the collector function |
| `Differential.CollectTrace` | rtl/tb/tb_differential_trace.sv:91-101 | clocking system and collector together yields the specified trace exactly when it is finished by the cycle limit, and the limit error otherwise |
| `Differential.RunCase` | verification/differential.py:176-203 | a case on live objects, under any two limits, has no verdict exactly when one side runs into its limit, and otherwise passes exactly unless it ended in a reserved-window fetch; a program of at most k instructions gets its verdict from limits k and 9k + 2, and an instruction limit above a fifth of the cycle limit, as in the defaults, never decides |
| `Differential.LimitsSuffice` | verification/differential.py:211-212 | which instruction and cycle limits let both producers finish |
| `Serial.FifoIsQueue` | rtl/platform/uart_tx_fifo.sv:31-58 | the ring buffer of any depth is a queue, simultaneous enqueue and dequeue when full included |
| `Serial.PointersDifferByCount` | rtl/platform/uart_tx_fifo.sv:24-29 | write pointer minus read pointer is the count modulo the depth |
| `Serial.Conservation` | rtl/platform/uart_tx_fifo.sv:39-58 | delivered bytes followed by the queue are the accepted events in order, and overflow is set exactly when one was dropped |
| `SerialObjects.UartTxFifo.PosEdge` | rtl/platform/uart_tx_fifo.sv:39-58 | the array, pointers and count updated in place are that queue step |
| `SerialObjects.UartTxPhy.PosEdge` | rtl/phy/uart_tx_phy.sv:32-63 | the serializer object's edge equals the serializer function |
| `SerialObjects.ReceiveByte` | rtl/tb/tb_mini32_fpga_platform_uart.sv:30-42 | waiting and sampling by index on a recorded wire is the edge-by-edge receiver: the byte, the framing error, or starvation |
| `SerialObjects.ReceiveAll` | rtl/tb/tb_mini32_fpga_platform_uart.sv:53-61 | the receiving loop returns every complete byte on the wire |
| `SerialObjects.RecordingIsHeard` | rtl/tb/tb_mini32_fpga_platform_uart.sv:30-42 | the recorded wire of a run decodes to what the live receiver heard |
| `Wire.ReceiverFollows` | rtl/phy/uart_tx_phy.sv:25-63 | at two or more clocks per bit the receiver's position is a function of the serializer's, and no byte is lost or invented at any clock |
| `Wire.WireDecodes` | rtl/tb/tb_mini32_fpga_platform_uart.sv:30-42 | decoded bytes, the byte on the wire and the queue are together the accepted events in order |
| `Wire.DecodedIsPrefix` | rtl/tb/tb_mini32_fpga_platform_uart.sv:30-42 | without overflow the decoded bytes are a prefix of the events, and all of them once queue and serializer are empty; no framing error ever |
| `Wire.FrameReadIffTwoClocks` | rtl/tb/tb_mini32_fpga_platform_uart.sv:30-42 | a frame of any byte is read correctly if and only if there are at least two clocks per bit |
| `Wire.OneClockPerBit` | rtl/phy/uart_tx_phy.sv:14-17 | at one clock per bit the receiver reports twice the byte modulo 256 or a framing error |
| `Throughput.NoOverflow` | rtl/platform/uart_tx_fifo.sv:31-57 | if no window of w clocks carries more than DEPTH + floor(w / (10 * CLKS_PER_BIT + 1)) events, overflow never sets |
| `Throughput.TooFastOverflows` | rtl/phy/uart_tx_phy.sv:32-63 | a window carrying more than DEPTH + ceil(w / (10 * CLKS_PER_BIT + 1)) events must overflow |
| `Throughput.SpacedNoOverflow` | rtl/platform/uart_tx_fifo.sv:31-57 | events eight clocks apart, N in all, never overflow a FIFO with N at most DEPTH + floor((8N - 7) / (10 * CLKS_PER_BIT + 1)) |
| `Throughput.WorkFalls` | rtl/phy/uart_tx_phy.sv:32-63 | without events the clocks still needed to empty the path fall by exactly one a clock |
| `Throughput.Drains` | rtl/phy/uart_tx_phy.sv:32-63 | DEPTH * (10 * CLKS_PER_BIT + 1) + 10 * CLKS_PER_BIT quiet clocks empty the FIFO and idle the serializer, and overflow does not change |
| `Throughput.BaudError` | rtl/phy/uart_tx_phy.sv:14-17 | twice the divider's error is at most one baud |
| `Throughput.DividerFloor` | rtl/phy/uart_tx_phy.sv:14-17 | the divider is at least one, and one whenever there is less than half a clock per bit |
| `Throughput.NominalReceiver` | rtl/phy/uart_tx_phy.sv:25-63 | a mid-bit receiver at the exact nominal rate reads all ten bits of any frame when the divider is at least ten |
| `Platform.PlatformSplits` | rtl/top/mini32_fpga_platform.sv:35-53 | the composed platform is the system run feeding the serial path its events |
| `Platform.TranscriptIsSimulators` | simulator/src/uart.cpp:35-54 | the events the RTL has emitted are the simulator's transcript after as many instructions, at every clock |
| `Platform.EndToEndWire` | rtl/top/mini32_fpga_platform.sv:35-53 | until overflow, the bytes decoded from the wire are a prefix of the simulator's transcript, and all of it once FIFO and serializer are empty after halt |
| `Delivery.QuietWhenStopped` | rtl/core/cpu_core.sv:299-301 | a halted or faulted CPU offers no more UART events |
| `Delivery.NeverOverflows` | rtl/top/mini32_fpga_platform.sv:47-51 | a program, terminating or not, that transmits no more than the FIFO can absorb (its depth, for instance) never sets overflow |
| `Delivery.FinalTranscript` | simulator/src/uart.cpp:35-54 | 9k clocks after reset, a program the simulator stops within k steps has emitted the whole final transcript |
| `Delivery.WireDelivers` | rtl/top/mini32_fpga_platform.sv:35-53 | from 9k + DEPTH * (10c + 1) + 10c clocks on, a program that stops within k instructions has left the CPU stopped and the path empty, and the decoded bytes are the simulator's whole transcript unless one was dropped, which cannot happen when the FIFO can absorb it |
| `PlatformObjects.FpgaPlatform.constructor` | rtl/top/mini32_fpga_platform.sv:35-53 | the composed platform starts in a reset state, whatever RAM and FIFO storage hold |
| `PlatformObjects.FpgaPlatform.PosEdge` | rtl/top/mini32_fpga_platform.sv:35-53 | system, FIFO and serializer sample each other before the edge and move as the platform function says |
| `PlatformObjects.RecordWire` | rtl/tb/tb_mini32_fpga_platform_uart.sv:20-28 | clocking the platform object records exactly the pin levels of the run |
| `PlatformObjects.Testbench` | rtl/tb/tb_mini32_fpga_platform_uart.sv:30-68 | the bytes received from the platform objects' pin are a prefix of the simulator's transcript until overflow, without framing errors, and all of it once enough clocks have passed |
| `Text.LinesRoundTrip` | assembler/disassembler.py:60-61 | joined lines split back into the same lines |
| `Text.SignedDecimalRoundTrip` | assembler/assembler.py:44-48 | a printed signed decimal parses to its value |
| `Text.HexLiteralRoundTrip` | assembler/assembler.py:44-48 | a printed hexadecimal literal parses to its value |
| `Assembler.PeelLabels` | assembler/assembler.py:72-80 | the label loop defines exactly the leading labels, or stops at the first duplicate |
| `Assembler.ParseSource` | assembler/assembler.py:66-87 | the line loop yields the labels and statements of the line-by-line definition, or its first error |
| `Syntax.CommentIgnored` | assembler/assembler.py:71 | text from the first # on does not change what a line means |
| `Syntax.BlankLineIgnored` | assembler/assembler.py:71-82 | a blank or comment-only line changes nothing |
| `Syntax.SpaceIgnored` | assembler/assembler.py:71 | leading and trailing space does not change what a line means |
| `Syntax.StatementLine` | assembler/assembler.py:83-86 | a statement is recorded as written, under its line number, at the next word address |
| `Syntax.LabelPrefix` | assembler/assembler.py:72-80 | a label in front of anything binds its name to the next word address and leaves the rest, or is the duplicate error |
| `Syntax.StrayColon` | assembler/assembler.py:83-84 | a colon that closes no label is the label-syntax error |
| `Syntax.FirstLineSplits` | assembler/assembler.py:70 | a line ends at its first break, carriage return and line feed together counting once, and a trailing break adds no line |
| `Syntax.Separators` | assembler/assembler.py:70-71 | which characters break lines and which are space |
| `Syntax.RegisterNames` | assembler/assembler.py:31-41 | zero, sp and ra in either case, r or R with a number up to 31, and the two errors |
| `Syntax.NumberForms` | assembler/assembler.py:44-48 | signed, prefixed and superfluously zeroed literals |
| `Syntax.LowerHexForm` | assembler/assembler.py:44-48 | hexadecimal digits in lower case parse to the same value |
| `Syntax.OperandCounts` | assembler/assembler.py:59-63 | any other number of operands than written is the operand-count error |
| `Syntax.OperandSpacing` | assembler/assembler.py:59-63 | any space around operands and commas is ignored |
| `Syntax.EmptyOperand` | assembler/assembler.py:59-63 | an empty operand is the operand-count error |
| `Syntax.MemorySpacing` | assembler/assembler.py:105-111 | space is allowed around both fields of a memory operand and nothing may follow it |
| `Syntax.BadTokens` | assembler/assembler.py:44-48 | a token that is no number, or has no parenthesized base, is its own error |
| `Syntax.Targets` | assembler/assembler.py:90-102 | a literal or an exact label distance resolves exactly when it fits 16 or 26 signed bits |
| `Syntax.BadTargets` | assembler/assembler.py:90-102 | undefined and misaligned labels are their own errors |
| `Syntax.RegisterStatements` | assembler/assembler.py:130-134 | ADD, SUB, AND, OR, XOR, SLT, SHL and SHR by name: the word decodes to that operation on the registers in the order written |
| `Syntax.ImmediateStatements` | assembler/assembler.py:135-148 | ADDI, ANDI, ORI, XORI and LUI by name, with exactly their immediate ranges |
| `Syntax.MemoryStatements` | assembler/assembler.py:149-156 | LW and SW by name, with exactly their offset range |
| `Syntax.ControlStatements` | assembler/assembler.py:157-168 | BEQ, BNE, BLT, BGE, J, JAL and JR by name, with literal or label targets and exactly their ranges |
| `Syntax.BareStatements` | assembler/assembler.py:118-126 | NOP, HALT and RET by name |
| `Syntax.WordStatement` | assembler/assembler.py:120-123 | .word stores exactly the values from 0 to 2^32 - 1 |
| `Syntax.UnknownName` | assembler/assembler.py:127-128 | every other name is the unknown-mnemonic error |
| `Syntax.MnemonicCase` | assembler/assembler.py:115-117 | the case of the mnemonic and the space after it do not matter |
| `Disassembler.RegisterRoundTrip` | assembler/assembler.py:31-41 | a printed register parses to its index |
| `Disassembler.MemoryOperandRoundTrip` | assembler/assembler.py:105-111 | a printed memory operand parses to its offset and base |
| `Disassembler.OperandsRoundTrip` | assembler/assembler.py:59-63 | a printed operand list splits back into its operands |
| `Disassembler.MnemonicFound` | assembler/mini32_isa.py:6-30 | every mnemonic is found again under its own opcode only, so the name table is injective |
| `Disassembler.WordRoundTrip` | assembler/disassembler.py:20-54 | encoding the printed form of any word, valid or not, returns the word |
| `Syntax.WordPrints` | assembler/disassembler.py:20-54 | every legal word prints as the canonical text of the instruction it decodes to, names and number formats included, and every other word as .word |
| `Disassembler.TextRoundTrip` | assembler/disassembler.py:57-61 | assembling the disassembly of any whole-word image returns the image |
| `Disassembler.DotWordIffRejected` | assembler/disassembler.py:16-54 | .word is printed for exactly the words that are not legal instructions |
| `Linking.StatementDenotes` | assembler/assembler.py:114-169 | the encoder accepts exactly the statements that denote an instruction, and the word decodes to the operands written |
| `Linking.ReturnDenotes` | assembler/assembler.py:118-119 | RET encodes JR r31 |
| `Linking.LabelDistance` | assembler/assembler.py:90-102 | a resolved displacement fits its field and is the exact distance from the next instruction to the label |
| `Linking.LabelPlacement` | assembler/assembler.py:70-86 | a label's address is four times the number of statements on earlier lines, and separates them from the later ones |
| `Linking.LabelPointsPast` | assembler/assembler.py:66-87 | in an accepted program the statements at or beyond a label's address are exactly those after its line |
| `Linking.ProgramDecodes` | assembler/assembler.py:172-175 | every statement of an accepted program other than .word decodes to the operands written |
| `Linking.LabelMeaning` | assembler/assembler.py:157-165 | a taken branch or jump to a label leaves the simulator's PC at the first statement at or after the label's line |
| `Build.WordsRoundTrip` | assembler/assembler.py:172-175 | words serialized by to_bytes read back unchanged |
| `Build.EncodedFits` | assembler/assembler.py:114-169 | every encoded statement, .word included, is a 32-bit value |
| `Build.AssembledIsLoaded` | assembler/assembler.py:172-175 | the image of any accepted source that fits ROM is one word for each statement, and load_bytes puts exactly those words in ROM |
| `Build.BothRomsHoldProgram` | rtl/tools/bin_to_mem.py:12-21 | the RTL ROM read from the converted image holds the same program, zero-padded |
| `Build.RunReachesLabels` | assembler/assembler.py:90-102 | in any run of assembled source from reset, a taken branch or jump to a label takes the next step to the first statement after the label's line |
| `Image.LoadedView` | simulator/src/rom.cpp:9-16 | the ROM's word view after loading is the zero-padded image |
| `Image.LoadWordUpdates` | simulator/src/rom.cpp:18-30 | an aligned word load updates exactly one word |
| `Image.SameRom` | rtl/tools/bin_to_mem.py:12-21 | reading the converted text back gives exactly the words the simulator's ROM holds |
| `Image.LoadGuards` | simulator/src/rom.cpp:9-30 | loads and conversion refuse exactly misaligned words, bytes past the end, partial words and oversized images |
| `Image.SameRam` | rtl/memory/ram.sv:14-19 | byte array and word array agree after any sequence of writes, rejected ones included |
| `Image.NoAliasing` | rtl/bus/system_bus.sv:40-46 | within ROM and within RAM two word addresses share a 14-bit index exactly when they are equal, and the index determines the address |

## Left out

- Command lines, file reading, JSON text, hexadecimal formatting of traces and subprocess handling: input and output only; trace records are values.
- The collector's 1024-byte transcript cap: assumed not to be reached. Instruction and cycle limits are parameters of the model.
- Resets in the middle of a run and rtl/platform/reset_sync.sv: runs start from the reset state.
- Board wrapper, constraints, bring-up tools and checked-in images under fpga/: board-specific or data.
- Full Python `int(token, 0)` syntax (underscores, binary, octal), non-ASCII digits, case mapping and most Unicode whitespace: decimal and 0x literals only.
- Line numbers and message texts of assembler errors: the kind of error is kept.
- The simulator's 64-bit retirement count is unbounded here, and register indices are 0 to 31 by type, so the out-of-range exception of register_file.cpp is not reachable.
- `Bus`'s default Timer and GPIO and the simulator's interactive front end: wiring alternatives with the same devices.
