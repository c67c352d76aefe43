# inmojomni in Dafny

inmojomni is an SDK for the RP2040 and the RP2350 written in Mojo, with the tools around it. This project
models the parts of it that carry an argument, and proves the argument. `dafny verify dfyconfig.toml` checks
the whole project.

| files | what they model |
|---|---|
| `PioMachine`, `PioSource`, `PioMeaning`, `PioEffects`, `PioTiming` | the PIO state machine on 16-bit words (section 3.4 of the RP2040 Datasheet), the labelled source language of the assembler, that assembling preserves meaning, and what each statement does to every pin and register |
| `PioAsm`, `PioStateMachine` | the one-pass assembler with its side-set field and back-patching, and the registers that `load` and the pin setters write |
| `Stopwatch` | the latency program of the interrupt benchmark, from the assembler calls to the number the host prints |
| `Multicore`, `Launch` | the core 1 launch handshake over two FIFOs, access by access, with the time it takes |
| `Sync` | spinlock clients, as interleaved steps |
| `Rtt`, `RttBlock`, `RttScript`, `Numerals` | the RTT ring against a host that moves at any time, its control block while it is built, the host script of the RP2350 gate, and the number printers |
| `ShiftRegister`, `Crc`, `CrcMirror` | CRC-32/MPEG-2 (Annex A of ISO/IEC 13818-1), burst detection, and its mirror image in the C benchmark |
| `ElfLayout`, `ElfCheck`, `BootBurst` | the firmware checker, the boot block builder it agrees with, and what damage to the boot block is found |
| `Retarget`, `RetargetTwice` | the IR rewriter, and when a second pass changes nothing |
| `Quicksort`, `OrderStatistics`, `Latency` | the in-place sort, histogram percentiles, and running statistics |
| `Time`, `Alias`, `Gpio` | modular waits, atomic register aliases, and the pin operations built on them |
| `Words`, `Bitwise` | machine words as bounded integers, and when masking and joining their bits is a remainder and a sum |

Words of the PIO, the protocols and the statistics are integers with explicit wrap-around; checksums and
register bits are bit vectors. Objects that the source updates in place are classes with `modifies` clauses;
their methods are proved against functions and invariants on values, and the theorems are about those.

## What is assumed of the outside

- PIO: FIFOs of four words, IN and OUT shifting right without autopush or autopull, as after reset. The core
  may pop the RX FIFO and push the TX FIFO in any cycle. The words that the assembler never emits and the model
  does not interpret (IRQ, WAIT on anything but an absolute GPIO, bit reversal, STATUS, the EXEC destinations,
  words with a reserved bit set) stall the machine.
- Launch: the bootrom takes words in order, echoes each once, as late as it likes, and runs the application
  right after it has echoed 0, 1, vector table, sp, entry in a row (section 2.8.2 of the RP2040 Datasheet).
  The application then takes words as it pleases and sends a finite number of its own. Words from before the
  reset may be in either FIFO. Vector table, sp and entry are not zero. Core 0 makes its accesses at most
  2^30 ticks apart. A timeout of any length may be asked for; where its ticks and two such gaps stay below
  2^32, the wait also ends. Core 1 moves at one of five paces: freely, promptly (all that it can do before
  each access of core 0), not at all, with each echo only once core 0 has given up waiting for it, or freely
  until it falls silent for good. What is said of all runs holds at each of them. After it was forced off, core 1 shows as off within a number of
  reads that is a parameter.
- Spinlock: reading the lock register is one indivisible step that claims a free lock.
- RTT: single bytes and words are stored and loaded in one step, in program order; one writer, one host. The
  host is a conforming one: it loads WrOff, reads the bytes up to there, and only then stores RdOff. The
  script of the RP2350 gate keeps another order and has a model of its own.
- Firmware checker: a section whose bytes are not all in the file stops the checker with an error, which is an
  outcome of the model.
- Waiting: the timer never runs backwards.

## Where a promise holds only on a condition

- A latency above 2^33 cycles makes the stopwatch counter run out; the count brackets the latency exactly up
  to there. The host's `cycles` and `ns` wrap earlier, at 2^32 - 2 and 2^29 - 2 cycles.
- `_to_ticks` wraps on RISC-V from 2^28 microseconds on, and the timeout is then too short.
- `launch` says "~50 ms budget", but its code allows 64 attempts with two timeouts of 1000 microseconds each.
  All runs end within 128 such timeouts and the accesses in between. A core 1 that echoes each word just
  after core 0 has given up on it makes `launch` take more than 50 ms, however fast core 0 polls. The budget
  holds against a core 1 that does not answer at all, and against one that answers promptly, each under a
  stated bound on the time between two accesses. Once core 1 has fallen silent, whatever it did before, at
  most ten more timeouts go by.
- A core 1 that answers promptly is started in six words, unless the words left over from before the reset
  contain the whole launch pattern.
- Every pulse is measured as long as there is room in the FIFO when its word is pushed. There is, if core 0
  collects each word before the next one is due; the first needs no pop.
- The RTT control block is found only when it is built exactly if memory did not hold an older block, with
  offsets in it, before `init`.
- The RP2350 gate can lose bytes: it consumes all that is published up to its load of WrOff, but has copied only
  the start of the ring before, byte after byte, while the writer goes on. Nothing is lost exactly if what it
  consumes lies in the 40 bytes it copied and each byte was stored before its place was copied.
- The checksum finds any damage inside 32 consecutive bits of the boot code. It is stored with its lowest byte
  first, so across the end of the code it finds less: damage inside `w` consecutive bits anywhere in the block
  is always found exactly for `w` up to 30. Every sealed block stays sealed if the last bit of its code is
  flipped and the polynomial is added to its checksum, which are changes inside 31 consecutive bits.
- The checker accepts a section whose end wraps around 2^32. Without such a section its verdict is exact.
- `_set_quoted_attr` is idempotent on all lines exactly when the value has no quote. The key does not matter.
- The whole retargeting pass is not idempotent on all lines: it sets `target-cpu` first and then clears
  `target-features`, and a stray quote can make the second rewriting uncover a key for the first. The line
  `"target-features"="target-cpu"target-cpu"` grows when the pass runs again. Cut a line at its quotes; one
  scan of the pieces of the source line tells exactly whether a second pass would change it. It cannot unless
  a features key has the value `target-cpu`, and that string, after the value it may have itself, is directly
  followed by `target-cpu` and one more quote.
- `sleep_us` can miss its end when two polls are more than 2^32 - us apart; `sleep_ms` wraps above
  4294967 ms.
- Percentiles above 4094 are reported as 4095. The mean is rounded to nearest exactly if its numerator fits
  64 bits.

## Model

| member | source | states |
|---|---|---|
| `PioMeaning.DecodeRoundTrip` | src/pico/pio.mojo:120-132 | For every legal side-set mode, every statement and any delay and side arguments, decoding the emitted word gives back the instruction, the delay and the side value; an omitted mandatory side decodes as 0 |
| `PioMeaning.InRangeOperands` | src/pico/pio.mojo:120-132 | Delays and side values that fit their fields come back unchanged; an omitted side means "leave the pins alone" exactly when side-set is optional |
| `PioMeaning.SetWords` | src/pico/pio.mojo:148-158 | The SET words as numbers: 0xE001, 0xE081, 0xE03D and 0xE047 |
| `PioMeaning.JumpWords` | src/pico/pio.mojo:163-186 | The six jump words as numbers |
| `PioMeaning.ShiftWords` | src/pico/pio.mojo:190-215 | The words of WAIT, IN and OUT as numbers |
| `PioMeaning.OtherWords` | src/pico/pio.mojo:205-238 | The words of PUSH, PULL, MOV and NOP as numbers |
| `PioMeaning.SameCycle` | src/pico/pio.mojo:271-296 | One machine cycle on the assembled words is one cycle of the labelled source: same pins, X, Y, shift registers, FIFOs, delay and program counter |
| `PioMeaning.MeaningPreserved` | src/pico/pio.mojo:83-144 | For every valid program, every pin mapping, every start state, every input trace and every number of cycles, the machine running the assembled words and the labelled source are in the same state |
| `PioEffects.PinsAfter` | src/pico/pio.mojo:148-235 | After SET PINS v, OUT PINS n or MOV PINS, X, pin (base + k) % 32 shows bit k of v % 32, of the n low bits of the OSR or of X, for every k below the count; SET PINDIRS does that to the directions. Side-set pins show the bits of the side value, 0 if a mandatory side was omitted, and win where the two meet; a waiting statement side-sets too. Every other level and direction is as it was |
| `PioEffects.RegistersAfter` | src/pico/pio.mojo:154-238 | X, Y, the shift registers with their counts and both FIFOs after every statement, as numbers: OUT X, n gives OSR % 2^n and leaves OSR / 2^n; bit k of MOV X, PINS is pad (inBase + k) % 32; IN X, n puts the n low bits of X above ISR / 2^n; decrementing 0 gives 2^32 - 1; PUSH and PULL move one word in order; what a statement does not name it keeps |
| `PioEffects.ControlAfter` | src/pico/pio.mojo:120-197 | A statement that waits is issued again; any other goes to its label if its jump is taken, else to the next statement, from the last to the first, and delays the low bits of its delay argument that side-set leaves. PUSH waits for room among four words, PULL for a word, WAIT for its level |
| `PioEffects.MachineDoes` | src/pico/pio.mojo:271-296 | One machine cycle on the assembled words does just that after the core has used the FIFOs, or counts one delay cycle |
| `PioEffects.EveryCycleDoes` | src/pico/pio.mojo:271-296 | So does every cycle of every run, which never leaves the program |
| `PioTiming.LoopExact` | src/pico/pio.mojo:171-174 | Any machine step that behaves as a decrementing self-loop leaves the loop after exactly (x+1)*(1+d) cycles and not before |
| `PioTiming.LoopBurns` | src/pico/pio.mojo:11 | The emitted `jmp_x_dec` to itself holds the machine for exactly (x+1)*(1+delay) cycles, for every side-set mode and every X |
| `PioAsm.Asm.constructor` | src/pico/pio.mojo:72-81 | A new assembler is empty, with no handle given out and nothing waiting |
| `PioAsm.Asm.SideSet` | src/pico/pio.mojo:83-91 | Fixes the side-set mode, count modulo 8, before anything is emitted |
| `PioAsm.Asm.Future` | src/pico/pio.mojo:97-102 | Gives out a fresh negative handle, unbound |
| `PioAsm.Asm.Bind` | src/pico/pio.mojo:104-114 | Binds the handle to the current address; exactly the jumps to it stop waiting, and every word stays what the two-pass assembler would emit for the labels known so far |
| `PioAsm.Asm.Unresolved` | src/pico/pio.mojo:116-118 | The count is the number of jumps whose handle is unbound; it is 0 exactly when no jump waits |
| `PioAsm.Asm.PackField` | src/pico/pio.mojo:120-130 | Masking and joining enable bit, side-set bits and delay gives the field of bits 12:8, whatever the sign or size of the arguments |
| `PioAsm.Masked` | src/pico/pio.mojo:124-126 | `v & ((1 << k) - 1)` on an Int of any sign is the remainder by 2^k |
| `PioAsm.OptionalSideJoins` | src/pico/pio.mojo:126-128 | Enable bit, side-set bits and delay bits do not overlap, so that joining them adds them |
| `PioAsm.WithField` | src/pico/pio.mojo:131-131 | Joining the field into the instruction adds it at bit 8, for instructions with bits 12:8 clear |
| `PioAsm.PatchedWord` | src/pico/pio.mojo:110-112 | Masking out the address and joining another one replaces the low five bits and no others |
| `PioAsm.WithLow` | src/pico/pio.mojo:148-186 | Joining a five-bit operand into an opcode whose low five bits are clear adds it |
| `PioAsm.WaitWord` | src/pico/pio.mojo:194-196 | Masking, shifting and joining polarity and pin gives the word of the WAIT, whatever the sign or size of the arguments |
| `Bitwise.MaskOfInt` | src/pico/pio.mojo:124-126 | Masking a two's complement Int is the remainder, for every width up to 64 |
| `Bitwise.JoinBetween` | src/pico/pio.mojo:131-131 | Joining a field with bits below it and bits above it that it does not overlap is a sum, at any place and of any width |
| `Bitwise.ClearLow` | src/pico/pio.mojo:110-110 | Masking with a complement clears exactly the low bits |
| `PioAsm.Asm.Emit` | src/pico/pio.mojo:131-132 | Appends one statement and its word, and keeps the invariant that ties words, fixups and pending count to the labelled program |
| `PioAsm.Asm.JmpTarget` | src/pico/pio.mojo:134-144 | Gives the address bits of a bound target; for an unbound handle leaves a fixup for this word and counts it |
| `PioAsm.Asm.SetPins` | src/pico/pio.mojo:148-149 | Appends exactly one statement, SET PINS, with its delay and side; labels, mode and earlier statements are unchanged and the assembler invariant holds |
| `PioAsm.Asm.SetPindirs` | src/pico/pio.mojo:151-152 | Appends exactly one statement, SET PINDIRS, with its delay and side; labels, mode and earlier statements are unchanged and the assembler invariant holds |
| `PioAsm.Asm.SetX` | src/pico/pio.mojo:154-155 | Appends exactly one statement, SET X, with its delay and side; labels, mode and earlier statements are unchanged and the assembler invariant holds |
| `PioAsm.Asm.SetY` | src/pico/pio.mojo:157-158 | Appends exactly one statement, SET Y, with its delay and side; labels, mode and earlier statements are unchanged and the assembler invariant holds |
| `PioAsm.Asm.Jmp` | src/pico/pio.mojo:163-165 | Appends exactly one statement, an unconditional jump, with its delay and side; labels, mode and earlier statements are unchanged and the assembler invariant holds |
| `PioAsm.Asm.JmpNotX` | src/pico/pio.mojo:167-169 | Appends exactly one statement, jump if X is zero, with its delay and side; labels, mode and earlier statements are unchanged and the assembler invariant holds |
| `PioAsm.Asm.JmpXDec` | src/pico/pio.mojo:171-174 | Appends exactly one statement, jump if X is not zero, and decrement, with its delay and side; labels, mode and earlier statements are unchanged and the assembler invariant holds |
| `PioAsm.Asm.JmpNotY` | src/pico/pio.mojo:176-178 | Appends exactly one statement, jump if Y is zero, with its delay and side; labels, mode and earlier statements are unchanged and the assembler invariant holds |
| `PioAsm.Asm.JmpYDec` | src/pico/pio.mojo:180-182 | Appends exactly one statement, jump if Y is not zero, and decrement, with its delay and side; labels, mode and earlier statements are unchanged and the assembler invariant holds |
| `PioAsm.Asm.JmpPin` | src/pico/pio.mojo:184-186 | Appends exactly one statement, jump on the JMP pin, with its delay and side; labels, mode and earlier statements are unchanged and the assembler invariant holds |
| `PioAsm.Asm.WaitGpio` | src/pico/pio.mojo:190-197 | Appends exactly one statement, WAIT on an absolute GPIO, with its delay and side; labels, mode and earlier statements are unchanged and the assembler invariant holds |
| `PioAsm.Asm.InX` | src/pico/pio.mojo:201-203 | Appends exactly one statement, IN X, with its delay and side; labels, mode and earlier statements are unchanged and the assembler invariant holds |
| `PioAsm.Asm.PushBlock` | src/pico/pio.mojo:205-207 | Appends exactly one statement, a blocking PUSH, with its delay and side; labels, mode and earlier statements are unchanged and the assembler invariant holds |
| `PioAsm.Asm.OutPins` | src/pico/pio.mojo:211-212 | Appends exactly one statement, OUT PINS, with its delay and side; labels, mode and earlier statements are unchanged and the assembler invariant holds |
| `PioAsm.Asm.OutX` | src/pico/pio.mojo:214-215 | Appends exactly one statement, OUT X, with its delay and side; labels, mode and earlier statements are unchanged and the assembler invariant holds |
| `PioAsm.Asm.PullBlock` | src/pico/pio.mojo:217-218 | Appends exactly one statement, a blocking PULL, with its delay and side; labels, mode and earlier statements are unchanged and the assembler invariant holds |
| `PioAsm.Asm.PullNoblock` | src/pico/pio.mojo:220-221 | Appends exactly one statement, a non-blocking PULL, with its delay and side; labels, mode and earlier statements are unchanged and the assembler invariant holds |
| `PioAsm.Asm.MovPinsX` | src/pico/pio.mojo:225-226 | Appends exactly one statement, MOV PINS, X, with its delay and side; labels, mode and earlier statements are unchanged and the assembler invariant holds |
| `PioAsm.Asm.MovXPins` | src/pico/pio.mojo:228-229 | Appends exactly one statement, MOV X, PINS, with its delay and side; labels, mode and earlier statements are unchanged and the assembler invariant holds |
| `PioAsm.Asm.MovXNotNull` | src/pico/pio.mojo:231-234 | Appends exactly one statement, MOV X, ~NULL, with its delay and side; labels, mode and earlier statements are unchanged and the assembler invariant holds |
| `PioAsm.Asm.Nop` | src/pico/pio.mojo:236-237 | Appends exactly one statement, MOV Y, Y, with its delay and side; labels, mode and earlier statements are unchanged and the assembler invariant holds |
| `PioAsm.FixupsAreWaitingJumps` | src/pico/pio.mojo:97-144 | In every reachable assembler, `_pending` is the number of nonzero fixups, and each of these lies below `len` on a jump to the still unbound handle it names |
| `PioAsm.BackPatchingIsTwoPass` | src/pico/pio.mojo:97-144 | Once nothing waits, the code is word for word what a reference assembler emits that knew every label in advance |
| `PioStateMachine.StateMachine.Load` | src/pico/pio.mojo:271-296 | Instruction memory holds the program and is otherwise unchanged; EXECCTRL is rewritten whole, and only the SIDESET_COUNT field of PINCTRL changes |
| `PioStateMachine.LoadBits` | src/pico/pio.mojo:281-296 | EXECCTRL gets the wrap address in bits 16:12, "side-set is optional" in bit 30, "side-set drives directions" in bit 29 and zeros elsewhere; PINCTRL gets the side-set width in bits 31:29 and keeps the rest |
| `PioStateMachine.StateMachine.SetSetPins` | src/pico/pio.mojo:302-309 | Changes the SET base and count of the configuration and no other field |
| `PioStateMachine.StateMachine.SetOutPins` | src/pico/pio.mojo:311-314 | Changes the OUT base and count and no other field |
| `PioStateMachine.StateMachine.SetSidesetPins` | src/pico/pio.mojo:325-330 | Changes the side-set base and no other field |
| `PioStateMachine.StateMachine.SetJmpPin` | src/pico/pio.mojo:316-323 | Changes the JMP pin and no other field |
| `PioStateMachine.SetPinBits` | src/pico/pio.mojo:302-309 | The word it writes has the count in bits 28:26 and the base in bits 9:5, and the other bits of the old one |
| `PioStateMachine.OutPinBits` | src/pico/pio.mojo:311-314 | Likewise the OUT count in bits 25:20 and base in bits 4:0 |
| `PioStateMachine.SidePinBits` | src/pico/pio.mojo:325-330 | Likewise the side-set base in bits 14:10 |
| `PioStateMachine.JmpPinBits` | src/pico/pio.mojo:316-323 | Likewise the JMP pin in bits 28:24 of EXECCTRL |
| `PioStateMachine.LoadConfig` | src/pico/pio.mojo:281-296 | The registers `load` writes decode to wrap from the last word to 0 and to the side-set mode the program was written for |
| `PioStateMachine.LoadedProgramMeansItsSource` | src/pico/pio.mojo:271-296 | With the program in memory and its configuration in the registers, the machine runs as the labelled source, cycle for cycle, whatever the pin routing says |
| `PioStateMachine.LoadFinished` | src/pico/pio.mojo:271-296 | `load` leaves that memory and that configuration, whatever was in the registers before |
| `PioStateMachine.Route` | src/pico/pio.mojo:302-330 | The four pin setters in a row change the pins they name and nothing else of the configuration |
| `PioStateMachine.LoadAndRoute` | src/pico/pio.mojo:271-330 | `load` and then any pin routing: from then on the machine runs as the labelled source, from every state inside the program, for every input and every number of cycles, and in each cycle the statement has its whole effect on pins and registers |
| `Stopwatch.LatencyProgram` | bench/irq_latency.mojo:72-84 | Building the stopwatch through the assembler gives its seven statements, with the forward label at 5 |
| `Stopwatch.ProgramWords` | bench/irq_latency.mojo:72-84 | The back-patched stopwatch has no unresolved jump, is a valid program, and consists of the seven reference words |
| `Stopwatch.Setup` | bench/irq_latency.mojo:114-118 | Loading it and then setting the JMP pin leaves a machine that runs these words with wrap 6 to 0 and tests GPIO 16 |
| `Stopwatch.LoadedIsStopwatch` | bench/irq_latency.mojo:72-84 | The machine so loaded, at each of the seven addresses, makes the step the stopwatch argument rests on |
| `Stopwatch.PulseMeasured` | bench/irq_latency.mojo:72-84 | One pulse with latency d, with room in the FIFO when its word is due, pushes exactly one word, whose complement is Count(d), and leaves the stopwatch armed with one more word in the FIFO |
| `Stopwatch.TrainMeasured` | bench/irq_latency.mojo:72-84 | Each pulse of a train is pushed exactly once and in order, if each push finds room |
| `Stopwatch.StopwatchMeasures` | bench/irq_latency.mojo:72-84 | The machine that holds the assembled words measures every pulse of every such train, from a cold start |
| `Stopwatch.CollectingLeavesRoom` | bench/irq_latency.mojo:140-146 | A core that pops each word some time before the next one is pushed always leaves room; before the first word it pops nothing |
| `Stopwatch.FirmwareMeasures` | bench/irq_latency.mojo:132-156 | From a cold start under such a core, every pulse of every train is measured |
| `Stopwatch.FourWordsFit` | bench/irq_latency.mojo:72-84 | Up to four pulses are measured whatever the core does |
| `Stopwatch.CountBrackets` | bench/irq_latency.mojo:149 | 2n < d <= 2n+2 for the complement n, exactly when d is at most 2^33 |
| `Stopwatch.HostCyclesExact` | tools/irq_latency.mojo:114-116 | `cycles` overestimates by less than 2 cycles exactly when d <= 2^32 - 2; beyond, the UInt32 sum wraps |
| `Stopwatch.HostNsExact` | tools/irq_latency.mojo:119-120 | `ns` overestimates by less than 16 ns exactly when d <= 2^29 - 2; beyond, the product wraps |
| `Multicore.Core1StepKeeps` | src/pico/multicore.mojo:140-157 | Whatever core 1 does, every word is accounted for: popped and queued words are stale words, then echoes, then words of the application; core 1 runs exactly if the pattern was echoed in a row |
| `Multicore.EchoesFollow` | src/pico/multicore.mojo:160-184 | Unless the stale words contain the pattern, the echoes are a prefix of stale words and commands, and core 1 runs only after the sixth command is echoed |
| `Multicore.RightEcho` | src/pico/multicore.mojo:179-181 | The echo popped after command i is that command, also behind stale words |
| `Multicore.PatternInCommands` | src/pico/multicore.mojo:140-157 | Stale words that do not contain the pattern do not make it up together with the commands: it ends with the sixth command |
| `Multicore.TicksCoverTimeout` | src/pico/multicore.mojo:62-69 | `_to_ticks` keeps the promise of at least that long exactly when the timeout is below 2^28 microseconds on RISC-V, and always on Arm |
| `Launch.Chip.FifoDrain` | src/pico/multicore.mojo:72-83 | Pops until the FIFO reads empty, at least everything that was in it, against a core 1 that keeps sending; terminates |
| `Launch.Chip.Poll` | src/pico/multicore.mojo:88-91 | The shared polling loop ends with the status bit set, or gives up only after more true ticks than the timeout, whatever the timeout and the start value of the counter; it ends at all, within the timeout and three accesses, where no gap can hide the end |
| `Launch.Chip.FifoPush` | src/pico/multicore.mojo:86-94 | Sends the word or times out, and then only after the true elapsed ticks exceed the timeout; it never times out with room in the FIFO |
| `Launch.Chip.FifoPop` | src/pico/multicore.mojo:97-103 | Pops the oldest word or times out, and then only after the true elapsed ticks exceed the timeout; it never times out with a word waiting |
| `Launch.Chip.ResetCore1` | src/pico/multicore.mojo:106-113 | Forces core 1 off, polls until it is, and powers it on: core 1 is back in the bootrom, words in the FIFOs survive, and the polling ends |
| `Launch.Chip.Send` | src/pico/multicore.mojo:173-178 | Before each command the stale words are drained or about to be, and the recent pops are the echoes of commands 1 to i-1 |
| `Launch.Chip.Await` | src/pico/multicore.mojo:179-183 | Advances only on the right echo and restarts on any other |
| `Launch.Chip.Handshake` | src/pico/multicore.mojo:167-184 | Success means that core 1 runs; at most 64 words are sent, and at most 128 timeouts are waited out |
| `Launch.Chip.Launch` | src/pico/multicore.mojo:160-184 | If it returns True then core 1 has consumed 0, 1, vector table, sp, entry in a row, for every interleaving, every delay and any stale words; at most 64 attempts. A core 1 that answers promptly is always started, with the six words 0, 0, 1, vector table, sp, entry, unless the stale words contain the pattern. Every run ends within 128 timeouts and a bounded number of accesses; without an answer, within 9; and after core 1 falls silent at any moment, whatever it did before, within 10 more |
| `Launch.Chip.LaunchLate` | src/pico/multicore.mojo:160-165 | A core 1 that echoes each word just after core 0 gave up on it takes `launch` beyond 50 ms, however fast core 0 polls |
| `Launch.BudgetExceeded` | src/pico/multicore.mojo:160-165 | A concrete such run, which needs more than 50 ms and returns False |
| `Launch.Chip.LaunchSilent` | src/pico/multicore.mojo:160-165 | A core 1 that does not answer is given up within 50 ms, if the accesses in between fit into 41 ms |
| `Launch.Chip.LaunchPrompt` | src/pico/multicore.mojo:160-165 | A core 1 that answers promptly is started within 50 ms, if its accesses fit, and the stale words do not contain the pattern |
| `Multicore.PatternEchoed` | src/pico/multicore.mojo:160-184 | If the last five pops are the echoes of commands 1 to 5 and come after the stale words, the bootrom echoed the pattern in a row and core 1 runs: stale echoes never fake a success |
| `Sync.StepKeeps` | src/pico/sync.mojo:33-44 | One access by any core keeps the invariant: one holder at most, a claimed lock has a holder, and the counter is the start plus the stored increments |
| `Sync.Exclusive` | src/pico/sync.mojo:38-39 | The invariant puts at most one core in the critical section |
| `Sync.RunKeeps` | src/pico/sync.mojo:38-44 | Every reachable state, for any number of cores and any schedule, keeps the invariant and mutual exclusion |
| `Sync.NoLostUpdate` | tests/on_target/main.mojo:403-408 | When all cores have finished, the counter has grown by the sum of their increments |
| `Sync.TwoCores` | tests/on_target/main.mojo:403-408 | Two cores with n rounds each leave the counter at 2n |
| `Sync.SomeoneMoves` | src/pico/sync.mojo:38-39 | While work is left, some core is not stuck: no deadlock |
| `Sync.FinishesExactly` | src/pico/sync.mojo:33-44 | A schedule finishes all the work exactly when it holds four effective accesses for each increment; no schedule holds more, and while there are fewer some core's next access is effective |
| `Sync.Sio.TryAcquire` | src/pico/sync.mojo:33-36 | Succeeds exactly when the lock was free, and the lock is claimed afterwards |
| `Sync.Sio.Release` | src/pico/sync.mojo:42-44 | Frees the lock |
| `Sync.Sio.Access` | tests/on_target/main.mojo:403-408 | One register or memory access of one core, as the state machine says |
| `Sync.Sio.Interleave` | tests/on_target/main.mojo:403-408 | Any interleaving keeps mutual exclusion and loses no stored increment |
| `Numerals.DecimalCorrect` | src/pico/rtt.mojo:90-98 | The decimal form has only digits, no leading zero, and the value of the number |
| `Numerals.DecimalUnique` | src/pico/rtt.mojo:90-98 | It is the only such text |
| `Numerals.U32Length` | src/pico/rtt.mojo:90 | A UInt32 has at most 10 digits |
| `Numerals.NibbleAt` | src/pico/rtt.mojo:114-119 | Digit i of the hex text is the nibble the loop shifts out |
| `Numerals.ParseHex` | tools/rtt_rp2350.mojo:38-55 | The loop over the characters after an optional prefix computes the value of the hex digits, or the error |
| `Numerals.HexValueExactly` | tools/rtt_rp2350.mojo:44-55 | The error is raised exactly on a character outside 0 to 9, A to F and a to f; otherwise the value is the positional value of the digits modulo 2^32 |
| `Numerals.HexRoundTrip` | src/pico/rtt.mojo:107-120 | The host parses the text of `write_hex(v)` to v, for every UInt32 |
| `Numerals.HexTextIsLower` | src/pico/rtt.mojo:107-120 | The text of `write_hex` is "0x" and eight characters among 0 to 9 and a to f |
| `Numerals.CaseIgnored` | tools/rtt_rp2350.mojo:44-55 | The host reads upper-case digits as the lower-case ones |
| `Rtt.RoomIsFree` | src/pico/rtt.mojo:70-74 | `_room`, in UInt32 arithmetic, is the capacity 1023 less the pending bytes, for all offsets |
| `Rtt.Channel.constructor` | src/pico/rtt.mojo:48-49 | An empty ring |
| `RttBlock.NeverHalfBuilt` | src/pico/rtt.mojo:9-12 | A host that scans memory while `init` stores finds only a built block with an empty ring, at every moment, exactly if memory held no block before or such a one |
| `RttBlock.FoundReads` | src/pico/rtt.mojo:9-12 | The block a host finds starts with the bytes "SEGGER RTT" and six zeros |
| `RttBlock.Init` | src/pico/rtt.mojo:41-56 | The stores leave exactly the block with the magic, one up channel over the 1024 bytes at 0x20038040 and an empty ring |
| `Rtt.Channel.HostObserves` | src/pico/rtt.mojo:3-5 | A conforming host notes WrOff |
| `Rtt.Channel.HostReads` | src/pico/rtt.mojo:3-5 | It reads one byte below the WrOff it noted; this is the next pending byte |
| `Rtt.Channel.HostPublishes` | src/pico/rtt.mojo:3-5 | It moves RdOff to the noted WrOff, which consumes exactly the bytes that were read |
| `Rtt.Channel.Reserve` | src/pico/rtt.mojo:80-82 | The two offsets are loaded at different times; a positive answer is still right at every later moment of this writer |
| `Rtt.Channel.Put` | src/pico/rtt.mojo:59-67 | Stores one byte into free space with the host anywhere in its sequence: no unread byte changes |
| `Rtt.Channel.Publish` | src/pico/rtt.mojo:85-85 | One store makes the whole message visible |
| `Rtt.Channel.Write` | src/pico/rtt.mojo:77-85 | In every interleaving, consumed plus pending bytes equal the accepted messages; the message is stored whole or not at all, and dropped only if it did not fit when the call began |
| `Rtt.Channel.WriteU32` | src/pico/rtt.mojo:88-104 | The same for the decimal text of the number |
| `Rtt.Channel.WriteHex` | src/pico/rtt.mojo:107-120 | The same for "0x" and eight digits |
| `Rtt.Channel.PutHex` | src/pico/rtt.mojo:112-119 | The ten stores put the ten characters, and nothing that is unread changes |
| `Rtt.DecimalDigits` | src/pico/rtt.mojo:90-98 | The first loop leaves the decimal digits backwards in an array of ten, and terminates |
| `Rtt.Channel.HostDrains` | src/pico/rtt.mojo:3-5 | A whole pass of a conforming host reads exactly the pending bytes |
| `RttScript.CopiedExactly` | tools/rtt_rp2350.mojo:103-106 | The bytes that the script consumes were all copied after they were stored exactly when they lie inside the copy and the writer stays ahead of it, byte by byte |
| `RttScript.CopiedAtRest` | tools/rtt_rp2350.mojo:103-106 | With a writer at rest that is so exactly when what was pending lies inside the 40 bytes |
| `RttScript.ScriptPass` | tools/rtt_rp2350.mojo:103-106 | Copy byte by byte, load of WrOff, store of RdOff, with stores of the writer before each of them and anything of it published by the load: what is consumed is what was published, in order, and each byte that was stored in time is read right |
| `RttScript.ByteLost` | tools/rtt_rp2350.mojo:103-106 | A run of the script that consumes a byte it never read |
| `Rtt.HexReadsBack` | src/pico/rtt.mojo:107-120 | A hex number accepted last and not yet consumed is what the host parses from the end of the ring, wherever it lies |
| `Crc.Crc32Mpeg2` | tools/check_elf.mojo:29-39 | The two nested loops compute the register over the first `length` bytes, from 0xFFFFFFFF |
| `Crc.RegisterIsBits` | tools/check_elf.mojo:29-39 | The byte loop is a bit-serial register fed with the message bits in order, most significant bit of each byte first |
| `Crc.StartComplements` | tools/check_elf.mojo:29-39 | The start value complements the first 32 bits: the checksum of four bytes or more is that of a register of zeros over the complement of the first four and the rest as it is |
| `Crc.ZerosShow` | tools/check_elf.mojo:29-39 | No number of zero bytes has the checksum 0 |
| `Crc.Mpeg2Linear` | tools/check_elf.mojo:33-38 | The shift step is linear over xor |
| `Crc.Mpeg2Separates` | tools/check_elf.mojo:34-38 | The step is injective, and a differing bit stays visible in the register for 32 steps |
| `Crc.BitBurstDetected` | tools/check_elf.mojo:29-39 | Equally long messages that differ, and only inside 32 consecutive bits anywhere, have different checksums |
| `Crc.ByteBurstDetected` | tools/check_elf.mojo:29-39 | In particular messages that differ only inside four consecutive bytes |
| `ShiftRegister.BurstDetected` | tools/check_elf.mojo:29-39 | For any shift register whose step keeps differences apart, a burst no wider than the register shows at the end of the message |
| `ShiftRegister.ShiftsMirror` | tools/check_elf.mojo:34-38 | Registers whose steps mirror each other stay mirrored over any number of shifts |
| `CrcMirror.MirrorReverses` | bench/bench.c:113-121 | Bit i of the mirror of a word is bit 31 - i of the word |
| `CrcMirror.MirrorByteReverses` | bench/bench.c:113-121 | Bit i of the mirror of a byte is bit 7 - i of the byte |
| `CrcMirror.RegisterMirrors` | bench/bench.c:113-121 | The reflected register over mirrored bytes is the mirror of the unreflected one, from mirrored starts, for every message |
| `CrcMirror.CrcMirrors` | bench/bench.c:113-121 | From 0xFFFFFFFF the reflected register over mirrored bytes is the bit reversal of `crc32_mpeg2` |
| `CrcMirror.BranchFree` | bench/bench.c:119-119 | The branch-free step is the conditional one |
| `CrcMirror.AddBuffer` | bench/bench.c:114-121 | The loops over words, bytes and bits compute the reflected register over the little-endian bytes of the buffer |
| `CrcMirror.BmCrc32` | bench/bench.c:112-125 | The checksum is the xor of the complements of four such passes, pass k starting from 0xFFFFFFFF ^ k |
| `CrcMirror.FourPasses` | bench/bench.c:112-125 | The four start values are 0xFFFFFFFF, 0xFFFFFFFE, 0xFFFFFFFD and 0xFFFFFFFC, in that order |
| `ElfLayout.SortSpans` | tools/check_elf.mojo:207-220 | Insertion sort leaves the lists in `lo` order and moves the three of them together: the triples are a permutation |
| `ElfLayout.Regions` | tools/check_elf.mojo:187-206 | The region loop gathers the lists, the totals and the complaints |
| `ElfLayout.GatherDescribes` | tools/check_elf.mojo:187-206 | What it gathers is exact: the listed triples are the placed sections with ends modulo 2^32, the totals are the byte sums modulo 2^32, and a complaint is made exactly for each section that deserves it |
| `ElfLayout.InTermsOfSections` | tools/check_elf.mojo:181-231 | What the gathered lists say is said of the sections themselves, by index, with the region bounds as numbers: which are allocated and not empty, that they lie in flash or RAM, that none meets another, and how many bytes they take |
| `ElfLayout.NeighboursSuffice` | tools/check_elf.mojo:221-226 | For sections in order, no neighbours collide exactly when no two sections intersect |
| `ElfLayout.Overlaps` | tools/check_elf.mojo:221-226 | Each collision of neighbours is reported under their names, and nothing else |
| `ElfLayout.ChainFits` | tools/check_elf.mojo:182-203 | Sections in a chain that respect a region fill at most the region, so the totals cannot wrap |
| `ElfLayout.CheckLayout` | tools/check_elf.mojo:181-231 | Without a section whose end wraps, nothing is reported exactly if every allocated section that is not empty (flag 2 set, whatever its type) lies inside 0x10000000 to 0x10200000 or 0x20000000 to 0x20040000, no two of them intersect, and those in RAM add up to at most 262144 - 4096 bytes. Each that leaves its region or lies in none is reported by its name, and no other; an overlap is reported exactly when two intersect; on a good layout both totals are exact sums |
| `ElfLayout.WrapAccepted` | tools/check_elf.mojo:191-197 | A concrete section whose end wraps is accepted although it leaves flash: the condition above is needed |
| `ElfCheck.CheckBoot2` | tools/check_elf.mojo:127-150 | Each of the three complaints is made exactly when it is due, with the right checksums; silent exactly when the block is at the start of flash, has 256 bytes and carries the checksum of its first 252. A block of the right size that the file cuts off stops the checker |
| `ElfCheck.CheckStart` | tools/check_elf.mojo:158-175 | Bad stack, missing thumb bit and reset outside flash are each reported exactly when they are so |
| `ElfCheck.CheckVectors` | tools/check_elf.mojo:151-175 | Silent exactly when the table is in place, the stack pointer is a 4-aligned RAM address, and the reset vector is a thumb address in flash |
| `ElfCheck.CheckSection` | tools/check_elf.mojo:126-175 | Stopped exactly when a byte it needs is past the end of the file; silent exactly on a good section |
| `ElfCheck.CheckImage` | tools/check_elf.mojo:123-179 | Silent exactly when both sections exist and every one of them is good; stopped exactly when the file cuts one of them off |
| `ElfCheck.Check` | tools/check_elf.mojo:109-233 | The image boots and its sections are laid out so exactly when nothing is reported and no section wraps; stopped exactly when the file cuts a section off |
| `ElfCheck.BuildBoot2` | tools/boot2.mojo:52-69 | Refuses more than 252 bytes; otherwise the block has 256 bytes, starts with the code, is padded with zeros, ends with the checksum from 0xFFFFFFFF with its lowest byte first, and is one the checker accepts |
| `ElfCheck.OneSealedBlock` | tools/boot2.mojo:65-69 | The code and the padding determine the block: there is only one the checker accepts |
| `ElfCheck.ZerosUnsealed` | tools/check_elf.mojo:140-150 | A block of 256 zeros is not accepted |
| `ElfCheck.DamageUnseals` | tools/check_elf.mojo:140-150 | A block damaged inside 32 consecutive bits of its code is reported; damage that reaches into the stored checksum is the subject of the next rows |
| `BootBurst.ShortDamageUnseals` | tools/check_elf.mojo:140-150 | A block damaged inside 30 consecutive bits anywhere, also across the end of the code, is reported |
| `BootBurst.LongerDamageMissed` | tools/check_elf.mojo:140-150 | Every sealed block can be damaged inside 31 consecutive bits across the end of the code and still pass |
| `BootBurst.DamageExactly` | tools/check_elf.mojo:140-150 | All damage inside w consecutive bits of the block is found exactly for w up to 30 |
| `BootBurst.Straddling` | tools/boot2.mojo:65-69 | Two sealed blocks that differ at most in the last m bits of the code and the first 30 - m of the stored checksum are the same block |
| `BootBurst.Mpeg2Tails` | tools/check_elf.mojo:34-38 | Taken back n steps, the difference of two registers that come from one by n bits each vanishes on the low 32 - n bits |
| `Retarget.FindIsFirst` | tools/retarget.mojo:37-37 | `find` gives the first occurrence, or -1 when there is none |
| `Retarget.SetQuotedAttr` | tools/retarget.mojo:28-52 | The scanning loop terminates on every line and computes the recursive rewriting |
| `Retarget.EveryLineScans` | tools/retarget.mojo:36-52 | Every line is a row of scanned keys, each with the text before it and the attribute text right after it, then a rest with nothing to rewrite |
| `Retarget.SetsOnlyAttributes` | tools/retarget.mojo:36-52 | For any such reading of a line, the result is the same row with the attribute of every scanned key set and every other byte kept |
| `Retarget.IdempotentExactly` | tools/retarget.mojo:28-52 | The rewriter is idempotent on all lines exactly when the value has no quote, whatever the key |
| `Retarget.RetargetText` | tools/retarget.mojo:55-71 | The result has as many lines as the source and ends with a newline exactly when it does. A `target triple` line becomes `target triple = "thumbv6m-unknown-none-eabi"` and a `target datalayout` line the Cortex-M0+ one, both spelled out; on any other line every CPU key that the first scan finds gets the value `cortex-m0plus`, every features key that a scan of the result finds gets the empty value, and every other byte is kept |
| `Retarget.LinesCorrespond` | tools/retarget.mojo:55-71 | Cutting the result at newlines gives the rewritten lines of the source again, one for one |
| `Retarget.IsRetargeted` | tools/retarget.mojo:58-66 | What became of one line, said with its scanned keys and the literal texts |
| `Retarget.NeutralIsVerbatim` | tools/retarget.mojo:55-71 | Text without target lines or keys comes back verbatim |
| `RetargetTwice.RewritesPieces` | tools/retarget.mojo:28-52 | On any line, cut at its quotes, the rewriter sets exactly the values of the pieces that a quote still free to open a key makes keys, and keeps every other piece |
| `RetargetTwice.StaysExactly` | tools/retarget.mojo:65-66 | After the CPU is set and the features are cleared, every CPU key that the next scan finds has its value exactly if one scan of the source pieces says so |
| `RetargetTwice.NotUndone` | tools/retarget.mojo:65-66 | A value that setting one key changes is never changed back by clearing the other |
| `RetargetTwice.LineTwiceExactly` | tools/retarget.mojo:58-66 | For every line, a second pass changes nothing exactly if the line is a target line or that scan of the source line says so |
| `RetargetTwice.TextTwiceExactly` | tools/retarget.mojo:55-71 | The whole pass is idempotent on a text exactly if each of its lines is such a line |
| `RetargetTwice.LineTwice` | tools/retarget.mojo:58-66 | A second pass changes nothing on any line in which no features key has the value `target-cpu` with `target-cpu` and a quote right after it |
| `RetargetTwice.TextTwice` | tools/retarget.mojo:55-71 | On a text of such lines the whole pass is idempotent |
| `RetargetTwice.AlignedHasNoTrap` | tools/retarget.mojo:58-66 | Such are all lines whose quotes pair up and that have no key, unquoted, between two quoted strings |
| `RetargetTwice.StrayQuoteGrows` | tools/retarget.mojo:58-66 | The line `"target-features"="target-cpu"target-cpu"` grows when the pass runs again, so the condition is needed |
| `Quicksort.Partition` | bench/bench.c:132-140 | The pivot ends between the smaller entries and the others; the range is permuted and nothing outside is touched |
| `Quicksort.Sort` | bench/bench.c:129-143 | For any two bounds, duplicates included, it terminates, leaves the range sorted and a permutation, and touches nothing outside; bounds that enclose less than two entries change nothing, wherever they lie |
| `OrderStatistics.KthIsSorted` | tools/irq_latency.mojo:266-279 | Counting and sorting name the same k-th smallest entry |
| `Latency.RunningIsStats` | bench/irq_latency.mojo:132-156 | The running words are the minimum, the maximum and the sum modulo 2^32 of the counts seen |
| `Latency.StatsUnique` | tools/irq_latency.mojo:263-265 | These properties have only one answer |
| `Latency.Measure` | bench/irq_latency.mojo:130-171 | Stops at the first reply that takes more than a million polls, exactly if there is one, with code 1 if its interrupt was late and code 2 if only its word was; the statistics of the runs before it are right. Otherwise: statistics per run, the samples of the last run stored in order, the first count, and the number of interrupts |
| `Latency.Tally` | tools/irq_latency.mojo:248-261 | The host recomputes the same statistics and fills each bin with the number of samples that fall in it |
| `Latency.Walk` | tools/irq_latency.mojo:266-279 | The walk over the histogram finds all three order statistics and the early break never leaves one unset, for every N >= 1 |
| `Latency.Evaluate` | tools/irq_latency.mojo:247-280 | The host accepts exactly the true statistics; p50, p99 and p999 are the first of the sorted samples with which 50 in 100, 99 in 100 and 999 in 1000 of them are reached, or 4095 for larger ones |
| `Latency.AvgExactly` | tools/irq_latency.mojo:123-125 | The mean in tenths of a nanosecond is within half a unit of the exact quotient exactly when its numerator does not wrap in UInt64 |
| `Time.NeverEarly` | src/pico/time.mojo:78-81 | The wait never ends before `us` true microseconds, for any polling |
| `Time.EndsOnTime` | src/pico/time.mojo:78-81 | With gaps of at most 2^32 - us it ends at the first reading at which the true elapsed time is at least us |
| `Time.GapExactly` | src/pico/time.mojo:78-81 | That bound is exact: for any longer gap there are readings that miss the end |
| `Time.Timer.SleepUs` | src/pico/time.mojo:78-81 | The loop ends at the first reading that passes its modular test |
| `Time.Timer.SleepExactly` | src/pico/time.mojo:78-81 | With short enough gaps this is the first reading at least `us` after the start |
| `Time.SleepMsExactly` | src/pico/time.mojo:84-93 | `sleep_ms` asks for the right time exactly up to 4294967 ms, and for less beyond |
| `Alias.AliasesDecode` | src/pico/mmio.mojo:8-12 | A store to a register address plus an alias offset is decoded as the operation on that register |
| `Alias.Bus.SetBits` | src/pico/mmio.mojo:47-49 | Sets the bits of the mask in that register and changes no other bit of any register; bits are counted by division of the register by two |
| `Alias.Bus.ClearBits` | src/pico/mmio.mojo:52-54 | Clears the bits of the mask in that register and changes no other register |
| `Alias.Bus.ToggleBits` | src/pico/mmio.mojo:57-59 | Toggles the bits of the mask in that register and changes no other register |
| `Alias.MergeKeeps` | src/pico/mmio.mojo:47-59 | Bits that one core leaves alone end, in every interleaving, as if the other had run alone |
| `Alias.AsIfAlone` | src/pico/mmio.mojo:47-59 | Two cores whose stores touch no bit in common each find their bits as if they had run alone |
| `Alias.ReadModifyWriteLoses` | src/pico/mmio.mojo:8-9 | With a plain read-modify-write in place of an alias the other core's bit is lost |
| `Gpio.PinsAreApart` | src/pico/gpio.mojo:89-99 | Pad registers and event fields of two pins coincide exactly when the pins do |
| `Gpio.PinsSeparate` | src/pico/gpio.mojo:156-238 | Calls on different pins touch no bit in common |
| `Gpio.SamePinSeparate` | src/pico/gpio.mojo:156-238 | Nor do calls on one pin that are about different bits |
| `Gpio.TwoCores` | src/pico/gpio.mojo:156-238 | Two cores that configure different pins, or different bits, in any sequences of calls: every bit either stores ends as if it had run alone, however the stores interleave |
| `Gpio.PullCalls` | src/pico/gpio.mojo:156-169 | The four pull calls leave bits 3 (up) and 2 (down) of register 0x4001C004 + 4n as their names say and change nothing else |
| `Gpio.DriveCall` | src/pico/gpio.mojo:171-175 | `set_drive` leaves the two low bits of the strength in bits 5:4 of register 0x4001C004 + 4n and changes nothing else |
| `Gpio.SwitchCall` | src/pico/gpio.mojo:177-200 | The four switching calls set or clear bit 0 (slew), 1 (Schmitt trigger), 6 (input enable) or 7 (output disable) of register 0x4001C004 + 4n and change nothing else |
| `Gpio.EventCall` | src/pico/gpio.mojo:223-238 | After `irq_enable(mask)` on pin n, bit 4 * (n % 8) + e of register 0x40014100 + 4 * (n / 8) is set exactly if it was or bit e of the mask is, for e < 4; after `irq_disable(mask)`, if it was and bit e of the mask is not. Every other bit of every register is as it was |
| `Gpio.Pin.Perform` | src/pico/gpio.mojo:156-238 | Each call makes exactly the stores that the properties above speak of |

## Left out

- `parse_sections` and `_sh`: reading ELF headers and running the tool chain; the checker's model starts from the list of sections.
- More than 32 instructions, more than 8 futures, a side-set width above 5, a handle bound twice: the assembler does not guard against them, and the model requires callers not to do it.
- `StateMachine.exec`, `set_clkdiv`, `enable`, `disable`, `restart`: one-line register writes; the model counts state machine cycles, so the clock divider is outside.
- `halt_core1`: the first two steps of the reset; core 1 off is the end of the protocol. `_sev` changes no state of the model.
- Launch.Chip.Launch: the two `IS_RISCV` variants of the command words come in as data.
- The host's word-splitting `_words` and the probe transport.
- Text is a sequence of characters that stand for bytes; there is no UTF-8 in the model.
- Latency.Measure: does not model the pin writes and sleeps of the loop; what the interrupt and the stopwatch reply comes in as data, with the number of polls each takes.
- The spread gate, clock gate and report of the host tool: comparisons and formatting.
- Gpio.Pin.Perform: does not cover direction, level and function select, which are plain stores to per-pin bits of SIO set and clear registers, nor the RP2350's extra pad bit.
- The RP2350 busy-wait of `sleep_ms` and the alarm: calibrated delays and one-line register writes.
- Floating point, call and toggle benchmarks, charts, probe and USB drivers, register tables: no argument to make.
