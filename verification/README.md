# A verified model of the floating-point unit, the logic analyser and their tools

This project models the repository's hand-written hardware and host tools in
Dafny and proves what they are for. It has five independent parts.

**The floating-point unit** (`DivSqrt`, `DivSqrtProof`, `Rounder`, `Recode`,
`RoundProof`, `RoundCorrect`, `FpuCorrect`, `FpuInt`, `FpuMachine`, over
`Bits` and `Ieee`). A restoring divider and square-root unit that finds one
bit a cycle, a rounder, the recoded number format with its conversions to and
from binary64, a comparator, the integer conversions and the request machine
around them. The main theorems are exact: division, square root and comparison
are those of IEEE 754-2008 for all operands, subnormals, overflow and
underflow included (`FpuCorrect.DivisionCorrect`,
`FpuCorrect.SquareRootCorrect`, `Recode.CompareCorrect`), and every request is
answered within 60 clock edges, once, with that result
(`FpuMachine.EveryRequestAnswered`, and `FpuMachine.ServesFromReset` over whole
runs). All values are integers: a double's
magnitude is counted in units of 2^-1074, and `Ieee` states correct rounding
as being nearest among all doubles, and proves that this leaves one answer.

**The logic analyser** (`IlaCapture`, `IlaSerial`, `IlaSystem`, `IlaHost`,
`IlaGui`, over `BitVec`). A triggered ring buffer in one clock domain, two scan
chains in another, and two independent host drivers. Each TAP edge carries the
probed-clock edges that came before it, so a run is any interleaving of the two
clocks. `IlaHost.EndToEnd` goes from the driver's integers through the scan
chains and the ring back to the printed samples; `IlaGui` shows that the other
driver, which builds its words a bit at a time in bytes, sends and reads the
same.

**The bytecode machine's core** (`BootSeq`, `Prefetch`, `Fifo`, `TrapPort`,
`EthminCore`). The boot sequencer, the instruction prefetch, the UART queues
and the trap port, first each alone and then sharing one clock, the staging RAM
and the processor's reset.

**The TFTP server** (`Tftp`, `TftpProof`). The sending side of RFC 1350 with the
options of RFC 2347 and RFC 2348, against a client over a network that may lose,
repeat and delay any packet ever sent. A schedule of events decides what happens
next; the program's loops are proved to be a function of it.

**The netlist and scan-state scripts, and the clock gate** (`Netlist`,
`IlaMerge`, `CtlMerge`, `FfState`, `ClkCtl`). A netlist means its runs: the
valuations of its nets that every cell accepts, for an arbitrary meaning of the
cells. `ClkCtl` is the gate the second splice inserts.

Clocked modules are classes with the module's registers as fields and a method
for each clock edge, proved equal to a pure transition function about which the
theorems are stated. Memories are arrays written in place where the module
writes them. Scripts that fill dictionaries are methods with loops.

Where the code and its comments part, the model follows the code:

- The clock gate's comment says that a keyed write is a request. The request
  crosses clock domains as a toggle, so two keyed writes between two edges of
  the free clock cancel: `ClkCtl.RequestReleases` has the exact condition.
- The analyser's status shows DONE raw. With at most three edges since the first
  arming write it is still the previous capture's, and from the fourth on it is
  not (`IlaCapture.StaleIff`); without an edge between the two arming writes the
  re-arm is missed (`IlaCapture.RearmMissed`).
- The transmit queue gives `caml_ml_output_char` no back-pressure: a character
  that finds it full is lost, and, while none comes during a UART request,
  nothing else is (`TrapPort.LosslessIff`, `TrapPort.TypingLoses`).
- On a disarming edge the analyser writes a word without moving on; the word is
  overwritten by the next one kept, so it is never part of a finished capture.
- A transfer of more than 65535 blocks reuses block numbers, and success then
  does not imply that the client has the file (`TftpProof.PromiseIff`); past
  65536 the client may hold something else (`TftpProof.SafeIff`).
- The clock merge promises that runs with the enable up are the design's. A clock
  buffer that already had an enable loses it: `CtlMerge.GateMeans` is about the
  design with that enable tied up, `CtlMerge.OpeningIff` says exactly when that
  is the design itself, and `CtlMerge.EnableLost` is a netlist for which it is not.
- A FASM file whose last line is not ended is ended by a write
  (`FfState.WriteOfRead`).
- The probe map gives the single bit of a wider net that a take of one leaves the
  name of the whole net (`IlaMerge.BitNameFinds`).
- The integer -2^31 converts to a double but not back (`FpuInt.IntRoundTrip`).

## Model

| member | source | states |
|---|---|---|
| `DivSqrt.Divider.constructor` | examples/vc707-ocaml/hardfloat.v:1337-1348 | One clock with reset high, from any register contents, leaves the unit ready, with nothing out |
| `DivSqrt.Divider.Clock` | examples/vc707-ocaml/hardfloat.v:1230-1405 | One edge of every register: the counter and handshake, the latched request, remainder, trial term, result bits and sticky flag; ready and valid stay functions of the counter |
| `DivSqrt.Divider.Accept` | examples/vc707-ocaml/hardfloat.v:1254-1323 | The data registers on the edge that takes a request, for quotients and for roots of either parity |
| `DivSqrt.Divider.Advance` | examples/vc707-ocaml/hardfloat.v:1279-1323 | The data registers on an iterating edge: the trial term subtracted when it fits, one result bit kept |
| `DivSqrt.Divider.Count` | examples/vc707-ocaml/hardfloat.v:1230-1253 | The counter and the two handshake registers, the skipped cycle included |
| `DivSqrtProof.RootStep` | examples/vc707-ocaml/hardfloat.v:1279-1323 | In every cycle of a root, n = sigX squared + bit weight times remainder with the remainder in range, and the sticky flag says whether it is zero |
| `DivSqrtProof.QuotientStep` | examples/vc707-ocaml/hardfloat.v:1279-1323 | In every cycle of a quotient, a scaled = b * sigX + bit weight times remainder with 0 <= remainder < 2b, and the sticky flag says whether it is zero |
| `DivSqrtProof.RunningStep` | examples/vc707-ocaml/hardfloat.v:1230-1323 | Every edge of a running job keeps its loop invariant and brings it nearer the end, whatever the inputs do |
| `DivSqrtProof.Accepts` | examples/vc707-ocaml/hardfloat.v:1230-1323 | A ready unit takes any normal request, whatever its registers hold, and starts the job at 53 to 55 cycles |
| `DivSqrtProof.AcceptsSpecial` | examples/vc707-ocaml/hardfloat.v:1202-1253 | A special request is answered on the next cycle |
| `DivSqrtProof.Finishes` | examples/vc707-ocaml/hardfloat.v:1230-1253 | Every accepted job finishes within its count, signals valid then and not before, and is not ready meanwhile |
| `DivSqrtProof.RootResult` | examples/vc707-ocaml/hardfloat.v:1228-1336 | The finished root is the integer square root of the radicand, and the sticky flag says exactly when it is not a perfect square |
| `DivSqrtProof.QuotientResult` | examples/vc707-ocaml/hardfloat.v:1230-1336 | The finished quotient is a * 2^54 / b rounded down, or twice a * 2^53 / b when the last cycle was skipped, with an exact sticky flag |
| `DivSqrtProof.Faithful` | examples/vc707-ocaml/hardfloat.v:1324-1336 | The significand handed to the rounder compares with every rounding boundary as the exact quotient or root does |
| `Rounder.MaskWordReversed` | examples/vc707-ocaml/hardfloat.v:500-545 | The swapping stages of 16, 8, 4, 2 and 1 bits put the shift word into the mask in reverse |
| `Rounder.RoundMaskIs` | examples/vc707-ocaml/hardfloat.v:485-569 | The rounding mask is a run of low ones whose length follows from the exponent, subnormals included |
| `Rounder.RoundedSigIs` | examples/vc707-ocaml/hardfloat.v:569-594 | The masked, incremented significand is the significand rounded to nearest, ties to even, at the position the mask marks |
| `RoundProof.PackedClass` | examples/vc707-ocaml/hardfloat.v:595-657 | Which of NaN, infinity, zero or number comes out, and the exponent and fraction of a number |
| `RoundCorrect.FieldsNormal` | examples/vc707-ocaml/hardfloat.v:595-599 | Exponent and fraction of a rounded significand in the normal range, with the carry into the exponent |
| `RoundCorrect.FieldsSubnormal` | examples/vc707-ocaml/hardfloat.v:595-599 | The same where the result is subnormal |
| `RoundCorrect.CorrectlyRounded` | examples/vc707-ocaml/hardfloat.v:466-659 | From any finished job, the rounder returns a double, the exact value rounded to nearest, ties to even (section 4.3.1 of IEEE 754-2008), over the normal, subnormal, underflow and overflow ranges |
| `RoundProof.PackedFits` | examples/vc707-ocaml/hardfloat.v:595-657 | What comes out fits a 12-bit exponent and a 52-bit fraction |
| `Recode.CountLeadingZeros` | examples/vc707-ocaml/recode64.v:38-44 | The upward loop leaves the position of the most significant set bit, as a count of leading zeros |
| `Recode.RecodedStands` | examples/vc707-ocaml/recode64.v:25-63 | The recoded number has the value of the double, subnormals normalised |
| `Recode.DerecodedMag` | examples/vc707-ocaml/recode64.v:70-100 | A recoded number in range comes back as the double of the same value |
| `Recode.Classes` | examples/vc707-ocaml/recode64.v:29-61 | NaN, infinity, zero and sign survive recoding |
| `Recode.RoundTrip` | examples/vc707-ocaml/recode64.v:21-101 | Recoding and back is the identity on every double but a NaN, whose quiet bit is set |
| `Recode.CompareCorrect` | examples/vc707-ocaml/hardfloat.v:1754-1800 | On recoded operands less-than and equal are those of IEEE 754-2008, section 5.11: subnormals and infinities in order, NaN unordered, the zeros equal |
| `FpuCorrect.HugeQuotient` | examples/vc707-ocaml/hardfloat.v:1221-1226 | A quotient whose exponent saturates is past the overflow boundary, so saturating changes no result |
| `FpuCorrect.DivisionCorrect` | examples/vc707-ocaml/hardfloat.v:1139-1405 | Recode, divide, round, recode back: IEEE 754-2008 division (section 5.4.1) of all pairs of doubles, special cases, subnormals, underflow and overflow included; a NaN answer is the positive quiet one |
| `FpuCorrect.SquareRootCorrect` | examples/vc707-ocaml/hardfloat.v:1139-1405 | The same for square root |
| `Ieee.QuotientOne` | examples/vc707-ocaml/hardfloat.v:1139-1405 | The specification of division determines the answer: two doubles that meet it are equal, or both NaN |
| `Ieee.RootOne` | examples/vc707-ocaml/hardfloat.v:1139-1405 | So does that of square root |
| `FpuInt.FindMsb` | examples/vc707-ocaml/fpu_hardfloat.v:59-65 | The loop leaves the position of the top set bit |
| `FpuInt.OfIntExact` | examples/vc707-ocaml/fpu_hardfloat.v:56-69 | Conversion of the 32-bit two's complement integer in the low half of the word is exact, zero positive |
| `FpuInt.ToIntTruncates` | examples/vc707-ocaml/fpu_hardfloat.v:74-81 | Conversion to integers answers a word whose upper half is zero and whose lower half is the number truncated toward zero, in 32-bit two's complement, and zero from a magnitude of 2^31 up and for NaN and infinity |
| `FpuInt.IntRoundTrip` | examples/vc707-ocaml/fpu_hardfloat.v:56-81 | There and back is the identity exactly when the integer is not -2^31 |
| `FpuMachine.FpuHardfloat.constructor` | examples/vc707-ocaml/fpu_hardfloat.v:53-61 | The registers as given |
| `FpuMachine.FpuHardfloat.Clock` | examples/vc707-ocaml/fpu_hardfloat.v:95-180 | One edge of the request machine, the divider and the multiply-add pipeline beside it |
| `FpuMachine.FpuHardfloat.IssueOp` | examples/vc707-ocaml/fpu_hardfloat.v:147-164 | What each operation does in its issue cycle |
| `FpuMachine.OperandsCombine` | examples/vc707-ocaml/fpu_hardfloat.v:83-93 | With any multiply-add that meets IEEE 754-2008 (section 5.4.1), the operands sent make the IEEE sum, difference or product, the sign of a zero included |
| `FpuMachine.FusedPath` | examples/vc707-ocaml/fpu_hardfloat.v:83-103 | A sum, difference or product is answered, as above, four edges after it is issued |
| `FpuMachine.DividerPath` | examples/vc707-ocaml/fpu_hardfloat.v:105-175 | A division or root is answered, correctly rounded, on the edge after the one that takes the divider's result |
| `FpuMachine.EveryRequestAnswered` | examples/vc707-ocaml/fpu_hardfloat.v:125-180 | A request to a ready unit is answered within 60 edges, once, whatever the inputs do meanwhile, with the IEEE 754 result, given for sums, differences and products that the multiply-add is that of IEEE 754; the unit is ready again on that edge |
| `FpuMachine.ReadyKept` | examples/vc707-ocaml/fpu_hardfloat.v:128-146 | Reset makes the unit ready; without a request it stays so, silent, its result unchanged |
| `FpuMachine.BusyStep` | examples/vc707-ocaml/fpu_hardfloat.v:125-180 | Wherever a request is, an edge answers it or brings its answer nearer |
| `FpuMachine.ServesFromReset` | examples/vc707-ocaml/fpu_hardfloat.v:125-180 | Over every run from a reset, with any requests and resets after it: a request made while none is outstanding is taken, answered once, with that result, within 60 edges, unless a reset drops it, and done means nothing else; result and flag move only with a done that answers in them |
| `IlaCapture.Capture.constructor` | examples/openila/openila.v:79-85 | Power-up: all registers zero, the memory as it is |
| `IlaCapture.Capture.ClkEdge` | examples/openila/openila.v:86-105 | One edge of the probed clock, the memory written in place |
| `IlaCapture.HitIs` | examples/openila/openila.v:83-99 | The trigger asks for the value's bit wherever the mask is set, and for nothing else |
| `IlaCapture.RingStep` | examples/openila/openila.v:89-105 | Keeping a word shifts it into the ring; the write on a disarming edge replaces the oldest word, and nothing else is written |
| `IlaCapture.HistoryRun` | examples/openila/openila.v:86-105 | Over any run the ring holds the last DEPTH words kept, in time order, but perhaps for a spoiled oldest slot, and without exception once done |
| `IlaCapture.CaptureCorrect` | examples/openila/openila.v:78-105 | Arm low for an edge, then high: DONE comes exactly when POST words have followed the first hit since arming, the ring ends with the last of them, and the hit is in row DEPTH-1-POST; from any state |
| `IlaCapture.CaptureHistory` | examples/openila/openila.v:78-105 | The same ring as the last DEPTH words kept since any earlier moment, across captures |
| `IlaCapture.FreshAfterFour` | examples/openila/openila.v:80-101 | From any state, four edges after the first arming write, one of them before the second, DONE is not the previous capture's |
| `IlaCapture.StaleIff` | examples/openila/openila.v:80-101 | From a finished capture, DONE seen up to three edges after the second write is the previous capture's exactly when at most three edges have come since the first |
| `IlaCapture.StaleDone` | examples/openila/openila.v:80-101 | So DONE can show for a trigger that never comes: a concrete run |
| `IlaCapture.RearmMissed` | examples/openila/openila.v:80-101 | With no edge between the two writes the re-arm is missed and the ring never changes |
| `IlaCapture.SnapshotCompletes` | examples/openila/openila.v:86-101 | MASK = 0 triggers at once: DONE exactly POST + 5 edges after arming |
| `IlaCapture.Disarms` | examples/openila/openila.v:84-90 | From any state, four edges after arm is written low the machine is neither armed nor triggered nor done |
| `IlaCapture.IdleStays` | examples/openila/openila.v:84-105 | And as long as arm stays low nothing changes but the sample register: memory, address and ring stay |
| `IlaSerial.ControlChain.NegEdge` | examples/openila/openila.v:58 | The opposite-edge copy |
| `IlaSerial.ControlChain.PosEdge` | examples/openila/openila.v:59-63 | Capture of the status, or a shift fed from the copy |
| `IlaSerial.ControlChain.Update` | examples/openila/openila.v:66-76 | The fields loaded when the key matches, else nothing |
| `IlaSerial.DataChain.NegEdge` | examples/openila/openila.v:120-124 | The opposite-edge copies |
| `IlaSerial.DataChain.PosEdge` | examples/openila/openila.v:125-143 | Capture rewinds; each shift moves a bit, each WIDTH-th loads the next word |
| `IlaSerial.LoadsCtlBits` | examples/openila/openila.v:66-76 | A word made of mask, value, post, arm and key loads exactly those, post truncated to the address width |
| `IlaSerial.ZerosLoadNothing` | examples/openila/openila.v:70-76 | An all-zero scan changes nothing |
| `IlaSerial.UnkeyedLoadsNothing` | examples/openila/openila.v:66-76 | Nor does any word without the key change anything |
| `IlaSerial.ReadingStep` | examples/openila/openila.v:116-143 | Despite the one-cycle memory pipeline and the copies, each shift presents the next bit of the next word |
| `IlaSystem.ControlScan` | examples/openila/openila.v:56-76 | A full scan of the control chain, the probed clock running at any speed beside it: what was shifted is loaded if keyed, and the host receives the status at the capture edge, zero-extended |
| `IlaSystem.UnkeyedScan` | examples/openila/openila.v:56-76 | A scan of a word without the key leaves the control register as it is |
| `IlaSystem.IdleRun` | examples/openila/openila.v:56-76 | Edges on which another chain is selected change no register of either chain, and nothing is seen of them |
| `IlaSystem.DataScan` | examples/openila/openila.v:116-149 | A full scan of the data chain of a frozen buffer: the status word and then every memory word, each LSB first, whatever the probed clock does meanwhile |
| `IlaSystem.WordsAt` | examples/openila/openila.v:20-26 | Where each word lies among the bits received |
| `IlaHost.HostAwIs` | scripts/openila.py:24-26 | The driver's address width is the device's for every power-of-two depth of at least two |
| `IlaHost.CtlWordBits` | scripts/openila.py:38-41 | The integer the driver shifts has the fields in the device's order and widths, for all Python integers, negative ones as two's complement |
| `IlaHost.StatusDecodes` | scripts/openila.py:43-47 | The status decodes to the device's registers, whatever bits follow it |
| `IlaHost.HostWordsAre` | scripts/openila.py:65-71 | Splitting the received integer into words inverts the serial readout |
| `IlaHost.HostReadIs` | scripts/openila.py:65-74 | The driver's rotation puts the ring in time order |
| `IlaHost.HostWrites` | scripts/openila.py:61-63 | A control scan by the driver leaves exactly the mask, value, post and arm asked for |
| `IlaHost.HostPolls` | scripts/openila.py:55-56 | A status poll shows the device's flags, and changes nothing |
| `IlaHost.EndToEnd` | scripts/openila.py:55-74 | Arm, poll until DONE, read, on any interleaving of the clocks, and of scans of other chains, that ticks between the arming writes, and four times from the first of them to the poll: the driver prints the words the probes carried, in time order, the trigger in row DEPTH-1-POST, no earlier word since arming a hit |
| `IlaHost.SnapshotSeen` | scripts/openila.py:55-63 | With MASK = 0 nothing need be hit: a poll four edges or more after the first arming write shows DONE exactly from POST + 5 edges after the second |
| `IlaHost.HostDisarms` | scripts/openila.py:55-59 | After a disarming write and four edges a poll shows the analyser neither armed nor triggered nor done, and it keeps nothing from then on |
| `IlaGui.ByteBits.constructor` | examples/openila/gui/ila.h:38 | All zero, rounded up to bytes |
| `IlaGui.ByteBits.Get` | examples/openila/gui/ila.h:40 | The bit at the position |
| `IlaGui.ByteBits.Set` | examples/openila/gui/ila.h:41 | That bit changes and no other |
| `IlaGui.ByteBits.Put` | examples/openila/gui/ila.h:42 | A field of n bits is overwritten and nothing else |
| `IlaGui.ByteBits.Field` | examples/openila/gui/ila.h:43 | The field as a number, at most 64 bits of it |
| `IlaGui.Aw` | examples/openila/gui/ila.h:21 | The loop finds the same address width as the Python driver, for every depth |
| `IlaGui.CtlWord` | examples/openila/gui/ila.cpp:39-48 | The bytes hold the device's control word and zeros after it |
| `IlaGui.SameCtlWord` | examples/openila/gui/ila.cpp:39-48 | That control word is bit for bit the Python driver's, for all widths and depths |
| `IlaGui.DecodeStatus` | examples/openila/gui/ila.cpp:50-60 | The status the Python driver would decode |
| `IlaGui.Reorder` | examples/openila/gui/ila.cpp:90-91 | Indexing modulo DEPTH is the rotation by the write address |
| `IlaGui.Read` | examples/openila/gui/ila.cpp:80-95 | Status and samples equal the Python driver's on the same bits |
| `IlaGui.Hex` | examples/openila/gui/ila.cpp:14-23 | The digits most significant first, leading zeros stripped but one |
| `IlaGui.HexDenotes` | examples/openila/gui/ila.cpp:14-23 | That string denotes the number the bits are |
| `IlaGui.FromHex` | examples/openila/gui/ila.cpp:25-35 | The bits of the last digits, as many as fit, whatever the string |
| `IlaGui.HexRoundTrip` | examples/openila/gui/ila.cpp:14-35 | fromHex after hex gives the same bits |
| `Tftp.Socket.SendTo` | scripts/tftp_serve.py:152 | The packet is in the network from then on |
| `Tftp.Socket.RecvFrom` | scripts/tftp_serve.py:153-160 | The next packet for the server after whatever the network and client do first, or the timer |
| `Tftp.SendAndWait` | scripts/tftp_serve.py:149-171 | The nested loops are the exchange: send, wait for the matching ACK ignoring all else, give up on an ERROR, retransmit on each of five timeouts |
| `Tftp.ServeFile` | scripts/tftp_serve.py:99-147 | The whole transfer, options first, then block by block; on success it counted every block of the file |
| `TftpProof.BlocksAre` | scripts/tftp_serve.py:129-142 | The blocks are the file; all are full but the last, which is short or empty |
| `TftpProof.BlockCount` | scripts/tftp_serve.py:129-143 | There are length / block size + 1 of them |
| `TftpProof.HappenKeeps` | scripts/tftp_serve.py:129-142 | No delivery, loss, repetition, delay or client error breaks the agreement between server and client, unless a packet is mistaken for one 65536 blocks later |
| `TftpProof.AwaitKeeps` | scripts/tftp_serve.py:153-166 | The acknowledgement waited for means the client has that block |
| `TftpProof.ExchangeLogged` | scripts/tftp_serve.py:149-171 | What passes at the socket in an exchange: the packet; anything else that arrives let pass; then the answer, an error, or a timeout and the packet again. Nothing that arrives makes the server send, and nothing is sent after what ends it |
| `TftpProof.ExchangeTimers` | scripts/tftp_serve.py:149-171 | The timeouts are the timer's, one for each time it runs out, but for those when no event is left |
| `TftpProof.FiveTries` | scripts/tftp_serve.py:149-171 | A packet is sent at most five times, once and once more after each timeout, and the transfer given up on the fifth timeout |
| `TftpProof.FirstSent` | scripts/tftp_serve.py:108-131 | The server begins with the options it agrees to, a block size of 8 to 65464 and the size of the file, if asked for any; else with the first block |
| `TftpProof.ServeLogged` | scripts/tftp_serve.py:99-171 | What passes at the socket in a transfer: such an exchange of each of its packets in turn, the options first, of five tries each, up to the end or to one that fails |
| `TftpProof.ErrorStops` | scripts/tftp_serve.py:162-165 | A transfer that receives an error fails, and sends nothing after it |
| `TftpProof.QuitStops` | scripts/tftp_serve.py:162-165 | As when the client wanted only the options: they are sent once |
| `TftpProof.ServeCorrect` | scripts/tftp_serve.py:99-147 | With at most 65536 blocks, or no packet outliving the 65535 blocks after it, the client holds a prefix of the file at every moment; with distinct block numbers, or timely packets, it has the whole file when the server reports success |
| `TftpProof.PromiseIff` | scripts/tftp_serve.py:131-144 | Success means the client has the file, on every network, exactly when the transfer has at most 65535 blocks, or 65536 when no options are acknowledged; beyond that a stale ACK can end it one block short |
| `TftpProof.SafeIff` | scripts/tftp_serve.py:129-142 | The client holds nothing but a prefix of the file, on every network, exactly when there are at most 65536 blocks; beyond that it can take an old block for the last |
| `TftpProof.WholeTimely` | scripts/tftp_serve.py:99-147 | Packets delivered in order are timely, for transfers of any length |
| `TftpProof.Completes` | scripts/tftp_serve.py:99-171 | Every schedule that delivers each packet and its answer in order succeeds, whatever else it delivers between and however early, with up to four timeouts in all, for transfers of any length |
| `TftpProof.CompletesPatiently` | scripts/tftp_serve.py:99-171 | So does every schedule with up to four timeouts for each packet, its answer coming after them |
| `BootSeq.Sequencer.constructor` | examples/vc707-ocaml/ethmin_vm_core.v:164-188 | The registers and RAMs as given |
| `BootSeq.Sequencer.Clock` | examples/vc707-ocaml/ethmin_vm_core.v:192-279 | One edge of the sequencer, with the program RAM and the processor's memories written in place |
| `BootSeq.HeaderSteps` | examples/vc707-ocaml/ethmin_vm_core.v:216-231 | The three counts are latched from staged words 2 to 4 in four edges |
| `BootSeq.CodeStep` | examples/vc707-ocaml/ethmin_vm_core.v:233-259 | Each edge of the code section keeps the copied prefix equal to the staged code |
| `BootSeq.HeapStep` | examples/vc707-ocaml/ethmin_vm_core.v:233-259 | The same for the heap, a write behind the read |
| `BootSeq.GlobalsStep` | examples/vc707-ocaml/ethmin_vm_core.v:233-259 | The same for the globals, Val_int(0) past their end |
| `BootSeq.BootLoads` | examples/vc707-ocaml/ethmin_vm_core.v:171-279 | A boot of any staged image that fits: the processor is held until program RAM, heap and all 8192 globals hold the image, exactly, and released then |
| `BootSeq.ResetLoads` | examples/vc707-ocaml/ethmin_vm_core.v:171-279 | After a reset, the resident image by the same law |
| `Prefetch.Fetcher.Clock` | examples/vc707-ocaml/ethmin_vm_core.v:288-305 | One edge of the prefetch registers |
| `Prefetch.CoherentStep` | examples/vc707-ocaml/ethmin_vm_core.v:282-305 | Every edge keeps the prefetched word equal to the selected memory's, and the processor running only under a resting sequencer |
| `Prefetch.FetchCorrect` | examples/vc707-ocaml/ethmin_vm_core.v:282-305 | After a reset, over all jumps, boots and resets, a valid instruction word is the one at pc of the bank selected now, 0xDEADBEEF outside it |
| `Prefetch.FetchTiming` | examples/vc707-ocaml/ethmin_vm_core.v:286-305 | Straight-line code pays no extra cycle and a jump one |
| `Fifo.Flags` | examples/vc707-ocaml/ethmin_vm_core.v:343-344 | Empty, full and the head, of the bytes held |
| `Fifo.Queues` | examples/vc707-ocaml/ethmin_vm_core.v:368-394 | Pushed with room and popped with a byte there, the nine-bit pointers keep a queue of at most 256 bytes |
| `Fifo.Buffer.constructor` | examples/vc707-ocaml/ethmin_vm_core.v:341-344 | Empty |
| `Fifo.Buffer.Clock` | examples/vc707-ocaml/ethmin_vm_core.v:368-394 | A byte in, a byte out, both or neither, in place |
| `TrapPort.Port.constructor` | examples/vc707-ocaml/ethmin_vm_core.v:410-418 | The registers as given |
| `TrapPort.Port.Clock` | examples/vc707-ocaml/ethmin_vm_core.v:360-522 | One edge of the trap port, the staging RAM's program side and the two UART queues |
| `TrapPort.HandshakeStep` | examples/vc707-ocaml/ethmin_vm_core.v:463-522 | Every pulse (boot, release, send, pop) comes with the answer to the request it belongs to, and only then; no answer without a request |
| `TrapPort.BalancedStep` | examples/vc707-ocaml/ethmin_vm_core.v:360-522 | Each edge keeps the count of requests against answers; the bytes of both queues, those given being the ones in the answer register; and the staging RAM and lamps as the answered requests have written them |
| `TrapPort.RememberedStep` | examples/vc707-ocaml/ethmin_vm_core.v:450-509 | The staging RAM holds, byte for byte, what the answered requests wrote; the lamps and the transmit length likewise |
| `TrapPort.OutputAccepted` | examples/vc707-ocaml/ethmin_vm_core.v:379-394 | What the program outputs on an edge is accepted exactly when it is no character that finds the transmit queue full; that one is lost |
| `TrapPort.PortCorrect` | examples/vc707-ocaml/ethmin_vm_core.v:360-522 | Over every run: no more answers than requests, one waiting at most, and those a reset dropped; bytes given in answers are a prefix of those taken from the UART; bytes sent are a prefix of those accepted, which are those output less the characters that found the queue full; both queues hold at most 256 |
| `TrapPort.ServesFromReset` | examples/vc707-ocaml/ethmin_vm_core.v:410-522 | Over every run from a reset: each request is answered once, on the next edge, a windowed read an edge later, a UART write on the first edge with room after that, its byte accepted; and each read with what it is owed: the byte last written there, the lamps as last written, the next byte received, the status |
| `TrapPort.LosslessIff` | examples/vc707-ocaml/ethmin_vm_core.v:379-394 | Over every run between resets, everything output is accepted exactly when no character comes while the transmit queue is full |
| `TrapPort.OverrunLoses` | examples/vc707-ocaml/ethmin_vm_core.v:379-394 | More output than what has been sent and 257 bytes is output lost |
| `TrapPort.TypingLoses` | examples/vc707-ocaml/ethmin_vm_core.v:379-394 | The losing input: 258 characters, however far apart, while the UART is busy |
| `TrapPort.Drains` | examples/vc707-ocaml/ethmin_vm_core.v:387-393 | While the UART is free, an accepted byte is sent every two edges until none is left |
| `TrapPort.ResetStarts` | examples/vc707-ocaml/ethmin_vm_core.v:469-475 | A reset establishes all of it, from any registers |
| `TrapPort.StoredReadsBack` | examples/vc707-ocaml/ethmin_vm_core.v:454-461 | A byte written to the staging RAM reads back, and every other byte is as it was |
| `TrapPort.WordsAre` | examples/vc707-ocaml/ethmin_vm_core.v:454-461 | A word of the staging RAM, as the sequencer reads it, is the four bytes written, least significant first |
| `EthminCore.InvStep` | examples/vc707-ocaml/ethmin_vm_core.v:171-522 | The three machines together: a boot request comes only while the processor runs, and it runs only under a resting sequencer |
| `EthminCore.CoreStarts` | examples/vc707-ocaml/ethmin_vm_core.v:200-208 | A reset edge makes the three machines agree, whatever their registers held |
| `EthminCore.CoreCorrect` | examples/vc707-ocaml/ethmin_vm_core.v:171-522 | Over every run of the whole core: the instruction offered, the counts and the bytes as above |
| `EthminCore.CoreServes` | examples/vc707-ocaml/ethmin_vm_core.v:171-522 | And every request is answered once, with what it is owed |
| `EthminCore.CoreFromReset` | examples/vc707-ocaml/ethmin_vm_core.v:171-522 | All of it from a reset edge, whatever the registers held |
| `EthminCore.CoreLossless` | examples/vc707-ocaml/ethmin_vm_core.v:360-394 | The exact condition for losing no output, over the runs of the whole core |
| `EthminCore.BootTaken` | examples/vc707-ocaml/ethmin_vm_core.v:267-275 | No boot request is lost |
| `EthminCore.BootServed` | examples/vc707-ocaml/ethmin_vm_core.v:171-522 | Whenever a program asks to boot a staged image that fits, the machine restarts with exactly that image, a number of edges later that depends on its counts alone |
| `EthminCore.ResetServed` | examples/vc707-ocaml/ethmin_vm_core.v:171-522 | After every reset, whatever the registers held, the whole core starts with exactly the resident image, a number of edges later that depends on its size alone |
| `ClkCtl.Controller.constructor` | examples/jtag-clkctl/jtag_clkctl.v:27-45 | Idle at power-up |
| `ClkCtl.Controller.DrckEdge` | examples/jtag-clkctl/jtag_clkctl.v:27-32 | Capture of the status, or a shift |
| `ClkCtl.Controller.UpdateEdge` | examples/jtag-clkctl/jtag_clkctl.v:35-41 | A keyed request is latched and toggles; any other changes nothing |
| `ClkCtl.Controller.ClkEdge` | examples/jtag-clkctl/jtag_clkctl.v:43-53 | The synchroniser, the count and the enable |
| `ClkCtl.ExactlyN` | examples/jtag-clkctl/jtag_clkctl.v:46-53 | From the edge that sees a request, with none behind it, the enable is up for the next N edges without a gap and then stays down, whatever count was running |
| `ClkCtl.PulseCount` | examples/jtag-clkctl/jtag_clkctl.v:46-53 | That is N pulses in all |
| `ClkCtl.OthersNothing` | examples/jtag-clkctl/jtag_clkctl.v:35-41 | An update while another chain is selected, or without the key, changes nothing |
| `ClkCtl.RequestReleases` | examples/jtag-clkctl/jtag_clkctl.v:35-53 | From an idle gate, updates between two edges, of this chain or others, the last request for N, release N pulses, on edges 3 to N + 2, exactly when an odd number of them are requests; an even number cancel |
| `ClkCtl.OthersPass` | examples/jtag-clkctl/jtag_clkctl.v:35-53 | Updates of other chains between the edges of a run change nothing in it |
| `ClkCtl.RequestReplaces` | examples/jtag-clkctl/jtag_clkctl.v:35-53 | From any state whose clock has ticked since the last request, a request replaces the count running or on its way, from the third edge on |
| `ClkCtl.FreeRuns` | examples/jtag-clkctl/jtag_clkctl.v:46-53 | FREE holds the enable up |
| `ClkCtl.ScanRequests` | examples/jtag-clkctl/jtag_clkctl.v:27-41 | Thirty-two bits shifted in and updated are the request if keyed; otherwise only the shift register changes |
| `ClkCtl.RequestWordAsks` | examples/jtag-clkctl/jtag_clkctl.v:5-10 | The word with N below, the key above it and FREE on top is keyed and asks for exactly that |
| `ClkCtl.ScanReleases` | examples/jtag-clkctl/jtag_clkctl.v:27-53 | From the scan to the pulses: that word, scanned into an idle gate, releases exactly N pulses, for every N below 2^24, whatever other chains are updated meanwhile |
| `ClkCtl.ReadsBack` | examples/jtag-clkctl/jtag_clkctl.v:27-33 | What is received while shifting after a capture is the status, bit 0 first |
| `Netlist.FreshBase` | scripts/openila_merge.py:41-50 | The first id above every net of every module |
| `Netlist.MapCellIs` | scripts/openila_merge.py:73-76 | An inserted cell keeps its type, parameters, attributes and port directions; each bit of each port is renamed |
| `Netlist.AcceptsRenamed` | scripts/openila_merge.py:70-76 | A renamed cell accepts a valuation as the cell accepts it pulled back through the renaming |
| `IlaMerge.IndexedIs` | scripts/openila_merge.py:36-39 | NAME[INDEX] splits into the name and the number, whatever they are |
| `IlaMerge.IndexedOnly` | scripts/openila_merge.py:36-39 | Nothing else splits |
| `IlaMerge.FindBit` | scripts/openila_merge.py:35-39 | A name that is no net's finds the bit it indexes, or nothing |
| `IlaMerge.FillProbes` | scripts/openila_merge.py:52-62 | The probe word, an unknown name an error |
| `IlaMerge.ProbeAt` | scripts/openila_merge.py:52-62 | Bit j of the i-th net named is at position j after the nets before it, zero when undriven |
| `IlaMerge.BitNameFinds` | scripts/openila_merge.py:54-62 | The map's name of a bit finds that bit, exactly unless a take has cut a wider net to one bit |
| `IlaMerge.PortMapIs` | scripts/openila_merge.py:63-68 | Probe port bit k becomes probe bit k, zero past the last |
| `IlaMerge.Top.Splice` | scripts/openila_merge.py:73-81 | Cells and nets inserted in place under the prefix |
| `IlaMerge.Merge` | scripts/openila_merge.py:41-81 | The script succeeds exactly when every net named exists, the analyser has its ports and the probes fit; then its result is the splice, with ids above the design's |
| `IlaMerge.MergeableIff` | scripts/openila_merge.py:33-68 | When it succeeds: the ports are there, every net named is found, the clock's with a bit, and the probes are no wider than the port |
| `IlaMerge.MergedCells` | scripts/openila_merge.py:70-76 | The cells are the design's, untouched, and the analyser's renamed under the prefix, no others |
| `IlaMerge.SpliceMeans` | scripts/openila_merge.py:70-76 | With prefix-free cell names, the runs of the merged netlist are exactly the runs of the design that are also runs of the analyser, read through its ports |
| `IlaMerge.MergeMeans` | scripts/openila_merge.py:41-81 | For a merge the script makes: and its probe inputs read the nets named, bit by bit in order, zero for undriven bits and past the last, and its clock the clock named |
| `IlaMerge.SpliceExtends` | scripts/openila_merge.py:50-76 | Every run of the design goes on, whatever run the analyser makes of the probed values: its nets are apart from the design's and from each other |
| `IlaMerge.SpliceDrives` | scripts/openila_merge.py:70-76 | The design's nets keep exactly their drivers if the analyser drives none of its inputs |
| `IlaMerge.PortsBelow` | scripts/openila_merge.py:33-68 | What the analyser is wired to are nets of the design or constants |
| `IlaMerge.NamesKept` | scripts/openila_merge.py:77-81 | Every net name of the design still names the same bits |
| `IlaMerge.NamesAdded` | scripts/openila_merge.py:77-81 | A name is added for each net of the analyser with a bit of its own, and for no other: none is an alias of the design's |
| `CtlMerge.Merge` | scripts/jtag_ctl_merge.py:37-103 | The script's result: the buffer gated, a free buffer added, the controller and its names spliced and the placement pinned; an error for a buffer of another kind or a placement without bels |
| `CtlMerge.Pin` | scripts/jtag_ctl_merge.py:95-103 | Every placed cell gets its bel as attribute BEL, all else of it unchanged, and every other cell is unchanged; or an error if a bel is missing |
| `CtlMerge.ResultCells` | scripts/jtag_ctl_merge.py:55-103 | So of the script's result: the design's cells, the gated buffer and the controller's renamed cells, each with its bel and nothing else changed |
| `CtlMerge.GatedIs` | scripts/jtag_ctl_merge.py:55-63 | The gated buffer is the buffer with its type and enable changed, and nothing else |
| `CtlMerge.CtlPortsAre` | scripts/jtag_ctl_merge.py:72-84 | The controller's clock is the free copy, its enable the buffer's, its status the bits named, zero past the last |
| `CtlMerge.GateMeans` | scripts/jtag_ctl_merge.py:55-88 | For the ports the script makes: the runs of the merged netlist with the controller's enable always one are exactly those of the design with its buffer open, beside a free-running buffer and a run of the controller, its ports reading the free clock, the enable and the nets named |
| `CtlMerge.FreeBufferPasses` | scripts/jtag_ctl_merge.py:64-67 | The free buffer passes the clock |
| `CtlMerge.FreeBufferDrives` | scripts/jtag_ctl_merge.py:64-67 | And drives its own net alone |
| `CtlMerge.OpenBufferSame` | scripts/jtag_ctl_merge.py:55-63 | With a BUFG without an enable, or a BUFGCE whose enable is tied to one, the opened design runs exactly as the design |
| `CtlMerge.OpenedIff` | scripts/jtag_ctl_merge.py:55-63 | A buffer cell means the same opened, under every meaning that makes an enabled BUFGCE a BUFG, exactly in those two cases |
| `CtlMerge.OpeningIff` | scripts/jtag_ctl_merge.py:55-63 | The same of the whole design, for the one buffer on its net: in any other case the merge changes some run |
| `CtlMerge.EnableLost` | scripts/jtag_ctl_merge.py:55-63 | The input that shows it: a clock that was gated passes in the merged design, with real gates |
| `CtlMerge.GateExtends` | scripts/jtag_ctl_merge.py:52-88 | Conversely every run of the opened design goes on, for controller ids below 10^7 and whatever run the controller makes on what its ports read; its nets are apart from the design's and from the two reserved ones |
| `CtlMerge.PinnedRuns` | scripts/jtag_ctl_merge.py:95-103 | Pinning changes no run |
| `FfState.FeatureInjective` | scripts/ff_state.py:28-32 | Flip-flops in different places have different features |
| `FfState.FeatureIs` | scripts/ff_state.py:28-32 | The feature spelled out: the tile, the slice kind with its column, the bel and .ZINI |
| `FfState.StripIs` | scripts/ff_state.py:42-43 | Stripping takes the white space at both ends of a line, and nothing else |
| `FfState.SpaceIs` | scripts/ff_state.py:42-43 | White space is Python's |
| `FfState.ValueIs` | scripts/ff_state.py:42-47 | A flop is zero exactly when a line, stripped, is its feature |
| `FfState.Write` | scripts/ff_state.py:34-63 | The file split into lines, the edits gathered, the lines filtered and the missing features appended, and the lines joined are the written file |
| `FfState.TextValue` | scripts/ff_state.py:34-63 | What is joined splits into the same lines again, so a value in the file is its value in the lines written |
| `FfState.WrittenValue` | scripts/ff_state.py:60-63 | Each feature edited has its value, every other the one it had |
| `FfState.FilteredConcat` | scripts/ff_state.py:60 | The lines that stay keep their order and number |
| `FfState.MissingConcat` | scripts/ff_state.py:61-62 | The features appended come in the order of the edits |
| `FfState.ReadAfterWrite` | scripts/ff_state.py:42-63 | Reading back gives every value asked for exactly when no two names of one flop were asked for different values |
| `FfState.OthersKept` | scripts/ff_state.py:57-63 | Flops not named keep their values |
| `FfState.WriteOfRead` | scripts/ff_state.py:42-63 | Writing values that were read gives the file back, exactly when its last line is ended or it is empty; else it ends it |
| `FfState.SecondWriteWins` | scripts/ff_state.py:49-63 | A second write wins where it speaks, the first holds elsewhere |

## Left out

- FpuMachine.FusedPath: the multiply-add unit itself is an arbitrary function of its operands behind two pipeline stages; its arithmetic is not modelled. That it is that of IEEE 754 is a hypothesis where sums, differences and products are concerned.
- Exception flags of the rounder, the divider and the comparator, and the signaling comparison.
- Rounder.RoundedSigIs: the rounding modes other than nearest-even are modelled but nothing is proved of their results, since the unit never selects them.
- IlaHost.EndToEnd: the JTAG tap, the cable and openFPGALoader are represented by the order of edges they produce: capture, then a falling and a rising edge a bit, then update.
- IlaGui.FromHex: characters are digits or count as zero, as the loop treats them; Qt's own parsing and the job queue around the tool are not modelled.
- Tftp.SendAndWait: packets are values, not bytes; runts and strangers are one event that the loop ignores. Requests, the ARP lookup and the choice of file are left out.
- The packet RAM is an input, the word at the address asked; its writes and the Ethernet side are left out, as are the millisecond timer and the input synchronisers.
- TrapPort.PortCorrect: the processor outputs no character while a UART request waits; `TrapPort.PutcWins` shows what would happen otherwise. A byte that overruns the UART before it is taken is not part of this model. The processor itself is only its request registers.
- BootSeq.BootLoads: images that reach past the 16384-word staging window or the 8192 globals wrap around in the address counters; nothing is proved of those.
- Prefetch.FetchCorrect: a loaded program of more than 32768 words, which no staged image that fits can be, would be fetched modulo 32768.
- ClkCtl.RequestReleases: metastability and the clock tree are not modelled; a synchroniser stage takes the value it samples.
- IlaMerge.Merge: finding the top module, reading and writing JSON and the map file; a take count is a natural number.
- CtlMerge.Merge: hidden-name flags and the attributes of nets, which mean nothing.
- FfState.Write: splitting the state file into names and values, sorting what a read prints, and gathering the flops from the netlist and placement.
- The program RAM primitive, the DMA engine, the UART core and the processor are not part of this model.
- The repository's other scripts, LiteX generators, device-tree and statistics tools, and the emulator, which would add nothing hard.
