# JTAG remote server: from bitbang streams to adapter bytes and back

The server receives raw per-clock (TMS, TDI) streams over XVC or remote bitbang. It tracks the TAP controller, cuts a
stream into TMS and DATA regions, lowers each region to commands of an adapter (FTDI MPSSE or USB Blaster), and puts
TDO together again from the packed responses. This project models that compiler, the adapters that run its output and
the decoder on the way back, and proves that together they agree with a server that handles one clock at a time.

## How it is put together

- `bits`, `packing`: C arithmetic on bytes, and the packed vectors `a[i / 8] >> (i % 8)`.
- `tap`, `reference`: the 16-state controller (clause 6 of IEEE 1149.1-2001) and the bit-at-a-time server `Serve`.
  The device is arbitrary: TDO is any function of the clocks so far, with TDI hidden (`Mask`) on clocks taken outside
  the Shift states.
- `regions`, `execution`: the region analysis, and what running regions must preserve.
- `sampling`, `mpsse_chip`, `blaster_chip`: interpreters for the two adapters, from received bytes to TCK cycles and
  response bytes. Unused bits of responses are arbitrary (`junk`).
- `ftdi`: the USB link, with partial transfers, failures and the retry loops.
- `mpsse_buffer`, `mpsse`, `usb_blaster`: the write buffer and the two drivers, as classes over arrays.
- `tck`: from the period a client asks for to the divisor of the MPSSE clock.
- `globals`, `jtag`: the globals and the common JTAG layer; the driver table is the datatype `Adapter`.
- `xvc_protocol`, `xvc_client`, `xvc`: the XVC server, and how its client writes requests. `rbb_protocol`, `rbb`, `rbb_marks`: the remote bitbang server.
- `interchange`: MPSSE against USB Blaster, and deferred against immediate reading.
- `chain`, `probe`: a daisy chain of TAPs, and `jtag_probe_devices` on it.
- `start`: the layers put together from power-up.

The contract of every operation is stated for runs in which no transfer has been given up (`broken` on the link is
sticky); contracts that say when the program ends hold for the other runs as well. Partial transfers are allowed
everywhere. A retry loop gives up just after a transfer that failed or 100 partial ones, and `broken` takes a link to blame
in that sense (`Ftdi.Context.WriteRetry`, `Jtag.Port.NeverStarved`). A read when nothing is left to come does not set it; it
sets `starved`, and every operation keeps the invariant that this never happens in a run in which no transfer has been
given up. On a reliable link, which never fails and completes one of any 100 transfers in a row, no transfer is ever given
up, so that there the theorems hold without a condition. Theorems about TDO assume that the device powered up in the
tracked state; theorems about the TMS stream do not, and the servers' `InStep` says how such a device gets into step.

What the program and the reference have in common is pinned from outside: the state machine by the equations of the
standard (`Tap.NextStateEquations`), the XVC requests by a client's encoder (`XvcClient.Understood`, `XvcClient.ParsesOnly`),
the remote bitbang characters by literals (`RbbProtocol.PinCharacters`, `RbbProtocol.OneAtATimeSpells`).

Assumptions about the adapters, beyond their documents: a TMS command sends Length+1 bits, up to eight, and bit 7 of the
byte also sets TDI; TMS keeps its level during data and clock-only commands; byte-shift mode of the USB Blaster always
clocks eight times per byte and leaves TCK low; TDO changes on the falling edge of TCK.

## What the proofs found

- `assert(do_read == read_bit)` in src/rbb.cpp does not check that all marks of a region are equal, and together with the
  final count it accepts chunks that are answered wrongly (`RbbProtocol.AssertionsTooWeak`), from power-up and with
  either adapter (`Start.AnswerWrongly`). Among the accepted chunks, the ones answered rightly for every device are
  exactly the well-marked ones (`RbbMarks.ExactlyWellMarked`).
- An XVC client that asks for a TCK period of more than 2000 ns, or of 0, stops the server before any shift command of the
  same tick is answered: `round(1000.0 / tck)` is 0 and is divided by (or, for 0, the conversion of infinity is undefined).
  Periods of 1 to 2000 ns are exactly the ones survived (`Tck.SettableExactly`, `Xvc.Server.Tick`).
- `assert(cur_state == state)` of both servers cannot fail unless a transfer has been given up before, nor can the two
  assertions of the USB Blaster driver; after one has, they may, and the program ends there.
- The drivers are interchangeable for a scan if and only if the TMS pin is low or there are no left-over bits, which the
  USB Blaster driver sends with TMS low (`UsbBlaster.SameScan`); in a Shift state the pin is low. They are for a TMS
  sequence if and only if bit 7 of the bytes sent in a Shift state is zero (`Interchange.AlikeExactly`).
- Remote bitbang takes every character with TCK high for a clock; that is the number of rising edges just for clients
  that lower TCK in between (`RbbProtocol.ClocksAreEdges`); "44" is taken for two clocks.
- `mpsse_jtag_clock_tck` makes the requested number of clocks just up to 8 * 65537 - 1 (`Mpsse.FreeClocksExact`). Its
  only caller asks for at most 32767, so no client gets there.
- Scans and free clocks keep the tracked state right in the Shift states and in Run-Test/Idle, but not everywhere
  (`Scan.TrackedExactly`); the XVC and remote bitbang servers ask for them only there.
- `jtag_probe_devices` takes a chain of eight or more devices for an empty one (`Probe.ProbeDevices`).

## Model

| member | source | states |
|---|---|---|
| Tap.PinLow | src/mpsse.cpp:116-147 | from a start outside Shift and Run-Test/Idle, TMS was left low by the last clock whenever the fold is Shift-DR, Shift-IR or Run-Test/Idle: what bulk data and clock-only commands rely on |
| Tap.NextStateEquations | src/common.cpp:9-42 | all 32 edges: next_state is the flip-flop equations of the standard under its state assignment, and the Shift states are the codes ?010 |
| Tap.CodeUnique | src/common.cpp:9-42 | the state assignment tells all 16 states apart |
| Tap.Resynchronise | src/common.cpp:89-112 | after five consecutive ones, every start state leads to the same state, for every later prefix |
| Tap.MaskOutsideShift | src/xvc.cpp:128-145 | streams with the same TMS and no clock in a Shift state look the same to the device |
| Regions.AnalyzeBitbang | src/common.cpp:255-296 | the regions are contiguous, cover [0, bits), are homogeneous (TMS: all clocks outside Shift; DATA: one Shift state, TMS 0 but for a final 1 exactly if flipped) and maximal; the final state is the fold of next_state |
| Regions.CutUnique | src/common.cpp:255-296 | that specification determines the cut: any two results that satisfy it are equal |
| Ftdi.Context.WriteRetry | src/common.cpp:498-513 | success exactly if the whole buffer moved in order once, failure leaves a prefix moved and comes just after a transfer that failed or 100 partial ones; a reliable link succeeds |
| Ftdi.Context.ReadRetry | src/common.cpp:481-496 | if that many response bytes are still to come: success exactly if the next len of them moved in order once, failure leaves fewer of them moved, and no read waits in vain; failure comes just after a transfer that failed or 100 partial ones |
| MpsseBuffer.Buffer.Flush | src/mpsse_buffer.cpp:18-30 | success exactly if delivered bytes become delivered plus pending; on failure a prefix; the buffer is empty |
| MpsseBuffer.Buffer.EnsureSpace | src/mpsse_buffer.cpp:36-46 | refuses what can never fit and changes nothing then; otherwise the log is kept and there is room, or the buffer is empty; nothing is sent before 2048 bytes are reached |
| MpsseBuffer.Buffer.AppendCommand | src/mpsse.cpp:125-135 | the log grows by exactly the command; the buffer holds whole commands, its index stays below 8192, and it holds 2048 bytes or more only if it holds one command |
| MpsseChip.ExecAppend | src/mpsse.cpp:98-170 | the byte stream decodes unambiguously: a whole number of commands means the same whatever follows |
| Sampling.RegisterBit | src/mpsse.cpp:203-207 | after n samples the response byte holds them in its top n bits, below them what was there before |
| MpsseChip.AnswersCarry | src/mpsse.cpp:116-167 | the responses to whole bytes, left-over bits and the TMS=1 bit carry the samples where the unpacker looks for them |
| MpsseChip.ScanMeans | src/mpsse.cpp:116-170 | the commands of a scan clock exactly its bits, TMS held but for the last bit if flipped, and a reading scan answers with exactly their samples |
| Mpsse.TmsStep | src/mpsse.cpp:98-114 | each TMS command continues the clocks of the sequence by its bits |
| Mpsse.Driver.TmsSeq | src/mpsse.cpp:98-114 | delivered plus pending bytes decode to the old trace followed by one clock per TMS bit; pending reads are kept |
| Mpsse.Driver.ScanChainSend | src/mpsse.cpp:116-170 | the same for a scan: the clocks, the tracked state, and one more pending read with the samples of exactly these clocks; refused and without effect if the bytes can never fit |
| Mpsse.UnpackedReceived | src/mpsse.cpp:189-217 | round trip: unpacking rebuilds bit i as the i-th sample for all i below num_bits, zeroes above up to the byte, whatever the unused response bits; a flip bit that starts a byte is merged into what was there |
| Mpsse.Driver.ScanChainRecv | src/mpsse.cpp:172-220 | consumes exactly the response bytes of the oldest pending scan and leaves its samples in the buffer, under partial reads; fails just if a transfer fails, and never waits for a byte that was not asked for |
| Mpsse.Driver.NothingUnread | src/mpsse.cpp:172-220 | with no scan pending the response queue is empty |
| Mpsse.FreeClocksExact | src/mpsse.cpp:246-272 | the clocks made equal the clocks requested if and only if fewer than 8 * 65537 are requested |
| Mpsse.Driver.ClockTck | src/mpsse.cpp:242-274 | everything pending is delivered first, then the pins are held for that many clocks |
| Mpsse.Driver.SetTckFreq | src/mpsse.cpp:222-240 | delivers what is pending, then exactly the divisor command, and clocks nothing; it dies just of a frequency of zero |
| Tck.SettableExactly | src/xvc.cpp:86-92 | the frequency computed from a period is defined and not zero if and only if the period is 1 to 2000 ns |
| Tck.SlowClockStops | src/mpsse.cpp:226-229 | a concrete request, 8000 ns, whose frequency is the zero that is divided by |
| Tck.RightDivisor | src/xvc.cpp:91 | the divisor computed from a period is the smallest that does not exceed the frequency, which is 1000 / period with halves rounded up, stated without either computation |
| Tck.DivisorIsBest | src/mpsse.cpp:226-229 | of all divisors, the one with the highest frequency that does not exceed the one asked for |
| BlasterChip.CommandMeans | src/usb_blaster.cpp:16-40 | a command byte decodes to a pin write with just its TMS, TDI, TCK and read flags |
| BlasterChip.CommandBits | src/usb_blaster.cpp:16-40 | every bit of a command byte, nCE, nCS and the LED included |
| BlasterChip.PulsesMean | src/usb_blaster.cpp:158-170 | bit mode clocks exactly the given pairs and answers one byte for each sample |
| BlasterChip.ShiftedMore | src/usb_blaster.cpp:129-156 | packets add up: where the payload is cut into packets makes no difference |
| UsbBlaster.PartsMean | src/usb_blaster.cpp:114-225 | packets, left-over bits and the TMS=1 bit together clock exactly the scan, whatever the level of TMS before, and what is collected carries its samples |
| UsbBlaster.SameScan | src/usb_blaster.cpp:158-170 | this driver clocks the scan that the MPSSE driver would if and only if the pin is low or there are no left-over bits |
| UsbBlaster.DifferentScan | src/usb_blaster.cpp:158-170 | a concrete scan, of one bit with the pin high, for which it does not |
| UsbBlaster.Driver.TmsSeq | src/usb_blaster.cpp:90-112 | the bytes decode to the old trace followed by one clock per TMS bit, TDI low |
| UsbBlaster.Driver.ScanChainSend | src/usb_blaster.cpp:114-225 | the clocks of the scan, the tracked state, and a receive buffer that carries the samples with no response left unread; the program ends exactly if a scan has not been read back, which takes a transfer given up before |
| UsbBlaster.UnpackedReceived | src/usb_blaster.cpp:236-265 | round trip: the buffer is rebuilt bit for bit |
| UsbBlaster.Driver.ScanChainRecv | src/usb_blaster.cpp:227-270 | the samples are in the buffer; the program ends on offset and recv_buffer_len just if a transfer was given up before |
| Jtag.Port.TmsSeq | src/common.cpp:95-112 | the tracked state moves by the bits, bits_send grows by their number, the adapter clocks them, from any state; a tracked state that is the fold stays so |
| Jtag.Port.ScanChainSend | src/common.cpp:149-157 | from any state: the adapter's own clocks of the scan, accounting, one more pending read with their samples; from a Shift state TMS is low on the wires without being set, and the tracked state stays the fold |
| Scan.TrackedExactly | src/common.cpp:149-157 | after pins that hold TMS, with or without a last bit with TMS=1, the tracked state is the fold of the clocks if and only if the held level keeps the state, or keeps where TMS=1 leads |
| Scan.TrackedWrong | src/common.cpp:149-157 | a concrete scan, of one bit in Capture-DR, that leaves the tracked state behind |
| Jtag.Port.ScanChain | src/common.cpp:132-147 | a synchronous scan from any state: clocks, state, and the samples in the buffer, with either adapter |
| Jtag.Port.ClockTck | src/common.cpp:250-253 | free clocks hold TMS, from any state; in Run-Test/Idle it is low and the tracked state stays the fold; bits_send grows by the request |
| Jtag.Port.PinIsLow | src/mpsse.cpp:116-147 | invariant of every run: TMS is low on the wires whenever the tracked state is Shift or Run-Test/Idle |
| Jtag.Port.NeverStarved | src/mpsse.cpp:189-213 | invariant of every run: no read waits for a byte that will not come unless a transfer has been given up before; none is given up unless one has failed or 100 in a row have been partial, and none on a reliable link |
| Jtag.Port.GotoTlr | src/common.cpp:89-93 | Test-Logic-Reset from any state, and a tracked state that was wrong is right afterwards |
| Jtag.GetTmsSeqLeads | src/common.cpp:406-460 | every entry of the table leads from its first state to its second through no Shift state on the way |
| Jtag.Listed | src/common.cpp:406-460 | exactly which pairs of states are in the table |
| Jtag.Port.TmsSeqTo | src/common.cpp:462-471 | the tracked state becomes the one asked for, by the clocks of the table |
| Packing.CopyBits | src/xvc.cpp:129-139 | the bits of a region at the front of a zeroed buffer, and whether any is set |
| Packing.MergeBits | src/xvc.cpp:181-185 | the bits of a region OR-ed into place, no other bit changed |
| Execution.ScanIsRegion | src/xvc.cpp:147-156 | on a DATA region, a scan with TMS held low makes exactly the client's clocks |
| Execution.TmsRegionMeans | src/xvc.cpp:128-145 | on a TMS region, whatever TDI does is hidden from the device, and TDO is zero |
| Execution.ServeAlike | src/xvc.cpp:119-187 | a device in the tracked state answers the adapter's stream as it would the client's |
| Xvc.Server.SendIdle | src/xvc.cpp:131-145 | the clock-only fast path: one TMS bit and n - 1 free clocks make exactly n clocks with TMS low and are counted as n, n = 1 included |
| Xvc.Server.SetTck | src/xvc.cpp:81-93 | a change of the clock is survived exactly for periods of 1 to 2000 ns; then the bytes delivered are everything written before and the divisor command for that period; it clocks nothing and keeps what is to be read |
| Xvc.Server.ExecuteTms | src/xvc.cpp:128-145 | either way a TMS region is sent, the clocks made have the client's TMS, and bits_send grows by the region; an all-zero region in Run-Test/Idle takes at most eight bytes, delivered at once |
| Xvc.Server.ExecuteData | src/xvc.cpp:146-157 | the client's clocks exactly, and one pending read with their samples |
| Xvc.Server.ExecuteShift | src/xvc.cpp:119-159 | all regions run: the trace is the client's under the mask, the tracked state is the analysed one, and the pending reads are those of the DATA regions; the assertion fails exactly if the tracked state is another, and then a transfer has been given up |
| Xvc.Server.ReadBack | src/xvc.cpp:174-193 | the written vector is the device's answer: samples in place, zero at every non-shift position and in the padding |
| Xvc.Server.RunRequests | src/xvc.cpp:68-171 | the window is consumed up to its first incomplete request, or to one at which the program ends; everything is sent before anything is read |
| Xvc.Server.Tick | src/xvc.cpp:62-197 | end to end: the TDO vectors, in shift order, are those of the bit-at-a-time server; nothing stays pending; bits_send grows by the client's clocks; unless a transfer has been given up, it ends the program exactly at a period outside 1 to 2000 ns, and whenever it does, answers no shift command of the tick |
| Xvc.Server.Session | src/main.cpp:163-181 | the same for a whole session of batches as the client encodes them, up to the first with such a period |
| Xvc.Server.InStep | src/common.cpp:95-112 | clocks made equal clocks asked for; a device that started in another state is in step after five ones, for good |
| Xvc.Server.Drained | src/xvc.cpp:173-187 | at the end of a tick the response queue is empty |
| XvcClient.Understood | src/xvc.cpp:68-110 | for every list of requests as a client encodes it, and any request that has not arrived in full behind them, the server takes out exactly these requests and leaves the rest |
| XvcClient.ParsesOnly | src/xvc.cpp:68-110 | whatever the window holds, what is taken out is the encoding of the request found |
| XvcProtocol.AnswersFlatten | src/xvc.cpp:119-187 | the answers to a list of shift commands, put together, are the answer to the concatenated stream |
| XvcProtocol.ChunkingInvisible | src/xvc.cpp:119-187 | two ways of cutting a stream into shift commands have the same answers of the bit-at-a-time server |
| XvcProtocol.AnswersDeliver | src/xvc.cpp:173-193 | the bits a client takes out of the TDO vectors, put together, are the answer to its whole stream |
| Start.ServeTwice | src/xvc.cpp:119-187 | two sessions over a reliable link that ask for the same clocks, cut into shift commands and batches anyhow, get the same TDO bits and end with the same masked trace and tracked state |
| Interchange.SendAllThenRead | src/xvc.cpp:154-187 | for any batch of TMS sequences and scans, flips anywhere and from any state: each read gets the samples of its own scan when everything is issued first |
| Interchange.ReadEach | src/rbb.cpp:102-104 | the same batches, each scan read at once, with either adapter |
| Interchange.AlikeExactly | src/mpsse.cpp:98-170 | a device cannot tell the two drivers apart for an operation, from any state, if and only if it is a scan with the pin low or without left-over bits, or a TMS sequence with bit 7 zero wherever it is sent in a Shift state |
| Interchange.DifferentTms | src/mpsse.cpp:98-114 | a concrete sequence, the byte 0x80 in a Shift state, that the device can tell |
| Interchange.IrThenDr | src/common.cpp:334-389 | every IR scan and then DR scan, each left by its last bit, is such a batch |
| Interchange.Compare | src/mpsse.cpp:116-220 | for any batch of TMS sequences and scans, flips anywhere and from any state, and any two ports, each with any schedule it supports: with the same adapter, or if every operation meets that condition, the receive buffers are equal byte for byte, and masked trace and tracked state stay equal |
| Start.CompareFromStart | src/mpsse.cpp:116-220 | the same from power-up, for any two rigs of adapter, reliable link and schedule |
| RbbProtocol.OneAtATimeExpands | src/rbb.cpp:34-57 | the one-character-at-a-time answers are those of the marked clocks |
| RbbProtocol.PinCharacters | src/rbb.cpp:34-48 | the eight pin characters: which are clocks, and with which TMS and TDI |
| RbbProtocol.OneAtATimeSpells | src/rbb.cpp:106-116 | the answers are 0x31 and 0x30 for the levels of TDO at the characters 0x52 |
| RbbProtocol.WellMarkedRefines | src/rbb.cpp:73-120 | a well-marked chunk passes both assertions, and whole-region reads give the one-at-a-time answers |
| RbbProtocol.AssertionsTooWeak | src/rbb.cpp:98-120 | in Shift-DR, after any clocks, a concrete chunk passes the assertions and is answered differently |
| Start.AnswerWrongly | src/rbb.cpp:98-120 | from power-up, over a reliable link and with either adapter, the program runs such a chunk without stopping and writes a wrong answer |
| RbbMarks.ExactlyWellMarked | src/rbb.cpp:98-120 | an accepted chunk is answered one-at-a-time for every device if and only if it is well marked |
| RbbProtocol.ClocksAreEdges | src/rbb.cpp:36-46 | the clocks taken are the rising edges of TCK if and only if the client lowers TCK in between |
| RbbProtocol.HeldHighCountsTwice | src/rbb.cpp:36-46 | "44" is taken for two clocks and raises TCK once |
| RbbProtocol.OneAtATimeAppend | src/rbb.cpp:34-57 | the one-at-a-time server does not care how its characters are cut into chunks |
| Rbb.ParseChunk | src/rbb.cpp:29-57 | the packed vectors hold the clocks and marks of the characters, and both counters are right |
| Rbb.CheckReads | src/rbb.cpp:88-100 | the assertion holds exactly for marks that, once set, stay set to the end of the region; then do_read is the last mark |
| Rbb.Server.ExecuteRegion | src/rbb.cpp:74-118 | a region run: the device sees the client's clocks, and the digits written are the region's TDO bits exactly if it is read |
| Rbb.Server.Tick | src/rbb.cpp:12-125 | ends the program on chunks that fail the assertions about reads, and on others just if a transfer has been given up; otherwise writes whole-region reads; for well-marked chunks the characters of the one-at-a-time server, 0x31 and 0x30 for the levels of TDO, with either adapter |
| Rbb.Server.InStep | src/common.cpp:95-112 | clocks made equal clocks asked for, with either adapter; a device that started in another state is in step after five ones, for good |
| Rbb.Server.Session | src/main.cpp:163-181 | chunks that are all well marked never stop the program unless a transfer is given up, and are answered as the whole stream would be one character at a time |
| Chain.ScanReads | src/common.cpp:352-389 | a DR scan reads what was captured, followed by what it shifts in |
| Probe.SelectBypass | src/common.cpp:334-350 | an instruction of all ones, for any IR lengths up to 128 in all, puts every device in BYPASS |
| Probe.CountDevices | src/common.cpp:352-370 | the number of devices if below eight, zero otherwise |
| Probe.ReadIdCodes | src/common.cpp:377-398 | the IDCODEs bit for bit, in order from the TDO end |
| Probe.ProbeDevices | src/common.cpp:330-404 | fewer than eight devices: exactly their IDCODEs, and every TAP reset; otherwise an empty result; also empty without any device, whatever level is read then; with exactly 158 or 428 clocks |
| Start.ServeXvc | src/main.cpp:144-181 | from power-up, a session is answered as one clock at a time; unless a transfer is given up, it ends early if and only if it holds a period outside 1 to 2000 ns |
| Start.ServeRbb | src/main.cpp:144-181 | from power-up, with either adapter, a well-marked session is answered as one character at a time |

## Left out

- Xvc.Server.RunRequests: the replies to `getinfo:` and `settck:`, which are written ahead of the deferred TDO vectors; and what a period of 0 does, which is undefined: the model stops there.
- Tck.Requested: the rounding of `1000.0 / tck` to a double, which moves no quotient across a half.
- Xvc.Server.Receive: only a refill of an empty window; `read_socket` with a partial request pending reads to the start of the window (src/common.cpp:313) and is not part of this model.
- Xvc.Server.ExecuteShift: the MPSSE driver only; the USB Blaster has no clock-only command and no deferred reading (src/usb_blaster.cpp:123, src/usb_blaster.cpp:274).
- XvcProtocol.ParseRequest: bit counts near 2^32, where `bits + 7` wraps in 32 bits; counts are those whose request fits the buffer.
- Ftdi.Context.ReadData: an adapter that never sends what it has been told to send; a read finds nothing only a bounded number of times.
- UsbBlaster.Driver.TmsSeq: an empty sequence, which would send an uninitialised level.
- Probe.ProbeDevices: without any device, TDO is read as a constant level; one that follows TDI within the clock is not part of this model.
- Rbb.Server.Tick: what follows a failed assertion, which ends the program.
- The jtagd and jtag_vpi protocols: constant replies and structure filling around the same JTAG layer.
- Sockets, device opening and closing, latency settings, debug output and the command line.
