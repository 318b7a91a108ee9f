# Verification of the probe's data path and USB control path

The probe sits between a target's serial port and a PC. A receive interrupt stamps bytes and queues them; the main loop
cuts them into frames and hands the frames to a transmit FIFO that a serial port or a USB CDC-ACM endpoint drains; the
host decodes the stream. This project models that path and the USB device behind it as state machines and proves what
holds over all their runs. It also ties the machines to the code's own form: rings with wrapping indices, array buffers,
endpoint registers with write-to-toggle bits, a streaming decoder with four fields.

| file | what it models |
|---|---|
| Bytes.dfy | bytes, 32-bit wrapping values, little-endian words |
| Crc.dfy | the checksum, in both implementations, and what it detects |
| Framing.dfy | stuffing, the frame format and both encoders |
| Deframer.dfy | the host's streaming decoder against the encoder |
| ByteFifo.dfy, Board.dfy | the transmit FIFO for any capacity, and the board's sink and drain over it |
| RelayModel.dfy, RelayTheorems.dfy, RelayDrain.dfy, RelayRuns.dfy | the relay on unbounded indices, one shared access per step, with the interrupt in between |
| Relay.dfy | the relay as it runs, on statically sized rings and wrapping 32-bit indices |
| VcpPath.dfy, Delivery.dfy, Throughput.dfy, Overload.dfy | relay, FIFO, line and decoder together; what can always be delivered; the rate at which nothing is lost, and one at which something is |
| ProbeRun.dfy | the same path on the rings, the board's FIFO and the decoder's own fields |
| EpReg.dfy, Pma.dfy | endpoint registers and packet memory |
| UsbCtrl.dfy | the control-request resolver |
| UsbDevice.dfy | the device machine: handlers, bus events, main-loop calls, in any order |
| UsbInFlight.dfy, UsbStream.dfy, UsbControl.dfy, UsbRuns.dfy | bulk packets in flight, frames over USB, control reads, device state over whole runs |
| UsbAnswers.dfy | every SETUP packet and its answer, byte by byte, over whole runs |
| UsbStale.dfy | completions still pending when the next SETUP is served |
| UsbPath.dfy, UsbDelivery.dfy | relay, USB link and decoder together; what can always be sent |
| UsbSteps.dfy, UsbCdc.dfy | the driver over its registers and packet memory, routine by routine the device machine, and the bus on both |

## How the parts fit

A relay run is a sequence of events: a received byte, a loss noted from outside, or one step of the poll no larger than
one access to shared memory, with the sink's answer where there is one. `RelayTheorems` speaks of all such runs.
`RelayRings.Relay` has the wrapping indices, and lets the interrupt fire any number of times between any two shared
accesses; each of its methods performs a run of the unbounded relay, so the theorems hold of it, and a poll performs a
whole one: `RelayRings.Polled` says all it does. Its sink is a FIFO of any capacity and any fill, which answers each
offer by the room it has; `ProbeRun` puts the board's FIFO there and adds the line and the decoder, so that
`VcpPath.EndToEnd` holds of the code's own objects, `ProbeRun.AnyProbeRun`, and adds that the main loop delivers,
`ProbeRun.MainLoopDelivers`.

A USB run is a sequence of bus events (reset, SETUP, OUT, acknowledged IN), interrupt services and main-loop calls in
any order. The handlers are masked against each other in the code, and each is one event here: bus events fall between
handlers, and between two endpoints served in the same interrupt, but not inside a handler. `UsbRuns` restricts runs to
those in which each bus event is served before the next; the other theorems over runs hold of all of them.
`UsbCdc.Driver` has registers, buffer table and packet memory; its routines and the bus events on it do what the events
of the machine do, the packets going where the buffer table says, and `UsbCdc.DriverRun` puts the two together: every
state of the driver is a reachable state of the machine. `UsbPath` puts the relay in front of the link and the host's
decoder behind it.

What the peripheral is taken to do: a write to an endpoint register toggles STAT and DTOG bits written as 1 and clears
CTR bits written as 0; a bus reset clears the endpoint registers except their CTR bits; a SETUP packet is accepted
whenever EP0 is enabled and leaves both its directions NAK; an OUT packet is accepted when STAT_RX is VALID and leaves
it NAK; an acknowledged IN packet sets CTR_TX and moves STAT_TX to NAK.

## Where the code and its words differ

- `firmware/probe-f042/src/relay.h:65` promises at most one frame per poll. The code writes a STATUS and then a data
  frame in one poll exactly when the drop counter has news, and returns 0 after a STATUS alone:
  `RelayRings.PollDelivers`, `RelayRuns.OnePollTwoFrames`.
- `firmware/probe-f042/src/relay.h:54` says that a rejected frame is retried. It is rebuilt: the next attempt may carry
  more bytes: `RelayRuns.RetryIsRebuilt`. What is invariant is the stream of stamped bytes.
- The encoded maximum of `firmware/probe-f042/src/relay.c:35` is two bytes more than any frame needs.
- The checksum misses two of the changes within 8 consecutive bits of the serial line's bit order: `Crc.BurstsDetectedLsbFirst`.
- The parser accepts a STATUS frame longer than the encoder makes: `Deframing.StatusReportIsCanonicalIff`.
- A poll between a bus reset and its interrupt can leave EP1 VALID on an unconfigured device: `UsbInFlight.PollUnderResetIff`.
- A completion pending when a SETUP is served is credited to the new transfer. An answer of several packets loses its
  first; an answer of one packet is lost if another address is pending: `UsbControl.StaleCompletionIff`. A SET_ADDRESS
  served with one takes effect before its status packet is taken: `UsbStale.AddressAtOnceIff`.
- A SET_ADDRESS given up for another request stays pending, and takes effect on the next IN packet exactly if that
  request is answered by a status stage or a single packet: `UsbRuns.SupersededAddressAppliesIff`.
- A bulk OUT packet that arrives just before SET_CONFIGURATION(0) or a bus reset leaves EP1 reception VALID on a device
  that is not configured: `UsbInFlight.OutClosedIff`, `UsbSteps.DeconfiguredStaysDisabledIff`.
- The line is four times as fast as the target, and still too slow for a target whose bytes come a little more than
  the gap apart: `Overload.ByteEachGapLoses`.

## Model

| member | source | states |
|---|---|---|
| Crc.UpdateByte | firmware/probe-f042/src/relay.c:56-62 | The bit loop of the encoder is the byte step of the register: eight shifts of the register exclusive-or the byte, the polynomial added when a one leaves at the top. |
| Crc.Checksum | firmware/probe-f042/tools/relay_decode.py:25-31 | The whole-message loop of the decoder computes the same register from 0: encoder and decoder agree on every message. |
| Crc.ResidueZero | firmware/probe-f042/tools/relay_decode.py:81-83 | A body followed by a byte leaves the register at 0 if and only if that byte is the body's checksum. |
| Crc.RegisterLinear | firmware/probe-f042/src/relay.c:56-62 | The register is linear in message and start value, at any length. |
| Crc.RegisterKeepsParity | firmware/probe-f042/src/relay.c:56-62 | The parity of the register is the parity of its start value and all message bits: the byte step keeps parity. |
| Crc.OddErrorsDetected | firmware/probe-f042/src/relay.c:131-140 | Flipping an odd number of bits of a message with residue 0, of any length, changes the residue. |
| Crc.SingleByteErrorsDetected | firmware/probe-f042/src/relay.c:131-140 | Every nonzero change confined to one byte changes the residue, at any length and position. |
| Crc.BurstsDetectedMsbFirst | firmware/probe-f042/src/relay.c:131-140 | Every nonzero change within 8 consecutive bits, in the bit order of the polynomial, changes the residue. |
| Crc.BurstsDetectedLsbFirst | firmware/probe-f042/src/relay.c:131-140 | In the bit order of a serial line the same holds if and only if the two flipped bytes are neither D8,06 nor 6C,03; those two changes pass unnoticed in every message. |
| Framing.StuffInto | firmware/probe-f042/src/relay.c:104-116 | Appends the stuffing of one byte and changes nothing before it. |
| Framing.BuildFrame | firmware/probe-f042/src/relay.c:121-141 | The buffers of the encoder never overflow, and what they hold is FLAG, the stuffing of TYPE SEQ LEN ARG CRC, FLAG. |
| Framing.ReferenceEncode | firmware/probe-f042/tools/relay_decode.py:103-112 | The host's reference encoder produces the bytes of the firmware's encoder for every data frame it can encode. |
| Framing.StuffAppend | firmware/probe-f042/src/relay.c:104-116 | Stuffing distributes over concatenation. |
| Framing.EncodedLength | firmware/probe-f042/src/relay.c:121-141 | A frame with n argument bytes takes n + 6 to 2n + 8 bytes on the wire: TYPE and LEN are never stuffed, so two bytes of the declared maximum are never used. |
| Framing.DataFrameLength | firmware/probe-f042/src/relay.c:32-35 | A data frame of n bytes takes n + 10 to 2n + 16 bytes on the wire. |
| Framing.GoldenFrames | firmware/probe-f042/tools/relay_decode.py:125-128 | The wire bytes of two known frames: the vector that anchors both implementations, which stuffs FLAG and ESC, and the report of one loss. |
| Deframing.Deframer.constructor | firmware/probe-f042/tools/relay_decode.py:37-41 | The initial state: outside a frame. |
| Deframing.Deframer.Feed | firmware/probe-f042/tools/relay_decode.py:43-75 | The four fields and the reports after a chunk are those of the state machine run over its bytes. |
| Deframing.ChunksDoNotMatter | firmware/probe-f042/tools/relay_decode.py:43-75 | However the input is cut into chunks, the state and the concatenated reports are the same. |
| Deframing.AcceptedIffStuffed | firmware/probe-f042/tools/relay_decode.py:59-75 | Bytes between two FLAGs raise no escape error if and only if they are the stuffing of something, and then of what the decoder has in its buffer: no other escape sequence is let through. |
| Deframing.StuffInjective | firmware/probe-f042/src/relay.c:104-116 | Different bodies have different stuffings. |
| Deframing.ReadIsUnstuffed | firmware/probe-f042/tools/relay_decode.py:59-75 | The byte-at-a-time machine unstuffs: its buffer and its error flags are what unstuffing from the front, pair by pair, makes of the bytes. |
| Deframing.EveryFrameReported | firmware/probe-f042/tools/relay_decode.py:43-90 | Whatever stands between two FLAGs is reported exactly once if unstuffing keeps anything of it, and not otherwise: as an escape error if it stuffs nothing, as malformed below five bytes, as a checksum error for a nonzero residue, as a length error for a LEN byte below four or other than the argument's length, and else as a frame, each if and only if. |
| Deframing.KnownBadFrames | firmware/probe-f042/tools/relay_decode.py:156-166 | A dangling escape and an escape before a good pair are reported as escape errors with what was kept, a body of four bytes as malformed. |
| Deframing.DecodeInner | firmware/probe-f042/tools/relay_decode.py:77-90 | The checks of the parser pass on the inner bytes the printer makes of any TYPE, number and argument of 4 to 255 bytes, and give its fields back. |
| Deframing.AcceptedIsInner | firmware/probe-f042/tools/relay_decode.py:77-90 | Every accepted sequence of inner bytes is what the printer makes of its own type, number and argument; this includes the length byte and the checksum. |
| Deframing.FrameDecodes | firmware/probe-f042/tools/relay_decode.py:43-90 | From any decoder state an encoded frame yields whatever the state had pending and then exactly its own fields, and leaves the decoder clean. |
| Deframing.Resynchronises | firmware/probe-f042/tools/relay_decode.py:43-75 | From any state - garbage, a truncated frame, a dangling escape - a list of well-formed frames yields at most one extra report and then exactly those frames in order. |
| Deframing.PrefixDecodes | firmware/probe-f042/tools/relay_decode.py:43-90 | Any prefix of a stream of frames, cut at any byte, has yielded a prefix of the frames and nothing else; the whole stream yields all of them. |
| Deframing.DataReportIsCanonical | firmware/probe-f042/tools/relay_decode.py:77-90 | Whatever is reported as data came from exactly the bytes the printer produces for the report's fields, whatever the TYPE. |
| Deframing.StatusReportIsCanonicalIff | firmware/probe-f042/tools/relay_decode.py:85-88 | What is reported as STATUS came from the printer's bytes if and only if its LEN is 4; the parser also accepts longer ones and drops the rest. |
| Deframing.CorruptionReported | firmware/probe-f042/tools/relay_decode.py:81-83 | Flipping accepted inner bytes in an odd number of bits, in one byte, or in 8 consecutive bits is reported, as one CRC error. |
| ByteFifos.ByteFifo.constructor | firmware/probe-f042/src/bytefifo.h:24-30 | The FIFO starts empty in the storage it is given. |
| ByteFifos.ByteFifo.CountIsLength | firmware/probe-f042/src/bytefifo.h:32-40 | For every capacity the count is the number of queued bytes and the free space what is left of the capacity less one. |
| ByteFifos.ByteFifo.PushAll | firmware/probe-f042/src/bytefifo.h:44-53 | All or nothing: accepted if and only if the whole of it fits, and then appended; otherwise the contents are unchanged. |
| ByteFifos.ByteFifo.Pop | firmware/probe-f042/src/bytefifo.h:68-75 | Takes the oldest byte, or reports that there is none. |
| ByteFifos.ByteFifo.Clear | firmware/probe-f042/src/bytefifo.h:62-65 | Empties the FIFO by the read index alone. |
| BoardTx.Board.PcWrite | firmware/probe-f042/src/board_f042.c:175-182 | The sink of the relay takes a frame whole, exactly when it fits. |
| BoardTx.Board.PcPoll | firmware/probe-f042/src/board_f042.c:185-195 | The drain moves as many bytes from the FIFO to the line, in order, as the transmit register is found empty times, or all there are. |
| BoardTx.DrainsMove | firmware/probe-f042/src/board_f042.c:191-193 | Drains in a row move the oldest bytes of the FIFO to the line, in order. |
| RelayModel.StepKeepsInv | firmware/probe-f042/src/relay.c:77-199 | Every step - a received byte, a noted loss, one shared access of the poll - keeps the invariant that ties rings, marks, stamps, numbering and drop reports together. |
| RelayModel.RunKeepsInv | firmware/probe-f042/src/relay.c:77-199 | The invariant holds over every run, with the interrupt between any two steps of the poll. |
| RelayTheorems.RelaysTheQueue | firmware/probe-f042/src/relay.c:77-97 | Lock-free refinement: the data frames written carry, in order and without gap or repetition, exactly the accepted bytes up to the tail, each under the stamp an unbounded queue would give it. |
| RelayTheorems.RingsNeverOverrun | firmware/probe-f042/src/relay.c:149-199 | No unread byte and no pending mark is overwritten; pending marks are strictly increasing and lie in [tail, head). |
| RelayTheorems.StampIsOfLastMark | firmware/probe-f042/src/relay.c:168-175 | Every accepted byte is relayed under the recorded mark with the greatest position at or below its own. |
| RelayTheorems.StreamDependsOnArrivalsOnly | firmware/probe-f042/src/relay.c:83-94 | While nothing is refused and no mark lost, the stamped stream is a function of the arrivals alone: poll schedule, chunking and rejections leave no trace in it. |
| RelayTheorems.LossConservation | firmware/probe-f042/src/relay.c:77-99 | Bytes offered = emitted + buffered + refused, and the drop counter is refused bytes + lost marks + noted losses, modulo 2^32. |
| RelayTheorems.DropsSurfaceBeforeData | firmware/probe-f042/src/relay.c:154-162 | Each data frame follows a stream whose last STATUS value, initially 0, is the drop counter as read at the start of its poll; a STATUS frame carries that reading and only when it is news. |
| RelayTheorems.FramesAreNumbered | firmware/probe-f042/src/relay.c:143-146 | The i-th frame accepted carries SEQ i mod 256, and every data frame 1 to 32 bytes. |
| RelayTheorems.RejectionChangesNothing | firmware/probe-f042/src/relay.c:194-197 | As long as the sink rejects, neither the tail nor the numbering nor the output changes. |
| RelayTheorems.StampErrorBound | firmware/probe-f042/src/relay.c:84-94 | A byte k positions after the last mark arrived at most 200 k microseconds after the stamp it carries, on the wrapping clock, if no mark was lost in between. |
| RelayTheorems.BurstIsStamped | firmware/probe-f042/src/relay.c:84-94 | Burst by burst: if a burst's mark was not lost, each of its bytes carries the arrival time of its first, and the k-th after that arrived at most 200 k microseconds later; the byte that starts the burst is stamped exactly, whatever was refused or lost elsewhere. |
| RelayTheorems.BurstsSplitAtGaps | firmware/probe-f042/src/relay.c:83-94 | A byte up to 200 microseconds after its predecessor is relayed under the same stamp, a later one under its own arrival time unless its mark was lost; it has a mark exactly in the second case. |
| RelayTheorems.RefusedOnlyWhenFull | firmware/probe-f042/src/relay.c:77-97 | In every reachable state a byte is refused exactly when 512 bytes are unread, and the mark of a burst lost exactly when 32 are pending; otherwise both are recorded, and a loss is counted once. |
| RelayDrain.StepKeepsCount | firmware/probe-f042/src/relay.c:164-198 | Every step of a quiescent relay keeps the sum of data frames written and data frames still needed. |
| RelayDrain.Empties | firmware/probe-f042/src/relay.c:164-198 | An accepting sink empties a quiescent ring in exactly the sum of ceil(length / 32) data frames over the stamped runs left in it. |
| RelayRings.WrappedDifference | firmware/probe-f042/src/relay.c:19-30 | The wrapped difference of two wrapped indices is their true difference, below 2^32. |
| RelayRings.WrappedSlot | firmware/probe-f042/src/relay.c:19-30 | Masking a wrapped index gives the slot of the true index, because the ring sizes divide 2^32. |
| RelayRings.SignedDistance | firmware/probe-f042/src/relay.c:170-172 | The signed test on wrapped positions is true exactly when the mark lies after the tail. |
| RelayRings.Relay.constructor | firmware/probe-f042/src/relay.c:64-75 | All statics start in the initial state of the relay on unbounded indices. |
| RelayRings.Relay.TargetRx | firmware/probe-f042/src/relay.c:77-97 | The receive entry point on wrapping indices and masked slots does what the one on unbounded indices does. |
| RelayRings.Relay.NoteDropped | firmware/probe-f042/src/relay.c:99 | The same for losses noted from outside. |
| RelayRings.Relay.Emit | firmware/probe-f042/src/relay.c:121-147 | Writes exactly the encoded frame and advances SEQ if the sink, a FIFO of any capacity and fill, has room for it, and changes nothing otherwise. |
| RelayRings.Relay.AdoptMarks | firmware/probe-f042/src/relay.c:168-175 | The loop over pending marks, with the interrupt between any two reads, ends with every mark at or before the tail adopted; it terminates whatever the interrupt adds. |
| RelayRings.Relay.CutChunk | firmware/probe-f042/src/relay.c:177-184 | The chunk length is 1 to 32 in every poll with data available and never crosses the next mark. |
| RelayRings.Relay.CopyChunk | firmware/probe-f042/src/relay.c:191-192 | The bytes copied are the unread bytes of the unbounded queue, though the ring is written meanwhile. |
| RelayRings.Relay.ReportDrops | firmware/probe-f042/src/relay.c:154-162 | The first half of a poll: with losses that are news exactly one STATUS frame with their number, or nothing if the FIFO lacks the room, and the poll goes on unless it does; without news nothing. |
| RelayRings.Relay.Gather | firmware/probe-f042/src/relay.c:168-192 | What is gathered for a data frame is the longest run of at most 32 unread bytes that no mark falls into, with the stamp of the last mark at or before it. |
| RelayRings.Relay.Send | firmware/probe-f042/src/relay.c:194-198 | The data frame is written and the tail advanced past its bytes exactly if the FIFO has room for it; otherwise nothing changes and 0 is returned. |
| RelayRings.Relay.RelayData | firmware/probe-f042/src/relay.c:164-198 | The second half: with nothing unread nothing; else the longest chunk from the tail in one data frame, whose length on the wire is returned, or 0 and no change if it does not fit. |
| RelayRings.Relay.Poll | firmware/probe-f042/src/relay.c:149-199 | Index wrap is invisible: a poll with the interrupt between any two shared accesses is a run of the relay on unbounded indices, and what it writes is determined by the state at the call and by how much had come in when it looked: the report if there is news, then the longest chunk under its stamp and number, each if and only if it fits the FIFO; the tail, the return value and the FIFO follow. |
| RelayRings.PollDelivers | firmware/probe-f042/src/relay.c:149-199 | For any poll: with room for a report and a data frame, unread bytes get written, 1 to 32 of them from the tail on, and the length of their frame returned; with room for a report, news of losses is out when it returns; 0 only with nothing unread or too little room, and then the tail stays; two frames at most, and two if and only if data goes out with news. |
| RelayRuns.OnePollTwoFrames | firmware/probe-f042/src/relay.c:154-198 | A run in which a single poll writes a STATUS and a data frame. |
| RelayRuns.RetryIsRebuilt | firmware/probe-f042/src/relay.c:186-196 | A run in which a rejected frame of one byte is followed by an attempt with two bytes, under the same number and stamp. |
| VcpPath.HistoryKeepsInv | firmware/probe-f042/src/board_f042.c:175-195 | Over every history the line, the FIFO and the decoder stay in step with the frames the relay has written. |
| VcpPath.EndToEnd | firmware/probe-f042/src/board_f042.c:175-195 | For every interleaving of arrivals, poll steps, rejections, drains and host reads the decoder yields no error, the frames in order, and stamped bytes that are a prefix of the stamped bytes the relay accepted. |
| VcpPath.NothingIsStuck | firmware/probe-f042/src/board_f042.c:175-195 | Once the FIFO is empty and the line read, the host has every byte the relay has written, with its stamp. |
| ProbeRun.RunIsHistory | firmware/probe-f042/src/board_f042.c:175-195 | A run of the relay that the FIFO has answered for itself is a history of relay, FIFO, line and decoder together. |
| ProbeRun.Probe.Poll | firmware/probe-f042/src/relay.c:149-199 | A poll on the rings, into the board's FIFO of 256 bytes, is a history of the path and does what a poll does. |
| ProbeRun.Probe.Drain | firmware/probe-f042/src/board_f042.c:185-195 | So is a drain of the FIFO to the line, and it moves exactly what the transmit register allows. |
| ProbeRun.Probe.Hear | firmware/probe-f042/tools/relay_decode.py:43-75 | So is a read by the host, which feeds the next bytes of the line to the decoder, as many as asked for or there are. |
| ProbeRun.Probe.AnyRun | firmware/probe-f042/src/board_f042.c:175-195 | Any sequence of interrupts, polls, drains and host reads on the relay, the board and the decoder is a history of the path, each call doing its own part. |
| ProbeRun.AnyProbeRun | firmware/probe-f042/src/board_f042.c:175-195 | End to end for these objects: after any run from power-on the decoder has reported no error, and the stamped bytes it has are a prefix of the stamped bytes the relay accepted. |
| ProbeRun.MainLoopDelivers | firmware/probe-f042/src/main.c:25-27 | Liveness of the main loop: from any state of the probe, one iteration of poll and drain more than there are unread bytes, on a line that takes the FIFO each time, and the host has every byte that had come in, with its stamp, whatever comes in meanwhile. |
| Delivery.EmptyFifoAccepts | firmware/probe-f042/src/board_f042.c:175-182 | Whatever frame the relay offers, an empty FIFO takes it. |
| Delivery.EverythingCanBeDelivered | firmware/probe-f042/src/board_f042.c:175-195 | From every reachable state, the sink as full as it may be and a poll under way, there is a way on without further arrivals after which the host has exactly the stamped bytes the relay has accepted. |
| Throughput.BeatKeepsPace | firmware/probe-f042/src/probe_pins.h:88-94 | Each arrival, drain and poll step keeps the bounds on FIFO and ring, from any start and across bursts. |
| Throughput.PowerOnIsReady | firmware/probe-f042/src/relay.c:64-75 | Power-on is a drained ring with nothing unreported, a start for the bound below. |
| Throughput.NoOverflow | firmware/probe-f042/src/probe_pins.h:88-94 | From every drained ring with nothing unreported, whatever is in the FIFO and whatever was lost before: with at most one target byte per slot, four drains and at least one whole poll per slot, in any interleaving, and any number of bursts that each start on an empty ring, the ring never holds more than 19 bytes and nothing more is lost, for a run of any length. |
| Overload.CloseBurstsLose | firmware/probe-f042/src/probe_pins.h:88-94 | For bursts that follow each other without a drained ring: if the target's bytes come more than the gap apart and fewer than eleven bytes drain for each, something is lost in every such run, whatever the polls do. |
| Overload.ByteEachGapLoses | firmware/probe-f042/src/probe_pins.h:93-94 | At the configured rates a target sending one byte every 201 microseconds loses something within 619 bytes, however often the relay is polled, and with ten drains a byte where the line manages fewer. |
| EpReg.DecodeInjective | firmware/probe-f042/src/usb_cdc.c:51-65 | The decoded form keeps every implemented bit of an endpoint register. |
| EpReg.SetStatTxSets | firmware/probe-f042/src/usb_cdc.c:140-145 | From any register contents the write sets STAT_TX to the wanted state and changes nothing else, toggles and completions included. |
| EpReg.SetStatRxSets | firmware/probe-f042/src/usb_cdc.c:147-152 | The same for STAT_RX. |
| EpReg.ClearCtrRxClears | firmware/probe-f042/src/usb_cdc.c:155-158 | Clears CTR_RX and nothing else. |
| EpReg.ClearCtrTxClears | firmware/probe-f042/src/usb_cdc.c:160-163 | Clears CTR_TX and nothing else. |
| EpReg.ConfigureSets | firmware/probe-f042/src/usb_cdc.c:166-169 | Sets type and address, drops pending completions and leaves STAT and toggles as they were. |
| EpReg.ResetDtogResets | firmware/probe-f042/src/usb_cdc.c:178-183 | Leaves both data toggles at DATA0 and changes nothing else. |
| EpReg.DataEndpointFromAny | firmware/probe-f042/src/usb_cdc.c:254-263 | From any register contents the configuration sequence leaves EP1 at DATA0 in both directions, RX VALID, TX NAK and nothing pending. |
| EpReg.NotificationEndpointFromAny | firmware/probe-f042/src/usb_cdc.c:265-269 | The same for EP2, whose reception state is left alone. |
| EpReg.TogglesSurviveConfigure | firmware/probe-f042/src/usb_cdc.c:171-177 | Without the toggle reset the sequence would keep whatever toggles the register had. |
| Pma.PmaWrite | firmware/probe-f042/src/usb_cdc.c:116-124 | The copy loop writes the packet's half-words, odd or even length, and nothing else. |
| Pma.PmaRead | firmware/probe-f042/src/usb_cdc.c:126-137 | The copy loop reads the buffer's bytes and leaves the rest of the destination alone. |
| Pma.ReadWritten | firmware/probe-f042/src/usb_cdc.c:116-137 | What was written to a buffer is read back, for odd and even lengths. |
| Pma.PacketInMemory | firmware/probe-f042/src/usb_cdc.c:116-124 | Two bytes go to a half-word, the first in its low half, and an odd last byte has zero above it. |
| Pma.WriteStaysInside | firmware/probe-f042/src/usb_cdc.c:116-124 | A write of up to 64 bytes stays inside its own 64-byte buffer. |
| Pma.ReadElsewhere | firmware/probe-f042/src/usb_cdc.c:89-96 | Bytes of any other buffer read as before. |
| UsbCtrl.ResolveInto | firmware/probe-f042/src/usb_ctrl.c:226-236 | The resolver over the caller's scratch buffer: its answer, and the buffer it leaves, are those of the specification function, whose answers `UsbAnswers.ResolverFulfils` gives. |
| UsbCtrl.ResolutionIsSound | firmware/probe-f042/src/usb_ctrl.c:75-236 | For every SETUP packet: data only for IN requests, at most wLength and never past the memory behind it; the zero-length packet exactly when no short packet ends the stage; a status stage only without data; an OUT stage only of 7 bytes; addresses up to 127, configuration 0 or 1. |
| UsbAnswers.ResolverFulfils | firmware/probe-f042/src/usb_ctrl.c:226-236 | For every SETUP packet there is, byte by byte: the resolver's answer is the one the specifications give this device, a data answer with the bytes that are due behind its source, cut to wLength. |
| UsbDevice.RunKeepsSound | firmware/probe-f042/src/usb_cdc.c:212-414 | Over every run of the device the pointer of a control transfer stays inside what it points to and every count inside its buffer. |
| UsbInFlight.Ep0WritesInside | firmware/probe-f042/src/usb_cdc.c:319-365 | The EP0 handler writes the EP0 transmit buffer and no other packet memory. |
| UsbInFlight.Ep0AndEp1 | firmware/probe-f042/src/usb_cdc.c:252-280 | EP0 traffic changes the bulk endpoint only through an accepted SET_CONFIGURATION. |
| UsbInFlight.ArmedPacketIsKept | firmware/probe-f042/src/usb_cdc.c:493-517 | While an armed packet stays armed, no handler, bus event or main-loop call changes what the host will receive. |
| UsbInFlight.BufferSafeInFlight | firmware/probe-f042/src/usb_cdc.c:493-517 | In every reachable state, races included, the IN buffer is never rewritten while a packet is in flight, and a poll that writes finds EP1 neither armed nor with a completion pending. |
| UsbInFlight.HostReceivesWhatIsPopped | firmware/probe-f042/src/usb_cdc.c:368-414 | Between cancellations the host receives exactly the popped bytes in order, in packets of 1 to 64, and EP1 VALID means configured and busy, provided no poll has armed a packet under an unserved bus reset. |
| UsbInFlight.PollUnderResetIff | firmware/probe-f042/src/usb_cdc.c:493-517 | A poll between a bus reset and its interrupt leaves EP1 VALID on an unconfigured device if and only if it had a packet to arm. |
| UsbInFlight.RaceHappens | firmware/probe-f042/src/usb_cdc.c:493-517 | A run from power-on in which that happens. |
| UsbInFlight.FifoDrains | firmware/probe-f042/src/usb_cdc.c:493-517 | A configured device with nothing in flight and a host that keeps taking packets empties the FIFO in exactly ceil(length / 64) packets, and the host has every byte of it. |
| UsbInFlight.OutClosedIff | firmware/probe-f042/src/usb_cdc.c:368-414 | The events that leave bulk OUT VALID on a device that is not configured, over all events from any state where it is not: exactly the service of an OUT completion that outlived the configuration, and of a bus reset if EP1 was made VALID meanwhile. |
| UsbInFlight.BulkOutNeverStuck | firmware/probe-f042/src/usb_cdc.c:368-374 | In every reachable state a configured device can take the next bulk OUT packet or has one to serve. |
| UsbStream.LinkRunKeepsInv | firmware/probe-f042/src/usb_cdc.c:401-410 | Over every run, flushes and cancellations included, the FIFO is the unsent rest of the accepted frames. |
| UsbStream.FifoHoldsWholeFrames | firmware/probe-f042/src/usb_cdc.c:478-517 | In every reachable state the FIFO holds the end of at most one frame followed by whole frames, and the bytes sent since the last cancellation are the piece of the accepted frames just before it. |
| UsbStream.FlushStartsAnew | firmware/probe-f042/src/usb_cdc.c:269-279 | After a flush the next byte sent starts a frame: until the next cancellation everything sent is a prefix of the frames accepted since. |
| UsbStream.PieceDecodes | firmware/probe-f042/tools/relay_decode.py:43-75 | Any piece of a stream of frames, read by a decoder in any state, yields at most one report for what the piece cuts off, then the frames that follow in order, and all those that end in the piece. |
| UsbStream.HostDecodesWholeFrames | firmware/probe-f042/src/usb_cdc.c:269-279 | What the host decodes since the last cancellation, whatever its decoder had seen before: at most one report for a cut-off frame, then frames in order, and every frame fully delivered; after a flush no frame is cut. |
| UsbStream.StretchDecodes | firmware/probe-f042/tools/relay_decode.py:43-75 | The same from any state of the link the invariant allows, for a decoder in any state. |
| UsbControl.DataStageIsProper | firmware/probe-f042/src/usb_ctrl.c:75-82 | The packets make up the message, all but the last are 64 bytes, the last is short or ends at exactly wLength, and no empty packet is spurious. |
| UsbControl.ZlpExactlyWhenNeeded | firmware/probe-f042/src/usb_ctrl.c:54-60 | The zero-length packet is decided right and there is no other right decision: for any message of at most wLength bytes the data stage ends exactly with its last packet, with or without the empty one, if and only if the empty one is sent as the rule says. |
| UsbControl.ControlRead | firmware/probe-f042/src/usb_cdc.c:212-232 | Over successive completions, with anything happening elsewhere in between, the host takes exactly the packets of the first min(length, wLength) bytes of the answer, and then EP0 is idle. |
| UsbControl.StaleCompletionIff | firmware/probe-f042/src/usb_cdc.c:319-365 | If a completion is still pending when a SETUP is served, it is credited to the new transfer: the host takes the packets of a proper answer, at the address it speaks to, if and only if none was pending, or the answer is a single packet and no other address is pending. |
| UsbControl.AddressWhenServed | firmware/probe-f042/src/usb_cdc.c:358-363 | Serving a SETUP that asks for data changes DADDR if and only if a stale completion is served with it, the answer is a single packet and another address is pending. |
| UsbControl.StaleLosesFirst | firmware/probe-f042/src/usb_cdc.c:319-365 | Otherwise the host takes exactly the packets after the first. |
| UsbStale.StaleCompletionHappens | firmware/probe-f042/src/usb_cdc.c:319-365 | A run from power-on, with a configuration descriptor of the device's size, that loses the first packet so: the host takes the status packet of SET_CONFIGURATION and asks for the descriptor before the completion is served. |
| UsbStale.StaleAddressHappens | firmware/probe-f042/src/usb_cdc.c:358-363 | A run from power-on in which an answer of one byte never reaches the host: the address pending behind it comes into force while the host waits at the old one. |
| UsbStale.AddressAtOnceIff | firmware/probe-f042/src/usb_cdc.c:285-315 | Serving a waiting SET_ADDRESS arms its empty status packet; the new address is in force before the host can take it if and only if a completion was pending. |
| UsbStale.AddressOnAnySetup | firmware/probe-f042/src/usb_cdc.c:319-365 | What DADDR is after any SETUP is served: it changes exactly if a completion is pending, the answer needs no further packet and an address is pending, the one just asked for or an earlier one. |
| UsbStale.AddressAtOnceHappens | firmware/probe-f042/src/usb_cdc.c:319-365 | A run from power-on in which a SET_ADDRESS takes effect with its status packet still to be taken. |
| UsbControl.MemoryBehindTransferKept | firmware/probe-f042/src/usb_cdc.c:329-343 | From every reachable state and over every continuation: while data of a transfer is still to be copied, up to and including the copy of the last packet, the bytes behind it and where they end stay the same, whatever happens but the service of a new SETUP or of a bus reset. |
| UsbRuns.AcceptedPackets | firmware/probe-f042/src/usb_ctrl.c:119-216 | SET_ADDRESS, SET_CONFIGURATION and SET_LINE_CODING are accepted in exactly the packets the specifications give, and with the values in them. |
| UsbRuns.ServeAgrees | firmware/probe-f042/src/usb_cdc.c:282-414 | Each bus event, served before the next, keeps the device in agreement with a reference that knows only the packets. |
| UsbRuns.AgreeAll | firmware/probe-f042/src/usb_cdc.c:282-414 | So it is over every serviced run. |
| UsbRuns.ServedRunsAreRuns | firmware/probe-f042/src/usb_cdc.c:416-438 | These runs are runs of the device machine. |
| UsbRuns.GetConfigurationReports | firmware/probe-f042/src/usb_ctrl.c:138-145 | Over every serviced run GET_CONFIGURATION is answered with the last SET_CONFIGURATION accepted since the reset. |
| UsbRuns.GetLineCodingReports | firmware/probe-f042/src/usb_cdc.c:329-343 | Over every serviced run GET_LINE_CODING is answered with the first 7 bytes of the last OUT data stage of at least 7 bytes, or the default since the reset. |
| UsbRuns.WriteIsAcknowledged | firmware/probe-f042/src/usb_cdc.c:329-343 | Once the OUT data stage is in, of full length or not, an empty packet is armed and reception is re-armed; the line coding changes only for 7 bytes or more. |
| UsbRuns.RejectedIsStalled | firmware/probe-f042/src/usb_cdc.c:308-312 | A SETUP the resolver rejects stalls both directions of EP0 and changes nothing else the host can see. |
| UsbAnswers.EveryRequestAnswered | firmware/probe-f042/src/usb_ctrl.c:84-236 | Over every serviced run and for every SETUP packet: the host that reads the device, configuration or a present string descriptor, the status of device, interface or endpoint, the configuration or the line coding takes exactly the packets of its first min(length, wLength) bytes and finds reception armed for the status stage; SET_ADDRESS, SET_CONFIGURATION, the endpoint halt feature and SET_CONTROL_LINE_STATE get an empty status packet; SET_LINE_CODING gets its data stage; everything else is stalled. |
| UsbAnswers.StageCarries | firmware/probe-f042/src/usb_ctrl.c:75-82 | The packets of such a data stage add up to those bytes. |
| UsbAnswers.ReadEnds | firmware/probe-f042/src/usb_cdc.c:348-355 | The empty OUT packet that ends a read is accepted, sends nothing and leaves reception armed. |
| UsbAnswers.ConfigurationSets | firmware/probe-f042/src/usb_cdc.c:252-280 | Over every serviced run SET_CONFIGURATION(1) leaves bulk reception ready, nothing armed or pending, both toggles of both endpoints at DATA0 and the queue as it was; SET_CONFIGURATION(0) leaves both disabled and nothing queued. |
| UsbAnswers.ResetToDefault | firmware/probe-f042/src/usb_cdc.c:382-414 | A bus reset, served, leaves the default state whatever was before: EP0 registers, address 0, not configured, nothing queued or pending, default line coding. |
| UsbRuns.AddressTakesEffect | firmware/probe-f042/src/usb_cdc.c:358-363 | After SET_ADDRESS in any serviced run the host takes a zero-length packet at the old address, whatever happens on EP1, and only then the new address is in force. |
| UsbRuns.AddressChangesOnly | firmware/probe-f042/src/usb_cdc.c:358-363 | Over every serviced run DADDR changes only on a reset, to address 0, or when the host has taken the last packet of a stage, to the 0..127 of the last SET_ADDRESS accepted since the reset. |
| UsbRuns.SupersededAddressAppliesIff | firmware/probe-f042/src/usb_cdc.c:285-306 | Over every serviced run with an address pending, a SETUP that is no accepted SET_ADDRESS leaves DADDR alone when it is served, and the next IN packet puts the old address in force if and only if the SETUP is answered by a status stage or by at most 64 bytes with no zero-length packet; otherwise the address stays pending. |
| UsbRuns.SupersededAddressApplies | firmware/probe-f042/src/usb_cdc.c:285-289 | A run in which the address changes on the data packet of a later GET_CONFIGURATION, because a new SETUP does not clear the pending address. |
| UsbCdc.Driver.constructor | firmware/probe-f042/src/usb_cdc.c:186-209 | The statics and the registers as initialised. |
| UsbCdc.Driver.BlankIsPowerOn | firmware/probe-f042/src/usb_cdc.c:186-209 | So initialised, the driver is the device machine at power-on. |
| UsbCdc.Driver.EpSetStatTx | firmware/probe-f042/src/usb_cdc.c:140-145 | On the register, what its name says, and on nothing else of the device. |
| UsbCdc.Driver.EpSetStatRx | firmware/probe-f042/src/usb_cdc.c:147-152 | The same for STAT_RX. |
| UsbCdc.Driver.Ep0InContinue | firmware/probe-f042/src/usb_cdc.c:212-221 | The next packet of a transfer, its count, the pointer and STAT_TX, as in the device machine; the buffer table is never hit. |
| UsbCdc.Driver.ApplyConfig | firmware/probe-f042/src/usb_cdc.c:252-280 | Register by register, the SET_CONFIGURATION of the device machine; in the buffer table SET_CONFIGURATION(1) sets the EP1 addresses to 0xC0 and 0x100, its size to 64 bytes and the EP2 address to 0x140, and 0 sets none. |
| UsbCdc.Driver.HandleSetup | firmware/probe-f042/src/usb_cdc.c:282-315 | Latching, resolving and executing a SETUP, as in the device machine. |
| UsbCdc.Driver.Ep0Handler | firmware/probe-f042/src/usb_cdc.c:319-365 | Reception before transmission, as in the device machine. |
| UsbCdc.Driver.Ep1Handler | firmware/probe-f042/src/usb_cdc.c:368-379 | As in the device machine. |
| UsbCdc.Driver.UsbReset | firmware/probe-f042/src/usb_cdc.c:382-414 | As in the device machine: EP0 ready, address 0, line coding restored, FIFO flushed; in the buffer table the EP0 addresses become 0x40 and 0x80 and its size 64 bytes. |
| UsbCdc.Driver.Irq | firmware/probe-f042/src/usb_cdc.c:416-438 | The interrupt, with bus events before every look at the status register, is a run of bus events and services of the device machine; it serves a waiting bus reset and nothing else, or leaves no completion pending; left alone by the bus its outcome is that of serving EP0, EP1 and EP2 once each. |
| UsbSteps.StaysMapped | firmware/probe-f042/src/usb_cdc.c:88-96 | Every event keeps the buffer table right: an endpoint that answers, or can be made to answer without a new configuration, has its buffers at the addresses the driver uses, 64 bytes each. |
| UsbCdc.Driver.Bus | firmware/probe-f042/src/usb_cdc.c:47-69 | What the peripheral does in a reset, SETUP, OUT or acknowledged IN is the event of the device machine, though it puts received packets where the buffer table says; what the host receives, taken from where the table says, is the packet of the machine. |
| UsbCdc.Driver.AnyRun | firmware/probe-f042/src/usb_cdc.c:416-517 | Main-loop calls, interrupts and bus events in any order on the driver are a run of the device machine. |
| UsbCdc.DriverRun | firmware/probe-f042/src/usb_cdc.c:416-517 | Every state the driver gets into from power-on is a reachable state of the device machine, with the buffer table right. |
| UsbCdc.Driver.UsbCdcWrite | firmware/probe-f042/src/usb_cdc.c:478-491 | All or nothing onto the FIFO of 255 bytes, as in the device machine; returns the length exactly if it fits. |
| UsbCdc.Driver.UsbCdcPoll | firmware/probe-f042/src/usb_cdc.c:493-517 | Pops up to 64 bytes, fills the IN buffer and arms EP1, as in the device machine. |
| UsbSteps.OneServed | firmware/probe-f042/src/usb_cdc.c:426-437 | Serving the lowest pending endpoint leaves fewer pending and does not change the outcome of the interrupt. |
| UsbSteps.ServedIsRun | firmware/probe-f042/src/usb_cdc.c:416-438 | In every reachable state of the device machine, serving everything is serving EP0 and then EP1: the notification endpoint has nothing. |
| UsbSteps.DeconfiguredStaysDisabledIff | firmware/probe-f042/src/usb_cdc.c:269-279 | An interrupt that serves SET_CONFIGURATION(0) leaves bulk OUT VALID if a bulk OUT packet was waiting, because EP1's handler comes second, and disabled if not. |
| UsbSteps.BulkOutOutlivesConfiguration | firmware/probe-f042/src/usb_cdc.c:269-279 | A run from power-on that ends so, with the device not configured and bulk OUT VALID. |
| UsbSteps.BulkOutOutlivesReset | firmware/probe-f042/src/usb_cdc.c:382-414 | A run from power-on that ends so by a bus reset alone: the OUT completion outlives it. |
| UsbPath.CourseKeepsPath | firmware/probe-f042/src/relay.c:143-199 | Relay and USB link stay in step over every run of both, flushes and cancellations included: what is queued on the link is the frames the relay has written since the last flush. |
| UsbPath.OneStrayPerCancellation | firmware/probe-f042/tools/relay_decode.py:43-75 | Over a whole run, the host's decoder going on through resets and reconfigurations: its reports fall into one part per stretch between cancellations, each at most one stray report and then consecutive frames of the relay in order. |
| UsbPath.StretchCarriesPiece | firmware/probe-f042/tools/relay_decode.py:77-101 | End to end over USB: in each stretch the reports after the stray are free of errors, and the stamped bytes in them are a contiguous piece of the stamped bytes the relay accepted. |
| UsbDelivery.EverythingCanBeSent | firmware/probe-f042/src/usb_cdc.c:493-517 | Liveness over USB: from every reachable state with the device configured and idle, main loop, host and interrupt alone can go on to a state where every accepted byte has been written and nothing is queued or in flight, and a decoder in any state then reports at most one stray and all the frames from some one on, all since the last flush if nothing was cancelled after it. |

## Left out

- Clock, GPIO, timer and USART set-up, `usb_cdc_init` and the main loop itself: register bring-up and spin waits.
- The descriptor tables and the string builder of `firmware/probe-f042/src/usb_desc.c`: descriptors are arbitrary bytes, so the control-read results hold for any; a string that does not fit the scratch buffer is a missing one, as in the code.
- The capture tool's serial port, argument parsing and display: input and output only. Reports are values instead of dictionaries.
- The test for a missing sink in `firmware/probe-f042/src/relay.c:151-152`: the sink is always there.
- Bus events inside a handler: each handler of the driver is one step, so the peripheral never acts between two register accesses of the same handler, nor inside a read-modify-write; its errata are not modelled either.
- The frame numbers of start-of-frame packets, retransmissions and data-toggle checks on the bus: the toggles are kept, but every packet in an event is one the peripheral has accepted.
- The BTABLE register, which is written once per bus reset with the value it has, 0: the buffer table is at the start of the packet memory.
- The size of the driver's C integers where nothing can overflow: transfer lengths are at most wLength, FIFO indices below the capacity.
- The contents of bulk OUT packets, which the driver discards.
- UsbInFlight.HostReceivesWhatIsPopped: needs that no packet was armed under an unserved bus reset; it fails otherwise, as UsbInFlight.RaceHappens shows, and UsbInFlight.PollUnderResetIff gives the exact condition of one such poll.
- UsbStream.HostDecodesWholeFrames: has the same condition.
- UsbControl.ControlRead: needs that no completion is pending when the SETUP is served; UsbControl.StaleCompletionIff gives the exact condition.
- UsbRuns.AddressTakesEffect: speaks of runs in which each bus event is served before the next; UsbStale.AddressAtOnceIff and UsbStale.AddressOnAnySetup say what happens otherwise.
- UsbRuns.AddressChangesOnly: the same.
- UsbPath.OneStrayPerCancellation: needs that no packet was armed under an unserved bus reset, like UsbStream.HostDecodesWholeFrames.
- UsbPath.StretchCarriesPiece: the same.
- UsbDelivery.EverythingCanBeSent: starts from a configured, idle device with no reset waiting; a host that resets or reconfigures instead cancels what is in flight.
- The device address in IN and SETUP events: an event is one the device answers, whatever address the packet had. Where it matters that the host speaks to an old address, the theorem says which: UsbControl.StaleCompletionIff.
- Sinks other than a FIFO: the relay class asks for nothing but all or nothing, and whatever a sink of that kind answers in one poll is what a FIFO of some capacity and fill answers. The relay on unbounded indices takes any sequence of answers.
- Throughput.NoOverflow: each burst starts on an empty ring. For bursts that do not, Overload.CloseBurstsLose shows when the bound fails; between the two the spacing of bursts decides, which is not modelled.
