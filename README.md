# A verified model of a CANopen SDO client

This project models the SDO (service data object) client of a small CANopen
library written in JavaScript, `protocol/SDO.js`. A CANopen device exposes an
object dictionary; a client writes an entry of it by an SDO *download*. The
client sends an 8-byte *initiate* request on CAN identifier `0x600 + node`,
either carrying the value itself (expedited, up to 4 bytes) or announcing its
size (segmented), and then sends the value in segments of up to 7 bytes, each
one after the server's acknowledgement. A toggle bit alternates from segment to
segment, and the server may abort with a 32-bit code that the client looks up
in a table of reasons.

The model has five modules:

- `Wrappers`: the `Option` and `Result` datatypes.
- `AbortCodes`: the table of 31 abort codes and their reasons, and its lookup.
- `SdoFrame`: the layout of the 8-byte data field. It holds:
  - the decoder `Parse` applied to the server's frames;
  - the encoders of the initiate request and of a download segment;
  - the bit fields of the command byte, so that each encoder can be read back the way a server reads it.
- `DownloadMachine`: the callback of `download` as a pure transition function.
  - `Next` takes one event (an indication or the timer's expiry); `Run` folds `Next` over a sequence of events.
  - A reference sequence of segments and an invariant `Inv`.
  - Lemmas about single steps, whole runs and what a server collects.
- `SdoClient`: the imperative side.
  - `Sdo` owns the reused 8-byte request buffer as an `array<Byte>`. Its `Download` writes the initiate request in place and starts a `Transfer`.
  - `Transfer` keeps what the source's closure keeps (bytes sent, toggle), how its promise settled, and whether its callback and timer are still live.
  - `Transfer.Deliver` and `Transfer.TimerFired` update that state in place. Each is proved to keep `Inv` and to agree with `DownloadMachine.Next`.

Bytes are the numbers 0..255 (`SdoFrame.Byte`). The source builds command
bytes by or-ing shifted fields that never share a bit. The model writes each
such or as the sum of the fields. `BitwiseExpeditedCommand` and
`BitwiseSegmentCommand` prove that the sums equal the source's bitwise
expressions on 8-bit vectors. Storing a number into a Node `Buffer` byte keeps
it modulo 256, so `index >> 8` and `size >> 24` become `LowByte(n / 256^k)`.
Reading `raw[i]` past the end of the value yields `undefined`, which a
`Buffer` stores as 0 (`ByteAt`).

The model keeps these behaviours of the code:

- An abort code missing from the table has no reason: the lookup yields `undefined`, modelled as `None`, not a fallback text.
- The toggle starts at 1 and flips before each segment's command is built. The segments therefore carry toggle bits 0, 1, 0, …; the first segment has toggle 0, as CiA 301 lays it out (commands `0x00`, `0x10`, `0x03` for 20 bytes).
- A value of 0 bytes goes out expedited with command `0x33`. Field n would need the value 4 and overflows into the reserved bit 4. A server reading that command takes it as 4 bytes (`ExpeditedCommandEmpty`).
- The timeout rejects the promise but leaves the callback registered. A later acknowledgement still sends segments and overwrites the entry (`LateAckAfterTimeout`).
- The initiate response `0x60` for the entry's index is accepted at every step, not only after the initiate request. A segment response `0x30` is accepted right after it.

## Model

The transition function `DownloadMachine.Next`, with `Start`, `SendSegment` and
`Accepts`, is the counterpart of the timer handler (SDO.js line 85) and the
callback (lines 114-153). It is described by the rows `StartInv` through
`ExpireOnlyRejects`, and `SdoClient.Transfer.Deliver` and `TimerFired` are proved
equal to it.

| member | source | states |
|---|---|---|
| AbortCodes.Lookup | protocol/SDO.js:1-33 | a code has a reason exactly when it is in the table, and then the table's non-empty text |
| AbortCodes.TableIsWellFormed | protocol/SDO.js:1-33 | every code of the table is a 32-bit unsigned value with a non-empty reason |
| AbortCodes.StandardReasons | protocol/SDO.js:2-27 | codes 0x05030000, 0x05040000, 0x06020000, 0x06090011, 0x08000000 map to their CiA 301 reasons |
| AbortCodes.UnknownCodes | protocol/SDO.js:55 | codes not in the table (0, 0x05040006, a value above 32 bits) have no reason |
| SdoFrame.Parse | protocol/SDO.js:48-58 | succeeds exactly when the reads stay in range (3 bytes, or 8 for an abort); command is byte 0, index is bytes 1-2 little-endian; an abort carries the reason looked up for the code in bytes 4-7, any other frame error 0 |
| SdoFrame.ParseAbortFrame | protocol/SDO.js:53-55 | parsing an abort frame built from index, subindex and code yields command 0x80, the index modulo 2^16 and the reason of the code modulo 2^32 |
| SdoFrame.ParseInitiateFrame | protocol/SDO.js:50-51 | parsing the initiate request the client writes recovers its command and its 16-bit index |
| SdoFrame.LowBytesU16 | protocol/SDO.js:87-88 | the two bytes stored for an index read back as the index modulo 2^16 |
| SdoFrame.U32LERoundTrip | protocol/SDO.js:108-111 | the four size bytes of a segmented initiate request read back as the size modulo 2^32 |
| SdoFrame.ExpeditedCommandFields | protocol/SDO.js:98 | for 1 to 4 bytes the expedited command has specifier 1, the expedited and size bits set, field n giving exactly that size and the reserved bit clear |
| SdoFrame.ExpeditedCommandEmpty | protocol/SDO.js:98 | for 0 bytes the command is 0x33: the reserved bit is set and field n reads as 4 bytes |
| SdoFrame.SegmentedCommandFields | protocol/SDO.js:107 | 0x21 has specifier 1, is not expedited and indicates the size |
| SdoFrame.SegmentCommandFields | protocol/SDO.js:137-139 | a segment command reads back with specifier 0 and exactly its toggle, byte count and last-segment flag |
| SdoFrame.BitwiseExpeditedCommand | protocol/SDO.js:98 | the expedited command equals `0x23 \| ((4 - size) << 2)` on 8-bit vectors |
| SdoFrame.BitwiseSegmentCommand | protocol/SDO.js:137-139 | the segment command equals `(toggle << 4) \| ((7 - count) << 1)`, or-ed with 1 for the last segment, on 8-bit vectors |
| SdoFrame.Payload | protocol/SDO.js:99-100 | the bytes a transfer of size bytes carries: byte i of raw, or 0 past its end; raw's first size bytes when raw is long enough |
| SdoFrame.InitiateFrame | protocol/SDO.js:87-112 | 8 bytes; index and subindex bytes read back modulo 2^16 and 2^8; expedited: the command for the size, the value's bytes in 4.., the bytes after them left as the reused buffer held them; segmented: 0x21 and the size modulo 2^32 in bytes 4-7 |
| SdoFrame.SegmentFrame | protocol/SDO.js:127-139 | 8 bytes; a command with specifier 0, the given toggle, count min(7, left) and the last flag exactly when this segment ends the value; the next bytes of the value in 1.., zeros after them |
| SdoFrame.SegmentDataIsNextChunk | protocol/SDO.js:127-132 | the data a server takes from a segment (as many bytes as its count field says) are exactly the next bytes of the value |
| DownloadMachine.StartInv | protocol/SDO.js:85-113 | the state after the initiate request satisfies the invariant |
| DownloadMachine.SendSegmentInv | protocol/SDO.js:125-141 | sending a segment appends the next reference segment and keeps the invariant |
| DownloadMachine.NextInv | protocol/SDO.js:114-153 | every indication or expiry keeps the invariant: the frames after the first are the reference segments, bytesSent counts their data, the toggle matches their number, the entry is written only on completion, a pending promise still has callback and timer |
| DownloadMachine.RunInv | protocol/SDO.js:114-153 | any sequence of events keeps the invariant |
| DownloadMachine.ReachableInv | protocol/SDO.js:85-155 | every state reachable after the initiate request satisfies the invariant |
| DownloadMachine.IgnoredIndication | protocol/SDO.js:116-123 | a frame that is neither an abort nor an accepted acknowledgement, or any frame once the callback is removed, changes nothing |
| DownloadMachine.AbortSettles | protocol/SDO.js:116-121 | an abort clears the timer, removes the callback, rejects a pending promise with the looked-up reason and leaves frames, counters and entry alone |
| DownloadMachine.AcceptedSendsSegment | protocol/SDO.js:122-141 | an accepted acknowledgement with bytes left sends the segment for bytesSent with the flipped toggle; bytesSent grows by its count, up to the size; its last flag is set exactly when every byte is then sent |
| DownloadMachine.AcceptedCompletes | protocol/SDO.js:143-151 | an accepted acknowledgement with every byte sent clears the timer, removes the callback, writes the entry and resolves a pending promise, sending nothing |
| DownloadMachine.ExpireOnlyRejects | protocol/SDO.js:85 | the timer rejects a pending promise as timed out and leaves the callback, frames and entry alone |
| DownloadMachine.SettledIsFinal | protocol/SDO.js:71-156 | once settled, a promise keeps its outcome through any later events |
| DownloadMachine.FirstFrameIsInitiate | protocol/SDO.js:87-113 | in every run the first frame sent is the initiate request written over the buffer the download started from |
| DownloadMachine.RunOnlyGrows | protocol/SDO.js:114-155 | frames sent are only ever appended to, bytesSent never decreases and a written entry stays written |
| DownloadMachine.Segments | protocol/SDO.js:125-141 | the reference sequence of the first k segments: segment j carries bytes 7j.. with toggle j mod 2 |
| DownloadMachine.CollectedAppend | protocol/SDO.js:125-141 | one more segment adds its data at the end of what a server has collected |
| DownloadMachine.CollectedStep | protocol/SDO.js:125-141 | if the first j segments carry the first 7j bytes, the first j + 1 carry the first min(size, 7(j + 1)) |
| DownloadMachine.CollectedSegments | protocol/SDO.js:125-141 | the data of the first k segments are the first min(size, 7k) bytes of the value |
| DownloadMachine.SegmentedDelivery | protocol/SDO.js:104-141 | a segmented download with every byte sent has sent ceil(size/7) segments whose data together are the value, whose toggles alternate from 0, and of which only the last has the completion bit |
| DownloadMachine.ExpeditedDelivery | protocol/SDO.js:95-103 | an expedited download sends only the initiate request, with the expedited command and the value in bytes 4.. |
| DownloadMachine.ScenarioRun | protocol/SDO.js:104-151 | for 20 bytes and acknowledgements 0x60, 0x20, 0x30, 0x20 the run ends resolved after the initiate request and three reference segments |
| DownloadMachine.ScenarioFrames | protocol/SDO.js:104-139 | for 20 bytes the frames carry commands 0x21 (size 20), 0x00, 0x10 and 0x03 |
| DownloadMachine.ScenarioData | protocol/SDO.js:125-132 | for 20 bytes the three segments together carry the value |
| DownloadMachine.SegmentedScenario | protocol/SDO.js:104-151 | the 20-byte download: four frames with commands 0x21, 0x00, 0x10, 0x03, the value collected, the entry written and the promise resolved |
| DownloadMachine.ExpeditedScenario | protocol/SDO.js:95-151 | a 4-byte value goes out as one frame with command 0x23 and the value in bytes 4-7, and the first initiate response resolves it |
| DownloadMachine.LateAckAfterTimeout | protocol/SDO.js:85-151 | after the timer fires, a later initiate response still writes the entry while the promise stays rejected as timed out |
| SdoClient.Resolve | protocol/SDO.js:72-83 | no entry rejects as not a data object; a list of other than one entry as a name that is not unique; a non-zero subindex as an error; otherwise the single entry |
| SdoClient.Sdo.constructor | protocol/SDO.js:37-46 | the frame id is 0x600 + device id and the data buffer is 8 fresh zero bytes |
| SdoClient.Sdo.WriteInitiate | protocol/SDO.js:87-112 | the buffer becomes InitiateFrame of its old contents |
| SdoClient.Sdo.WriteSegment | protocol/SDO.js:127-139 | the buffer becomes SegmentFrame of those bytes and that toggle |
| SdoClient.Sdo.Download | protocol/SDO.js:68-156 | fails exactly as Resolve does, leaving the buffer alone; otherwise a fresh transfer that satisfies the invariant and is in the Start state over the old buffer |
| SdoClient.Sdo.Upload | protocol/SDO.js:60-66 | resolves at once |
| SdoClient.Transfer.constructor | protocol/SDO.js:91-155 | the transfer just after the initiate request is in the Start state and satisfies the invariant |
| SdoClient.Transfer.Deliver | protocol/SDO.js:114-153 | the new state is Next of the old one for that indication and keeps the invariant; the entry gets the new value, size and raw bytes exactly when the download completes, and is otherwise unchanged |
| SdoClient.Transfer.TimerFired | protocol/SDO.js:85 | the new state is Next of the old one for an expiry and keeps the invariant |

## Left out

- Logging (`console.log`) is not modelled; it has no effect on the protocol.
- The CAN channel and the device's event emitter are not modelled as code. A send is modelled as appending a snapshot of the buffer to `sent`. Registering or removing the callback is the `listening` flag.
- `setTimeout` and `clearTimeout` are the `timerArmed` flag plus an `Expire` event. The timeout's duration is not modelled.
- `device.get` is a parameter: the `Target` it returned. `device._parseRaw` (the value codec) and entries' data types are not part of this model: its `(value, size, raw)` result is a parameter.
- Sdo.Download: after the name resolution rejects, the source goes on running the executor. With no entry and subindex 0 it arms the timer (line 85) and then throws at `entry.index` (line 87). With a non-zero subindex it throws at line 83 instead, before arming the timer. With an ambiguous name it may even write a frame and register a callback. The model stops at the rejection, since the settled promise cannot change.
- Sdo.Download: the name-resolution rejections and the `ReferenceError` for a non-zero subindex are modelled as the first rejection. Their message texts are not modelled.
- The source sends the buffer by reference, so a channel that queues the object would see later writes. The model keeps a snapshot per send.
- Several downloads sharing one `Sdo` run in the source without mutual exclusion, interleaving writes to the one buffer. The model proves each `Transfer` on its own and does not model interleavings.
- Sdo.Upload: the source's upload is a stub that resolves without sending anything, and the model is the same stub.
- SdoFrame.Parse: receiving the CAN message and the `msg` wrapper are not modelled; `Parse` takes the data bytes.
- Numbers that are not non-negative integers (fractions, negative sizes or indexes) are not modelled: index, subindex, size and device id are integers, and a size or index is a `nat`.
