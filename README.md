# pylepton frame acquisition, modelled in Dafny

This project models how the pylepton drivers acquire frames from a FLIR Lepton thermal camera.
The camera speaks FLIR's VoSPI ("video over SPI") scheme. The model covers three drivers:

- `pylepton/Lepton.py` (class `Lepton`, 80 x 60 sensor);
- `pylepton/Lepton3.py` (class `Lepton3`, 160 x 120 sensor, four segments per frame);
- `lepton/Lepton.py` (the original `Lepton` class, which returns raw lines).

The SPI device node is an abstract, finite stream of 82-word packets (`Bus.SpiBus`). Each
`SPI_IOC_MESSAGE` ioctl takes the next packet and writes it into the receive buffer its
descriptor names. The bus logs every transfer descriptor it performs and every reset sleep.
The end of the stream bounds every loop. In the code the loops spin forever only while the
sensor keeps sending discards, or while the Lepton 3 hunt never succeeds; "## Left out" records
that. The drivers' numpy arrays are `NdArrays.NdArray` objects: a shape, an item size and a
flat `array<bv16>` in row-major order.

Modules, following the program's structure:

- `VoSpi` (vospi.dfy): the class constants, the packet and descriptor types, and the discard
  test. It also holds the uint16 byte swap, the flattening of captured lines into buffer memory,
  and the unbounded sum used as the frame id.
- `Bus` (bus.dfy): the SPI device as a packet source.
- `Sync` (sync.dfy): the `while rxs < rxs_end` sync-and-fill loop shared by all three drivers.
  It is proved against pure functions of the stream: the number of leading discards, the 60
  lines kept, and the log of transfers.
- `NdArrays` (ndarray.dfy): shape assignment, broadcasting of slice assignments, the in-place
  byte swap, the header-stripping copies and the sum.
- `PyLepton` (pylepton.dfy): `capture` of pylepton/Lepton.py, as documented and as written.
- `PyLepton3` (pylepton3.dfy): the Lepton 3 descriptor table, the hunt for segment 1 with its
  reset wait, the three remaining segments, and the (240, 80) to (120, 160) reshape. The
  captures are specified by functions of the stream (`Hunt`, `FillFrom`, `FrameRun`).
- `LegacyLepton` (lepton.dfy): `capture(a)` of lepton/Lepton.py, which syncs directly into the
  caller's array and sums the raw lines.

Where the code departs from its docstrings or from FLIR's VoSPI description, the model follows
the code:

- The Lepton 3 hunt accepts the segment whose telemetry nibble is 1, not 0. That is the FLIR
  numbering of segments 1..4.
- A word that is not well formed but carries nibble 1 still ends the hunt. Only a rejected
  word that is not well formed is followed by the 185 ms wait.
- The Lepton 3 output is reshaped to (120, 160) by the driver itself. A supplied buffer that
  passes the size test but does not hold exactly 19200 elements fails at that reshape.
- No batching of transfers and no retry ceiling appear in the code. A finite stream bounds
  every loop instead.
- The discard test and the Lepton 3 telemetry tests read the same raw ID word in opposite byte
  orders (pylepton/Lepton.py:104 against pylepton/Lepton3.py:57-59). The discard test reads
  bits 8..11 of the stored word. Those are bits 0..3 of the ID as decoded after the swap, not
  its bits 8..11, where a discard is marked. So a packet whose decoded ID is 0x0F00 fails the
  discard test (`PyLepton3.DiscardByteOrder`). This is an observation from the code, not
  executed; the model keeps the tests as written.

## Model

| member | source | states |
|---|---|---|
| VoSpi.ByteSwap | pylepton/Lepton.py:109 | the swapped word's high byte is the old low byte and its low byte the old high byte |
| VoSpi.ByteSwapInvolution | pylepton/Lepton.py:109 | swapping a word twice gives the word back |
| VoSpi.ByteSwapNotIdempotent | pylepton/Lepton.py:109 | swapping once differs from swapping twice (0x0100 becomes 0x0001) |
| VoSpi.SwapAllInvolution | pylepton/Lepton3.py:69 | byte-swapping a whole buffer twice restores it; each word is swapped on its own |
| VoSpi.SwapAllAppend | pylepton/Lepton3.py:69 | swapping a concatenation swaps each part |
| VoSpi.Flatten | lepton/Lepton.py:77-86 | the memory of k captured lines is 82 k words long |
| VoSpi.FlattenAppend | lepton/Lepton.py:77-86 | the memory of two runs of lines is the first run's memory followed by the second's |
| VoSpi.FlattenLine | lepton/Lepton.py:77-86 | words [82 l, 82 l + 82) of the memory are packet l |
| VoSpi.FlattenWord | lepton/Lepton.py:77-86 | word 82 l + c of the memory is word c of packet l |
| VoSpi.IsDiscard | pylepton/Lepton.py:104 | definition: a packet is a discard when bits 8..11 of its ID word, as stored, are all set; lepton/Lepton.py:84 uses the same test |
| VoSpi.LineTransfer | pylepton/Lepton.py:102 | definition: the descriptor packed before each read, 164 bytes received at offset `rxs`, 18000000 Hz, 8 bits per word, no delay, no chip-select change, bus widths 8 |
| VoSpi.SwapAll | pylepton/Lepton.py:109 | the swapped buffer has the old buffer's length, word i being the swap of old word i |
| VoSpi.Sum | pylepton/Lepton.py:112 | definition: `sum()` as an unbounded natural number over the words |
| VoSpi.SumAppend | pylepton/Lepton.py:112 | the sum of a concatenation is the sum of the sums |
| VoSpi.SumZero | pylepton/Lepton.py:80-83 | an all-zero frame has id 0 |
| VoSpi.SumSingle | pylepton/Lepton.py:80-83 | a frame whose only non-zero sample is v has id v |
| VoSpi.SumBound | pylepton/Lepton.py:112 | the id is at most 0xFFFF per sample |
| Bus.Splice | pylepton/Lepton.py:102-103 | a transfer changes exactly the 82 words at its offset, which then hold the packet |
| Bus.SpiBus.constructor | pylepton/Lepton.py:60-61 | the opened device yields the given packet stream and has logged nothing |
| Bus.SpiBus.Exchange | pylepton/Lepton.py:102-103 | one ioctl takes the next packet into the buffer at rx_buf / 2 and logs its descriptor; with no packet left it changes nothing |
| Bus.SpiBus.Sleep | pylepton/Lepton3.py:61 | a sleep is logged and consumes no packet |
| Sync.LeadingDiscards | pylepton/Lepton.py:104 | the count stays within the stream, and the packet after the leading discards is not a discard |
| Sync.LeadingDiscardsAreDiscards | pylepton/Lepton.py:104 | every packet before that one is a discard (its ID word matches 0x0F00 under mask 0x0F00) |
| Sync.SegmentLines | lepton/Lepton.py:81-86 | a segment is 60 lines, and its first line is not a discard |
| Sync.SegmentSplit | lepton/Lepton.py:81-86 | the stream is the leading discards, then the 60 kept lines, then the rest |
| Sync.SyncLogAt | lepton/Lepton.py:81-83 | transfer k of a run is logged in position k |
| Sync.SyncTransferShape | pylepton/Lepton.py:98-106 | every transfer of a run is the loop's descriptor. Its offset is a multiple of 164 inside the segment's 60 lines. The first N + 1 transfers receive into line 0, and each later one lands 164 bytes past the one before |
| Sync.SyncedLoopStep | lepton/Lepton.py:84-86 | once synced, the next packet goes into the next line whatever it holds |
| Sync.UnsyncedLoopStep | lepton/Lepton.py:81-86 | while unsynced, the packet goes into line 0 and the offset stays at line 0 unless the loop syncs on it |
| Sync.UnsyncedTest | lepton/Lepton.py:84 | while unsynced, the word the test reads is the one just received, and the test holds exactly at the first non-discard |
| Sync.LoopStep | lepton/Lepton.py:81-86 | one iteration keeps the loop's state description; synced never reverts |
| Sync.LoopExit | lepton/Lepton.py:81-86 | the loop writes nothing outside the segment; it runs short only if the stream lacks 60 packets after the discards; a full run holds exactly those packets |
| Sync.SyncAndFill | lepton/Lepton.py:77-86 | the loop succeeds iff the stream holds N leading discards then 60 packets. It then consumes exactly N + 60 packets, issues exactly the N + 60 transfers of the run, leaves the segment holding those 60 packets in order, and leaves everything else in the buffer unchanged |
| Sync.SyncAndFillAsWritten | pylepton/Lepton.py:97-106 | when the test reads a word no transfer writes, the loop keeps the first 60 packets if that word is not a discard, and exhausts the stream if it is |
| NdArrays.CanBroadcastInto | pylepton/Lepton.py:108 | definition: numpy's broadcasting rule, matching axes from the last one; a source axis fits when it equals the target's or is 1, and leading source axes beyond the target's rank must be 1 |
| NdArrays.BroadcastStep | pylepton/Lepton.py:108 | a source broadcasts iff its last axis equals the target's or is 1, and the rest broadcasts |
| NdArrays.BroadcastSame | pylepton/Lepton3.py:89 | a shape always broadcasts into itself |
| NdArrays.NdArray.constructor | pylepton/Lepton3.py:49 | a new array has the given shape, item size and contents |
| NdArrays.NdArray.NBytes | lepton/Lepton.py:74 | nbytes is the element count times the item size |
| NdArrays.NdArray.SetShape | pylepton/Lepton3.py:88 | `a.shape = s` succeeds iff the size is unchanged, and a refused shape leaves the array as it was |
| NdArrays.NdArray.ByteSwapInPlace | pylepton/Lepton.py:109 | the array then holds its old contents, each word swapped |
| NdArrays.NdArray.Total | pylepton/Lepton.py:112 | the sum is at most 0xFFFF per element |
| NdArrays.SwapInPlace | pylepton/Lepton3.py:69 | the buffer then holds its old contents, each word swapped |
| NdArrays.StripHeaders | pylepton/Lepton3.py:89 | k lines' payload is 80 k words |
| NdArrays.StripWord | pylepton/Lepton3.py:89 | payload word c of line l is word c + 2 of captured line l |
| NdArrays.StripAppend | pylepton/Lepton3.py:89 | stripping one more line appends that line's 80 payload words |
| NdArrays.StripFlatten | pylepton/Lepton3.py:89 | payload word c of line l is word c + 2 of packet l |
| NdArrays.PasteAt | pylepton/Lepton.py:108 | definition: element i of a buffer with trailing axes d1 x d2 after `[0:60, 0:80] = cap[:, 2:]`, the payload word of its row and column inside the block and its old value outside |
| NdArrays.Paste3 | pylepton/Lepton.py:108 | the pasted buffer keeps the buffer's length, element i given by `PasteAt` |
| NdArrays.Paste3Word | pylepton/Lepton.py:108 | with the slice `[:, 2:]`, element (r, c, x) of the block receives payload word c of line r, broadcast along the last axis |
| NdArrays.Paste3Keeps | pylepton/Lepton.py:108 | elements outside the 60 x 80 block keep their values |
| NdArrays.Paste3Full | pylepton/Lepton.py:93-108 | into a (60, 80, 1) buffer the paste writes exactly the stripped capture |
| NdArrays.PastePayload | pylepton/Lepton.py:108 | the in-place copy leaves the buffer as the paste of the capture |
| NdArrays.StripInto | pylepton/Lepton3.py:89 | `dst[:, :] = cap[:, 2:]` leaves dst holding the stripped capture |
| PyLepton.TooSmall | pylepton/Lepton.py:94 | definition: the intended size test, rank under 2, fewer than 60 rows, fewer than 80 columns or items under 2 bytes |
| PyLepton.GuardAsWritten | pylepton/Lepton.py:94-95 | definition: the test as written raises the size exception when a shape test fails and AttributeError on `elemsize` otherwise |
| PyLepton.BlockShape | pylepton/Lepton.py:108 | definition: `data_buffer[0:60, 0:80]` of a buffer of rank 2 or more has shape (60, 80) followed by the buffer's trailing axes |
| PyLepton.GuardAsWrittenRejects | pylepton/Lepton.py:94-95 | as written, every buffer that passes the three shape tests raises AttributeError on `elemsize`, including the documented (60, 80, 1) uint16 buffer; one that fails them raises the size exception |
| PyLepton.CopyAsWrittenNeverFits | pylepton/Lepton.py:108 | as written, `[:2, :]`, of shape (2, 82, 1), broadcasts into the (60, 80) block of no buffer of rank 2 to 4 |
| PyLepton.CopyFits | pylepton/Lepton.py:108 | with `[:, 2:]`, of shape (60, 80, 1), among buffers of rank 2 to 4, the copy fits exactly when the buffer has rank 3 |
| PyLepton.ProbeMissesDiscards | pylepton/Lepton.py:104 | with one discard and then 60 good packets, the loop as written keeps the discard as line 0, while the intended loop keeps the 60 good packets |
| PyLepton.FrameWord | pylepton/Lepton.py:80 | output pixel (r, c) is payload word c of line r, byte-swapped |
| PyLepton.Lepton.constructor | pylepton/Lepton.py:58 | the private capture buffer is 60 x 82 zero words |
| PyLepton.Lepton.FillSegment | pylepton/Lepton.py:97-106 | the intended loop fills the capture buffer with the 60 lines after the leading discards, issuing N + 60 transfers |
| PyLepton.Lepton.PasteAndSwap | pylepton/Lepton.py:108-109 | the buffer then holds the paste of the payload, byte-swapped as a whole |
| PyLepton.Lepton.Capture | pylepton/Lepton.py:92-112 | capture as documented. An undersized buffer (rank < 2, rows < 60, cols < 80, item size < 2) raises before any transfer. Otherwise capture runs out of stream iff the stream holds no segment. Given a segment, a supplied buffer raises the broadcast error iff the copy does not broadcast, and the capture succeeds iff the buffer has rank 3 and item size 2. The output is the byte-swapped stripped payload and the id is its sum. Every error leaves a supplied buffer's contents unchanged, and the size error also leaves the capture buffer and the bus unchanged |
| PyLepton.Lepton.CaptureAsWritten | pylepton/Lepton.py:92-112 | capture as written never returns a frame: a supplied buffer raises at the guard; an allocated one runs out of stream or fails at the copy |
| PyLepton3.SegmentDescriptor | pylepton/Lepton3.py:36-44 | definition: table entry i receives 164 bytes at offset 164 i, at 18000000 Hz, 8 bits per word, no delay, cs_change 1 |
| PyLepton3.DescriptorsTile | pylepton/Lepton3.py:35-44 | the 240 descriptors tile the capture buffer: byte b is received by entry b div 164 and by no other |
| PyLepton3.SegmentDescriptors | pylepton/Lepton3.py:55-66 | segment slot i uses table entries [60 i, 60 i + 60) and fills lines 60 i to 60 i + 59 |
| PyLepton3.LineNumber | pylepton/Lepton3.py:76 | the decoded line number has 12 bits |
| PyLepton3.SegmentField | pylepton/Lepton3.py:78 | the decoded segment number (TTT) has 4 bits |
| PyLepton3.FieldLink | pylepton/Lepton3.py:57-78 | the raw nibble the hunt tests is the TTT field decoded after the swap; acceptance means TTT == 1; well-formed means line number 20 |
| PyLepton3.Accepts | pylepton/Lepton3.py:57 | definition: the hunt stops when bits 4..7 of line 20's raw ID word are 0001 |
| PyLepton3.WellFormed | pylepton/Lepton3.py:59 | definition: the raw word is well formed when its bits outside 4..7 read 0x1400 (line 20) |
| PyLepton3.DiscardByteOrder | pylepton/Lepton3.py:57-59 | the discard test reads bits 0..3 of the ID the telemetry tests decode after the swap: packet 15's raw word passes it, and the raw word 0x000F of a discard decoded as 0x0F00 does not |
| PyLepton3.AcceptsIgnoresWellFormedness | pylepton/Lepton3.py:57-59 | a word with nibble 1 whose line field is not 20 is accepted |
| PyLepton3.SegmentLog | pylepton/Lepton3.py:55 | a segment capture after N discards issues N + 60 transfers |
| PyLepton3.Wait | pylepton/Lepton3.py:59-61 | definition: a rejected segment is followed by a 185 ms sleep exactly when line 20's word is not well formed |
| PyLepton3.Hunt | pylepton/Lepton3.py:55-63 | definition: one segment capture, then `HuntAfter` on its lines; the hunt fails when the stream cannot fill a segment |
| PyLepton3.HuntAfter | pylepton/Lepton3.py:57-63 | definition: an accepted segment ends the hunt; a rejected one adds the wait and starts a new hunt on the rest of the stream |
| PyLepton3.FillFrom | pylepton/Lepton3.py:65-66 | definition: slots `slot` to 3 are captured in turn, each after its leading discards, with no telemetry test |
| PyLepton3.FrameRun | pylepton/Lepton3.py:55-66 | definition: the hunt followed by the fill of slots 1 to 3 |
| PyLepton3.HuntResult | pylepton/Lepton3.py:55-63 | when the hunt ends, line 20's raw word has nibble 1, line 0 is no discard, and at least 60 packets were consumed |
| PyLepton3.HuntLog | pylepton/Lepton3.py:55-63 | the hunt receives only into slot 0 through the table's first entry; every wait lasts 185 ms and is followed by a re-capture of slot 0 |
| PyLepton3.HuntAcceptsFirst | pylepton/Lepton3.py:55-57 | an accepted first capture ends the hunt at once, with no wait |
| PyLepton3.HuntRetries | pylepton/Lepton3.py:57-63 | a rejected capture is followed by a wait iff its word is not well formed, and then by a whole new hunt |
| PyLepton3.SegmentLogAscending | pylepton/Lepton3.py:66 | a slot's transfers are transfers only, through table entries of that slot and later ones, at non-decreasing offsets |
| PyLepton3.FillResult | pylepton/Lepton3.py:65-66 | slots 1, 2 and 3 yield 60 lines each and are captured once each, in order, with no telemetry test |
| PyLepton3.FrameResult | pylepton/Lepton3.py:55-66 | a frame is 240 lines, the first 60 from the accepted hunt; its log is the hunt's followed by the fills' |
| PyLepton3.OutPixel | pylepton/Lepton3.py:88-90 | output pixel (R, C) is payload word C mod 80 of capture line 2 R + C div 80, byte-swapped |
| PyLepton3.SegmentRows | pylepton/Lepton3.py:88-90 | segment i becomes output rows 30 i to 30 i + 29 |
| PyLepton3.IdFits | pylepton/Lepton3.py:93 | the id of the 19200-element output is below 2^32, so a 32-bit accumulator returns the unbounded sum |
| PyLepton3.TooSmall | pylepton/Lepton3.py:50 | definition: the size test, rank under 2, fewer than 120 rows, fewer than 160 columns or items under 2 bytes |
| PyLepton3.Lepton3.constructor | pylepton/Lepton3.py:32-44 | the table holds 240 descriptors, entry i receiving 164 bytes at offset 164 i with speed 18000000, 8 bits and cs_change 1; the capture buffer is zero |
| PyLepton3.Lepton3.CaptureSegment | pylepton/Lepton3.py:55 | capture_segment on a slot writes the 60 lines after the discards into that slot, logs the slot's transfers and keeps the rest of the buffer |
| PyLepton3.Lepton3.HuntFirstSegment | pylepton/Lepton3.py:55-63 | the hunt loop consumes and logs exactly what `Hunt` says, and leaves its accepted segment in slot 0 |
| PyLepton3.Lepton3.FillRemaining | pylepton/Lepton3.py:65-66 | the for loop consumes and logs exactly what `FillFrom` says, and fills lines 60 to 239 with its lines |
| PyLepton3.Lepton3.Deliver | pylepton/Lepton3.py:88-93 | the reshape fails iff the buffer does not hold 19200 elements, leaving its shape and contents unchanged. A 19200-element buffer without 2-byte items is `UnsupportedLayout`. Delivery succeeds iff the buffer holds 19200 2-byte elements, and then the buffer becomes (120, 160) holding the payload, and the id is its sum |
| PyLepton3.Lepton3.CaptureFrame | pylepton/Lepton3.py:55-69 | the capture buffer ends as the four segments, byte-swapped once after all are in |
| PyLepton3.Lepton3.Acquire | pylepton/Lepton3.py:55-93 | acquisition then delivery: runs out of stream iff `FrameRun` does. Every error except `UnsupportedLayout` leaves the buffer's shape and contents unchanged. On success the output is the stripped swapped frame and the id is its sum |
| PyLepton3.Lepton3.Capture | pylepton/Lepton3.py:46-93 | a buffer with rank < 2, rows < 120, cols < 160 or item size < 2 raises before any transfer, leaving the bus and the capture buffer unchanged. A missing one is a fresh (120, 160) buffer. Given a frame, a supplied buffer raises the reshape error iff it does not hold 19200 elements, and the capture succeeds iff it holds 19200 elements of 2 bytes. Every error except `UnsupportedLayout` leaves a supplied buffer's shape and contents unchanged. The result is the (120, 160) image and its sum |
| LegacyLepton.ProbeIsScalar | lepton/Lepton.py:84 | definition: `a[0, 0]` is one element when the rank is at least 2 and the trailing axes hold one element |
| LegacyLepton.ProbeBlock | lepton/Lepton.py:84 | for rank 2 or more, the array's elements fall into shape[0] x shape[1] blocks of Prod(shape[2..]) elements, one of which `a[0, 0]` selects |
| LegacyLepton.ProbeScalarBySize | lepton/Lepton.py:84 | in a non-empty array of rank 2 or more, `a[0, 0]` is one element exactly when the first two axes account for all the elements |
| LegacyLepton.ProbeFailure | lepton/Lepton.py:84 | a failing probe raises IndexError exactly for rank < 2; on a non-empty array it raises the truth-value error exactly when rank >= 2 and not all elements lie on the first two axes |
| LegacyLepton.HeaderSum | lepton/Lepton.py:89 | definition: the sum of every line's ID and CRC words |
| LegacyLepton.IdCountsHeaders | lepton/Lepton.py:89 | the raw id is the pixel sum plus every line's ID and CRC words |
| LegacyLepton.IdOfDarkFrame | lepton/Lepton.py:89 | a frame of zero pixels has the header sum as its id |
| LegacyLepton.Lepton.constructor | lepton/Lepton.py:33-52 | the driver is bound to the given bus |
| LegacyLepton.Lepton.Acquire | lepton/Lepton.py:77-89 | on an array of at least 9840 bytes: items that are not 2 bytes give `UnsupportedLayout` with the array, bus and log unchanged. With 2-byte items a non-scalar `a[0, 0]` gives the probe's error after one transfer. With 2-byte items and a scalar probe the capture succeeds iff the stream holds a segment, the loop writes the 60 raw lines over the first 4920 words, and the id is the sum of the whole array |
| LegacyLepton.Lepton.Capture | lepton/Lepton.py:71-89 | an array under 9840 bytes raises before any transfer, and one of other than 2-byte items is `UnsupportedLayout`; both leave the array, bus and log unchanged. A missing array becomes a (60, 82, 1) uint16 array holding the raw lines, neither swapped nor stripped. The id is the sum of the array |

## Left out

- Opening and configuring the device. `__enter__`/`__exit__` and the mode, bits and speed
  ioctls are left out, because the device is an abstract packet stream here.
- The encoding of ioctl numbers is left out; `ioctl_numbers` is not part of this model.
- Descriptors are records of integers. C addresses become byte offsets into the buffer they
  name, and the `struct.pack` byte layout is left out.
- `time.time()`, the frames-per-second print and the debug print loop are left out. Only the
  field decoding of the debug print is modelled (`LineNumber`, `SegmentField`).
- `time.sleep(0.185)` is a logged `Sleep(185)` event; no time passes in the model.
- Uninitialised memory:
  - np.ndarray's fresh buffer is zero in `PyLepton.Lepton.Capture`, whose copy overwrites all
    of it;
  - in `LegacyLepton.Lepton.Capture` and `PyLepton.Lepton.CaptureAsWritten` it is the
    caller-chosen `uninit` parameter.
- Arrays whose dtype is not 2 bytes wide (e.g. uint32, uint64) are refused as
  `UnsupportedLayout` after the size guard. The model's data are 16-bit words, so the
  widening copies and byte swaps numpy would perform on them are not modelled.
- Rank-3 target arrays of the intended pylepton copy are modelled. Targets of rank 5 or more
  that happen to broadcast are `UnsupportedLayout`.
- Non-contiguous arrays, views and strides are left out; every array is C-contiguous.
- The byte order of the dtype ('>u2' versus native) is left out; every word is kept as the
  bits the transfer wrote.
- `capture_segment`, `_msg_size`, `_xmit_struct`, `_txbuf` and `_handle`, which
  pylepton/Lepton3.py uses, are not defined in the base class shown.
  - `capture_segment` is modelled as the sync-and-fill loop on the slot's first table entry.
  - The 8-value pack of pylepton/Lepton3.py:36-44 is read as a descriptor with tx and rx bus
    widths 0.
  - Any batching of the transfers is left out.
- The drivers' loops spin forever when the sensor keeps sending discards or out-of-order
  packets (pylepton/Lepton.py:101-106, lepton/Lepton.py:81-86, pylepton/Lepton3.py:57-63).
  Here an exhausted stream yields `StreamExhausted` instead, because a bounded model cannot
  run forever.
- PyLepton.Lepton.Capture, LegacyLepton.Lepton.Capture: the id is the unbounded sum. On a
  supplied buffer of more than 65537 elements numpy's 32-bit accumulator (on a 32-bit
  platform) could wrap, and that wrap-around is not modelled. `PyLepton3.IdFits` shows that the
  Lepton 3 output, 19200 samples, cannot reach it.
- PyLepton.Lepton.Capture, PyLepton3.Lepton3.Capture, LegacyLepton.Lepton.Capture: only the
  item size of the dtype is modelled, not its kind. An int16 or float16 buffer is treated as
  uint16. The signed values and signed sum an int16 buffer would give, the TypeError of
  `a[0,0] & 0x0f00` on a float16 array (lepton/Lepton.py:84) and the float conversion of the
  pylepton copies are not modelled.

## Findings

| source | as written | input that shows it | evidently intended | confidence | as-written member | corrected member |
|---|---|---|---|---|---|---|
| pylepton/Lepton.py:104 | the discard test reads `data_buffer[0,0]`, which no transfer writes | one discard packet then 60 good packets, with a non-discard word in the output buffer: the discard is kept as line 0 | test the word just received into the capture buffer, as lepton/Lepton.py:84 does | not executed | Sync.SyncAndFillAsWritten, PyLepton.ProbeMissesDiscards | Sync.SyncAndFill |
| pylepton/Lepton.py:108 | copies `__capture_buf[:2,:]`, shape (2, 82, 1), into the (60, 80) block | the documented (60, 80, 1) buffer: the shapes cannot broadcast and numpy raises ValueError | copy the payload columns `[:, 2:]`, as pylepton/Lepton3.py:89 does | not executed | PyLepton.CopyAsWrittenNeverFits | PyLepton.CopyFits |
| pylepton/Lepton.py:94 | the size test reads `data_buffer.elemsize`, which numpy arrays do not have | any buffer of rank 2 or more with at least 60 rows and 80 columns: AttributeError | test `itemsize`, as pylepton/Lepton3.py:50 does | not executed | PyLepton.GuardAsWrittenRejects | PyLepton.Lepton.Capture |

`PyLepton.Lepton.CaptureAsWritten` combines the three: as written, no call returns a frame.
