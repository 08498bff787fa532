# A verified model of the G6 arena controller

This project models the controller firmware of a LED-display arena, and the host programs that talk to it, and
proves what they are for. `dafny verify dfyconfig.toml` (Dafny 4.11) checks all of it.

Code that works in place is written in place: classes and loops over arrays, each proved equal to a function on
values. The properties are lemmas about those functions.

| part | files | main results |
|---|---|---|
| Telemetry ring in reset-surviving memory | `Ring`, `RingProofs`, `RingCrash`, `RingRuns`, `RingResets`, `TelemetryRing` | the circular log is a bounded FIFO; crash recovery point by point and the exact condition for it; sequence conservation, with resets inside appends |
| Telemetry block format and drain protocol | `Codec`, `Drain`, `DrainLosses`, `DrainLate` | round trips; lossless drain over a link that loses requests and replies; evictions against gaps; what survives late and reordered replies |
| CRCs | `Division`, `Crc8`, `Crc16`, `Crc32`, `FrameGate` | table and loops are polynomial division; streaming; burst detection; what damage a frame's gate lets through |
| SD archive stream | `Zip`, `Archive`, `ArchiveProofs`, `ArchiveRuns`, `SdArchive` | the stream is a ZIP an independent reader accepts; length promise; termination |
| Pattern list and bulk transfers | `PatternIndex`, `Sources`, `RawBodies`, `Transfers`, `TransferProofs`, `TransferReplies`, `TransferBodies`, `TransferStream`, `TransferFiles`, `TransferMishaps`, `CommandProcessor` | ownership over all runs; the host's frames dispatched in order, each once, and which replies arrive; whose bytes stand behind a header; upload and firmware resync; files held and left on the card |
| Frame buffer as a cache | `Panel`, `FrameCache`, `Frames`, `FrameProofs`, `FrameGeometry`, `PanelBuffer`, `FrameProcessor` | the no-read path is the reload; frame accounting; parity; whose block size is in force |
| Host command framing | `Framing`, `SerialManager` | chunk independence; inverse of the encoder; progress |
| Interrupt record | `IsrRecord`, `Health` | incremental checksums under nesting; partial capture |
| Open-loop clock | `FrameClock` | exact across counter wraps and clamping |

`Bytes` holds bytes, little-endian words and a few sequence facts.

## What turned out not to hold

Each of these is a property one would expect, with the exact condition under which the code has it.

- **A reset during an append can lose the log.** `makeRoom` counts records, and the header is sealed early only when
  the count is not zero (`src/Telemetry.cpp:109`, `src/Telemetry.cpp:127-130`). When `read_off` moves past a PAD
  alone, bytes the persisted header still claims are overwritten before the next seal. `RingCrash.ResetSafeIff`
  shows this is the only case; `RingCrash.TornPad` gives the reset that loses everything pending;
  `RingRuns.UnsealedPadIsReachable` gives the appends that lead there.
- **The archive's promises hold below 4 GB only.** Offsets and the directory offset wrap at 32 bits while the
  announced size is 64 bits wide (`src/CommandProcessor.cpp:2869-2878`). The stream is a readable ZIP, and as long
  as announced, if and only if the entries total less than 2^32 bytes (`ArchiveRuns.StreamIsValidZip`,
  `ArchiveRuns.LengthAsPromised`; `ArchiveRuns.OversizedLibrary` is one file that breaks both).
- **A frame's CRC does not catch every 16-bit burst.** The CRC is stored low byte first behind the body
  (`src/SdManager.cpp:397-408`), so a burst may cross from one into the other. A damaged frame is accepted exactly
  when its magic survives and the flipped body bits, as a message of their own, leave the flipped trailer bits
  (`FrameGate.DamageAcceptedIff`). Bursts of up to 16 bits inside the body, any damage inside the trailer, and
  bursts of up to 12 bits anywhere are always rejected (`FrameGate.BurstRejected`); 13 bits across the border have
  an accepted forgery for every frame (`FrameGate.ThirteenBitsPass`).
- **A reply can be lost, or reach the next client.** Each source has one response slot; `sendResponse` overwrites
  it, and a flush without room leaves it (`src/SerialManager.cpp:157-171`, `src/SerialManager.cpp:247-260`). Every
  command is consumed exactly once with one reply queued (`TransferProofs.TransfersAreSafe`); the reply in a slot
  reaches the host exactly when the slot is cleared before the next one is queued
  (`TransferReplies.ReplyReachesIff`, `TransferReplies.ReplyLost`). On the network the slot outlives its client
  (`src/NetworkManager.cpp:11-27`), so the next one may be sent it (`TransferReplies.NextClientGetsItIff`,
  `TransferReplies.ReplyToAStranger`).
- **Raw bytes can overtake their header.** `sendRaw` gives up waiting for room after 5 s and sends on
  (`src/SerialManager.cpp:200-204`). Over every run, each raw piece stands behind its own header with only pieces of
  the same body between if and only if no iteration sent bytes with that wait given up and their header still in the
  slot (`TransferBodies.BodiesWholeIff`). Then what a host reads behind a header is the file or the archive it
  announced (`TransferBodies.HostReads`). `TransferBodies.HeaderOvertaken` is a run from power-up in which a header
  comes to lie inside its own body.
- **A failed manifest write leaves latched indices behind.** `deletePattern` removes the list entry before writing
  the manifest, and its error return skips the index correction (`src/SdManager.cpp:175-178`,
  `src/CommandProcessor.cpp:530-544`). `TransferFiles.DeleteFollows` gives the exact condition. From then on the
  index guards no longer guard files: one file may be downloaded and uploaded at once (`TransferMishaps.HeldTwice`),
  or an uploading file be deleted and the upload still report success (`TransferMishaps.TakenAway`). In every run
  without such a step the guards hold and a status-0 upload's file is its payload
  (`TransferFiles.FilesAreExclusive`, `TransferFiles.UploadLands`); in any run, exclusion is lost exactly when a command
  is accepted for the file the other transfer holds (`TransferFiles.ExclusiveIff`).
- **A pattern may be named pattern.temp.** 0x83 does not refuse the name of the file index 0 stands for, and the
  guards then see two indices for one file (`TransferMishaps.TempTwice`). The runs above exclude it too.
- **A failed firmware write eats what follows the payload.** The chunk whose write failed is not counted as read
  before the rest is drained (`src/CommandProcessor.cpp:2657-2682`). 0xE0 leaves its source at the first byte after
  the payload if and only if no write failed; otherwise it consumes up to 4096 bytes of the commands behind it
  (`TransferProofs.FirmwareResyncIff`, `TransferProofs.UncountedIff`, `TransferProofs.FirmwareOverruns`). While every
  payload is read out, and no further, commands are the host's frames in order (`TransferStream.FramesInOrder`,
  `TransferStream.HandleReadsOut`).
- **0x70 after STOP keeps the wrong block size.** Stop, all-on, the glyph, streamed and PSRAM display set
  `block_byte_count_`, and 0x70 does not restore it from the open pattern (`src/CommandProcessor.cpp:1625-1638`).
  The pattern's size is in force exactly when nothing since its trial started has set another one last
  (`FrameGeometry.GeometrySinceStart`, `FrameProofs.StopLosesGeometry`). The cache property does not depend on it:
  skip and reload agree even then.
- **"gap == records evicted" is not quite so.** `README.md:740-744` of the repository equates the sequence gap with
  the evictions in `dropped`. Every eviction loses a record or takes one the host has or is being sent
  (`DrainLosses.EvictionsSplit`). The gap is as wide as `dropped` exactly when every record evicted so far is below
  the host's last and was not stored (`DrainLosses.GapIsDroppedIff`); `DrainLosses.DroppedIsNotTheGap` is a run in
  which a record delivered, not yet acknowledged and then evicted parts the two.
- **A reply read too late is stored twice.** The host does not tell the answer to an earlier request from the one it
  waits for (`scripts/telemetry_drain.py:225-274`, `tests/transport.py:103-107`). Its record stays ascending exactly
  when the late block is empty or starts past the last record stored (`DrainLosses.LateReplyIff`,
  `DrainLosses.LateReplyDuplicates`). Nothing is lost by it: over a network that delays, repeats and reorders requests
  and replies at will, a host that stays one reply behind included, every record is stored, pending or evicted
  (`DrainLate.StoredPendingOrEvicted`).

## Reading the model

- Memory is the ring's data plus one header line. `Telemetry` keeps a second, persisted copy that only a flush
  updates; a point in `RingCrash` is a moment between two flushes, and a reset there may leave any bytes in the
  range written since. The sealed header line is atomic, as `README.md:745-750` of the repository accepts. In
  `RingResets` such a reset may cut any append of a run.
- The checksum over the header is the code's sum, modulo 2^32.
- A drain event is one producer append, one request served, or one loss. Sequence numbers stay below the 32-bit wrap
  in `RingRuns` and `Drain`.
- In the archive, `disk[i]` is what entry `i`'s file holds when it is opened; it need not have the size found when
  the archive was armed. A `Tick` says what the deadline, the open, the read and the transport do.
- A step of `Transfers` is one `loop()` iteration: connection sampled once, both parsers, both dispatches, three
  services, both flushes. Of a source's channel, `out` lists the replies queued, `slot` holds one, `wire` is what
  went out, `lost` the replies overwritten; a raw piece on the wire names the reply that is its header. `card` holds
  the pattern files, `image` the firmware file; an archive in flight carries its `Archive` stream. Which command is
  parsed, what the card does and how much arrives are free; `TransferStream` takes the runs in which the parser reads
  a host's frames. `src/main.cpp:178` leaves network service switched
  off at this commit; the model keeps both sources, and runs in which the network never parses a command are among
  them.
- In `Frames`, an event is one writer of the buffer or the analog outputs. The content a glyph, all-on, dark,
  streamed or PSRAM writer leaves is free.
- Time is a parameter everywhere: a timeout is a flag of the step, and the playback clock reads given times.

## Model

| member | source | states |
|---|---|---|
| `RingProofs.AppendRefinesFifo` | src/Telemetry.cpp:123-151 | An append leaves the old queue less the evicted records, plus exactly the stamped record; cursors stay in range and the chain stays well-formed, so full is never taken for empty and nothing straddles the end |
| `RingProofs.MakeRoomDrops` | src/Telemetry.cpp:97-114 | Making room drops a front of the queue, counts exactly the records dropped, and leaves enough bytes free |
| `RingProofs.MakeRoomIsMinimal` | src/Telemetry.cpp:97-114 | No earlier stopping place would have had the room: only the shortest front is dropped |
| `RingProofs.AckRefinesFifo` | src/Telemetry.cpp:390-412 | An ack frees exactly the front of the queue numbered at or below it; one never issued, or the "no ack" value, frees nothing |
| `RingProofs.PeekReturnsLongestPrefix` | src/Telemetry.cpp:414-437 | A peek returns the longest run of whole pending records that fits, the number of the first, and whether a record is left |
| `RingProofs.PeekMakesProgress` | src/Telemetry.cpp:414-437 | A budget of one maximal record returns at least one record while any is pending |
| `RingProofs.PendingAreRecords` | src/Telemetry.cpp:69-88 | Everything pending has the exact per-type shape the host decodes; a PAD is never handed out |
| `RingProofs.CutIsIntact` | src/Telemetry.cpp:211-225 | Boot repair cuts the chain at the first record that is not decodable and what remains is intact |
| `RingProofs.BootIsConsistent` | src/Telemetry.cpp:242-262 | Whatever memory holds at reset, the ring after boot is consistent |
| `RingCrash.ResetRecovers` | src/Telemetry.cpp:116-151 | After a reset at any sub-step of an append, with any bytes of the unflushed range, boot finds the old log less the records whose eviction was published, and from the last seal on the new record as well |
| `RingCrash.ResetSafeIff` | src/Telemetry.cpp:109-130 | Every reset during an append is recovered so if and only if the append does not run over a PAD that was passed without being counted |
| `RingCrash.TornPad` | src/Telemetry.cpp:109-138 | In that one case some reset during the append loses the whole pending log |
| `RingCrash.AppendKeepsTidy` | src/Telemetry.cpp:123-151 | PADs lie only at the ring end, after every append |
| `RingRuns.StepKeepsInvariant` | src/Telemetry.cpp:123-151 | Each append, ack, peek, recording switch and reboot keeps the conservation invariant |
| `RingRuns.RunConserves` | src/Telemetry.cpp:123-151 | Over every run below the 32-bit wrap each append takes one number and the invariant holds |
| `RingRuns.SequenceConserved` | src/Telemetry.cpp:227-238 | From a fresh ring: acked + evicted + pending is the number of appends, pending numbers are consecutive and end at next_seq - 1, dropped is the evictions modulo 2^32 |
| `RingRuns.UnsealedPadIsReachable` | src/Telemetry.cpp:123-138 | The uncounted-PAD case is reached by a definite run of 5038 appends and one ack from an empty ring |
| `RingResets.CutKeepsInvariant` | src/Telemetry.cpp:116-151 | A reset inside an append of a run leaves a ring that boots into the same invariant, PADs in place, numbers and evictions conserved, the new record there exactly from its seal on, so that the next reset recovers too |
| `RingResets.ResetsConserve` | src/Telemetry.cpp:116-151 | Over every run of operations and appends cut by resets, none of them over an unsealed PAD, records are conserved |
| `TelemetryRing.Telemetry.constructor` | src/Telemetry.cpp:242-253 | An object over retained memory: its memory and its persisted copy are what the reset left |
| `TelemetryRing.Telemetry.MakeRoomFor` | src/Telemetry.cpp:99-114 | The eviction loop over the byte array moves read_off to where the specification says and returns its count |
| `TelemetryRing.Telemetry.EvictAndPublish` | src/Telemetry.cpp:124-130 | Evictions are counted and the header sealed before a byte is written, only when a record was evicted |
| `TelemetryRing.Telemetry.WritePad` | src/Telemetry.cpp:133-137 | The tail is marked as one PAD, flushed, beyond the write cursor |
| `TelemetryRing.Telemetry.WriteRecord` | src/Telemetry.cpp:140-149 | Stamped bytes are written and flushed, then published by the header |
| `TelemetryRing.Telemetry.Append` | src/Telemetry.cpp:123-151 | The append in place equals the specification on memory and passes through exactly its sequence of persisted states |
| `TelemetryRing.Telemetry.Acknowledge` | src/Telemetry.cpp:390-412 | The ack loop in place equals the specification |
| `TelemetryRing.Telemetry.PeekAt` | src/Telemetry.cpp:414-437 | The peek loop over the array returns bytes, first number, count and more as specified |
| `TelemetryRing.Telemetry.RepairChain` | src/Telemetry.cpp:215-225 | The repair loop truncates where the specification does |
| `TelemetryRing.Telemetry.Begin` | src/Telemetry.cpp:242-262 | Boot keeps and repairs, or initialises, as specified |
| `Codec.ParseRecordsLoop` | tests/telemetry_codec.py:244-265 | The host loop equals the recursive strict parser, including every rejection |
| `Codec.ReadEntry` | tests/telemetry_codec.py:253-265 | Length, bounds, PAD and payload checks of one turn |
| `Codec.CmdRoundTrip` | src/Telemetry.cpp:349-363 | A stamped CMD record decodes to its fields; parameters past the limit are cut |
| `Codec.FrameRoundTrip` | src/Telemetry.cpp:365-381 | A stamped FRAME record decodes to its fields, spi_us saturated |
| `Codec.StateRoundTrip` | src/Telemetry.cpp:153-160 | A stamped STATE record decodes to its fields |
| `Codec.ParseFlatten` | tests/telemetry_codec.py:244-265 | Concatenated records parse back to the same records |
| `Codec.HeaderRoundTrip` | src/CommandProcessor.cpp:1461-1477 | The 18-byte block header reads back field by field |
| `Codec.BlockRoundTrip` | src/CommandProcessor.cpp:1437-1477 | Every reply is accepted by parse_block and decodes to the longest fitting front of the pending records; more is set exactly when one is left; at least 26 bytes of budget make progress |
| `Drain.Drainer.FeedAll` | tests/telemetry_codec.py:290-296 | The tracker loop equals its specification: gaps, last number, counts |
| `Drain.Drainer.Poll` | scripts/telemetry_drain.py:225-274 | One request of the inner loop: what is stored, the next ack, and whether to ask again, for timeouts, error replies and undecodable payloads as well |
| `Drain.NextKeepsInv` | scripts/telemetry_drain.py:225-274 | Producing, serving, losing a request or a reply, and delivering each keep the link invariant |
| `Drain.DrainKeepsInv` | scripts/telemetry_drain.py:221-278 | So does every run of them |
| `Drain.MissesExactlyTheLost` | scripts/telemetry_drain.py:259-273 | Stored records strictly increase and, up to the cursor, miss exactly those evicted before delivery |
| `Drain.LosslessDrain` | scripts/telemetry_drain.py:221-278 | The same for every run from a fresh ring over a link that loses requests and replies |
| `Drain.NothingFreedUnstored` | src/CommandProcessor.cpp:1459-1460 | An ack frees only records the host has stored |
| `Drain.GapsAreTheLosses` | tests/telemetry_codec.py:290-296 | The gap widths the host lists, with what was lost before its first record, are the lost records |
| `DrainLosses.EvictionsSplit` | src/Telemetry.cpp:123-130 | dropped is the number of evictions, and each of them lost a record or took one the host has or is being sent |
| `DrainLosses.BlockShowsEvictions` | src/CommandProcessor.cpp:1461-1477 | The count shown with a block is the evictions up to then |
| `DrainLosses.GapIsDroppedIff` | README.md:740-744 | The gap is as wide as dropped if and only if every record evicted so far is below the last one stored and was not stored |
| `DrainLosses.GapOverRuns` | README.md:740-744 | Both over every run from a fresh ring |
| `DrainLosses.DroppedIsNotTheGap` | README.md:740-744 | A run of 2520 appends, one request and no ack in which they differ: the first record was delivered and then evicted |
| `DrainLosses.LateReplyIff` | scripts/telemetry_drain.py:225-274 | A reply read as the answer to a later request keeps the stored records ascending and single if and only if it is empty or starts past the last one stored |
| `DrainLosses.LateReplyDuplicates` | scripts/telemetry_drain.py:225-274 | A reply given up, the request repeated, the second reply stored, then the first read: the record is stored twice |
| `DrainLate.StoredPendingOrEvicted` | scripts/telemetry_drain.py:225-274 | Over every run on a network that may lose, delay, repeat and reorder requests and replies: every record appended is stored by the host, pending in the ring, or was evicted, and dropped counts the evictions |
| `DrainLate.NothingFreedUnread` | src/CommandProcessor.cpp:1459-1460 | In every such state the ack of any request ever sent, served next, frees only records the host has stored |
| `Crc32.ByteStepDivides` | src/Crc.h:43-55 | Two nibble-table lookups are eight steps of bitwise reflected division |
| `Crc32.UpdateDivides` | src/Crc.h:43-55 | crc32_update is polynomial division of the whole message |
| `Crc32.UpdateConcat` | src/Crc.h:43-55 | Chunk by chunk equals one pass over the concatenation |
| `Crc32.WindowDetected` | src/Crc.h:43-55 | Two equal-length messages that differ only within 32 consecutive bits never share a CRC |
| `Crc32.Crc32Update` | src/Crc.h:43-55 | The loop computes the update |
| `Crc16.UpdateDivides` | src/Crc.h:28-37 | crc16_ccitt_false is polynomial division of the message |
| `Crc16.UpdateConcat` | src/Crc.h:28-37 | Updates compose over concatenation |
| `Crc16.WindowDetected` | src/Crc.h:28-37 | Two equal-length messages that differ only within 16 consecutive bits never share a CRC |
| `FrameGate.DamageAcceptedIff` | src/SdManager.cpp:397-408 | A damaged copy of an accepted frame, body and trailer as read, is accepted if and only if the magic survives and the flipped body bits leave the flipped trailer bits as their remainder |
| `FrameGate.BurstRejected` | src/SdManager.cpp:397-408 | Every burst of up to 16 bits inside the body, any inside the trailer, and every burst of up to 12 bits anywhere is rejected |
| `FrameGate.ThirteenBitsPass` | src/SdManager.cpp:397-408 | For every accepted frame a 13-bit burst across the border of body and trailer is accepted |
| `Crc16.Crc16CcittFalse` | src/Crc.h:28-37 | The loop computes the CRC |
| `Crc8.UpdateDivides` | src/Crc.h:14-23 | crc8_autosar is polynomial division of the message |
| `Crc8.BurstDetected` | src/Crc.h:14-23 | Two equal-length messages that differ only within 8 consecutive bits never share a CRC |
| `Crc8.Crc8Autosar` | src/Crc.h:14-23 | The loop computes the CRC |
| `Zip.ReadsLocal` | src/CommandProcessor.cpp:2930-2999 | A reader finds name, data, descriptor and matching CRC behind a local header |
| `Zip.ReadsHeader` | src/CommandProcessor.cpp:3012-3036 | A reader follows a central header to that member and to the next header |
| `Zip.ReadsEnd` | src/CommandProcessor.cpp:3038-3048 | A reader finds the directory from the end record |
| `ArchiveProofs.ServiceKeepsInv` | src/CommandProcessor.cpp:2913-3055 | Every service call, short or whole, timed out or not, keeps the stream invariant |
| `ArchiveProofs.ReadsBack` | src/CommandProcessor.cpp:3012-3048 | A whole archive reads back member by member exactly when the directory offset fits 32 bits |
| `ArchiveRuns.StreamIsValidZip` | src/CommandProcessor.cpp:2913-3055 | Whatever the reads and the transport do, a completed stream is a ZIP holding every entry under its name with the bytes streamed and their CRC-32, if and only if the directory offset fits its field |
| `ArchiveRuns.LengthAsPromised` | src/CommandProcessor.cpp:2865-2882 | A completed stream has exactly the promised length if and only if the entries total less than 2^32 bytes (22 when empty); no run sends more than the archive holds |
| `ArchiveRuns.OversizedLibrary` | src/CommandProcessor.cpp:2869-2878 | One file of 2^32 - 1 bytes already breaks the promise |
| `ArchiveRuns.ServiceDecreases` | src/CommandProcessor.cpp:2913-3055 | Every active call decreases a measure over bytes left and phase; a run that ends without a stall or timeout is complete |
| `ArchiveRuns.StreamEnds` | src/CommandProcessor.cpp:2913-3055 | So every run ends within a bound computed from the sizes |
| `ArchiveRuns.MembersAreCopies` | src/CommandProcessor.cpp:2952-2986 | Each member is its file up to some point and zeros beyond, whatever the reads did; with every open and read delivering it is the file |
| `SdArchive.CentralBuffer` | src/CommandProcessor.cpp:3013-3029 | The bytes set by index form the central directory header |
| `SdArchive.LocalBuffer` | src/CommandProcessor.cpp:2932-2939 | The bytes set by index form the local header |
| `SdArchive.DescriptorBuffer` | src/CommandProcessor.cpp:2989-2997 | The bytes set by index form the data descriptor |
| `SdArchive.EndBuffer` | src/CommandProcessor.cpp:3039-3046 | The bytes set by index form the end record |
| `SdArchive.Archiver.HandleGetSdArchive` | src/CommandProcessor.cpp:2865-2903 | Arming lays out offsets with 32-bit wrap and returns the promised size |
| `SdArchive.Archiver.ServiceArchive` | src/CommandProcessor.cpp:2913-3055 | One call in place equals the stream specification |
| `PatternIndex.LeqTrans` | src/SdManager.cpp:485 | The order behind the list is transitive |
| `PatternIndex.LeqAntisym` | src/SdManager.cpp:485 | and antisymmetric, so a sorted list without repeats has one order |
| `PatternIndex.InsertSorts` | src/SdManager.cpp:482-493 | Insertion keeps the list sorted and adds exactly the newcomer, origins in step |
| `PatternIndex.RemoveSorts` | src/SdManager.cpp:495-502 | Removal keeps it sorted and takes exactly one entry |
| `PatternIndex.RenameFollows` | src/SdManager.cpp:252-268 | A rename keeps order and origin, changes nothing else and replies with the new place; only a promotion into a full list is lost |
| `PatternIndex.ShiftFollows` | src/CommandProcessor.cpp:535-544 | After a deletion an index names its old file exactly when it took the correction or needed none |
| `PatternIndex.SdManager.InsertSorted` | src/SdManager.cpp:482-493 | The in-place insertion over both arrays equals the specification |
| `PatternIndex.SdManager.ShiftUp` | src/SdManager.cpp:484-489 | The insertion loop moves exactly the entries above the newcomer, in both arrays |
| `PatternIndex.SdManager.RemoveAt` | src/SdManager.cpp:495-502 | The in-place removal over both arrays equals the specification |
| `TransferProofs.TransfersAreSafe` | src/CommandProcessor.cpp:81-145 | Over every run of loop(): transfers own distinct sources and indices, upload and archive never overlap, every command parsed was consumed once with one reply queued or is pending, every queued reply is in the slot, overwritten or on the wire in its turn, status 0 names exactly the payload and its CRC, and the raw bytes sent for each header are a front of the file it announced, or what the archive stream it announced has sent |
| `TransferProofs.LoopKeeps` | src/main.cpp:170-188 | One loop() iteration keeps the invariant |
| `TransferProofs.ProcessKeeps` | src/CommandProcessor.cpp:108-145 | So does dispatching either source, for every command and outcome |
| `TransferProofs.OwnerIsLeftAlone` | src/CommandProcessor.cpp:108-110 | A source that owns a transfer is not dispatched and not touched by the other source |
| `TransferProofs.UploadResyncs` | src/CommandProcessor.cpp:1950-2019 | Bytes consumed and remaining are conserved; draining is for good and writes nothing; an upload ending by count leaves its source free at the first byte after the payload |
| `TransferProofs.FirmwareResyncIff` | src/CommandProcessor.cpp:2622-2697 | A firmware upload with status 0 read exactly its payload, and file and CRC are the payload's; a failed one whose drain runs its course ends at the first byte after the payload if and only if no chunk was left uncounted, and past it by that chunk otherwise |
| `TransferProofs.UncountedIff` | src/CommandProcessor.cpp:2648-2671 | A chunk is left uncounted if and only if some write of arrived bytes failed |
| `TransferProofs.FirmwareOverruns` | src/CommandProcessor.cpp:2657-2682 | One payload byte the card does not take costs the next command its first byte |
| `TransferReplies.ReplyReachesIff` | src/SerialManager.cpp:157-260 | From any reachable state, over any further run: the reply in a source's slot reaches its host if and only if a flush with room, or a body sent through it, comes before the next reply is queued |
| `TransferReplies.NextClientGetsItIff` | src/NetworkManager.cpp:11-27 | A reply still in the slot when its client goes is sent to the next client if and only if nothing is queued for that one first |
| `TransferReplies.ReplyLost` | src/SerialManager.cpp:157-260 | Two commands consumed, one reply on the wire: the first was overwritten |
| `TransferReplies.ReplyToAStranger` | src/NetworkManager.cpp:11-27 | A client that sent nothing receives its predecessor's reply |
| `TransferBodies.BodiesWholeIff` | src/SerialManager.cpp:193-245 | Over every run from power-up: every raw piece on the wire stands behind its own header with only pieces of the same body between, if and only if no iteration sent bytes of a body with the wait for room given up and their header still in the slot |
| `TransferBodies.BodiesWhole` | src/SerialManager.cpp:193-245 | So in every run in which each queued header got out before its body |
| `TransferBodies.HostReads` | src/CommandProcessor.cpp:1868-1912 | In those runs a host that reads on behind a header reads a front of the file announced, the file once it has as many bytes as announced; or, of an archive, once it has as many as promised and they fit, a ZIP of the library whose members are copies of the files |
| `TransferBodies.DownloadEnds` | src/CommandProcessor.cpp:1868-1912 | A download that ends has put its whole file on the wire if and only if nothing was left or the transport took all that was left |
| `TransferBodies.ArchiveEnds` | src/CommandProcessor.cpp:2913-3055 | An archive that ends has put all of it on the wire if and only if its last step neither timed out nor stalled |
| `TransferBodies.HeaderOvertaken` | src/SerialManager.cpp:193-245 | From power-up, the wait given up once: the first byte of a two-byte file, then the header, then the second byte |
| `TransferStream.ParseInStep` | src/SerialManager.cpp:14-155 | Whatever front of the stream has arrived, a parse waits or takes exactly the head of the next frame |
| `TransferStream.HandleReadsOut` | src/CommandProcessor.cpp:2500-2697 | A command that is over leaves its source behind its payload if and only if that was read out: an accepted upload aside, a drain that ran its course, and for firmware no more than that |
| `TransferStream.FramesInOrder` | src/SerialManager.cpp:14-191 | Over every run in which one side's bytes are frames and no payload is left unread or read past: the commands parsed there are the frames in order, each once, each answered by exactly one reply that echoes it; a status-0 reply to an upload stands for a file with that frame's payload, one to firmware carries its CRC-32; the other side makes no difference |
| `TransferFiles.DeleteFollows` | src/CommandProcessor.cpp:514-548 | Latched indices keep standing for their files through a deletion unless the manifest write fails after the removal while a transfer holds a higher-sorted pattern, and only then |
| `TransferFiles.FilesAreExclusive` | src/CommandProcessor.cpp:451-548 | Over every run without such a deletion and without a pattern named pattern.temp: latched indices follow, no file is both downloaded and uploaded, no deletion that passes its guard takes a held file, an upload's file is on the card, and a download's is there as it was opened |
| `TransferFiles.UploadLands` | src/CommandProcessor.cpp:1950-2019 | When an upload then ends with status 0, the card holds exactly its payload under the name it latched |
| `TransferFiles.ExclusiveIff` | src/CommandProcessor.cpp:451-599 | Over every run from power-up: one file is downloaded and uploaded at once if and only if some command was accepted for the file the other transfer held, and both have gone on since |
| `TransferMishaps.HeldTwice` | src/CommandProcessor.cpp:514-548 | A run in which the manifest fails and one file is then downloaded and uploaded at once |
| `TransferMishaps.TakenAway` | src/CommandProcessor.cpp:514-548 | A run in which the file being uploaded is deleted and the upload ends with status 0 |
| `TransferMishaps.TempTwice` | src/CommandProcessor.cpp:399-450 | A run in which a pattern renamed to pattern.temp is downloaded while index 0 is uploaded |
| `CommandProcessor.CommandProcessor.ProcessCommand` | src/CommandProcessor.cpp:81-147 | Both sources take their turn as specified |
| `CommandProcessor.MessageSource.SendResponse` | src/SerialManager.cpp:247-260 | The slot is overwritten, sent or not |
| `CommandProcessor.MessageSource.FlushResponses` | src/SerialManager.cpp:157-171 | The slot goes out if there is room and stays if not |
| `CommandProcessor.MessageSource.SendRaw` | src/SerialManager.cpp:193-245 | The queued header first, while the wait lasts, then the body |
| `CommandProcessor.MessageSource.AcceptClient` | src/NetworkManager.cpp:9-27 | A new client finds the receive state cleared and the slot as it was |
| `CommandProcessor.CommandProcessor.Iterate` | src/main.cpp:170-188 | One loop() iteration in place is the step the runs are made of |
| `CommandProcessor.CommandProcessor.Dispatch` | src/CommandProcessor.cpp:115-127 | Each command goes to its handler; only an accepted upload stays pending |
| `CommandProcessor.CommandProcessor.HandleGetFile` | src/CommandProcessor.cpp:451-512 | 0x84: refusals and arming as specified |
| `CommandProcessor.CommandProcessor.HandleUpload` | src/CommandProcessor.cpp:2500-2599 | 0x85: refusals drain and answer, acceptance latches and hands off |
| `CommandProcessor.CommandProcessor.HandleFirmware` | src/CommandProcessor.cpp:2622-2697 | 0xE0: refusals drain and answer; otherwise read, written, and answered with the CRC, or drained |
| `CommandProcessor.CommandProcessor.BurnImage` | src/CommandProcessor.cpp:2648-2671 | The chunk loop with its failing write and its running CRC |
| `CommandProcessor.CommandProcessor.HandleDelete` | src/CommandProcessor.cpp:514-548 | 0x86: file, list and latched indices move together on full success only |
| `CommandProcessor.CommandProcessor.DeletePattern` | src/SdManager.cpp:159-181 | The list shrinks once the file is gone, whatever the manifest write does |
| `CommandProcessor.CommandProcessor.HandleRename` | src/CommandProcessor.cpp:399-450 | 0x83: refused during any transfer |
| `CommandProcessor.CommandProcessor.HandlePurge` | src/CommandProcessor.cpp:550-580 | 0x8F: refused during any transfer |
| `CommandProcessor.CommandProcessor.HandleGetArchive` | src/CommandProcessor.cpp:581-599 | 0x8A: refused during an upload or another archive |
| `CommandProcessor.CommandProcessor.ServiceDisconnects` | src/CommandProcessor.cpp:1761-1765 | A lost connection ends exactly its own transfers; its partial upload is removed and its source freed |
| `CommandProcessor.CommandProcessor.AbortUpload` | src/CommandProcessor.cpp:2029-2034 | The partial file goes, the source is freed, the upload forgotten |
| `CommandProcessor.CommandProcessor.LoseClient` | src/NetworkManager.cpp:9-27 | With the next client taken, that is the disconnection the runs contain |
| `CommandProcessor.CommandProcessor.ServiceDownload` | src/CommandProcessor.cpp:1868-1912 | One download chunk as specified |
| `CommandProcessor.CommandProcessor.ServiceUpload` | src/CommandProcessor.cpp:1950-2019 | One upload step as specified |
| `CommandProcessor.CommandProcessor.ServiceArchive` | src/CommandProcessor.cpp:2913-3055 | One archive step as specified, its bytes sent on the latched source |
| `Panel.ParityIsEven` | src/G6PanelProtocol.h:72-80 | validate_parity accepts exactly the messages with an even number of ones |
| `Panel.StampValidates` | src/G6PanelProtocol.h:82-89 | A stamped block validates |
| `Panel.PsramBlockReads` | src/G6PanelProtocol.h:91-105 | An index block validates and carries its index and, for the 0x6x opcodes, its duty |
| `Panel.ModeAfterPatch` | src/CommandProcessor.cpp:2371-2402 | Changing the mode of a patched block equals patching with that mode from the start |
| `Panel.PatchErases` | src/CommandProcessor.cpp:2371-2402 | A patch erases everything it does not preserve: parity, mode bits, overridden duty |
| `FrameCache.ReloadIsPatch` | src/CommandProcessor.cpp:2371-2402 | Loading a frame over itself, after any mode change, is just the mode change, whether or not the block size is the file's |
| `FrameCache.PatchAllValid` | src/CommandProcessor.cpp:2371-2402 | Every patched block passes the panels' check |
| `FrameProofs.StepKeeps` | src/CommandProcessor.cpp:2144-2228 | Every writer of the buffer and of the analog outputs keeps buffer, outputs and counts in step |
| `FrameProofs.SkipIsReload` | src/CommandProcessor.cpp:1618-1624 | Whenever 0x70 answers without reading, buffer, DAC level, table position and cache flags are exactly what the load would produce, in every reachable state |
| `FrameProofs.FramesConserved` | src/CommandProcessor.cpp:2144-2156 | Successful loads are those shown, plus superseded (reported, pending or past saturation), plus one if a frame is held unshown |
| `FrameProofs.HeldFrameValidates` | src/CommandProcessor.cpp:2371-2402 | Every block of a held frame validates at the block size in force |
| `FrameProofs.HeldFrameIsTheFile` | src/CommandProcessor.cpp:2205-2211 | When the block size in force is the pattern's, the panels get the file's own blocks, patched, and nothing older |
| `FrameGeometry.GeometrySinceStart` | src/CommandProcessor.cpp:1625-1638 | As long as a started pattern stays open, its block size is in force if and only if nothing since, stop, glyph, all-on, streamed or PSRAM frame, set another one last |
| `FrameProofs.StopLosesGeometry` | src/CommandProcessor.cpp:2464-2486 | From power-up: a trial on a 16-level pattern, stop, then 0x70 sends blocks of the 2-level size |
| `PanelBuffer.ComputeParityBit` | src/G6PanelProtocol.h:60-70 | The counting loop computes the parity |
| `PanelBuffer.StampHeaderParity` | src/G6PanelProtocol.h:84-89 | Only the header byte changes, to the stamped one |
| `PanelBuffer.PatchDispMode` | src/CommandProcessor.cpp:2371-2384 | The loop patches every block and nothing else |
| `PanelBuffer.PatchTrialDuty` | src/CommandProcessor.cpp:2386-2402 | The loop overrides every v1 block's duty and nothing else |
| `PanelBuffer.PatchLoaded` | src/CommandProcessor.cpp:2210-2211 | Both loops in order are one patch per block |
| `FrameProcessor.FrameProcessor.LoadFrame` | src/CommandProcessor.cpp:2153-2228 | The load in place equals the specification |
| `FrameProcessor.FrameProcessor.SetFramePosition` | src/CommandProcessor.cpp:1562-1652 | Refusals, skip and load as specified |
| `FrameProcessor.FrameProcessor.InvalidateFrameBuf` | src/CommandProcessor.cpp:2144-2151 | An unshown frame counts as superseded, saturating |
| `FrameProcessor.FrameProcessor.ShowError` | src/CommandProcessor.cpp:2347-2362 | The glyph takes the buffer over |
| `FrameProcessor.FrameProcessor.SetPanelDisplayMode` | src/CommandProcessor.cpp:233-250 | A mode change patches the live buffer |
| `FrameProcessor.FrameProcessor.TransmitOnRefresh` | src/CommandProcessor.cpp:1771-1793 | A transfer presents the buffer and a changed frame reports what was superseded |
| `Framing.ParsesPrefix` | src/SerialManager.cpp:30-155 | Fed any prefix of a frame and what follows, the parser waits until the head is there and then takes exactly it |
| `Framing.DeliversInOrder` | src/SerialManager.cpp:14-191 | For any stream of well-formed frames, any chunking and any interleaving of service, reads and consumption deliver a front of what was sent, payloads included; a receiver with nothing left has delivered all |
| `Framing.ChunkIndependent` | src/SerialManager.cpp:14-191 | Two runs over one stream never disagree |
| `Framing.FullBufferProgresses` | src/SerialManager.cpp:30-155 | A full buffer, whatever its bytes, always yields a command or a resync |
| `Framing.NextArrives` | src/SerialManager.cpp:14-191 | Once its bytes have arrived one service call parses the next command, and every read of a payload makes progress |
| `SerialManager.SerialManager.ServiceUsb` | src/SerialManager.cpp:14-28 | Service in place equals the specification |
| `SerialManager.SerialManager.ParseIncoming` | src/SerialManager.cpp:30-155 | One parsing attempt: wait, resync, or a command and the bytes behind it |
| `SerialManager.SerialManager.Classify` | src/SerialManager.cpp:30-150 | The framing decision for each leading byte |
| `SerialManager.SerialManager.Drop` | src/SerialManager.cpp:188-189 | Moving the rest of the buffer down |
| `SerialManager.SerialManager.ReadBulkBytes` | src/SerialManager.cpp:173-191 | Payload bytes are topped up and taken from the front |
| `IsrRecord.LiteIsFull` | src/Health.cpp:405-468 | The incremental hooks leave exactly the record the full hooks do |
| `IsrRecord.HooksKeepTheRecord` | src/Health.cpp:405-468 | After any well-nested mix of hooks both checksums match the fields, isr_last is the innermost interrupt and is restored, counts are the entries modulo 2^32 and sum to the total |
| `IsrRecord.CutCaptureHarvests` | src/Health.cpp:246-262 | A watchdog capture cut off after its first line still yields the preempted context and the active interrupt; a complete one the counts too |
| `Health.Isr.IsrEnter` | src/Health.cpp:405-415 | The full hook as specified |
| `Health.Isr.IsrExit` | src/Health.cpp:417-423 | The full exit as specified |
| `Health.Isr.IsrEnterLite` | src/Health.cpp:436-456 | The lite hook as specified |
| `Health.Isr.IsrExitLite` | src/Health.cpp:458-468 | The lite exit as specified |
| `Health.Isr.SealIsr` | src/Health.cpp:38-69 | Both checksum loops compute the folded words |
| `Health.Isr.CaptureContext` | src/Health.cpp:246-262 | The capture as specified |
| `FrameClock.ClockIsExact` | src/CommandProcessor.cpp:2036-2073 | Across any run of calls at times that do not run back, none a full counter lap behind, through counter wraps, forward or reverse, clamped or not: the clock is its start plus K periods and the index has moved by exactly K frames |
| `FrameClock.NeverAhead` | src/CommandProcessor.cpp:2044-2050 | The clock never runs ahead of the calls that drive it |
| `FrameClock.UnclampedIsDue` | src/CommandProcessor.cpp:2044-2050 | After a call that was not clamped the frame shown is the one due |
| `FrameClock.Player.ServiceOpenLoop` | src/CommandProcessor.cpp:2036-2057 | The catch-up loop equals the closed form |

## Left out

- Telemetry heap guard, synthetic producer, `configure`'s STATE record, the boot marker records and the overrun marker that `append` adds after an eviction: the ring proofs are about every sequence of appended records, these included, but not about when the markers are produced.
- Markers' arguments: their sum is not claimed to reach `dropped`, since a marker's own evictions are absorbed (`src/Telemetry.cpp:195`).
- A reset that tears the header line itself: accepted by the repository's documentation.
- Drain with `--no-ack` and reboots in mid-drain. Of runs with late replies only what is stored, pending or evicted is claimed, not the host's gap list.
- Drain.Drainer.Poll: the JSON lines, the raw side file's framing and the counters that are only printed are not modelled.
- RingRuns.RunConserves: stops below the 32-bit wrap of `next_seq`, where the code skips two numbers.
- Archive entry collection: which files open while the archive is armed; the entries found are the input.
- SdArchive.Archiver.ServiceArchive: on a short data send the code has already updated the running CRC and may have closed the file; the model abandons the transfer with the old register, which nothing reads again.
- `sendRaw` pacing and its 2 s stall bound: a send takes some prefix; whether the queued header got out within its 5 s is a flag of the step.
- TransferBodies.HostReads: the file is as it was when opened. In the runs of `TransferFiles.FilesAreExclusive` the card still has it so; a file rewritten while it is downloaded (`TransferMishaps.HeldTwice`) is read as it was.
- FAT name matching without regard to case: names are compared byte by byte.
- TransferStream.FramesInOrder: once a payload is left unread, or read past, the stream is not followed further; a host that reconnects starts anew.
- CommandProcessor.CommandProcessor.ServiceDisconnects: sampled once an iteration, so a client that vanishes and is replaced between that sample and network service is not covered.
- Commands that no transfer guards (display, analog, telemetry, info) appear as one command with one reply; ALL_ON and TRIAL_PARAMS refusals during transfers are not modelled.
- FrameProcessor.FrameProcessor.SetFramePosition: a refresh timer that cannot be armed after the load changes the reply's status, which is not part of the model.
- Framing.DeliversInOrder: the opcode of a frame of length 0 is not modelled; the code dispatches the one left over from the command before.
- NetworkManager's receiver: the same framing over a socket; only its connection handling differs.
- Pattern handle reuse: `open_id_` is not adjusted by a removal, so which file an open handle names is not claimed.
- Directory scan filters, manifest text, header validation and the panel-set tables.
- `readFrame` I/O phases: a load either passes its magic and CRC checks or fails.
- Failed DAC writes are assumed to leave the output as it was.
- Closed-loop float integration, the glyph font, SPI, DMA, GPIO, PIT and RTWDOG programming, and panel reflashing.
- PSRAM auto-advance: the same clock as open-loop playback, forward only.
- Interrupt hooks are atomic, as their interrupt mask makes them; a lite update caught in the cache by an eviction is not modelled.
