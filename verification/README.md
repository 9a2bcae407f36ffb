# Verified models of the boot, flash and console code

This project models the parts of the repository in which state, bit arithmetic and ordering matter
most, in Dafny, and proves what they promise. `dafny verify dfyconfig.toml` checks all of it.

**A/B slots and the GPT** (`BootSlotLib` and its two programs). `Bits`, `Crc32`, `Gpt`, `GptDisk`,
`GptWriter` and `EntryWalk` describe disks as byte sequences, with the primary and backup GUID
partition tables of sections 5.3.2 and 5.3.3 of the UEFI Specification and the repository's own
CRC-32 as their checksum. `Storage.Device` is the hardware: every driver call may fail, and a write
that fails may leave anything in its range. Its ghost `log` records each write as it is begun, and
`Storage.CrashSafe` says of a logged write that wherever power is cut during it, every LUN keeps a
copy that passes both checksums. `Survival` follows the log through whole runs, whatever fails in
them: up to and including the first write that fails, every LUN also keeps its partition records.
`PartitionTable.Table` and `SlotEngine.Engine` hold the library's global state (entries, their
backup, the cached list of slotted partitions) as fields, and their methods follow the C functions
branch by branch. `Slots`, `SlotRuns` and `SlotSwitch` say what the
methods compute as functions of the table and prove what that means; `Reload` and `SlotSessions`
add loading from disk, so that whole sequences of boots and switches can be stated. `GptBytes` says
the same of the disk by byte positions.

**CRC-32 and its repair tool** (`Crc32`, `FixGpt`). The bit loop over reflected bytes is proved
equal to the byte-wise algorithm of section 8 of RFC 1952; bursts, the residue and the repair of a
table in place follow.

**Touch reports** (`BitField`, `TcmProgram`, `TcmReport`, `TcmLoops`, `TcmEnding`, `TcmObjects`). The
bit extractor, and the interpreter of the controller's report program with 32-bit words. Parse
errors never stop it, because its status type is unsigned. The programs that end on every report of
a given length are characterised exactly.

**Framebuffer console** (`FramePixels`, `FbConsole`, `FbScreen`). The glyph loops write bytes of a real
array; the console's only bound on them is its cursor. `FbScreen` gives every pixel of the screen
after a character, by row and column.

**Image building, kernel patching, SMBIOS** (`Packing`, `BootImage`, `VendorBoot`, `ImageReading`,
`PatternScan`, `ErrataPatcher`, `Smbios`). `ImageReading` takes the side of a loader, which knows the
image and nothing else.

`Arithmetic` holds facts about products and quotients.

## Where the code falls short of what one might expect

Each of these is proved, with the exact condition under which the code does what it should.

- Attributes written on their own reach the disk, whatever they are, exactly when each slot in turn
  is blank or holds its entry's GUID: a slot with another GUID stops the walk for good
  (`EntryWalk.AttributesSettle`; a table that refuses is `EntryWalk.RefusedTable`).
- After a write that failed, a later update of the same LUN is unsafe exactly if the failed write
  tore the backup and the primary has to change, or tore the primary in such a way that its entries
  seem to need no change while the backup's do (`PartitionTable.AfterFailedWrite`,
  `PartitionTable.TurnExact`; zeros in the backup do it, `PartitionTable.ZeroedBackup`, and so does a
  primary whose entries were written and whose header was lost, `PartitionTable.TornHeader`).
- A pair whose names have 32 or 33 characters is listed as a pair, but does not trade GUIDs: the
  suffix no longer fits the buffers (`SlotSwitch.PairTrades`; such a pair is `SlotSwitch.LongPair`).
- A boot of a table without an active slot succeeds if and only if slot _a is inactive, was never
  successful and has priority 0; that it is marked unbootable does not matter, since it is revived
  before it is looked at again (`SlotRuns.BootWithoutActive`).
- At the end of the last line that fits, a visible character is painted twice, the second time at the
  top left, and the top line is not cleared (`FbScreen.CharShownTwice`); a newline there skips the top
  line (`FbScreen.NewlineShown`).
- On a screen of at most two lines a newline never ends, nor does a visible character when a line
  holds no more than one (`FbConsole.PaintForever`; the tallest such screen is
  `FbConsole.TwoLines`).
- Not every report program ends. One ends on every report of at most so many bytes if and only if a
  scan finds, for each `FOREACH_END` of an active-object loop, a body that skips bits or an offset
  behind the longest report, and for none of an object loop an index read in its body
  (`TcmEnding.EndingPrograms`; it does if and only if it ends on that many zeros). A program of four
  bytes that ends on no report but the empty one is `TcmEnding.EndlessProgram`; one that ends on every
  report the driver passes, of at most 65536 bytes, but not on zeros for more than 80962 bytes, is
  `TcmEnding.SkippingProgram`. On a given report, an active-object loop is left if and only if its body skips bits, or the report is
  used up, or it reads an index from a kept word that is no finger's (`TcmLoops.ActiveLeft`); an
  object loop if and only if it reads no index, or some pass within the report reads one that is no
  finger's or ends with the last finger's (`TcmLoops.ObjectLeft`).
- The pattern scan misses occurrences (`PatternScan.Missed`); it finds the first one if and only if
  no match is under way there (`PatternScan.FirstFound`), and otherwise the next one of which that is
  true, or none if there is no such one (`PatternScan.ScanExact`).
- The comment on LogSmbiosData allows a missing string pack; the size is computed for one, but the
  append loop then reads through the null pointer (`Smbios.LogSmbiosData`). A list with an empty
  string in it is packed but does not read back (`Smbios.StringsReadBack`,
  `Smbios.EmptyStringHides`).
- A position opcode stores the payload's field exactly if it asks for 1 to 32 bits that the payload
  has, and otherwise the word of the read before (`TcmReport.PositionStored`): a report too short for
  y gives y the value of x (`TcmObjects.StalePosition`).

## What the callers must provide

The slot engine relies on these, and the model requires them: partition names are unique, names
that differ only in their last character are exactly X_a/X_b pairs, no slot name is a proper prefix
of another name, and what stands in front of _a or _b is shorter than the 32 characters a member of
the list of slotted partitions holds (`Slots.WellNamed`); the entries of a LUN with a non-zero GUID
are listed in on-disk order and both GPT copies of every LUN are valid (`Reload.DiskReady`); at most
128 entries (`PartitionTable.Table.Valid`). Everything else, missing partitions, blank entries, pairs
with names too long to trade, headers whose array size is out of range, driver errors, is handled as
the code handles it.

## Model

| member | source | states |
|---|---|---|
| `Crc32.Reflect` | GPLDrivers/Drivers/Op6tSlotDxe/crc32.c:97-109 | bit k of the result is bit len-1-k of the argument, and no other bit is set |
| `Crc32.ReflectionInvolutive` | GPLDrivers/Drivers/Op6tSlotDxe/crc32.c:97-109 | reflecting twice gives back every value that fits in the reflected bits |
| `Crc32.ByteStep` | GPLDrivers/Drivers/Op6tSlotDxe/crc32.c:124-138 | one table step of RFC 1952 is eight steps of the bit register |
| `Crc32.FeedByte` | GPLDrivers/Drivers/Op6tSlotDxe/crc32.c:127-138 | the MSB-first loop over one byte keeps its register the reflection of the LSB-first one |
| `Crc32.CalculateCrc32` | GPLDrivers/Drivers/Op6tSlotDxe/crc32.c:114-143 | for every buffer the result is the CRC of section 8 of RFC 1952, which `Crc32.CheckValue`, `Crc32.LeadingZero`, `Crc32.BurstDetected` and `Crc32.Residue` are about |
| `Crc32.UpdateInjective` | GPLDrivers/Drivers/Op6tSlotDxe/crc32.c:124-138 | different registers stay different whatever bytes follow |
| `Crc32.BurstDetected` | GPLDrivers/Drivers/Op6tSlotDxe/crc32.c:114-143 | any change confined to four consecutive bytes changes the CRC |
| `Crc32.Residue` | GPLDrivers/Drivers/Op6tSlotDxe/crc32.c:114-154 | every message followed by its stored CRC has the CRC 0x2144DF1C |
| `Crc32.LeadingZero` | GPLDrivers/Drivers/Op6tSlotDxe/crc32.c:114-143 | the CRC of nothing is 0, and a zero byte in front of any message changes its CRC |
| `Crc32.CheckValue` | GPLDrivers/Drivers/Op6tSlotDxe/crc32.c:114-143 | the CRC of the text 123456789 is 0xCBF43926, the published check value |
| `Crc32.GetResultArray` | GPLDrivers/Drivers/Op6tSlotDxe/crc32.c:147-154 | the four bytes stored are the word, least significant first |
| `Crc32.LittleEndianWord` | GPLDrivers/Drivers/Op6tSlotDxe/crc32.c:147-154 | the stored bytes read back as the word |
| `FixGpt.ZeroCrcField` | GPLDrivers/Drivers/Op6tSlotDxe/crc32.c:72-76 | the loop clears the checksum field and nothing else |
| `FixGpt.HeaderCrcStable` | GPLDrivers/Drivers/Op6tSlotDxe/crc32.c:72-84 | storing the header checksum does not change what it is taken over |
| `FixGpt.FixedConsistent` | GPLDrivers/Drivers/Op6tSlotDxe/crc32.c:23-92 | after the repair both checksums match what is on disk, and only the eight checksum bytes differ |
| `FixGpt.FixedFixpoint` | GPLDrivers/Drivers/Op6tSlotDxe/crc32.c:23-92 | the repair changes a disk if and only if a checksum was wrong, and is idempotent |
| `FixGpt.FixedPassesGptCheck` | GPLDrivers/Drivers/Op6tSlotDxe/crc32.c:23-92 | a repaired table whose entry array is the three blocks summed passes the slot engine's checks |
| `FixGpt.Disk.FixGptCRC32` | GPLDrivers/Drivers/Op6tSlotDxe/crc32.c:23-92 | succeeds if and only if no call failed, and then leaves the repaired disk; on failure at most checksum bytes differ |
| `GptBytes.ConsistentBytes` | GPLDrivers/Drivers/Op6tSlotDxe/crc32.c:40-84 | what the repair makes true, byte by byte: bytes 0 to 91 of the second block, their checksum taken as zero, sum to bytes 16 to 19 of it, and the three blocks behind it to bytes 88 to 91 |
| `Gpt.GetAfterPut` | GPLDrivers/Include/Library/BootSlotLib/PartitionTableUpdate.h:132-150 | a 32-bit value stored by PUT_LONG is read back |
| `Gpt.LongLongRoundTrip` | GPLDrivers/Include/Library/BootSlotLib/PartitionTableUpdate.h:136-160 | eight bytes read as v if and only if they are those PUT_LONG_LONG stores for v |
| `Gpt.SealIsValid` | GPLDrivers/Library/BootSlotLib/PartitionTableUpdate.c:364-398 | storing the entry checksum and then the header checksum makes both valid and changes only those two fields |
| `GptBytes.PrimaryBytes` | GPLDrivers/Library/BootSlotLib/PartitionTableUpdate.c:268-398 | a primary copy is valid if and only if the 92 bytes of header in the second block sum to what they store, and so do the entries behind it, as many bytes as words 80 and 84 multiply to, 1 to 16384 |
| `GptBytes.BackupBytes` | GPLDrivers/Library/BootSlotLib/PartitionTableUpdate.c:268-398 | the same of the backup, whose header is in the last block and whose entries are the 16384 bytes in front of it |
| `GptBytes.EntryBytes` | GPLDrivers/Library/BootSlotLib/PartitionTableUpdate.c:65-99 | the bytes of a 128-byte entry each field is loaded from; the A/B fields are in byte 54, and the name ends at its first zero character |
| `GptBytes.BlankBytes` | GPLDrivers/Library/BootSlotLib/PartitionTableUpdate.c:297-300 | a slot is blank if and only if its first four bytes are zero |
| `EntryWalk.WalkWrites` | GPLDrivers/Library/BootSlotLib/PartitionTableUpdate.c:293-359 | the loop over entries writes only bytes 0-15 or 48-55 of entries, as requested, and nothing when it reports no change |
| `EntryWalk.WalkSettles` | GPLDrivers/Library/BootSlotLib/PartitionTableUpdate.c:293-359 | afterwards every slot agrees with its entry in the requested fields; it reports a change if and only if some slot did not agree |
| `EntryWalk.AttributesSettle` | GPLDrivers/Library/BootSlotLib/PartitionTableUpdate.c:329-356 | attributes alone are settled whatever they are if and only if no slot holds another partition's GUID |
| `EntryWalk.WalkTwice` | GPLDrivers/Library/BootSlotLib/PartitionTableUpdate.c:293-359 | the same walk again reports no change, whatever the request and the table, slots that refuse attributes included |
| `EntryWalk.RefusedTable` | GPLDrivers/Library/BootSlotLib/PartitionTableUpdate.c:329-356 | a concrete table on which the attributes of an entry are not written and nothing is reported |
| `EntryWalk.WalkMerges` | GPLDrivers/Library/BootSlotLib/PartitionTableUpdate.c:312-348 | the in-memory backup of every entry of the LUN ends level with memory in the requested fields |
| `EntryWalk.WalkKeepsStep` | GPLDrivers/Library/BootSlotLib/PartitionTableUpdate.c:293-359 | a table in step with the backup ends in step with memory in all fields |
| `GptDisk.FlushCopyValid` | GPLDrivers/Library/BootSlotLib/PartitionTableUpdate.c:270-416 | a valid copy stays valid through a pass |
| `GptDisk.FlushCopyInStep` | GPLDrivers/Library/BootSlotLib/PartitionTableUpdate.c:270-416 | a copy in step with the backup entries is in step with memory after a pass |
| `GptDisk.FlushIdempotent` | GPLDrivers/Library/BootSlotLib/PartitionTableUpdate.c:359-416 | a second pass over a copy changes nothing, for every kind of update; the copy agrees with memory in the requested fields, if no slot refuses attributes written alone |
| `Storage.PrimaryWriteSafe` | GPLDrivers/Library/BootSlotLib/PartitionTableUpdate.c:400-411 | a write of the primary region, cut short anywhere, leaves each LUN a valid copy if and only if the backup is valid |
| `Storage.BackupWriteSafe` | GPLDrivers/Library/BootSlotLib/PartitionTableUpdate.c:400-411 | a write of the backup region, cut short anywhere, leaves each LUN a valid copy if and only if the primary is valid |
| `Survival.SafeUpToFailure` | GPLDrivers/Library/BootSlotLib/PartitionTableUpdate.c:400-414 | in any stretch of a run from valid copies, whatever fails in it, every write up to and including the first that fails leaves each LUN, wherever power fails, a copy that passes its checksums and holds its partition records |
| `Survival.SafeExactly` | GPLDrivers/Library/BootSlotLib/PartitionTableUpdate.c:400-414 | every write of a run, also behind a failure, is one of a single copy, and is crash safe if and only if the other copy is valid, each LUN having one |
| `Survival.RunningNext` | GPLDrivers/Library/BootSlotLib/PartitionTableUpdate.c:187-426 | stretches of a run put together are a stretch of a run |
| `GptWriter.StoreChecksums` | GPLDrivers/Library/BootSlotLib/PartitionTableUpdate.c:364-398 | the buffer ends as the sealed copy, or untouched with an error if and only if the header's array size is 0 or over 16384 |
| `PartitionTable.Table.PatchEntries` | GPLDrivers/Library/BootSlotLib/PartitionTableUpdate.c:293-359 | the loop leaves in the buffer, the backup and the change flag what the walk over all entries computes |
| `PartitionTable.Table.UpdateCopy` | GPLDrivers/Library/BootSlotLib/PartitionTableUpdate.c:268-416 | one turn over a copy begins no write if the copy has nothing to change, and one of that copy's region if it has, unless a driver failed or the header gives no array to sum; without failure the copy is flushed |
| `PartitionTable.BothPasses` | GPLDrivers/Library/BootSlotLib/PartitionTableUpdate.c:268-416 | the primary is complete before the backup is begun, so both writes are crash safe, and both copies end valid |
| `PartitionTable.TurnExact` | GPLDrivers/Library/BootSlotLib/PartitionTableUpdate.c:268-416 | from any state with a valid copy per LUN, both passes over a LUN begin safe writes only if the write of the primary, if there is one, finds a valid backup, and a write of the backup alone a valid primary; and only if, when the primary pass went on to the backup and no driver failed |
| `PartitionTable.AfterFailedWrite` | GPLDrivers/Library/BootSlotLib/PartitionTableUpdate.c:400-414 | exactly which failed writes leave a LUN whose next update is unsafe |
| `PartitionTable.ZeroedBackup` | GPLDrivers/Library/BootSlotLib/PartitionTableUpdate.c:400-414 | a backup write that left zeros makes the next update unsafe if it has to change the primary |
| `PartitionTable.TornHeader` | GPLDrivers/Library/BootSlotLib/PartitionTableUpdate.c:400-414 | a primary write that left the new entries without their header makes the same request again unsafe if it has to change the backup |
| `PartitionTable.PassRuns` | GPLDrivers/Library/BootSlotLib/PartitionTableUpdate.c:268-416 | a pass over one copy writes that copy only, and if completed keeps both copies of every LUN valid and every record |
| `PartitionTable.Table.UpdateLun` | GPLDrivers/Library/BootSlotLib/PartitionTableUpdate.c:217-419 | for one LUN, whatever fails: every write begun is crash safe and a valid copy remains; without failure both are flushed, and the copies being ready was necessary; a LUN with nothing to change is left alone |
| `PartitionTable.Table.UpdatePartitionAttributes` | GPLDrivers/Library/BootSlotLib/PartitionTableUpdate.c:187-426 | from valid copies: every write begun is crash safe, and without failure both copies of every LUN are flushed; from a disk in step with the backup and one field changed, disk and backup end in step with memory; nothing is written if memory equals the backup or no copy has anything to change; from any disk it is a stretch of a run (`Survival.Running`) |
| `PartitionTable.UpdateAgrees` | GPLDrivers/Library/BootSlotLib/PartitionTableUpdate.c:187-426 | after a call from valid copies without failure every copy agrees with memory in the requested fields: GUIDs or all fields without condition, attributes alone if no slot refuses them |
| `PartitionTable.SecondUpdateSilent` | GPLDrivers/Library/BootSlotLib/PartitionTableUpdate.c:187-426 | the same call again writes nothing, for every kind of update, whatever slots hold and whatever the drivers do then |
| `SlotBits.PromoteFields` | GPLDrivers/Library/BootSlotLib/PartitionTableUpdate.c:907-921 | the new slot's attributes get priority 3, retry 7, active, bootable and the requested success bit; all other bits stay |
| `SlotBits.DemoteFields` | GPLDrivers/Library/BootSlotLib/PartitionTableUpdate.c:932-935 | the other slot's attributes get priority 2 and lose the active bit; all other bits stay |
| `SlotBits.ReviveFields` | GPLDrivers/Library/BootSlotLib/PartitionTableUpdate.c:744-758 | the unbootable bit goes and the retry count is full; all other bits stay |
| `SlotBits.FirstBootFields` | GPLDrivers/Library/BootSlotLib/PartitionTableUpdate.c:838-843 | on a first boot slot _a gets priority 3, retry 7 and the active bit, and is neither successful nor unbootable; all other bits stay |
| `SlotBits.FieldPositions` | GPLDrivers/Include/Library/BootSlotLib/PartitionTableUpdate.h:102-112 | the bits of every field; bootable is 54 without 55, and an untouched slot has 48 to 50, 54 and 55 clear |
| `Slots.ActiveExact` | GPLDrivers/Library/BootSlotLib/PartitionTableUpdate.c:773-870 | which slot is reported, from the bits of both: _b if it stands above _a, else _a if it stands, else _a set up for a first boot if it is untouched and _b does not stand, else none |
| `Slots.NoBootInactive` | GPLDrivers/Library/BootSlotLib/PartitionTableUpdate.c:788-797 | without an entry for both boot slots nothing is active and nothing changes |
| `Slots.MarkedExact` | GPLDrivers/Library/BootSlotLib/PartitionTableUpdate.c:428-441 | of every entry the active bit ends set if and only if the suffix occurs in its name; every other bit and field stays |
| `Slots.SetThenGet` | GPLDrivers/Library/BootSlotLib/PartitionTableUpdate.c:773-976 | SetActiveSlot(s) succeeds if and only if GetActiveSlot does; then GetActiveSlot returns s, only s is active, s has priority 3, retry 7 and is not unbootable, the other has priority 2 |
| `SlotRuns.PartnerMutual` | GPLDrivers/Library/BootSlotLib/PartitionTableUpdate.c:456-592 | the pairing of X_a with X_b is mutual |
| `SlotRuns.ExchangeKeepsGuids` | GPLDrivers/Library/BootSlotLib/PartitionTableUpdate.c:443-592 | exchanging the pairs' GUIDs loses none and duplicates none |
| `SlotRuns.ExchangedTwice` | GPLDrivers/Library/BootSlotLib/PartitionTableUpdate.c:443-592 | exchanging twice restores every GUID |
| `SlotRuns.GuidPlacement` | GPLDrivers/Library/BootSlotLib/PartitionTableUpdate.c:443-592 | after any sequence of SetActiveSlot calls the GUIDs of all pairs are in place if the active slot is the initial one, and exchanged otherwise |
| `SlotRuns.BootKeepsActive` | GPLDrivers/Drivers/BootSlotDxe/BootSlotDxe.c:43-67 | a boot keeps the active slot and all GUIDs, leaves that slot bootable and neither boot slot unbootable |
| `SlotRuns.SwitchFlips` | GPLDrivers/Application/SwitchSlotsApp/SwitchSlotsApp.c:54-81 | a switch makes the other slot active, not yet successful, and exchanges the GUIDs of every pair |
| `SlotRuns.SwitchExact` | GPLDrivers/Application/SwitchSlotsApp/SwitchSlotsApp.c:54-81 | a switch succeeds if and only if a slot is active, and otherwise leaves the table alone |
| `SlotRuns.BootWithoutActive` | GPLDrivers/Drivers/BootSlotDxe/BootSlotDxe.c:43-67 | a boot of a table without an active slot succeeds if and only if slot _a is inactive, not successful and of priority 0, unbootable or not, and then activates it; without slots it changes nothing, without a boot entry for both it fails |
| `SlotRuns.SlottedExact` | GPLDrivers/Library/BootSlotLib/PartitionTableUpdate.c:663-681 | a partition X counts as slotted if and only if two names in the table start with X_a or X_b |
| `SlotRuns.SessionsFlip` | GPLDrivers/Drivers/BootSlotDxe/BootSlotDxe.c:25-76 | after any boots and switches the active slot is the initial one flipped once per switch, and the GUIDs are where that slot has them |
| `SlotSwitch.SwapStep` | GPLDrivers/Library/BootSlotLib/PartitionTableUpdate.c:537-585 | one listed pair more: it trades GUIDs if its names fit the buffers and nothing changes if they do not |
| `SlotSwitch.PairTrades` | GPLDrivers/Library/BootSlotLib/PartitionTableUpdate.c:541-549 | the two entries of a pair trade GUIDs if and only if their names are shorter than 32 characters |
| `SlotSwitch.LongPair` | GPLDrivers/Library/BootSlotLib/PartitionTableUpdate.c:541-549 | a concrete pair of 32-character names that does not trade |
| `SlotSwitch.ListDone` | GPLDrivers/Library/BootSlotLib/PartitionTableUpdate.c:456-502 | the list collected over all entries names every pair exactly once and nothing else |
| `SlotSwitch.PrefixExact` | GPLDrivers/Library/BootSlotLib/PartitionTableUpdate.c:553-563 | the prefix comparison finds exactly the entry of that name |
| `SlotEngine.Engine.GetPartitionIndex` | GPLDrivers/Library/BootSlotLib/PartitionTableUpdate.c:101-115 | the first entry of that name, or INVALID_PTN if there is none |
| `SlotEngine.Engine.PartitionHasMultiSlot` | GPLDrivers/Library/BootSlotLib/PartitionTableUpdate.c:663-681 | for any name X, more than one entry's name starts with X_a or X_b |
| `SlotEngine.Engine.GetBootPartitionEntry` | GPLDrivers/Library/BootSlotLib/PartitionTableUpdate.c:683-716 | the entry of the suffix's boot partition, or none |
| `SlotEngine.Engine.IsSlotBootable` | GPLDrivers/Library/BootSlotLib/PartitionTableUpdate.c:718-742 | the boot entry exists, is successful and not unbootable |
| `SlotEngine.Engine.ClearUnbootable` | GPLDrivers/Library/BootSlotLib/PartitionTableUpdate.c:744-758 | the boot entry is revived and, unless a driver failed, disk and backup end in step |
| `SlotEngine.Engine.GetActiveSlot` | GPLDrivers/Library/BootSlotLib/PartitionTableUpdate.c:773-870 | the active slot of higher priority, _a on a tie; slot _a is set up on the very first boot; disk kept in step |
| `SlotEngine.Engine.MarkPtnActive` | GPLDrivers/Library/BootSlotLib/PartitionTableUpdate.c:428-441 | exactly the entries whose name contains the suffix are active, on disk too |
| `SlotEngine.Engine.GetMultiSlotPartsList` | GPLDrivers/Library/BootSlotLib/PartitionTableUpdate.c:456-502 | the cached list holds every X_a/X_b pair's base once |
| `SlotEngine.Engine.SwitchPtnSlots` | GPLDrivers/Library/BootSlotLib/PartitionTableUpdate.c:504-592 | with a fresh or a cached list, every pair trades type GUIDs unless its names are too long for the buffers; without failure a UFS boot LUN of 1 or 2 ends as 1 for _a and 2 for _b, any other stays, and the disk is brought in step |
| `SlotEngine.Engine.MatchBootLun` | GPLDrivers/Library/BootSlotLib/PartitionTableUpdate.c:945-966 | for the slot that was active already, without failure a UFS boot LUN of 1 or 2 ends as 1 for _a and 2 for _b, any other stays |
| `SlotEngine.Engine.SetActiveSlot` | GPLDrivers/Library/BootSlotLib/PartitionTableUpdate.c:872-976 | table and result are those `Slots.SetThenGet` is about, through either branch; without failure a UFS boot LUN of 1 or 2 ends as 1 if _a was set and 2 if _b was, any other stays, as it does on eMMC or if the call fails; every write was crash safe and the disk is in step; whatever fails, a stretch of a run |
| `Reload.AgreesByRank` | GPLDrivers/Library/BootSlotLib/PartitionTableUpdate.c:65-99 | the entry-by-entry agreement of the walk is the agreement of each entry with the slot of its rank on its LUN |
| `Reload.LoadedInStep` | GPLDrivers/Library/BootSlotLib/PartitionTableUpdate.c:65-99 | entries just loaded are in step with both GPT copies of every LUN |
| `Reload.ReloadReadsBack` | GPLDrivers/Library/BootSlotLib/PartitionTableUpdate.c:65-99 | from a disk in step with a table, the next program loads exactly that table, and can work on it again |
| `SlotSessions.Load` | GPLDrivers/Library/BootSlotLib/PartitionTableUpdate.c:65-99 | memory and its backup are the listed records, entries without a record are blank, and disk and memory are in step |
| `SlotSessions.BootSlotMain` | GPLDrivers/Drivers/BootSlotDxe/BootSlotDxe.c:25-76 | the next load sees the table `SlotRuns.BootKeepsActive` and `SlotRuns.BootWithoutActive` are about; the result matches; without a driver failure no moment was unsafe, and a UFS boot LUN of 1 or 2 ends as 1 or 2 as _a or _b is then active, if the program succeeded on slots, and is unchanged otherwise; whatever fails, a stretch of a run |
| `SlotSessions.SwitchSlotsApp` | GPLDrivers/Application/SwitchSlotsApp/SwitchSlotsApp.c:22-89 | the next load sees the table `SlotRuns.SwitchFlips` and `SlotRuns.SwitchExact` are about; the result matches; without a driver failure no moment was unsafe, and a UFS boot LUN of 1 or 2 ends as 1 or 2 as _a or _b is then active, if the program succeeded on slots, and is unchanged otherwise; whatever fails, a stretch of a run |
| `SlotSessions.RunReports` | GPLDrivers/Drivers/BootSlotDxe/BootSlotDxe.c:43-67 | each program reports the slot that is active after it |
| `SlotSessions.BootLunExact` | GPLDrivers/Drivers/BootSlotDxe/BootSlotDxe.c:43-67 | the boot LUN after either program, on any table: 1 or 2 for the slot then active in the table it leaves, if it succeeded on a UFS device with slots and the LUN was 1 or 2; unchanged otherwise |
| `SlotSessions.RunAll` | GPLDrivers/Drivers/BootSlotDxe/BootSlotDxe.c:51-76 | any interleaving of complete runs, each loading from disk, up to the first on which a driver fails: every write up to and including the first that fails is safe for checksums and records; if none fails, the active slot on disk is the initial one flipped once per switch, GUIDs are placed accordingly, names stay, and a UFS boot LUN that was 1 or 2 is 1 if the slot read from disk is _a and 2 if it is _b, once a program has run; any other is unchanged |
| `BitField.FieldBits` | Silicon/Qualcomm/QcomPkg/Drivers/SynapticsTCMDxe/SynapticsTCMDxe.c:838-867 | bit k of a field is payload bit offset+k, and there are no bits beyond its width |
| `BitField.SameBits` | Silicon/Qualcomm/QcomPkg/Drivers/SynapticsTCMDxe/SynapticsTCMDxe.c:838-867 | a number is determined by its bits, so the field is the only value with the payload's bits |
| `BitField.FieldAppend` | Silicon/Qualcomm/QcomPkg/Drivers/SynapticsTCMDxe/SynapticsTCMDxe.c:844-863 | parse(o, m+n) = parse(o, m) OR parse(o+m, n) shifted left by m |
| `BitField.TcmParseSingleByte` | Silicon/Qualcomm/QcomPkg/Drivers/SynapticsTCMDxe/SynapticsTCMDxe.c:812-875 | every request of 1 to 32 bits inside the payload yields its field, any other is refused; no byte outside the payload is read |
| `TcmReport.SkipGesture` | Silicon/Qualcomm/QcomPkg/Drivers/SynapticsTCMDxe/SynapticsTCMDxe.c:710-722 | the unsigned countdown skips the width if it is a multiple of eight up to 160, nothing for 0, and 160 bits otherwise |
| `TcmProgram.GestureWidths` | Silicon/Qualcomm/QcomPkg/Drivers/SynapticsTCMDxe/SynapticsTCMDxe.c:710-722 | gesture data of whole bytes up to twenty moves as far as asked, any other 160 bits |
| `TcmReport.SkipStep` | Silicon/Qualcomm/QcomPkg/Drivers/SynapticsTCMDxe/SynapticsTCMDxe.c:786-806 | opcode 5 and those above 9 move over as many bits as they ask for, gesture data as above, and change nothing else |
| `TcmReport.PadStep` | Silicon/Qualcomm/QcomPkg/Drivers/SynapticsTCMDxe/SynapticsTCMDxe.c:697-699 | in any state of a run padding moves to the next multiple of 8, by less than 8, and changes nothing else |
| `TcmReport.StepSound` | Silicon/Qualcomm/QcomPkg/Drivers/SynapticsTCMDxe/SynapticsTCMDxe.c:664-806 | each opcode of a well-formed program stays inside the program buffer and comes closer to the end |
| `TcmReport.EndScan` | Silicon/Qualcomm/QcomPkg/Drivers/SynapticsTCMDxe/SynapticsTCMDxe.c:681-696 | whether a loop end is passed or jumps back, what the scan says of the rest is the same before and after it |
| `TcmReport.OffsetSmall` | Silicon/Qualcomm/QcomPkg/Drivers/SynapticsTCMDxe/SynapticsTCMDxe.c:664-806 | the bit offset never comes near wrapping 32 bits |
| `TcmReport.PositionStored` | Silicon/Qualcomm/QcomPkg/Drivers/SynapticsTCMDxe/SynapticsTCMDxe.c:762-783 | x and y get the low 16 bits of the payload's field if and only if the field has 1 to 32 bits and lies in the payload; otherwise those of the word read before, and the status is an error |
| `TcmReport.TcmDispatchReport` | Silicon/Qualcomm/QcomPkg/Drivers/SynapticsTCMDxe/SynapticsTCMDxe.c:638-810 | on every report of a length the program is well-formed for the decoder ends, with the touch data and status of the run whose steps `TcmObjects.FieldStep`, `TcmReport.SkipStep` and `TcmReport.PadStep` describe |
| `TcmReport.FitForShorter` | Silicon/Qualcomm/QcomPkg/Drivers/SynapticsTCMDxe/SynapticsTCMDxe.c:664-806 | a program well-formed for longer reports is for shorter ones |
| `TcmLoops.ActiveLoopCount` | Silicon/Qualcomm/QcomPkg/Drivers/SynapticsTCMDxe/SynapticsTCMDxe.c:671-690 | an active-object body of b bits entered at bit o runs exactly max(1, ceil((8*readLength - o)/b)) times, and once if b is 0 and the report is used up, unless one of these passes reads an index that is no finger's |
| `TcmLoops.ActiveLoop` | Silicon/Qualcomm/QcomPkg/Drivers/SynapticsTCMDxe/SynapticsTCMDxe.c:671-690 | and leaves the offset that many times b further |
| `TcmLoops.ObjectLoopCount` | Silicon/Qualcomm/QcomPkg/Drivers/SynapticsTCMDxe/SynapticsTCMDxe.c:676-696 | an object-loop body that reads no index runs exactly ten times |
| `TcmLoops.ActiveLeft` | Silicon/Qualcomm/QcomPkg/Drivers/SynapticsTCMDxe/SynapticsTCMDxe.c:671-690 | on a given report an active-object loop with a straight body is left if and only if the body skips bits, the report is used up, or an index is read from a kept word that is no finger's |
| `TcmLoops.ObjectLeft` | Silicon/Qualcomm/QcomPkg/Drivers/SynapticsTCMDxe/SynapticsTCMDxe.c:676-747 | an object loop with a straight body is left if and only if the body reads no index, or one of the passes 0 to 8*readLength reads one that is no finger's or ends with the last finger's |
| `TcmLoops.PassesRepeat` | Silicon/Qualcomm/QcomPkg/Drivers/SynapticsTCMDxe/SynapticsTCMDxe.c:724-747 | behind the end of the report every pass reads the word kept from before, over and over |
| `TcmEnding.EndingPrograms` | Silicon/Qualcomm/QcomPkg/Drivers/SynapticsTCMDxe/SynapticsTCMDxe.c:638-810 | a program whose operands lie in its buffer ends on every report of at most so many bytes if and only if it is well-formed for that length, and if and only if it ends on that many zeros |
| `TcmEnding.EndlessProgram` | Silicon/Qualcomm/QcomPkg/Drivers/SynapticsTCMDxe/SynapticsTCMDxe.c:671-747 | an active-object loop that reads an index of no bits ends on no report but the empty one |
| `TcmEnding.DrainedProgram` | Silicon/Qualcomm/QcomPkg/Drivers/SynapticsTCMDxe/SynapticsTCMDxe.c:671-690 | behind a loop that uses up the report, a loop with an empty body ends |
| `TcmEnding.SkippingProgram` | Silicon/Qualcomm/QcomPkg/Drivers/SynapticsTCMDxe/SynapticsTCMDxe.c:671-696 | a program that skips 647700 bits before an empty loop ends on every report of at most a given length if and only if that length is within those bits |
| `TcmObjects.FieldStep` | Silicon/Qualcomm/QcomPkg/Drivers/SynapticsTCMDxe/SynapticsTCMDxe.c:724-783 | a field opcode inside the report stores the payload's field where its opcode says and nowhere else |
| `TcmObjects.StalePosition` | Silicon/Qualcomm/QcomPkg/Drivers/SynapticsTCMDxe/SynapticsTCMDxe.c:762-783 | a report of one byte and the padding, too short for y, leaves y equal to x, with an error status |
| `TcmObjects.PaddedPosition` | Silicon/Qualcomm/QcomPkg/Drivers/SynapticsTCMDxe/SynapticsTCMDxe.c:697-699 | the program x of w bits, padding, y of v bits decodes y from the least multiple of 8 that is not below w, on every report that reaches so far |
| `TcmObjects.StatusOfAny` | Silicon/Qualcomm/QcomPkg/Drivers/SynapticsTCMDxe/SynapticsTCMDxe.c:749-760 | the touch status is set if and only if some object of the report is classified as a touch |
| `TcmObjects.StopsAtIndex` | Silicon/Qualcomm/QcomPkg/Drivers/SynapticsTCMDxe/SynapticsTCMDxe.c:731-742 | an index that is no finger's stops the decoder and leaves the touch data of the objects before it |
| `TcmObjects.ReportDecoded` | Silicon/Qualcomm/QcomPkg/Drivers/SynapticsTCMDxe/SynapticsTCMDxe.c:638-810 | a program that reads index, classification, x and y of each object decodes any number of objects, at any field widths, to the last one's position, read straight from the payload, and the status of all |
| `FramePixels.FrameBuffer.PutPixel` | Silicon/Qualcomm/QcomPkg/Library/FrameBufferSerialPortLib/FrameBufferSerialPortLib.c:185-190 | the byte loop sets one pixel to its color, low byte first, and no other pixel, for every bytes-per-pixel |
| `FbScreen.PixelByte` | Silicon/Qualcomm/QcomPkg/Library/FrameBufferSerialPortLib/FrameBufferSerialPortLib.c:185-190 | byte k of a pixel has bits 8k to 8k+7 of the color, and is 0 behind the fourth |
| `FramePixels.FrameBuffer.InkRow` | Silicon/Qualcomm/QcomPkg/Library/FrameBufferSerialPortLib/FrameBufferSerialPortLib.c:217-236 | one row of five bits, each scaled, is laid over the screen; clear bits leave it as it is |
| `FramePixels.FrameBuffer.DrawGlyph` | Silicon/Qualcomm/QcomPkg/Library/FrameBufferSerialPortLib/FrameBufferSerialPortLib.c:169-265 | a cell inside the framebuffer ends as background overlaid with both halves of the glyph |
| `FramePixels.GlyphPixel` | Silicon/Qualcomm/QcomPkg/Library/FrameBufferSerialPortLib/FrameBufferSerialPortLib.c:169-265 | cell pixel (r, c) is foreground if and only if bit ((r/scale) mod 6)*5 + c/scale of glyph[(r/scale)/6] is set, for every scale and stride |
| `FramePixels.GlyphOutside` | Silicon/Qualcomm/QcomPkg/Library/FrameBufferSerialPortLib/FrameBufferSerialPortLib.c:169-265 | no pixel outside the cell changes |
| `FbConsole.PaintKeepsCursor` | Silicon/Qualcomm/QcomPkg/Library/FrameBufferSerialPortLib/FrameBufferSerialPortLib.c:98-167 | the cursor stays in 0 <= x < maxX/scale, 0 <= y < maxY-scale, and a second jump back never follows the first |
| `FbConsole.StreamKeepsCursor` | Silicon/Qualcomm/QcomPkg/Library/FrameBufferSerialPortLib/FrameBufferSerialPortLib.c:300-315 | the same after every character stream |
| `FbScreen.PassShown` | Silicon/Qualcomm/QcomPkg/Library/FrameBufferSerialPortLib/FrameBufferSerialPortLib.c:105-166 | one pass by row and column, for every character, cursor and pixel: where the cursor goes, whether it jumps back, that the cell shows the glyph, that a line feed zeroes the 12*scale rows of the line it goes to, and that no other pixel changes |
| `FbScreen.NewlineShown` | Silicon/Qualcomm/QcomPkg/Library/FrameBufferSerialPortLib/FrameBufferSerialPortLib.c:147-166 | a newline goes to column 0 of the next line, or of the line below the top if no line fits below, and zeroes exactly its pixel rows |
| `FbScreen.ReturnShown` | Silicon/Qualcomm/QcomPkg/Library/FrameBufferSerialPortLib/FrameBufferSerialPortLib.c:108-124 | a carriage return sets x to 0; other characters without a glyph, and a space at a line start outside titles, do nothing |
| `FbScreen.CharShown` | Silicon/Qualcomm/QcomPkg/Library/FrameBufferSerialPortLib/FrameBufferSerialPortLib.c:126-146 | a visible character shows its glyph, pixel by pixel, in the cell at the cursor, which moves one column on, or to the start of the next, zeroed line; no other pixel changes |
| `FbScreen.CharShownTwice` | Silicon/Qualcomm/QcomPkg/Library/FrameBufferSerialPortLib/FrameBufferSerialPortLib.c:144-159 | at the end of the last line that fits a visible character is shown there and once more at the top left |
| `FbScreen.TextInParts` | Silicon/Qualcomm/QcomPkg/Library/FrameBufferSerialPortLib/FrameBufferSerialPortLib.c:300-315 | text written in two parts is the text written at once |
| `FbConsole.PaintForever` | Silicon/Qualcomm/QcomPkg/Library/FrameBufferSerialPortLib/FrameBufferSerialPortLib.c:105-159 | exactly which characters on which screens jump back for ever |
| `FbConsole.TwoLines` | Silicon/Qualcomm/QcomPkg/Library/FrameBufferSerialPortLib/FrameBufferSerialPortLib.c:105-159 | at scale 1 a newline on a screen 36 pixels high jumps back for ever, on one 37 high at most once |
| `FbConsole.CellInside` | Silicon/Qualcomm/QcomPkg/Library/FrameBufferSerialPortLib/FrameBufferSerialPortLib.c:131-136 | within the cursor's bounds a glyph cell lies in the width*height framebuffer |
| `FbConsole.LineInside` | Silicon/Qualcomm/QcomPkg/Library/FrameBufferSerialPortLib/FrameBufferSerialPortLib.c:160-162 | within the cursor's bounds a cleared line lies in the framebuffer |
| `FbConsole.Console.SerialPortInitialize` | Silicon/Qualcomm/QcomPkg/Library/FrameBufferSerialPortLib/FrameBufferSerialPortLib.c:38-96 | the first call puts the cursor at the top left and sets white on black, later calls change nothing |
| `FbConsole.Console.NewLine` | Silicon/Qualcomm/QcomPkg/Library/FrameBufferSerialPortLib/FrameBufferSerialPortLib.c:147-166 | the next line is cleared, or the cursor returns to the top and painting starts over: the line feed of `FbScreen.PassShown` and `FbScreen.NewlineShown` |
| `FbConsole.Console.PaintPass` | Silicon/Qualcomm/QcomPkg/Library/FrameBufferSerialPortLib/FrameBufferSerialPortLib.c:105-166 | one pass leaves the screen, cursor and jump that `FbScreen.PassShown` gives by row and column |
| `FbConsole.Console.FbConPutCharWithFactor` | Silicon/Qualcomm/QcomPkg/Library/FrameBufferSerialPortLib/FrameBufferSerialPortLib.c:98-167 | every character ends after at most two passes with the cursor in bounds and every write inside the framebuffer, and leaves the screen `FbScreen.NewlineShown`, `FbScreen.ReturnShown`, `FbScreen.CharShown` and `FbScreen.CharShownTwice` describe |
| `FbConsole.Console.SerialPortWrite` | Silicon/Qualcomm/QcomPkg/Library/FrameBufferSerialPortLib/FrameBufferSerialPortLib.c:300-315 | screen and cursor are those of the whole text painted character by character (`FbScreen.TextInParts`) |
| `FbConsole.Console.SerialPortWriteCritical` | Silicon/Qualcomm/QcomPkg/Library/FrameBufferSerialPortLib/FrameBufferSerialPortLib.c:317-337 | the text is painted in yellow and the colors are put back |
| `PatternScan.HexReadsBack` | Platform/RenegadePkg/Drivers/KernelErrataPatcher/KernelErrataPatcher.h:40-43 | two hex digits written for a byte match that byte and no other |
| `PatternScan.DigitValues` | Platform/RenegadePkg/Drivers/KernelErrataPatcher/KernelErrataPatcher.h:40-43 | the value of a hex digit in either case, and 0 for any other character |
| `PatternScan.ScanSound` | Platform/RenegadePkg/Drivers/KernelErrataPatcher/Utilities.c:27-53 | a place found is an occurrence of the whole pattern inside the range |
| `PatternScan.ScanExact` | Platform/RenegadePkg/Drivers/KernelErrataPatcher/Utilities.c:27-53 | the scan returns the first occurrence at which no match is under way, and nothing if and only if there is none |
| `PatternScan.FirstFound` | Platform/RenegadePkg/Drivers/KernelErrataPatcher/Utilities.c:27-53 | the first occurrence is the result if and only if no match is under way there |
| `PatternScan.FoundBehindNone` | Platform/RenegadePkg/Drivers/KernelErrataPatcher/Utilities.c:27-53 | the first occurrence is the result if no shorter prefix of the pattern ends just before it |
| `PatternScan.Missed` | Platform/RenegadePkg/Drivers/KernelErrataPatcher/Utilities.c:46-49 | a first byte repeated in front of an occurrence hides it |
| `PatternScan.FindPattern` | Platform/RenegadePkg/Drivers/KernelErrataPatcher/Utilities.c:27-53 | over pattern text, the address of the place the scan completes, or 0 |
| `ErrataPatcher.CopyMemory` | Platform/RenegadePkg/Drivers/KernelErrataPatcher/Utilities.c:17-25 | the bytes are stored at the destination and nothing else changes |
| `ErrataPatcher.ReadOccurs` | Platform/RenegadePkg/Drivers/KernelErrataPatcher/KernelErrataPatcher.c:36-39 | the pattern occurs exactly where the bytes 28 10 38 D5 stand |
| `ErrataPatcher.MatchesBeside` | Platform/RenegadePkg/Drivers/KernelErrataPatcher/KernelErrataPatcher.c:36-39 | after a rewrite, every match lies beside it and was a match before |
| `ErrataPatcher.PatchedSites` | Platform/RenegadePkg/Drivers/KernelErrataPatcher/KernelErrataPatcher.c:33-73 | every site rewritten was an exact match from the start and holds 08 00 80 D2, no two overlap, all other bytes are unchanged, and with searches to spare nothing is found any more |
| `ErrataPatcher.KernelErrataPatcherApplyReadACTLREL1Patches` | Platform/RenegadePkg/Drivers/KernelErrataPatcher/KernelErrataPatcher.c:33-73 | memory ends as after three searches and rewrites, or one in the firmware context |
| `Packing.PadReaches` | tools/mkbootimg.py:85-92 | pad_file reaches the next multiple of the page and no further, which is what get_number_of_pages counts |
| `Packing.PadFromAligned` | tools/mkbootimg.py:85-87 | from a page boundary the padding depends on the section alone and ends on a page boundary |
| `Packing.FieldAt` | tools/mkbootimg.py:185-264 | each packed field stands where the sizes of those before it put it |
| `Packing.IntegerReadsBack` | tools/mkbootimg.py:185-264 | every integer that packs reads back |
| `Packing.OutFile.PadFile` | tools/mkbootimg.py:85-87 | as many zeros are appended as the masked difference says |
| `Packing.OutFile.WritePaddedFile` | tools/mkbootimg.py:352-356 | a file given is appended and padded, one not given leaves no trace |
| `BootImage.HeaderSizes` | tools/mkbootimg.py:107-130 | before padding every header is as long as its version's size, which versions 1 to 4 record in themselves |
| `BootImage.DtboRecorded` | tools/mkbootimg.py:237-246 | headers of version 1 and 2 record the recovery DTBO's size and the computed offset |
| `BootImage.HeaderWords` | tools/mkbootimg.py:197-221 | the byte position of every word of a header of version 0 to 2, and the argument it holds |
| `BootImage.V3Words` | tools/mkbootimg.py:113-126 | the same for versions 3 and 4, the four reserved words zero |
| `ImageReading.HeaderTexts` | tools/mkbootimg.py:197-235 | the texts of a header of version 0 to 2: magic at 0, name at 48, command line at 64, digest at 576, extra command line at 608, each cut off or filled up with zeros |
| `ImageReading.LaterFields` | tools/mkbootimg.py:237-264 | the fields behind in versions 1 and 2: DTBO size at 1632 and offset at 1636, the header's own size at 1644 |
| `ImageReading.DtbWords` | tools/mkbootimg.py:254-262 | and in version 2 the DTB size at 1648 and address at 1652 |
| `ImageReading.V3Texts` | tools/mkbootimg.py:113-129 | the texts of versions 3 and 4, magic at 0 and command line at 44, and the signature size 4096 at 1580 of version 4 |
| `ImageReading.VersionWord` | tools/mkbootimg.py:217 | the version word is 2048 times the version plus any patch level below 2048, so both are read back |
| `BootImage.HeaderExact` | tools/mkbootimg.py:185-264 | a header is refused if and only if its version is not 0 to 4, an integer is too wide for its field, or version 2 has no DTB |
| `BootImage.DtboWhereRecorded` | tools/mkbootimg.py:95-104 | in the finished image the recovery DTBO stands exactly where the header says, for all input sizes |
| `BootImage.SectionAt` | tools/mkbootimg.py:352-356 | every section starts on a page boundary, is whole, and is followed by less than a page of padding |
| `BootImage.LayoutPages` | tools/mkbootimg.py:90-104 | sections together take the sum of their page counts |
| `ImageReading.BootSections` | tools/mkbootimg.py:624-634 | for every version and all sizes, behind one header page and each on the first page behind the one before: kernel, ramdisk, second stage, then the DTBO for versions 1 and 2, the DTB for version 2, and 4096 zeros for version 4 |
| `ImageReading.LoaderFinds` | tools/mkbootimg.py:185-264 | from the image alone, versions 0 to 2: the words at 36, 8, 16, 24, 1632 and 1648 are page size and lengths by which each file is found, whole |
| `ImageReading.V3LoaderFinds` | tools/mkbootimg.py:107-130 | the same for versions 3 and 4, with 4096-byte pages and the lengths at 8 and 12 |
| `BootImage.WriteHeader` | tools/mkbootimg.py:185-264 | the packed fields padded to a page, or an exception exactly when the version is above 4, a field does not pack, or version 2 has no DTB |
| `BootImage.WriteData` | tools/mkbootimg.py:624-634 | the version's sections are appended in the order `ImageReading.BootSections` gives |
| `BootImage.MakeBootImage` | tools/mkbootimg.py:660-668 | the image, or an exception exactly when the version is not 0 to 4, an integer does not fit its field, version 2 has no DTB, or a second-stage file is given for version 3 or 4; what a loader reads from it is `ImageReading.LoaderFinds` |
| `BootImage.CmdlineRoundTrip` | tools/mkbootimg.py:559-563 | both parts fit their fields with terminators, the first holds the first 511 characters, and the strings read from the two fields make up the command line again |
| `VendorBoot.VendorRamdiskTableBuilder.AddEntry` | tools/mkbootimg.py:308-333 | succeeds exactly for new names, full board ids and files that open; the entry starts where the others end; the name is taken, also when a later check fails, unless it is banned |
| `VendorBoot.RStripExact` | tools/mkbootimg.py:309-310 | a name is compared without the zeros at its end, and with every other byte |
| `VendorBoot.RamdiskSlice` | tools/mkbootimg.py:335-339 | cutting an entry's range out of the section gives back its file, and the ranges cover the section without a gap |
| `VendorBoot.TableRecords` | tools/mkbootimg.py:341-349 | entry i of the table, 108 bytes each, records the size and offset of ramdisk i |
| `ImageReading.TableSlices` | tools/mkbootimg.py:341-349 | bytes 108*i to 108*i+107 of the table are entry i packed |
| `ImageReading.EntryWords` | tools/mkbootimg.py:341-349 | in an entry the size is at 0, offset at 4, type at 8, name at 12 and word k of the board id at 44+4*k |
| `VendorBoot.VendorRamdiskTableBuilder.WriteRamdisksPadded` | tools/mkbootimg.py:335-339 | the files are appended one after the other and padded |
| `VendorBoot.VendorRamdiskTableBuilder.WriteEntriesPadded` | tools/mkbootimg.py:341-349 | the table is appended and padded, or an exception exactly when an integer does not pack |
| `VendorBoot.VendorHeaderSize` | tools/mkbootimg.py:133-182 | the header is 2112 or 2128 bytes before padding, as it records |
| `ImageReading.VendorWords` | tools/mkbootimg.py:144-161 | the byte position of every field of a vendor header up to the name, and what it holds |
| `ImageReading.VendorSizes` | tools/mkbootimg.py:163-181 | the fields behind: header size at 2096, DTB size at 2100 and address at 2104, and in version 4 table size, entries, entry size and boot configuration size from 2112 on |
| `VendorBoot.RamdiskInImage` | tools/mkbootimg.py:637-644 | in a version 4 image every ramdisk stands at its recorded offset behind the header's pages |
| `ImageReading.VendorLoaderFinds` | tools/mkbootimg.py:637-647 | from the image alone: by the page size and lengths in the header's words the ramdisk section, the DTB, and in version 4 the table and the boot configuration are found, whole, in this order |
| `VendorBoot.MakeVendorBoot` | tools/mkbootimg.py:637-658 | the image, or an exception exactly for a version other than 3 and 4, a missing ramdisk in version 3, an empty DTB, or a value that does not pack |
| `Smbios.StringsReadBack` | Platform/RenegadePkg/Drivers/PlatformSmbiosDxe/PlatformSmbiosDxe.c:495-503 | the packed list reads back if and only if it holds no empty string, the empty list included |
| `Smbios.EmptyStringHides` | Platform/RenegadePkg/Drivers/PlatformSmbiosDxe/PlatformSmbiosDxe.c:495-503 | behind an empty string in the list the rest is not read |
| `Smbios.SetEndsRecord` | Platform/RenegadePkg/Drivers/PlatformSmbiosDxe/PlatformSmbiosDxe.c:473-503 | the first two zeros in a row are the last two bytes of the record |
| `Smbios.EndsInTwoZeros` | Platform/RenegadePkg/Drivers/PlatformSmbiosDxe/PlatformSmbiosDxe.c:473-503 | every record ends in two zeros, also with an empty list of strings |
| `Smbios.PackSize` | Platform/RenegadePkg/Drivers/PlatformSmbiosDxe/PlatformSmbiosDxe.c:479-482 | the sum computed is the size of the strings with their terminators |
| `Smbios.LogSmbiosData` | Platform/RenegadePkg/Drivers/PlatformSmbiosDxe/PlatformSmbiosDxe.c:473-503 | the record fills exactly what was allocated and is the template followed by the string set; a missing pack is read through |

## Left out

- Handle and device-path lookup: the number of handles a lookup finds is a result of `Storage.Device.GetStorageHandle`, and `EnumeratePartitions` with its reuse of MaxHandles is not part of the model.
- Storage.Device.GetStorageHandle: a LUN on which the lookup finds a number of handles other than one is passed over and counts as a fault. MaxLuns is 8 on every UFS device; a device with an unused LUN is represented by leaving that LUN out of `luns`.
- The overflow tests of `GetPartitionSize`, and memory that runs out while the list of slotted partitions is built.
- PartitionTable.Table.UpdatePartitionAttributes: after a call in which a driver failed, a later call is promised to be crash safe only if every LUN is ready for its turn (`PartitionTable.AllReady`); `PartitionTable.AfterFailedWrite` says when a LUN is.
- SlotEngine.Engine.GetMultiSlotPartsList: a pair whose common part has 32 characters or more would overrun its place in the list; callers must not have one.
- SlotSessions.RunAll: it stops behind the first program on which a driver failed, since the next may find disks that are not ready.
- SlotEngine.Engine.SetActiveSlot: the suffix asked for has two characters, as every caller's has.
- The entry tables are sequences of PartitionCount entries rather than arrays of 128, and names are shorter than the 36 characters of a GPT entry.
- The deletion of the list of slotted partitions: it lives as long as the engine.
- FixGpt.Disk.FixGptCRC32: the second AllocatePool, whose status the code does not look at, is taken to succeed.
- Unsupported root devices (neither eMMC nor UFS), for which both programs stop at once.
- TcmReport.TcmDispatchReport: it is run on programs well-formed for the length of the report, which are exactly those that end on every report of at most that length (`TcmEnding.EndingPrograms`), whatever its bytes; that the driver passes only reports ending in the padding byte is not used. The variable ActiveObjectsNum is never set, so its branch is not part of the model.
- TcmEnding.EndingPrograms: for reports of at most 2^28 bytes, where a message holds 65536; in a run that never ends the bit offset is a number of any size, where the code's would wrap after at least 2^24 opcodes.
- BitField.TcmParseSingleByte: offset and width whose sum wraps 32 bits, for which the code would read outside the payload; `TcmReport.OffsetSmall` shows that well-formed programs do not come to it.
- SynaGetTouchData and the message framing, I2C and GPIO transfers, timers.
- FbConsole.Console.FbConPutCharWithFactor: delays, cache flushes and interrupt masking; `FbConScrollUp`, which nothing calls, and `ResetFb`.
- FramePixels.FrameBuffer.DrawGlyph: positions are counted in pixels rather than bytes.
- PatternScan.FindPattern: patterns end in a byte, because behind a final question mark the code reads past the end of the text; the range does not wrap the address space.
- The write, cache and PSCI patches of the kernel patcher: one search and one splice each.
- BootImage.WriteData: the signature section of version 4 is the zeros written without a signing key; the form avbtool makes is not modelled.
- SHA-1 (the digest is a parameter), argument parsing apart from the command-line split.
- BootImage.MakeBootImage: what is left in the file after an exception.
- Locating the SMBIOS protocol, allocation (both parameters) and the call that adds the record.
- Static data, and the drivers and patch scripts that are fixed-offset copies or plain glue.
