# A Dafny model of qubes-linux-utils

The project models four parts of the repository and proves what they are for.

**The GPT sector-size converter** (`gptfixer/gpt.c`). A block device is a sequence of bytes and each `sync_pwrite` is one
write. The model has the header and entry layout of section 5.3 of the UEFI Specification, the search for a table
(`read_and_check_gpt`, `check_gpt_header`), the rebuild for the other sector size (`gpt_adjust_sectors`), the writes of
`create_new_gpt` and the order in which `main` rewrites the two copies.
What the checks accept is stated as rules on the bytes of the device (`GptRules`).
Main results: after every prefix of the writes of a fix run a table describing the original partitions can be found
(`GptFix.PartitionsNeverLost`), no byte of a partition changes (`GptFix.UserDataUntouched`), a rebuilt header passes every
test except, in one exactly stated case, the one on its size (`GptAdjust.RebuiltHeaderVerdict`), the new entry count is the
largest that fits (`GptAdjust.CountIsLargestThatFits`), and converting there and back gives the original entries byte for
byte (`GptRoundTrip.RoundTrip`, `GptReturn.RoundTripOnDevice`), always for 512 → 4096 → 512 and otherwise under exact
conditions (`GptRoundTrip.ConvertingBackVerdict`, `GptReturn.SearchAfterRun`). What the tool finds when it is run again
after a crash is determined for every prefix of the writes, together with the exact condition for it to be the expected
table (`GptRecovery.ToolRecovers`).

**The path, link and UTF-8 validator** (`qrexec-lib/unicode.c`). The index-juggling scanner, the loose UTF-8 decoder with
its allowlist (transcribed in `Allowlist.dfy`) and the truncating sanitizer are loops, each proved equal to a function; the
functions are proved equivalent to declarative specifications: split on `/`, sections 3 and 4 of RFC 3629, and token-wise
replacement followed by a prefix (`Paths.ScanPathMeetsSpecification`, `Utf8.AcceptedIsRfc3629` with
`Utf8.AllowlistedIsAccepted`, `Display.SanitizedIsSafeAndFinal`).

**The qfile transfer protocol** (`qrexec-lib/pack.c`, `unpack.c`, `copy-file.c`, `ioall.c`, `crc32.c`). The files received
are a map from component lists to nodes with mode, times and contents; the stream is a byte sequence; reads and writes of
it may be short, interrupted or fail. Sender and receiver are classes whose methods follow the C code, proved against the
functions `Pack.Walk` and `Unpack.Run`.
Main results: a tree that is sent arrives (`RoundTrip.TreeArrives`), accepted links never lead out of their top-level entry
(`Confinement.LinksNeverEscape`), a truncated transfer is never a success (`Unpack.PrefixSucceedsIffMarkerRead`), limits
hold at every moment (`Quota.QuotaHolds`, `Quota.FileQuotaHolds`), exactly the records that follow the rules are accepted
(`ReceiverRules.RecordAcceptedExactly`, `ReceiverRules.FlagsHonoured`), and the checksum does not depend on chunking
(`Crc32.CrcConcat`, `IoAll.CopyFile`).

**The tint arithmetic** (`imgconverter/qubesimgconverter/__init__.py`): the 32-bit integer computation equals a simple
formula and loses nothing in the cast to a byte (`Tint.TintIsExact`).

## Results about the code as it is

- `check_gpt_header` has an assertion (line 493) that fails on 512-byte-sector devices of 2 to 5 blocks of 4096 bytes whose
  MBR passes and that hold no table of their own; `GptMain.ToolAbortsExactlyOnTinyDevices` gives the exact condition and
  `GptMain.TinyDeviceAborts` an instance.
- A header size above 512, legal with 4096-byte sectors, is copied by the rebuild and makes the assertion of line 789 fail
  when converting to 512-byte sectors. This is the only test a rebuilt header can fail, and nothing has been written by
  then (`GptAdjust.RebuiltHeaderVerdict`, `GptMain.FixDevice`; instances in `GptInstances.AssertionCanFail`).
- A conversion 4096 → 512 cannot always be undone: the original copy need not have left room for a 4096-byte-aligned table
  at both ends. `GptRoundTrip.ConvertingBackVerdict` gives the exact condition and `GptInstances.ReturnCanFail` an instance.
- After a crash the search finds the expected table unless a stale header of the new sector size comes to match what has
  been written where its table would be, or entry 24 of the new table reads as an unsupported header;
  `GptRecovery.RecoveryExactly` gives the exact condition, `GptRecovery.RecoveryOutcome` what is found instead, and
  `GptRecovery.RecoveryWithoutStaleHeaders` a condition that can be checked before the run. In
  `GptInstances.PartitionCanBeLost` the table found instead lacks a partition.
- A copy with 512-byte sectors can put an entry where 4096-byte sectors have a header. If it reads as a header with an
  unsupported entry size, the tool exits on that device with 4096-byte sectors; nothing else can happen there
  (`GptReturn.SearchAfterRun`; an instance in `GptInstances.ReturnCanBeBlocked`).
- The rebuild relies on two facts the search does not check: a backup header names its own position (line 512 only warns),
  and no used entry ends before it starts. They are the predicate `GptCheck.Sane`. Without the second, the assertion of
  line 363 can fail; `GptAdjust.OrderAssertionFailsExactly` says when, `GptInstances.OrderAssertionCanFail` is an instance.
- Bytes behind the end marker are ignored, so a successful stream can have a successful proper prefix
  (`Unpack.TrailingByteIsIgnored`). A prefix succeeds if and only if it contains the end marker
  (`Unpack.PrefixSucceedsIffMarkerRead`).
- The sanitizer drops a multi-byte character that would fill the buffer exactly (line 355):
  `Display.SanitizedIsLongestExactly`, with an instance in `Display.ExactFitIsDropped`.
- A directory name that is refused gives the negative error code as exit status (unpack.c line 264), and nothing else does:
  `Unpack.NegativeExitExactly`, with an instance in `Unpack.RefusedDirectoryExits`.
- A directory counts twice against the limit on the number of records (`RoundTrip.WalkReceived`), and seconds are cut to 32
  bits (`Transfer.TimesArriveExactly`, with an instance in `Transfer.OldFileArrivesYoung`).
- pure.h (lines 99-101) describes `qubes_pure_validate_file_name` as the version with flags 0, while unicode.c (lines
  263-268) passes the trailing-slash flag. The model follows the code; `Paths.DocumentedFlagsDiffer` says on which names
  the two differ.

## Model

| member | source | states |
|---|---|---|
| `GptFormat.RoundUp` | gptfixer/gpt.c:205-211 | the result is a multiple of the sector size in [value, value + sector size) |
| `GptFormat.RoundUpLeast` | gptfixer/gpt.c:205-211 | it is below every other multiple that is at least the value |
| `Bytes.LittleEndian4` | gptfixer/gpt.c:71-97 | the value of four bytes, written out |
| `Bytes.LittleEndian8` | gptfixer/gpt.c:71-97 | the value of eight bytes from its two halves |
| `GptFormat.ParseEncodeHeader` | gptfixer/gpt.c:71-87 | a written 92-byte header, followed by any padding, reads back as itself |
| `GptFormat.EncodeParseHeader` | gptfixer/gpt.c:71-87 | re-encoding a parsed header gives the 92 bytes on disk |
| `GptFormat.WithRange` | gptfixer/gpt.c:473-483 | the two LBAs of an entry are replaced, every other byte and the used state are kept |
| `GptFormat.SameRangeSameEntry` | gptfixer/gpt.c:89-97 | an entry is determined by its LBAs and its other bytes |
| `GptFormat.ApplyAllKeeps` | gptfixer/gpt.c:769-781 | bytes that no write of a run touches keep their value |
| `GptFormat.ApplyAllConcat` | gptfixer/gpt.c:769-781 | two runs of writes in sequence are one run |
| `GptCheck.UsedCount` | gptfixer/gpt.c:702-717 | the result is one past the last used entry, or 0 |
| `GptCheck.ScanEntries` | gptfixer/gpt.c:702-717 | the loop reports exactly whether every used entry lies in the usable range, and where the last used one is |
| `GptCheck.ReadGpt` | gptfixer/gpt.c:631-729 | a table that is found is well-formed, has the sector size asked for, and its used entries lie in its usable range |
| `GptCheck.ReadGptFrame` | gptfixer/gpt.c:631-729 | a found table is still found after any change outside its header sector and its entries |
| `GptCheck.FoundIsRebuildable` | gptfixer/gpt.c:491-729 | a sane table that is found meets all conditions of the rebuild, and its entry array is clear of the usable range |
| `GptRules.HeaderVerdictExactly` | gptfixer/gpt.c:491-629 | a header is accepted if and only if its bytes follow the rule of section 5.3.2 of the UEFI Specification: signature, revision, checksum over its 92 bytes with the field zero, sizes, order of LBAs, room for the table; and exactly when it ends the program with 3 or 8 instead |
| `GptRules.ReadGptExactly` | gptfixer/gpt.c:631-729 | the search at one position finds a table if and only if header bytes and entry bytes follow the rules; which bytes it finds; and exactly when it exits, with 0, 2, 3 or 8 |
| `GptRules.FitsExactly` | gptfixer/gpt.c:363-404 | n entries fit if and only if every used partition leaves room for MBR, header and whole-sector table in front and for table and header behind |
| `GptRules.ConvertibleExactly` | gptfixer/gpt.c:334-404 | a table can be converted if and only if every used partition, from its bytes, begins and ends on a boundary of the new sector size and leaves that room |
| `GptRules.VerdictExactly` | gptfixer/gpt.c:318-404 | before its first write create_new_gpt exits with 6 exactly on a table that cannot be converted, and fails its assertion exactly on one that can with a header size above the new sector size |
| `GptIdentity.SameDiskAfterRun` | gptfixer/gpt.c:426-461 | in the bytes of both new headers after a run: disk GUID, revision and header size of the old one, reserved 0, own position and that of the other copy, and the largest usable range that respects the old one and both new tables |
| `GptAdjust.FirstByte` | gptfixer/gpt.c:326-362 | a lower bound of the used entries' first bytes that one of them attains |
| `GptAdjust.LastByte` | gptfixer/gpt.c:326-362 | an upper bound of the used entries' ends that one of them attains |
| `GptAdjust.DataBounds` | gptfixer/gpt.c:326-375 | all user data lies in the old usable range, on old sector boundaries, and is not empty |
| `GptAdjust.ScanRanges` | gptfixer/gpt.c:326-362 | for any table the loop finds exactly whether all computed offsets are aligned, and their extremes; for a sane table that was found, the exact ones |
| `GptAdjust.ScanIsExact` | gptfixer/gpt.c:334-336 | for a sane table that was found, none of the 64-bit offsets wraps |
| `GptAdjust.OrderAssertionFailsExactly` | gptfixer/gpt.c:363 | the assertion of line 363 fails if and only if every used entry starts at or behind the end of every used entry |
| `GptAdjust.NothingWraps` | gptfixer/gpt.c:363-439 | no 64-bit expression of the rebuild wraps, and the assertions of lines 363, 375 and 411 hold |
| `GptAdjust.ChooseCount` | gptfixer/gpt.c:326-420 | the constraint exits are taken exactly when entries are misaligned or the used ones do not fit; otherwise the entry count is NewCount |
| `GptAdjust.CountIsLargestThatFits` | gptfixer/gpt.c:363-420 | the new count covers all used entries, its table fits both gaps, and no larger count up to the old one does |
| `GptAdjust.AdjustEntryKeepsRange` | gptfixer/gpt.c:473-483 | an aligned entry denotes the same bytes before and after |
| `GptAdjust.AdjustTableAt` | gptfixer/gpt.c:465-483 | entry i of the new table is entry i of the old one, adjusted |
| `GptAdjust.FillTable` | gptfixer/gpt.c:465-483 | the buffer holds the adjusted entries and zeros up to the sector boundary |
| `GptAdjust.HeaderFieldsInRange` | gptfixer/gpt.c:418-461 | the new usable range contains all user data, lies in the old one, and is clear of both new tables |
| `GptAdjust.BuildHeader` | gptfixer/gpt.c:418-461 | the header computed with wrapping arithmetic is the exact one |
| `GptAdjust.HeaderCrcMatches` | gptfixer/gpt.c:309-316 | a checksum taken over the header with a zero field is the one check_gpt_header recomputes |
| `GptAdjust.RebuiltHeaderVerdict` | gptfixer/gpt.c:318-629 | a rebuilt header, for either position and direction, passes check_gpt_header if and only if the old header size fits the new sector size |
| `GptAdjust.UsedEntrySurvives` | gptfixer/gpt.c:473-483 | every used entry survives with the same byte range and other bytes, inside the new usable range |
| `GptAdjust.AdjustSectors` | gptfixer/gpt.c:318-488 | the whole rebuild: a constraint exit exactly for tables that cannot be converted, else the new header and padded table |
| `GptFix.PrimaryBelowData` | gptfixer/gpt.c:799-832 | every write for the primary copy ends before the first partition |
| `GptFix.BackupAboveData` | gptfixer/gpt.c:799-832 | every write for the backup copy, the 4096-byte wipe included, starts after the last partition |
| `GptFix.CopyIsFound` | gptfixer/gpt.c:783-836 | once its table and header are on disk, a new copy is found with the expected entries |
| `GptFix.CreatedCopyIsFound` | gptfixer/gpt.c:783-836 | create_new_gpt leaves a copy that is found |
| `GptFix.CopyHasSamePartitions` | gptfixer/gpt.c:473-483 | a new copy marks the same entries used, for the same bytes of the device |
| `GptFix.SourceSurvivesFirstCopy` | gptfixer/gpt.c:1042-1047 | after any prefix of the first create_new_gpt the table that was read is still found |
| `GptFix.FirstCopySurvivesSecond` | gptfixer/gpt.c:1042-1047 | after any prefix of the second create_new_gpt the first new copy is still found |
| `GptFix.GoodTableAtEveryMoment` | gptfixer/gpt.c:1042-1047 | after every prefix of all writes, in either order of the copies, the old table or the first new copy is found |
| `GptFix.PartitionsNeverLost` | gptfixer/gpt.c:783-836 | crash safety: at every moment a copy at one of the places where main looks, for one of the two sector sizes, is found and describes the original partitions |
| `GptFix.BothCopiesAfterRun` | gptfixer/gpt.c:1042-1047 | after a complete run both new copies are found |
| `GptFix.UserDataUntouched` | gptfixer/gpt.c:799-832 | at every moment of a run every byte of every partition is unchanged |
| `GptRules.CheckMbrExactly` | gptfixer/gpt.c:224-268 | an MBR is let through if and only if its bytes follow the rule: 55 AA, first record of type EE starting at block 1, three empty records, no BIOS parameter block unless waived; only its size field changes, to that of the device; and exactly when the exit code is 4, 5 or 3 |
| `GptRules.OtherDisksAreRefused` | gptfixer/gpt.c:990-996 | the tool exits on every device whose MBR breaks the rule |
| `GptRules.NoTableExits` | gptfixer/gpt.c:1001-1020 | without a table for either sector size it exits with 5, or with 3 on a device that is not a whole number of 4096-byte blocks |
| `GptMain.CheckMbrIdempotent` | gptfixer/gpt.c:224-268 | a corrected MBR passes again unchanged |
| `GptMain.CheckMbrInPlace` | gptfixer/gpt.c:224-268 | the in-place loops give that MBR or the right exit code with the buffer unchanged |
| `GptMain.SearchAbortsExactlyOnTinyDevices` | gptfixer/gpt.c:1001-1020 | the assertion of line 493 stops the search if and only if the device has 512-byte sectors, 2 to 5 blocks of 4096 bytes, and no table of its own |
| `GptMain.ToolAbortsExactlyOnTinyDevices` | gptfixer/gpt.c:990-1020 | the tool as a whole aborts there if and only if, besides, the MBR passes check_mbr |
| `GptMain.ProtectiveMbrPasses` | gptfixer/gpt.c:224-268 | a protective MBR passes on a device of any size and comes out with the size of that device |
| `GptMain.TinyDeviceAborts` | gptfixer/gpt.c:990-1020 | a device of four such blocks, blank but for a protective MBR, is an instance |
| `GptMain.ForeignTableStartsJob` | gptfixer/gpt.c:1005-1047 | a sane table that the search finds for the other sector size meets the conditions of a fix run |
| `GptMain.SecondRunFindsNothingToFix` | gptfixer/gpt.c:996-1020 | after a fix run the MBR passes unchanged and the search finds the new primary table for the device's own sector size |
| `GptMain.BlockDevice.SyncPwrite` | gptfixer/gpt.c:769-781 | exactly the written range changes, and the state is recorded |
| `GptMain.BlockDevice.WriteAll` | gptfixer/gpt.c:799-832 | the device goes through exactly the states after each write |
| `GptMain.CreateNewGpt` | gptfixer/gpt.c:783-836 | exit, failed assertion or completion as determined by the table alone; nothing is written in the first two cases |
| `GptMain.FixDevice` | gptfixer/gpt.c:1042-1047 | the second copy never fails after the first succeeded, and every recorded state holds a good table |
| `GptRoundTrip.CopyIsRebuildable` | gptfixer/gpt.c:318-488 | a converted table meets the conditions of the rebuild itself |
| `GptRoundTrip.ConvertingBackVerdict` | gptfixer/gpt.c:326-420 | converting back completes if and only if the used entries of the original fit both gaps in a table for the original sector size |
| `GptRoundTrip.ConvertingBackSucceeds` | gptfixer/gpt.c:326-420 | after 512 to 4096 it always completes, and keeps the entry count |
| `GptRoundTrip.RoundTripEntry` | gptfixer/gpt.c:473-483 | in either direction each entry that is kept comes back byte for byte |
| `GptRoundTrip.RoundTrip` | gptfixer/gpt.c:318-488 | in either direction the table that comes back is the original one cut to the entries there was room for, all used ones included |
| `GptInstances.FixRunsExist` | gptfixer/gpt.c:990-1047 | for every checksum function there are devices on which the tool finds a table and a fix run starts, in each direction |
| `GptInstances.ReturnCanFail` | gptfixer/gpt.c:363-416 | a device with a table for 4096-byte sectors whose conversion to 512, once done, ends in a constraint exit when undone |
| `GptInstances.AssertionCanFail` | gptfixer/gpt.c:789 | for every header size in 513 .. 4096 a device on which the tool finds a sane, convertible table and fails the assertion of line 789 |
| `GptInstances.OrderAssertionCanFail` | gptfixer/gpt.c:363 | a device on which the tool finds a table whose entry ends before it starts, and fails the assertion of line 363 |
| `GptInstances.ReturnCanBeBlocked` | gptfixer/gpt.c:1001-1020 | a device that, converted to 512-byte sectors and used with 4096-byte ones again, makes the tool exit at an entry |
| `GptInstances.PartitionCanBeLost` | gptfixer/gpt.c:1042-1047 | a device on which a crash before the last of six writes leaves a search result that knows one partition of two |
| `GptStray.StaleRead` | gptfixer/gpt.c:631-729 | a header that was passed over on one disk is passed over on another with the same sector, unless the bytes there in the place of its table have its checksum and lie in its range |
| `GptStray.EntryNeverAccepted` | gptfixer/gpt.c:491-629 | read as a header for 4096-byte sectors, an entry of a rebuilt table is never accepted: it is rejected, or, with an unsupported entry size and all before it in order, makes the tool exit |
| `GptStray.PaddedEntry` | gptfixer/gpt.c:465-483 | any 128 bytes at the place of an entry in a padded new table meet the premise of that, and are such a header exactly if the new entry is |
| `GptRecovery.LastCover` | gptfixer/gpt.c:769-781 | the last write that covers a range decides its bytes |
| `GptRecovery.OldPrimaryRead` | gptfixer/gpt.c:804-832 | while the primary copy is written first, the old primary position stays empty, or makes the tool exit if entry 24 of the new table is such a header |
| `GptRecovery.RecoveryOutcome` | gptfixer/gpt.c:1001-1047 | after every prefix of the writes, what main's own search returns: a stale table, primary before backup, if its header has survived and come to match; the exit at entry 24; else the expected table |
| `GptRecovery.RecoveryExactly` | gptfixer/gpt.c:1001-1047 | it is the table the run started from, or the first complete new copy, if and only if none of these obstructs the search |
| `GptRecovery.RecoveryWithoutStaleHeaders` | gptfixer/gpt.c:1001-1047 | with no header of the new size on the device before the run, and entry 24 of the new table no such header, it always is |
| `GptRecovery.MbrDuringRun` | gptfixer/gpt.c:804-830 | at every moment the MBR is the old one or the corrected one |
| `GptRecovery.ToolRecovers` | gptfixer/gpt.c:990-1047 | the same for a second run of the whole tool after a crash, MBR check included; until the first copy is complete that run can start afresh |
| `GptReturn.SearchAfterRun` | gptfixer/gpt.c:1001-1020 | on a device that has its old sector size back after a run, the search leads to the new primary copy, except that for 512-byte copies it exits if and only if entry 24 of the new table or the one 4096 bytes before the end of the device reads as an unsupported header |
| `GptReturn.ToolAfterRun` | gptfixer/gpt.c:990-1020 | the same for the tool as a whole, whose MBR check passes |
| `GptReturn.RoundTripOnDevice` | gptfixer/gpt.c:990-1047 | two whole runs of the tool, there and back: the second finds the new copy, starts, completes, and leaves a primary table with the disk GUID and the original entries, cut to those there was room for |
| `Allowlist.SafeForDisplay` | qrexec-lib/unicode-allowlist-table.c:1-217 | no listed code point is a control character, a surrogate or above 0x10FFFF; all of printable ASCII is listed |
| `Utf8.ValidateChar` | qrexec-lib/unicode.c:24-106 | the switch and loop compute CharLen and never read behind the NUL |
| `Utf8.CharLenOfLoose` | qrexec-lib/unicode.c:24-106 | where the loose grammar matches, the verdict is the length, negative exactly for code points off the allowlist |
| `Utf8.CharLenOtherwise` | qrexec-lib/unicode.c:24-106 | everywhere else one byte is skipped |
| `Utf8.EncodeDecodes` | qrexec-lib/unicode.c:42-60 | the encoding of a scalar value matches the grammar of RFC 3629 and decodes to it |
| `Utf8.DecodeEncodes` | qrexec-lib/unicode.c:42-60 | every string of that grammar is the encoding of the scalar value it decodes to |
| `Utf8.LooseAndSafeIsUtf8` | qrexec-lib/unicode.c:42-60 | the loose grammar adds no allowlisted string to RFC 3629 |
| `Utf8.AcceptedIsRfc3629` | qrexec-lib/unicode.c:24-106 | a positive verdict n means the next n bytes are the RFC 3629 encoding of exactly one code point, allowlisted and not ASCII |
| `Utf8.AllowlistedIsAccepted` | qrexec-lib/unicode.c:24-106 | the encoding of every allowlisted code point outside ASCII is accepted, whatever follows |
| `Utf8.CharLenLocal` | qrexec-lib/unicode.c:24-106 | a positive verdict depends only on the bytes of the character |
| `Utf8.CharLenCovers` | qrexec-lib/unicode.c:24-106 | the bytes a verdict covers do not include the NUL, and those of a character contain no ASCII byte |
| `Display.StringSafe` | qrexec-lib/unicode.c:310-328 | the loop computes SafeFrom |
| `Display.SafeMeansAllowlistedText` | qrexec-lib/unicode.c:310-328 | a string is reported safe if and only if it is a non-empty sequence of allowlisted code points in UTF-8 |
| `Display.Sanitize` | qrexec-lib/unicode.c:330-368 | the buffer gets the kept tokens and a NUL, within the maximal length; 0 for length 0 |
| `Display.SanitizedIsLongestExactly` | qrexec-lib/unicode.c:342-363 | the output is the longest prefix of whole tokens that fits, if and only if no multi-byte token would end exactly with the last free byte |
| `Display.ExactFitIsDropped` | qrexec-lib/unicode.c:355-358 | the two bytes of U+00E9 into two free bytes give the empty string |
| `Display.TokensOfFlatten` | qrexec-lib/unicode.c:330-368 | text made of tokens that need no replacement splits into the same tokens again |
| `Display.SanitizedIsSafeAndFinal` | qrexec-lib/unicode.c:310-368 | the output is empty or reported safe, fits, and a second pass with the same limit changes nothing |
| `Display.TokensMeaning` | qrexec-lib/unicode.c:342-363 | the replacement by what stands at a position: an allowlisted character stays, any other character of the loose grammar becomes one "_", any other byte becomes a "_" |
| `Paths.ValidatePath` | qrexec-lib/unicode.c:166-239 | the loop with its index juggling computes ScanPath and never reads behind the NUL |
| `Paths.ScanMeaning` | qrexec-lib/unicode.c:166-239 | from any position, the scanner's answer is determined by the components still to come |
| `Paths.ScanPathMeetsSpecification` | qrexec-lib/unicode.c:166-239 | a path is accepted if and only if its components meet the declarative rule, and the result is the number of normal components |
| `Paths.RuleMeaning` | qrexec-lib/unicode.c:190-215 | the budget rule applied component by component is "at most budget .., all in front" |
| `Paths.FileNameMeaning` | qrexec-lib/unicode.c:251-261 | a file name is accepted if and only if it is acceptable without .. and has a normal component |
| `Paths.SymlinkMeaning` | qrexec-lib/unicode.c:270-300 | a link is accepted if and only if its name is acceptable and, with unsafe links allowed, has a component; else has at least two and the target uses at most two .. fewer than that |
| `PathFaults.ErrorHasReason` | qrexec-lib/unicode.c:166-239 | ENOLINK is reported for empty and absolute paths, and otherwise only when the .. rule is broken; EILSEQ only when characters, trailing slash or form are at fault; there is no other error |
| `PathFaults.WrapperErrors` | qrexec-lib/unicode.c:251-300 | the errors of both functions that callers use: EINVAL for unknown flags, EILSEQ for a bad name, ENOLINK for a link that is not deep enough, else the error of the target |
| `Paths.DocumentedFlagsDiffer` | qrexec-lib/unicode.c:263-268 | the version without a flags argument and the one with flags 0 differ exactly on accepted names that end in a slash |
| `Paths.DocumentedFlagsDifferOnSlash` | qrexec-lib/unicode.c:263-268 | "a/" is such a name |
| `Paths.ScanPathMonotone` | qrexec-lib/unicode.c:166-239 | more flags or a larger budget accept the same string with the same count |
| `Paths.FileNameMonotone` | qrexec-lib/unicode.c:241-261 | adding permitted flags never rejects an accepted file name |
| `Paths.SymlinkMonotone` | qrexec-lib/unicode.c:270-300 | adding permitted flags never rejects an accepted link |
| `Paths.JoinSplit` | qrexec-lib/unicode.c:166-239 | joining the components gives back the path |
| `Paths.StrictNameComponents` | qrexec-lib/unicode.c:166-239 | under the receiver's flags an accepted name is its normal components and nothing else |
| `Crc32.TableEntry` | qrexec-lib/crc32.c:53-90 | each of the 256 constants is eight bit-serial steps of its index (section 8 of RFC 1952) |
| `Crc32.BitStepsLinear` | qrexec-lib/crc32.c:95-102 | bit-serial steps distribute over exclusive or |
| `Crc32.TableStepIsSerial` | qrexec-lib/crc32.c:95-102 | one table look-up does the work of eight bit steps |
| `Crc32.ComputeBuf` | qrexec-lib/crc32.c:50-102 | the table-driven loop computes the bit-serial CRC-32 of any buffer |
| `Crc32.CrcConcat` | qrexec-lib/crc32.c:50-102 | continuing a checksum over a second buffer is the checksum of both together |
| `CrcProperties.Residue` | qrexec-lib/crc32.c:92-101 | text followed by its own checksum, least significant byte first, always has the checksum 0x2144DF1C |
| `CrcProperties.CheckValue` | qrexec-lib/crc32.c:92-101 | the checksum of "123456789" is 0xCBF43926 |
| `CrcProperties.OneByteChangeDetected` | qrexec-lib/crc32.c:92-101 | a change of one byte, anywhere, changes the checksum |
| `Wire.ParseEncodeFileHeader` | qrexec-lib/libqubes-rpc-filecopy.h:37-45 | a record header reads back as sent, whatever follows |
| `Wire.FileHeaderLayout` | qrexec-lib/libqubes-rpc-filecopy.h:37-45 | every field lies at its offset in the 32 bytes, least significant byte first |
| `Wire.MarkerIsBlank` | qrexec-lib/pack.c:45-49 | the end marker is 32 zero bytes |
| `Wire.AsCStringOf` | qrexec-lib/unpack.c:332-356 | a buffer read as a C string ends at its first NUL |
| `Unpack.StopIsFailure` | qrexec-lib/unpack.c:189-356 | every exit of a record handler has a status other than 0 |
| `Unpack.NegativeExitExactly` | qrexec-lib/unpack.c:189-356 | the exit status is negative if and only if a directory is to be made under a name that was read and refused |
| `Unpack.RefusedDirectoryExits` | qrexec-lib/unpack.c:255-266 | a stream asking for the directory "/" ends that way |
| `Unpack.RecordIsLocal` | qrexec-lib/unpack.c:332-356 | a record is judged by its own bytes alone |
| `ReceiverRules.NameRuleExactly` | qrexec-lib/unpack.c:332-342 | under the receiver's flags a name is accepted if and only if its components are proper names, of allowlisted text unless unsafe characters are allowed |
| `ReceiverRules.LinkRuleExactly` | qrexec-lib/unpack.c:290-330 | a link is accepted if and only if its name is and, unless unsafe links are allowed, its target is relative, stays below the top-level entry, is allowlisted text and canonical unless those are waived |
| `ReceiverRules.RecordAcceptedExactly` | qrexec-lib/unpack.c:189-356 | a record is accepted if and only if it is complete, of a kind that is allowed, under a proper name that is free in an accessible directory (or a second visit to a directory), within the limits, with legal times |
| `ReceiverRules.StatusHasReason` | qrexec-lib/unpack.c:189-356 | each status of a refused record names something that is at fault, number by number |
| `ReceiverRules.EndHasStatus` | qrexec-lib/unpack.c:362-393 | the status after a header cut short, the end marker, and one record too many |
| `ReceiverRules.SuccessIsSynced` | qrexec-lib/unpack.c:386-392 | a failed syncfs prevents success |
| `ReceiverRules.ChecksumOfAllRead` | qrexec-lib/unpack.c:93-100 | the checksum a successful run reports is that of all it has read |
| `ReceiverRules.FlagsHonoured` | qrexec-lib/unpack.c:332-356 | whatever is sent: without the flags no node is a link or a directory, no component and no checked link target holds anything but allowlisted text, and checked targets are canonical |
| `Unpack.RunTurn` | qrexec-lib/unpack.c:362-393 | a successful run reads the marker, or accepts a record and goes on behind it |
| `Unpack.SuccessIsLocal` | qrexec-lib/unpack.c:362-393 | any stream that begins with what a successful run has read ends the same way |
| `Unpack.SuccessReads` | qrexec-lib/unpack.c:362-393 | a successful run has read exactly up to the end marker as the framing of the stream places it |
| `Unpack.MarkerEndOfPrefix` | qrexec-lib/libqubes-rpc-filecopy.h:37-45 | a marker found by the framing stays where it is when more bytes follow |
| `Unpack.TruncationFails` | qrexec-lib/unpack.c:362-393 | no stream, whatever it contains, is a success when cut before the end of its marker |
| `Unpack.PrefixSucceedsIffMarkerRead` | qrexec-lib/unpack.c:362-393 | a prefix of a successful stream succeeds if and only if it reaches the end of the marker, as the framing places it |
| `Unpack.TrailingByteIsIgnored` | qrexec-lib/unpack.c:362-393 | a byte behind the marker changes nothing, so there a proper prefix succeeds |
| `Quota.TurnsLeadToEnd` | qrexec-lib/unpack.c:362-393 | the files a run leaves behind are those after its last record |
| `Quota.TreeBytesUpdate` | qrexec-lib/unpack.c:189-330 | how the sum of payload bytes in the tree changes when a node is put in place |
| `Quota.RecordKeepsFaithful` | qrexec-lib/unpack.c:189-330 | the account of payload bytes stays equal to the file and link bytes in the tree |
| `Quota.RecordKeepsAccount` | qrexec-lib/unpack.c:222-305 | one record keeps the relation between counter, payload, directory sizes, bytes received and limit, and never stores more than the limit |
| `Quota.BytesNeverExceedLimit` | qrexec-lib/unpack.c:222-305 | from any accounted state, the file and link bytes in the tree stay within the limit after every record |
| `Quota.QuotaHolds` | qrexec-lib/unpack.c:222-305 | in every run, at every moment, the file and link bytes in the tree do not exceed the limit, as long as directory sizes do not overflow the counter |
| `Quota.QuotaHoldsAtEnd` | qrexec-lib/unpack.c:222-305 | nor do those in the tree that a run leaves behind, however it ends |
| `Quota.FilesNeverExceedLimit` | qrexec-lib/unpack.c:369-382 | records processed stay within what the counter leaves of the limit |
| `Quota.FileQuotaHolds` | qrexec-lib/unpack.c:369-382 | in every run, no more records are processed than the limit allows; for the limit 2^64 - 1, on streams shorter than 2^64 headers |
| `Confinement.AcceptedLinkFits` | qrexec-lib/unpack.c:290-330 | an accepted link is below the top level and its target goes up at most to the top-level entry |
| `Confinement.RecordKeepsConfined` | qrexec-lib/unpack.c:332-356 | no record, accepted or refused, breaks this for the links stored |
| `Confinement.RunKeepsConfined` | qrexec-lib/unpack.c:362-393 | nor does any run, however it ends |
| `Confinement.StepStaysSafe` | qrexec-lib/unicode.c:270-300 | one step of path resolution keeps the pending .. below the current depth, all in front |
| `Confinement.FollowStaysSafe` | qrexec-lib/unicode.c:270-300 | so does any number of steps |
| `Confinement.LinksNeverEscape` | qrexec-lib/unicode.c:270-300 | after any transfer, resolving an accepted name through any number of links never leaves its top-level entry |
| `OpenDir.NextSegment` | qrexec-lib/unpack.c:160-187 | up to the next slash lies exactly the next component |
| `OpenDir.OpendirSafe` | qrexec-lib/unpack.c:154-187 | every component but the last is opened in order, the last segment is the last component, the abort is not reached, and only the slashes in front are overwritten |
| `OpenDir.AcceptedNameOpens` | qrexec-lib/unpack.c:338-342 | accepted names meet that method's precondition, and there is one open fewer than validate_path counted |
| `Receiver.Unpacker.ReadAllWithCrc` | qrexec-lib/unpack.c:93-100 | the checksum takes in exactly what was read |
| `Receiver.Unpacker.CopyPayload` | qrexec-lib/unpack.c:233-251 | payload, mode and times as specified, or a failure after an I/O error |
| `Receiver.Unpacker.ProcessReg` | qrexec-lib/unpack.c:189-252 | the regular-file handler follows the specification, for every cut of the reads |
| `Receiver.Unpacker.ProcessLink` | qrexec-lib/unpack.c:290-330 | likewise for links |
| `Receiver.Unpacker.CreateLink` | qrexec-lib/unpack.c:314-329 | validation and creation of a link in the order of the code |
| `Receiver.Unpacker.ProcessDir` | qrexec-lib/unpack.c:255-288 | likewise for directories, first and second visit |
| `Receiver.Unpacker.ProcessOneFile` | qrexec-lib/unpack.c:332-356 | the dispatch leaves the input just behind the record |
| `Receiver.Unpacker.DoUnpackExt` | qrexec-lib/unpack.c:362-393 | with short reads only, status and files are those of the specification; with any I/O errors, status 0 still implies them |
| `Pack.Sender.WriteAllWithCrc` | qrexec-lib/pack.c:35-39 | all of the bytes go out, however the writes are cut, and the running checksum is that of everything sent; or a part of them and then a failure |
| `Pack.Sender.WriteHeaders` | qrexec-lib/pack.c:137-145 | the same for header and name with its NUL, ending at the first failed write |
| `Pack.Sender.CopyPayload` | qrexec-lib/pack.c:164-183 | the same for the contents of a file, however its reads are cut |
| `Pack.Sender.SingleFile` | qrexec-lib/pack.c:151-203 | the same for one record, according to the kind of file |
| `Pack.Sender.FsWalk` | qrexec-lib/pack.c:205-239 | the recursion sends exactly Walk, a directory before and after its contents, or a part of it and then fails |
| `Pack.Sender.WalkChildren` | qrexec-lib/pack.c:222-233 | the same for the readdir loop |
| `Pack.Sender.NotifyEnd` | qrexec-lib/pack.c:41-53 | the end marker is sent and takes part in the checksum |
| `Pack.Sender.Transfer` | qrexec-lib/pack.c:205-239 | a whole transfer sends the stream of its trees with the checksum of all of it, or a part of the stream and then fails |
| `Pack.WalkAllStep` | qrexec-lib/pack.c:222-233 | the readdir loop appends one walk per entry |
| `RoundTrip.SplitJoin` | qrexec-lib/pack.c:222-233 | the components of a path built by the walk are the names along it |
| `RoundTrip.FileReceived` | qrexec-lib/unpack.c:189-252 | a sent file becomes a node with its contents, mode and times, and nothing else changes |
| `RoundTrip.LinkReceived` | qrexec-lib/unpack.c:290-330 | likewise for a sent link |
| `RoundTrip.DirOpened` | qrexec-lib/unpack.c:255-288 | the first visit to a directory creates it with mode 0700 |
| `RoundTrip.DirClosed` | qrexec-lib/unpack.c:255-288 | the second visit, with the contents in place, sets final mode and times and changes nothing else |
| `RoundTrip.WalkReceived` | qrexec-lib/pack.c:205-239 | receiving the walk of one item adds its image to the tree and spends its cost |
| `RoundTrip.WalkAllReceived` | qrexec-lib/pack.c:222-233 | receiving the walks of all entries of a directory adds all their images |
| `RoundTrip.WalkTopReceived` | qrexec-lib/pack.c:205-239 | likewise for the top-level entries |
| `RoundTrip.TreeArrives` | qrexec-lib/unpack.c:362-393 | for every tree with acceptable names and targets, within the limits: the receiver ends with exactly that tree, success, the whole stream read, and the sender's checksum |
| `Transfer.TimesArriveExactly` | qrexec-lib/pack.c:159-162 | every file and directory of a tree arrives with the times it was sent with if and only if all their seconds lie in 0 .. 2^32 - 1 |
| `Transfer.OldFileArrivesYoung` | qrexec-lib/pack.c:159-162 | a file changed at second -1 arrives as changed at second 2^32 - 1 |
| `Transfer.PartialSendFails` | qrexec-lib/unpack.c:362-393 | of what a failing sender may get out of an acceptable stream, the receiver accepts all of it and nothing less |
| `Transfer.ChangedByteIsRefused` | qrexec-lib/pack.c:101-135 | if one byte of a stream is changed on the way, the sender does not take the transfer for done, even if the receiver reports success |
| `Pack.WaitForResult` | qrexec-lib/pack.c:101-135 | a transfer is done if and only if the status is 0 and the checksum is the sender's; a quota error is passed over if and only if that is allowed |
| `IoAll.Source.ReadAll` | qrexec-lib/ioall.c:69-95 | success means exactly the requested bytes from the front of the stream, in whatever pieces they came; without failures it succeeds if and only if there are enough |
| `IoAll.Sink.WriteAll` | qrexec-lib/ioall.c:52-67 | a prefix is written, all of it exactly on success; without failures it succeeds |
| `IoAll.CopyFile` | qrexec-lib/copy-file.c:12-38 | the bytes moved are a prefix of the input, the checksum is theirs whatever the chunks, what is written is a part of them, and success or end of input mean what they say |
| `Tint.ScaleOf` | imgconverter/qubesimgconverter/__init__.py:99-114 | the denominator is in 1 .. 255 and no numerator exceeds it |
| `Tint.NothingWraps` | imgconverter/qubesimgconverter/__init__.py:137-155 | every uint32 intermediate value is in range and the divisor is positive |
| `Tint.ChannelIdeal` | imgconverter/qubesimgconverter/__init__.py:137-155 | the 32-bit computation equals floor(3m/4 + (n/dn)(255+3c)/4), chroma 255 included |
| `Tint.IdealIsByte` | imgconverter/qubesimgconverter/__init__.py:153-155 | that value lies in 0 .. 255 |
| `Tint.TintIsExact` | imgconverter/qubesimgconverter/__init__.py:96-158 | for every image and colour each output channel is that value for the same channel of the colour, and size and alpha are kept |

## Left out

- gpt.c: option parsing, ioctls, the sysfs check, reopening the device, logging and `print_gpts`.
- Writes torn within one `sync_pwrite`, and device caches: each write is one step.
- The CRC-32 of zlib used by gpt.c is a parameter, an arbitrary function from bytes to 32 bits.
- GptMain.ForeignTableStartsJob: assumes the two facts of `GptCheck.Sane`, which the code does not check.
- Quota.QuotaHolds: assumes that directory sizes, which are added unchecked, do not bring the 64-bit counter within 16384 of its end, on top of the limit or the stream length, whichever is smaller.
- Quota.FileQuotaHolds: says nothing about the limit 2^64 - 1 on a stream of 2^64 headers or more, where the counter itself wraps.
- Quota.FilesNeverExceedLimit: the same.
- Receiver.Unpacker.DoUnpackExt: with interrupted reads only the second clause holds, because copy_file treats an interrupted read as an error.
- Receiver.Unpacker.CopyPayload: the disk being written to has no failures of its own; wait_for_space is not modelled.
- RoundTrip.TreeArrives: starts from an empty directory and assumes a bound on the size reported for a directory and a successful syncfs; timestamps are compared after the cut to 32 bits.
- Pack.Sender.WriteHeaders: after a failed write the sender stops; its exit through wait_for_result is not modelled further.
- Pack.Sender.CopyPayload: files do not change between lstat and read, and their reads do not fail.
- The O_TMPFILE and linkat path of the receiver, progress callbacks, the text of error messages and `sanitize_remote_filename`.
- `qubes_pure_validate_symbolic_link`, which calls a modelled function with fixed flags.
- The ICU-based generator of the allowlist (`unicode-generator.c`): the constants of the table are transcribed as they are, and only bounds are proved about them.
- `hex_to_int` and the rest of the image converter, and the size in pixels: an image is a sequence of pixels.
- `qube-name.c`, `genfs.c`, `not-script.c`, `meminfo-writer.c`, and all shell, udev, SELinux, dracut and packaging files.
