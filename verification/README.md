# Storage and boot code of the FPGA computer: a Dafny model

This project models the storage, boot and console code that surrounds the FPGA computer, and
proves properties of the model. Everything is in the `.dfy` files of this directory;
`dafny verify dfyconfig.toml` checks it.

The parts, and the promise each one is about:

| files | what they model |
|---|---|
| `SdHost`, `SdDriver` | the polling SD block driver over a card and a controller with two bounded FIFOs, as a state machine that moves at every register access |
| `SdSelftest`, `SdRanking`, `SdCalibration`, `SdBlockDevice`, `SdRequests`, `SdSession` | the destructive self-test, the mode search with a log of its tests, the probe sequence, the request handler with its write window, and a driver in operation from probe on |
| `Grv1Format`, `Grv1Packer`, `Grv1Fifo`, `Grv1Boot`, `Grv1Bytes` | the GRV1 boot container: one format, its packer, the zero-stage bootloader (SD, through the FIFO, and flash), and the kernel's layout check |
| `D64Geometry`, `D64Layout`, `D64Readers`, `D64RoundTrip`, `D64Allocator`, `D64Builder`, `D64Bytes`, `DiskPacker`, `DriveNames`, `DriveDirectory`, `DriveCommands`, `VirtualDrive`, `DriveCases` | the D64 file system: image builder, three readers, BAM, the SID disk packer, and the virtual 1541 with its names, patterns, directory program, command channel and data channels |
| `FrameParser` | the UART frame parser of the virtual 1541 |
| `Fat16Layout`, `Fat16Builder`, `Fat16Reader`, `Fat16Bytes` | FAT16 cards with D64 files, their independent reader and the D64 sector map |
| `Regions`, `Fat32Builder`, `Fat32Directory`, `Fat32Reader`, `Fat32Bytes` | FAT32 cards with files of any sizes, and reading them by boot sector, directory and chain |
| `LoaderProgram`, `SparseLoader`, `LoaderCases`, `BasicLoader`, `BasicCases` | the sparse BASIC loader with its generated program, typed in and executed line by line, and the tokenised BASIC printer and parser |
| `TextConsole`, `RomConsole` | the hardware text console mirror, and the 6502 ROM console with interrupts between any two instructions |
| `Bytes`, `Words` | byte strings, 32-bit words, byte order |

Imperative code is modelled imperatively: classes with the source's fields, methods with its
loops, and contracts that tie each method to a specification function or predicate. The
theorems are lemmas about those, or `ensures` clauses of the methods. What the specification
functions themselves mean is stated without them in the `...Bytes` and `...Cases` modules: in
bytes, offsets and numbers that can be compared with a dump.

## The environment of the SD driver

The card is a map from block number to 128 words, and `SdHost.Host` is the only thing the
driver can touch. A read may be garbled, and then ends in a data error; words are lost when
the receive FIFO overflows, and the controller then latches the FIFO-full flag; every flag may
come at any later time or never. A CMD24, failed or not, puts its block in doubt, and a card
that is not `honest` may change any block until it is idle. An honest card changes only the
addressed block and holds the accepted data once CMD13 (card status, section 4.10.1 of the SD
Physical Layer Simplified Specification) reports it idle without an error. Assumed: reads that
end without an error flag are faithful, and a card that has passed identification is idle. The
error flag of a garbled read is up whenever its done flag is: `corrupt && dataDone ==> dataError`
holds at every moment, also after data events have been cleared on the way, as the bootloader
does (`Grv1Fifo.ReadWords`).

The clock of the host counts nanoseconds and runs on at every register access; how fast is
arbitrary. Of BASIC it is assumed that variables start at 0, that a FOR loop runs at least once,
that a line without a number from 0 to 63999 is not stored, and that no POKE hits the program or
its variables: the memory that a run changes is apart from what BASIC itself uses.

## What callers owe

The code does not check these, and the model states them as preconditions or as parts of a
theorem:

- D64 disks hold at most 126 files. `D64Builder.Builder.Build` fails beyond that, and says so.
- File names are ASCII (D64, FAT16 and FAT32) and have no zero byte. PRGs have at least the two load-address bytes.
- FAT16 cards hold at most `rootEntries` files. Without a reserved sector the FAT overwrites
  the boot sector, and the card is not readable. The FAT covers the clusters in use, not every
  cluster of the volume.
- A FAT32 card is built whatever its directory holds. A file's entry stands at its place exactly
  if this is in the root's cluster and no short filler has reached the end of the directory
  buffer (`Fat32Reader.AtPlaceIffListed`; `Fat32Reader.ListedByOptions` in terms of the options).
  Chains end only where the file ends if cluster numbers stay at or below 0FFFFFF7h. A reader that
  goes by the boot sector needs a reserved sector.
- A FAT32 card should have at least 65525 clusters. The builder does not pad smaller ones, and by
  the section "FAT Type Determination" of the FAT specification they are FAT12 or FAT16 volumes
  (`Fat32Reader.TypeOfCard` has the exact condition, `Fat32Reader.OneDiskIsFat12` an example).
- CMD_READ sizes are at least 1, because a read of size 0 reports END OF FILE
  (`VirtualDrive.EofWhenDone` has the exact condition).
- A console scrolls by at most the height of its region.
- The DATA lines of a sparse loader have non-negative numbers and leave the lines of the program
  that do more than print alone: 10, 30 to 120, 140 to 170, 190 and, unless `--no-run` is given,
  210. From `--line-start` 211 on this is so (`SparseLoader.LateLinesClear`). Losing 140, 170, 190
  or 210 loses a check or the jump, but not the copy.
- The layout check accepts only images whose three blobs are not empty
  (`SdBlockDevice.LayoutOfPackedCard` has the exact condition).
- A GRV1 header names destinations in main memory (and, in flash, sources in the window); the
  bootloader does not check it, and for lengths near 2^32 its loop bounds wrap around
  (`Grv1Boot.LoopWords`). `Grv1Boot.PackedIsLoadable` shows that packed images name such places.
- The block layer's sector count of a request is at least the number of its blocks, and the
  segments of a request do not overlap.

## Where code and documentation differ

- `asm/rom_demo.lst` says that the input area is cleared when row 24 is full. The character
  that fills the last cell is cleared at once with the rest, so typing there and erasing does
  not come back to the same place (`RomConsole.TypeThenErase`).
- The sparse loader's generator takes any `--line-start`, but its own program has the lines 10 to
  220, and in BASIC a line that is typed in replaces the one with its number.
  `SparseLoader.TypedIn` has the exact condition under which BASIC then holds it. With
  `--line-start 10 --line-step 10` it fails (`SparseLoader.StartAtTen`). A program without line 10,
  30 or 150 loads the first record only (`SparseLoader.RunFirst`).
- The option `--pad-root-entries` of the FAT32 builder means to put entries of 32 bytes before the
  files, but the first 100 of them are 31 bytes long, so that each shortens the directory buffer by
  one byte. This does no harm as long as a cluster has 33 bytes for each of them
  (`Fat32Directory.FillersFit`). With 63 fillers in a cluster of four sectors, the file's entry
  stands one byte before its place (`Fat32Reader.EntryMoved`).
- The virtual 1541 refuses a block read for sectors that the track does not have, but not for
  negative sector numbers. `DriveCommands.SectorRead` has the exact condition, and
  `DriveCommands.NegativeSector` examples.
- The BASIC printer truncates line links to 16 bits. `BasicLoader.RoundTrip` shows that the
  parser recognises exactly the programs that end at or below FFFFh.

## Model

| member | source | states |
|---|---|---|
| SdDriver.GorvSd.DrainRx | boards/tang_mega_138k/system16/linux/kernel/gorv32_sd.c:316-405 | the words drained so far are, in order and in the detected byte order, the words the controller delivered; nothing outside the block's 128 words changes |
| SdDriver.GorvSd.QueueWord | boards/tang_mega_138k/system16/linux/kernel/gorv32_sd.c:316-405 | a word is queued only after the response, as the next word of the block, so none is thrown away |
| SdDriver.GorvSd.TransferOnce | boards/tang_mega_138k/system16/linux/kernel/gorv32_sd.c:316-405 | against every schedule of the FIFOs: a 0 return of a read means the buffer holds the sector, of a write that exactly words 0 to 127 were queued and taken in order; a write is one CMD24 if the guard and the address range allow it and none otherwise |
| SdDriver.GorvSd.WaitTransferState | boards/tang_mega_138k/system16/linux/kernel/gorv32_sd.c:191-218 | a 0 return means that the card is idle and has programmed what it accepted |
| SdDriver.GorvSd.TransferOneShot | boards/tang_mega_138k/system16/linux/kernel/gorv32_sd.c:407-432 | a 0 return of a write means an idle card that holds the data; EPERM exactly when the guard refuses, ERANGE exactly when the address does not fit the card |
| SdDriver.GorvSd.TransferBlock | boards/tang_mega_138k/system16/linux/kernel/gorv32_sd.c:445-499 | a write is attempted once, whatever happens; a read never writes; a successful read returns the sector; the clock only gets slower, and not at all while calibrating; blocks and retries are counted, and a failed read has been tried three times |
| SdDriver.GorvSd.PrepareModeRetry | boards/tang_mega_138k/system16/linux/kernel/gorv32_sd.c:772-785 | success means the requested mode on an idle card, and nothing has been written |
| SdSelftest.PatternPhase | boards/tang_mega_138k/system16/linux/kernel/gorv32_sd.c:886-918 | at most one CMD24, to the scratch block; without an error a block that differs from the original has been read back from it; otherwise the card has been initialised anew, or that failed too |
| SdSelftest.RestorePhase | boards/tang_mega_138k/system16/linux/kernel/gorv32_sd.c:919-943 | at most one CMD24, to the scratch block; `verified` means that an idle card holds the original contents, and a failed restoration is an error |
| SdSelftest.WriteAndRestore | boards/tang_mega_138k/system16/linux/kernel/gorv32_sd.c:881-976 | at most two CMD24s, both to the scratch block; `verified` implies that the scratch block is as before, on any card |
| SdSelftest.WriteSelftest | boards/tang_mega_138k/system16/linux/kernel/gorv32_sd.c:816-1015 | for every card, failed writes that landed and writes that disturb other blocks included: at most two CMD24s, both to scratch; `restoreVerified` implies scratch is restored; a 0 return of an enabled test implies that a different block was read back and that scratch and the blocks 0, `write_test_lba - 1`, `write_test_lba + 1` and `root_lba + 2` hold their original contents |
| SdSelftest.MakePattern | boards/tang_mega_138k/system16/linux/kernel/gorv32_sd.c:803-814 | the pattern begins with 31545753h and the block number, and differs from the original block |
| SdSelftest.SentinelsAre | boards/tang_mega_138k/system16/linux/kernel/gorv32_sd.c:840-843 | the sentinels that are compared are the four blocks 0, scratch - 1, scratch + 1 and root + 2 |
| SdCalibration.BestResult | boards/tang_mega_138k/system16/linux/kernel/gorv32_sd.c:591-611 | the first of the entries that no valid entry beats, and -1 if there is none |
| SdCalibration.TestMode | boards/tang_mega_138k/system16/linux/kernel/gorv32_sd.c:553-589 | a 0 return means that the last reads were in this mode, without a retry or an overrun, and equal to the reference; the rate of a passed test is the whole number of KiB/s of its sectors in the microseconds, at least 1, between the two clock readings around the reads; the log grows by this one test, with mode, length, outcome, readings and its part of the transfer trace, in which a failed test shows its failure |
| SdCalibration.Sweep | boards/tang_mega_138k/system16/linux/kernel/gorv32_sd.c:651-670 | all 50 modes are tested in order, and the results are the log: a mode is a candidate exactly if its test passed, at the measured rate |
| SdCalibration.VerifyFastest | boards/tang_mega_138k/system16/linux/kernel/gorv32_sd.c:672-690 | every long run is of the best candidate without one; they end when three have passed or no candidate is left; exactly the tested entries change, to the outcome and rate of their long run; the counter equals the number of verified entries |
| SdCalibration.LongRunStep | boards/tang_mega_138k/system16/linux/kernel/gorv32_sd.c:672-690 | one long run of the best entry keeps the log in best-first order and the results in step with it |
| SdCalibration.Choose | boards/tang_mega_138k/system16/linux/kernel/gorv32_sd.c:692-722 | every recheck is of the best candidate not yet rejected; exactly the modes with a failed recheck lose their entry; the winner is the first that passes, with a clean final run as the last thing done; without a winner every candidate has failed its recheck |
| SdRanking.LastRecheckWins | boards/tang_mega_138k/system16/linux/kernel/gorv32_sd.c:692-722 | the first passed recheck is of a mode whose logged long-run rate no mode without a failed recheck beats |
| SdRanking.NoRecheckPassed | boards/tang_mega_138k/system16/linux/kernel/gorv32_sd.c:692-731 | if no recheck passed, every mode whose long run passed has a failed recheck |
| SdRanking.RateIsInKiB | boards/tang_mega_138k/system16/linux/kernel/gorv32_sd.c:584-588 | a recorded rate `q` over `us` microseconds satisfies `q * us <= sectors * 500000 < (q + 1) * us`, and no other number does |
| SdRanking.WinnerIsFastest | boards/tang_mega_138k/system16/linux/kernel/gorv32_sd.c:584-611 | no long run of a mode that was not rejected took fewer microseconds than the winner's at another whole KiB/s |
| SdRanking.FastestFirst | boards/tang_mega_138k/system16/linux/kernel/gorv32_sd.c:672-722 | rechecks go from faster to slower long runs |
| SdRanking.BetterIsFaster | boards/tang_mega_138k/system16/linux/kernel/gorv32_sd.c:591-611 | of two equal rates the one with the lower clock times lines on the wire is better |
| SdCalibration.SearchModes | boards/tang_mega_138k/system16/linux/kernel/gorv32_sd.c:651-731 | sweep, long runs and rechecks together, over one log of all tests that nothing else extends, each passed one with a clean run of its length behind it and each failed one with its failure |
| SdCalibration.AutoCalibrate | boards/tang_mega_138k/system16/linux/kernel/gorv32_sd.c:613-740 | a 0 return leaves `clockDiv == dataClockDiv` and either the mode with the best logged long-run rate of those whose recheck did not fail, after clean short, long and final runs, or, only if every mode with a passed long run failed its recheck, the 1-bit reference mode; no mode whose recheck did not fail has both taken fewer microseconds and reached another whole KiB/s in its long run than the winner; nothing is written |
| SdBlockDevice.CheckLayout | boards/tang_mega_138k/system16/linux/kernel/gorv32_sd.c:1085-1106 | EINVAL exactly when some record is empty or out of place, ERANGE exactly when the image ends less than 8192 blocks before scratch |
| SdBlockDevice.RejectedEarly | boards/tang_mega_138k/system16/linux/kernel/gorv32_sd.c:1092-1105 | one bad record makes the whole header bad, so returning at the first is right |
| SdBlockDevice.ValidateWriteTestLayout | boards/tang_mega_138k/system16/linux/kernel/gorv32_sd.c:1065-1112 | a 0 return means that the header on the card, read twice alike, ends 8192 blocks before scratch |
| SdBlockDevice.LayoutOfPackedCard | boards/tang_mega_138k/system16/linux/kernel/gorv32_sd.c:1065-1112 | on a card with a packed image the check passes if and only if no blob is empty and the image ends 8192 blocks before scratch |
| SdBlockDevice.DetectWordOrder | boards/tang_mega_138k/system16/linux/kernel/gorv32_sd.c:1017-1063 | success means that block 0 read in the chosen order starts with the magic, EINVAL that it does so in neither order; the card is left as it was |
| SdBlockDevice.ReadSelftest | boards/tang_mega_138k/system16/linux/kernel/gorv32_sd.c:742-770 | the benchmark writes nothing |
| SdBlockDevice.GuardedSelftest | boards/tang_mega_138k/system16/linux/kernel/gorv32_sd.c:1252-1266 | if any CMD24 is issued, the layout check passes for the card's own header; at most two are, both to scratch; a 0 return means that scratch and the four blocks are as before; the test is logged with its result and the card before and after |
| SdBlockDevice.ReadProperties | boards/tang_mega_138k/system16/linux/kernel/gorv32_sd.c:1193-1232 | properties are accepted exactly when the window fits below block 2^32, the divider is valid and a self-test has a read-only device and a safe layout |
| SdBlockDevice.Probe | boards/tang_mega_138k/system16/linux/kernel/gorv32_sd.c:1174-1300 | bad properties are refused before the card is touched; a successful probe leaves a driver ready in its window; probe writes at most twice, only to scratch, only to a read-only device and only if the layout check passes on the card as identification left it, which is the card as it was if that had no reason to change block 0; a self-test that is asked for has been run once |
| SdRequests.PlanBlocks | boards/tang_mega_138k/system16/linux/kernel/gorv32_sd.c:1138-1158 | exactly the blocks of the segments before the first ragged one, and all blocks if there is none |
| SdRequests.WriteBlocks | boards/tang_mega_138k/system16/linux/kernel/gorv32_sd.c:1138-1158 | one CMD24 per block in order, stopping at the first failure; on an honest card exactly the written blocks change and only the failed one is in doubt |
| SdRequests.ReadBlocks | boards/tang_mega_138k/system16/linux/kernel/gorv32_sd.c:1138-1158 | every buffer block holds what the card was known to hold |
| SdRequests.QueueRq | boards/tang_mega_138k/system16/linux/kernel/gorv32_sd.c:1114-1164 | refused requests do not touch the card, accepted ones are never refused by the final guard and act on block `root_lba + pos + i`; word by word the blocks of a request are the words of its segments' buffers, one segment after the other; a write without a failed transfer has written all blocks before the first ragged segment; unknown operations, writes to a read-only device and requests beyond the window have their own errors |
| SdRequests.BlocksAreWords | boards/tang_mega_138k/system16/linux/kernel/gorv32_sd.c:1138-1158 | the blocks of a request, word by word, are the words of its segments' buffers in order |
| SdRequests.RunKnows | boards/tang_mega_138k/system16/linux/kernel/gorv32_sd.c:1114-1164 | over every run of requests, failed ones included, an honest card holds what the requests say |
| SdRequests.ReadsLastWrite | boards/tang_mega_138k/system16/linux/kernel/gorv32_sd.c:1114-1164 | in every run a successful read returns the last successful write of its position that no later write touched |
| SdRequests.RunConfined | boards/tang_mega_138k/system16/linux/kernel/gorv32_sd.c:307-314 | no run of requests, on any card, issues a CMD24 outside the window |
| SdSession.Session | boards/tang_mega_138k/system16/linux/kernel/gorv32_sd.c:1114-1300 | probe and any requests after it: a read-only device writes nothing after probe, any other device nothing before it and then only in its window, on any card; on an honest card every successful read returns the last write of its position that no later request touched, and for a position that no request has touched what the card held after probe, unless it was still writing that block; a write takes its data from the buffers of its request and a successful read leaves it there in full, unless another request reads into the same buffers |
| Grv1Packer.SumPadded | boards/tang_mega_138k/system16/tools/make_gorv32_flash_image.py:37-63 | the running checksum is the word sum modulo 2^32 |
| Grv1Packer.Pack | boards/tang_mega_138k/system16/tools/make_gorv32_flash_image.py:37-63 | exactly the blobs that fit are packed, and the result is an image of the format: header, record table, payloads in whole blocks, checksum; each way of not fitting has its error |
| Grv1Bytes.FittingSizes | boards/tang_mega_138k/system16/tools/make_gorv32_flash_image.py:37-63 | the sizes up to which blobs fit: 3F0000h, 10000h and 3FC00000h bytes |
| Grv1Format.LayoutIsSound | boards/tang_mega_138k/system16/linux/kernel/gorv32_sd.c:1092-1107 | for an arbitrary header, acceptance implies that every record's source ends before the computed end |
| Grv1Format.LayoutOfImage | boards/tang_mega_138k/system16/linux/kernel/gorv32_sd.c:1065-1112 | the kernel computes the true end of every packed image, and accepts it exactly when no blob is empty |
| Grv1Format.ImageDescribes | boards/tang_mega_138k/system16/tools/make_gorv32_flash_image.py:37-63 | the header words of a packed image, as the bootloader and the kernel read them |
| Grv1Bytes.ImageBytes | boards/tang_mega_138k/system16/tools/make_gorv32_flash_image.py:37-63 | a packed image in bytes: `GRV1`, three records with sources at the next whole blocks, destinations 0, 3F0000h and 400000h and the lengths, the blobs there, zeros everywhere else, and the sum of all little-endian words behind the header block |
| Grv1Bytes.LayoutMeans | boards/tang_mega_138k/system16/linux/kernel/gorv32_sd.c:1085-1107 | the kernel accepts exactly the headers with the magic and 1 to 8 non-empty records, each at the next whole block behind the one before it, and their end is the first block behind the last |
| Grv1Boot.AreasDisjoint | boards/tang_mega_138k/system16/linux/zsbl/main.c:357-397 | copying whole blocks stays inside the destination's own area |
| Grv1Boot.CopyLoads | boards/tang_mega_138k/system16/linux/zsbl/main.c:357-397 | a record's copy puts its blob in place and leaves the earlier ones alone |
| Grv1Fifo.BlockComplete | boards/tang_mega_138k/system16/linux/zsbl/main.c:180-215 | 128 words and an error-free end of the data phase mean that no word was lost, although FIFO-full events are cleared on the way |
| Grv1Fifo.ReadWords | boards/tang_mega_138k/system16/linux/zsbl/main.c:160-215 | against every schedule of the FIFO, success means that the words are those of the block, in order |
| Grv1Boot.Soc.ReadBlock | boards/tang_mega_138k/system16/linux/zsbl/main.c:160-215 | a successful block read puts the card's bytes into memory, in either FIFO byte order |
| Grv1Boot.MagicTellsOrder | boards/tang_mega_138k/system16/linux/zsbl/main.c:328-356 | the magic reveals the byte order |
| Grv1Boot.Soc.SumRecords | boards/tang_mega_138k/system16/linux/zsbl/main.c:307-317 | the result is the word sum of the record destinations in memory, modulo 2^32 |
| Grv1Boot.LoadedSum | boards/tang_mega_138k/system16/linux/zsbl/main.c:307-317 | once the blobs are in place, that sum is the packer's sum over the blobs |
| Grv1Boot.PackedHeader | boards/tang_mega_138k/system16/linux/zsbl/main.c:357-363 | a packed image shows its own header words, whatever byte order the FIFO has |
| Grv1Boot.Soc.TrySd | boards/tang_mega_138k/system16/linux/zsbl/main.c:328-397 | for an arbitrary card and header: without a valid header memory stays as it was, and whatever boots with its records in memory has the header's checksum there; a packed image boots exactly when no read fails, with every blob intact at its destination although whole blocks are copied |
| Grv1Boot.Soc.TryFlash | boards/tang_mega_138k/system16/linux/zsbl/main.c:399-425 | the same for the flash window, where a packed image always boots |
| Grv1Boot.PackedIsLoadable | boards/tang_mega_138k/system16/tools/make_gorv32_flash_image.py:37-63 | every packed image names only destinations in main memory and sources on its medium |
| Grv1Bytes.LoadedBytes | boards/tang_mega_138k/system16/linux/zsbl/main.c:357-397 | after a boot the blobs are in memory at 0, 3F0000h and 400000h, byte for byte |
| Grv1Bytes.AreaBytes | boards/tang_mega_138k/system16/linux/zsbl/main.c:307-317 | the sum over the memory of a record is that of its bytes, rounded up to whole words |
| Grv1Bytes.MemoryBytes | boards/tang_mega_138k/system16/linux/zsbl/main.c:307-317 | the sum of a header adds up its records |
| Grv1Bytes.HeaderSeen | boards/tang_mega_138k/system16/linux/zsbl/main.c:328-356 | a card shows a header exactly if its first bytes are `GRV1` in one of the two orders, and then all words are seen in this order |
| Grv1Bytes.LoopCounts | boards/tang_mega_138k/system16/linux/zsbl/main.c:328-425 | the loops cover a record's words and blocks, except for lengths of almost 4 GB, where they do nothing |
| D64Geometry.IndexBijection | tools/d64/d64_common.py:50-72 | positions on the disk and indices below 683 correspond one to one, and every other position is rejected |
| D64Geometry.AtMost683 | tools/d64/d64_common.py:50-72 | a set of positions on the disk has at most 683 members (the pigeonhole for the chain readers) |
| D64Readers.FollowChain | tools/d64/extract_prg.py:33-52 | the loop is the recursive reading of the chain |
| D64Readers.FollowPrgChain | tools/virtual_1541/c64_1541_uart_gui.py:202-224 | the loop with its seen set is the recursive reading of the chain |
| D64Readers.EndsWithin683 | tools/d64/extract_prg.py:33-52 | a chain that ends visits no sector twice, so it ends within the limit |
| D64Readers.LimitIsExact | tools/d64/extract_prg.py:33-52 | the 683-block limit fails exactly the chains that never end |
| D64Readers.ChainReadersAgree | tools/virtual_1541/c64_1541_uart_gui.py:202-224 | on every full image and start both readers return the same bytes or both fail, except for the load-address check |
| D64Readers.ListSector | tools/d64/list_d64.py:53-86 | the entries of a directory sector, in slot order |
| D64Readers.IterEntries | tools/d64/list_d64.py:53-86 | the lister returns the directory chain's entries, or the loop or sector error it meets |
| D64Allocator.HandOut | tools/d64/create_test_d64.py:63-77 | the n-th allocated block is the n-th data sector in index order, and no other sector becomes used |
| D64Allocator.OneOwner | tools/d64/create_test_d64.py:72-88 | no data sector belongs to two files |
| D64Allocator.FreeSum | tools/virtual_1541/c64_1541_uart_gui.py:334-337 | the BAM's free counts sum to the data blocks never handed out and the free directory sectors |
| D64Layout.BamExact | tools/d64/create_test_d64.py:146-177 | a track's free byte is the population count of its bitmap, and a bit is set exactly when the sector is free |
| D64Builder.Builder.AllocBlocks | tools/d64/create_test_d64.py:72-88 | blocks come in index order, and the request fails exactly when they do not fit |
| D64Builder.Builder.AddPrg | tools/d64/create_test_d64.py:80-103 | a file is added exactly when its blocks fit, and every earlier file keeps its chain |
| D64Builder.Builder.WriteDirectory | tools/d64/create_test_d64.py:118-144 | the directory chain holds the entries in order, and fails exactly beyond 126 files |
| D64Builder.BamEntry | tools/d64/create_test_d64.py:146-177 | a track's four bytes are the count and the bits of its free sectors |
| D64Builder.Builder.Build | tools/d64/create_test_d64.py:179-185 | the image stores every file, lists and reads back as the added files, and its BAM accounts for every sector; the title is TESTDISK, and every sector that no file, the directory or the BAM has is zero |
| D64Bytes.DataOrder | tools/d64/create_test_d64.py:63-78 | data blocks go through the sectors of track 1 to 35 in order, without track 18 |
| D64Bytes.ChainSector | tools/d64/create_test_d64.py:80-103 | a file sector has the position of the next one and 254 bytes; the last one has 0, the number of its last byte, the rest and zeros |
| D64Bytes.EntryIs | tools/d64/create_test_d64.py:105-115 | a directory entry: 82h, first sector, name, zeros, block count |
| D64Bytes.DirectoryBytes | tools/d64/create_test_d64.py:118-144 | the entry of file `i` is in sector 18/1 + `i`/7, at 2 + 32 times `i` modulo 7 |
| D64Bytes.DirectoryRest | tools/d64/create_test_d64.py:118-144 | directory sectors are linked in order, end with 0 and FFh, and have zeros behind their entries |
| D64Bytes.BitMeans | tools/d64/create_test_d64.py:152-166 | bit `s` of a BAM byte is the one with the weight 2 to the power of `s` |
| D64Bytes.BitsCounted | tools/d64/create_test_d64.py:152-166 | the population count of a byte is the number of its bits that are set |
| D64Builder.ChainsOwnSectors | tools/d64/create_test_d64.py:63-177 | in a built image a data sector's BAM bit is clear exactly when the chain of some listed file visits it, and no two chains meet |
| D64Builder.BuiltReadable | tools/d64/create_test_d64.py:80-185 | stored chains and directory make the lister and both chain readers return the files |
| D64Builder.BuiltAccounted | tools/d64/create_test_d64.py:146-185 | the BAM bit of a sector is set exactly when nobody owns it, and free blocks, BAM, directory and files add up to 683 |
| D64Builder.DataSectorOwners | tools/d64/create_test_d64.py:63-103 | every used data sector has exactly one owner |
| D64RoundTrip.ChainIsBlocks | tools/d64/create_test_d64.py:80-103 | the chain of a stored file visits its own blocks and no other data sector |
| D64RoundTrip.StoredReads | tools/d64/extract_prg.py:33-52 | a stored file is returned byte for byte by both chain readers |
| D64RoundTrip.EntryDecodes | tools/d64/list_d64.py:53-86 | an entry is listed with its upper-cased 16-character name, type PRG, closed, and its block count |
| D64RoundTrip.DirectoryReads | tools/d64/list_d64.py:53-86 | the lister yields exactly the added files, in order |
| DiskPacker.BlocksAgree | tools/build_sid_disks.py:75-78 | the packer's block count is what the builder allocates |
| DiskPacker.PackDisks | tools/build_sid_disks.py:123-153 | every PRG lands on exactly one disk in input order and is read back from it; with a file cap of at most 126 this succeeds exactly when each PRG fits an empty disk |
| VirtualDrive.Drive.ReadChannel | tools/virtual_1541/c64_1541_uart_gui.py:443-458 | data, position, status and reply; the drive's status is END OF FILE exactly when nothing is left, and the protocol's result also for size 0; channel 15 returns the status line |
| VirtualDrive.Drive.OpenChannel | tools/virtual_1541/c64_1541_uart_gui.py:408-436 | a buffer, the directory program or the file that the name means becomes the channel's data and the status OK; writing, an unknown name and a broken chain leave the channels alone, each with its own result and status; on channel 15 the name is a command |
| VirtualDrive.Drive.DosCommand | tools/virtual_1541/c64_1541_uart_gui.py:359-406 | each command string has its effect on channels and status, and block commands without their numbers or off the disk are errors |
| VirtualDrive.Drive.WriteChannel | tools/virtual_1541/c64_1541_uart_gui.py:460-465 | channel 15 takes commands, any other is write protected |
| DriveCommands.NumberReadsBack | tools/virtual_1541/c64_1541_uart_gui.py:551-560 | a decimal number in a command is read back |
| DriveCommands.BlockParsed | tools/virtual_1541/c64_1541_uart_gui.py:551-573 | a block read command gives back its channel, track and sector |
| DriveCommands.SectorRead | tools/virtual_1541/c64_1541_uart_gui.py:514-522 | a block read succeeds exactly for an existing track and a sector number that is not too large; for a number from 0 up it gives that sector |
| DriveCommands.NegativeSector | tools/virtual_1541/c64_1541_uart_gui.py:514-522 | sector -1 of track 18 is the last of track 17, and that of track 1 is empty |
| VirtualDrive.BlockReadReads | tools/virtual_1541/c64_1541_uart_gui.py:359-406 | a block read command followed by a READ returns the sector |
| DriveCommands.NegativeSectors | tools/virtual_1541/c64_1541_uart_gui.py:514-522 | for a negative number, the sector that many before the first of the track, counted on from the end of the disk; nothing for -1 in front of track 1 |
| DriveCases.PlainCommands | tools/virtual_1541/c64_1541_uart_gui.py:366-380 | initialising forgets all channels, UJ does so and shows who the drive is, V only says OK; in small letters as well |
| DriveCases.NoSector | tools/virtual_1541/c64_1541_uart_gui.py:382-387 | a block read of a sector that is not there is error 66 with its numbers |
| DriveCases.NoNumbersGiven | tools/virtual_1541/c64_1541_uart_gui.py:562-581 | block commands without numbers are error 30 |
| DriveCases.RefusedCommands | tools/virtual_1541/c64_1541_uart_gui.py:398-406 | writing commands, memory reads and unknown commands leave the channels alone, each with its status |
| DriveCases.PointerMoves | tools/virtual_1541/c64_1541_uart_gui.py:389-396 | after a buffer pointer command the next READ of the channel begins at that byte of its data, or of 256 zeros if it was not open |
| DriveCases.NumberSigns | tools/virtual_1541/c64_1541_uart_gui.py:551-560 | numbers may have a sign, but only 0 may have leading zeros |
| DriveCases.HexReadsBack | tools/virtual_1541/c64_1541_uart_gui.py:551-560 | hexadecimal numbers are read back |
| DriveCases.Underscores | tools/virtual_1541/c64_1541_uart_gui.py:551-560 | single underscores may stand between digits |
| DriveCases.NumbersBehindColon | tools/virtual_1541/c64_1541_uart_gui.py:551-560 | numbers may follow a colon and be separated by commas |
| DriveCases.StatusTexts | tools/virtual_1541/c64_1541_uart_gui.py:344-346 | number and text of every status line |
| DriveCases.TwoDigitsShown | tools/virtual_1541/c64_1541_uart_gui.py:344-346 | numbers below 100 have two digits |
| DriveCases.ChannelCases | tools/virtual_1541/c64_1541_uart_gui.py:438-465 | CLOSE forgets one channel; READ of a closed one and WRITE are refused; channel 15 gives the status line |
| DriveCases.OpenCases | tools/virtual_1541/c64_1541_uart_gui.py:420-423 | OPEN of `#` gives a buffer of 256 zeros |
| DriveCases.UnknownName | tools/virtual_1541/c64_1541_uart_gui.py:430-434 | OPEN of a name that no entry has is error 62 and leaves the channels alone |
| DriveNames.WholeSpec | tools/virtual_1541/c64_1541_uart_gui.py:408-436 | a name without punctuation means itself, of any loadable type, and `$` the directory |
| DriveCases.TypedSpec | tools/virtual_1541/c64_1541_uart_gui.py:529-549 | `drive:name,type,mode` means this name, type and mode, with type and mode in either order |
| DriveCases.ModeBehind | tools/virtual_1541/c64_1541_uart_gui.py:425-428 | `,W` and `,A` behind a name are refused with error 26, and `,R` changes nothing |
| DriveCases.TypeBehind | tools/virtual_1541/c64_1541_uart_gui.py:492-509 | a type behind a name leaves only the files of this type |
| DriveCases.QuotedName | tools/virtual_1541/c64_1541_uart_gui.py:227-238 | zeros, spaces, shifted spaces and quotes around a name are dropped |
| DriveCases.OneCharacter | tools/virtual_1541/c64_1541_uart_gui.py:227-238 | visible characters and shifted spaces are characters of a name, other bytes are not |
| DriveNames.FindLoadEntry | tools/virtual_1541/c64_1541_uart_gui.py:492-509 | for `*` the first entry of an allowed type, otherwise the first with exactly the name, and only without one the first that the pattern matches |
| DriveNames.FindMeans | tools/virtual_1541/c64_1541_uart_gui.py:492-509 | an entry is found if and only if one of an allowed type is meant: any for `*`, one with exactly the name, or one that the pattern matches; an exact name goes before a pattern, and the first before later ones |
| DriveNames.PrefixPattern | tools/virtual_1541/c64_1541_uart_gui.py:504-507 | the pattern `NAME*` matches exactly the names that begin with `NAME` |
| DriveCases.StarBetween | tools/virtual_1541/c64_1541_uart_gui.py:504-507 | `A*B` matches exactly what begins with A and ends, behind it, with B |
| DriveCases.AnyCharacters | tools/virtual_1541/c64_1541_uart_gui.py:504-507 | a question mark matches any one character |
| DriveCases.SetMatches | tools/virtual_1541/c64_1541_uart_gui.py:504-507 | a set in brackets matches its characters |
| DriveCases.OtherMatches | tools/virtual_1541/c64_1541_uart_gui.py:504-507 | with an exclamation mark, the other ones |
| DriveCases.RangeMatches | tools/virtual_1541/c64_1541_uart_gui.py:504-507 | a range matches what lies between its ends |
| DriveCases.BracketMatches | tools/virtual_1541/c64_1541_uart_gui.py:504-507 | a bracket directly behind the opening one belongs to the set |
| DriveNames.OwnName | tools/virtual_1541/c64_1541_uart_gui.py:492-509 | on a built disk a listed name finds its file if and only if no earlier file has the same listed name |
| DriveDirectory.MakeBasicPrg | tools/virtual_1541/c64_1541_uart_gui.py:241-252 | the loop prints the linked program, and fails exactly if an address or a line number needs more than 16 bits |
| DriveDirectory.BuiltDirectory | tools/virtual_1541/c64_1541_uart_gui.py:326-337 | the directory of a built disk is a program that parses into one line for each file and two more, and its last number is what files, directory and BAM leave of 683 |
| DriveCases.OuterLines | tools/virtual_1541/c64_1541_uart_gui.py:326-332 | the first line of a built disk's directory is `"TESTDISK" 00 2A`, and the last has the number of free blocks |
| DriveCases.FileLine | tools/virtual_1541/c64_1541_uart_gui.py:326-332 | the line of a file has its block count, its name in quotes and PRG |
| DriveCases.ProgramExactly | tools/virtual_1541/c64_1541_uart_gui.py:241-252 | the directory program exists if and only if its addresses and line numbers have 16 bits |
| VirtualDrive.OpensOwnName | tools/virtual_1541/c64_1541_uart_gui.py:408-436 | a file of a built disk is opened by its listed name |
| VirtualDrive.BuiltDirectoryOpens | tools/virtual_1541/c64_1541_uart_gui.py:408-436 | opening `$` on a built disk gives that program |
| VirtualDrive.RunValid | tools/virtual_1541/c64_1541_uart_gui.py:408-470 | over every run of commands, every channel's read position stays inside its data |
| VirtualDrive.ReadsInOrder | tools/virtual_1541/c64_1541_uart_gui.py:443-458 | however reads are cut, and whatever happens on other channels, they return the file in order |
| VirtualDrive.EofWhenDone | tools/virtual_1541/c64_1541_uart_gui.py:699-712 | CMD_READ reports END OF FILE exactly when everything has been returned, or for size 0 |
| VirtualDrive.BuiltFileReads | tools/virtual_1541/c64_1541_uart_gui.py:408-458 | a file of a built disk, opened by its listed name and read to the end, comes back byte for byte |
| FrameParser.SerialWorker.Consume | tools/virtual_1541/c64_1541_uart_gui.py:865-910 | the incremental parser emits what the reference parser finds and keeps its residue; every iteration shrinks the buffer or returns |
| FrameParser.SerialWorker.Receive | tools/virtual_1541/c64_1541_uart_gui.py:851-863 | a received chunk adds exactly the events that the reference parser finds in residue and chunk, and leaves its residue |
| FrameParser.ParseAppend | tools/virtual_1541/c64_1541_uart_gui.py:865-910 | parsing a stream in two parts is parsing it at once |
| FrameParser.JunkTruncated | tools/virtual_1541/c64_1541_uart_gui.py:903-910 | dropping the front of more than 512 junk bytes changes at most the text line they end in |
| FrameParser.ChunkIndependent | tools/virtual_1541/c64_1541_uart_gui.py:851-910 | any way of cutting the stream gives the events of the whole stream, up to truncated junk lines |
| FrameParser.ChunkingsAgree | tools/virtual_1541/c64_1541_uart_gui.py:851-910 | two ways of cutting one stream give the same binary and bad-checksum frames |
| FrameParser.RequestsArrive | tools/virtual_1541/c64_1541_uart_gui.py:865-932 | encoded requests arrive exactly, in order, however they are cut |
| FrameParser.CompleteRequest | tools/virtual_1541/c64_1541_uart_gui.py:865-900 | a complete request of at most 4096 bytes is emitted as its frame if and only if its last byte is congruent to the sum of command, length and payload bytes modulo 256, and as a wrong checksum otherwise |
| FrameParser.ChangedRequest | tools/virtual_1541/c64_1541_uart_gui.py:865-900 | a request with one changed command, payload or checksum byte is reported as wrong |
| FrameParser.NoRequest | tools/virtual_1541/c64_1541_uart_gui.py:865-910 | what the parser does with a buffer that begins with no request |
| FrameParser.OtherRequest | tools/virtual_1541/c64_1541_uart_gui.py:865-900 | a request that is too long loses its first byte, an incomplete one is waited for |
| Fat16Layout.ShortNameVisible | tools/d64/make_fat16_d64_card.py:36-42 | a short name never looks like the end of the directory or a deleted file |
| Fat16Bytes.NameWithDot | tools/d64/make_fat16_d64_card.py:36-42 | a name is split at its last dot, made upper case, filtered, cut and padded |
| Fat16Bytes.NameWithoutDot | tools/d64/make_fat16_d64_card.py:36-42 | a name without a dot is a stem without an extension |
| Fat16Bytes.NameCharacters | tools/d64/make_fat16_d64_card.py:36-42 | letters, digits and four signs stay in a stem, letters and digits in an extension |
| Fat16Bytes.UpperLetters | tools/d64/make_fat16_d64_card.py:36-42 | exactly the small letters are changed |
| Fat16Builder.Builder.AddFile | tools/d64/make_fat16_d64_card.py:138-148 | exactly the D64-sized files with a free short name are accepted |
| Fat16Builder.Builder.BuildFat | tools/d64/make_fat16_d64_card.py:180-191 | the table is one linear chain per file and zero elsewhere |
| Fat16Builder.Builder.Build | tools/d64/make_fat16_d64_card.py:150-271 | a card is built exactly when the files fit, the cluster count is that of FAT16 and the fields fit, also without a reserved sector; it holds FATs, directory and data in place, and the boot sector if it has a sector of its own |
| Fat16Bytes.BuildableMeans | tools/d64/make_fat16_d64_card.py:150-178 | when a card is built, in terms of the options |
| Fat16Bytes.Places | tools/d64/make_fat16_d64_card.py:163-236 | where FATs, directory entries and files are, in terms of the options |
| Fat16Bytes.DefaultHolds | tools/d64/make_fat16_d64_card.py:116-178 | the default card takes exactly up to 184 files |
| Fat16Bytes.DefaultStart | tools/d64/make_fat16_d64_card.py:116-178 | its first file is at block 2083 |
| Fat16Bytes.FatWords | tools/d64/make_fat16_d64_card.py:184-195 | the two reserved words, the chain of a file, and zeros behind the last |
| Fat16Bytes.EntryBytes | tools/d64/make_fat16_d64_card.py:226-233 | a directory entry byte for byte |
| Fat16Builder.DataBases | tools/d64/make_fat16_d64_card.py:241-252 | file data lies behind the directory, one file after the other |
| Fat16Builder.ClustersInVolume | tools/d64/make_fat16_d64_card.py:171-178 | every used cluster is a cluster of the volume |
| Fat16Reader.ListD64 | tools/test_c64_sd_hook.py:56-98 | the independent reader lists exactly the files with a D64 name, in order, at their start blocks |
| Fat16Reader.DataOnCard | tools/d64/make_fat16_d64_card.py:241-271 | the file's bytes lie at the start block |
| Fat16Reader.SectorOnCard | tools/d64/d64_common.py:95-104 | the block and half of a D64 position hold that sector of the image, and exactly the positions on the disk have one |
| Fat16Reader.ChainIsFile | tools/d64/make_fat16_d64_card.py:180-191 | following a file's chain in any FAT copy returns the file, padded to whole clusters |
| Fat16Reader.ChainsDisjoint | tools/d64/make_fat16_d64_card.py:154-159 | different files have no cluster in common |
| Fat16Reader.HookKeepsCard | tools/d64/make_fat16_d64_card.py:339-349 | embedding the boot hook leaves every file where it was |
| Fat16Bytes.HookFits | tools/d64/make_fat16_d64_card.py:334-342 | the hook is embedded at block 8 if and only if it ends before the partition |
| Regions.AssembleReads | tools/d64/make_fat32_card.py:157-193 | regions written one behind the other are all read back, and the rest of the buffer is as before |
| Fat32Builder.VolumeAscends | tools/d64/make_fat32_card.py:77-96 | FAT copies, root directory and the files' clusters follow one another without overlap behind the reserved sectors, and the volume ends with the last cluster |
| Fat32Builder.Builder.BuildFat | tools/d64/make_fat32_card.py:98-109 | the table has the reserved entries, one linear chain per file and zero elsewhere, for files of any sizes |
| Fat32Builder.Builder.BuildRoot | tools/d64/make_fat32_card.py:111-155 | the directory buffer for any entries: every entry written at its place, short fillers shrink it and entries behind its end grow it |
| Fat32Directory.RootHasEntries | tools/d64/make_fat32_card.py:111-155 | every entry up to which no short one has reached the end of the buffer is at its place in the root's cluster, and after the last, if there is room, the mark of the end |
| Fat32Directory.FilesInRow | tools/d64/make_fat32_card.py:111-155 | the files' entries stand one behind the other, from their place on if and only if no filler has reached the end of the buffer |
| Fat32Directory.FillersFit | tools/d64/make_fat32_card.py:111-155 | in terms of the options: if and only if there are no fillers, or a cluster has 32 bytes for each entry before them and 33 for each short filler |
| Fat32Builder.Builder.Build | tools/d64/make_fat32_card.py:73-236 | a card is built exactly when every number fits its field, for any directory and any number of reserved sectors, and it holds FATs, directory and data in place, and the boot sector if it has a sector of its own |
| Fat32Bytes.BootBytes | tools/d64/make_fat32_card.py:159-181 | the boot sector byte for byte |
| Fat32Bytes.MbrBytes | tools/d64/make_fat32_card.py:199-212 | the partition table byte for byte |
| Fat32Bytes.FatSectorsAre | tools/d64/make_fat32_card.py:86-96 | a FAT has as many sectors as the clusters need, or as many as are forced |
| Fat32Bytes.FirstClusters | tools/d64/make_fat32_card.py:73-84 | files begin at cluster 3, one behind the other |
| Fat32Bytes.Places | tools/d64/make_fat32_card.py:88-197 | where FATs and clusters are, in terms of the options |
| Fat32Bytes.EntryBytes | tools/d64/make_fat32_card.py:145-156 | a directory entry byte for byte |
| Fat32Bytes.NameWithDot | tools/d64/make_fat32_card.py:31-38 | a name is split at its last dot, made upper case, cut and padded |
| Fat32Bytes.NameWithoutStem | tools/d64/make_fat32_card.py:31-38 | a name with nothing in front of its last dot is a stem as a whole |
| Fat32Bytes.FieldsFitMeans | tools/d64/make_fat32_card.py:159-212 | when a card is built, field by field |
| Fat32Reader.BootSays | tools/d64/make_fat32_card.py:160-179 | with a reserved sector, the addresses computed from the boot sector are those of the FATs and of cluster 2 |
| Fat32Reader.TypeOfCard | tools/d64/make_fat32_card.py:77-96 | by the cluster count the card is FAT32 if and only if root and files need 65525 clusters |
| Fat32Reader.OneDiskIsFat12 | tools/d64/make_fat32_card.py:77-96 | a card with one D64 file is FAT12 by that count |
| Fat32Reader.LinkOnCard | tools/d64/make_fat32_card.py:98-109 | every FAT copy on the card links a file's clusters in order and ends the chain at its last |
| Fat32Reader.ChainIsFile | tools/d64/make_fat32_card.py:77-109 | following a file's chain in any FAT copy gives the file, padded to whole clusters, as long as its cluster numbers are no end-of-chain marks |
| Fat32Reader.ChainsDisjoint | tools/d64/make_fat32_card.py:77-85 | different files have no cluster in common, and none has the root's |
| Fat32Reader.AtPlaceIffListed | tools/d64/make_fat32_card.py:111-193 | on the card a file's place has its entry if and only if it is in the root's cluster and no filler has reached the end of the buffer |
| Fat32Reader.ListedByOptions | tools/d64/make_fat32_card.py:111-155 | that condition in terms of the options |
| Fat32Reader.EntryMoved | tools/d64/make_fat32_card.py:111-193 | with 63 fillers and one file in a cluster of four sectors, the entry stands one byte before its place, and its place does not have it |
| Fat32Reader.FileReadsBack | tools/d64/make_fat32_card.py:73-236 | a listed file, looked up by its directory entry, read along its chain and cut to the stated size, comes back byte for byte |
| SparseLoader.SplitSparseRuns | tools/bin_to_basic_loader_checksums.py:41-66 | runs are ascending pieces of the image, and a byte is left out exactly when it lies in a long enough span of filler bytes |
| SparseLoader.ChunkRuns | tools/bin_to_basic_loader_checksums.py:69-74 | chunks are ascending, at most a line long, and cover what the runs cover |
| LoaderProgram.DataTyped | tools/bin_to_basic_loader_checksums.py:189-203 | whatever lines they replace, the stored DATA lines are read in the order of their numbers |
| LoaderProgram.IntactButLost | tools/bin_to_basic_loader_checksums.py:154-203 | after the file has been typed in, every line of the program that does more than print is in place but for those whose numbers DATA lines have, and nothing else interferes |
| LoaderProgram.CompleteIffClear | tools/bin_to_basic_loader_checksums.py:154-203 | after the file has been typed in, BASIC holds the whole program, the jump included, and its data if and only if the DATA lines have line numbers and none of them is that of a line that does more than print |
| LoaderProgram.Advance | tools/bin_to_basic_loader_checksums.py:158-187 | every loader line that has not been lost has its effect, a lost one has none, and execution goes on at the next one, whatever DATA lines stand between them |
| LoaderProgram.EndsOnce | tools/bin_to_basic_loader_checksums.py:158-187 | a run of a listing ends in at most one way |
| SparseLoader.LoadRecord | tools/bin_to_basic_loader_checksums.py:163-175 | one record is copied, the conditional subtractions compute the sums modulo 256, and the loop is what the lines 40 to 120 do |
| SparseLoader.RunLoader | tools/bin_to_basic_loader_checksums.py:160-187 | the BASIC program, run line by line, stops at the first record with a wrong checksum, or for a wrong size or total, and otherwise copies every record and jumps; without line 140, 170, 190 or 210 only that check or the jump is missing |
| SparseLoader.RunFirst | tools/bin_to_basic_loader_checksums.py:160-184 | if a DATA line has replaced line 10, 30 or 150, the program loads the first record only: it stops with a size error, or with an error at line 150 if 30 is missing, or well if 150 is missing and there is only one record |
| SparseLoader.VerdictLoaded | tools/bin_to_basic_loader_checksums.py:174-182 | it ends well if and only if every checksum, the size and the total are right, as far as their checks have not been lost |
| SparseLoader.OneByteNoticed | tools/bin_to_basic_loader_checksums.py:174-176 | one changed address, payload or checksum byte is noticed |
| SparseLoader.Generate | tools/bin_to_basic_loader_checksums.py:95-206 | a file is generated exactly for the valid options, images and last line numbers; it is the program and then one numbered DATA line for each chunk and one for the total |
| SparseLoader.TypedIn | tools/bin_to_basic_loader_checksums.py:154-203 | in terms of `--line-start`, `--line-step` and the number of records: which lines BASIC holds, whether the program ends with the jump, that it has the data if and only if `--line-start` is not negative, and that it holds the whole program if and only if no DATA line number is negative or that of a line that does more than print |
| SparseLoader.LateLinesClear | tools/bin_to_basic_loader_checksums.py:107-108 | from line 211 on, and with `--no-run` from 191 on, no DATA line can replace a line that matters |
| SparseLoader.StartAtTen | tools/bin_to_basic_loader_checksums.py:107-108 | `--line-start 10 --line-step 10` loses exactly line 10 already for a single record |
| SparseLoader.CopyIsImage | tools/bin_to_basic_loader_checksums.py:41-74 | over filler-initialised memory, copying the chunks is copying the image |
| SparseLoader.LoadGenerated | tools/bin_to_basic_loader_checksums.py:95-206 | generating a file, typing it in and running it is a plain copy of the image that ends with the jump, or without it for `--no-run`, if the DATA lines have numbers and replace at most checks and the jump; if they replace exactly line 10, 30 or 150, it copies the first record only; BASIC holds the whole program exactly if no number is that of a line that does more than print |
| LoaderCases.VectorsDropped | tools/bin_to_basic_loader_checksums.py:81-93 | with `--drop-vectors` exactly the bytes for addresses below FFFAh are left, and without it all |
| LoaderCases.Listed | tools/bin_to_basic_loader_checksums.py:148-187 | the statements of the program by line number |
| LoaderCases.DataLine | tools/bin_to_basic_loader_checksums.py:189-200 | a DATA line has low and high byte of the address, the count, the bytes and a byte congruent to their sum |
| LoaderCases.CheckMeans | tools/bin_to_basic_loader_checksums.py:171-173 | a record is right if and only if its last byte is congruent to the sum of the others |
| LoaderCases.Faults | tools/bin_to_basic_loader_checksums.py:158-187 | reading behind the DATA, writing behind the memory and NEXT without a loop are errors |
| LoaderCases.TotalLine | tools/bin_to_basic_loader_checksums.py:189-203 | the last DATA line has the sum of all bytes modulo 256 |
| LoaderCases.VerdictStops | tools/bin_to_basic_loader_checksums.py:171-182 | a run stops at the first record with a wrong checksum, then for a wrong size, then for a wrong total |
| LoaderCases.CoveredMeans | tools/bin_to_basic_loader_checksums.py:41-74 | an address is covered if some run has a byte for it |
| BasicLoader.BasicPrg | tools/d64/make_c64_basic_testdisk.py:29-52 | the two loops print the linked program text |
| BasicCases.LineIsPrinted | tools/d64/make_c64_basic_testdisk.py:29-52 | a line: address of the next, number, body, zero |
| BasicCases.ProgramIsPrinted | tools/d64/make_c64_basic_testdisk.py:29-52 | the program: its lines, each where the link before it says, and two zeros |
| BasicLoader.ParseBasicCall | tools/upload_monitor_hex.py:158-172 | the first CALL token with an operand |
| BasicLoader.CallIsRead | tools/upload_monitor_hex.py:158-172 | a token, any number of spaces and the decimal digits of a number are a call to that number |
| BasicLoader.NoCall | tools/upload_monitor_hex.py:158-172 | there is a call if and only if a token is followed, behind spaces, by a digit |
| BasicLoader.ParseBasicLoader | tools/upload_monitor_hex.py:175-210 | the parser, whose position strictly increases on any input |
| BasicCases.ProgramParses | tools/upload_monitor_hex.py:175-210 | lines from position to position, as their links say, each with a zero in it, and a zero link are parsed: length, first call and number of lines |
| BasicCases.ParsedIsProgram | tools/upload_monitor_hex.py:175-210 | nothing else is |
| BasicCases.CallIsFirst | tools/upload_monitor_hex.py:175-210 | the call is that of the first line that has one |
| BasicLoader.ParsePrinted | tools/upload_monitor_hex.py:175-210 | a printed program below 64K gives back its length, line count and first CALL, whatever follows it |
| BasicLoader.RoundTrip | tools/upload_monitor_hex.py:175-210 | print and parse round-trip if and only if the program ends at or below FFFFh |
| BasicLoader.UploadIsImage | tools/upload_monitor_hex.py:213-235 | an upload contains exactly the image bytes outside the gap between BASIC and CALL target |
| BasicCases.SplitExactly | tools/upload_monitor_hex.py:213-235 | an image is split if and only if it begins with a program whose call goes behind it and into the image |
| BasicLoader.PrintedIsSplit | tools/upload_monitor_hex.py:213-235 | a printed program with machine code behind it is uploaded as these two parts |
| TextConsole.Console.Clear | boards/tang_mega_138k/system16/linux/kernel/s16text_con.c:75-82 | exactly the given cells are erased |
| TextConsole.Console.Putcs | boards/tang_mega_138k/system16/linux/kernel/s16text_con.c:90-97 | exactly the given cells are written |
| TextConsole.Console.DoScroll | boards/tang_mega_138k/system16/linux/kernel/s16text_con.c:110-146 | the shadow buffer is scrolled despite the overlap, the affected lines are redrawn, and a mirrored display stays mirrored |
| TextConsole.Console.Run | boards/tang_mega_138k/system16/linux/kernel/s16text_con.c:75-146 | after every sequence of puts, clears and scrolls the display shows the VT layer's buffer, and the buffer is the one the sequence specifies |
| TextConsole.TextStays | boards/tang_mega_138k/system16/linux/kernel/s16text_con.c:90-146 | a text that was put stays where it is over every sequence of operations that do not touch it |
| TextConsole.ScrolledLine | boards/tang_mega_138k/system16/linux/kernel/s16text_con.c:110-146 | every line is moved by `nr` lines, erased, or left alone |
| RomConsole.Tick | asm/rom_demo.lst:400-439 | any number of interrupts changes only the handler's own cells and port, and the clock in row 8 keeps showing the tick counter |
| RomConsole.ClearInput | asm/rom_demo.lst:531-563 | rows 9 to 24 are blank, the cursor is home, nothing else has changed |
| RomConsole.NewLine | asm/rom_demo.lst:467-488 | the next row, or an empty screen after the last row |
| RomConsole.Backspace | asm/rom_demo.lst:491-524 | the previous cell is blanked and becomes the cursor position, except at the top left |
| RomConsole.PutChar | asm/rom_demo.lst:446-525 | for every character, with interrupts between any two instructions, screen and cursor are those of a 16 by 40 terminal, and no memory outside rows 9 to 24, the cursor bytes and the handler's own cells changes |
| RomConsole.Machine.MainLoop | asm/rom_demo.lst:147-154 | so it is for every received byte sequence |
| RomConsole.TypeThenErase | asm/rom_demo.lst:446-525 | a character and a backspace restore the cursor over a blank exactly when the screen was not cleared |
| RomConsole.TextAppears | asm/rom_demo.lst:446-525 | printable characters appear one after the other from the cursor on |
| RomConsole.ControlCharacters | asm/rom_demo.lst:446-525 | line ends, backspaces and other control characters, and the end of the screen |
| RomConsole.InterruptsCount | asm/rom_demo.lst:400-439 | the handler counts interrupts, and every 256th changes the light and shows the upper counter |
| RomConsole.HexShown | asm/rom_demo.lst:400-439 | the clock has hexadecimal digits |
| RomConsole.Arithmetic | asm/rom_demo.lst:446-563 | addition and subtraction with the carry as the ninth bit |
| RomConsole.Storing | asm/rom_demo.lst:400-563 | which cell, counter or register a store to each address changes |

## Left out

- FAT32 cards have no independent reader in the repository: `Fat32Reader` is a reader that goes by the format.
- Tk windows, drive sounds, settings, pyserial, subprocess scripts, VHDL emitters and font data: user interface and input/output.
- MMIO timing, interrupt masking, logging, the block and VT layers and the registration with them: replaced by nondeterministic progress and by the preconditions above.
- Card identification: it succeeds or fails, and writes nothing. Its command loops are not modelled.
- The words of the self-test pattern behind the first two: their generator is arbitrary, only the difference to the original block matters.
- Grv1Boot.Soc.TrySd: any header is accepted, as in the code, but a store outside main memory has no effect in the model and a load from there gives any word. The bootloader's own variables are on-chip and not part of this memory.
- Grv1Boot.Soc.TryFlash: the same; a load from outside the flash window gives any word.
- VirtualDrive.Drive.OpenChannel: a disk is mounted, and the texts that go with error results are left out.
- D64Builder.Builder.AddPrg: names that are not ASCII are not modelled.
- Fat16Reader.ListD64: lists the 11-byte short names, not their display form.
- SparseLoader.Generate: lines are statements and DATA values, not text, and a line that only prints has no effect; BASIC numbers are integers.
- TextConsole.Console.Run: the VT layer stores its own puts and clears, as the driver expects of it; its cursor and palette are not modelled.
- RomConsole.PutChar: the stack page is not modelled. The interrupt handler's saving of A and X is taken as what PHA and PLA do.
- TextConsole.Console.DoScroll: the VT layer's width is the hardware's width.
- SdSelftest.WriteSelftest: the card is idle when the test starts, as it is after identification.
- SID player assembly text, image quantising, keyboard tables, selector tables and the news feed tool: large tables or heuristics that would add easy members.
