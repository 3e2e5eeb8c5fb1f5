# A model of xburst-tools in Dafny

xburst-tools starts Ingenic XBurst systems over USB and programs their NAND flash. This project
models five parts of it and proves what they keep, what they lose, and when:

- **NAND programming**, from `nand_program_file` on the host to the JZ4740 and JZ4760 drivers.
  A chip is a sequence of blocks of pages of bytes: erasing sets a block to 0xff, programming ands
  into a page, and every status that will be read is part of the chip, so that a statement about
  every chip is a statement about every pattern of failures. The error-correcting engines are
  parameters with a stated contract (`RsCode.Sound`): an undamaged sector is reported clean, at
  most four damaged data symbols are reported faithfully, an erased sector is clean or
  uncorrectable.
- **The stage-2 USB transport**: a host that sends packets, requests and takes answers, and the
  polling driver `udc4740Proc`, as a state machine whose every step is one access of either side
  to the shared FIFOs and interrupt bits. A run is any list of choices between the two.
- **The ELF kernel loader** of jzboot: segments, initial ramdisk, argument block and the patched
  MIPS trampoline, as bytes in the target's memory and as instructions executed from it.
- **The jzboot shell**: the compressed flex tables, the match loop over them, the actions of the
  rules, and the command loop.
- **The PLL search** of the JZ4760 first stage, and the clock code that reads its result.

Code that changes things step by step is a class or a method with the source's loops (`Driver`,
`Driver60`, `Host`, the USB `Driver`, `Handle`, `Loader`, `Scanner`, `Context`, the correction
switches, the trampoline patching, the cutting of the command line, the PLL loops). Each is proved
against a function that says what it computes, and the lemmas are about those functions.

Integer widths are modelled where they matter: addresses, byte counts and the PLL's products wrap
at 2^32; page numbers and buffer offsets are unbounded.

## Where to begin

| Part | Main results |
|---|---|
| NAND | `FlashFile.FileIsStored`, `Programming.ProgramLands`, `Flashing.FlashAll`, `LostFiles.FileReadIff`, `WhateverFails.SafeIff`, `HostFlash.HostStoresFile`, `NandSpec.WalkComposes`, `Erasing.EraseTries`, `Erasing.Erase60Delivers`, `Restart60.Program60LandsWhole`, `ReadResult.FinishReads`, `Flash.BadMeans`, `RsCode.DamagedSectorReadsBack`, `BchCode.NamedBitsRestored`, `BchCode.PackedCorrection` |
| USB | `Progress.LoadFinishes`, `StatusStage.LoadIsSafe`, `Transport.RequestRunsInOrder`, `Overtaking.EarlyIffRacy`, `LostRequests.StuckIff`, `BulkAnswer.AnswerInOrder` |
| Loader | `ElfLoader.KernelLoads`, `ElfLoader.KernelStarts`, `ElfSuccess.KernelLoadsIff`, `ElfSuccess.StageTwoIsSpared`, `ElfLoader.RamdiskIsPassedIff`, `Trampoline.TrampolineRuns` |
| Shell | `ShellLexer.Scanner.YyLex`, `Scripts.ScriptRuns`, `Quoting.QuoteReadsBack`, `Shell.PrintedRunsBack` |
| PLL | `Pll.PllCalc`, `Pll.BestOfAll`, `Pll.ClockIsNear`, `Pll.AnswersExactly` |

## What does not hold

Some things one would expect are not true of the code. Each has a lemma that shows it, and a
theorem for exactly the cases in which the code does what it should.

- The error word of a NAND read does not say that some sector was lost: a corrected sector behind
  it clears the word (`Buffers.LostIsForgotten`). It is set exactly when a sector was lost and none
  behind it was corrected (`ReadResult.WordMeans`).
- `nand_program_file` erases only as many blocks as the file needs. After a failed page the restart
  can go on into a block that was not erased, and the file is lost while the call reports success
  (`WhateverFails.FileIsLost`, `WhateverFails.PageIsLost`). After a call, the file is read back
  exactly when each transfer that landed behind the erased range reads back over what its block held
  before (`LostFiles.FileReadIff`). Before a call, the file is safe whatever fails exactly when every
  transfer reads back over each block behind the range that failures can drive it into
  (`WhateverFails.SafeIff`), so on every chip whose good blocks from the start on are erased
  (`WhateverFails.SafeOnErasedChip`).
- The forced erase that cleans up after a failed page on the JZ4760 goes on to the next block when
  it fails itself, whatever is in that block, and can turn a bad block into a good one
  (`Nand4760.ForcedEraseSpills`); it stays in its block exactly when it does not fail
  (`Nand4760.ForcedEraseStays`). The payload lands whole all the same
  (`Restart60.Program60LandsWhole`).
- A request can be lost for good, since at full speed `udc4740Proc` reads and drops the interrupt
  register once more at its end (`LostRequests.LaterRequestIsLost`). Exactly the programs with a
  request behind another operation can hang, and exactly at full speed (`LostRequests.StuckIff`);
  `ingenic_load_sdram` is one for any data (`LostRequests.LoadHangsIff`). An answer of many packets
  can be cut short in the same way (`BulkAnswer.AnswerHangsIff`). What does come to an end has been
  carried out as it should (`StatusStage.LoadIsSafe`, `BulkAnswer.AnswerInOrder`).
- If the controller also interrupts at the end of a request's status stage, a request that uses the
  buffer can overtake the packet sent before it (`Overtaking.ConfigureOvertakes`). This happens in
  some interleaving exactly in programs where the request comes directly behind one to three
  packets, at full speed one or two, and these behind another operation (`Overtaking.EarlyIffRacy`,
  `Overtaking.RacyGoesWrong`); all others, such as what `ingenic_load_sdram` sends, are carried out
  as if in order (`StatusStage.CalmProgramsAreSafe`).
- A quoted string that is empty or ends in a backslash does not read back (`Quoting.QuoteReadsBack`).
- The kernel is not always told of the ramdisk that was loaded for it. The list of arguments ends at
  the first missing one, and an empty quoted command line is a missing one: the ramdisk's place and
  size are passed if and only if a command line is given (`ElfLoader.RamdiskIsPassedIff`).

## Where the sources disagree

- The comment in `pll_calc_m_n_od` allows 50 MHz behind the input divider; the code allows 15 MHz,
  and the model follows the code.
- The JZ4760 headers of the two loaders disagree on which half of a BCH error register holds the
  even-numbered report; the model follows the one that the modelled file includes
  (usbboot/xburst_include/target/jz4760.h:3868-3871).

## Model

| member | source | states |
|---|---|---|
| RsCode.SymbolStart | usbboot/xburst_stage2/nandflash_4740.c:396-403 | the byte and the shift computed from a symbol number are where bit 9(idx-1) of the little-endian bit stream lies: symbol after symbol, nine bits each, without gaps |
| RsCode.FixPair | usbboot/xburst_stage2/nandflash_4740.c:405-411 | the two bytes have exactly the nine bits at the shift exclusive-ored with the mask |
| RsCode.RsCorrect | usbboot/xburst_stage2/nandflash_4740.c:394-415 | in place, for every symbol number from 1 to 455: two bytes change by the shifted mask and nothing else in the buffer does |
| RsCode.RsCorrectInSector | usbboot/xburst_stage2/nandflash_4740.c:394-415 | seen from its 512-byte sector the call adds the mask of the symbol; everything outside the sector is kept |
| RsCode.CorrectionBits | usbboot/xburst_stage2/nandflash_4740.c:394-415 | bit n of the sector is inverted if and only if it lies in the named symbol and its mask bit is set |
| RsCode.MaskOfPermuted | usbboot/xburst_stage2/nandflash_4740.c:490-502 | the order in which the error registers report the symbols does not matter |
| RsCode.CorrectionUndoesDamage | usbboot/xburst_stage2/nandflash_4740.c:490-502 | applying the reported corrections, in any order, to a sector damaged in those symbols gives the sector back |
| RsCode.DamageBits | usbboot/xburst_stage2/nandflash_4740.c:489-502 | any list of reports, register values repeated or not: a bit of the sector is inverted if and only if an odd number of the reports name it |
| RsCode.CorrectReg | usbboot/xburst_stage2/nandflash_4740.c:491-498 | one case of the fall-through switch corrects one register and leaves the rest to be done |
| RsCode.CorrectSector | usbboot/xburst_stage2/nandflash_4740.c:489-502 | the switch applies the first errcnt registers for counts 1 to 4, nothing otherwise, and never touches a byte outside the sector |
| RsCode.DamagedSectorReadsBack | usbboot/xburst_stage2/nandflash_4740.c:468-505 | a sector stored with its parity and damaged in at most four distinct data symbols is delivered as it was written |
| RsCode.ErasedSectorReadsBack | usbboot/xburst_stage2/nandflash_4740.c:470-487 | an erased sector is delivered as 0xff |
| Flash.MarkBadVerdicts | usbboot/xburst_stage2/nandflash_4740.c:215-254 | marking a block makes nand_check_block report it bad in both detection modes and changes no other verdict |
| Flash.MarkedBlockIsBad | usbboot/xburst_stage2/nandflash_4740.c:707-761 | the page or pages that are zeroed are pages that the check looks at |
| Flash.BadMeans | usbboot/xburst_stage2/nandflash_4740.c:215-254 | in page and byte numbers: with bad_block_page at or above ppb a block is bad if and only if one of the first two spare bytes of page 0, 1, ppb - 2 or ppb - 1 is not 0xff; otherwise if and only if spare byte bad_block_pos of page bad_block_page is not 0xff |
| Flash.MarkingMeans | usbboot/xburst_stage2/nandflash_4740.c:707-761 | in page numbers: which pages end as zeros, the first two and the last two or the one bad-block page, and that every other page of the block is kept |
| Flash.ErasedBlockIsGood | usbboot/xburst_stage2/nandflash_4740.c:215-254 | an erased block passes the check in both modes |
| Flash.ProgramKeepsVerdict | usbboot/xburst_stage2/nandflash_4740.c:215-254 | programming a page whose image leaves the mark bytes at 0xff never changes the verdict on its block |
| PageFormat.ImageReadsBack | usbboot/xburst_stage2/nandflash_4740.c:433-528 | for each of the three formats: what nand_read delivers for a page is what was given to nand_program, up to the parity bytes the format defines |
| PageFormat.ErasedPageReadsBack | usbboot/xburst_stage2/nandflash_4740.c:548-577 | a chunk of 0xff is skipped by nand_program, and the page left erased reads back as that chunk |
| PageFormat.DamagedDataDecoded | usbboot/xburst_stage2/nandflash_4740.c:462-508 | a page damaged by at most four symbols in each sector decodes to the page that was stored |
| PageFormat.AgedPageReadsSame | usbboot/xburst_stage2/nandflash_4740.c:462-525 | the bytes delivered for such a page, spare bytes included, are those delivered before the damage |
| PageFormat.NoOobKeepsMark | usbboot/xburst_stage2/nandflash_4740.c:662-674 | a NO_OOB page never touches a mark byte, provided the mark bytes lie outside bytes 2 to 4 and the parity |
| PageFormat.ImageParityByte | usbboot/xburst_stage2/nandflash_4740.c:613-674 | byte k of the parity that the engine returns for sector j lies at spare byte ecc_pos + 9j + k |
| PageFormat.ImageOtherByte | usbboot/xburst_stage2/nandflash_4740.c:605-674 | the data is the chunk's, and every spare byte outside the parity is the image's own, or without spare bytes in the image 0 at bytes 2 to 4 and 0xff elsewhere |
| PageFormat.SectorDelivered | usbboot/xburst_stage2/nandflash_4740.c:462-508 | what a read delivers for sector j, from the engine's report on that sector and the nine spare bytes from ecc_pos + 9j: the first errcnt reports corrected for counts 1 to 4, and otherwise the raw bytes, also of a sector that is given up |
| PageFormat.SpareDelivered | usbboot/xburst_stage2/nandflash_4740.c:510-525 | each spare byte as stored, except 0xff in place of the parity for OOB_NO_ECC |
| NandSpec.WalkOrder | usbboot/xburst_stage2/nandflash_4740.c:433-442 | each visited page is the next page of a good block after the one before it: nothing is left out or visited twice |
| NandSpec.WalkComposes | usbboot/src/cmd.c:494-513 | a request for a + b pages visits what a request for a and then one for b from the returned page visit, and ends where the second ends; this is what feeding the end page into the next transfer relies on |
| NandSpec.WalkSkips | usbboot/xburst_stage2/nandflash_4740.c:436-442 | starting at a run of bad blocks is starting behind it |
| NandSpec.ReadComposes | usbboot/src/cmd.c:494-513 | the same composition for the bytes that nand_read delivers |
| NandSpec.AttemptInBlock | usbboot/xburst_stage2/nandflash_4740.c:548-702 | a pass over at most a block from a good block stays in that block |
| Programming.LandsNow | usbboot/xburst_stage2/nandflash_4740.c:548-705 | a pass without failure puts the payload whole into the first good block and changes no other block |
| Programming.ProgramLands | usbboot/xburst_stage2/nandflash_4740.c:548-698 | under any pattern of program and erase failures a request of at most a block of pages ends with the payload whole in the first block from the start that is still good, every block before it bad, no other good block touched, the returned page right behind the payload, and one spare erased block used for each failure |
| PageSequence.AttemptFollowsWalk | usbboot/xburst_stage2/nandflash_4740.c:556-577 | a pass of nand_program programs exactly the pages that the walk of nand_read visits |
| PageSequence.ProgramFollowsRead | usbboot/xburst_stage2/nandflash_4740.c:693-705 | without failures nand_program returns the page that nand_read returns for the same start and count |
| Flashing.ReadLanded | usbboot/xburst_stage2/nandflash_4740.c:433-530 | reading from where the request started delivers the payload, past any blocks that were marked meanwhile, and ends where the request ended |
| Flashing.FlashOne | usbboot/src/cmd.c:268-376 | one transfer programmed, read back and compared: the check passes and no block is condemned |
| Flashing.FlashAll | usbboot/src/cmd.c:494-533 | all transfers of an image, each started at the page the one before returned: reading from the start page delivers the whole image; blocks before the start, blocks that were bad and blocks behind the range are untouched |
| Erasing.EraseTries | usbboot/xburst_stage2/nandflash_4740.c:318-344 | plane count 1, force off, any bad marks and failures: the call stays on the chip if and only if enough good blocks are left; it then stops exactly when that many formerly good blocks have been tried, so the blocks passed beyond that number are the bad ones, which is what the host prints; each tried block that did not fail is erased, and nothing outside the range changes |
| Erasing.Erase60Delivers | usbboot/xburst_stage2/nandflash_4760.c:382-412 | plane count 1, force off, any bad marks and failures: exactly the requested number of good erased blocks lie in the range that was passed, every other block there is marked bad, and enough good blocks suffice for the call to stay on the chip |
| Erasing.EraseStops | usbboot/xburst_stage2/nandflash_4740.c:310-350 | any plane count, forced or not, any marks and failures: the call ends at the first block that is not below the start plus the number asked for plus a plane count for every block passed over, and runs off the chip exactly when there is none |
| Erasing.EraseLeaves | usbboot/xburst_stage2/nandflash_4740.c:318-344 | any plane count, forced or not: a block passed over, like every block outside the range, is as it was, and every other one is erased or marked bad |
| Erasing.Erase60Rounds | usbboot/xburst_stage2/nandflash_4760.c:382-412 | any plane count, forced or not: the call ends behind one block for every one asked for and a plane count more for every block passed over and every failure, and leaves the blocks in the same way |
| ImageFile.NoOobStorable | usbboot/xburst_stage2/nandflash_4740.c:651-674 | every NO_OOB image can be stored without touching a mark byte, and reads back as itself |
| ImageFile.StorableReadsBack | usbboot/xburst_stage2/nandflash_4740.c:433-530 | every page of a storable image, programmed or left erased, reads back as expected |
| ImageFile.AgedVerdict | usbboot/xburst_stage2/nandflash_4740.c:215-254 | correctable damage to the data of a block does not change the verdict of nand_check_block |
| ImageFile.AgedReadsSame | usbboot/xburst_stage2/nandflash_4740.c:433-530 | every read of a chip with at most four damaged symbols in each sector delivers the bytes and the end page it delivered before |
| Buffers.FlagMeans | usbboot/xburst_stage2/nandflash_4740.c:431-488 | the error word of a read is set if and only if some lost sector has no corrected sector after it |
| Buffers.LostIsForgotten | usbboot/xburst_stage2/nandflash_4740.c:485-488 | a lost sector followed by a corrected one is reported as success |
| ReadResult.WordMeans | usbboot/xburst_stage2/nandflash_4740.c:431-488 | from the engine's reports and the stored bytes: the error word of a read is set if and only if the engine gives up on some sector of a visited page one of whose nine parity bytes is not 0xff, and reports corrections for no sector read after it |
| Buffers.FinishIsWalk | usbboot/xburst_stage2/nandflash_4740.c:433-530 | the read loop from any intermediate state delivers exactly the pages of the walk behind what is already there, ends where the walk ends, and leaves the bytes behind it alone |
| ReadResult.FinishReads | usbboot/xburst_stage2/nandflash_4740.c:422-531 | a read whose buffer has room ends as the walk ends: its page is returned, the bytes of the walk's pages lie in the buffer with nothing else changed, and the error word is the one just described |
| Nand4740.Driver.ReadOob | usbboot/xburst_stage2/nandflash_4740.c:352-392 | the spare bytes of the page in oob_buf |
| NandSpec.WriteBlockPages | usbboot/xburst_stage2/nandflash_4740.c:588-684 | a run of images programmed into a block ands each image into its page and leaves every other page alone |
| Nand4740.Driver.CheckBlock | usbboot/xburst_stage2/nandflash_4740.c:215-254 | which spare bytes decide: one of eight that are not 0xff on the first two and the last two pages, or the one byte of the one bad-block page; the verdict is the one that erase, programming and walk use |
| Nand4740.Driver.MarkBlockBad | usbboot/xburst_stage2/nandflash_4740.c:739-761 | the pages the detection mode names are zeroed, nothing else changes |
| Nand4740.Driver.EraseTurn | usbboot/xburst_stage2/nandflash_4740.c:318-344 | one round of the erase loop is one step of its specification |
| Nand4740.Driver.EraseRound | usbboot/xburst_stage2/nandflash_4740.c:318-344 | a round leads from block to block, or has run off the chip |
| Nand4740.Driver.Erase | usbboot/xburst_stage2/nandflash_4740.c:310-350 | the loop with its moving bound computes EraseFrom: chip and returned page |
| Nand4740.Driver.SendPage | usbboot/xburst_stage2/nandflash_4740.c:600-674 | the bytes sent to the chip for a page are its image in the format that was asked for |
| Nand4740.Driver.ProgramPass | usbboot/xburst_stage2/nandflash_4740.c:556-702 | one pass over the pages computes Attempt |
| Nand4740.Driver.CleanUp | usbboot/xburst_stage2/nandflash_4740.c:685-689 | forced erase and marking of the block of the failed page |
| Nand4740.Driver.ProgramOnce | usbboot/xburst_stage2/nandflash_4740.c:548-698 | a pass and, if it fails, the clean-up before the jump to restart |
| Nand4740.Driver.Program | usbboot/xburst_stage2/nandflash_4740.c:533-705 | the loop over the restarts computes Program, for every start page that is not a boot page |
| Nand4740.Driver.ReadSector | usbboot/xburst_stage2/nandflash_4740.c:462-508 | a sector is read into the caller's buffer and corrected there in place, and its verdict is lost exactly when the engine gives up and a parity byte is not 0xff |
| Nand4740.Driver.ReadSectors | usbboot/xburst_stage2/nandflash_4740.c:462-508 | all sectors of a page, and the error word |
| Nand4740.Driver.ReadSpare | usbboot/xburst_stage2/nandflash_4740.c:510-525 | the spare bytes as the format asks for them, parity blanked for OOB_NO_ECC |
| Nand4740.Driver.ReadPage | usbboot/xburst_stage2/nandflash_4740.c:443-528 | a whole page into the buffer |
| Nand4740.Driver.Read | usbboot/xburst_stage2/nandflash_4740.c:422-531 | returns the page that the walk ends at, with the bytes of its pages in the buffer, and sets the error word if and only if the engine gives up on a sector of those pages with a parity byte other than 0xff and corrects none read after it; or runs off the chip exactly when the walk does |
| FlashFile.RequestsCarryFile | usbboot/src/cmd.c:481-532 | the transfers together carry the file followed by zeros up to a page, in ceil(len / page) pages and one transfer to a block |
| FlashFile.RequestAt | usbboot/src/cmd.c:490-532 | transfer number i carries the i-th block's worth of the file, and the last one what is left with its padding |
| FlashFile.PaddingMeans | usbboot/src/cmd.c:516-520 | padding adds zeros only, and no more than the next multiple of the page size needs |
| FlashFile.BlocksMean | usbboot/src/cmd.c:461-466 | the blocks erased for a file are as many as hold it, and not one more |
| FlashFile.SendingStores | usbboot/src/cmd.c:435-541 | erase and transfers on a chip with any bad blocks and no failures: the image can be read from the start page, the blocks written are good blocks erased in the same call, and the call fails if and only if too few good blocks are left |
| FlashFile.FileIsStored | usbboot/src/cmd.c:435-541 | flashing any file as a plain image from a block-aligned page with any bad blocks, force off, plane count 1 and no failures: reading ceil(len / page) pages from the start delivers the file padded with zeros; only good blocks of the erased range are written; failure means exactly that too few good blocks are left |
| FlashFile.StoredWithSpares | usbboot/src/cmd.c:494-533 | under any failures while programming the file is stored if the range holds an erased good block for each transfer and one more for each failure |
| FlashFile.FileSurvivesAgeing | usbboot/xburst_stage2/nandflash_4740.c:462-508 | a stored file is still delivered after at most four symbols have been damaged in each sector |
| Landing.RequestLands | usbboot/xburst_stage2/nandflash_4740.c:548-698 | any chip, whatever its blocks hold, any program and erase failures: a request of at most a block that returns has been programmed whole into one good block at or behind the start, over what was there; every block it passed is bad, and all others are untouched |
| Landing.LandedReads | usbboot/xburst_stage2/nandflash_4740.c:433-530 | such a request is read back from where it started, up to where it ended, if and only if each of its pages, anded into the page that was there, is read as it should be |
| Landing.CheckLands | usbboot/src/cmd.c:268-376 | the host's check on top of that: the block is condemned exactly when the pages do not read back and the transfer filled the block |
| Landing.ImageReadsIff | usbboot/src/cmd.c:494-533 | all transfers of an image, on any chip and under any failures, with the blocks they landed in: each was good, holds the pages over what was there or was condemned by the check, and every block passed on the way is bad; reading from the start up to the returned page gives the image if and only if every transfer reads back over the block it landed in |
| LostFiles.StoredWhole | usbboot/xburst_stage2/nandflash_4740.c:676-684 | pages written into a block that is not erased are stored whole if and only if no page asks for a bit that the block has lost |
| LostFiles.RequestStoredIff | usbboot/xburst_stage2/nandflash_4740.c:548-698 | so the pages of a request that returned are in the chip as they were sent if and only if none asks for a bit that the block it landed in had lost |
| LostFiles.RequestReadIff | usbboot/xburst_stage2/nandflash_4740.c:433-698 | and they are read back if and only if each page over what was there is read as it should be |
| LostFiles.FileReadIff | usbboot/src/cmd.c:435-541 | when nand_program_file returns, on any chip, with any block contents, any program and erase failures and either force flag: with the chip its erase left and the blocks its transfers then landed in, the file is read from the start page if and only if every transfer that landed behind the erased range reads back over what its block held before the call |
| LostFiles.SafeInsideRange | usbboot/src/cmd.c:461-541 | in particular whenever the returned page lies inside the erased range |
| WhateverFails.LandsExposed | usbboot/src/cmd.c:461-533 | whatever fails, the i-th of n transfers lands behind the erased range only in the j-th good block there with room for the others behind it, and with j > i only if a transfer up to it has a page that can fail |
| WhateverFails.DriveInto | usbboot/src/cmd.c:461-533 | and for each such pair there are failures that drive it there |
| WhateverFails.SafeIff | usbboot/src/cmd.c:435-541 | plane count 1, either force flag, from the block contents alone: the file is read back after every call that returns, whatever programs and erases fail, if and only if every transfer would be read over each block behind the erased range that it can be driven into |
| WhateverFails.SafeOnErasedChip | usbboot/src/cmd.c:435-541 | so it is, for any plane count, when every good block from the start on is erased before the call |
| WhateverFails.FileIsLost | usbboot/src/cmd.c:435-541 | the call reports success and the file cannot be read: any file of less than a block whose first sector has five bytes that are not zero, no two adjacent and the first not 0xff, from any block behind the boot pages, on a chip with an erased block there and a block in use behind it, when the first page fails |
| WhateverFails.PageIsLost | usbboot/src/cmd.c:435-541 | a concrete such file: one page of ones |
| ImageFile.FlatInjective | usbboot/src/cmd.c:225-248 | equal bytes mean equal pages, so comparing the buffers compares the pages |
| HostFlash.Host.ErrorCheck | usbboot/src/cmd.c:225-248 | true if and only if the bytes are the ones read back |
| HostFlash.Host.Erase | usbboot/src/cmd.c:378-433 | refusal of numbers above the limit without touching the chip; otherwise the device's erase |
| HostFlash.Host.ReadBackCheck | usbboot/src/cmd.c:318-356 | the comparison holds if and only if the read-back pages are the programmed ones |
| HostFlash.Host.MarkIfWrong | usbboot/src/cmd.c:356-365 | a mismatch condemns the block of the last page, and only if the transfer ended with a block |
| HostFlash.Host.ProgramCheck | usbboot/src/cmd.c:268-376 | program, read back, compare, mark: chip and next start page are those of the specification |
| HostFlash.Host.SendTransfer | usbboot/src/cmd.c:503-510 | the returned page becomes the start of the next transfer |
| HostFlash.Host.CountBlocks | usbboot/src/cmd.c:481-487 | quotient and size of the full transfers |
| HostFlash.Host.PadTail | usbboot/src/cmd.c:515-521 | the last transfer is filled with zeros up to a page |
| HostFlash.Host.SendBlocks | usbboot/src/cmd.c:494-513 | the loop over the full transfers, with start and offset moving along |
| HostFlash.Host.SendTail | usbboot/src/cmd.c:515-537 | the last, shorter transfer |
| HostFlash.Host.SendFile | usbboot/src/cmd.c:493-537 | the chip after all transfers is that of the specification; a transfer size the device refuses is refused before anything is programmed |
| HostFlash.Host.EraseForFile | usbboot/src/cmd.c:461-480 | the erase that precedes the transfers, for the number of blocks the file needs |
| HostFlash.Host.ProgramFile | usbboot/src/cmd.c:435-541 | the whole call: refusals and what they leave on the chip, erase, transfers, and the answer |
| HostFlash.HostStoresFile | usbboot/src/cmd.c:435-541 | what the answer means when nothing fails: the call leaves the chip, which is what the model's error stands for, if and only if the chip has too few good blocks; otherwise the file can be read from the start page while earlier and bad blocks are unchanged |
| Nand4760.Driver60.EraseOrMark | usbboot/xburst_stage2/nandflash_4760.c:391-412 | a failed erase marks its block and extends the loop |
| Nand4760.Driver60.Erase | usbboot/xburst_stage2/nandflash_4760.c:371-419 | the loop whose bound grows computes EraseFrom60: chip and returned page |
| Nand4760.ForcedEraseStays | usbboot/xburst_stage2/nandflash_4760.c:1153-1157 | the forced erase of one block that succeeds touches that block only |
| Nand4760.ForcedEraseSpills | usbboot/xburst_stage2/nandflash_4760.c:399-409 | for any plane count: when it fails the loop goes on to the next block and erases that, whatever is in it, and a block that was marked bad comes out erased and good |
| Nand4760.RestartsAlike | usbboot/xburst_stage2/nandflash_4760.c:984-1160 | from any page but the first: while the erases that clean up succeed, the restarts of nand_program_4760 do to the chip what those of the JZ4740 do, for any images and any program failures |
| Restart60.CleanUpEnds | usbboot/xburst_stage2/nandflash_4760.c:1153-1157 | the clean-up after a failed page, with any erase failures: the failed block and every further block whose erase failed are bad, the block behind them is erased, and nothing else has changed |
| Restart60.Program60LandsWhole | usbboot/xburst_stage2/nandflash_4760.c:984-1160 | plane count 1, from any block but the first, any program failures and any failures of the erases that clean up: given one erased good block more than failures, a request of at most a block lands whole in one block, every block from the start up to it is bad, and no block outside is touched |
| BchCode.BchCorrect | usbboot/xburst_stage2/nandflash_4760.c:282-289 | in place: bit index - 1 of the sector is flipped and nothing outside the sector changes; indices behind the sector change nothing |
| BchCode.FlipBit | usbboot/xburst_stage2/nandflash_4760.c:282-289 | bit n of the stream changes if and only if the index is n + 1 |
| BchCode.FlipAllBit | usbboot/xburst_stage2/nandflash_4760.c:674-737 | bit n ends up inverted once for every report that names it |
| BchCode.DistinctReports | usbboot/xburst_stage2/nandflash_4760.c:663-737 | distinct reports change exactly the bits they name |
| BchCode.FlipAllPermuted | usbboot/xburst_stage2/nandflash_4760.c:663-737 | the order of the reports does not matter |
| BchCode.PackedReports | usbboot/xburst_stage2/nandflash_4760.c:674-733 | for every list of at most 24 positions from 1 to 0x1fff and all contents of the other bits: registers that hold the even-numbered ones from bit 16 on and the odd-numbered ones from bit 0 on give back exactly that list |
| BchCode.PackedCorrection | usbboot/xburst_stage2/nandflash_4760.c:663-737 | and with distinct positions in the registers the correction inverts exactly the data bits listed |
| BchCode.Case | usbboot/xburst_stage2/nandflash_4760.c:664-735 | one case of the switch does one report |
| BchCode.Register | usbboot/xburst_stage2/nandflash_4760.c:664-735 | the two cases of one error register, the odd-numbered report first |
| BchCode.CorrectSector | usbboot/xburst_stage2/nandflash_4760.c:663-737 | the fall-through switch applies exactly the first errcnt reports for every count from 0 to 24 and nothing for larger counts; for whatever distinct positions were packed into the registers, even-numbered ones at bit 16 and odd-numbered ones at bit 0, exactly the listed bits of the sector are inverted |
| BchCode.CorrectionRestores | usbboot/xburst_stage2/nandflash_4760.c:663-737 | a report that names each damaged bit as often as it was damaged, up to pairs, restores the sector, whatever it says about bits behind the sector |
| BchCode.NamedBitsRestored | usbboot/xburst_stage2/nandflash_4760.c:663-737 | any set of damaged data bits is restored from registers that name them, for every error count from 0 to 24 |
| Memory.StoreAt | usbboot/xburst_stage2/boothandler.c:266-283 | what lies at an address after a copy: the copied byte, or what was there before |
| Memory.StoreOn | jzboot/src/ingenic.c:383-430 | two copies, one behind the other, are one copy |
| Udc.PacketsJoin | usbboot/xburst_stage2/udc.c:509-530 | cutting a transfer into packets and joining them gives the transfer |
| Udc.EpInDelivers | usbboot/xburst_stage2/udc.c:509-530 | one EP1 IN interrupt delivers the next packet still to come, or nothing once there is none, and keeps Bulk_in_finish at or below Bulk_in_size so that the 32-bit subtraction never wraps |
| Udc.InterruptsDeliver | usbboot/xburst_stage2/udc.c:509-530 | any number of interrupts delivers that many of the packets to come, in order |
| Udc.BulkInTransfer | usbboot/xburst_stage2/udc.c:106-131 | an answer started from Bulk_in_buf delivers exactly its bytes in order in packets of the endpoint size, then the eight handshake bytes once, then nothing, over any number of interrupts |
| Udc.RequestSane | usbboot/xburst_stage2/udc.c:381-426 | every modelled request keeps the driver's variables within their bounds |
| Udc.LoadAnswered | usbboot/xburst_stage2/boothandler.c:266-282 | the answer to SDRAM_OPS is one packet: the load address, least significant byte first, and the last two words of the handshake as they were; nothing follows it |
| Udc.ConfigureAnswered | usbboot/xburst_stage2/udc.c:412-417 | the answer to the configuration is the handshake with its last word cleared |
| Transport.StepKeeps | usbboot/xburst_stage2/udc.c:544-581 | one step of host or device, in any order, keeps the invariant: the device is where carrying out the completed operations one after another leads, and what is left is the rest of the program |
| Transport.RunKeepsInv | usbboot/xburst_stage2/udc.c:544-581 | so does every interleaving |
| Transport.RequestRunsInOrder | usbboot/xburst_stage2/udc.c:544-581 | in every interleaving a request's handler starts only when exactly the operations issued before it have been carried out, so every packet sent before it is in Bulk_out_buf |
| Transport.FinishedMeansDone | usbboot/xburst_stage2/udc.c:544-581 | when the host is through, the device has carried out the whole program |
| LoadSdram.BulkArrives | usbboot/xburst_stage2/udc.c:532-542 | a bulk transfer, cut into packets, is appended whole and in order |
| LoadSdram.BulkAligned | usbboot/xburst_stage2/udc.c:78-85 | with a packet size divisible by four every packet is stored at a word boundary, as the word accesses need it |
| LoadSdram.LoadCopies | usbboot/xburst_stage2/boothandler.c:266-283 | address, length and SDRAM_OPS copy that many bytes of the buffer to the address and reset the buffer |
| LoadSdram.WordOnTheWire | usbboot/xburst_stage2/boothandler.c:93-109 | a word is sent with its upper half as wValue and its lower as wIndex, and the driver takes 0x10000 wValue + wIndex for the address or the length |
| LoadSdram.ProgramLoads | jzboot/src/ingenic.c:383-430 | the blocks sent by ingenic_load_sdram, carried out in order, store the data at the base, for every length |
| LoadSdram.ProgramWellFormed | jzboot/src/ingenic.c:383-430 | every answer is taken before anything else is sent |
| LoadSdram.RunCarriesOut | usbboot/xburst_stage2/udc.c:544-581 | any interleaving of a well-formed program with the poll loop ends as carrying it out in order would |
| StatusStage.StepKeeps2 | usbboot/xburst_stage2/udc.c:544-581 | the invariant for a controller that also raises the endpoint 0 interrupt at the end of a status stage, where an interrupt may be taken for a request that has overtaken a packet |
| StatusStage.CalmProgramsAreSafe | usbboot/xburst_stage2/udc.c:477-489 | unless a request that uses the buffer comes directly behind one to three packets (at full speed one or two) that themselves come behind another request or its answer, every interleaving ends as carrying out the program in order would |
| StatusStage.LoadIsSpaced | jzboot/src/ingenic.c:399-419 | ingenic_load_sdram sends two other requests between its packets and SDRAM_OPS |
| StatusStage.LoadIsSafe | jzboot/src/ingenic.c:383-430 | in every interleaving, with either kind of controller, target memory after ingenic_load_sdram is the old memory with the data stored at the base |
| StatusStage.LoadedByteByByte | jzboot/src/ingenic.c:383-430 | address by address: after a finished load each address in the range holds its byte of the data, and every other one what it held before |
| Races.RequestAcknowledged | usbboot/xburst_stage2/udc.c:544-581 | at high speed a waiting request is taken up within ten steps of the driver |
| Races.NoRequestLostAtHighSpeed | usbboot/xburst_stage2/udc.c:544-581 | so no request is lost, in any reachable state |
| Overtaking.ProgramCanFinish | usbboot/xburst_stage2/udc.c:544-581 | at either speed and with either kind of controller every program has a run to its end |
| Overtaking.EarlyIffRacy | usbboot/xburst_stage2/udc.c:477-489 | some interleaving runs a request that uses the buffer before a packet sent ahead of it has been taken up, if and only if the controller raises status-stage interrupts and the program has such a place: one to three packets, at full speed one or two, directly before the request and behind another operation |
| Overtaking.RacyEndsSwapped | usbboot/xburst_stage2/udc.c:477-489 | a program that ends with such a request can end as if the last packet had been sent behind it |
| Overtaking.RacyGoesWrong | usbboot/xburst_stage2/udc.c:477-489 | which for every packet that is not empty leaves its bytes in the buffer, where in order the buffer would be empty |
| Overtaking.ConfigureOvertakes | usbboot/xburst_stage2/boothandler.c:326-348 | a concrete such program: the driver is configured from what was in the buffer before the configuration arrived |
| Progress.ProgramFinishes | usbboot/xburst_stage2/udc.c:544-581 | at high speed every well-formed program, and at full speed every one with no request behind another operation, is at its end once the host has had two turns for each operation, a turn being a step behind ten steps of the driver, whatever the interleaving |
| Progress.LoadFinishes | jzboot/src/ingenic.c:383-430 | so at high speed, in every interleaving with that many turns, ingenic_load_sdram finishes, and the data are in the target's memory |
| LostRequests.LaterRequestIsLost | usbboot/xburst_stage2/udc.c:578-579 | at full speed the second read of IntrIn can drop any request that is not the first operation of its program; the host then never gets further |
| LostRequests.StuckIff | usbboot/xburst_stage2/udc.c:544-581 | for every well-formed program: some interleaving leaves the host stuck for ever if and only if the driver takes the bus for a full-speed one and some request is not the first operation |
| LostRequests.LoadHangsIff | jzboot/src/ingenic.c:383-430 | so ingenic_load_sdram can hang exactly at full speed, with any data at all |
| BulkAnswer.StepDelivers | usbboot/xburst_stage2/udc.c:509-530 | while the host takes an answer of many packets: what it has, what is in the FIFO and what is to come stay the answer, step by step |
| BulkAnswer.AnswerInOrder | usbboot/xburst_stage2/udc.c:106-131 | in every interleaving, at either speed, the host has received the first packets of the answer in order and without repetition |
| BulkAnswer.AnswerFinishes | usbboot/xburst_stage2/udc.c:509-530 | at high speed all of them once it has had a turn for each |
| BulkAnswer.AnswerHangsIff | usbboot/xburst_stage2/udc.c:578-579 | some interleaving cuts the answer short for ever if and only if the driver takes the bus for a full-speed one |
| UdcDriver.Driver.WriteFifo | usbboot/xburst_stage2/udc.c:87-104 | words and then bytes: the FIFO holds the bytes in order |
| UdcDriver.Driver.ReadFifo | usbboot/xburst_stage2/udc.c:78-85 | the words that cover the packet are stored at the offset, padding included |
| UdcDriver.Driver.SendPkt | usbboot/xburst_stage2/udc.c:106-125 | the first packet is marked ready and the finish counter stands behind it |
| UdcDriver.Driver.EpInHandler | usbboot/xburst_stage2/udc.c:509-530 | packet and variables are those of the specification |
| UdcDriver.Driver.EpOutHandler | usbboot/xburst_stage2/udc.c:532-542 | packet appended, OUT FIFO emptied |
| UdcDriver.Driver.CopyOut | usbboot/xburst_stage2/boothandler.c:266-283 | byte by byte from the buffer to the address |
| UdcDriver.Driver.SdramOps | usbboot/xburst_stage2/boothandler.c:266-283 | memory, handshake words and answer |
| UdcDriver.Driver.Configuration | usbboot/xburst_stage2/boothandler.c:326-348 | the configuration is taken from the buffer, and the answer sent |
| UdcDriver.Driver.HandleVendorReq | usbboot/xburst_stage2/udc.c:381-426 | each request does what the specification says, and the buffer is reset behind those that use it |
| UdcDriver.Driver.ReadInterrupts | usbboot/xburst_stage2/udc.c:549-555 | the interrupt registers are read and thereby cleared |
| UdcDriver.Driver.Proc | usbboot/xburst_stage2/udc.c:544-581 | a whole call of the poll procedure is a run of the device's steps |
| Jzboot.Handle.SendBulk | jzboot/src/ingenic.c:395-398 | a transfer becomes packets of the endpoint size, the last one shorter or equal |
| Udc.WordSplit | jzboot/src/ingenic.c:213-215 | a 32-bit word sent as wValue and wIndex is the word the driver puts together again |
| Jzboot.Handle.LoadBlock | jzboot/src/ingenic.c:395-422 | one round: packets, address, length, SDRAM_OPS, answer |
| Jzboot.Handle.LoadSdram | jzboot/src/ingenic.c:383-430 | the loop issues exactly the program that the transport theorems are about |
| Trampoline.TrampolineSet | jzboot/src/elfldr.c:152-158 | two immediate fields are patched in place |
| Trampoline.BuildTrampoline | jzboot/src/elfldr.c:295-304 | the five values are in the template |
| Trampoline.TrampolineRuns | jzboot/src/elfldr.c:20-37 | for all 32-bit values and any register contents: executing the twelve patched words reaches the entry point with a0 to a3 as given and no other register but t0 changed |
| Trampoline.FetchBack | jzboot/src/elfldr.c:306 | words stored in memory in little-endian order are fetched as those words |
| Trampoline.ImageBytes | jzboot/src/elfldr.c:295-306 | each word of the trampoline is stored with its least significant byte first |
| Trampoline.TrampolineRunsFromMemory | jzboot/src/elfldr.c:295-316 | the same executed from the loaded bytes, with a2 and a3 zero |
| CommandLine.WordsJoin | jzboot/src/elfldr.c:182-194 | joining the pieces between single spaces gives the line again |
| CommandLine.CountIsWordCount | jzboot/src/elfldr.c:163-177 | the counted argc is the number of pieces, and the counted length that of the line and its terminator |
| CommandLine.CountArgs | jzboot/src/elfldr.c:163-175 | the two counting loops |
| CommandLine.Compile | jzboot/src/elfldr.c:184-195 | the arguments are copied behind each other with spaces between them |
| CommandLine.FindSpace | jzboot/src/elfldr.c:205 | the next space, or the terminator |
| CommandLine.CutOne | jzboot/src/elfldr.c:202-212 | one space becomes a terminator |
| CommandLine.CutLine | jzboot/src/elfldr.c:199-212 | the loop assigns every one of the argc pointers and leaves each piece terminated; its early exit is never taken too soon |
| CommandLine.BuildArgs | jzboot/src/elfldr.c:160-212 | the block: argc pointers and behind them the strings |
| CommandLine.ArgumentInMemory | jzboot/src/elfldr.c:160-222 | once loaded, pointer i addresses piece i of the line followed by a zero byte |
| ElfLoader.AlignIsLeast | jzboot/src/elfldr.c:12 | the least multiple of 4096 that is not below its argument, if the addition does not wrap |
| ElfLoader.SegmentsLoad | jzboot/src/elfldr.c:107-144 | after the loop every loadable segment holds its bytes of the file followed by zeros, and lies below the reported end |
| ElfLoader.SegmentStored | jzboot/src/elfldr.c:49-78 | one segment |
| ElfLoader.LoadSegmentsKeep | jzboot/src/elfldr.c:107-144 | segments that do not overlap leave each other alone |
| ElfLoader.PartsLaidOut | jzboot/src/elfldr.c:255-306 | ramdisk, argument block and trampoline follow the image in this order, each at the least multiple of 4096 at or above the end of the one before, and end at or below the limit |
| ElfLoader.KernelLoads | jzboot/src/elfldr.c:224-316 | after a successful load of an image with disjoint segments: every segment, the ramdisk, the argument block and the trampoline are whole in the final memory and pairwise disjoint |
| ElfLoader.KernelStarts | jzboot/src/elfldr.c:295-316 | executing the trampoline from that memory enters the image with argc and the address of the pointers, and pointer i addresses word i of the command line |
| ElfSuccess.ImageLoadsIff | jzboot/src/elfldr.c:82-148 | load_elf_image succeeds if and only if the header is there, with its first seven identification bytes, type 2, machine 8, version 1, a program header table and 32-byte entries, every program header can be read, and every PT_LOAD segment has its bytes in the file and ends no higher than the limit; the end it reports is that of the highest segment |
| ElfSuccess.KernelLoadsIff | jzboot/src/elfldr.c:224-316 | load_elf gets as far as the jump if and only if the image loads and ramdisk, argument block and trampoline, each at the next multiple of 4096, end no higher than the limit |
| ElfSuccess.OtherHeaderIgnored | jzboot/src/elfldr.c:107-145 | a program header of any other type, inserted anywhere among the others, changes neither the result nor the memory |
| ElfSuccess.StageTwoIsSpared | jzboot/src/ingenic.c:252 | a proper kernel is loaded without touching the second stage, at the address it was sent to: 0x80000000 plus the memory size less 0x400000 |
| CommandLine.WordsAround | jzboot/src/elfldr.c:199-212 | cutting at spaces cuts what is before a space and what is behind it |
| ElfLoader.CommandLineMeans | jzboot/src/elfldr.c:160-195 | the command line is the file name and, if there are arguments, a space and those and, if there is a ramdisk as well, a space and its two words |
| ElfLoader.HexReadsBack | jzboot/src/elfldr.c:280-282 | the digits that are printed stand for the number |
| ElfLoader.RamdiskWordsMean | jzboot/src/elfldr.c:280-282 | the two words are rd_start=0x and rd_size=0x with eight digits that stand for the base and the size |
| ElfLoader.RamdiskWords | jzboot/src/elfldr.c:231-284 | the words of the command line are those without a ramdisk, followed by its place and size if a command line was given |
| ElfLoader.RamdiskIsPassedIff | jzboot/src/elfldr.c:224-316 | in the memory the kernel is entered with: two more arguments, pointed to, tell of the ramdisk if and only if load_elf was given a command line |
| ElfLoader.Loader.LoadSegment | jzboot/src/elfldr.c:49-78 | bytes and zeros in two loads are one store of both; a segment that does not fit changes nothing |
| ElfLoader.Loader.LoadElfImage | jzboot/src/elfldr.c:80-149 | refusals, entry point, end and memory |
| ElfLoader.Loader.LoadArgs | jzboot/src/elfldr.c:160-222 | the block is loaded at its base |
| ElfLoader.Loader.LoadTrampoline | jzboot/src/elfldr.c:292-311 | the patched words are loaded at their base |
| ElfLoader.Loader.LoadElf | jzboot/src/elfldr.c:224-316 | the whole call up to the jump, with each of its refusals |
| ShellTables.YyEc | jzboot/src/shell_lex.c:374-404 | the class table says which bytes are spaces, quotes, hashes, semicolons and backslashes |
| ShellTables.FlexIsWellFormed | jzboot/src/shell_lex.c:406-439 | every row lies in the tables and following defaults ends |
| ShellTables.FollowIsDelta | jzboot/src/shell_lex.c:406-439 | the compressed tables say what a plain transition function says, for every state the scanner reads in and every class |
| ShellTables.NextState | jzboot/src/shell_lex.c:766-773 | the inner loop follows defaults to the entry that belongs to the state |
| ShellTables.Transition | jzboot/src/shell_lex.c:759-774 | one transition of the scanner |
| ShellLexer.AcceptIsRule | jzboot/src/shell_lex.c:368-372 | the accepting rule of each state |
| ShellLexer.StepMeans | jzboot/src/shell_lex.l:44-52 | a transition extends the text that the state stands for, or jams exactly when no rule matches anything longer |
| ShellLexer.MunchUnique | jzboot/src/shell_lex.l:44-52 | the longest match is unique: no two rules match the same text |
| ShellLexer.MunchIsLongest | jzboot/src/shell_lex.l:44-52 | the plain scanner takes the longest match |
| ShellLexer.LexTiles | jzboot/src/shell_lex.c:752-845 | the matched texts and what is left are the text; every token but the end consumes something |
| ShellLexer.Scanner.Match | jzboot/src/shell_lex.c:756-779 | the match loop with its last accepting state finds the longest match of the rules, or the end of the buffer |
| ShellLexer.Scanner.PreviousState | jzboot/src/shell_lex.c:1123-1149 | going over the buffer again ends in the state for all that was left |
| ShellLexer.Scanner.FindAction | jzboot/src/shell_lex.c:756-859 | the rule is that of the longest match for every input without NUL; nothing is left only where the end of the text is reported |
| ShellLexer.Scanner.YyLex | jzboot/src/shell_lex.c:752-845 | token, string, start condition and position are those of the plain scanner; the scanner never has to back up and never reaches the default rule |
| Quoting.LexUnquotes | jzboot/src/shell_lex.c:821-840 | taking runs between quotes and backslashes is reading the string character by character |
| Quoting.UnquoteEscape | jzboot/src/shell_lex.c:821-840 | an escaped string reads back unless a last backslash meets a quote |
| Quoting.BackslashSwallows | jzboot/src/shell_lex.c:826-835 | after a last backslash the closing quote becomes part of the string |
| Quoting.QuoteReadsBack | jzboot/src/shell_lex.c:794-840 | a string reads back from its quoted form if and only if it is not empty and does not end in a backslash; otherwise another string or none is returned |
| Quoting.PlainReadsBack | jzboot/src/shell_lex.l:48 | every non-empty text without spaces, quotes, hashes and semicolons, at the end or in front of one of these, is one token whose string is that text, whatever string there was before |
| Shell.Context.TakeToken | jzboot/src/shell.c:191-254 | what the loop does with a token, in each state |
| Shell.Context.ShellExecute | jzboot/src/shell.c:172-263 | calls and result are those of the specification: every command runs at its separator, the first that returns -1 ends the text |
| Shell.ExecArgs | jzboot/src/shell.c:212-240 | the arguments of a command, in quotes or plain, are collected in order |
| Shell.ExecPrinted | jzboot/src/shell.c:172-263 | running the text of commands whose arguments are printed in quotes, or plain where they can be, calls shell_run on exactly those argument vectors, in order, up to and including the first that returns -1 |
| Shell.ExecContinues | jzboot/src/shell.c:172-263 | calls are only added, and the next one begins with the arguments collected so far |
| Shell.PrintedRunsBack | jzboot/src/shell.c:172-263 | while no command fails, printing and running commands gives back the argument vectors if and only if no argument is empty, and none ends in a backslash but those that are printed plain |
| Shell.ShowReadsBack | jzboot/src/shell_lex.l:44-52 | an argument printed plain or in quotes is scanned as itself |
| Scripts.LexGap | jzboot/src/shell_lex.l:46 | any number of spaces is one token |
| Scripts.ScriptRuns | jzboot/src/shell.c:172-263 | whole texts, with any spaces between, before and behind words, words in quotes or plain, empty commands, and a comment at the end: shell_run is called on exactly the argument lists that are written, in order, up to and including the first that returns -1; empty commands and the comment are no calls |
| Scripts.TouchingIsRefused | jzboot/src/shell.c:231-249 | a word directly behind another is refused, and their command is not run |
| Pll.TryTriple | usbboot/xburst_stage1/board-jz4760.c:92-112 | one round keeps the first best triple so far, its distance and its word |
| Pll.TooSlow | usbboot/xburst_stage1/board-jz4760.c:87-88 | the break loses no candidate |
| Pll.SearchMultiplier | usbboot/xburst_stage1/board-jz4760.c:92-112 | the innermost loop |
| Pll.SearchDivider | usbboot/xburst_stage1/board-jz4760.c:83-114 | the loop over the input divider with its break and continue |
| Pll.PllCalc | usbboot/xburst_stage1/board-jz4760.c:60-117 | for all 32-bit arguments: the word of the first triple that comes nearest among the admissible ones, or zero if there is none |
| Pll.FirstBestUnique | usbboot/xburst_stage1/board-jz4760.c:60-117 | there is only one such triple |
| Pll.BestOfAll | usbboot/xburst_stage1/board-jz4760.c:60-117 | in numbers: of all settings with output divider 1, 2, 4 or 8, input divider 2 to 15 and multiplier 8 to 254 that keep the oscillator at 500 to 1500 MHz and the divided crystal at 1 to 15 MHz, the result is the first, in the order of the loops, of those least off; there is none only if no setting is permitted |
| Pll.NoWrapExactly | usbboot/xburst_stage1/board-jz4760.c:95 | the products stay within 32 bits for every multiplier if and only if the crystal is at most 16909320 Hz |
| Pll.CostMeans | usbboot/xburst_stage1/board-jz4760.c:95-98 | below that, and below a request of 2^29 Hz, the distance and the window are those of the exact products |
| Pll.FieldsBack | xbboot/target-common/jz4760.h:395-400 | the packed fields come back from the written word: they overlap neither each other nor the stable time and enable bits |
| Pll.FloorOfFloor | xbboot/target-common/jz4760.h:4577-4590 | dividing twice with rounding is dividing once by the product |
| Pll.ClockAgrees | xbboot/target-common/jz4760.h:4577-4590 | the clock code computes the frequency whose distance the search has made least |
| Pll.ComesNear | usbboot/xburst_stage1/board-jz4760.c:60-117 | for crystals from 12 MHz to 16909320 Hz and every output divider that the 500 to 1500 MHz window admits, the result is within xtal / (2 od) + 1 Hz of the request |
| Pll.AnswersExactly | usbboot/xburst_stage1/board-jz4760.c:77-116 | for those crystals there is a result if and only if the request lies between 62.5 and 1500 MHz |
| Pll.ClockIsNear | xbboot/target-common/jz4760.h:4577-4590 | search, register and clock code together: the reported frequency is that near, and no admissible triple comes nearer |

## Left out

- libusb, files, terminal, progress bars, option parsing and sleeps; a failing USB call or a failing allocation.
- GPIO, EMC, DDR, UART and cache programming, write protection and chip enables, and the timing of the chip's ready line.
- More than one flash chip: `select_chip` and the chip map of the host.
- Boot pages: start pages below 8 unless the page size is 2048 with parity at 6, where the layout override changes nothing, and the 16 KB skip of 4096-byte pages.
- Pages and blocks behind the end of the chip: a request that leaves the chip has no outcome in the model (`None`), and nothing is said about what real hardware would do.
- Damage to parity bytes, Reed-Solomon symbol 456, which straddles the end of the sector, and the mathematics of the two codes.
- JZ4760 error reports with index 0.
- `nand_read_4760`, the sending of a page and the SPL pages of `nand_program_4760`, and `bchbit` 24: of the JZ4760 driver the model has the erase, the restart as a function on chips, and the correction.
- Nand4760.RestartsAlike: and the other statements about the JZ4760's program call start at any page but the first, where the call writes the boot loader as SPL pages.
- `nand_read_raw`, `nand_read_oob`, and reading the spare bytes alone.
- A failing status while a block is being marked bad: marking is taken to succeed.
- Host images with spare bytes: the tail of such a file is padded to a multiple of the page size without the spare area, so that the last page is cut.
- The read-back goes straight into the host's buffer; its way over USB is the transport part's matter.
- Bus reset, stalls, standard requests and endpoint 0 answers; the vendor requests other than the address, the length, SDRAM_OPS, the configuration and the cache flush.
- How the request of a many-packet answer comes to be handled: `BulkAnswer` starts when it has been, with no earlier EP1 IN interrupt pending.
- A second packet in the EP1 OUT FIFO, and packets beyond the end of `Bulk_out_buf`, whose effect the model drops.
- The byte order of setup packets and the contents of the configuration block.
- How a JZ4740 error register holds its symbol number and its mask: a register is modelled as these two fields.
- `ingenic_program_nand`, `ingenic_loadstage`, `ingenic_load_sdram_file` and `sdram_load_file`.
- ElfSuccess.StageTwoIsSpared: asks, like the statement about a whole load, for a proper image and room for address arithmetic.
- ELF files larger than 4 GB, and the position of the file between reads: the program headers are taken as the reads deliver them.
- A load that fails in the middle leaves earlier parts in memory; the functions of the loader only say that it fails.
- ElfLoader.KernelLoads: asks for segments that do not overlap and have room for their bytes, and for room above the limit for address arithmetic, since otherwise addresses wrap.
- Flex buffer refill, NUL characters, and nested `source` commands: the text is one sequence without NUL. An empty quoted string is modelled as the missing string it is.
- `shell_run` and the command tables: what a command returns is a function of the calls made so far.
- The other PLL, the dividers behind the PLL and the wait for its lock.
