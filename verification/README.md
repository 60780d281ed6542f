# Verified model of the HCAN home automation bus

This project models the stateful core of a CAN based home automation system in Dafny and proves what its parts are
for: the search for sensors on a 1-Wire bus, a heap allocator inside the EEPROM of a board and the host's view of it,
the relays of a shutter, flashing firmware over the bus, a small query compiler with its stack machine, syslog
messages in fragments, the election of a time master, the DCF77 receiver and the clock of a board.

Code that changes things step by step is modelled by classes and methods in the same form: `Store` walks and
overwrites an array of EEPROM bytes, `Device` is a shutter with its fields, `Query` has a code array and a stack array,
and so on. Each method is proved against a function on values (`EdsBlocks.Step`, `RolladenModel.TimerTick`,
`Bootloader.React`, `QueryMachine.Run`, ...), and the theorems are about runs of those functions.

| module | subject |
|---|---|
| OneWireBus, OneWire | the bus as the set of participating 64-bit codes; the ROM search and the discovery loop |
| EdsBlocks, Eds, EdsHost | the block store as values, in the bytes, and as the host caches it |
| RolladenModel, RolladenSafety, RolladenDrive, RolladenPress, Rolladen | the shutter: state machine, relay safety over all runs, whole drives and calibration, commands during a drive and held buttons, the device itself |
| Crc16, HexFile, Bootloader, FlashLink, FlashDriver, FlashCommand | checksum, image, the board's command loop, a link that may lose frames, the host's flash command, the way from hex records to flash |
| QueryText, Bits, QueryMachine, DataQuery, QueryCompiler | words and numbers, bitwise operators, the stack machine, the query object, compiler correctness |
| Syslog | fragments on the board, one open message for each source on the host |
| TimeService | all time masters of a bus, second by second, in arbitrary order |
| Dcf77, Dcf77Minute, Dcf77Receiver | the time code bit by bit, encoded minutes, pulses and periods |
| Rtc | the mixed-radix clock |
| Words, Sequences, Wrappers | integer ranges, facts about sequences, values that may be missing |

`dafny verify dfyconfig.toml` checks everything.

Where something widely assumed of the code does not hold, the project says exactly when it does:

- The shutter's relays are safe over all runs except for a configured running time of 2 or 3 tenths of a second, where
  a calibration run to the bottom aims at -1, which also stands for "no target"; there some run from power-on breaks
  the rules (`RolladenSafety.AlwaysSafeIff`).
- A position command to a moving shutter is meant to be ignored (`rolladen.c:290-294`), but it takes the target away: on
  the way up the shutter stops at once, on the way down it drives on below the bottom
  (`RolladenPress.PercentageDuringDrive`, `PercentageStopsUp`, `PercentageDrivesDown`).
- The first drive after power-on covers the whole running time, up to one tenth, except in the one configuration in
  which the 16-bit sum wraps (`RolladenDrive.FirstDrive`).
- The write command of the block store checks nothing; block structure survives a write exactly when it hits no header
  byte or changes nothing (`EdsBlocks.WriteKeepsShapeIff`), and runs are followed as long as that is so.
- Allocation in a full store writes the type to EEPROM address 0 and answers handle 0, after which the host's cache is
  out of step; it stays in step exactly when a block fits (`EdsHost.Connection.CreateBlock`).
- A loop over the blocks of some types reads one header past the last block and visits that address exactly when the
  byte there matches (`Eds.Store.ForeachBlockBetween`).
- The padding loop of an image does not end for 256-byte pages and a payload that is aligned already
  (`HexFile.PaddingEndsIff`).
- A query of up to 126 words compiles, but matches only with at most 31 words and a stack at most 15 deep
  (`QueryCompiler.QueryCorrect`). A match that throws does not reset the stack pointer, and no later match of that query
  object answers (`QueryMachine.AllOrNone`).
- A syslog message shorter than 8 bytes is not noticed to be complete, and some others are cut or lose a byte
  (`Syslog.ComesThroughIff`).
- `canix/canix.c:260-263` speaks of 254 seconds and `canix/rtc.h` of minutes, but the age of the date counts hours
  (`Rtc.FreshIff`).
- `canix/canix.c` knows no leap years: its year has 365 days.

## Model

| member | source | states |
|---|---|---|
| OneWireBus.Bus.Reset | firmwares/controllerboard/onewire.c:48-64 | a reset puts every device now plugged in into the search and reports absence exactly when there is none |
| OneWireBus.Bus.BitIO | firmwares/controllerboard/onewire.c:66-80 | one slot moves the bus as `TimeSlot` says: the sampled level is the wired AND of the participants, and a write slot drops those that differ |
| OneWireBus.Bus.WriteByte | firmwares/controllerboard/onewire.c:82-94 | eight slots with the bits of the byte, in any state of the bus; directly after a reset the byte comes back unchanged, devices unplugged meanwhile drop out, and only the byte F0h starts a search |
| OneWireBus.CommandHeard | firmwares/controllerboard/onewire.c:82-94 | why: after k slots the devices have heard the first k bits on the wire, and those still plugged in listen |
| OneWireBus.SentIsByteBits | firmwares/controllerboard/onewire.c:82-94 | the in-place rotation of the byte puts its bits on the wire least significant first |
| OneWireBus.SentCommand | firmwares/controllerboard/onewire.c:110 | the eight slots of a command spell Search ROM exactly for the byte F0h, and for no other byte |
| OneWire.LessTotal | firmwares/controllerboard/onewire.c:102-148 | transmission order is total on ROM codes (with `LessTransitive` and `LessIrreflexive`: a strict order) |
| OneWire.ShiftId | firmwares/controllerboard/onewire.c:137-139 | one in-place shift replaces one bit of the previous code by the chosen one; the old bits still to be read stay readable |
| OneWire.GuidedStep | firmwares/controllerboard/onewire.c:119-135 | each choice of a bit keeps the pass on the way to the greatest device (first pass) or to the next smaller one |
| OneWire.SearchStep | firmwares/controllerboard/onewire.c:119-136 | one bit of a pass: with a stable bus the read slots never answer 11, and the participants stay exactly the devices matching the bits so far |
| OneWire.SearchDone | firmwares/controllerboard/onewire.c:114-147 | 64 such steps find what the pass is for, and the returned discrepancy marks the code found |
| OneWire.OneBitOn | firmwares/controllerboard/onewire.c:119-141 | one bit of a pass keeps search and in-place buffer together: the code read so far, the old bits still to come and the participants |
| OneWire.SearchBit | firmwares/controllerboard/onewire.c:119-136 | the three slots of a bit fail exactly on the answer 11; otherwise bit, discrepancy and remaining participants are the ones of the trie walk |
| OneWire.RomSearch | firmwares/controllerboard/onewire.c:102-148 | presence error exactly on an empty bus, data error only after a device was unplugged, and on a stable bus the greatest device or the next smaller one together with its mark |
| OneWire.DiscoveringStep | firmwares/controllerboard/onewire.c:184-228 | a pass extends the descending list of devices by the next one, with none left out |
| OneWire.FoundEverything | firmwares/controllerboard/onewire.c:184-228 | when a pass returns 0, the list holds every device |
| OneWire.RemainingDecreases | firmwares/controllerboard/onewire.c:184-228 | every pass leaves fewer devices to find, so that the loop ends after as many passes as there are devices |
| OneWire.PassDone | firmwares/controllerboard/onewire.c:184-228 | one round of the loop, also when devices are unplugged in the middle: either a device is gone or there is less to find |
| OneWire.Discover | firmwares/controllerboard/onewire.c:173-229 | the loop ends even when devices get unplugged; the answers are the IDs found in strictly descending order, followed by the frame that belongs to the outcome of the last pass: no sensor only if the bus was empty at some moment, a bus error only after unplugging, nothing after the last device; on a stable bus every ID is reported once and no error |
| EdsBlocks.TiledIffHolds | canix/eds.c:45-48 | bytes are the layout of some blocks exactly when their size links tile them, and the blocks are then determined |
| EdsBlocks.FlattenParse | canix/eds.c:45-48 | following the size links and laying the blocks out again gives the same bytes |
| EdsBlocks.ParseFlatten | canix/eds.c:45-48 | laid out blocks are found again by following the size links |
| EdsBlocks.HeaderAt | canix/eds.c:45-48 | where type, size and data of block k stand, and where the next block begins |
| EdsBlocks.FirstFit | canix/eds.c:81-103 | the lowest block that is free and of the exact size or at least two bytes longer |
| EdsBlocks.FirstFitUnique | canix/eds.c:81-103 | first fit is determined by that description |
| EdsBlocks.FitsIff | canix/eds.c:81-103 | a block fits exactly when it is free and one of the wanted size, alone or with one more block, can take its place |
| EdsBlocks.MergeableIff | canix/eds.c:136-150 | two blocks are merged exactly when both are free and one block can take the place of both |
| EdsBlocks.AllocateAddsOne | canix/eds.c:74-104 | allocation adds one block of exactly the wanted size to those in use; the address, type and data of all others stay |
| EdsBlocks.FreeRemovesOne | canix/eds.c:106-123 | freeing takes one block from those in use; the address, type and data of all others stay |
| EdsBlocks.CompactKeeps | canix/eds.c:133-158 | merging free neighbours leaves every block in use where and what it is, and the store as long as it was |
| EdsBlocks.CompactMergesAll | canix/eds.c:133-158 | afterwards no two free neighbours would still fit into one block of 255 bytes |
| EdsBlocks.CompactNothing | canix/eds.c:133-158 | a store without such neighbours is left alone |
| EdsBlocks.Defragmented | canix/eds.c:125-159 | the three together, and that defragmenting twice is defragmenting once |
| EdsBlocks.HeaderIff | canix/eds.c:280-288 | the header bytes are the two bytes from each block address on |
| EdsBlocks.ByteWrittenHolds | canix/eds.c:280-288 | a byte write that hits no header, or changes nothing, leaves the blocks with that one data byte changed |
| EdsBlocks.WriteKeepsShapeIff | canix/eds.c:280-288 | a byte write anywhere leaves addresses, types, sizes and tiling alone exactly when it hits no header byte or writes what is there already |
| EdsBlocks.LargerSizeBreaks | canix/eds.c:280-288 | and a larger size written at index 1 of the last block breaks the tiling |
| EdsBlocks.StepExtent | canix/eds.c:14-159 | no command changes the length of the store, harmful byte writes excepted |
| EdsBlocks.RunTiles | canix/eds.c:14-294 | over every run of format, allocate, free, defragment and byte writes that are harmless in the state they meet, the size links tile the store exactly and every block starts below EDS_END |
| EdsBlocks.SpaceAccounted | libhcan++/eds_connection.cc:355-395 | free sizes, used sizes and two header bytes for each block add up to the store |
| EdsBlocks.UsedIsInUse | libhcan++/eds_connection.cc:376-395 | the used space is the data of the blocks in use |
| EdsBlocks.FormattedIsFree | canix/eds.c:14-43 | formatting makes free blocks only, all of 128 bytes but the last |
| EdsBlocks.BetweenFrom | canix/eds.c:190-207 | looking for the next block of a range of types, again and again, finds all of them in address order |
| Eds.Store.FormatStore | canix/eds.c:14-43 | formatting makes the blocks of 128 bytes and a last one that tile the store for both EEPROM sizes, and writes nothing below the store |
| Eds.Store.FormatAgain | canix/eds.c:290-292 | the format command on a store in use; below the store only the two magic bytes are written |
| Eds.Store.Alloc | canix/eds.c:74-104 | in the bytes: the first block that fits is carved to the size and its address returned, or nothing is written and the result is 0 |
| Eds.Store.FreeBlock | canix/eds.c:106-123 | a block address is freed; any other pointer is refused and nothing is written |
| Eds.Store.Absorb | canix/eds.c:136-150 | one merge, with the cursor moved back: what is still to be done keeps the same outcome |
| Eds.Store.DefragmentStore | canix/eds.c:125-159 | the loop ends and leaves the compacted blocks, although it moves its cursor back |
| Eds.Store.FindNextBlockBetween | canix/eds.c:190-207 | the next matching block; past the last one, the end of the store or 0, depending on the byte beyond |
| Eds.Store.ForeachBlockBetween | canix/eds.h:40-42 | a loop over a range of types visits the matching blocks in order, and after them the address just past the store exactly when the byte read there matches |
| Eds.Store.GetNextBlock | canix/eds.c:222-242 | for 0 and for block addresses the reply names the next block with type and size, and 0 after the last one; for any other handle it follows the byte that stands there |
| Eds.Store.AllocateBlock | canix/eds.c:244-252 | a block of the wanted type and size and nothing written below the store; when none fits, the type is written to EEPROM address 0 and the handle is 0 |
| Eds.Store.WriteToBlock | canix/eds.c:280-288 | one byte of the EEPROM changes, whatever it belongs to; if the write is harmless, the store stays valid and is the one the model says |
| EdsHost.Connection.Update | libhcan++/eds_connection.cc:326-353 | the cache lists exactly the blocks in use of a described type, in address order |
| EdsHost.KnownIff | libhcan++/eds_connection.cc:340-350 | a type counts as described exactly when some description has it |
| EdsHost.ListedIff | libhcan++/eds_connection.cc:326-353 | the list the cache is compared with holds exactly the blocks in use of a described type |
| EdsHost.ListedInOrder | libhcan++/eds_connection.cc:326-353 | and holds them in ascending order of their addresses |
| EdsHost.Connection.SpaceFree | libhcan++/eds_connection.cc:355-374 | the sizes of the free blocks, added up over the bus |
| EdsHost.Connection.SpaceUsed | libhcan++/eds_connection.cc:376-395 | the sizes of the blocks in use, added up over the bus |
| EdsHost.SpaceIsStore | libhcan++/eds_connection.cc:355-395 | free + used + 2 * number of blocks is EDS_END + 1 - EDS_DATA_START |
| EdsHost.Connection.CreateBlock | libhcan++/eds_connection.cc:411-435 | the first description of that name decides about type and size, and the answer is an unknown type exactly when there is none; the device allocates and the cache grows by what the answer points to; cache and device stay in step exactly when a block fits |
| EdsHost.Created | libhcan++/eds_connection.cc:427 | why: the new cache entry is the new block in use, if and only if there is one |
| EdsHost.Connection.DeleteBlock | libhcan++/eds_connection.cc:437-463 | the listed block is freed and leaves the list; the answer is done exactly when the address is listed and a block starts there; unknown addresses change nothing, and cache and device stay in step |
| EdsHost.Deleted | libhcan++/eds_connection.cc:450-453 | why: a cached address in step with the device is a block start, and freeing it removes just that entry |
| EdsHost.Connection.BlockByAddress | libhcan++/eds_connection.cc:398-409 | the first listed block with that address, or an error exactly when there is none |
| EdsHost.Connection.DefragmentDevice | libhcan++/eds_connection.cc:465-470 | the device is compacted and the cache lists the same blocks as before |
| RolladenSafety.AlwaysSafeIff | firmwares/controllerboard/devices/rolladen.c:92-461 | over every run of commands and ticks from rest, the direction relay switches only with power off, goes back 5 or more ticks after power off, and after switching over keeps power off for 5 or more ticks - exactly when the configured running time is neither 2 nor 3; the same over every run from power-on |
| RolladenSafety.CalibratableIsSafe | firmwares/controllerboard/devices/rolladen.c:92-461 | the safe direction, for every such configuration |
| RolladenSafety.NotCalibratableIsUnsafe | firmwares/controllerboard/devices/rolladen.c:305-322 | the other one: for running times 2 and 3 a calibration aims at -1, the mark for no target, and some run from power-on breaks the rule |
| RolladenSafety.TrapSprings | firmwares/controllerboard/devices/rolladen.c:305-322 | the run that does: a press that turns the direction relay without a drive, and a drive one tick later |
| RolladenSafety.QuickWay | firmwares/controllerboard/devices/rolladen.c:232-346 | the device gets there from power-on by defined positions and a halt when a calibration is due at once |
| RolladenSafety.LongWay | firmwares/controllerboard/devices/rolladen.c:232-461 | and otherwise after a drive of 65535 ticks, for the one configuration in which the 16-bit sum at power-on wraps |
| RolladenSafety.RunKeeps | firmwares/controllerboard/devices/rolladen.c:232-461 | the invariant over arbitrary event sequences |
| RolladenSafety.TickKeeps | firmwares/controllerboard/devices/rolladen.c:396-461 | one tick keeps the invariant that ties the lockout timer to the relay history |
| RolladenSafety.CommandKeeps | firmwares/controllerboard/devices/rolladen.c:232-393 | one command keeps it |
| RolladenSafety.HandleIsCore | firmwares/controllerboard/devices/rolladen.c:232-393 | every command stops, starts a drive while nothing is blocked and power is off, or leaves the relays alone |
| RolladenSafety.TickCoreSound | firmwares/controllerboard/devices/rolladen.c:396-461 | what one tick can do to relays and lockout timer |
| RolladenDrive.DriveStep | firmwares/controllerboard/devices/rolladen.c:396-461 | one tick of an undisturbed drive: position, relays, timers, target and counters after tick k, calibrating or not |
| RolladenDrive.WholeDrive | firmwares/controllerboard/devices/rolladen.c:396-461 | such a drive powers the motor for exactly its length, in one stretch and in its direction, and then rests with the target, the calibration mark, the distance counter and the direction of the one button as they should be |
| RolladenDrive.PositionCommand | firmwares/controllerboard/devices/rolladen.c:283-300 | a position command from rest does that without calibrating; if the shutter is there already, nothing moves |
| RolladenDrive.ButtonCommand | firmwares/controllerboard/devices/rolladen.c:248-272 | so does a button press towards an end, in one- and two-button operation, half the way further when a calibration is due |
| RolladenDrive.CalibrationDrive | firmwares/controllerboard/devices/rolladen.c:128-151 | a drive for calibration leaves the exact end position and a distance counted anew exactly when it goes to the configured end and the running time is at least 2, or 4 at the bottom; otherwise the mark stays |
| RolladenDrive.FirstDrive | firmwares/controllerboard/devices/rolladen.c:19-48 | the first press after power-on drives for the whole running time up to one tenth, except in the one configuration in which the 16-bit sum wraps |
| RolladenDrive.StopSettles | firmwares/controllerboard/devices/rolladen.c:153-185 | what every stop leaves: position, calibration mark, counters and the next direction of the one button |
| RolladenPress.PressStops | firmwares/controllerboard/devices/rolladen.c:248-272 | a press of either button stops a shutter that moves or is about to: power goes off in the next tick, it stays where it is, or at the end it is calibrated to, and after the lockout both relays are released |
| RolladenPress.OneButtonStops | firmwares/controllerboard/devices/rolladen.c:305-322 | so does the one button while power is on; held, it will change the direction of the next drive, but at an end the next drive goes back in any case |
| RolladenPress.HaltStops | firmwares/controllerboard/devices/rolladen.c:274-277 | HALT stops in every state, muted and blocked ones included |
| RolladenPress.Ignored | firmwares/controllerboard/devices/rolladen.c:243-310 | a muted or blocked shutter ignores presses and percentages, and commands for other groups change nothing |
| RolladenPress.HarmlessEffect | firmwares/controllerboard/devices/rolladen.c:279-327 | what muting and the releases of buttons leave: one field, and nothing if another group is meant |
| RolladenPress.HarmlessRun | firmwares/controllerboard/devices/rolladen.c:279-461 | a drive goes on unchanged under any run of ticks, releases, muting and commands for other groups |
| RolladenPress.PercentageDuringDrive | firmwares/controllerboard/devices/rolladen.c:283-296 | a position command during a drive is meant to be ignored but takes the target away; it changes nothing exactly when that had happened before |
| RolladenPress.PercentageStopsUp | firmwares/controllerboard/devices/rolladen.c:283-296 | on the way up the shutter then stops with the next tick |
| RolladenPress.PercentageDrivesDown | firmwares/controllerboard/devices/rolladen.c:283-296 | and on the way down it drives on to -1, wherever it was sent, and a calibration under way is not completed |
| RolladenPress.ChangeOfDirection | firmwares/controllerboard/devices/rolladen.c:305-327 | the one button, held after it stopped a drive short of an end, changes the direction of the next drive exactly when it is held for 8 ticks or more |
| RolladenPress.LongPress | firmwares/controllerboard/devices/rolladen.c:248-282 | a button of two held for 11 ticks turns the drive into a calibration if it goes to the configured end or one is marked |
| RolladenPress.LongPressTooLate | firmwares/controllerboard/devices/rolladen.c:248-282 | if the drive is over by then, it leaves a shutter at rest marked for calibration whenever the upper end is the configured one |
| RolladenPress.PositionRestored | firmwares/controllerboard/devices/rolladen.c:329-346 | a position asked for and defined again later is at most 2 percent of the running time too high and never too low |
| RolladenPress.PositionDefined | firmwares/controllerboard/devices/rolladen.c:329-346 | any defined percentage: one percent more, rounded down, at most the top, and nothing else changes |
| RolladenDrive.ReportedPosition | firmwares/controllerboard/devices/rolladen.c:50-58 | for running times of at least 100 tenths the position reported at the target is within 2 of the one asked for |
| Rolladen.Device.constructor | firmwares/controllerboard/devices/rolladen.c:19-48 | the state after power-on that the safety theorems start from |
| Rolladen.Device.CanCallback | firmwares/controllerboard/devices/rolladen.c:232-393 | the handler changes the fields as the state machine does on which the theorems are proved |
| Rolladen.Device.IsInGroup | firmwares/controllerboard/devices/rolladen.c:78-89 | the loop over the configured groups finds the group exactly if it is the button's own or among them |
| Rolladen.Device.TimerHandler | firmwares/controllerboard/devices/rolladen.c:396-461 | so does the tick |
| Rolladen.Device.PrepareCalibrating | firmwares/controllerboard/devices/rolladen.c:92-126 | target and mark of a calibration run |
| Rolladen.Device.Calibrate | firmwares/controllerboard/devices/rolladen.c:128-151 | what a calibration sets at the end position |
| Rolladen.Device.Stop | firmwares/controllerboard/devices/rolladen.c:153-185 | the stop sequence: power released at once, the direction relay after the lockout |
| Rolladen.Device.Drive | firmwares/controllerboard/devices/rolladen.c:187-201 | the start sequence: for AB the direction relay at once, power after the lockout |
| Rolladen.Device.SetTarget | firmwares/controllerboard/devices/rolladen.c:203-230 | the target of an end position and whether it is still to be reached |
| Crc16.CrcUpdate | libhcan++/ihexfile.cc:112-127 | the bitwise loop computes `Update` |
| Crc16.UpdateInjectiveInState | libhcan++/ihexfile.cc:112-127 | two states that one byte leads to the same state are equal |
| Crc16.UpdateInjectiveInByte | libhcan++/ihexfile.cc:112-127 | two bytes that lead one state to the same state are equal |
| Crc16.WordUpdateInjective | libhcan++/ihexfile.cc:129-143 | two words that lead one state to the same state are equal |
| Crc16.OneWordDetected | libhcan++/ihexfile.cc:129-143 | images that differ in exactly one 16-bit word have different checksums |
| Crc16.CrcIsFold | libhcan++/ihexfile.cc:129-143 | the checksum of an image is that of its bytes one after the other, with the two bytes of each word exchanged |
| Crc16.CheckValue | libhcan++/ihexfile.cc:112-127 | the check value of CRC-16/MODBUS: the digits 1 to 9 give 4B37h |
| HexFile.PaddingEndsIff | libhcan++/ihexfile.cc:63-71 | the 8-bit counter of the padding loop ever reaches its end exactly when at most 255 bytes are missing; for the page sizes in use, except for 256-byte pages and an aligned payload |
| HexFile.PayloadConcat | libhcan++/ihexfile.cc:29-62 | records are taken one after the other, and with PayloadOne: only data records count |
| HexFile.Image.Load | libhcan++/ihexfile.cc:29-72 | the data records in order, followed by 1 to page-size bytes FFh up to a page boundary |
| HexFile.Image.Checksum | libhcan++/ihexfile.cc:129-143 | the byte-swapped host loop computes the same `Crc` as the board |
| Bootloader.WordOfBytes | hcanbl/main.c:352-356 | a size stored low byte first is read back |
| Bootloader.JoinBytes | hcanbl/main.c:541-552 | a checksum sent as two bytes is put together again |
| Bootloader.Board.Fill | hcanbl/main.c:484-499 | four bytes go into the buffer; an acknowledgement is due when 16 have come since the last multiple of 16 |
| Bootloader.Board.WritePage | hcanbl/main.c:500-528 | the buffer replaces one page of flash and nothing else changes |
| Bootloader.Board.ChecksumOverFlash | hcanbl/main.c:322-344 | the word-wise board loop computes `Crc`, also where it reads past the end of the flash |
| Bootloader.Board.CheckFirmware | hcanbl/main.c:346-363 | accepts exactly a flash whose checksum over the stored size is the stored one, whatever size an EEPROM holds |
| Bootloader.Board.Handle | hcanbl/main.c:427-560 | one round of the command loop changes the board and answers as the transition the driver is proved against |
| FlashLink.Link.Send | hcanbl/main.c:427-560 | a frame is lost or handled once, a reply is lost or queued; a frame that is not lost is handled, and answered if its reply is not lost |
| FlashDriver.FillReaches | libhcan++/board_driver.cc:535-545 | one fill frame of a line: buffer contents, line counter, and an acknowledgement for the fourth frame only |
| FlashDriver.SendLine | libhcan++/board_driver.cc:532-550 | a line in four frames stands in the buffer if none of them is lost, and is acknowledged exactly once if no reply is lost either; flash and EEPROM are untouched |
| FlashDriver.SendPage | libhcan++/board_driver.cc:529-560 | a page of 128 or 256 bytes that is acknowledged stands in flash if no frame of the host was lost; whatever is lost, no other page changes |
| FlashDriver.PagesEqual | libhcan++/board_driver.cc:504-516 | whether the page is the same in the cached image |
| FlashDriver.FlashImage | libhcan++/board_driver.cc:500-564 | without losses flash equals the image; in every case pages equal in both images and bytes outside the image are never written |
| FlashDriver.CachedIsRight | libhcan++/board_driver.cc:443-455 | a board holding the cached image has the right contents in every page that will be skipped |
| FlashDriver.SkippedWasRight | libhcan++/board_driver.cc:500-519 | and the image stands in flash afterwards only if the skipped pages were right before |
| FlashDriver.KeptTransitive | libhcan++/board_driver.cc:472-618 | skipped pages stay right over any number of failed attempts |
| FlashDriver.LoadCrc | libhcan++/board_driver.cc:622-631 | the checksum of the flash, as the board computed it |
| FlashDriver.SaveCrc | libhcan++/board_driver.cc:633-638 | checksum and size stand in the EEPROM where the firmware check looks for them |
| FlashDriver.TryFlash | libhcan++/board_driver.cc:474-600 | one attempt without losses ends the command: it is finished, with the application running, exactly when the board's checksum is the one of the image, and the firmware check accepts the flash; without losses of host frames the flash equals the image |
| FlashDriver.Conclude | libhcan++/board_driver.cc:566-600 | the board's checksum is stored and compared if it answers, and the application started unless it differs |
| FlashDriver.EnterBootloader | libhcan++/board_driver.cc:609-615 | after reset, boot stop and state request the board listens; nothing stored changes |
| FlashDriver.FlashWithRetries | libhcan++/board_driver.cc:469-619 | up to three attempts, each but the last given up after a loss; the command gives up only after three of them or when the board cannot be stopped again; an attempt without a loss decides, and success means the image in flash and the application running |
| FlashDriver.LostReplyRetried | libhcan++/board_driver.cc:602-618 | when only replies are lost and only in the first attempt, at most one more is made and the command comes to its regular end |
| FlashDriver.ChooseMode | libhcan++/board_driver.cc:428-466 | incremental mode is chosen exactly when the board's checksum is the one of the cached image |
| FlashDriver.CmdFlash | libhcan++/board_driver.cc:350-620 | the whole command: refused exactly when too large; incremental exactly when that is wanted, there is a cached image and the board's checksum is the one of that image; equal pages never written; and then the attempts as above |
| FlashCommand.FlashRecords | libhcan++/board_driver.cc:393-620 | from hex records to flash: without losses an image below 64 KB that is not refused ends up in flash, padded with FFh to whole pages, accepted and running, incrementally, too, if the board holds the cached image or its checksum differs from that image's |
| QueryText.SplitJoin | libhcandata/data_query.cc:83-84 | words written with blanks between them are read back |
| QueryText.DecimalValue | libhcandata/data_query.cc:89-92 | a number written in decimal is read back |
| DataQuery.KeywordCode | libhcandata/data_query.cc:98-244 | every keyword is found in the chain of comparisons and gives its own code |
| DataQuery.Query.Compile | libhcandata/data_query.cc:70-253 | the code of the words in order, then the terminator; refused exactly for more than 126 code words |
| DataQuery.Query.Push | libhcandata/data_query.cc:354-359 | the pointer moves up and fails exactly above 15; a value pushed inside the array is the new top |
| DataQuery.Query.Pop | libhcandata/data_query.cc:361-368 | the pointer moves down and fails exactly below 0; inside the array the value is the old top |
| DataQuery.Query.Execute | libhcandata/data_query.cc:264-345 | one opcode does to the array stack what `Step` does to the abstract one, errors included, and to the pointer what `StepPointer` says, wherever it stood |
| DataQuery.Query.Match | libhcandata/data_query.cc:255-352 | on an empty stack the outcome of the run, thrown errors included, and after an answer the stack is empty again; from any pointer left behind, the error and the new pointer are those the code alone determines |
| QueryMachine.ErrorsIgnoreFrame | libhcandata/data_query.cc:255-368 | the outcome of a run is an error exactly when a computation that never sees the frame says so, and that error |
| QueryMachine.ThrowsAlike | libhcandata/data_query.cc:255-368 | whether a match throws, and what, is the same for all frames |
| QueryMachine.LowerUnderruns | libhcandata/data_query.cc:354-368 | where a run underruns the stack, one that begins lower underruns it, too |
| QueryMachine.HigherFails | libhcandata/data_query.cc:354-368 | where a run ends in another error, one that begins higher ends in the same error, as much higher, or overflows |
| QueryMachine.AllOrNone | libhcandata/data_query.cc:255-368 | a query object answers every frame or throws on every frame: once a match threw, none ever answers, although the pointer left behind differs each time |
| Bits.AndOrBits | libhcandata/data_query.cc:309-342 | each bit of the values of the bitwise operators; with SameBits the bits determine them |
| QueryCompiler.OperatorTruth | libhcandata/data_query.cc:309-342 | what the truth of an operator's value says about its operands |
| DataQuery.EncodeKnown | libhcandata/data_query.cc:86-244 | a word yields code exactly if it is a number or a keyword, and only code of instructions the machine knows |
| QueryCompiler.PostfixCompiles | libhcandata/data_query.cc:70-253 | the postfix words of an expression compile to its code |
| QueryCompiler.BinaryPushes | libhcandata/data_query.cc:309-342 | the code of two operands and an operator pushes the value of the operation, with the stack it needs |
| QueryCompiler.RunCode | libhcandata/data_query.cc:255-352 | the code of an expression pushes the expression's value on whatever is on the stack, or overflows |
| QueryCompiler.QueryCorrect | libhcandata/data_query.cc:255-352 | a match answers exactly when the code has at most 31 words and the stack gets at most 15 deep, and then with the truth of the expression |
| QueryCompiler.MatchExpression | libhcandata/data_query.cc:60-368 | text, compilation and match together give the truth of the expression on every frame |
| Syslog.SendMessage | canix/syslog.c:40-84 | the frames of a message: the priority and the text with its newline, cut into pieces of 8, when the level admits it |
| Syslog.Receiver.Receive | libhcan++/transport_connection.cc:374-445 | one frame changes the open messages and prints as the transition the theorems are about |
| Syslog.Receiver.ReceiveAll | libhcan++/transport_connection.cc:370-451 | so does a run |
| Syslog.SourcesIndependent | libhcan++/transport_connection.cc:384-443 | what is printed for a source depends on that source's frames only |
| Syslog.MessagesComeThrough | canix/syslog.c:64-82 | messages of one source that meet the condition come out complete, in order and with their priorities |
| Syslog.InterleavedRoundTrip | libhcan++/transport_connection.cc:370-444 | the same under every interleaving with frames of other sources, whatever those send |
| Syslog.NothingMadeUp | libhcan++/transport_connection.cc:390-398 | no more bytes are printed than were received |
| Syslog.ComesThroughIff | libhcan++/transport_connection.cc:390-443 | a message comes through alone exactly when it has 8 bytes or more, no continuation frame begins with the priority byte and none but the last ends in a newline |
| Syslog.PlainMessageComesThrough | canix/syslog.c:58-82 | in particular messages of at least 8 bytes without inner newlines and without the priority byte |
| Syslog.TextsPrinted | canix/syslog.c:40-84 | from texts to output: the texts that the level admits are printed in order, each with a newline and cut only after 125 bytes, under every interleaving with other sources |
| TimeService.Service.TimerHandler | firmwares/controllerboard/timeservice.c:16-67 | one second of a node, as in the election that the theorems are about |
| TimeService.Service.CanCallback | firmwares/controllerboard/timeservice.c:69-107 | only a frame of a lower level resets the waiting time |
| TimeService.SecondDue | firmwares/controllerboard/timeservice.c:21-38 | a node sends when its due time is 1, and the due time counts down second by second |
| TimeService.RoundOfBest | firmwares/controllerboard/timeservice.c:16-107 | nobody disturbs the node of the lowest level, in whatever order the nodes take their turns |
| TimeService.BestSends | firmwares/controllerboard/timeservice.c:16-107 | the seconds in which that node sends, exactly |
| TimeService.BestTakesOver | firmwares/controllerboard/timeservice.c:16-107 | it sends first within takeover + interval + 1 seconds and then every interval + 1 seconds |
| TimeService.QuietRound | firmwares/controllerboard/timeservice.c:16-107 | in a second in which all others heard it recently enough, only it can send |
| TimeService.NobodyElse | firmwares/controllerboard/timeservice.c:16-107 | if every other takeover time exceeds its interval + 2, nobody else sends after its first frame |
| Dcf77.FeedField | firmwares/controllerboard/dcf77_receiver.c:246-294 | the bits of a field, one a second, leave their weight in the field's byte and their parity |
| Dcf77.FeedParity | firmwares/controllerboard/dcf77_receiver.c:266-276 | a parity bit sets the error flag exactly when the count of ones is odd, and starts afresh |
| Dcf77.Tables | firmwares/controllerboard/dcf77_receiver.c:228-242 | the table lays the six fields and three parity bits out as the time code has them |
| Dcf77.MinuteDecoded | firmwares/controllerboard/dcf77_receiver.c:246-294 | 38 arbitrary bits leave exactly the six field values and the parity error exactly for an odd group |
| Dcf77Minute.BcdWeight | firmwares/controllerboard/dcf77_receiver.c:240-242 | the weights of the BCD bits of a number add up to the number |
| Dcf77Minute.RoundTrip | firmwares/controllerboard/dcf77_receiver.c:246-294 | the encoded bits of any valid date and time leave exactly that date and time and no error |
| Dcf77Minute.FlipDetected | firmwares/controllerboard/dcf77_receiver.c:266-276 | any single wrong bit sets the parity error |
| Dcf77Receiver.Device.DecodeBit | firmwares/controllerboard/dcf77_receiver.c:246-294 | writes through the table into the new time what `Decode` says |
| Dcf77Receiver.Device.Scan | firmwares/controllerboard/dcf77_receiver.c:296-353 | classifies pulse and period and advances the device as `ScanPulse` and `ScanPeriod` say; the 100 Hz counter restarts exactly when a time is taken over |
| Dcf77Receiver.SecondsScanned | firmwares/controllerboard/dcf77_receiver.c:296-353 | k well-formed seconds have fed exactly their bits to the decoder |
| Dcf77Receiver.MinuteScanned | firmwares/controllerboard/dcf77_receiver.c:296-353 | a well-formed minute is taken over exactly when its parity is right, and the next one starts afresh |
| Dcf77Receiver.TimeArrives | firmwares/controllerboard/dcf77_receiver.c:246-353 | pulses and periods that carry an encoded time set the clock to that time |
| Dcf77Receiver.DisturbedMinuteDropped | firmwares/controllerboard/dcf77_receiver.c:296-353 | any pulse or period out of tolerance keeps the minute from being taken over |
| Dcf77Receiver.SecondsCounted | firmwares/controllerboard/dcf77_receiver.c:321-323 | the second counter counts the periods since the begin of the minute, up to 60 |
| Dcf77Receiver.MinuteTakenIff | firmwares/controllerboard/dcf77_receiver.c:321-351 | at a pause the time is taken over exactly when there were 59 pulses and no error remains, whatever the pulses carried; a minute of any other length is dropped |
| Rtc.Clock.UpdateDatetime | canix/canix.c:208-258 | one second of the clock in its fields |
| Rtc.Clock.UpdateDate | canix/canix.c:224-254 | midnight, for any bytes |
| Rtc.MonthLengths | canix/canix.c:230-244 | the lengths of the months, by the rule of long and short ones |
| Rtc.TickCounts | canix/canix.c:208-258 | one call adds one second to the absolute count of a calendar of 365 days and 256 years, and all fields stay in range |
| Rtc.RunCounts | canix/canix.c:208-258 | n calls add n seconds, modulo the 256 years |
| Rtc.CountDetermines | canix/canix.c:208-258 | the count determines date and time |
| Rtc.DayOfWeekCycles | canix/canix.c:226-228 | the day of the week after n calls: it moves on at every midnight and only then, cycling 1 to 7 |
| Rtc.AgeCountsHours | canix/canix.c:213-217 | `last_date_update` counts full hours and stops at 255 |
| Rtc.FreshIff | canix/canix.c:260-272 | after a time frame the date counts as valid exactly until the 255th full hour |
| Rtc.DateRecovers | canix/canix.c:230-254 | whatever bytes day and month hold, the third midnight leaves a date that exists, and two suffice except from day 255 of month 255 |

## Left out

- Sockets, select loops, MQTT, XML and JSON files, command line tools, LCD pages and keys: input and output around the
  parts modelled here.
- 1-Wire: noise on the wires, devices plugged in during a search, the MATCH and SKIP ROM commands, timing.
- OneWireBus.Bus.Reset: a short circuit, which the source reports like an absent device.
- OneWire.Discover: a data error can come from noise as well; the model has no cause for it but unplugging.
- EDS: addresses past the end of the EEPROM, `eds_init`, `eds_read_string`, the split of addresses into two bytes, and
  `eds_find_next_block`, which is the loop over a range of one type.
- Eds.Store.WriteToBlock: after a write that harms a header nothing is said about the blocks; the bytes are exact.
- Eds.Store.ReadByte: bytes past the end of the EEPROM are an arbitrary constant of the device.
- EdsHost.Connection.CreateBlock: requires that no described type is 0, the type of free blocks, as in the generated
  table; the table itself is not part of this model.
- Rolladen: information frames, the stopwatch (only logged), overflow of 32-bit products, and a configured running time
  of 0 (a division by zero).
- RolladenDrive.ButtonCommand: a one-button drive that aims at -1, the mark for no target, is not started by the source
  and is the subject of RolladenSafety.NotCalibratableIsUnsafe.
- Bootloader.Board.Handle: unaligned page addresses, buffer indexes past the buffer and EEPROM addresses past its end
  are preconditions, because the source hands them to the hardware or writes past an array.
- Bootloader.Board.Fill: a buffer index past the end of the buffer, for the same reason.
- Flashing: the boot timeout, hexadecimal text (records are given), the type request before, copying the image to the
  cache.
- FlashDriver.CmdFlash: when frames of the host get lost in the last attempt, nothing is claimed about the pages that
  were written, because the board's line counter is reset by the first frame of a line alone; the image counts modulo
  65536 bytes, as the host's 16-bit size does.
- FlashDriver.LostReplyRetried: after a lost frame of the host, acknowledgements too many can be pending, and then the
  board cannot be stopped again; the source lets that error pass out of the command.
- FlashCommand.FlashRecords: the final contents are claimed for images below 64 KB on a link without losses; on others
  they are those of FlashDriver.CmdFlash.
- HexFile.Image.Load: requires that the padding loop ends; when it does not is stated by HexFile.PaddingEndsIff.
- DataQuery.Query.Push: a write outside the stack array, after an overflow or from a pointer below -1, is undefined in
  the source and left out; it could hit other fields of the object.
- DataQuery.Query.Pop: a read outside the stack array returns an arbitrary constant.
- Syslog.Receiver.Receive: frames without payload (on most of which the source throws), the printed time and name, and
  messages of one source nested into each other are not covered.
- Syslog.ComesThroughIff: the comparison with the priority is that of a host whose `char` is signed.
- TimeService: contents of the frames, and the DCF77 receivers that wait in the same way.
- TimeService.BestSends: requires that the counter of sent frames does not exceed the interval, as from power-on.
- DCF77: the input handler that measures pulses and periods, and the time frames sent by the receiver.
- Rtc: setting the clock from time and date frames, uptime, the 100 Hz interrupt.
