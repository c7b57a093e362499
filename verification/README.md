# Verification of the single-board computer's software

Dafny models and proofs of four parts of the repository:

1. **The storage stack.** A small inode file system (`fs.c`) on a block client (`mcu/disk.c`) that sends framed
   commands over the same serial stream as debug text, to a host process (`tokenizer.go`, `main.go`) that picks the
   frames out and applies them to a disk image.
2. **The monitor** (`wozmon.s`): line editor, hex parser, command interpreter and hex printer in 8-bit arithmetic.
3. **The scheduler** (`scheduler.s`, `main.s`): two threads, a timer interrupt, one stack page.
4. **The chained hash table** (`hash.c`).

`dafny verify dfyconfig.toml` checks everything.

## How it is put together

| files | what they hold |
|---|---|
| `Bytes.dfy` | bytes, 16-bit words, overlaying a sequence |
| `Frames.dfy` | the tokenizer as an automaton over bytes; conservation, magic matching, framing round trip |
| `Tokenizer.dfy`, `Host.dfy` | the Go tokenizer and the host loop as classes that follow that automaton |
| `Link.dfy` | microcontroller and host as two processes joined by two queues, every interleaving |
| `McuDisk.dfy` | the block client as a class; the host may run at any point between two bytes |
| `Layout.dfy` | inodes and superblock as bytes of a block |
| `FsModel.dfy` | the file system's operations on a volume and a map of free blocks |
| `FsTheorems.dfy`, `FsRuns.dfy`, `FsHistory.dfy` | what those operations achieve, and what every run keeps |
| `FsWitnesses.dfy` | inputs, reached from a fresh disk, on which the file system fails its callers |
| `FsBytes.dfy` | where everything is on the disk, byte by byte |
| `FsBlocks.dfy`, `FileSystem.dfy` | the C code block by block over the serial disk, proved to be those operations |
| `WozmonModel.dfy`, `WozmonTheorems.dfy`, `WozmonDump.dfy`, `WozmonScreen.dfy` | the monitor in its own terms; printing and parsing undo each other; the screen |
| `Wozmon.dfy` | the 6502 routines on registers, carry and memory, proved to do what the model says |
| `SchedModel.dfy`, `SchedTheorems.dfy` | processor, interrupts and threads; non-interference over every run |
| `SchedMain.dfy`, `SchedProgress.dfy` | the two threads of `main.s`: safety, and how often they print |
| `Scheduler.dfy` | the scheduler's routines step by step |
| `HashModel.dfy`, `HashRuns.dfy`, `HashTable.dfy` | buckets as multisets of pairs, runs, and the C code in place |

Code that changes state is a class or a method with loops; its `ensures` equate the new state with a function of the
old one, and the lemmas are about those functions. `int` and `size_t` have 16 bits, and every wrap-around is written
out.

## What turned out false, and exactly when it is true

- **A thread's line.** `main.s` loads the string's address before `sei`, and the scheduler does not preserve A. A thread
  hands over its own string's address if and only if no interrupt came between its `lda` and its `sei`, or the low byte
  of that address happens to be the thread's number (`SchedMain.HandsOver`; a run that goes wrong:
  `SchedMain.DisturbedLine`).
- **A write that needs fewer blocks than the file has.** The wrapped block count is then just below 65536, every free block
  is marked used and -4 is returned. An exact map stays exact if and only if the write needs at least as many blocks as
  the file has (`FsHistory.CoherentIff`, `FsTheorems.WrappedArithmetic`). Input: format, mount, create, write 600 bytes,
  write 10 (`FsWitnesses.ShrinkingWriteFails`).
- **A format of a mounted disk.** `fs_format` does not touch the cached map, and the shell's `fsfmt` does not mount. The
  map stays exact if and only if there were no files (`FsHistory.FormatIff`). Input: format, mount, create, format
  (`FsWitnesses.FormatLosesBlock`). Over whole runs the map is exact if and only if every command since the last mount
  kept it (`FsHistory.EveryRunCoherent`): only a mount finds lost blocks again.
- **The place of written data.** Data land at the offset asked for, for every data of that length, if and only if the
  offset is below 512 (`FsRuns.PlacementExact`). Input: one byte written at 512 of a file of 600
  (`FsWitnesses.FarWriteMisplaced`).
- **The buffer of a read.** A read of n bytes fills its buffer with the start of the file, for every buffer, if and only
  if n is at most 512 (`FsHistory.ReadExact`). Input: 600 bytes of a file of 600 (`FsWitnesses.LongReadStops`).
- **Finding a command in the stream.** Outside frames the matcher fires at an occurrence of the magic if and only if its
  first byte does not arrive while another attempt is open (`Frames.FiresIff`). Input: `@@cmdmode`, which is read as text
  (`Frames.DoubledAtHidesMagic`).
- **Setting a key twice.** `tablec_set` never overwrites. A lookup then finds the new value unless an older pair with
  that key lies above the holes of the bucket, and there are some (`HashModel.GetAfterSet`). Input: in a table of one bucket, set k1, set k2,
  delete k1, set k2 again (`HashRuns.OldValueFound`).

## Where code and comments disagree

The model follows the code. `wozmon.s:17` gives the mode byte as $7F and $AE and `wozmon.s:71` as $7B; the code stores
$74 and $B8. `wozmon.s:119` has the meaning of bit 6 upside down. `scheduler/um245.s:68` says that `_serial_writeline`
preserves all registers; it swaps A and Y. `scheduler/scheduler.s:107` says that A is saved; what is saved is the number
of the thread.

## Model

| member | source | states |
|---|---|---|
| `Frames.FeedAppend` | serial/main.go:141-162 | the tokens and the text do not depend on how the stream is cut into reads |
| `Frames.Conservation` | serial/tokenizer.go:49-108 | for every stream, re-encoding what was handed on, then the bytes held, gives the bytes submitted |
| `Frames.FiresOnlyOnMagic` | serial/tokenizer.go:50-75 | a frame begins only right after the eight bytes of the magic |
| `Frames.MatcherTracks` | serial/tokenizer.go:50-75 | while the magic does not occur, all but the pending partial match has come out as text, in order |
| `Frames.CleanTextPasses` | serial/tokenizer.go:50-62 | text without the magic, not ending in a beginning of it, comes out as text and leaves the matcher idle |
| `Frames.FiresIff` | serial/tokenizer.go:50-75 | from any position outside frames, before or after any number of frames, the matcher fires exactly at an occurrence of the magic that begins while no attempt is open |
| `Frames.IdleIffNotMidMatch` | serial/tokenizer.go:53-62 | at any position outside frames, the matcher is idle exactly when no attempt is open, a property of the text since the last frame |
| `Frames.PlainSearch` | serial/tokenizer.go:50-75 | on a stream where no `@` arrives inside an attempt, a frame begins exactly after every occurrence of the magic outside frames |
| `Frames.TextStartsIdle` | serial/tokenizer.go:90-105 | text begins with the matcher idle: at the start of the stream, or where the last frame ended |
| `Frames.DoubledAtHidesMagic` | serial/tokenizer.go:53-62 | `@@cmdmode` is text, though the magic occurs in it |
| `Frames.PacketYieldsFrame` | shell_in_c/fs/src/mcu/disk.c:21-47 | what `sendPacket` sends for 1 to 65535 bytes is read back as one frame with those bytes |
| `Frames.EmptyPacketSwallows` | serial/tokenizer.go:86-107 | a frame of length 0 never ends |
| `Frames.FramingRoundTrip` | shell_in_c/fs/src/mcu/disk.c:43-47 | any interleaving of clean text and packets comes back as it was sent |
| `Frames.FramingRoundTripInChunks` | serial/main.go:142-161 | the same, however the stream is cut into reads |
| `Tokenizers.Tokenizer.constructor` | serial/tokenizer.go:18-23 | a new tokenizer is idle and empty |
| `Tokenizers.Tokenizer.Submit` | serial/tokenizer.go:49-108 | one byte moves the state and adds to the text and the queue of tokens as the automaton says |
| `Tokenizers.Tokenizer.NextToken` | serial/tokenizer.go:110-117 | takes the oldest token, or says there is none |
| `Tokenizers.Tokenizer.Data` | serial/tokenizer.go:119-121 | hands over the text and forgets it |
| `Hosts.DiskImage.Read` | serial/tokenizer.go:167-182 | the 512 bytes of the sector |
| `Hosts.DiskImage.Write` | serial/tokenizer.go:184-197 | the image with the data laid over it from the sector on |
| `Hosts.Host.HandleToken` | serial/main.go:205-249 | a read replies with the sector, a write changes the image, anything else ends the process |
| `Hosts.Host.TakeByte` | serial/main.go:149-161 | one byte through the tokenizer, and its frame or text dealt with |
| `Hosts.Host.Turn` | serial/main.go:141-162 | however much a read returns, the host is still heading for the same state, and some bytes nearer to it, even if a command ends the process |
| `Hosts.DrainAppend` | serial/main.go:149-161 | the host's work on two pieces of stream is its work on the whole |
| `Links.CallTaken` | shell_in_c/fs/src/mcu/disk.c:49-100 | once the host has taken a call it is idle again, its image changed and its reply given as by an array of blocks |
| `Links.ReadOnWire` | shell_in_c/fs/src/mcu/disk.c:57-64 | the twelve bytes `disk_read` sends, one by one |
| `Links.WriteOnWire` | shell_in_c/fs/src/mcu/disk.c:89-96 | the twelve bytes `disk_write` sends before the block, one by one |
| `Links.ReadServed` | serial/main.go:208-224 | a live host answers those bytes with the 512 bytes at 512 times the sector of a 256000-byte image, and does nothing else |
| `Links.WriteServed` | serial/main.go:226-243 | a live host puts the block there, and does nothing else |
| `Links.FrameServed` | serial/main.go:205-249 | what any frame does: `R` and a sector is answered, `W` and a sector is written, anything else ends the process |
| `Links.InvSend` | shell_in_c/fs/src/mcu/disk.c:35-41 | sending one byte keeps the invariant |
| `Links.InvTakeReply` | shell_in_c/fs/src/mcu/disk.c:67-69 | receiving one byte keeps the invariant |
| `Links.InvHostByte` | serial/main.go:149-153 | a byte taken by the host keeps the invariant |
| `Links.EveryRunIsPlain` | shell_in_c/fs/src/mcu/disk.c:49-100 | in every interleaving each `disk_read` returns what a plain array of blocks would, and no disk bytes are left over between calls |
| `Links.NeverStuck` | shell_in_c/fs/src/mcu/disk.c:67-69 | in every interleaving some step is possible until all is done |
| `Links.EveryRunEnds` | serial/main.go:205-225 | every interleaving is finite, with a bound known at the start |
| `McuDisks.McuDisk.constructor` | serial/tokenizer.go:130-156 | the line and the host over an image, nothing in flight |
| `McuDisks.McuDisk.SerialWriteByte` | shell_in_c/fs/src/mcu/disk.c:21-29 | a byte sent joins what the host is heading for |
| `McuDisks.McuDisk.SerialReadByte` | shell_in_c/fs/src/mcu/disk.c:67-69 | waits until a reply byte is there and takes the first one |
| `McuDisks.McuDisk.SendBytes` | shell_in_c/fs/src/mcu/disk.c:35-41 | the bytes in order, with the host running in between |
| `McuDisks.McuDisk.SendPacket` | shell_in_c/fs/src/mcu/disk.c:43-47 | the host will carry out exactly one frame |
| `McuDisks.McuDisk.Receive` | shell_in_c/fs/src/mcu/disk.c:67-69 | fills 512 bytes of the buffer with the reply |
| `McuDisks.McuDisk.DiskRead` | shell_in_c/fs/src/mcu/disk.c:49-71 | the buffer gets the block of the array, the array is unchanged, and what went over the line is exactly the read command |
| `McuDisks.McuDisk.DiskWrite` | shell_in_c/fs/src/mcu/disk.c:73-100 | the array with that block replaced, and what went over the line is exactly the write command |
| `McuDisks.McuDisk.DebugPrint` | shell_in_c/fs/src/mcu/disk.c:102-110 | clean text leaves the array alone |
| `Layout.InodeRoundTrip` | shell_in_c/fs/include/fs.h:36-44 | an inode's fields are read back from its bytes |
| `Layout.InodeBytesRoundTrip` | shell_in_c/fs/include/fs.h:36-44 | 96 bytes read as an inode and written again are the same bytes |
| `Layout.PutGet` | shell_in_c/fs/include/fs.h:46-52 | storing one inode of a block changes that one only |
| `Layout.GetPut` | shell_in_c/fs/include/fs.h:46-52 | storing an inode as it is changes nothing in the block |
| `Layout.SuperRoundTrip` | shell_in_c/fs/include/fs.h:28-34 | the superblock is read back |
| `FsBytes.InodeOnDisk` | shell_in_c/fs/include/fs.h:36-52 | block and byte where each field of each inode is, words least significant byte first |
| `FsBytes.SuperOnDisk` | shell_in_c/fs/include/fs.h:28-34 | the four words of block 0 |
| `FsBytes.FormattedOnDisk` | shell_in_c/fs/src/common/fs.c:218-252 | every byte of a formatted disk |
| `FsTheorems.NeededFormula` | shell_in_c/fs/src/common/fs.c:387-402 | the number of blocks needed, in the code's closed form |
| `FsTheorems.WrappedArithmetic` | shell_in_c/fs/src/common/fs.c:387-407 | -3 iff more than five blocks are needed; the wrapped sum is the blocks to add iff that is not negative, and otherwise above 64 |
| `FsTheorems.ShrinkingWriteWraps` | shell_in_c/fs/src/common/fs.c:389-402 | ten bytes to a file of three blocks: a loop bound of 65534 |
| `FsTheorems.NeededCovers` | shell_in_c/fs/src/common/fs.c:389-402 | the blocks needed cover the write with at most one to spare |
| `FsTheorems.TakeHead` | shell_in_c/fs/src/common/fs.c:101-110 | taking the first free block leaves the rest of the list |
| `FsTheorems.TakeLeaves` | shell_in_c/fs/src/common/fs.c:417-424 | taking the first i free blocks leaves the others, in order |
| `FsTheorems.EnoughFree` | shell_in_c/fs/include/fs.h:17-22 | with an exact map at least eight blocks are free |
| `FsTheorems.PtrsOfInode` | shell_in_c/fs/src/common/fs.c:165-186 | an inode's pointers are distinct data blocks followed by zeros, none iff it is not in use |
| `FsTheorems.GrowKeeps` | shell_in_c/fs/src/common/fs.c:417-424 | giving an inode the first free blocks keeps blocks unshared and the map sound, and exact if it was exact |
| `FsRuns.WriteResult` | shell_in_c/fs/src/common/fs.c:379-424 | with an exact map, which of 0, -2, -3 and -4 is returned, each if and only if; blocks never run out; only 0 changes the disk |
| `FsRuns.WrittenSafe` | shell_in_c/fs/src/common/fs.c:409-463 | a write keeps the allocation invariant |
| `FsRuns.WriteContents` | shell_in_c/fs/src/common/fs.c:426-461 | the file's bytes from the offset within its block on are the data, its other bytes are kept, its size is offset + length |
| `FsRuns.WriteIsolation` | shell_in_c/fs/src/common/fs.c:342-464 | a write, successful or not, changes no inode and no byte of any other file |
| `FsHistory.WrittenInode` | shell_in_c/fs/src/common/fs.c:445-461 | a write keeps its own inode's name, valid and type, and the pointers it had |
| `FsHistory.CreatedInode` | shell_in_c/fs/src/common/fs.c:306-325 | the name begins with `root` and otherwise stays, valid is 1, size 0, one pointer, the type stays |
| `FsRuns.PlacementExact` | shell_in_c/fs/src/common/fs.c:426-443 | every data of a length land where asked iff the offset is below 512 |
| `FsHistory.CreateResult` | shell_in_c/fs/src/common/fs.c:282-340 | the least inode not in use, with one block nobody else has; -1 iff all ten are in use or the map has lost every free block, which an exact map never has |
| `FsHistory.StatExact` | shell_in_c/fs/src/common/fs.c:535-539 | -1 iff the inode has no block; otherwise its size, which may be 0 |
| `FsHistory.StatFormatted` | shell_in_c/fs/src/common/fs.c:536-538 | after a format all ten inodes give -1 |
| `FsHistory.StatCreated` | shell_in_c/fs/src/common/fs.c:303-334 | a create turns exactly the least inode that gives -1 into one that gives 0, and fails iff none gives -1 |
| `FsHistory.StatWritten` | shell_in_c/fs/src/common/fs.c:453-461 | a write gives its own inode offset + length if it returns 0, and changes no other size |
| `FsHistory.EveryRunSafe` | shell_in_c/fs/src/common/fs.c:282-464 | over every run no block belongs to two files and no used block is called free |
| `FsHistory.EveryRunCoherent` | shell_in_c/fs/src/common/fs.c:258-280 | over every run, with formats and failures in it, a remount changes nothing iff every command since the last mount kept the map |
| `FsHistory.FormatIff` | shell_in_c/main.c:94-105 | a format keeps the cached map exact iff there were no files |
| `FsHistory.ExecKeepsLost` | shell_in_c/fs/src/common/fs.c:258-280 | a block the map has lost stays lost until the next mount |
| `FsHistory.CoherentIff` | shell_in_c/fs/src/common/fs.c:389-424 | one command keeps the cached map exact iff it is neither a write that needs fewer blocks than the file has nor a format of a disk with files |
| `FsHistory.FormatMountCoherent` | shell_in_c/fs/src/common/fs.c:207-280 | any disk formatted and mounted is a starting point of such runs |
| `FsHistory.RunKeepsFile` | shell_in_c/fs/src/common/fs.c:282-464 | a run that neither formats nor writes a file leaves its inode and bytes alone |
| `FsHistory.ReadExact` | shell_in_c/fs/src/common/fs.c:501-516 | the buffer is the start of the file, for every buffer, iff at most 512 bytes are read |
| `FsHistory.WriteReadPersistence` | shell_in_c/fs/src/common/fs.c:342-516 | what was written is read back after any run of creates, writes to other files and remounts |
| `FsWitnesses.ShrinkingWriteFails` | shell_in_c/fs/src/common/fs.c:389-424 | format, mount, create, write 600 bytes, write 10: -4, and no block is free any more |
| `FsWitnesses.FormatLosesBlock` | shell_in_c/main.c:94-105 | format, mount, create, format: the map is not what a mount would build |
| `FsWitnesses.FarWriteMisplaced` | shell_in_c/fs/src/common/fs.c:426-443 | one byte written at 512 of a file of 600 returns 0 and lands at byte 0 |
| `FsWitnesses.LongReadStops` | shell_in_c/fs/src/common/fs.c:501-516 | 600 bytes read from that file: the buffer keeps what it held from byte 512 on |
| `FileSystems.FileSystem.constructor` | shell_in_c/fs/src/common/fs.c:258-280 | mounting caches the map that the inodes on disk give |
| `FileSystems.FileSystem.Remount` | shell_in_c/fs/src/common/fs.c:258-280 | the same for a file system in use |
| `FileSystems.FileSystem.FindEmptyBlock` | shell_in_c/fs/src/common/fs.c:101-110 | the least free block, or -1 |
| `FileSystems.FileSystem.Allocate` | shell_in_c/fs/src/common/fs.c:416-424 | the first free blocks go into the pointers, or none is left free |
| `FileSystems.FileSystem.Create` | shell_in_c/fs/src/common/fs.c:282-340 | disk, map and result are those of the model's create |
| `FileSystems.FileSystem.Write` | shell_in_c/fs/src/common/fs.c:342-464 | disk, map and result are those of the model's write, for every offset and length |
| `FileSystems.BlocksToAdd` | shell_in_c/fs/src/common/fs.c:387-407 | the sum in 16-bit arithmetic, and whether it is refused |
| `FileSystems.WriteContent` | shell_in_c/fs/src/common/fs.c:426-443 | the loop ends, stays within the pointers, and lays the data over the file's blocks |
| `FileSystems.WriteDataBlock` | shell_in_c/fs/src/common/fs.c:188-198 | bytes of one block are replaced and the others kept |
| `FileSystems.DirectPointersLen` | shell_in_c/fs/src/common/fs.c:165-186 | how many pointers come before the first zero |
| `FileSystems.FormatDisk` | shell_in_c/fs/src/common/fs.c:207-256 | a superblock and ten inodes not in use, data blocks kept |
| `FileSystems.ReadFile` | shell_in_c/fs/src/common/fs.c:466-522 | result and buffer are those of the model's read, for every length |
| `FileSystems.StatFile` | shell_in_c/fs/src/common/fs.c:524-540 | the size, or -1 if not in use |
| `FileSystems.GetBlocksBitmap` | shell_in_c/fs/src/common/fs.c:39-99 | a block is free iff it is a data block no inode refers to |
| `FileSystems.FindInvalidInode` | shell_in_c/fs/src/common/fs.c:298-305 | the least inode not in use, with its block |
| `WozmonModel.TypeAppend` | wozmon.s:55-63 | what keys do does not depend on how they are grouped |
| `WozmonTheorems.Hex2RoundTrip` | wozmon.s:175-189 | parsing what `PRBYTE` prints gives the byte back |
| `WozmonTheorems.Hex4RoundTrip` | wozmon.s:147-150 | parsing a printed address gives the address back |
| `WozmonTheorems.ExaminePrints` | wozmon.s:159-173 | for any two addresses, each address after the first up to the second is printed once, in order, and the rest is unchanged |
| `WozmonTheorems.TypeLine` | wozmon.s:55-63 | a plain line is echoed and handed to the parser as typed |
| `WozmonTheorems.DumpText` | wozmon.s:131-173 | a dump is lines of an address, a colon and the bytes up to the next multiple of 8 |
| `WozmonTheorems.BufferHoldsLine` | wozmon.s:33-63 | for every keystroke sequence without CR the buffer holds the line with its backspaces applied, and its length stays below 128 |
| `WozmonTheorems.BackspacesUndo` | wozmon.s:52-53 | as many backspaces as keys typed restore the line |
| `WozmonScreen.EditorScreen` | wozmon.s:33-63 | for any keys without CR the screen is a function of the keys: echoes, CR LF for a backspace on nothing, backslash CR LF for ESC and for the key that fills the buffer |
| `WozmonScreen.ItemRejected` | wozmon.s:114-116 | an item that is no delimiter, command or number rejects the line wherever it comes |
| `WozmonScreen.BadLine` | wozmon.s:41-53 | a line that begins with such an item prints its echo, a backslash, CR and LF, and changes no user memory |
| `WozmonScreen.UserByte` | wozmon.s:154-158 | for user memory the byte shown is the byte there |
| `WozmonScreen.OneAddress` | wozmon.s:134-158 | an address prints a header, a colon, a blank and the byte, and opens it for storing too |
| `WozmonScreen.OwnVariables` | wozmon.s:10-17 | where the monitor's variables are, as it shows them itself |
| `WozmonScreen.RunAtAddress` | wozmon.s:84-129 | an address and `R` leave for the program at that address |
| `WozmonDump.DumpAny` | wozmon.s:75-173 | `AAAA.BBBB` prints header and byte of the first address, then every address up to the second |
| `WozmonDump.StoreLine` | wozmon.s:118-126 | a printed line, as a command, stores its bytes and no others |
| `WozmonDump.DumpRestores` | wozmon.s:33-195 | what one monitor prints for a range, typed into another, restores that range and changes no other user byte |
| `Wozmon.HexTestExact` | wozmon.s:90-98 | `EOR #$30`, `CMP #$0A`, `ADC #$88`, `CMP #$FA` accept exactly the hex digits, with their value in the low nibble |
| `Wozmon.FourShifts` | wozmon.s:99-110 | four rounds of shifts through the carry bring a digit into H:L, modulo 65536 |
| `Wozmon.CompareWords` | wozmon.s:160-164 | `CMP` and `SBC` leave the carry set iff the examine index is not below H:L |
| `Wozmon.ModeBits` | wozmon.s:118-132 | `BIT MODE` tells the three modes apart |
| `Wozmon.Monitor.constructor` | wozmon.s:28-53 | from reset to the prompt |
| `Wozmon.Monitor.PrHex` | wozmon.s:184-195 | prints the digit of the low nibble |
| `Wozmon.Monitor.PrByte` | wozmon.s:175-189 | prints two digits |
| `Wozmon.Monitor.PrintLocation` | wozmon.s:141-158 | prints the byte of the open location, with a header if asked |
| `Wozmon.Monitor.XamNext` | wozmon.s:159-173 | terminates, and prints what block examine should |
| `Wozmon.Monitor.HexShift` | wozmon.s:104-110 | H:L becomes 16 times itself plus the digit, modulo 65536 |
| `Wozmon.Monitor.NextHex` | wozmon.s:90-112 | H:L is the value of the digit run, modulo 65536, and Y is past it |
| `Wozmon.Monitor.SetAdr` | wozmon.s:134-139 | the number becomes store index and open location |
| `Wozmon.Monitor.StoreByte` | wozmon.s:121-126 | the low byte is stored and the index moves on, through 16 bits |
| `Wozmon.Monitor.Act` | wozmon.s:114-173 | stores, examines up to, or opens, as the mode says |
| `Wozmon.Monitor.SetBlock` | wozmon.s:65-74 | the mode byte at the start of a line and at a full stop |
| `Wozmon.Monitor.SetStor` | wozmon.s:70-74 | the mode byte at a colon |
| `Wozmon.Monitor.DoLine` | wozmon.s:65-173 | a line of items does what the model's interpreter says, and how it ends |
| `Wozmon.Monitor.KeyPressed` | wozmon.s:33-63 | one key does what the model's editor says |
| `Wozmon.Monitor.Keys` | wozmon.s:33-173 | so do any number of keys |
| `SchedModel.PackUnpack` | scheduler/scheduler.s:127-128 | flags pushed by an interrupt come back by `rti` |
| `SchedModel.FlagWeights` | scheduler/scheduler.s:64-70 | which bit of the byte each flag is |
| `SchedTheorems.CallReturns` | scheduler/main.s:46-49 | a call pushes the address of its last byte and `RTS` comes back after it, with the stack as it was |
| `SchedTheorems.WriteLineRegisters` | scheduler/um245.s:76-88 | the registers after `_serial_writeline` are what its three pulls find on the stack |
| `SchedTheorems.ExecRefines` | scheduler/main.s:29-74 | an instruction of the running thread is the same instruction of that thread alone and nothing to the other |
| `SchedTheorems.InterruptRefines` | scheduler/scheduler.s:90-153 | the thread resumed finds registers, flags, PC and stack as it left them; the one preempted will, but for A |
| `SchedTheorems.HeadroomIsNeeded` | scheduler/scheduler.s:90-95 | with four bytes of stack left an interrupt overwrites the other thread's part of the page |
| `SchedTheorems.Noninterference` | scheduler/scheduler.s:90-153 | a run is possible iff each thread can do its share alone, and each thread then has what its share gives |
| `SchedTheorems.TakingTurns` | scheduler/scheduler.s:97-153 | who runs after n interrupts |
| `SchedTheorems.AlwaysFramed` | scheduler/scheduler.s:106-150 | in every state the waiting thread has a frame in its own part of the page, with I clear |
| `SchedMain.SoundAlways` | scheduler/main.s:29-74 | where a thread of `main.s` can be, with I set exactly between `sei` and `cli`, and what A and X hold |
| `SchedMain.MutualExclusion` | scheduler/main.s:39-44 | over every run the waiting thread is never in its critical section, and the running one can always go on |
| `SchedMain.HandsOver` | scheduler/main.s:36-43 | the address printed is the thread's own iff no interrupt came between `lda` and `sei` (or the byte is the same) |
| `SchedMain.OwnLines` | scheduler/main.s:29-64 | every line is the thread's own or that at the stray address; undisturbed, its own |
| `SchedMain.DisturbedLine` | scheduler/main.s:36-43 | a run of the machine in which thread 0 prints from the stray address |
| `SchedProgress.LinesPrinted` | scheduler/main.s:29-74 | whatever interrupts come, a thread prints one line in every 3082 of its instructions, with the fourth, and is back at its start after each 3082; Y is 0 after each `busy_loop` |
| `SchedProgress.PassesAlone` | scheduler/main.s:29-74 | left alone for n passes a thread prints its own line n times and is back at its start |
| `SchedProgress.BothPrint` | scheduler/main.s:29-74 | in every run of the machine each thread has printed one line for every 3082 instructions it was given |
| `SchedProgress.PassesOnMachine` | scheduler/main.s:29-50 | n passes after boot without an interrupt: thread 0 has printed its line n times, thread 1 is as it was |
| `Scheduler.Cpu.SwitchThread0` | scheduler/scheduler.s:106-128 | saves thread 1, resumes thread 0 |
| `Scheduler.Cpu.SwitchThread1` | scheduler/scheduler.s:131-153 | saves thread 0, resumes thread 1 |
| `Scheduler.Cpu.SchedulerIrq` | scheduler/scheduler.s:90-153 | the routine is the interrupt of the step relation |
| `Scheduler.Cpu.SchedulerInit` | scheduler/scheduler.s:32-86 | a frame that starts thread 1 with all flags clear, thread 0 running, the caller's stack kept |
| `Scheduler.Cpu.Boot` | scheduler/main.s:15-27 | both threads at their start, which is where the runs begin |
| `HashModel.SetAdds` | shell_in_c/fs/src/common/hash.c:55-125 | exactly one pair is added, in a hole or a larger array, and no other moves |
| `HashModel.DelRemoves` | shell_in_c/fs/src/common/hash.c:140-156 | the pair a lookup would find is removed, and no other |
| `HashModel.GetFinds` | shell_in_c/fs/src/common/hash.c:127-138 | a bucket's lookup finds a pair iff there is one |
| `HashModel.SetTakes` | shell_in_c/fs/src/common/hash.c:59-124 | which slot a set takes: 0 of an empty bucket, else the highest hole, else the first past the end of an array that doubles |
| `HashModel.GetAfterSet` | shell_in_c/fs/src/common/hash.c:84-138 | a lookup after a set finds the new pair, unless an older pair with the key lies above the holes of the bucket |
| `HashModel.EmptiedBucket` | shell_in_c/fs/src/common/hash.c:59-97 | in an emptied bucket of two slots, a key set twice is in slots 0 and 1, and a lookup finds the second value |
| `HashModel.HomeOfAb` | shell_in_c/fs/src/common/hash.c:22-28 | the key `ab` in 128 buckets goes to bucket 103 |
| `HashModel.HashIsPolynomial` | shell_in_c/fs/src/common/hash.c:22-28 | the hash is the sum of the bytes times powers of 37, modulo 65536 |
| `HashModel.GetOther` | shell_in_c/fs/src/common/hash.c:55-156 | setting or deleting a key changes no lookup of another |
| `HashRuns.SetAddsOne` | shell_in_c/fs/src/common/hash.c:55-125 | the table gains one pair, and every key is still in its home bucket |
| `HashRuns.DelRemovesOne` | shell_in_c/fs/src/common/hash.c:140-156 | the table loses the pair that `tablec_get` finds, or nothing |
| `HashRuns.GetFindsIff` | shell_in_c/fs/src/common/hash.c:127-138 | `tablec_get` finds a pair with the key iff the table has one |
| `HashRuns.TableIsMap` | shell_in_c/fs/src/common/hash.c:8-156 | after any run from `tablec_init` in which only absent keys are set, lookups are those of a map |
| `HashRuns.OldValueFound` | shell_in_c/fs/src/common/hash.c:84-138 | set k1, set k2, delete k1, set k2 in a table of one bucket: a lookup of k2 gives the first value |
| `HashTables.HashTable.constructor` | shell_in_c/fs/src/common/hash.c:8-20 | every bucket has one hole |
| `HashTables.HashTable.HashKey` | shell_in_c/fs/src/common/hash.c:22-28 | the hash in 16 bits, modulo the number of buckets |
| `HashTables.HashTable.Set` | shell_in_c/fs/src/common/hash.c:55-125 | arrays and lengths are those of the model's set |
| `HashTables.HashTable.Grow` | shell_in_c/fs/src/common/hash.c:99-117 | an array of twice the size with every slot in its place |
| `HashTables.HashTable.Get` | shell_in_c/fs/src/common/hash.c:127-138 | the slot that the model's lookup gives |
| `HashTables.HashTable.Del` | shell_in_c/fs/src/common/hash.c:140-156 | arrays and lengths are those of the model's deletion |

## Left out

- FileSystems.FileSystem.constructor: mounting needs a volume in order; on other disks the map is indexed by whatever the pointers hold.
- FileSystems.FileSystem.Remount: the same.
- FileSystems.GetBlocksBitmap: the same.
- FileSystems.FileSystem.Write: needs a volume in order and a map that calls no used block free, as every run after a format and a mount leaves them; debug text is any text without `@`.
- FileSystems.FileSystem.Allocate: pointers past the inode's five are stored in the block buffer that is then given up; that buffer is not modelled.
- FileSystems.ReadFile: needs a volume in order, as every run after a format leaves it.
- Hosts.Host.Turn: text goes to the console as bytes; the host prints bytes from $80 on as two-byte UTF-8.
- McuDisks.McuDisk.DebugPrint: text that holds the magic, or ends in a beginning of it, could be taken for a command; no debug text of the file system has an `@`.
- McuDisks.McuDisk.SerialReadByte: a reply byte must be on its way, as it always is; keystrokes sent to the link during a pending read are not modelled.
- Wozmon.Monitor.constructor: MODE is assumed to hold one of its three codes at reset; every line stores it before reading it.
- Wozmon.Monitor.DoLine: a store outside user RAM ends the model of the line; examined I/O addresses and ROM read as memory.
- Wozmon.Monitor.StoreByte: only for addresses in user RAM, as above.
- Wozmon.Monitor.PrByte: `JSR`, `PHA` and `PLA` are calls and local variables; the stack page is not written.
- Scheduler.Cpu.Boot: the stack pointer at reset is assumed to be at least $87; the code does not set it.
- Scheduler.Cpu.CounterInit: timer and port registers are devices, not memory.
- SchedTheorems.ExecRefines: `_serial_writeline` is one step, possible with interrupts off only; texts of 256 bytes and more would also move its own pointer.
- SchedTheorems.Noninterference: threads do not use `TXS`, `PLP` or `BRK`, and memory that both use is not modelled.
- HashTables.HashTable.Set: the doubled capacity is not cut to 16 bits; memory runs out long before.
- HashTables.HashTable.Grow: the same.
- HashTables.HashTable.Get: gives the slot's contents, not a pointer through which it could be changed.
- The table-level `length`, `tablec_full` and `tablec_resize` of `hash.c`: the growth branch does not count, and resizing drops each bucket's top slot.
- Failing `malloc`, inode numbers from 10 on, `fs_info`, `fs_find`, `fs_inodes_walk`, `fs_remove`, `fs_unmount`: unused, partial or trivial.
- The FUSE backend, the host's console, ports, reconnection and logs, and stdin: a different backend, and input and output.
- The pin-level serial, LCD and SPI drivers, and the simulator: queues of bytes stand for the serial line.
- Instruction encodings and cycle counts of the 65C02: interrupts come between instructions while I is clear.
- The monitor's `R` command beyond the jump, and `shell_in_c/wozmon.s`, whose input buffer shares the zero page.
