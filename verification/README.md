# LPTStore, proved layer by layer

LPTStore serves disk images on a USB stick to a DOS machine through its parallel port. A DOS driver
(`dos/SDPP10`) splits requests into 512-byte blocks and talks a byte protocol to a Raspberry Pi Pico
(`pico`), which finds the images on a FAT32 volume (`fs/fat32.c`) and reads them over USB. This project
models that path in Dafny and proves what each layer promises, and that the layers fit together.

`dafny verify dfyconfig.toml` checks everything.

## The layers

| file | what it models |
|---|---|
| `Codec.dfy` | the zero-run sector codec, present in three identical copies in the repository |
| `Handshake.dfy` | one byte over the wires: two program counters, strobe, acknowledge, four data pins, every interleaving |
| `Line.dfy` | the line as both programs see it: bytes in order between a host and a reacting machine |
| `Protocol.dfy` | the device's command server as a machine that reacts to one byte at a time, over any disk |
| `Host.dfy`, `Session.dfy` | the driver's `LPTRead` and `LPTWrite`, whole sessions of calls, and a plain array of sectors |
| `ServerTask.dfy`, `Bounds.dfy` | `lptprotocol_task` with its two 512-byte buffers, against the machine of `Protocol.dfy`; when it stays inside them |
| `FullStack.dfy` | calls, bytes, wires and the device's loop composed |
| `BlockStore.dfy` | the two small in-memory stores (`pico/diskfake.c`, the `FAKE_LPT` driver) and their agreement |
| `Fat32.dfy`, `DiskImages.dfy` | cluster chains, the FAT cache, the contiguity check, the directory scan, `init_disk` |
| `DirectMapping.dfy` | the `lba + sector` fast path against the chain walk; isolation of writes |
| `ImageServer.dfy` | the server over image files as a plain array of sectors per image |
| `Prefetch.dfy`, `PrefetchRuns.dfy` | the asynchronous one-sector read-ahead on two cores; the runs that show its rules are exact |
| `ImageReadAhead.dfy` | the image files accessed through the read-ahead |
| `FileHarness.dfy` | the whole-file round trip of `fs/comp.c` |

`Bytes.dfy` holds the byte and sector types.

## What turned out

* The encoder may write one byte past a 512-byte output: the limit is tested after an iteration that can
  write two bytes. It does so exactly for sectors that meet `WritesCell512`, for instance 00 01 00 01 ...
  up to the end. Every buffer the source passes has 512 bytes, except the driver's, which has 1024.
* So the device does not always stay inside its buffers. It does if and only if every sector it reads is one
  it can compress in 512 bytes, no packed write brings it a 513th data byte (a header that announces more does
  no harm by itself) and every complete one decodes to at most 512 (`StaysInsideIff`, for any input). There is
  a concrete input for each of the three ways out. What the driver sends can only take the first: a session
  stays inside if and only if no block it reads meets `WritesCell512` (`DriverStaysInsideIff`). What happens
  after leaving is undefined in C; the machine has a phase `Undefined` for it, and results about whole sessions
  ask for `SafeSession`.
* The decoder's two-byte lookbehind equals a parser that tracks a pending marker on exactly the streams in
  which no token `00 00` is followed by `00` and one more byte. Encodings are such streams.
* Bursts in one direction need no timing assumption. Turns do, and in both directions: the device must not
  raise ack for a reply before the host's closing poll, and the host must not raise strobe for the next
  request before the device's. Under a fair schedule a session completes if and only if both are respected;
  otherwise both sides poll for ever (the model has no timeouts). Both hangs have a concrete schedule.
* The fast path equals the chain walk exactly as far as the chain goes. A file longer than its chain is
  served past the end of the chain.
* After a failed contiguity check of CONFIG.BIN only `cfg_cluster` is cleared, not `cfg_lba`: the bit for it
  in the bitmap is off while sector access to it still works (`Target` follows the code).
* The two builds end with the same table exactly when a run writes at most 50 different blocks. Their answers
  agree more often: exactly when no read asks for a block that was first written 51st to 200th and last
  written with something else than its default contents. But every run can be followed by one that tells them
  apart.
* Read-ahead returns stale data if one of three rules is broken, and the rules are exact. (1) `read_sector`
  must not clear `prefetching_complete` between the callback's stores to `complete` and
  `prefetching_complete`: the flag would be set again while the next read-ahead is in flight. (2) A write must
  not change the sector read ahead. (3) A write must not start before the callback of the read-ahead has made
  its first store: the write would take that callback for its own. A run keeps the rules if and only if at
  every point of it everything that can follow within the rules is fresh; one step against them, at any point,
  can be followed within the rules by a read that returns old data as a success (`RulesAreExact`).
* The status of `read_sector` is shared with the read-ahead. If `result` is never looked at before the
  callback's store to it, a read of an existing sector always reports success if and only if the next sector
  exists, too; for the last sector of the disk it depends on timing. Without that condition no sector's status
  can be relied on, even in runs that keep the three rules.
* A sector that does not exist is reported as failed by every run of reads, also when it had been read ahead.
  A write in between resets the status that the failed read-ahead left, and then reading it succeeds
  (`MissingSectorStatus`).
* The fake driver's table compares a 16-bit unit with a stored byte. A unit of 256 or more is never found, and
  a block written for it twice takes two entries. The driver's callers pass a byte
  (`dos/SDPP10/DRIVER.H:114`, `dos/SDPP10/DRIVER.C:205`, `dos/SDPP10/DRIVER.C:227`).

## Assumptions

* Handshake: logical line levels (the inversion of the data pins is undone by the board), atomic port and
  pin accesses, no timeouts. The turn assumption is the predicate `Disciplined`; it is needed, see above.
* Driver: block numbers are 16-bit and wrap, as in the source. Only the low byte of the unit goes out. For
  the `FAKE_LPT` driver units are below 256, as its callers pass a byte.
* Disk behind the server: any state and any total functions for the four entry points. A failing read
  leaves the server's buffer as it was.
* FAT32: two FATs, at least one sector per cluster and one reserved sector, image names DISKA to DISKP, first
  clusters from 2 on, cleared tables before `init_disk`, an empty FAT cache (`init_disk` never sets
  `fat.offset`; the constructor of `Reader` does, as `fs/fat32.c:53` intends), a root directory chain that ends,
  and no sector number beyond 32 bits for the clusters that a contiguity check reaches (`WalkFits`). That holds
  if every cluster of the chain lies on a disk of 32-bit sector numbers (`ChainOnDiskFits`), and for clusters
  of up to 15 sectors whatever the links are (`SmallClustersFit`). USB transfers succeed in this layer. Write
  isolation also needs chains that do not cross, lie inside the FAT and cover their files: `Sound` on the
  tables, `SoundFiles` on the directory entries.
* Read-ahead: a command is accepted when none is in flight; in-range commands pass and others fail. A failing
  read may leave anything in the buffer.
* `buff |= ...` and `disk_bitmap |= 1 << i` on bits that are still clear are written as additions.

## Model

| member | source | states |
|---|---|---|
| Codec.Compress | pico/lptprotocol.c:11-40 | 0 exactly when the run-by-run code has 512 bytes or more, else exactly that code; a 512-byte output is enough exactly for sectors without `WritesCell512`, for the others cell 512 is written |
| Codec.CompressByte | pico/lptprotocol.c:14-30 | one loop iteration appends at most two bytes: the closed or filled run, then the literal |
| Codec.RunInNumbers | pico/lptprotocol.c:11-40 | n <= 256 zeros and the byte that ends them go out as 00, n - 1 and that byte |
| Codec.ScanSector | pico/lptprotocol.c:13-35 | the loop ends with the scan of the whole sector, or with 512 or 513 bytes written and a code that is too long |
| Codec.ScanMatchesEncode | pico/lptprotocol.c:12-38 | the left-to-right scan with a run counter agrees with the code defined run by run, wherever the input is cut |
| Codec.ResumeStep | pico/lptprotocol.c:15-30 | one more input byte, with a run of any length open |
| Codec.EncodeBounds | pico/lptprotocol.c:11-40 | the code shrinks at best 128 to 1 and grows at worst 2 to 3 |
| Codec.CompressedSize | pico/lptprotocol.c:32-39 | a success is between 4 and 511, so 0 can only mean failure; 0 if and only if the code has 512 bytes or more |
| Codec.OverrunDecided | pico/lptprotocol.c:24-34 | when an iteration passes the limit the code is too long, and a 513th byte was written exactly in the situation of `WritesCell512` |
| Codec.AlternatingSectorWritesCell512 | pico/lptprotocol.c:9-34 | a concrete sector for which the encoder writes past 512 bytes |
| Codec.LookbehindIsParserIff | pico/lptprotocol.c:44-53 | the stateless decoder and the two-state parser agree on a stream if and only if it is unambiguous |
| Codec.LookbehindCanDiffer | pico/lptprotocol.c:45 | a concrete stream on which they do not |
| Codec.EncodeUnambiguous | pico/lptprotocol.c:14-38 | every encoding is unambiguous: no run starts directly after a single-zero token |
| Codec.ParseEncode | pico/lptprotocol.c:11-55 | the parser undoes the encoder on inputs of every length |
| Codec.DecodeEncode | pico/lptprotocol.c:11-55 | the lookbehind decoder undoes the encoder on inputs of every length |
| Codec.SectorRoundTrip | pico/lptprotocol.c:42-55 | a sector's code decodes to the sector and the 512 guard stays silent |
| Codec.Decompress | pico/lptprotocol.c:42-55 | stores what the lookbehind yields up to the first run that would pass 512 bytes, returns its length or 0, touches nothing else |
| Codec.DecodeByte | pico/lptprotocol.c:45-52 | one byte: a run, a literal, a skipped marker, or the guard |
| Handshake.ReceivedIsPrefixOfSent | pico/lptcomms.c:60-148 | under every disciplined interleaving each side holds a prefix of what the other sent, at most one operation apart; when a byte routine has returned, the other side holds exactly the bytes completed |
| Handshake.SamplesAreStable | dos/SDPP10/LPTSTORE.C:361-387 | whenever a side is about to sample, the other is not changing its data lines and they show the nibble due, the high one first |
| Handshake.PinWeights | pico/lptcomms.c:120-148 | pin 0 carries the lowest bit of a nibble |
| Handshake.StepKeepsInv | pico/lptcomms.c:60-148 | every step of either side that respects the turn assumption keeps the wire and counter invariant |
| Handshake.StepDoesWork | pico/lptcomms.c:60-148 | a step is a fruitless poll or lowers the work left by one |
| Handshake.SomeoneCanMove | dos/SDPP10/LPTSTORE.C:361-427 | no unfinished reachable state is deadlocked |
| Handshake.FairRoundsFinish | dos/SDPP10/LPTSTORE.C:352-427 | enough fair rounds finish any session |
| Handshake.SessionCompletesIffDisciplined | dos/SDPP10/LPTSTORE.C:352-427 | under a fair schedule a session of bytes in both directions completes if and only if the turn assumption holds, and then with lines low and all bytes delivered |
| Handshake.FinishingNeedsDiscipline | dos/SDPP10/LPTSTORE.C:421-426 | a schedule that finishes has respected the turn assumption throughout |
| Handshake.UndisciplinedSticks | dos/SDPP10/LPTSTORE.C:421-426 | one violation of it leaves both sides polling for good |
| Handshake.BurstCompletes | pico/lptcomms.c:110-158 | one-way bursts complete under every fair interleaving, without any assumption on turns |
| Handshake.ReplyTurnCanHang | dos/SDPP10/LPTSTORE.C:421-426 | a schedule in which a quick reply hangs both sides |
| Handshake.RequestTurnCanHang | pico/lptcomms.c:140-145 | a schedule in which a quick next request hangs both sides |
| Line.SynchronousNext | dos/SDPP10/LPTSTORE.C:352-427 | the conversation stays in step when the host writes with nothing unread, or reads the byte waiting |
| Line.Link.WriteByte | dos/SDPP10/LPTSTORE.C:395-427 | one byte to the machine, in step with it |
| Line.Link.ReadByte | dos/SDPP10/LPTSTORE.C:352-393 | the next byte of the machine's answer, in step with it |
| Line.Link.ReadBytes | dos/SDPP10/LPTSTORE.C:443-445 | a loop of reads fills exactly its part of the buffer with the next bytes of the answer |
| Line.Link.WriteBytes | dos/SDPP10/LPTSTORE.C:518-529 | a loop of writes sends exactly that part of the request |
| Protocol.HelloOnWire | pico/lptprotocol.c:57-67 | 00 is answered with 00 01; a byte from 5 on draws no answer and changes nothing |
| Protocol.QueriesOnWire | pico/lptprotocol.c:68-89 | 01 and 02 are answered with the four bytes of the word, high byte first |
| Bytes.WordOfBytes | pico/lptprotocol.c:70-74 | the four bytes of a word, most significant first |
| Protocol.ReadOnWire | pico/lptprotocol.c:90-113 | 03 and five bytes: which block is read, and the answers 01, 02 with size and code, 00 with the sector |
| Protocol.RawWriteOnWire | pico/lptprotocol.c:114-133 | 04 with size 0 and a sector: which block is written with it, and the status byte |
| Protocol.PackedWriteOnWire | pico/lptprotocol.c:114-133 | the same for a size and that many bytes that decode to a sector |
| Protocol.ReadExchange | pico/lptprotocol.c:90-113 | a read request is heard in silence to its last byte, then one disk access, exactly the reply, and the next command boundary; a sector with `WritesCell512` leads out of the buffers instead |
| Protocol.WriteExchange | pico/lptprotocol.c:114-133 | the same for a write, packed or raw: the disk gets exactly the sector the host started from, the host one status byte |
| Protocol.PackedExchange | pico/lptprotocol.c:124-131 | a packed sector arrives whole whatever was in the server's buffer |
| Host.RequestsInNumbers | dos/SDPP10/LPTSTORE.C:436-530 | the driver opens a read with 03 and a write with 04, unit, size and block number, high byte first, and packs when the code has fewer than 512 bytes |
| Host.ReceiveBlock | dos/SDPP10/LPTSTORE.C:442-459 | raw, packed and error replies: the sector in its place or the buffer unchanged, nothing left unread |
| Host.ReceivePacked | dos/SDPP10/LPTSTORE.C:447-455 | the size bytes, the packed bytes and the decoder restore the sector |
| Host.ReadBlock | dos/SDPP10/LPTSTORE.C:436-459 | one round of `LPTRead` is one disk access |
| Host.LPTRead | dos/SDPP10/LPTSTORE.C:429-464 | status, buffer and disk are those of reading the disk directly, block after block up to the first failure, and the bytes sent are exactly the requests for these blocks |
| Host.SendBlock | dos/SDPP10/LPTSTORE.C:509-530 | header and data of one block, packed or raw, byte for byte |
| Host.WriteBlock | dos/SDPP10/LPTSTORE.C:509-536 | one round of `LPTWrite` is one disk access with the sector in the buffer |
| Host.LPTWrite | dos/SDPP10/LPTSTORE.C:503-541 | status and disk are those of writing the disk directly up to the first failure |
| Session.RunSession | dos/SDPP10/LPTSTORE.C:429-541 | any run of calls that keeps the device inside its buffers (the exact condition is `DriverStaysInsideIff`) gives over the line the answers, and leaves the disk, of the same calls made directly; the server is at a command boundary after each |
| Session.SessionAnswered | dos/SDPP10/LPTSTORE.C:429-541 | what the caller is told on an array, call by call over any run: a read of good blocks gives their contents, a write of good blocks is done, a call that meets a bad block fails with the blocks before it stored |
| Session.PlainRead | dos/SDPP10/LPTSTORE.C:435-461 | on an array of sectors a read gives the cells before the first bad block and fails exactly if there is one |
| Session.PlainWrite | dos/SDPP10/LPTSTORE.C:509-538 | a write stores the blocks before the first bad one and leaves every other cell alone |
| Session.ReadBackWritten | dos/SDPP10/LPTSTORE.C:429-541 | blocks written to good places are read back as written |
| ServerTask.LptServer.ReadBytes | pico/lptcomms.c:110-118 | fills the buffer as far as the input goes, -1 if that is too short |
| ServerTask.LptServer.WriteBytes | pico/lptcomms.c:150-158 | sends exactly the first bytes of the buffer |
| ServerTask.LptServer.SendSector | pico/lptprotocol.c:100-108 | the reply to a successful read, packed when that is shorter, from a 512-byte compress buffer |
| ServerTask.LptServer.FetchSector | pico/lptprotocol.c:94-111 | disk access, buffer and reply of a read |
| ServerTask.LptServer.ServeRead | pico/lptprotocol.c:90-113 | exactly one read command taken from the input, complete or cut short |
| ServerTask.LptServer.ServeRaw | pico/lptprotocol.c:122-131 | the same for a raw write |
| ServerTask.LptServer.ServePacked | pico/lptprotocol.c:124-131 | the same for a packed write, also one cut short whose header announced more than the buffer holds |
| ServerTask.LptServer.ServeCaps | pico/lptprotocol.c:77-89 | the same for the capacity query |
| ServerTask.LptServer.ServeQuery | pico/lptprotocol.c:60-76 | the same for hello, the drive query and unknown bytes |
| ServerTask.LptServer.Task | pico/lptprotocol.c:57-138 | nothing without input, else exactly one command with the effect the byte-at-a-time machine gives it |
| ServerTask.LptServer.ServeAll | pico/lptprotocol.c:57-138 | the loop over it does to any input what the machine does, as long as the machine stays inside the buffers; when that is, says `StaysInsideIff` |
| ServerTask.NeverOutside | pico/lptprotocol.c:8-9 | the machine does not come back: a server in bounds at the end of its input was in bounds all along |
| Bounds.StaysInsideIff | pico/lptprotocol.c:8-9 | for every input, the device stays inside its 512-byte buffers if and only if every sector read compresses inside 512 cells, at most 512 data bytes arrive for any packed write and every complete one decodes to at most 512 |
| Bounds.ReadRunsOut | pico/lptprotocol.c:96-108 | the first way out: reading a sector 00 01 00 01 ... |
| Bounds.BigPackedWriteRunsOut | pico/lptprotocol.c:119-126 | the second, on any disk: after a header that announces 513 packed bytes the device is inside its buffers if and only if at most 512 bytes follow |
| Bounds.LongPackedWriteRunsOut | pico/lptprotocol.c:119-126 | the third, on any disk: a packed write of five bytes that decode to 513 |
| Bounds.DriverStaysInsideIff | dos/SDPP10/LPTSTORE.C:429-541 | what the driver sends for a session keeps the device inside its buffers if and only if no block the session reads meets `WritesCell512` |
| FullStack.DriverSession | dos/SDPP10/LPTSTORE.C:429-541 | every session that keeps the device inside its buffers is a conversation that stays in step and ends at a command boundary, with the direct effect |
| FullStack.EveryReplyIsCaused | pico/lptcomms.c:60-148 | at every moment of every disciplined interleaving, what the host has received answers bytes the device already holds, and the byte about to be sent is the machine's next answer to exactly those |
| FullStack.SessionOverWires | pico/lptcomms.c:60-148 | over the wires a conversation completes with the server's answer to the driver's bytes delivered |
| FullStack.ServeConversation | pico/lptprotocol.c:57-138 | the device's own loop with its 512-byte buffers, given the driver's bytes, sends what the driver expects and ends on the same disk |
| BlockStore.Store.Find | pico/diskfake.c:31-37 | the linear search finds the only entry with that key, or there is none |
| BlockStore.Store.ReadSector | pico/diskfake.c:28-46 | the map over the default contents that the table stands for |
| BlockStore.Store.WriteSector | pico/diskfake.c:48-64 | updates that map, or drops a new block when the table is full; keys stay unique. For a 16-bit unit of 256 or more they do if and only if the low byte's block is new or there is no room |
| BlockStore.UnwrittenIsDefault | pico/diskfake.c:41-44 | after any run, a block the run did not write is read as the boot sector for block 0, as the FAT sector for 4 and 68, else as zeros |
| BlockStore.FakeQueries | pico/diskfake.c:11-17 | over diskfake the drives are 00 00 ff ff and a size is 00 01 00 00 on the wire |
| BlockStore.Store.FakeRead | dos/SDPP10/LPTSTORE.C:264-284 | the fake read is a read of that map, block after block |
| BlockStore.Store.FakeWrite | dos/SDPP10/LPTSTORE.C:479-500 | the fake write is a run of updates of that map |
| BlockStore.FakeSession | dos/SDPP10/LPTSTORE.C:264-500 | any run of calls of the fake driver has the answers of a store of its size |
| BlockStore.SessionFills | pico/diskfake.c:57-62 | a store holds exactly the blocks written, until it is full |
| BlockStore.TwoBuildsAgreeIff | dos/SDPP10/LPTSTORE.C:257-500 | the fake driver and the real one over diskfake end with the same table if and only if at most 50 different blocks were written, and then all answers were the same |
| BlockStore.StoreKeepsFirst | pico/diskfake.c:48-64 | a store of any size holds the first blocks written, as many as fit, each with what was last written to it |
| BlockStore.AnswersAgreeIff | dos/SDPP10/LPTSTORE.C:264-500 | the two builds give the same answers along a run if and only if no read asks for a block first written 51st to 200th and last written with something else than its default contents |
| BlockStore.FurtherReadsAgreeIff | pico/diskfake.c:28-46 | after a run, all further reads get the same answers from both builds if and only if no block written is one that only the device still keeps and that was last written with something else than its default contents |
| BlockStore.FurtherRunCanDiffer | dos/SDPP10/LPTSTORE.C:479-500 | every run can be followed by one that gets different answers from the two builds |
| BlockStore.RunBothBuilds | pico/diskfake.c:19-64 | the two builds run on the same calls, the second one over the line, answer alike exactly then |
| Fat32.BootLayout | fs/fat32.c:125-128 | the boot sector fields are read from where FAT32 has them |
| Fat32.BytesOfWord | fs/fat32.c:125-128 | the bytes of FAT32 numbers, least significant first |
| Fat32.FatLayout | fs/fat32.c:54-65 | a FAT entry is the little-endian word of its cluster |
| Fat32.DataFollowsFats | fs/fat32.c:80-84 | cluster 2 starts right after the second FAT copy, every next cluster as many sectors further as a cluster has |
| Fat32.Reader.GetNextCluster | fs/fat32.c:52-66 | the FAT entry on the disk, whatever the cache held; the cache stays a copy of one FAT sector |
| Fat32.Reader.LoadFatSector | fs/fat32.c:54-55 | the cached words are the FAT sector of the cluster, the offset a multiple of 128 |
| Fat32.Reader.FollowCluster | fs/fat32.c:140-149 | a gap is reported exactly when the cluster does not continue the last sector |
| Fat32.Reader.FileHasGaps | fs/fat32.c:135-153 | false if and only if the chain is straight; always returns, on cyclic chains too, if the clusters it reaches have 32-bit sector numbers |
| Fat32.ChainByLinks | fs/fat32.c:138-145 | by the bytes of its FAT entry a cluster ends its chain (0, or 0x0ffffff0 upwards), continues it, or makes a gap |
| Fat32.WalkDecides | fs/fat32.c:138-152 | a walk that met a terminator was on a straight chain, one stopped by a gap on none |
| Fat32.NextSector | fs/fat32.c:80-84 | two clusters follow each other on the disk exactly when their numbers do |
| Fat32.SmallClustersFit | fs/fat32.c:80-84 | with clusters of up to 15 sectors no link can make a sector number wrap |
| Fat32.VisitStraight | fs/fat32.c:155-167 | on a straight chain the s-th sector walked is `lba + s`, exactly while s is inside the chain |
| DiskImages.SlotLayout | fs/fat32.c:100-102 | name, attribute, first cluster and size come out of a directory slot as they were stored |
| DiskImages.LiveSlots | fs/fat32.c:88-92 | a scan looks at slot k exactly if no slot up to it starts with 00 and it is neither deleted nor part of a long name; in slot order |
| DiskImages.Images.ProcessDirSector | fs/fat32.c:87-119 | the tables after a sector are those after its live entries in order |
| DiskImages.Images.ReadRoot | fs/fat32.c:155-167 | the tables after the scan are those after all live entries of the root directory's chain |
| DiskImages.LastEntryWins | fs/fat32.c:103-109 | each slot holds what the last entry for it says, or what it held before |
| DiskImages.LastDiskIsLastSlot | fs/fat32.c:89-109 | the entry that counts for image i is the last slot, over all sectors scanned, that holds the archive file DISKx.DAT of that letter |
| DiskImages.ConfigByName | fs/fat32.c:111 | the configuration file is CONFIG.BIN with the archive attribute |
| DiskImages.LastConfigWins | fs/fat32.c:111-116 | its place, size and cluster are those of the last entry of that name |
| DiskImages.WalkIsVisit | fs/fat32.c:155-167 | the list of sectors `read_file` walks and the s-th sector visited are the same thing |
| DiskImages.SetBit | fs/fat32.c:239 | setting a bit above all others adds that bit and no other |
| DiskImages.AddBits | fs/fat32.c:228-253 | a check sets its own bit exactly on success and leaves the lower ones alone |
| DiskImages.Images.CheckDisk | fs/fat32.c:229-241 | image i keeps its mapping and gets its bit exactly if its chain is straight, other images are untouched |
| DiskImages.Images.CheckDisks | fs/fat32.c:228-242 | all sixteen checked |
| DiskImages.Images.CheckConfig | fs/fat32.c:244-254 | the configuration bit and cluster |
| DiskImages.Images.InitDisk | fs/fat32.c:209-271 | 1 without the bytes 55 aa at 510 and nothing mapped; else bit i is set iff image i is mapped iff the scan found an entry for it (the last one counts) whose chain is straight, with that entry's place and size; bit 31 and the configuration tables likewise |
| DiskImages.Images.ReadDiskSector | fs/fat32.c:182-193 | data of the mapped sector, or an error outside |
| DiskImages.Images.WriteDiskSector | fs/fat32.c:195-206 | the mapped sector changed and no other, or an error and nothing changed |
| DirectMapping.ActiveIsMapped | fs/fat32.c:228-242 | an accepted image is a straight chain that lies on the disk |
| DirectMapping.FastPathIsChainWalkIff | fs/fat32.c:188-189 | direct access touches the sector the chain walk of `read_file` visits if and only if that sector is inside the chain |
| DirectMapping.CapacityIsAccepted | fs/fat32.c:177-180 | the size reported for an image is the accepted directory entry's in whole sectors, or 0, and just as many sectors can be accessed |
| DirectMapping.ImagesByBytes | fs/fat32.c:182-242 | on the bytes of the disk: image i < 16 is active iff some root slot names it and the last such slot has a straight chain; then its sector s is s sectors after the start of its first cluster, as far as its size goes |
| DirectMapping.ConfigAccess | fs/fat32.c:177-206 | disk 0xff is the configuration file up to its size; 16 to 0xfe are no disks |
| DirectMapping.ChainOnDiskFits | fs/fat32.c:135-153 | a contiguity check of a chain whose clusters all lie on the disk never computes a sector number beyond 32 bits |
| DirectMapping.SoundFilesAreSound | fs/fat32.c:228-242 | if the accepted directory entries are covered by their chains, inside the FAT and not cross-linked, so are the tables that `init_disk` leaves |
| DirectMapping.TargetsDiffer | fs/fat32.c:201-202 | different image sectors are different sectors of the USB disk |
| DirectMapping.WritesLand | fs/fat32.c:195-206 | after any run of writes each image sector holds what was last written to it, whatever was written elsewhere |
| DirectMapping.WritesStayInside | fs/fat32.c:195-206 | a sector that belongs to no image never changes |
| DirectMapping.WritesKeepMapping | fs/fat32.c:195-206 | every sector below reserved + 2 * FAT size, so the reserved sectors and both FATs, never changes; every image keeps its chain and its walk |
| ImageServer.SessionsAlike | pico/lptprotocol.c:90-133 | disks that simulate each other give every session the same answers |
| ImageServer.ImageQueries | fs/fat32.c:173-180 | the queries are answered with the bitmap and the sizes |
| ImageServer.TablesAreFiles | fs/fat32.c:155-193 | the tables map exactly the sectors of the accepted files, each to where the chain walk of the file finds it |
| ImageServer.ImagesRefinePlain | pico/msc_app.c:96-102 | the server over accepted images gives the answers of the array of the files' sectors as their chain walks find them, bad beyond each file's end, and the images keep showing that array |
| ImageServer.DriverOnImages | pico/msc_app.c:96-102 | the driver's calls over the line are calls on that array |
| ImageServer.MountAndServe | pico/msc_app.c:183-188 | the same from a USB disk with cleared tables on: scan, checks, session; asked only of the directory entries and their chains |
| Prefetch.CoreKeepsInv | pico/msc_app.c:55-92 | every step of `read_sector` and `write_sector` keeps the invariant, and a read that returns does so with current data |
| Prefetch.UsbKeepsInv | pico/msc_app.c:44-51 | so does every transfer, every store of the callback and every start of a call |
| Prefetch.ReadAheadIsInvisible | pico/msc_app.c:55-92 | in every run that keeps the three rules each read of an existing sector returns what the disk holds when it returns |
| Prefetch.ReadsSucceed | pico/msc_app.c:80 | if `result` is not looked at before the callback has stored it, a read of a sector that is not the last reports success |
| Prefetch.MissingReadsFail | pico/msc_app.c:44-80 | without writes a read of a sector that does not exist reports a failure |
| PrefetchRuns.LostFlagServesStale | pico/msc_app.c:74-76 | from every state in which the flag is lost and the buffer holds other data than the next sector, reads alone lead to old data returned as a success |
| PrefetchRuns.WriteAheadServesStale | pico/msc_app.c:83-92 | from every state in which a write would change the sector read ahead, that sector is next read as it was before |
| PrefetchRuns.OutOfStepServesStale | pico/msc_app.c:44-51 | once a callback can be taken for that of another command, old data can be served as a success, whatever the disk holds |
| PrefetchRuns.FreshnessIff | pico/msc_app.c:55-92 | in every state that keeps the invariant one step decides: all that can follow is fresh if and only if it keeps the rules, and old data can be served as a success if and only if it does not |
| PrefetchRuns.RulesAreExact | pico/msc_app.c:55-92 | a run on two sectors or more keeps the three rules if and only if at every point of it everything that can follow within the rules is fresh |
| PrefetchRuns.LastSectorEitherWay | pico/msc_app.c:75-80 | under any rule that allows reads with uninterrupted callbacks, two runs that read the last sector, one reporting success and one failure |
| PrefetchRuns.StatusIsReliableIff | pico/msc_app.c:44-80 | over all runs in which `result` is not looked at too early, a read of an existing sector always reports success if and only if the next sector exists |
| PrefetchRuns.NoStatusIsReliable | pico/msc_app.c:49-80 | over all runs that only keep the three rules, every existing sector can be reported as failed |
| PrefetchRuns.MissingSectorStatus | pico/msc_app.c:44-92 | a sector that does not exist always fails in runs of reads; with writes it can be reported as read |
| ImageReadAhead.StepLands | pico/msc_app.c:83-92 | with the read-ahead at work, no step of either side loses, repeats or misplaces a write to the USB disk |
| ImageReadAhead.ImageReadsSeeLastWrite | fs/fat32.c:182-206 | through the read-ahead, in every interleaving that keeps the three rules, each sector read from an accepted image is what was last written to that image sector, or what it held before |
| ImageReadAhead.NothingElseChanges | fs/fat32.c:195-206 | and a USB sector that belongs to no image is at every moment as it was |
| FileHarness.InFile.Read | fs/comp.c:78 | fread and feof: the end is noticed only by a short read |
| FileHarness.ThroughCodec | fs/comp.c:79-93 | a sector through the codec and back is the sector, packed or not, with a 512-byte code buffer |
| FileHarness.HarnessCanOverrun | fs/comp.c:70-93 | a file for which the harness overruns its 512-byte code buffer |
| FileHarness.CopyFile | fs/comp.c:75-101 | for a file of any length whose rounds stay inside the code buffer the output is the input, after one round per started or empty sector |

## Left out

- Timeouts on the device and what happens after a timed-out byte: they depend on real time, and the host has none. A command cut short is modelled in `ServerTask` only as the end of the input.
- Transfers of the USB layer that fail below the FAT code, mounting and unmounting while in use, inquiry: library and hardware plumbing. `disk_get_drives` and `disk_get_blocks` do not know an unplugged stick.
- TinyUSB's own rules for accepting commands are not part of this model beyond "none in flight".
- PrefetchRuns.RulesAreExact: for disks of two sectors or more; on a smaller disk no sector that exists is ever read ahead.
- PrefetchRuns.StatusIsReliableIff: over runs in which `result` is not looked at too early (`Orderly`); over the others no sector is reliable, see `NoStatusIsReliable`.
- Session.RunSession: for sessions that keep the device inside its buffers (`SafeSession`), as are the results built on it; what C does after an overrun is not defined.
- FileHarness.CopyFile: for files that do not overrun the harness's own buffer (`RoundsFit`); others exist, see `HarnessCanOverrun`.
- BlockStore.Store.FakeWrite: for units below 256, which is what the driver's callers pass; what one block of a wider unit does to the table is in `WriteSector`.
- BlockStore.FurtherReadsAgreeIff: about further reads; a further run that may write, too, can always tell the builds apart, see `FurtherRunCanDiffer`.
- The read-ahead is a state machine over atomic steps, because its two halves run on two cores; the copy from the prefetch buffer is one step.
- ImageReadAhead.ImageReadsSeeLastWrite: about data; the status of an access through the read-ahead is what `PrefetchRuns.StatusIsReliableIff` says, and the server of `ImageServer` takes USB accesses as direct.
- DiskImages.Images.ReadDiskSector: disk number 16 passes the source's test and indexes past its tables; it is excluded, as in the two members beside it.
- DiskImages.Images.InitDisk: from cleared tables only, with names DISKA to DISKP; other names index outside the tables.
- DiskImages.Images.CheckConfig: says nothing about later access to CONFIG.BIN, which works even after a failed check.
- ImageServer.ImagesRefinePlain: for the sixteen images; the configuration disk 0xff is reachable through the same commands and is not part of the array.
- The FAT layer takes a `Media` value for the USB disk: sector numbers are naturals, sectors never written are blank.
- DOS request dispatch, the driver's header, option parsing, drive letters and BPB fields (`dos/SDPP10/DRIVER.C`, `HEADER.ASM`): field copying and glue.
- Printing, the serial console commands of `pico/lptstore.c`, GPIO and clock setup.
- `trials` and `usbhost`: earlier experiments and library example code.
- Inside `Session` the caller's buffer is built from a sequence of sectors; segmented pointers and their wrap at 64K are not modelled.
