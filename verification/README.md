# GameJanitor, modelled and proved in Dafny

GameJanitor is a controller that runs game servers on worker nodes. This project models the
parts of it where a mistake loses data, hands out a port twice or installs a broken game, and
proves what those parts promise:

* **Moving a volume** between nodes and archive storage (`Relocation`, `ArchiveSafety`,
  `MigrateSafety`, `RelocationRuns`, `RelocationOutcomes`, `CarefulRuns`, `StaleRows`, `RelocationLosses`,
  `LiveGameserver`). Archive, unarchive and migrate are
  programs of atomic actions, with the outcome of every fallible call a parameter and the half-done
  states of long calls included. Between any two actions other requests edit files, or read the row
  and later write it back as a whole, as the file service, SFTP, configuration changes and modpack
  installs do without asking whether an operation runs. So "for all parameters and all schedules"
  means every failure, every crash and every overlapping request.
* **Port placement** (`Ports`, `PortCollision`, `Placement`, `PortRanges`): the skip-ahead first-fit
  scan, the table of reservations not yet in the database, reallocations carried in memory until
  their row write, and the per-worker port ranges.
* **The Steam content pipeline**: the text and binary key-value parsers (`VdfText`, `VdfBinary`),
  framing of messages and manifest sections (`Wire`), manifest difference and depot download by
  parallel offset writes (`Manifests`, `Install`, `Delta`, `DeltaExamples`, `ChunkPool`, `Depot`,
  `FileWrites`), host rotation (`Cdn`), the chunk checksum (`Adler`) and the decryption envelope (`SteamCrypto`).
* **The registry of worker connections** (`WorkerRegistry`).
* **Two byte-level fast forms**: reading the last lines of a file backwards (`LogTail`) and
  out-of-order SFTP writes (`SftpBuffer`).

Code that changes state step by step is a class or a method with loops, proved against a function
or relation on values; the theorems about whole runs, round trips and refinement are lemmas about
those values. `Common` holds the small shared datatypes and little-endian integers.

Where the code does not do what its comments or a reader would expect, the model follows the code,
and a lemma says exactly when the expectation is met:

* A file edit that a client makes after an archive or a migration has read the volume, and before
  the row is written, succeeds and is lost when the row is written
  (`RelocationLosses.MissedEditIsLost`). An operation that wrote its row ends settled exactly when such
  edits are harmless (`RelocationRuns.OpSafe`); for a single edit that is a condition on its position
  (`RelocationRuns.OneEdit`).
* A download whose caller cancels can report success with chunks missing, because a worker that
  notices the cancellation before a request leaves without an error
  (`Depot.CancelledDownloadExample`). A call without an error is complete exactly when no worker
  dropped a chunk that way (`ChunkPool.CallOutcome`).
* A change of the configuration that reads the row before an operation writes it, and writes it back
  afterwards, sets the row back to the old place (`RelocationLosses.LateWriteExample`).
  `StaleRows.OneStore` says exactly when one such request is harmless.
* A worker that registers between the reaper's scan and its SetOffline loses the new connection
  (`WorkerRegistry.NewConnectionIsReaped`).
* Reallocation reserves nothing, so two moves to one node, both computed before either is persisted,
  can share ports although each of them is free by itself (`PortCollision.CollisionExample`). They may
  both be persisted exactly if they share none (`Ports.Table.TwoMovesAreSafeExactly`). A move that finds no free ports keeps the old ones,
  which is safe exactly when nobody else on the new node holds one
  (`Ports.Table.PersistedMoveIsSafeExactly`).
* A migration whose row write failed, followed by a migration back, removes the volume the row
  names (`RelocationLosses.MigratingBackLosesTheNamedVolume`).
* Archive has a window, from the removal of the volume to the row update, in which the row names a
  volume that is gone (`RelocationLosses.ArchiveWindowIsReal`); the data is then in the archive object.
* An update of a worker is documented to leave absent fields alone, but giving one resource limit
  clears those not given (`PortRanges.AbsentLimitsStayExactly`), and an update rejected for its port
  range changes nothing exactly when it asks for nothing else that is new
  (`PortRanges.RejectedUpdateIsAtomicExactly`).
* A log tail of `n` lines has `n + 1` lines when the file does not end in a newline
  (`LogTail.TailIsLastNExactly`).
* A delta update neither copies reused chunks nor truncates files
  (`Delta.AddedFileOfOldChunksIsMissing`, `Delta.ShrunkFileKeepsItsLength`); it installs the new
  manifest exactly when the old files are ready for it (`Delta.DeltaInstallsExactly`).
* The 32-bit length checks of message framing wrap: a declared header length of 2^32 - 8 or more
  makes the slice end before it starts (`Wire.FaultsExactlyOnWrap`).

## Assumptions

One operation runs on a gameserver at a time, and a change of the cluster or a write by the game
falls between operations (a call to a worker that has gone away is one of the failing calls; an
operation stops the game before it reads the volume). A backup reads the volume at one moment, so an
edit is wholly in it or wholly not. Stopping an instance through a
connected worker is effective. A successful volume restore leaves exactly the unpacked tar;
compression followed by decompression gives the same bytes; backup storage is configured. Registry
calls are atomic. Ranges of ports are non-negative, as the settings and update validators enforce.
Equal content hashes mean equal files (`Delta.HonestHashes`), and chunks of one file that overlap
agree (`Install.SoundFile`). The block cipher, protobuf decoding, float formatting and the content
servers' answers are parameters.

## Model

| member | source | states |
|---|---|---|
| ArchiveSafety.ArchiveSafe | controller/gameserver/archive.go:40-141 | From a settled state, at every moment of an archive, whatever fails, wherever it is cut off, whatever files are edited meanwhile and whatever current rows are written back: before the removal of the volume starts a restarted controller is settled; from then on the archive object holds what the backup read, and the latest contents are that with the missed edits. It ends settled exactly when it stopped before the switch, or wrote the row and every missed edit was harmless; a stop between switch and row means a failed row write. |
| ArchiveSafety.UnarchiveSafe | controller/gameserver/archive.go:170-273 | At every moment of an unarchive the row names a complete copy; it ends settled exactly unless its row write failed. No edit is lost, because file requests find no worker until the row is written. |
| MigrateSafety.MigrateSafe | controller/gameserver/archive.go:344-510 | At every moment of a migration, early exits and restart included: until the row is written it names the source volume with the latest contents; from then on it names the target with the copy and the later edits, which are the latest contents exactly when the edits missed between copy and row write are harmless. It ends settled exactly when it stopped before the switch, or wrote the row and missed nothing that matters. |
| RelocationRuns.OpSafe | controller/gameserver/archive.go:40-510 | For any of the three operations and any schedule: once the row is written, a restarted controller is settled exactly when the missed edits are harmless; before that it is settled outside the window of an archive; the finished operation is settled exactly when it is sound. |
| RelocationRuns.OneEdit | controller/file/service.go:80-97 | One file edit during an operation that goes on to write its row: the row then names the latest contents exactly when the edit fell before the volume was read or after the row was written, or made no difference to the contents. |
| RelocationRuns.ApplySettled | controller/gameserver/archive.go:40-510 | An admissible event keeps the gameserver settled: an operation with file edits and row requests between any of its steps, one cut off anywhere and followed by a controller restart, start, stop, game and file writes, reading the row and writing it back, workers coming and going. A finished operation in which no stale row was written back is settled if and only if it was admissible: no row write failed after the switch, and no edit of the window was lost. |
| RelocationRuns.RunSettled | controller/gameserver/archive.go:40-510 | At every moment of every admissible run the place the database row names holds the latest contents. |
| CarefulRuns.CarefulIsAdmissible | controller/gameserver/archive.go:40-510 | An operation is admissible if its row write succeeds, file edits stay out of the window between copy and row write, rows are written back current, and an archive is not cut off while it removes the volume; every other call is free to fail and every other cut is allowed. |
| CarefulRuns.CarefulRunSettled | controller/gameserver/archive.go:40-510 | So at every moment of a run of such operations and any other events the place the row names holds the latest contents. |
| RelocationOutcomes.AloneSettledExactly | controller/gameserver/archive.go:40-510 | An operation that nobody interferes with ends settled for every pattern of failing calls but one: it does so if and only if the row write succeeds whenever all calls up to the switch do. |
| RelocationOutcomes.ArchiveOutcome | controller/gameserver/archive.go:59-141 | The world an archive leaves once its backup is saved. |
| RelocationOutcomes.UnarchiveOutcome | controller/gameserver/archive.go:184-273 | The world an unarchive leaves once its archive is unpacked. |
| RelocationOutcomes.UnarchiveGoesWhereAsked | controller/gameserver/archive.go:174-273 | With a node asked for that is online, and no call failing, the archive ends up in that node's volume, named by row and memory, whatever the ranking says. |
| RelocationOutcomes.UnarchiveGoesToTheFirstRanked | controller/gameserver/archive.go:174-273 | Without one it ends up on the first node of the ranking; an empty ranking, or a first node that is offline, is refused and changes nothing. |
| RelocationOutcomes.MigrateOutcome | controller/gameserver/archive.go:344-510 | From any state, also one where row and memory disagree, the world a migration leaves once it gets past its checks, the restart included. |
| RelocationOutcomes.MigrationMovesEverything | controller/gameserver/archive.go:344-510 | A migration all of whose calls succeed, of a running gameserver with data: row, memory, worker and instance are on the target with the latest contents, the source volume and the staged object are gone. |
| RelocationOutcomes.EmptyMigrationStays | controller/gameserver/archive.go:435-442 | A migration whose size check runs and finds no bytes fails with row and memory as they were. |
| RelocationOutcomes.RefusedExactly | controller/gameserver/archive.go:40-357 | What each operation refuses to begin: archiving what is archived or has no worker; unarchiving what is not archived, or onto a node that is offline or cannot make a volume; migrating without a node, to the same node, when rejected, or with either node offline. |
| StaleRows.StoreIsCurrentExactly | controller/gameserver/manager.go:377-505 | Whatever else falls between, what a request writes back is current exactly when read and write are on the same side of the row change, and for the in-memory copy of the switch. |
| StaleRows.OneStore | controller/mod/pack.go:31-105 | One request that reads the row and writes it back, to the database, to memory or to both, during an operation that would have ended settled: the operation still does exactly if the write is current, or a restart saves the row after a write to the database alone, or row and memory of an archive are both set back to a volume of which nothing was removed. |
| RelocationLosses.LateWriteLosesTheVolume | controller/mod/pack.go:31-105 | Why rows must be written back current: a row read before a migration and written back after it names the volume that was removed. |
| RelocationLosses.LateWriteExample | controller/mod/pack.go:31-105 | A gameserver for which this happens. |
| RelocationLosses.ArchiveWindowIsReal | controller/gameserver/archive.go:106-133 | In every archive that removes the volume there is a moment at which the row names a volume that is gone. |
| RelocationLosses.MigratingBackLosesTheNamedVolume | controller/gameserver/archive.go:361-505 | Why row writes must succeed: after a migration with a failed row write, a migration back, with its size check passing or failing to run and with or without a restart, removes the volume the row names; what a restart writes into an empty volume is all that is left. |
| RelocationLosses.MissedEditIsLost | sftp/file_operator.go:64-70 | Why edits must stay out of the window: after a file edit right after the backup, a migration that writes its row leaves the row naming the old contents, from which a restart starts, and the volume with the edit is gone. |
| RelocationLosses.MissedEditExample | sftp/file_operator.go:64-70 | A gameserver with one file for which this happens. |
| RelocationLosses.MigratingBackExample | controller/gameserver/archive.go:361-487 | A gameserver with two nodes and one file for which migrating back loses the named volume, with every call but the first row write succeeding. |
| LiveGameserver.LiveGameserver.Archive | controller/gameserver/archive.go:40-141 | With any requests by others before each step, the object goes through the archive program to its end, and reports success exactly when the program does. |
| LiveGameserver.LiveGameserver.Unarchive | controller/gameserver/archive.go:143-273 | The same for unarchive, with the target given, or ranked first if none is (`UnarchiveGoesWhereAsked`, `UnarchiveGoesToTheFirstRanked`). |
| LiveGameserver.LiveGameserver.Migrate | controller/gameserver/archive.go:278-510 | The same for migrate; the source is found through the database row, the restart's failure is the operation's failure. |
| LiveGameserver.LiveGameserver.StopIfRunning | controller/gameserver/archive.go:514-534 | Without a worker handle the instance is left as it is. |
| LiveGameserver.LiveGameserver.EditFiles | controller/file/service.go:80-97 | A file request changes the volume on the node the row names and fails without a connected worker there. |
| LiveGameserver.LiveGameserver.WriteRow | controller/gameserver/manager.go:482-504 | A request sets the row, the in-memory copy or both to the row it has read. |
| LiveGameserver.LiveGameserver.Operate | controller/gameserver/archive.go:40-510 | Any operation, with whatever requests others make meanwhile, ends in the state the event function gives for the schedule that happened; when no stale row was written back it ends settled if and only if it was admissible. |
| LiveGameserver.LiveGameserver.Perform | controller/gameserver/archive.go:514-534 | Any other event, carried out on the object, gives the state the event function says, and the admissible ones keep it settled. |
| Ports.MappingKeepsOrder | controller/cluster/placement.go:279-337 | Each port keeps its name and protocol, the host ports keep the order of the game's ports, two game ports share a host port exactly when they had one number, and all lie in the block. |
| Ports.MappingStaysInBlock | controller/cluster/placement.go:328-337 | A block at a free base takes only free ports of the range. |
| Ports.NodeScopeIsClusterWide | controller/cluster/placement.go:138-142 | With disjoint ranges that contain every held port, uniqueness per node is uniqueness in the cluster. |
| Ports.Table.OwnRangesGiveClusterScope | controller/cluster/placement.go:181-189 | In particular when every node that holds ports has its own range set at both ends and the ports lie in their ranges. |
| Ports.Table.StepKeepsRanges | controller/cluster/placement.go:181-189 | They do after every step that reads the node record and moves no kept ports; when that read fails the global range is used instead. |
| Ports.Table.AllocationUnused | controller/cluster/placement.go:175-189 | Allocated ports lie in the node's own range when both its ends are set and its record can be read, otherwise in the global range, and are in nobody's use. |
| Ports.Table.UsedIsTaken | controller/cluster/placement.go:138-172 | A port is in use exactly when it is a nonzero port, allocated or chosen by a user, of another persisted gameserver in scope, or reserved for another one. |
| Ports.Table.AllocationAvoidsTaken | controller/cluster/placement.go:138-189 | So no allocated port is a port of another row in scope, whether that row's ports were allocated or chosen, or of another reservation; and it lies in the node's own range or the global one. |
| Ports.Table.LowerBasesAreTaken | controller/cluster/placement.go:297-326 | Every base that fits the range, below an allocated block or anywhere when allocation fails, meets a nonzero port of such a row or reservation: the block is the first one, and failure means there is none. |
| Ports.Table.AllocationIsFree | controller/cluster/placement.go:297-326 | An allocated port is held by no other gameserver, persisted or reserved, in the uniqueness scope. |
| Ports.Table.ClaimKeepsValid | controller/cluster/placement.go:273-351 | A fresh allocation in a creator's hands, reserved and not persisted, keeps ports exclusive. |
| Ports.Table.ReallocationKeepsValid | controller/cluster/placement.go:111-118 | Reallocated ports, carried in memory and not reserved, keep the table valid if no other reallocation onto the node is outstanding. |
| Ports.Table.MoveKeepsValid | controller/gameserver/archive.go:465-481 | The row write of a move keeps ports exclusive, whatever steps of other creators came between it and the reallocation. |
| Ports.Table.PersistedMoveIsSafeExactly | controller/gameserver/archive.go:444-481 | In any table with exclusive ports, also one in which somebody took the ports of a reallocation meanwhile: persisting a move, with new ports or kept ones, keeps ports exclusive exactly if nobody else holds one of them on the new node. |
| Ports.Table.KeptMoveIsSafeExactly | controller/gameserver/archive.go:448-455 | Persisting kept ports keeps the table valid exactly if they are free on the new node and no reallocation waits for them. |
| Ports.Table.TwoMovesAreSafeExactly | controller/cluster/placement.go:111-118 | In any table with exclusive ports, two moves to one node, freshly allocated or kept and each of them free by itself, may both be persisted exactly if they share no port. |
| Ports.Table.ArchiveKeepsValid | controller/gameserver/archive.go:121-133 | The row change of an archive, which takes away the node and leaves the ports, keeps ports exclusive. |
| PortCollision.CollisionRun | controller/cluster/placement.go:111-118 | A run from a valid table in which two gameservers of different games are reallocated to one node, each move being free, then both persisted, and share a port; the second reallocation is the step that is not admissible. |
| PortCollision.CollisionExample | controller/cluster/placement.go:111-118 | Such a run with two concrete games. |
| Ports.Table.StepKeepsValid | controller/cluster/placement.go:42-118 | Each admissible step of placing, persisting, committing, releasing, deleting, archiving, reallocating or persisting a move keeps every in-flight port reserved, every unpersisted reallocation free and every auto-allocated port with one holder in scope. |
| Ports.RunKeepsValid | controller/cluster/placement.go:42-118 | So over every interleaving in which no allocation on a node comes between a reallocation onto it and its row write, and kept ports are persisted only when free, no two gameservers hold the same auto-allocated port in the uniqueness scope. |
| Placement.FindBlock | controller/cluster/placement.go:304-326 | The skip-ahead scan returns the least base whose block is free in the range, and none only if there is no such block. |
| Placement.IndexPorts | controller/cluster/placement.go:279-295 | The size of the block is the number of distinct port numbers, and each number's index is its rank among them. |
| Placement.PlacementService.UsedPorts | controller/cluster/placement.go:138-173 | Exactly the nonzero ports of the other gameservers in scope, whether allocated or chosen, and the other reservations; fails when the list cannot be read. |
| Placement.PlacementService.AllocatePorts | controller/cluster/placement.go:273-351 | Succeeds exactly when the list can be read and the node has a free block, with the order-preserving mapping onto the least one; reserves it under the id, and changes no reservation when it fails. |
| Placement.PlacementService.PlaceGameserver | controller/cluster/placement.go:60-109 | Chooses the pinned node or the first ranked node that admits the gameserver, fails only when there is none, and then leaves the reservations as they were. |
| Ports.Table.NoEarlierNodeAdmits | controller/cluster/placement.go:60-110 | A placement takes the pinned node and no other; without one it takes a ranked node that fits and has room, and no earlier one of the ranking would do. |
| Placement.PlacementService.Create | controller/gameserver/manager.go:237-254 | A creator gets a claim whose ports are reserved, or nothing changes. |
| Placement.PlacementService.Persist | controller/gameserver/manager.go:300-306 | The row insert turns the creator's claim into a row; the reservation stays until it is committed. |
| Placement.PlacementService.CommitPorts | controller/cluster/placement.go:42-48 | Removes exactly this gameserver's reservation. |
| Placement.PlacementService.ReleasePorts | controller/cluster/placement.go:50-56 | Removes this gameserver's reservation together with the claim its creator gave up. |
| Placement.PlacementService.ReallocatePorts | controller/cluster/placement.go:111-118 | Allocates for an existing gameserver without changing any state. |
| Placement.PlacementService.Reallocate | controller/gameserver/archive.go:444-457 | Under node scope new ports if there are any, otherwise the old ones; only the in-memory move changes. |
| Placement.PlacementService.PersistMove | controller/gameserver/archive.go:465-481 | Node and ports of the move become those of the row, if the row is still there. |
| Placement.PlacementService.Archive | controller/gameserver/archive.go:121-133 | The row loses its node and keeps its ports. |
| Placement.PlacementService.Run | controller/cluster/placement.go:42-118 | Any sequence of steps on the object is a run in the sense of the run theorem. |
| PortRanges.CollidesIsExact | controller/cluster/worker.go:235-244 | The overlap test finds a shared port exactly on proper ranges and never misses one on inverted ranges. |
| PortRanges.UpdateKeepsDisjoint | controller/cluster/worker.go:148-176 | An update, also of one end only, rejected or failing half-way, keeps the ranges of distinct workers disjoint. |
| PortRanges.RangesStayDisjoint | controller/cluster/worker.go:110-176 | So throughout every sequence of updates. |
| PortRanges.AcceptedUpdateWrites | controller/cluster/worker.go:123-176 | An accepted update writes exactly what it gives, all three limits once one is given, and each end of the range by itself. |
| PortRanges.AcceptedExactly | controller/cluster/worker.go:110-176 | When no statement fails, an update of a known worker is accepted exactly when it gives no negative number and no inverted range, and the range after merging, if set at both ends, lies beside every other one. |
| PortRanges.WorkerNodeService.ValidatePortRangeNoOverlap | controller/cluster/worker.go:230-246 | Accepts exactly when no other worker's range collides. |
| PortRanges.AbsentLimitsStayExactly | store/worker_node.go:141-143 | An accepted update leaves the limits it does not mention alone exactly when it mentions none, or those it does not mention were not set. |
| PortRanges.ClearedLimitExample | store/worker_node.go:141-143 | Setting only the memory limit takes away the CPU limit. |
| PortRanges.RejectedUpdateIsAtomicExactly | controller/cluster/worker.go:123-176 | An update rejected for its range leaves the stored workers as they were exactly when name, limits, cordon and tags it asks for are what the worker has already. |
| PortRanges.RejectedRenameExample | controller/cluster/worker.go:123-176 | Two workers, and a rename together with a colliding range: rejected, and renamed. |
| PortRanges.WorkerNodeService.Update | controller/cluster/worker.go:123-185 | Accepts exactly the valid updates none of whose parts fails, for an unknown worker, a failing statement or a colliding range; otherwise exactly the parts before the first failure are written. |
| VdfText.SiblingsInvertPrint | steam/vdf.go:183-223 | Printed siblings in front of nothing or a closing brace parse back, with any white space between tokens. |
| VdfText.ParseInvertsPrint | steam/vdf.go:169-176 | Parsing the quoted-and-escaped printing of any forest whose nodes have a value or children, but not both, returns it. |
| VdfText.QuotedInvertsEscaped | steam/vdf.go:237-268 | Reading a quoted string undoes the escaping of any string. |
| VdfText.SiblingsAreNormal | steam/vdf.go:183-223 | Whatever the input, every node the parser returns has a value or children, but not both. |
| VdfText.PrintingIsFaithful | steam/vdf.go:169-176 | Printing the tree of any accepted input and parsing again gives the same tree. |
| VdfText.EightBytesSeparate | steam/vdf.go:278-282 | The round trip with white space made of any of the eight bytes 9 to 13, 32, 0x85 and 0xA0, newlines among them. |
| VdfText.UnquotedPair | steam/vdf.go:269-276 | A key or value without quotes ends exactly at one of those bytes, at a brace, or at the end. |
| VdfText.UnquotedBlock | steam/vdf.go:168-213 | Words with braces around a pair; the closing brace may be missing. |
| VdfText.BackslashEscapesFour | steam/vdf.go:236-261 | In quotes, a backslash before a quote, a backslash, `n` or `t` stands for that quote, backslash, a newline or a tab; before any other byte it stays in the text. |
| VdfText.UnfinishedIsRejected | steam/vdf.go:188-267 | A key without a value and a string without its closing quote are rejected. |
| VdfText.VdfParser.SkipWhitespace | steam/vdf.go:278-282 | Advances over the bytes 9 to 13, 32, 0x85 and 0xA0, and over nothing else. |
| VdfText.VdfParser.ReadQuotedString | steam/vdf.go:237-268 | Returns the unescaped string and leaves the cursor after the closing quote; fails exactly when there is none. |
| VdfText.VdfParser.ReadUnquotedString | steam/vdf.go:270-276 | Returns the longest token at the cursor, possibly empty. |
| VdfText.VdfParser.ReadString | steam/vdf.go:225-235 | A quoted or unquoted token after white space; fails at the end of the input. |
| VdfText.VdfParser.ParseChildren | steam/vdf.go:183-223 | Terminates on every input with the sibling nodes and the cursor where the definition by remaining input says, empty tokens included. |
| VdfText.ParseVdf | steam/vdf.go:169-176 | The whole parser agrees with its definition on every input. |
| VdfBinary.EncodedFront | steam/vdf.go:68-152 | Encoded entries in front of any input parse first, at every depth of nesting. |
| VdfBinary.ScalarReads | steam/vdf.go:90-145 | Each typed value reads back as its text: strings without NUL, 32- and 64-bit unsigned, signed 64-bit and float values. |
| VdfBinary.TextField | steam/vdf.go:90-146 | Tags 1 and 5 are strings up to a zero byte. |
| VdfBinary.WordField | steam/vdf.go:97-137 | Tags 2, 4 and 6 are unsigned 32-bit words and tag 3 a float, low byte first. |
| VdfBinary.LongField | steam/vdf.go:105-119 | Tag 7 is an unsigned 64-bit word and tag 10 a two's-complement one. |
| VdfBinary.BadFieldIsRejected | steam/vdf.go:76-153 | Any other tag, a number without all its bytes and a string without its zero byte are rejected. |
| VdfBinary.SubtreeExample | steam/vdf.go:68-98 | Twelve bytes: a subtree opened by tag 0 and ended by tag 8, with the number 513 in it. |
| VdfBinary.DecimalReadsBack | steam/vdf.go:97-118 | Reading the digits of the text of a number gives the number. |
| VdfBinary.SignedDecimalIsInjective | steam/vdf.go:97-118 | Distinct signed integers have distinct texts. |
| VdfBinary.ParseInvertsEncode | steam/vdf.go:53-61 | Parsing the tagged encoding of any typed tree returns the tree, whatever follows the last end marker. |
| VdfBinary.MissingMarkersAreHarmless | steam/vdf.go:68-76 | Dropping any number of the end markers a document ends with gives the same tree, because the end of the input closes every open subtree. |
| VdfBinary.BinaryVdfParser.ReadCString | steam/vdf.go:154-165 | The bytes up to the next NUL, which is consumed; fails exactly when there is none. |
| VdfBinary.BinaryVdfParser.ReadScalar | steam/vdf.go:90-149 | The value a tag announces, rendered as text; fails on truncated values and unknown tags. |
| VdfBinary.BinaryVdfParser.ParseChildren | steam/vdf.go:68-152 | Terminates on every input with the entries and cursor its definition gives. |
| VdfBinary.ParseBinaryVdf | steam/vdf.go:53-61 | The whole parser agrees with its definition on every input. |
| FileWrites.ReplayIsLastWriterWins | sftp/handler.go:116-128 | After any writes each position has the byte of the last write that covers it, gaps are zero, and the length is the furthest end. |
| FileWrites.DisjointWritesCommute | sftp/handler.go:116-128 | Disjoint writes leave the same content in any order. |
| FileWrites.OrderIsImmaterial | steam/depot.go:259-267 | Writes that agree where they meet leave the same file in any order and however often they are repeated. |
| SftpBuffer.WriteBuffer.WriteAt | sftp/handler.go:116-128 | Overlays the data at its offset, growing the buffer with zeros, and records the furthest end. |
| SftpBuffer.WriteBuffer.Close | sftp/handler.go:130-132 | Saves the last-writer-wins file with zero gaps, as long as the furthest write. |
| Manifests.DiffManifests | steam/manifest.go:308-356 | Added, changed and unchanged files in manifest order, removed names, and for exactly the chunks of added and changed files that the old manifest lacks an entry to download. |
| Manifests.DiffPartitions | steam/manifest.go:291-305 | Added, changed, unchanged and removed files split the two manifests. |
| Manifests.DiffByHash | steam/manifest.go:315-353 | A file is added exactly when the old manifest has no file of its name, and changed exactly when it has one with another hash. |
| Manifests.DownloadedByHash | steam/manifest.go:315-353 | Exactly the chunks the old manifest lacks are downloaded, of the files it lacks or has with another hash. |
| Install.PlanOrderIsImmaterial | steam/depot.go:250-275 | Directory-wide, agreeing writes to any files may happen in any order. |
| Install.InstallIsUnique | steam/depot.go:211-267 | A manifest and its chunk contents determine the installed files. |
| Install.InstalledNames | steam/depot.go:211-226 | An install has exactly the files with chunks; directories and files without chunks are not there. |
| Install.InstalledByte | steam/depot.go:259-267 | Every byte of a chunk's data is in its file, from the chunk's offset on. |
| Install.PatchPlacesExactly | steam/depot.go:253-267 | Writing only some chunks into a file completes it exactly when its old bytes hold the other chunks in place, zeros in the gaps and nothing beyond the end. |
| Install.PlanPlacesExactly | steam/depot.go:211-267 | The same for a file within a whole download, and the file exists exactly when it did or gets a chunk. |
| Install.FullDownloadInstalls | steam/depot.go:179-279 | Writing every chunk into an empty directory yields each file with chunks as their placement, and no other file. |
| Install.PartialDownloadInstallsExactly | steam/depot.go:179-279 | Writing only some chunks into an empty directory does so exactly when every file gets a chunk and the missing ones make no difference to its bytes. |
| Delta.WrittenFile | steam/depot.go:149-178 | An added or changed file ends up as the new manifest says exactly when it was ready for the downloaded chunks. |
| Delta.UnchangedFile | steam/manifest.go:329-337 | A file with an equal hash keeps its bytes, which are the new manifest's. |
| Delta.DroppedName | steam/depot.go:294-303 | Names the new manifest lacks are gone. |
| Delta.DeltaInstallsExactly | steam/depot.go:149-303 | A delta update over an old install yields the new install exactly when every added or changed file was ready for it. |
| Delta.InPlaceDeltaInstalls | steam/depot.go:149-303 | In particular when every reused chunk sits at the same offset of its old namesake and no changed file loses coverage. |
| Delta.GaplessFilesKeepCoverage | steam/depot.go:335-335 | For files without gaps, keeping coverage is the same as not shrinking. |
| Delta.AddedFileOfOldChunksIsMissing | steam/manifest.go:339-345 | An added file made only of chunks the old manifest has is never created. |
| Delta.ShrunkFileKeepsItsLength | steam/depot.go:335-335 | A changed file that became shorter is left too long, so the install is wrong. |
| DeltaExamples.ShrinkingExample | steam/depot.go:259-267 | A file that shrinks is left with its old end. |
| DeltaExamples.RenamingExample | steam/manifest.go:339-353 | A renamed file is removed under its old name and never created under the new one. |
| ChunkPool.MoveKeepsAccount | steam/cdn.go:107-151 | Every step of a worker or cancellation keeps the account: chunks leave the queue in order, each in flight is with one worker, each fetched one was fetched once, the writes done or pending are those of the fetched chunks, and a worker that left did so for an empty queue, an error or a cancellation. |
| ChunkPool.RunKeepsAccount | steam/cdn.go:88-161 | So at every moment of a call, for every number of workers, every order of completion and every moment of cancellation. |
| ChunkPool.CallOutcome | steam/cdn.go:112-160 | A call that returns no error is complete exactly when no worker dropped a chunk; unless the caller cancels, it returns no error exactly when every chunk is good, and then it is complete. |
| ChunkPool.FetchedDataIsVerified | steam/cdn.go:124-142 | However a call ends, the data of every fetched chunk has its size and, if the manifest has one, its checksum: the weighted byte sum in the high half and the byte sum in the low half, both modulo 65521. After a call without an error in which no chunk was dropped that is so for all chunks. |
| ChunkPool.UncancelledCallFailsExactly | steam/cdn.go:107-160 | A call that nobody cancels reports an error exactly when some chunk has no data, or data of another size or checksum. |
| ChunkPool.CancelledCallSucceeds | steam/cdn.go:112-116 | One worker, two good chunks, and a caller that cancels while the first is written: no error, and the second chunk was dropped. |
| Depot.DepotDownloader.DownloadChunksParallel | steam/cdn.go:88-161 | For every schedule with or without cancellation the account holds when the last worker has returned, success means that no worker reported an error, every fetched chunk's data has its size and checksum, and the directory has exactly the writes of the fetched chunks, each fetched once. |
| Depot.CallFollowsPlan | steam/cdn.go:88-161 | The directory after a call, successful or not, depends only on which chunks were fetched: it is that of the file-by-file plan for them. |
| Depot.DepotDownloader.Download | steam/depot.go:143-318 | The data of every fetched chunk has the size and checksum the manifest gives. Needed chunks are fetched at most once, and all of them exactly if none was dropped. A success without dropped chunks installs the manifest, into an empty directory or over an old install under the in-place conditions. With chunks dropped, or after an error, the directory is that of the chunks that were fetched. Without a cancellation by the caller success is as for the chunk downloads, and nothing is dropped. |
| Depot.CompleteResultInstalls | steam/depot.go:149-303 | With all chunks fetched, the patched directory is an install, in full or as an update. |
| Depot.CancelledDownloadExample | steam/cdn.go:112-160 | A file of two chunks and a cancellation in between: the call reports no error and the file is too short. |
| Depot.LogFollowsPlan | steam/depot.go:250-275 | Whatever order the workers wrote in, the directory is that of the file-by-file plan. |
| Depot.PlannedIsInPlan | steam/depot.go:213-226 | A chunk is written to every file and offset that uses it, and nowhere else. |
| Depot.SelectChunks | steam/depot.go:180-192 | All chunks of a manifest, each id once. |
| Depot.IndexTargets | steam/depot.go:211-226 | For every chunk id exactly the files and offsets it goes to, directories excepted. |
| LogTail.TailFile | api/handler/logs.go:49-115 | For every content, count and block size: the lines after the newline that makes one too many counted from the end, or all lines. |
| LogTail.ScanBlock | api/handler/logs.go:82-91 | One block scanned backwards either counts all its newlines or stops just after the one too many. |
| LogTail.SplitLines | api/handler/logs.go:101-114 | The lines without their newlines; an unterminated rest is a line, an empty rest is not. |
| LogTail.CutIsUnique | api/handler/logs.go:65-92 | The place where the tail starts is determined by the file and the count. |
| LogTail.LineCount | api/handler/logs.go:101-114 | One line per newline and one for an unterminated rest. |
| LogTail.TailIsLastLines | api/handler/logs.go:65-114 | The tail is the last `n` lines of a file that ends in a newline and the last `n + 1` of one that does not. |
| LogTail.TailIsLastNExactly | api/handler/logs.go:65-114 | It is the last `n` lines exactly when the file ends in a newline, or has at most `n` lines. |
| LogTail.UnterminatedExample | api/handler/logs.go:65-114 | Asked for one line of a three-byte file without a final newline, the tail has two. |
| WorkerRegistry.RegisterIsGood | controller/cluster/registry.go:112-137 | Registering a connection never seen before closes the node's previous one once and makes the new one current on that node only. |
| WorkerRegistry.DetachingIsGood | controller/cluster/registry.go:144-215 | Clearing, setting offline or unregistering a node closes its connection once and leaves every other node's alone. |
| WorkerRegistry.AfterIsGood | controller/cluster/registry.go:112-256 | Every call keeps the account of connections. |
| WorkerRegistry.RunIsGood | controller/cluster/registry.go:68-324 | Throughout every run that starts from the database and registers distinct connections: a node has the connection of its latest connection-changing event, a live connection means online, and each registered connection is current on exactly one node or was closed exactly once, also with calls between the reaper's scan and its SetOffline calls. |
| WorkerRegistry.Registry.LoadFromDb | controller/cluster/registry.go:68-102 | Every known worker is listed anew, offline and without a connection; entries of others stay. |
| WorkerRegistry.Registry.Register | controller/cluster/registry.go:112-137 | The node gets the new connection as online; the old one is closed. |
| WorkerRegistry.Registry.ClearWorker | controller/cluster/registry.go:144-157 | The connection is closed and dropped; entry and status stay. |
| WorkerRegistry.Registry.SetOffline | controller/cluster/registry.go:161-190 | The connection is closed and dropped; the entry stays as offline. |
| WorkerRegistry.Registry.Unregister | controller/cluster/registry.go:194-215 | The connection is closed and the entry removed. |
| WorkerRegistry.Registry.UpdateHeartbeat | controller/cluster/registry.go:243-256 | Succeeds exactly for a connected worker, which is refreshed and keeps its registration's token. |
| WorkerRegistry.Registry.Get | controller/cluster/registry.go:219-228 | The connection of the node's latest connection-changing event if that is a registration, otherwise nothing. |
| WorkerRegistry.Registry.ListOnlineWorkers | controller/cluster/registry.go:271-282 | Exactly the nodes whose latest connection-changing event is a registration, all with online status. |
| WorkerRegistry.NewConnectionIsReaped | controller/cluster/registry.go:309-324 | A worker that was stale at the scan and registers before its SetOffline loses the new connection, which is closed once, and stays offline. |
| WorkerRegistry.Registry.ReapStale | controller/cluster/registry.go:309-324 | With any calls of others anywhere between its scan and its SetOffline calls, it sets exactly the workers stale at the scan offline, each once, and the registry follows the calls that happened; a node no other call is about loses its connection exactly if it was stale. |
| WorkerRegistry.ReapedByLastSeen | controller/cluster/registry.go:309-324 | A connected worker that no other call is about loses its connection when it was last seen longer ago than the timeout, and keeps it otherwise. |
| WorkerRegistry.HeardOfIsKept | controller/cluster/registry.go:112-256 | A heartbeat or a registration at a moment keeps the worker through every reaping up to that moment plus the timeout, and no further. |
| WorkerRegistry.Registry.Run | controller/cluster/registry.go:68-324 | Any sequence of calls on the object reaches the state the run theorem speaks of. |
| Adler.Adler32Seed0 | steam/cdn.go:205-213 | The byte sum and the position-weighted sum modulo 65521, packed into 32 bits, with no intermediate overflow. |
| Adler.TwoByteExample | steam/cdn.go:205-213 | The bytes 1 and 2 have the checksum 262147. |
| Adler.ConcatenationLaw | steam/cdn.go:205-213 | The sums of a concatenation from the sums and lengths of its parts. |
| Adler.StandardIsShifted | steam/cdn.go:203-213 | The standard checksum (section 8.2 of RFC 1950) is this one with 1 added to the low and the length added to the high sum, modulo 65521. |
| Cdn.CdnClient.NextAvailableHost | steam/cdn.go:165-177 | The next host in rotation that is not blacklisted, looking at each host at most once; none exactly when all are blacklisted. |
| Cdn.CdnClient.DownloadChunk | steam/cdn.go:47-84 | If some host that is not blacklisted serves the chunk on every attempt, it is reached within max(3, number of hosts) attempts, whatever the others answer, from any rotation index. Exactly the hosts that failed as hosts are added to the blacklist and none of them is asked again; the first data received is the result; an error means that the attempts or the hosts ran out. |
| SteamCrypto.DecryptInvertsEncrypt | steam/crypto.go:77-79 | CBC decryption undoes CBC encryption for every block permutation, IV and message (sections 6.1 and 6.2 of NIST SP 800-38A). |
| SteamCrypto.EncryptInvertsDecrypt | steam/crypto.go:77-79 | And the other way round. |
| SteamCrypto.BlockByBlock | steam/crypto.go:77-79 | Each block is decrypted on its own and combined with the ciphertext block before it, the first one with the IV. |
| SteamCrypto.AlignedPaddingIsPad | steam/crypto.go:90-104 | On block-aligned data, a padded message is the result of padding it (section 6.3 of RFC 5652). |
| SteamCrypto.PaddedExactly | steam/crypto.go:90-104 | Padding is one to sixteen bytes, each of them their number. |
| SteamCrypto.RemovePkcs7Padding | steam/crypto.go:90-104 | On non-empty data returns a message exactly if the data is that message padded; empty data stays empty. |
| SteamCrypto.CryptBlocks | steam/crypto.go:77-79 | The in-place block loop computes CBC decryption. |
| SteamCrypto.SteamDecrypt | steam/crypto.go:51-88 | Fails on a wrong key size, short or unaligned data; a bare IV block gives no data; otherwise returns a message exactly when CBC decryption gives its padding. |
| SteamCrypto.DecryptsExactlyEnvelopes | steam/crypto.go:51-88 | That is the case exactly for the message's envelopes: an ECB-encrypted IV followed by the CBC encryption of the padded message. |
| Wire.Send | steam/client.go:130-138 | The buffer holds message type with the protobuf bit, header length, header and body. |
| Wire.DecodeInvertsFrame | steam/client.go:238-268 | Decoding a sent frame recovers type, header and body, for header lengths below 2^32 - 8, exactly when the frame's length passes the 32-bit check, so for all frames below 4 GiB. |
| Wire.FaultsExactlyOnWrap | steam/client.go:250-257 | Decoding slices out of order exactly when the declared header length is so large that adding 8 wraps. |
| Wire.TopBitMarksMessages | steam/client.go:238-268 | A frame with bit 31 of its first word set is a message of the type in the other bits, with the header of the length in its second word, if that header can be read. |
| Wire.OtherFramesAreSkipped | steam/client.go:238-268 | A frame without that bit is skipped. |
| Wire.ShortFramesAreInvalid | steam/client.go:238-268 | A frame of fewer than eight bytes, or with less header than it declares, is invalid, the wrapping lengths excepted. |
| Wire.WrappedLengthExample | steam/client.go:250-257 | Eight bytes for which it does. |
| Wire.DecodeBatchInvertsEncode | steam/client.go:290-308 | A batch gives the messages of its frames in order, up to three stray bytes at the end ignored; the first bad frame decides. |
| Wire.BatchRecoversMessages | steam/client.go:290-308 | Messages framed and packed into one batch come out again, all of them and in order. |
| Wire.DecodeMulti | steam/client.go:290-308 | The splitting loop agrees with that definition on every payload. |
| Wire.SectionsInFront | steam/manifest.go:197-235 | Encoded sections in front of any data are scanned first, in order. |
| Wire.ScanInvertsEncode | steam/manifest.go:197-205 | The sections before the end marker are recovered whatever bytes follow it. |
| Wire.MagicNumbers | steam/manifest.go:21-235 | Payload is magic number 0x71F617D0, metadata 0x1F4812BE, and 0x32C415AB ends the sections. |
| Wire.TruncatedSectionIsRejected | steam/manifest.go:207-209 | A section that declares more data than there is makes the scan fail. |
| Wire.ParseManifestSections | steam/manifest.go:193-239 | Succeeds exactly when the scan does, a payload section exists and all payload and metadata sections can be read; the last of each kind wins. |

## Left out

- LiveGameserver.LiveGameserver.Perform: a worker that connects or disconnects does so between operations; within one, calls to it fail instead.
- LiveGameserver.LiveGameserver.BackupVolume: reads the volume at one moment; an edit that a running backup catches in part is not modelled.
- Relocation.World: ports, phases, process state, error reasons and published events of the gameserver are not part of the relocation state; the ports are in module Placement.
- Reinstall and deletion of gameservers, which destroy data by design, and operation queueing (`submitOperation`).
- Ports.Table.Placeable: memory, CPU and storage limits are the parameter `fits`, and the ranked worker list is an arbitrary sequence; only ports are reserved by the code, so nothing is claimed about capacity of placements in flight.
- Ports.Table.Valid: speaks of auto-allocated ports only; ports a user chose or edited may clash with anything.
- PortRanges.WorkerNodeService.Update: two updates at once, and the event published at the end.
- VdfText.VdfParser.SkipWhitespace: white space is judged byte by byte, as the code does with each byte taken as a code point.
- Lookups by key in a parsed tree (`Child`, `ChildValue`), which ignore case.
- VdfBinary.ScalarReads: the decimal rendering of floats is an arbitrary function of the 32 bits.
- Depot.DepotDownloader.Download: creating directories, permissions, path joining, file I/O errors (which are errors of the handler in the code) and the progress counters.
- Resolution of apps, depots, keys and manifests over the network, and the swapping of staging directories after a download.
- Decompression of chunks, file names in encrypted manifests, and the gzip layer of batches; a chunk store gives the contents after them.
- Cdn.CdnClient.DownloadChunk: one caller at a time; the rotation index does not overflow, and no host name is empty (an empty name would read as "no host").
- WorkerRegistry.Registry.Register: the worker status kept in the database and the callbacks are left out; each call's registry change is one step.
- WorkerRegistry.Registry.ListOnlineWorkers: returns the nodes, not their metadata, which has no effect on connections.
- SftpBuffer.WriteBuffer.WriteAt: negative offsets and running out of memory.
- LogTail.TailFile: errors of opening and reading the file, and a file that grows while it is read.
- Waiting for replies (`SendAndWait`, `dispatch`): the pending tables of the client.
- HTTP handlers, the command line, the web interface, permissions, gRPC and S3 plumbing.
