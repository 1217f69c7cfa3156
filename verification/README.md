# Verification of the DataNode storage and of its messages

A Dafny 4.11 model of two parts of mini-storage and of the link between them, with proofs.

**The block store** (`src/datanode/datanode_block_store.cc`).  The file system is a map from paths to octets, and every
open-truncate, write, rename, remove, existence test and read is a step of its own.  Each step can work or fail, a write can
leave any prefix, and the process can crash between any two steps.  `StoreSteps` defines the steps, `StoreSystem` whole
lives of a store, with requests for different blocks in progress together, crashes and restarts, and `BlockStore.dfy`
the class as the program has it, each method proved to make exactly the steps of its request.  `Crc32`, `Decimal`,
`BlockMeta` and `Paths` are concrete: the CRC of section 8 of RFC 1952 computed digit by digit, which `CrcPolynomials` proves to be the remainder of polynomial division, and the text
formats of `<<`, `>>`, `snprintf`, `stoull` and `stoi`, which `TextForms` describes octet by octet.

**The messages** (`proto/raft.pb.cc`, `proto/namenode.pb.cc`).  `Wire` has the varints, tags and length prefixes of the
Protocol Buffers Encoding specification, and UTF-8 after RFC 3629; `WireOctets`, `Utf8Texts`, `MessageOctets` and
`MessageDeclarations` say what they, and the messages of every type, are in numbers.  The generated functions are
instances of one pattern; `Codec`, `CodecSizes` and `CodecCaches` define it once, by the list of a type's fields, and `MessageTypes` gives those
lists.  The results hold for every good list of fields, and `MessageResults` draws them for the deep types.
`RaftLogEntries`, `AppendEntriesRequests`, `FileEntries`, `BlockReportItems`, `BlockReportRequests` and `NameNodeObjects`
are classes in the generated form: a parse loop over a switch that sets fields in place, sizes stored in the objects, a
serializer that uses the stored sizes, and a merge in place.  Each is proved against the same functions.

**The client** (`src/datanode/datanode_datanode_client.cc`).  `RequestBuilding` and `DataNodeClients` turn
the recovered index into a block report, whose octets are proved to decode to that index; `HeartbeatRuns` is the client
with its heartbeat thread, as a state machine over the messages it tries to send.

Where the code promises less than one might expect, the model says exactly when it does and when it does not:
replacing a block is not atomic (`StoreOverwrite.OldBlockSurvives`), a write that returns true may not have stored its
block (`StoreOverwrite.ReportedIsStored`), partial reads are unchecked (`StoreReads.PartialReadOf`), the CRC does not look
at all of a block of 4 GiB (`StoreReads.BurstIsDetected`), any stale cached size that is used breaks the encoding
(`CodecStale.StaleSizes`), and an id that is not UTF-8 makes a report nobody can parse
(`NameNodeRequests.ReportRejected`).  The comment at line 29 of the block store says that a failed meta write removes the
temporary file; the code removes it only when the meta file cannot be opened, and so does the model.

To verify: `dafny verify dfyconfig.toml --resource-limit 2000000`.

## Model

| member | source | states |
|---|---|---|
| `Crc32.AbsorbAllInjective` | src/datanode/datanode_block_store.cc:227-230 | the CRC register after any octets determines the register before them: no octet can hide an earlier difference |
| `Crc32.AbsorbAsWord` | src/datanode/datanode_block_store.cc:227-230 | absorbing four octets is one xor of the word they form, followed by 32 shifts |
| `Crc32.WindowInjective` | src/datanode/datanode_block_store.cc:227-230 | for a fixed register, absorption of four octets is injective in those octets |
| `Crc32.BurstDetected` | src/datanode/datanode_block_store.cc:227-230 | two strings of equal length that differ only within four consecutive octets have different CRC-32 values if and only if they differ in the octets that are looked at, which below 4 GiB are all |
| `CrcPolynomials.ChecksumIsRemainder` | src/datanode/datanode_block_store.cc:227-230 | the checksum is the remainder of polynomial division over GF(2): the only polynomial of degree below 32 that the generator x^32 + x^26 + ... + 1 leaves of the message, 32 digits inverted in front, 32 zeros behind, all inverted at the end |
| `CrcPolynomials.EmptyChecksum` | src/datanode/datanode_block_store.cc:227-230 | the checksum of nothing is 0 |
| `Decimal.ExtractPrinted` | src/datanode/datanode_block_store.cc:210-222 | `>>` reads back every integer `<<` printed, negative ones included, up to the first octet that is no digit |
| `Decimal.ExtractCut` | src/datanode/datanode_block_store.cc:217-224 | what `>>` makes of a number whose text was cut short: all of it is consumed, and there is a value exactly when a digit is left |
| `TextForms.PrintIs` | src/datanode/datanode_block_store.cc:210-213 | `<<` writes a number in decimal digits without leading zeros |
| `TextForms.ExtractExactly` | src/datanode/datanode_block_store.cc:217-224 | what `>>`, stoull and stoi make of any text, taken apart into blanks, sign, digits and the rest |
| `TextForms.MetaLineIs` | src/datanode/datanode_block_store.cc:210-213 | the meta line is the four numbers in this order, single blanks between them, a newline behind |
| `BlockMetas.TornMeta` | src/datanode/datanode_block_store.cc:202-224 | for every prefix of every meta line: ReadMeta succeeds exactly when a digit of create_time is there, and then only create_time can be shortened |
| `BlockMetas.WholeMeta` | src/datanode/datanode_block_store.cc:202-224 | on the whole line all four fields come back, for every value of their types |
| `BlockMetas.PrefixOfLine` | src/datanode/datanode_block_store.cc:202-224 | whatever parses from a prefix of a line agrees with the record in block_id, size and crc32 |
| `Paths.NotTruncated` | src/datanode/datanode_block_store.cc:174-197 | no file name of any uint64 id is cut by the 64-octet buffer |
| `Paths.NameParses` | src/datanode/datanode_block_store.cc:127-135 | substr and stoull recover the id from the name of its meta file, for every uint64, and take no other name of a block for one |
| `Paths.PathInjective` | src/datanode/datanode_block_store.cc:174-197 | different ids, and the different files of one id, have different paths |
| `Paths.PathDirectory` | src/datanode/datanode_block_store.cc:174-197 | temporary files are children of the tmp directory, the others of the blocks directory |
| `TextForms.PathIs` | src/datanode/datanode_block_store.cc:174-197 | the three paths of a block, octet by octet, the id in at least six digits |
| `TextForms.NameIsRead` | src/datanode/datanode_block_store.cc:127-135 | every name that ends in .meta behind six octets and digits is read as the number of the digits, if a uint64 can hold it |
| `StoreSystem.InvHappens` | src/datanode/datanode_block_store.cc:20-103 | with any number of requests for different ids in progress, every file-system step of every one of them, every exception, crash and restart keeps: meta holds a prefix of the latest line, data implies meta, temporary files only where a writer may have one |
| `StoreSystem.DataImpliesMeta` | src/datanode/datanode_block_store.cc:46-103 | in every reachable state a data file for an id implies a meta file for that id |
| `StoreSystem.TmpIsEmpty` | src/datanode/datanode_block_store.cc:30-61 | in every reachable state, while the store is up, the only temporary files are those of the writes in progress |
| `StoreSystem.RestartCleans` | src/datanode/datanode_block_store.cc:20-26 | a restart empties the tmp directory, changes nothing else and leaves no request in progress |
| `StoreRuns.RequestIsReachable` | src/datanode/datanode_block_store.cc:30-103 | every state a call takes the files through, whatever other requests are in progress, is that of a reachable state, so that a crash inside it is one of the crashes considered |
| `StoreRuns.DataImpliesMetaThroughout` | src/datanode/datanode_block_store.cc:46-103 | data implies meta at every moment of a call, however the calls below it go |
| `StoreRuns.ComesUp` | src/datanode/datanode_block_store.cc:20-26 | a new store comes up |
| `StoreRuns.AnyRequestBegins` | src/datanode/datanode_block_store.cc:30-103 | and can begin any write, read or delete of a block no other request is for |
| `StoreRuns.CrashAndRestart` | src/datanode/datanode_block_store.cc:20-26 | from every reachable state the process can crash and come up again, the tmp directory empty and every other file as it was |
| `StoreRuns.FailedCleaning` | src/datanode/datanode_block_store.cc:163-170 | a removal that throws at start-up keeps the process from coming up, and changes no file |
| `StoreReads.RunRead` | src/datanode/datanode_block_store.cc:63-93 | a read changes no file, and ends with what the files mean or, if a call fails, with false |
| `StoreReads.FullReadExactly` | src/datanode/datanode_block_store.cc:72-93 | a full read returns `out` if and only if the data file is at least as long as the meta says and `out`, its beginning, has the recorded CRC (a block of size 0 is not checked) |
| `StoreReads.ReadExactly` | src/datanode/datanode_block_store.cc:63-93 | the answer to every read, for every meta record, content, offset and length: out of range, empty, too short, failed check, or the octets from offset to the smaller of offset+length and the size |
| `StoreReads.PartialReadOf` | src/datanode/datanode_block_store.cc:72-93 | a partial read returns the stored octets of the range, unchecked |
| `StoreReads.MetaOfLatest` | src/datanode/datanode_block_store.cc:63-93 | a readable meta file carries id, size and CRC of the latest write that opened it, and of its time what a cut behind a digit leaves |
| `StoreReads.FullReadIsChecked` | src/datanode/datanode_block_store.cc:72-93 | in every reachable state the size-0 early return loses nothing: a full read succeeds exactly when the octets are there and have the recorded CRC, empty blocks included |
| `StoreReads.CrashSafeRead` | src/datanode/datanode_block_store.cc:30-93 | after any run, requests for different ids in progress together, with short writes, failures, crashes and restarts, what a full read returns has the length and CRC-32 of the data of the latest WriteBlock that opened the meta file |
| `StoreServing.ServedRead` | src/datanode/datanode_block_store.cc:63-93 | the same of the answers of reads whose own calls are spread among those of requests for other ids |
| `StoreReads.NoDataNoRead` | src/datanode/datanode_block_store.cc:66-70 | without its data file or its meta file a block cannot be read |
| `StoreReads.IntactRun` | src/datanode/datanode_block_store.cc:63-93 | an intact block reads as the slice from offset to the smaller of offset+length and its size, to its end when length is 0 or less, and not at all from outside |
| `StoreReads.BurstIsDetected` | src/datanode/datanode_block_store.cc:85-90 | a full read of an intact block whose data changed within four consecutive octets returns false if and only if the change is in the octets the CRC looks at, which below 4 GiB are all |
| `StoreReads.TruncationIsDetected` | src/datanode/datanode_block_store.cc:79-83 | every read that needs octets a shortened data file has lost returns false |
| `StoreOverwrite.NewMetaOldDataRead` | src/datanode/datanode_block_store.cc:46-58 | any prefix of a new meta line over old data reads as the beginning of the old data if and only if a digit of create_time is there and that beginning is long enough and has the new CRC |
| `StoreOverwrite.FilesDuringWrite` | src/datanode/datanode_block_store.cc:33-60 | the files after any number of system calls of a write, each of which worked, failed or fell short |
| `StoreOverwrite.OverwriteCrash` | src/datanode/datanode_block_store.cc:30-61 | what a full read returns after a write over an intact block was broken off after any number of calls, however each of them went: exactly |
| `StoreOverwrite.OldBlockSurvives` | src/datanode/datanode_block_store.cc:30-61 | it is the old data if and only if the meta file was not opened yet, or a digit of create_time is there and either, before the rename, size and CRC of old and new agree, or, after it, the new data got out whole and equal the old |
| `StoreOverwrite.OverwriteCanLoseBlock` | src/datanode/datanode_block_store.cc:46-58 | so replacing a block is not atomic: with new data within four octets of the old, every crash or failure between the opening of the meta file and the rename loses both |
| `StoreOverwrite.FailedRename` | src/datanode/datanode_block_store.cc:53-58 | a failed rename returns false with the new meta, or what got out of it, already in place |
| `StoreOverwrite.WriteReturns` | src/datanode/datanode_block_store.cc:30-61 | WriteBlock returns true if and only if both files could be opened and the rename worked |
| `StoreOverwrite.ReportedIsStored` | src/datanode/datanode_block_store.cc:33-60 | a block reported as written reads back if and only if all of its data and a digit of create_time got out; nothing else can be read in its place |
| `StoreOverwrite.ReportedButLost` | src/datanode/datanode_block_store.cc:37-38 | true does not mean stored: the calls under which it is returned and there is no block |
| `StoreIndex.CollectExact` | src/datanode/datanode_block_store.cc:119-144 | the scan lists each parsed record once |
| `StoreIndex.IndexIsExact` | src/datanode/datanode_block_store.cc:111-144 | ListAllBlocks has exactly one entry for every id whose meta parses, equal to GetBlockMeta(id), for every order of the directory |
| `StoreIndex.IndexRecovered` | src/datanode/datanode_block_store.cc:111-144 | and so it does in every reachable state, in the middle of requests or just after a crash |
| `StoreRefinement.OpRefines` | src/datanode/datanode_block_store.cc:30-103 | one fault-free operation keeps the files representing a map from ids to data and times |
| `StoreRefinement.WrittenRecord` | src/datanode/datanode_block_store.cc:30-61 | what a fault-free write records, whatever was there before: the id, the size and checksum of the data, and the time it was given |
| `StoreRefinement.Refinement` | src/datanode/datanode_block_store.cc:30-103 | without faults any sequence of operations answers what a map<BlockId, octets> answers: write updates, read slices, delete removes |
| `StoreRefinement.HasBlockIsMembership` | src/datanode/datanode_block_store.cc:105-108 | HasBlock is membership in that map |
| `StoreRefinement.IndexIsDomain` | src/datanode/datanode_block_store.cc:119-144 | ListAllBlocks is that map: exactly the records of its blocks, id, size, checksum and time, each once |
| `StoreRefinement.ChunkedRead` | src/datanode/datanode_block_store.cc:72-83 | reading an intact block chunk by chunk yields its data in order, every answer the smaller of the chunk and what remains, and an empty answer exactly at the end |
| `StoreRefinement.ChunkedReadEnds` | src/datanode/datanode_block_store.cc:72-83 | there is such a sequence of reads to the end of every intact block, for every positive chunk size |
| `StoreInterleaving.Projection` | src/datanode/datanode_datanode_server.cc:72-80 | in any interleaving each request for its own id goes as it would alone |
| `StoreInterleaving.InterleavingIsSequential` | src/datanode/datanode_datanode_server.cc:72-80 | requests for pairwise distinct ids, interleaved call by call in any order and with any faults, give the files and answers of serving them one after the other |
| `StoreInterleaving.FairInterleaving` | src/datanode/datanode_datanode_server.cc:72-80 | every order that gives each request six calls is such an interleaving: all requests end in it |
| `BlockStores.FileSystem.List` | src/datanode/datanode_block_store.cc:122-125 | fs::exists on a directory and a directory_iterator over it: an exception, or each entry once, in some order |
| `BlockStores.BlockStore.WriteBlock` | src/datanode/datanode_block_store.cc:30-61 | the method makes exactly the system calls, and returns exactly the result, of the step machine the theorems are about |
| `BlockStores.BlockStore.ReadBlock` | src/datanode/datanode_block_store.cc:63-93 | the same for reads |
| `BlockStores.BlockStore.DeleteBlock` | src/datanode/datanode_block_store.cc:95-103 | the same for deletes, data file first |
| `BlockStores.BlockStore.HasBlock` | src/datanode/datanode_block_store.cc:105-108 | true exactly when the data file is there |
| `BlockStores.BlockStore.ReadMeta` | src/datanode/datanode_block_store.cc:217-224 | what the meta file parses to |
| `BlockStores.BlockStore.GetBlockMetaOf` | src/datanode/datanode_block_store.cc:111-116 | the record of the id, or nothing |
| `BlockStores.BlockStore.ListAllBlocks` | src/datanode/datanode_block_store.cc:119-144 | the loop over the directory computes the index, lists nothing that is not in it when calls fail, and throws exactly when the directory cannot be iterated |
| `BlockStores.BlockStore.CleanTempFiles` | src/datanode/datanode_block_store.cc:163-170 | nothing outside the tmp directory changes, and unless a removal throws the tmp directory ends empty |
| `Wire.VarintRead` | proto/raft.pb.cc:543-569 | a varint is read back, whatever follows |
| `Wire.TagRead` | proto/raft.pb.cc:546-547 | a tag of any field number below 2^29 is read back |
| `Wire.ChunkRead` | proto/raft.pb.cc:1360-1361 | a length-delimited payload is read back with exactly its own octets |
| `WireOctets.VarintIs` | proto/raft.pb.cc:543-569 | a varint is the groups of seven digits of the number, lowest first, as few as there are |
| `WireOctets.ReadExactly` | proto/raft.pb.cc:543-569 | of any octets a varint is read, minimal or not, if and only if it ends within the allowed number of octets, and with which value |
| `WireOctets.ChunkExactly` | proto/raft.pb.cc:1360-1361 | a length prefix of at most five octets, announcing at most 0x7FFFFFEF octets that are there |
| `WireOctets.ScalarIs` | proto/raft.pb.cc:2702-2727 | what each scalar type makes of any varint: the value of the type that agrees with it in as many binary digits, and for bool whether it is zero |
| `WireOctets.UnknownIs` | proto/raft.pb.cc:618-623 | unknown fields octet by octet |
| `WireOctets.Refused` | proto/raft.pb.cc:571-588 | field number 0, an unbegun group end and the wire types 6 and 7 fail the parse of every message |
| `WireOctets.GroupEnds` | proto/raft.pb.cc:579-586 | a group ends with its own field number or fails |
| `Utf8Texts.Utf8Exactly` | proto/raft.pb.cc:2694-2701 | a string field accepts exactly the UTF-8 encodings of sequences of Unicode scalar values |
| `Messages.ScalarRoundTrip` | proto/raft.pb.cc:2702-2727 | every value of every scalar type survives the wire, negative int64, int32 and enum values included, and only zero is skipped |
| `CodecLocality.ParseConcatenation` | proto/raft.pb.cc:1307-1389 | for arbitrary octets: parsing a concatenation is parsing the second part into the result of the first; no record looks beyond its own octets |
| `CodecLocality.ParseParts` | proto/raft.pb.cc:1307-1389 | every successful parse goes turn by turn, each of which consumes at least one octet, tag and record of its own |
| `CodecLocality.UnknownGrows` | proto/raft.pb.cc:579-586 | an unknown field, groups of any depth included, is parsed from its own octets alone |
| `CodecTypes.ParseKeepsType` | proto/raft.pb.cc:1307-1389 | for every octet string: if it parses, all fields hold values of their types, all strings are valid UTF-8, all unknown fields are well-formed and belong to no case |
| `CodecTypes.Canonical` | proto/raft.pb.cc:1307-1445 | any accepted encoding denotes the message its canonical encoding denotes |
| `CodecTypes.ExplicitZeroResets` | proto/raft.pb.cc:1397-1400 | why zeros are skipped: the octets of an explicit zero behind a message merge like the default if and only if the field was zero |
| `CodecMerge.MergeAssociative` | proto/raft.pb.cc:1499-1524 | MergeFrom is associative, at every level of nesting |
| `CodecMerge.MergeIntoDefault` | proto/raft.pb.cc:1526-1531 | clear then merge is a copy |
| `CodecMerge.MergeDefault` | proto/raft.pb.cc:3761-3797 | merging a default message changes nothing |
| `CodecMerge.MergeWellTyped` | proto/raft.pb.cc:3761-3797 | merging stays within the type |
| `CodecRoundTrip.UnknownRoundTrip` | proto/raft.pb.cc:618-623 | unknown fields of every wire type are kept and written back as they came |
| `CodecRoundTrip.ParseEncoded` | proto/raft.pb.cc:3546-3797 | parsing a serialized message into any message of its type is MergeFrom |
| `CodecRoundTrip.RoundTrip` | proto/raft.pb.cc:3546-3693 | parsing a serialized message gives the message back |
| `CodecRoundTrip.ConcatenationMerges` | proto/raft.pb.cc:3546-3797 | two serialized messages one after the other parse to their merge |
| `CodecPacked.AnyPortions` | proto/raft.pb.cc:2728-2738 | any mix of packed runs (empty ones too) and single varints appends its values in order |
| `CodecPacked.SameValuesSameMessage` | proto/raft.pb.cc:2728-2738 | so encodings of the same values in different portions parse alike |
| `CodecSizes.SizeIsLength` | proto/raft.pb.cc:3695-3752 | the size pass returns the length of the encoding, at every level of nesting, with the tag sizes the generated code adds |
| `CodecCaches.SizePassIsRight` | proto/raft.pb.cc:1447-1490 | after ByteSizeLong every stored size, nested ones and that of packed fields included, is the length it announces |
| `CodecCaches.WriteAgrees` | proto/raft.pb.cc:1391-1445 | with every stored size right the write pass emits the encoding |
| `CodecCaches.TwoPasses` | proto/raft.pb.cc:3632-3752 | size pass then write pass: the encoding, of exactly the returned size |
| `CodecStale.StaleSizes` | proto/raft.pb.cc:1391-1490 | whatever sizes an object stores: the write pass emits the encoding if and only if every size it uses, at every level and of every packed field, is that of the message as it is now |
| `StaleMessages.RaftMessageIsSeparable` | proto/raft.pb.cc:3546-3752 | RaftMessage is of the types this holds for |
| `StaleMessages.SnapshotIsSeparable` | proto/raft.pb.cc:3241-3349 | so is MetadataStoreSnapshot, where the packed field of the entries has a number of its own |
| `StaleMessages.NameNodeRequestIsSeparable` | proto/namenode.pb.cc:4236-4505 | so is NameNodeRequest |
| `StaleMessages.EntrySizesMatter` | proto/raft.pb.cc:1391-1445 | an AppendEntriesRequest is written right if and only if every entry stores its own size; what the request itself stores does not matter |
| `StaleMessages.SwappedEntries` | proto/raft.pb.cc:1391-1490 | two entries exchanged after the size pass leave the size of the whole as it was, and are written right if and only if they are equally long |
| `StaleMessages.EqualSizesAreNotEnough` | proto/raft.pb.cc:1391-1490 | entries of terms 0 and 1 exchanged after the size pass are written wrong |
| `StaleMessages.PackedSizeMatters` | proto/raft.pb.cc:2796-2803 | a file entry changed after the size pass is written right if and only if the packed length of its blocks is what it was |
| `StaleMessages.LateBlocksAreLost` | proto/raft.pb.cc:2796-2803 | blocks added to a file entry that had none in the size pass are not written: the stored zero suppresses the field |
| `MessageTypes.RaftMessageIsGood` | proto/raft.pb.cc:3546-3752 | distinct field numbers and right tag sizes throughout RaftMessage |
| `MessageTypes.SnapshotIsGood` | proto/raft.pb.cc:3241-3349 | the same for MetadataStoreSnapshot |
| `MessageTypes.NameNodeRequestIsGood` | proto/namenode.pb.cc:4236-4505 | the same for NameNodeRequest, where the tags of fields 16 and 18 count two octets |
| `MessageOctets.MessageIs` | proto/raft.pb.cc:1391-1445 | a message of any type is the records of its fields in order, each behind the octets of its tag, zeros and empty values skipped, and then what was not recognized |
| `MessageDeclarations.RaftMessageIs` | proto/raft.proto:111-130 | the octets in front of every field of RaftMessage, and what each field can hold |
| `MessageDeclarations.VoteRequestIs` | proto/raft.proto:16-22 | the same of RequestVoteRequest |
| `MessageDeclarations.VoteResponseIs` | proto/raft.proto:24-32 | the same of RequestVoteResponse |
| `MessageDeclarations.AppendRequestIs` | proto/raft.proto:37-50 | the same of AppendEntriesRequest |
| `MessageDeclarations.AppendResponseIs` | proto/raft.proto:52-57 | the same of AppendEntriesResponse |
| `MessageDeclarations.InstallRequestIs` | proto/raft.proto:64-71 | the same of InstallSnapshotRequest |
| `MessageDeclarations.InstallResponseIs` | proto/raft.proto:73-77 | the same of InstallSnapshotResponse |
| `MessageDeclarations.LogEntryIs` | proto/raft.proto:5-10 | the same of RaftLogEntry |
| `MessageDeclarations.SnapshotIs` | proto/raft.proto:89-107 | the same of MetadataStoreSnapshot |
| `MessageDeclarations.FileEntryIs` | proto/raft.proto:91-98 | the same of FileEntry |
| `MessageDeclarations.BlockEntryIs` | proto/raft.proto:99-104 | the same of BlockEntry |
| `MessageDeclarations.NameNodeRequestIs` | proto/namenode.proto:102-126 | the same of NameNodeRequest, with the two-octet tags |
| `MessageDeclarations.OnePathIs` | proto/namenode.proto:5-55 | the same of the five requests that hold one path |
| `MessageDeclarations.RegistrationIs` | proto/namenode.proto:71-77 | the same of RegisterDataNodeRequest |
| `MessageDeclarations.HeartbeatIs` | proto/namenode.proto:79-85 | the same of HeartbeatRequest |
| `MessageDeclarations.BlockReportIs` | proto/namenode.proto:96-100 | the same of BlockReportRequest |
| `MessageDeclarations.ReportItemIs` | proto/namenode.proto:88-93 | the same of BlockReportItem |
| `MessageResults.RaftMessages` | proto/raft.pb.cc:3546-3797 | round trip, concatenation and two passes for every RaftMessage |
| `MessageResults.Snapshots` | proto/raft.pb.cc:3241-3369 | the same for every MetadataStoreSnapshot |
| `MessageResults.NameNodeMessages` | proto/namenode.pb.cc:4236-4561 | the same for every NameNodeRequest |
| `MessageResults.FileEntryPortions` | proto/raft.pb.cc:2688-2811 | a file entry followed by its blocks in any portions parses to the entry with all of them |
| `RaftLogEntries.RaftLogEntry.InternalParse` | proto/raft.pb.cc:543-595 | the loop leaves in the fields what parsing into the old message comes to, and fails exactly when that does |
| `RaftLogEntries.RaftLogEntry.InternalSerialize` | proto/raft.pb.cc:597-627 | appends the encoding of the fields |
| `RaftLogEntries.RaftLogEntry.ByteSizeLong` | proto/raft.pb.cc:629-655 | returns and stores the length of the encoding |
| `RaftLogEntries.RaftLogEntry.MergeFrom` | proto/raft.pb.cc:664-682 | the fields become the merge |
| `RaftLogEntries.RaftLogEntry.CopyFrom` | proto/raft.pb.cc:684-689 | the fields become those of the source, also when that is this object |
| `AppendEntriesRequests.AppendEntriesRequest.ParseEntries` | proto/raft.pb.cc:1358-1367 | the do-while over entries that expects tag 42 does what returning to the top of the loop would do |
| `AppendEntriesRequests.AppendEntriesRequest.InternalParse` | proto/raft.pb.cc:1307-1389 | the loop refines the record-by-record parse; new entries are new objects behind the old ones |
| `AppendEntriesRequests.AppendEntriesRequest.ParseFromString` | proto/raft.pb.cc:1307-1389 | fails exactly when the octets do not parse, and otherwise holds what they parse to |
| `AppendEntriesRequests.AppendEntriesRequest.ByteSizeLong` | proto/raft.pb.cc:1447-1490 | returns the length of the encoding and leaves every stored size, those in the entries included, as the size pass has it |
| `AppendEntriesRequests.AppendEntriesRequest.InternalSerialize` | proto/raft.pb.cc:1391-1445 | writes with the stored sizes, be they right or stale |
| `AppendEntriesRequests.AppendEntriesRequest.SerializeToString` | proto/raft.pb.cc:1391-1490 | both passes: the encoding of the message |
| `AppendEntriesRequests.AppendEntriesRequest.MergeFrom` | proto/raft.pb.cc:1499-1524 | the value becomes the merge; the entries taken over are copies |
| `AppendEntriesRequests.AppendEntriesRequest.CopyFrom` | proto/raft.pb.cc:1526-1531 | a deep copy, and nothing at all when copied from itself |
| `FileEntries.FileEntry.ParsePackedRun` | proto/raft.pb.cc:2730-2732 | appends the varints of a run in place |
| `FileEntries.FileEntry.InternalParse` | proto/raft.pb.cc:2688-2760 | the loop refines the record-by-record parse |
| `FileEntries.FileEntry.ByteSizeLong` | proto/raft.pb.cc:2813-2858 | returns the length of the encoding; the separate cache of the packed field is its packed length |
| `FileEntries.FileEntry.InternalSerialize` | proto/raft.pb.cc:2762-2811 | writes with the stored sizes; a stored zero suppresses the packed field |
| `FileEntries.FileEntry.SerializeToString` | proto/raft.pb.cc:2762-2858 | both passes: the encoding of the message |
| `FileEntries.FileEntry.MergeFrom` | proto/raft.pb.cc:2867-2889 | the fields become the merge |
| `FileEntries.FileEntry.CopyFrom` | proto/raft.pb.cc:2891-2896 | the fields become those of the source |
| `BlockReportItems.BlockReportItem.InternalParse` | proto/namenode.pb.cc:3646-3697 | the loop leaves in the fields what parsing into the old item comes to, and fails exactly when that does |
| `BlockReportItems.BlockReportItem.InternalSerialize` | proto/namenode.pb.cc:3699-3729 | appends the encoding of the three numbers, zeros skipped |
| `BlockReportItems.BlockReportItem.ByteSizeLong` | proto/namenode.pb.cc:3731-3755 | returns and stores the length of the encoding |
| `BlockReportItems.BlockReportItem.MergeFrom` | proto/namenode.pb.cc:3764-3782 | the fields become the merge |
| `BlockReportItems.BlockReportItem.CopyFrom` | proto/namenode.pb.cc:3784-3789 | the fields become those of the source, also when that is this object |
| `BlockReportRequests.BlockReportRequest.ParseItems` | proto/namenode.pb.cc:3905-3917 | the do-while over items that expects tag 18 does what returning to the top of the loop would do |
| `BlockReportRequests.BlockReportRequest.InternalParse` | proto/namenode.pb.cc:3889-3939 | the loop refines the record-by-record parse; new items are new objects behind the old ones |
| `BlockReportRequests.BlockReportRequest.ByteSizeLong` | proto/namenode.pb.cc:3973-3996 | returns the length of the encoding and leaves every stored size, those in the items included, as the size pass has it |
| `BlockReportRequests.BlockReportRequest.InternalSerialize` | proto/namenode.pb.cc:3941-3971 | writes with the stored sizes, be they right or stale |
| `BlockReportRequests.BlockReportRequest.MergeFrom` | proto/namenode.pb.cc:4005-4018 | the value becomes the merge; the items taken over are copies |
| `BlockReportRequests.BlockReportRequest.CopyFrom` | proto/namenode.pb.cc:4020-4025 | a deep copy, and nothing at all when copied from itself |
| `NameNodeObjects.NameNodeRequest.ParseReport` | proto/namenode.pb.cc:4316-4322 | the report is parsed into the object there is, or into one allocated for it |
| `NameNodeObjects.NameNodeRequest.InternalParse` | proto/namenode.pb.cc:4236-4344 | the loop refines the record-by-record parse; a report already there stays the same object, so that a second one merges into it |
| `NameNodeObjects.NameNodeRequest.ParseFromString` | proto/namenode.pb.cc:4192-4344 | fails exactly when the octets do not parse, and otherwise holds what they parse to, whatever it held before |
| `NameNodeObjects.NameNodeRequest.ByteSizeLong` | proto/namenode.pb.cc:4429-4505 | returns the length of the encoding, the tags of fields 16 and 18 with their two octets, and leaves every size stored three levels deep as the size pass has it |
| `NameNodeObjects.NameNodeRequest.InternalSerialize` | proto/namenode.pb.cc:4346-4427 | writes with the sizes stored in the request, its report and the items, be they right or stale |
| `NameNodeObjects.NameNodeRequest.SerializeToString` | proto/namenode.pb.cc:4346-4505 | both passes: the encoding of the request |
| `NameNodeObjects.NameNodeRequest.MergeFrom` | proto/namenode.pb.cc:4514-4561 | the value becomes the merge, present submessages merged recursively, absent ones allocated |
| `NameNodeObjects.NameNodeRequest.CopyFrom` | proto/namenode.pb.cc:4563-4568 | the value becomes that of the source, in a report of its own |
| `NodeIds.NodeIdRoundTrip` | src/datanode/datanode_datanode_client.cc:53-60 | for every host, colons included, and every int port the client recovers what the server put together |
| `NodeIds.NodeIdInjective` | src/datanode/datanode_datanode_server.cc:18 | no two nodes share an id |
| `NodeIds.NodeIdIsUtf8` | src/datanode/datanode_datanode_server.cc:18 | the id is a valid string field exactly when the host is |
| `TextForms.NodeIdIs` | src/datanode/datanode_datanode_server.cc:18 | the id is host, colon, decimal port |
| `TextForms.SplitIs` | src/datanode/datanode_datanode_client.cc:53-60 | what the client makes of any id: no address without a colon, an exception without an int behind the last one, and otherwise host and port |
| `NameNodeRequests.ReportDecodes` | src/datanode/datanode_datanode_client.cc:67-88 | the octets of a report decode to op 8, request 2, the id, and the (id, size, crc32) triples of the index in order |
| `NameNodeRequests.ReportRejected` | proto/namenode.pb.cc:3889-3903 | with an id that is not valid UTF-8 the serialized report does not parse |
| `NameNodeRequests.ReportEndToEnd` | src/datanode/datanode_datanode_client.cc:67-88 | the report of a node decodes if and only if its host is valid UTF-8 |
| `NameNodeRequests.RegistrationNames` | src/datanode/datanode_datanode_client.cc:47-61 | a node registers, and what it sends names exactly the host and the port it was given |
| `NameNodeRequests.RegistrationDecodes` | src/datanode/datanode_datanode_client.cc:47-65 | the octets of a registration decode to that id, host, port and free space |
| `NameNodeRequests.HeartbeatDecodes` | src/datanode/datanode_datanode_client.cc:90-103 | a heartbeat tells the number of blocks if and only if it is below 2^31, and never a time |
| `MessageDeclarations.RegistrationOctets` | src/datanode/datanode_datanode_client.cc:47-65 | the octets of a registration: operation 5, request 1, the submessage in field 15 |
| `MessageDeclarations.HeartbeatOctets` | src/datanode/datanode_datanode_client.cc:90-103 | the octets of a heartbeat: operation 6, request 3, the submessage in field 16, the count as an int32 |
| `MessageDeclarations.ReportOctets` | src/datanode/datanode_datanode_client.cc:67-88 | the octets of a block report: operation 8, request 2, the submessage in field 18 |
| `RequestBuilding.NewReport` | src/datanode/datanode_datanode_client.cc:71-83 | the request object that is filled in step by step has the value of the report, an item for each block in order |
| `DataNodeClients.DataNodeClient.SendToNameNode` | src/datanode/datanode_datanode_client.cc:122-152 | what gets through is the serialization of the request object, and the answer decides the result |
| `DataNodeClients.DataNodeClient.RegisterSelf` | src/datanode/datanode_datanode_client.cc:47-65 | what is sent, with host and port split off, and nothing when stoi throws |
| `DataNodeClients.DataNodeClient.SendBlockReport` | src/datanode/datanode_datanode_client.cc:67-88 | what is sent is the encoded report of what ListAllBlocks found, which is the index when all calls work and never more than it; nothing when listing throws |
| `DataNodeClients.DataNodeClient.SendHeartbeat` | src/datanode/datanode_datanode_client.cc:90-103 | what is sent: the number of blocks ListAllBlocks found, through int32_t, the timestamp unset; nothing when listing throws |
| `DataNodeClients.DataNodeClient.Start` | src/datanode/datanode_datanode_client.cc:23-39 | registration, then only if accepted the report and the thread; a failed report changes nothing, an exception on the way to it leaves no thread |
| `DataNodeClients.ReportOfReachableStore` | src/datanode/datanode_datanode_client.cc:67-88 | in every reachable state of the store the report decodes to exactly the blocks with readable meta, each once, with the recorded size and checksum |
| `HeartbeatRuns.EveryRun` | src/datanode/datanode_datanode_client.cc:23-120 | for every interleaving: Register, then Report only if accepted, then only Heartbeats, at most one per 30 sleeps, and until the flag is set at least one per 30 but for the sleeps since the last |
| `HeartbeatRuns.NextHeartbeat` | src/datanode/datanode_datanode_client.cc:106-120 | while nobody stops it the thread sends its next heartbeat after at most 64 of its steps and 30 sleeps, and nothing else |
| `HeartbeatRuns.AnswerDecides` | src/datanode/datanode_datanode_client.cc:23-39 | report, thread and heartbeats only after an accepting answer; after a refusing one nothing more is sent and there is no thread |
| `HeartbeatRuns.AcceptedGoesOn` | src/datanode/datanode_datanode_client.cc:23-39 | an accepting answer is followed by the report and the thread, a refusing one ends Start |
| `HeartbeatRuns.OneMoreAtMost` | src/datanode/datanode_datanode_client.cc:106-120 | once stop_ is set at most one more heartbeat is sent, and only if already decided |
| `HeartbeatRuns.SilentAfterStop` | src/datanode/datanode_datanode_client.cc:41-45 | after Stop has returned nothing is sent |
| `HeartbeatRuns.StopReturns` | src/datanode/datanode_datanode_client.cc:41-45 | with stop_ set the thread ends within three of its steps, so that the join happens |
| `HeartbeatRuns.StopsInTime` | src/datanode/datanode_datanode_client.cc:41-45 | a running client can be stopped at any moment |

## Left out

- Sockets, timeouts, the framing of `SendMsg` and `RecvMsg`, logging and thread creation: of an exchange only whether the request and its answer got through.
- `PipelineHandler` and `SSTableBuilder`: their behaviour is not decided by the code modelled here.
- Raft elections and log replication, and the NameNode's metadata logic: only the message types are modelled.
- Power loss and the missing fsync: a crash is that of the process.
- Files in the store's directories that are not its own, and `create_directories`: the directories exist and hold only files of blocks.
- Concurrent requests for the same id, which share one temporary file without a lock; concurrent restarts.
- A scan of the blocks directory that goes on while writes do: the index is that of one state of the files.
- `offset + length` beyond int64: the class requires that the sum does not overflow, the functions on values compute it exactly.
- `GetFreeSpace`, `NowMs` and the replies of the NameNode are inputs.
- Arenas, descriptors, reflection, `InternalSwap`, accessors, memory reuse after Clear, and the limit of 100 on the nesting of groups of unknown fields.
- Messages or payloads longer than 0x7FFFFFEF octets, which the parser refuses as a length prefix.
- Objects for the other message types (RaftMessage, MetadataStoreSnapshot, BlockEntry and the flat ones): they are modelled on values, so update in place of a present submessage and its stored size are captured by `Codec` and `CodecCaches`, not by a class.
- NameNodeObjects.NameNodeRequest: holds the block report as an object and the seven flat submessages by value, so for those seven the sharing of a submessage is not captured.
- NameNodeObjects.NameNodeRequest.MergeFrom: requires that the two requests do not share their report, since each owns its submessages.
- What the fields hold after a failed parse: the original leaves a partial result, the model says nothing about it.
- `proto/datanode.pb.cc` and the responses of the NameNode, which have the same shape.
- The CRC register is a sequence of 32 digits rather than a machine word; its value is the number the original returns.
- An exception in the heartbeat thread, which ends the process.
- Calling Start twice, or Stop while Start is running, which the server does not do.
- CodecStale.StaleSizes: requires that packed fields are at the two outermost levels at most and have tags of their own, so that no octets behind a suppressed field can be taken for it; every type of the program is such.
- StoreSystem.TmpIsEmpty: does not cover an exception of `fs::remove` in the constructor, after which the process does not come up.
