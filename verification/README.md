# A verified model of xet

xet is a content-addressed store: files are cut into chunks by a rolling hash, chunks are packed into
xorbs, shards describe files as ranges of chunks, and clients rebuild files from reconstruction responses.
This project models its hard core in Dafny and proves what it promises, for all inputs, all runs and all
interleavings. `dafny verify dfyconfig.toml` checks everything.

How it is laid out, following the program:

- The store and its garbage collector. `Store` says what integrity of a store is, `Backend` is the
  in-memory store with its commit protocol, `Gc` and `Sweep` are the sweep, `Ingest` and `PutFile` the
  path of an upload, and `Upload` says what an upload will do as a function of the store and the file. A stored
  xorb is the byte stream it came as; what validation finds in it and what readers get through its offset table
  are two different functions of it. Every write is one step of a recorded trace, so integrity is proved after
  every single write, under crashes too.
- The store as deployed. `XorbStream` is the theory of stored streams from any encoder, `Deployed` puts
  the xorb format, the Merkle roots and the shard bytes into the store, and `Delivery` connects stored
  files with the pipelines that read them.
- Chunking and naming. `GearTable` and `Chunker` cut streams, `HashText` writes hashes, `Merkle` builds
  roots.
- Downloads. `ByteRanges`, `Planning` and `Splitting` answer a range request, `Reading` and `Reader` plan
  and read the answer.
- Reading stored files. `Pipeline` is the concurrent fetch and decode pipeline as a step system,
  `CleanRuns` shows that only a failed read or a cancel keeps it from
  delivering a whole file, `ReconstructedFile` is the seekable file on top of it, `Xorbmap` the reference-counted mapping cache.
- Formats. `Wire`, `ByteGrouping`, `XorbFooter` and `XorbFormat` are xorbs, `ShardFormat`, `ShardCodec`,
  `ShardStream` and `ShardDecoder` are shards, and `Layout` says byte by byte what is written. `Validity` shows that
  the shards the builder makes pass validation.
- The client's chunk cache. `CacheFile` is one file of it, `ChunkWriter` fills one, `CacheDirectory`
  assembles a range from several, `CacheMerge` compacts them, `LruCache`, `CacheAccounting` and
  `CacheManager` bound the whole.
- `ListFiles` is the accounting of stored sizes, `Common` holds shared vocabulary.

Hash functions, the LZ4 codec and the checksum step are parameters of the model. Results about stored files
assume of the hash functions only that they do not collide on what is at hand: finitely many chunks, tree nodes,
roots and shard encodings, all given by the store and the file before an upload (`Upload.Unambiguous`,
`Deployed.Unbroken`).

Some promises turned out not to hold of the code as it is. Each is kept as the code has it, with an input that
shows it and the exact condition under which it holds:

- Validation does not compare the offsets in a xorb's footer, and every reader goes by them. A server accepts a
  xorb whose first chunk then cannot be read (`XorbStream.FooterMisleads`), and no file can be stored with it
  (`Deployed.CrookedRefuses`). All chunks can be downloaded if and only if readers find no footer or its
  offsets are where the frames end, and no packed chunk outgrows the largest chunk size
  (`Deployed.DownloadsRead`); every byte range is right if and only if the first of the two holds
  (`XorbStream.TableIsTrue`). A file is refused if and only if it is not indexed yet and one of its terms,
  at the place the index gives, would be misread (`PutFile.PutBytes`).
- The announced length of a response is right exactly when the offset stays inside the first term or the
  other terms are empty (`Reading.ExpectedLengthIsExact`, failing at `Reading.OffsetPastFirstTerm`).
- A dry run names exactly the shards a sweep deletes if and only if no dead shard is unreadable or spared
  (`Sweep.DryRunIsExact`, failing at `Sweep.DryRunReportsSpared` and `Sweep.DryRunReportsUnreadable`).
- A Merkle root of a single leaf does not bind the leaf's size (`Merkle.SingleLeafBindsHashOnly`).
- A download that cannot reopen the file it has just put in place removes the local copy of a xorb that
  others still read (`Xorbmap.CopyRemoval`, with the run in `Xorbmap.ReplayLosesCopy`).
- A shard is decoded to itself if and only if none of its block headers is shaped like the end marker
  (`ShardCodec.DecodeEncoding`, failing at `ShardDecoder.MarkerIsLost`).
- The size announced for a shard is right if and only if no file claims metadata it lacks
  (`ShardCodec.SizeIsExact`, failing at `ShardDecoder.HollowIsShorter`).
- A cache file that is still being written passes the size check exactly when it holds four bytes of data
  (`CacheFile.UnsealedLooksSealed`). Compaction can then drop good files for it
  (`CacheMerge.FourBytesLoseChunks`, `CacheMerge.FourBytesMerged`); with no source in use, a whole pass loses no
  chunk if and only if every entry that spans a stretch of entries is genuine or has no genuine entry inside it
  (`CacheMerge.MergeHashDir`).
- The comment on cache entries in download/cache_manager.go line 39 says entries in use are never evicted.
  Eviction indeed never drops one, but forgetting an idle entry takes two critical sections and can
  (`CacheAccounting.ForgetRaces`). The counts are right up to any point of a run if and only if every step
  before it is fair (`CacheAccounting.RefsCountUses`).

The comment on the size check in download/chunk_cache.go lines 97 to 103 says completeness is arithmetic;
the model follows the code, where the checksum is needed as well.

## Model

| member | source | states |
|---|---|---|
| `Store.IndexedFileReconstructs` | storage/memory/memory.go:241-249 | In an intact store an indexed file hash resolves to a stored shard, all xorbs that shard refers to are stored, and readers get chunks for its terms whose list of hashes and sizes has that very file hash, zeros for no chunks; the block carries the SHA-256 of their bytes, zeros if it has no terms |
| `Store.HarmlessKeepsIntegrity` | storage/putshard.go:95-142 | Every write or deletion that meets its own guard keeps integrity of the whole store |
| `Store.ReferencedXorbsStored` | storage/putshard.go:61-93 | Every xorb a sound shard refers to, in a file or in a CAS block, is stored |
| `Store.RebuildFrame` | storage/putshard.go:16-58 | What terms read back as depends only on the xorbs they name |
| `Store.StraightTermsRebuild` | storage/putshard.go:16-58 | Over xorbs whose offset tables lead every range to its own chunks, terms read back as what they denote |
| `Store.MisreadingShows` | storage/putshard.go:16-58 | Terms that denote chunks, none of them empty, read back as those if and only if readers get for every single term what it denotes |
| `Store.SampledByValue` | shard/shard.go:105-113 | A chunk is sampled exactly when the little-endian value of the last eight bytes of its hash is a multiple of 1024 |
| `Store.NamesAre` | storage/putshard.go:124-142 | The names a shard comes to own, spelled out: the hash and the SHA-256 of each file, and the hash of each listed chunk that is a multiple of 1024 in its last eight bytes, has the top flag bit, or is where the first term of a file starts |
| `Backend.Storage.Write` | storage/memory/memory.go:61-83 | One locked put or delete: it appends one state, a single change away, to the trace, and a harmless one keeps integrity |
| `Backend.Storage.PutXorb` | storage/memory/memory.go:168-178 | A stream is inserted exactly when the name is new and the stream holds chunks that hash to it; what validation did not read of it is not kept; otherwise nothing changes |
| `Backend.Storage.VerifyCasBlock` | storage/putshard.go:61-93 | A CAS block is accepted exactly when it lists every chunk of the stored xorb with its hash and size |
| `Backend.Storage.ReadTerms` | storage/putshard.go:16-58 | Returns what the offset tables of the xorbs lead to, failing exactly when a term does not come at its declared size; over straight tables that is what the terms denote |
| `Backend.Storage.PrepareShard` | storage/putshard.go:95-120 | A shard is admitted exactly when its CAS blocks list the stored xorbs and readers get content with its hashes for its files, which over straight tables means what its terms denote; the result is that shard with every file stamped, and sound if its counts are right |
| `Backend.StraightAdmission` | storage/putshard.go:95-120 | Over straight offset tables a shard is admitted for what its terms denote |
| `Backend.PreparedSound` | storage/putshard.go:95-120 | What an admitted shard with right counts is stamped into is sound: its files read back, its hashes are right and its xorbs are stored |
| `Backend.Storage.PutShardIndexes` | storage/putshard.go:124-142 | Afterwards exactly the old names and those of the shard exist, and every name taken before keeps its owner; in no state on the way is a new files name there before all other names of the shard |
| `Backend.Storage.PutShard` | storage/memory/memory.go:213-239 | A commit is a no-op exactly when every file is already indexed, an error exactly when the shard is not admitted, and otherwise stores the stamped shard and its names; integrity holds after every single write of a shard with right counts, unless another stored shard has its name; wherever a commit is cut off, a new files name is there only with all other names of the shard |
| `Backend.Storage.Unlink` | storage/gc.go:77-80 | Removes exactly one files name and reports whether it existed |
| `Backend.Storage.UnlinkSha256` | storage/gc.go:84-89 | Removes exactly one SHA-256 name; the zero digest is refused |
| `Backend.Storage.ShardByName` | storage/memory/memory.go:149-155 | Resolves a name to the shard that owns it, never to a missing one |
| `Backend.EligibleChunks` | shard/shard.go:246-273 | Lists each probe-able chunk once and no other: file starts in the shard's own xorbs, flagged chunks, sampled hashes |
| `Gc.Cutoff` | storage/gc.go:188-196 | The cutoff is the grace period before now, an hour if none is given, rounded down to a whole second and never up, so rounding only shields more; a negative grace period is taken as it is |
| `Gc.FileEntryPointsAt` | storage/gc.go:460-471 | Whether some files name of the shard still points at it |
| `Gc.Sha256EntryPointsAt` | storage/gc.go:474-489 | Whether some non-zero SHA-256 name of the shard still points at it |
| `Gc.HasUnanchorableFile` | storage/gc.go:523-531 | Whether the shard has a file that no SHA-256 name can anchor |
| `Gc.DropAnchorNames` | storage/gc.go:402-436 | Of a shard nothing anchors, only names that point at it go; what still points at it afterwards is a chunk name or the empty-file marker |
| `Gc.DropOtherNames` | storage/gc.go:437-455 | Afterwards no name at all points at the shard, and no other name is gone |
| `Gc.SweepShard` | storage/gc.go:379-457 | A shard is swept exactly when it is stored, readable, not anchored and not spared; then exactly it and the names it owns are gone, otherwise nothing is touched |
| `Gc.PartialShardSweep` | storage/gc.go:267-293 | Sweeping any part of the dead shards first leads to the same final store |
| `Gc.PartialXorbSweep` | storage/gc.go:344-369 | Deleting any part of the garbage xorbs first leads to the same final store |
| `Gc.AnchoredBy` | storage/gc.go:228-245 | A shard is anchored exactly when a files name or a non-zero SHA-256 name points at it, as far as the mode counts either |
| `Sweep.MarkAnchors` | storage/gc.go:207-226 | The marked shards are exactly those an anchoring name points at |
| `Sweep.ListDead` | storage/gc.go:228-245 | The queue holds, once each, exactly the stored shards that are not anchored and were written before the cutoff |
| `Sweep.MarkXorbs` | storage/gc.go:300-323 | The marked xorbs are exactly those some readable stored shard refers to |
| `Sweep.ListGarbage` | storage/gc.go:329-343 | The queue holds exactly the unmarked xorbs written before the cutoff |
| `Sweep.Dangling` | storage/gc.go:247-258 | In an intact store no name is dangling |
| `Sweep.DrainShards` | storage/gc.go:260-293 | Draining the queue deletes only what is sweepable, counts only stored deletions, stops only when empty or when the bounds are spent |
| `Sweep.DrainXorbs` | storage/gc.go:344-369 | The same for xorbs |
| `Sweep.SweepStep` | storage/gc.go:97-106 | A bounded pass reports exactly what it deleted, stays within its bound, keeps the final store the same, and is either done in that store or strictly smaller; shards and xorbs written at or after the cutoff stay with all names of those shards, and whatever goes was old, a shard also readable and without an anchoring name, a xorb also unused by every shard left |
| `Sweep.SweepAll` | storage/gc.go:159-161 | The unbounded sweep is done: a shard is gone if and only if it was old, readable and not kept by a name or for its unanchorable file; a name if and only if it pointed at such a shard; a xorb if and only if it was old, nothing was unreadable and no shard left uses it; everything else is unchanged |
| `Sweep.CollectedIs` | storage/gc.go:159-161 | Which shards and names a collection removes, spelled out in names, write times and readability |
| `Sweep.XorbsAre` | storage/gc.go:330-377 | Which xorbs a collection removes, spelled out in write times and in what the shards left use |
| `Sweep.SweepBySteps` | storage/gc.go:91-106 | Repeating bounded steps ends, in the store one sweep reaches, with the same shards, names and xorbs gone |
| `Sweep.DryRun` | storage/gc.go:278-283 | A dry run changes nothing and reports exactly the old shards no name keeps, and exactly the old xorbs no other shard uses, none if one of the others is unreadable |
| `Sweep.DryRunIsUpperBound` | storage/gc.go:300-323 | A dry run never reports less than a sweep deletes |
| `Sweep.DryRunIsExact` | storage/gc.go:278-283 | It reports exactly the swept shards if and only if no dead shard is unreadable or spared, and then the same xorbs |
| `Sweep.DryRunReportsSpared` | storage/gc.go:379-405 | An intact store, holding just the empty file, where a dry run reports a shard that a sweep spares |
| `Sweep.DryRunReportsUnreadable` | storage/gc.go:278-283 | An intact store where a dry run reports an unreadable shard that a sweep leaves |
| `Sweep.DryRunExactForFileAnchors` | storage/gc.go:379-405 | With files names among the anchors, all shards readable is enough |
| `Sweep.Perform` | storage/memory/memory.go:168-239 | Each operation of the store has its effect; it keeps integrity after every write, unless it commits a shard with wrong counts or one whose name another stored shard has |
| `Sweep.Run` | storage/gc.go:374-378 | From an empty store, over any sequence of uploads, unlinks and sweeps, each finishing or cut by a crash after any of its writes: each passes through states one change apart, with integrity in every one, from where the last one ended; a finished one has its effect and a cut one leaves a prefix of such a path; a run ends early only where a commit has wrong counts or meets another shard of its name |
| `Ingest.GroupChunkIndicesBySize` | xorb/group.go:19-46 | The groups are consecutive, cover all chunks in order, keep the size and count limits, each is as long as the limits allow, and they are those the cuts define |
| `Ingest.BuildTerms` | shard/build.go:56-89 | The loop with its open term splits the chunks into runs of consecutive chunks of one xorb that are as long as they can be; each term names its run's xorb, first chunk and end and carries the sum of its sizes, in 32-bit arithmetic, and comes with the hashes of its run |
| `Ingest.TermsAre` | shard/build.go:56-100 | The terms of a chunk list, spelled out: maximal runs, one term each |
| `Ingest.TermsDenote` | shard/build.go:56-100 | The terms denote the chunks, in order, however they were placed |
| `Ingest.TermHashesPartition` | shard/build.go:91-100 | The chunk hashes that go into the verification hashes of the terms are the file's, shared out in order |
| `Ingest.BuildCas` | shard/build.go:105-140 | Each block lists, in order, exactly the new chunks of its xorb whose hash no new chunk before has, each starting at the sum of the sizes before it modulo 2^32, flagged if it starts a file or its hash is a multiple of 1024 in its last eight bytes; the block carries the sum of all sizes modulo 2^32; every xorb with such chunks has its block, and the blocks are in the order of their hashes' text |
| `Ingest.BlocksAre` | shard/build.go:102-140 | The same of every listing of the new chunks |
| `Ingest.OneListing` | shard/build.go:130-140 | The CAS blocks are determined by the chunks: there is only one sorted listing |
| `Ingest.BuildShard` | shard/build.go:26-143 | One file block per file with its hash, one term and one verification hash for each maximal run of its chunks, its SHA-256 unless that is zero, and the flags 0x80000000 or 0xC0000000 that announce them; and the blocks of exactly the new chunks, laid out and summed up as above, those that start a file flagged |
| `Ingest.SelectIs` | shard/build.go:105-130 | A block's entries are those of the new chunks in its xorb, position by position |
| `PutFile.UniqueChunks` | storage/putfile.go:42-56 | The loop lists one body per chunk hash in order of first occurrence, and the number of each chunk of the file among them |
| `PutFile.UniqueDiffer` | storage/putfile.go:42-56 | The listed chunks have different hashes and all come from the file |
| `PutFile.NumbersRight` | storage/putfile.go:42-56 | Every chunk of the file has the hash of the listed chunk with its number |
| `PutFile.Locate` | storage/putfile.go:62-77 | Asks the index for the first chunk and for every chunk that is a multiple of 1024 in the last eight bytes of its hash and has no place yet; the places are exactly those the shards found list, the first shard's kept, and of one shard the last entry with the hash; every chunk asked for that is indexed has a place, and so has everything the owner of the first chunk's name lists; every place holds a chunk with that hash |
| `Upload.ShardPlacesAre` | shard/shard.go:222-230 | The places one shard gives: for each hash it lists, the last entry with it |
| `Upload.KnownIs` | storage/putfile.go:62-77 | The places an upload finds, spelled out chunk by chunk: who is asked, whose answer is kept |
| `Upload.AskedIsFound` | storage/putfile.go:62-77 | A chunk asked for that is indexed gets a place |
| `PutFile.PacksIs` | storage/putfile.go:79-108 | What an upload adds, spelled out: the chunks without a place, once for every hash, in the order of the file, as many to a xorb as fit 8192 chunks and 67108864 bytes, each xorb stored as the encoder writes it under the hash of its chunk list |
| `PutFile.AddedAnew` | storage/putfile.go:79-108 | A xorb that is new after an upload holds chunks of the file that were not found, none twice |
| `PutFile.FoundAddsNothing` | storage/putfile.go:62-77 | A file whose chunks the owner of its first chunk's name all lists adds no xorb |
| `PutFile.KnownHold` | storage/putfile.go:62-77 | In an intact store every place the index gives holds a chunk with the hash |
| `PutFile.Assign` | storage/putfile.go:79-88 | A chunk gets its known place, and the numbers of the others are those of the missing chunks, in order |
| `PutFile.StoreGroups` | storage/putfile.go:91-108 | The loop stores exactly the xorbs the groups make, those whose name is taken excepted, and points the chunks at them; nothing stored before is lost |
| `PutFile.GroupsPacked` | storage/putfile.go:91-108 | If no two chunk lists among the stored xorbs and the groups have one name, every group ends up in the xorb its chunks point at, at their places |
| `PutFile.JobPlanned` | storage/putfile.go:42-88 | If no two chunks of the file and the stored xorbs have one hash, every chunk of the file is the listed one with its number, and every known place holds its bytes |
| `PutFile.ChunkPlaced` | storage/putfile.go:79-108 | Every chunk ends up pointing at its bytes, whether found in a stored xorb or packed anew |
| `PutFile.ShardDescribes` | storage/putfile.go:110-114 | The shard built for an upload lists its new xorbs rightly, and its terms denote the file |
| `PutFile.PutFile` | storage/putfile.go:29-116 | Nothing stored goes away. The xorbs added hold exactly the chunks of the file that the index does not give a place, once each, in order and as many to a xorb as fit; a file all of whose chunks the owner of its first chunk's name lists adds none. If nothing at hand collides: the terms of the plan denote the file, it is refused if and only if it is not indexed yet and readers get something else for those terms, otherwise it reads back and its SHA-256 is recorded and, for a new file, indexed; the shard stored for it passes validation; over straight offset tables it is never refused |
| `PutFile.PutBytes` | storage/putfile.go:29-116 | From bytes to bytes, if nothing at hand collides: a file from a reliable source is refused if and only if it is not indexed yet and some term of it, at the place the index gives, would be misread through the offset table of a xorb stored before; otherwise it reads back and concatenates to the uploaded bytes, the blocks recorded for it carry their SHA-256, and a new file is indexed under it; a failing source leaves the store as it was |
| `Validity.BuiltIsValid` | shard/validate.go:11-97 | Over stored xorbs that its blocks match and its terms can be read from, every shard the builder makes passes validation |
| `Validity.PreparedIsValid` | storage/putshard.go:95-120 | Stamping its files keeps a shard valid |
| `PutFile.FileShardValid` | storage/putfile.go:109-116 | The shard of an uploaded file passes validation |
| `PutFile.ShaRecords` | storage/putshard.go:95-120 | In an intact store a file that reads back as data has a block with the SHA-256 of that data |
| `PutFile.IndexedReadsBack` | storage/memory/memory.go:241-244 | In every intact store an indexed file hash reads back the content with that hash, unless that content and what a stored file reads as collide |
| `PutFile.StillReadsBack` | storage/putfile.go:29-116 | A file that reads back does so after every later upload |
| `PutFile.MisreadBefore` | storage/putshard.go:30-54 | What is read of the terms of an upload is the file if and only if no term that points into a xorb stored before is misread there |
| `Upload.OneShard` | shard/build.go:130-143 | The shard an upload commits is determined by the store and the file |
| `XorbStream.ReadFrames` | xorb/decoder.go:38-126 | Frames are read back as their chunks up to what follows them |
| `XorbStream.Unframe` | xorb/decoder.go:38-126 | Whatever is read of a stream, it consists of the frames of the chunks read and what is left |
| `XorbStream.DecodedIsValid` | xorb/validate.go:18-87 | Validation accepts a stream under a hash if and only if the chunks found in it have that hash |
| `XorbStream.KeptDecodes` | storage/memory/memory.go:168-178 | Dropping what validation did not read changes nothing about what a stream holds |
| `XorbStream.Scanned` | xorb/chunk_range.go:59-92 | Scanning any valid stream finds where its frames end |
| `XorbStream.TableIsTrue` | storage/object.go:64-70 | For every valid stream, every chunk range gets its own frames and no others if and only if readers find no footer or the offsets in it equal the scanned ones |
| `XorbStream.DecodeBytes` | xorb/decoder.go:38-126 | A decoder run to its end over any bytes returns the chunks they start with, or fails where they are invalid |
| `XorbStream.TrueTableReads` | storage/putshard.go:30-54 | By a true offset table a range reads as its chunks if and only if none of its packed chunks outgrows the largest chunk size, and not at all otherwise |
| `XorbStream.FramewiseExact` | storage/reconstructed_pipeline.go:123-156 | For every valid stream, all frames can be read one by one if and only if the offset table is true and no packed chunk outgrows the largest chunk size |
| `XorbStream.EncodedDecodes` | xorb/encoder.go:55-207 | What an encoder writes is kept whole, holds its chunks and has a true offset table |
| `XorbStream.FooterMisleads` | xorb/validate.go:92-184 | A stream of two chunks that validation accepts and whose first chunk cannot be read, neither as a range nor as a frame |
| `Deployed.RootsBind` | merkle.go:141-155 | Without a collision among the chunks and tree nodes hashed for them, chunk lists with one root are the same, whatever their lengths |
| `Deployed.FilesBind` | merkle.go:157-167 | Without a collision among what is hashed for them, contents with one file hash are the same |
| `Deployed.ShardsBind` | storage/object.go:50-61 | Sound shards have the same encoding if and only if they are the same, so shards of one name are a SHA-256 collision of these two encodings |
| `Deployed.UnbrokenIsUnambiguous` | merkle.go:141-167 | If no primitive hash function collides among the finitely many inputs of an upload and what it is compared with, nothing an upload relies on is ambiguous |
| `Deployed.RunsGoOn` | storage/object.go:50-61 | A run of the store goes on as long as the encoding of a shard to commit does not share its SHA-256 with that of another stored shard |
| `Deployed.StoredFileReadsBack` | storage/memory/memory.go:241-244 | In every intact store what has an indexed file hash is what reads back under it, if nothing hashed for it and for the stored files collides |
| `Deployed.DownloadsRead` | storage/reconstructed_pipeline.go:102-161 | Every chunk of a valid stream can be downloaded if and only if its footer, if any, has the scanned offsets and no packed chunk outgrows the largest chunk size |
| `Deployed.LegibleIsStraight` | storage/putshard.go:30-54 | Such a stream reads right at every chunk range |
| `Deployed.FaithfulProtocol` | storage/putfile.go:91-108 | What the upload path encodes holds its chunks and reads right at every range |
| `Deployed.ValidXorbIsValidated` | storage/memory/memory.go:168-178 | The store accepts a stream under a name exactly when validation does |
| `Deployed.StoreFile` | storage/putfile.go:29-116 | With the formats in place, if no primitive collides at hand: storing a file fails only if its source does, or if it is not indexed and would be misread, which a store of legible xorbs excludes; otherwise it reads back byte for byte; a store of legible xorbs stays one |
| `Deployed.CrookedRefuses` | storage/putshard.go:30-54 | A xorb the store accepts and whose first chunk no file can then be stored with |
| `Delivery.StoredFileIsDeliverable` | storage/reconstructed_pipeline.go:102-161 | In an intact store of legible xorbs the pipelines of a file find exactly the chunks its terms denote |
| `Delivery.ReadFile` | storage/reconstructed_file.go:35-90 | Whatever the threads of the pipeline started for it do, exactly as much of a stored file is read as that pipeline serves, from its start; all of it if the pipeline ends cleanly, and a failure is reported only if less was read |
| `Delivery.ReadStored` | storage/reconstructed_file.go:35-90 | The same from the file hash: a file that reads back in the store is the file delivered |
| `Chunker.PassesIsMaskTest` | gearhash.go:186-193 | For every 64-bit hash the comparison made is the masked test of its top sixteen bits |
| `Chunker.CutIsFirst` | gearhash.go:156-207 | The first chunk, spelled out: it ends with the stream, at 131072 bytes, or with the shortest prefix of at least 8192 bytes whose hash, doubled and increased byte by byte modulo 2^64, is below 2^48 |
| `Chunker.ChunksAre` | gearhash.go:125-152 | Every chunk of a stream is the first chunk of what was left |
| `Chunker.ChunksPartition` | gearhash.go:122-152 | Chunks concatenate to the stream; every chunk but the last is between the minimum and the maximum size |
| `Chunker.ChunkCount` | gearhash.go:122-152 | Every chunk but the last takes its minimum, which bounds how many there are |
| `Chunker.PrefixStable` | gearhash.go:156-207 | All chunks but the last of a prefix are chunks of every extension |
| `Chunker.HashWindow` | gearhash.go:183-193 | 64-bit wrap-around forgets everything before the last 64 bytes |
| `Chunker.BoundaryIsLocal` | gearhash.go:180-193 | Whether a chunk may end at a place past the minimum depends on the 64 bytes before it alone |
| `Chunker.ScanBuffer` | gearhash.go:177-193 | Scanning what is buffered finds the definition's end of chunk or proves there is none in it |
| `Chunker.FindChunkBoundary` | gearhash.go:156-207 | The chunk returned is the one the definition cuts, however the stream is buffered: it ends with the stream, at 131072 bytes, or with the shortest prefix of at least 8192 bytes whose hash has its top sixteen bits clear; a reliable source never fails |
| `Chunker.ChunkData` | gearhash.go:125-152 | The chunks handed over concatenate to the stream, each is the first chunk of what was left, by the hash and the limits themselves, and each comes with its offset; a reliable source always succeeds, a failing one stops after whole chunks |
| `Chunker.ChunkIterator.Chunk` | gearhash.go:97-120 | Each call returns the next chunk of the definition with its offset, or end of stream when there is none |
| `HashText.AppendHash` | hash.go:126-144 | Writing short hexadecimal over zeros yields the fixed-width form, digit by digit: of every eight bytes the last comes first, high digit before low |
| `HashText.ParseHash` | hash.go:59-74 | Accepts and returns exactly what the string form defines |
| `HashText.ParseFormat` | hash.go:121-124 | Parsing undoes formatting |
| `HashText.FormatInjective` | hash.go:121-124 | Different hashes have different strings |
| `HashText.FormatAt` | hash.go:121-144 | Each byte of a hash is written as two lower-case digits, at the place its eight-byte group reversed gives it |
| `HashText.ParseAccepts` | hash.go:59-74 | Exactly the strings of sixty-four hexadecimal digits, in either case, are hashes |
| `Merkle.LineIsPrefixFree` | merkle.go:123-129 | A child line is read back unambiguously whatever follows it |
| `Merkle.LinesInjective` | merkle.go:117-138 | The input of a node determines its children |
| `Merkle.LineFits` | merkle.go:110-112 | No child line outgrows its share of the scratch buffer |
| `Merkle.NextMergeCut` | merkle.go:84-108 | Two nodes or fewer are one group; else the group ends behind the first node from the third on whose hash has a byte 24 divisible by 4, at the latest behind the ninth node or the last |
| `Merkle.MergeNodes` | merkle.go:117-138 | The parent hashes the lines of its children one after the other, each the 64 digits of the hash, a colon between blanks, the size without leading zeros and a line feed, and carries the sum of their sizes modulo 2^64 |
| `Merkle.CollapseLevel` | merkle.go:49-67 | One pass of the inner loop is one level of the tree: the nodes fall into groups from left to right, each cut off what is left by the rule and merged into its parent |
| `Merkle.ComputeRoot` | merkle.go:36-74 | Zeros without leaves; else the hash at the top of a tree over the leaves, every level of two or more nodes grouped and merged into the next, up to a single node |
| `Merkle.LineIs` | merkle.go:123-129 | A child line, character by character |
| `Merkle.NextCutIs` | merkle.go:84-108 | Where a group ends, by byte 24 of the hashes alone |
| `Merkle.LevelIs` | merkle.go:49-67 | A level, spelled out group by group |
| `Merkle.RootIs` | merkle.go:36-74 | The root is the top of a tree of such levels |
| `Merkle.FileRootIs` | merkle.go:157-167 | The hash of a file: zeros without chunks, else the keyed hash of the top of their tree |
| `Merkle.SizesConserved` | merkle.go:117-138 | Sizes add up level after level modulo 2^64, and exactly without overflow |
| `Merkle.RootBinds` | merkle.go:36-74 | The root of two or more leaves determines the ordered list of leaf hashes and sizes, given no collision among the inputs hashed |
| `Merkle.SingleLeafBindsHashOnly` | merkle.go:48-69 | A single leaf is its own root, so its size is not bound |
| `Merkle.SingleLeafDiffers` | merkle.go:48-69 | A single leaf is never mistaken for a larger tree |
| `Merkle.FileRootBinds` | merkle.go:157-167 | A file hash determines the chunk hashes and sizes of files of two or more chunks |
| `ByteRanges.ParseByteRange` | download/range.go:15-42 | The answer never starts below zero nor ends past the file, and is empty only when it starts at or past the end |
| `ByteRanges.SpelledRange` | download/range.go:11-42 | A header that spells a range, as in section 14.1.2 of RFC 9110, is answered with exactly the bytes it requests |
| `ByteRanges.OtherHeader` | download/range.go:11-20 | Any other header requests the whole file |
| `ByteRanges.SpellsOnce` | download/range.go:15-42 | A header spells at most one range |
| `Planning.TrimSegment` | download/range.go:44-74 | A segment is cut to exactly the chunks that hold requested bytes, and stays whole unless the shard lists agreeing sizes |
| `Planning.DataRangeInjective` | xorb/chunk_range.go:97-108 | Different chunk ranges have different byte ranges |
| `Planning.KeepLongestCovers` | download/encode_v1.go:103-110 | Keeping the longest range per start still covers every term |
| `Planning.AddFetch` | download/encode_v1.go:72-110 | The fetch entry recorded for a term covers it with the bytes its chunks have; no two entries of a xorb start at the same chunk, and each is the range of a term |
| `Planning.TakeSegment` | download/encode_v1.go:41-60 | A segment that overlaps the range is placed where its bytes are in the file |
| `Planning.PlaceTerm` | download/encode_v1.go:54-70 | The terms so far denote a contiguous part of the file that begins at or before the range, as tightly as chunks allow |
| `Planning.BuildResponse` | download/encode_v1.go:25-116 | Fails only when a segment is not in its xorb; otherwise its terms denote exactly the file from the start of the first needed chunk to the end of the last, with the offset inside the first term, and every term has a fetch entry, one per start chunk and xorb and no more |
| `Reading.BuiltResponseEmits` | download/encode_v2.go:19-135 | What a reader emits for a built response is the file from the start of the range to the end of its last chunk |
| `Reading.ExpectedLengthIsExact` | download/decode_v1.go:315-338 | The announced length is what is emitted if and only if the offset stays inside the first term or the other terms are empty |
| `Reading.OffsetPastFirstTerm` | download/decode_v1.go:315-338 | A response that announces nothing and emits a byte |
| `Reading.ComputeExpectedLength` | download/decode_v1.go:315-338 | The loop computes that length with its wrap-around |
| `Reading.SelectFetch` | download/decode_v1.go:267-287 | The smallest entry that holds the term, the first among equals; none exactly when no entry holds it |
| `Reading.PlanReader` | download/decode_v1.go:234-265 | One download per term, taken from the response, in which the term's chunks lie; fails only when some term has no usable entry |
| `Reading.PlannedIsPlannable` | download/prefetcher.go:44-50 | Planning a built or split response never fails |
| `Reading.SameKeySameChunks` | download/prefetcher.go:87-107 | Two selections with one download key are the same chunk range |
| `Reading.SelectFetchV2` | download/decode_v2.go:268-294 | The same choice over the second format |
| `Reading.SelectionsAgree` | download/decode_v2.go:234-294 | Both formats of a response make a reader choose the same chunk and byte range for every term |
| `Reader.Prefetch` | download/prefetcher.go:87-107 | Downloads the bytes of each range once and decodes them: every selection finds exactly its chunks under its key, though selections of one byte range share a download |
| `Reader.RightDownload` | download/prefetcher.go:236-283 | The bytes a true offset table gives for a chunk range decode to exactly its chunks |
| `Reader.Download` | download/prefetcher.go:236-283 | A download gives the chunks its bytes decode to, and fails unless they are as many as expected |
| `Reader.ChunkReader.TakeChunk` | download/decode_v1.go:119-177 | One chunk delivered is the next of the stream, less what is to skip, which may span several leading chunks |
| `Reader.ChunkReader.Fill` | download/decode_v1.go:119-177 | Makes a non-empty chunk available unless everything was delivered |
| `Reader.ChunkReader.Read` | download/decode_v1.go:76-95 | Returns the next bytes of the stream; end of file only when fewer than asked for were left |
| `Reader.ChunkReader.WriteTo` | download/decode_v1.go:97-117 | Writes exactly everything left |
| `Reader.Execute` | download/decode_v1.go:36-232 | Whatever response is planned right, downloading and decoding its byte ranges gives what its terms and offset denote |
| `Reader.ReadRange` | download/decode_v1.go:36-232 | From stored streams to bytes, for every range and every stream with a true offset table: build, plan, download the byte ranges, decode and read; the result is the file from the start of the range on, it ends with the range or, if the shard lists the sizes of all its xorbs, with a chunk that starts within it, and the announced length is its length |
| `Splitting.Plan` | download/split_v2.go:166-181 | The cut chosen is a chunk boundary inside the window with the floor of requested bytes on both sides, nearest the middle of the requested bytes, the lower on a tie; none is chosen only if there is no such boundary |
| `Splitting.MakePieces` | download/split_v2.go:57-80 | Fails exactly when the shard contradicts a term |
| `Splitting.CutPieces` | download/split_v2.go:84-104 | The pieces name the same chunks in the same order with the same lengths, and cutting stops only at the wanted number of terms or when no cut is left |
| `Splitting.CompactCovers` | download/split_v2.go:135-141 | Sorting and compacting keeps an entry that covers each piece, one per start |
| `Splitting.Gather` | download/split_v2.go:117-134 | Each cut xorb gets the entries of all its pieces |
| `Splitting.RefetchPlans` | download/split_v1.go:26-56 | The new entries cover every term with the bytes its chunks have |
| `Splitting.BytesAreRefs` | download/split_v2.go:49-52 | What a term list denotes depends only on the chunks it names |
| `Splitting.Reissue` | download/split_v1.go:42-57 | Fails only when some piece is not in its xorb's table |
| `Splitting.SplitResponse` | download/split_v1.go:17-58 | Fails only when the shard contradicts a term or a piece is not in its xorb's table; otherwise the output is a split of the input and every term of it has a fetch entry |
| `Splitting.SplitConsistent` | download/split_v2.go:19-47 | On a consistent store splitting cannot fail and preserves meaning: same chunks, same bytes, same emission |
| `Pipeline.MovePlaced` | storage/reconstructed_pipeline.go:65-82 | Every move keeps every frame in exactly one place |
| `Pipeline.SendsNeverBlock` | storage/reconstructed_pipeline.go:65-82 | Whenever a thread is about to send, the channel has room |
| `Pipeline.EmptyHoldNothing` | storage/reconstructed_pipeline.go:277-285 | With every frame empty every issued buffer was returned exactly once |
| `Pipeline.ServeContent` | storage/reconstructed_pipeline.go:199-226 | Serving the frame that arrives keeps what was delivered a prefix of the file, decoded right |
| `Pipeline.InvStep` | storage/reconstructed_pipeline.go:86-273 | Every step of the fetcher, a worker or the reader keeps the invariant |
| `Pipeline.RunsKeepInv` | storage/reconstructed_pipeline.go:65-273 | Every state of every run, under every interleaving, satisfies the invariant |
| `Pipeline.RunsAreSafe` | storage/reconstructed_pipeline.go:65-273 | Every state of every run is safe: frames in one place, buffers accounted for, chunks delivered in file order and decoded right, nothing leaked once stopped |
| `Pipeline.RunsKeepSourced` | storage/reconstructed_pipeline.go:102-161 | In every state of every run what was fetched is what the storage has, term after term, chunk after chunk |
| `Pipeline.CleanEnd` | storage/reconstructed_pipeline.go:102-161 | When the channel closes without an error every term was read and adds up to its declared size; a reader that emptied it was given every chunk |
| `Pipeline.NeverStuck` | storage/reconstructed_pipeline.go:164-226 | Whenever the reader waits, the fetcher or a worker can step |
| `Pipeline.StopIsReached` | storage/reconstructed_pipeline.go:267-273 | After a cancel the fetcher or a worker can step until all have ended |
| `Pipeline.Descends` | storage/reconstructed_pipeline.go:86-196 | Every step of the fetcher or a worker uses up one of finitely many that are left |
| `Pipeline.StopEnds` | storage/reconstructed_pipeline.go:267-273 | In every run after a cancel, whatever the reader does meanwhile, the fetcher and the workers take at most as many steps as were left, and where they can take no more all of them have ended |
| `ReconstructedFile.TermAt` | storage/reconstructed_file.go:172-182 | The term that holds a position, and its file offset |
| `ReconstructedFile.File.constructor` | storage/reconstructed_file.go:35-46 | A new file is open at its start, without an error |
| `ReconstructedFile.File.Advance` | storage/reconstructed_file.go:143-168 | Makes the chunk holding the position the served one, discarding those before it; fails exactly when the pipeline does not deliver that far |
| `ReconstructedFile.File.Start` | storage/reconstructed_file.go:143-168 | Starts, at the term holding the position, the next pipeline of the file, whatever comes of it |
| `ReconstructedFile.File.Read` | storage/reconstructed_file.go:48-90 | Returns exactly as much as was asked for and the file has, as far as the pipeline serves that runs or is started for the call, which can be told before; it fails for good if and only if that is less; over a storage that holds the file, what is returned are its bytes at the position; end of file only at the end, and the last byte only after a clean end |
| `ReconstructedFile.File.Seek` | storage/reconstructed_file.go:92-122 | Moves the position as asked; a sticky error is cleared by moving away from the served chunk |
| `ReconstructedFile.File.Fail` | storage/reconstructed_file.go:185-195 | An error sticks at its position and tears the pipeline down |
| `ReconstructedFile.File.Close` | storage/reconstructed_file.go:124-134 | Closes once and leaves no pipeline |
| `ReconstructedFile.ReadAll` | storage/reconstructed_file.go:35-90 | Opening a file the storage holds and reading it at once gives all of it if its pipeline ends cleanly, else what it delivers up to the last whole chunk that leaves some of the file to come |
| `ReconstructedFile.File.ServedIs` | storage/reconstructed_file.go:48-90 | How far reads are served, spelled out: from the running pipeline, or one started at the term that holds the position |
| `ReconstructedFile.HoldingIs` | storage/reconstructed_file.go:172-183 | The term a pipeline is started at is the one that holds the position |
| `ReconstructedFile.AheadNext` | storage/reconstructed_file.go:60-84 | How far a failing pipeline serves: each chunk within it, and none from the one that would complete the file on |
| `ReconstructedFile.DeliversAtMost` | storage/reconstructed_pipeline.go:102-161 | Whatever the storage, no run delivers more bytes than its terms declare |
| `ReconstructedFile.DrainedDeliversAll` | storage/reconstructed_pipeline.go:231-257 | Whatever the storage, a pipeline drained to a clean end delivered exactly the declared bytes |
| `ReconstructedFile.StreamRight` | storage/reconstructed_pipeline.go:86-257 | The output of every run is the decoding of the stored frames from the start, and of all of them after a clean end |
| `ReconstructedFile.PipelinesYield` | storage/reconstructed_pipeline.go:86-257 | Over a storage that holds the file, every run of a pipeline from any term delivers the file from there as far as it goes, and all the rest if it ends cleanly |
| `ReconstructedFile.StreamFits` | storage/reconstructed_pipeline.go:102-161 | Whatever the storage and the interleaving, a pipeline delivers no more bytes than its terms declare, and ends cleanly only with exactly those |
| `CleanRuns.CalmStep` | storage/reconstructed_pipeline.go:102-196 | Over a storage that holds the file, no step but a failed read or a cancel makes anything go wrong: sizes add up and chunks decode |
| `CleanRuns.CalmGoesOn` | storage/reconstructed_pipeline.go:86-257 | Until the reader has everything, some thread can step without anything going wrong |
| `CleanRuns.CalmDescends` | storage/reconstructed_pipeline.go:86-257 | Every such step, the reader's too, uses up one of finitely many |
| `CleanRuns.UndisturbedRuns` | storage/reconstructed_pipeline.go:65-257 | In every state of every run without a failed read or a cancel, under every interleaving, nothing has gone wrong, and boundedly many steps are left |
| `CleanRuns.UndisturbedDelivers` | storage/reconstructed_pipeline.go:65-257 | Such a run can go on until the reader has everything, and once the reader gets no more it has the whole file |
| `CleanRuns.CleanStream` | storage/reconstructed_pipeline.go:65-257 | Over a storage that holds a file, some run delivers all of it |
| `CleanRuns.UncleanIsDisturbed` | storage/reconstructed_pipeline.go:65-257 | A pipeline that does not end cleanly had a failed read or a cancel |
| `ReconstructedFile.CancelledAtOnce` | storage/reconstructed_pipeline.go:199-226 | A reader that is cancelled at once gets nothing, so every configuration has runs |
| `Xorbmap.MappingStepOk` | internal/xorbmap/mapping.go:22-51 | The reference count of a mapping is its holders plus the cache, whatever step is taken |
| `Xorbmap.InvStep` | internal/xorbmap/cache.go:39-111 | Every step of every caller keeps the invariant |
| `Xorbmap.RunsKeepInv` | internal/xorbmap/cache.go:39-111 | Every state of every run satisfies the invariant |
| `Xorbmap.NeverRevives` | internal/xorbmap/mapping.go:22-32 | A mapping at zero stays there and is never acquired again |
| `Xorbmap.HeldIsMapped` | internal/xorbmap/mapping.go:40-58 | An open holder's mapping is still mapped |
| `Xorbmap.UnmapsOnce` | internal/xorbmap/mapping.go:40-51 | Unmapping happens only at zero, and only once |
| `Xorbmap.AddOk` | internal/xorbmap/cache.go:68-100 | Adding to the cache overwrites nothing |
| `Xorbmap.CopyRemoval` | storage/s3/xorb_cache.go:23-80 | A step removes the local copy of a hash in use exactly when it is a download that put its file in place, could not open it and removed it |
| `Xorbmap.MappedIsInUse` | internal/xorbmap/cache.go:68-100 | A mapping still mapped is in use |
| `Xorbmap.ReplayIsRun` | storage/s3/xorb_cache.go:54-68 | The run that shows it is a run of the cache |
| `Xorbmap.ReplayLosesCopy` | storage/s3/xorb_cache.go:54-68 | Its last step removes the local copy while a holder still reads it |
| `ByteGrouping.PositionInjective` | xorb/compression.go:99-127 | No two bytes go to the same place |
| `ByteGrouping.GroupingInverse` | xorb/compression.go:103-155 | Grouping and ungrouping undo each other, for every length |
| `ByteGrouping.GroupedAt` | xorb/compression.go:99-155 | Grouping only moves bytes, each to its own place, and ungrouping takes it back from there |
| `ByteGrouping.Deinterleave4` | xorb/byte_grouping.go:25-43 | Each of the four planes holds its byte of every whole group |
| `ByteGrouping.ApplyByteGrouping4` | xorb/compression.go:103-127 | In place, the buffer becomes the grouped data, partial group included |
| `ByteGrouping.Interleave4` | xorb/byte_grouping.go:4-22 | The whole groups hold the planes' bytes |
| `ByteGrouping.ReverseByteGrouping4` | xorb/compression.go:131-155 | In place, the buffer becomes the ungrouped data |
| `XorbFooter.ReadChunkOffsets` | xorb/footer.go:27-104 | Computes exactly the offsets the footer format defines, and fails where it does |
| `XorbFooter.FullOffsets` | xorb/encoder.go:148-207 | Reading the offsets of a full-format stream returns those its footer was made with |
| `XorbFooter.ValidateWithFooter` | xorb/validate.go:92-184 | Accepts exactly the footers that carry the hash and the chunk hashes and whose sections agree |
| `XorbFooter.FooterAccepted` | xorb/encoder.go:148-207 | The footer written for a list of hashes passes |
| `XorbFormat.HeaderRoundTrip` | xorb/chunk.go:36-52 | Parsing a header returns it: 24 bits hold every size a chunk can have |
| `Layout.HeaderIs` | xorb/chunk.go:36-52 | A chunk header byte by byte: zero, the packed size in three bytes, the kind, the size in three bytes |
| `Layout.FrameIs` | xorb/encoder.go:55-115 | A chunk frame: the header and the chunk as it is, or compressed if that is shorter, or grouped by place among four bytes and compressed if that is shorter still |
| `Layout.StreamIs` | xorb/encoder.go:55-136 | An encoded xorb is the frames of its chunks, one after the other, and the footer if asked for, with the hash of the chunk list, the chunk hashes and the packed and unpacked end of every chunk |
| `Layout.FooterIs` | xorb/encoder.go:148-207 | Where every field of a xorb footer is, and its value |
| `XorbFormat.SelectBestCompression` | xorb/compression.go:159-196 | The result is no longer than the chunk, its compression or the compression of its grouping, the earlier on a tie |
| `XorbFormat.SelectDecodes` | xorb/chunk.go:62-93 | Whatever way a chunk was packed, it decodes to itself |
| `XorbFormat.FrameNext` | xorb/decoder.go:38-126 | A stored chunk is read back, whatever follows it |
| `XorbFormat.CastsLossless` | xorb/encoder.go:55-115 | Every size and offset of an accepted xorb fits its field |
| `XorbFormat.FooterOffsets` | xorb/encoder.go:148-207 | Footer offsets are the prefix sums of frame sizes |
| `XorbFormat.Encoder.SetUniquenessNonce` | xorb/encoder.go:43-52 | The nonce can be set only while a footer is still to be written |
| `XorbFormat.Encoder.Write` | xorb/encoder.go:55-115 | A chunk is taken exactly when no limit would be broken; a refusal is final and writes nothing |
| `XorbFormat.Encoder.Close` | xorb/encoder.go:119-136 | The stream becomes the frames of the chunks followed by their footer, once |
| `XorbFormat.Decoder.Read` | xorb/decoder.go:38-126 | Returns the next chunk, the end or the failure the stream defines; without a footer asked for, anything torn or footer-like ends the chunks |
| `XorbFormat.DecodeAll` | xorb/decoder.go:38-126 | Decoding an encoded xorb returns its chunks for any buffer that holds a chunk; a footer is required when asked for |
| `XorbFormat.ChunksUnique` | xorb/validate.go:18-79 | A stream holds one list of chunks |
| `XorbFormat.Validate` | xorb/validate.go:18-87 | Accepts a stream exactly when it holds chunks that hash to the claimed hash and ends properly after them |
| `XorbFormat.EncodedChunks` | xorb/encoder.go:55-136 | An encoded xorb holds the chunks it was made of |
| `XorbFormat.ValidateEncoded` | xorb/validate.go:18-87 | An encoded xorb is valid under its hash and no other |
| `XorbFormat.ScanChunkOffsets` | xorb/chunk_range.go:59-92 | The scan computes the offsets the frames define |
| `XorbFormat.ScanFrames` | xorb/chunk_range.go:59-92 | Scanning frames, whoever made them, finds where they end |
| `XorbFormat.OffsetsAgree` | xorb/chunk_range.go:59-92 | Footer offsets, scanned offsets and prefix sums of frame sizes are the same |
| `XorbFormat.ChunkDataRange` | xorb/chunk_range.go:19-54 | On a stream that scans, hopping only as far as needed gives the byte range the offsets give |
| `XorbFormat.RangeSlice` | xorb/chunk_range.go:97-108 | The bytes of a chunk range are the frames of those chunks |
| `ShardFormat.TransformInvolution` | shard/shard.go:57-66 | The SHA-256 byte order change is its own inverse |
| `ShardFormat.TransformSha256ByteOrder` | shard/shard.go:57-66 | The loop computes that change |
| `ShardFormat.FileRoundTrip` | shard/encode.go:190-224 | A file block is read back, whatever follows it |
| `ShardFormat.CasRoundTrip` | shard/encode.go:226-244 | A CAS block is read back, whatever follows it |
| `Layout.FileBlockIs` | shard/encode.go:190-224 | Where every field of a file block is, the parts bits 30 and 31 announce included |
| `Layout.CasBlockIs` | shard/encode.go:226-244 | Where every field of a CAS block is |
| `Layout.RecordsAre` | shard/encode.go:190-255 | The four kinds of 48-byte records field by field, the end marker among them |
| `Layout.ShardHeaderIs` | shard/encode.go:179-188 | The 48 bytes a shard begins with |
| `Layout.ShardFooterIs` | shard/encode.go:142-177 | Where every field of the 200-byte footer is |
| `ShardFormat.BlocksRoundTrip` | shard/decode.go:27-251 | A section is read back when no header in it equals the end marker |
| `ShardFormat.BlocksCutShort` | shard/decode.go:254-265 | A header equal to the end marker ends the section early |
| `ShardCodec.FooterRoundTrip` | shard/encode.go:142-177 | A footer of the supported version is read back |
| `ShardCodec.SkippedIs` | shard/decode.go:243-247 | How much of a long footer is skipped in signed 64-bit arithmetic, wrap-around included |
| `ShardCodec.OffsetsTrue` | shard/encode.go:142-177 | The offsets a footer carries are where the sections start |
| `ShardCodec.DecodeEncoding` | shard/decode.go:27-265 | Decoding an encoding returns the same shard and footer if and only if no block header equals the end marker |
| `ShardCodec.BodyInjective` | shard/encode.go:49-140 | Shards without marker-shaped headers have different encodings |
| `ShardCodec.EncodedSize` | shard/shard.go:322-362 | The loop computes the announced size |
| `ShardCodec.SizeIsExact` | shard/shard.go:322-362 | The announced size is the number of bytes encoded if and only if no file claims metadata it lacks |
| `ShardStream.SectionsAreBody` | shard/encode.go:112-140 | The sections a reader builds one by one are the body of the encoding |
| `ShardStream.BuildSection` | shard/encode.go:112-140 | Section by number, as the encoding has it |
| `ShardStream.ShardReader.Read` | shard/encode.go:49-110 | Returns the next bytes of the encoding for any buffer; end of file only when nothing was left |
| `ShardStream.ReadWith` | shard/encode.go:12-110 | Reading with buffers of any sizes yields consecutive parts of the one encoding |
| `ShardDecoder.DecodeFiles` | shard/decode.go:27-251 | The file section loop computes what the format defines |
| `ShardDecoder.DecodeCasBlocks` | shard/decode.go:27-251 | The CAS section loop computes what the format defines |
| `ShardDecoder.DecodeShard` | shard/decode.go:27-251 | The decoder computes what the format defines, failures included |
| `ShardDecoder.Lossless` | shard/encode.go:12-110 | Encoding with buffers of any sizes and decoding what was read returns the shard and its footer if and only if no header looks like the end marker |
| `ShardDecoder.IndexCas` | shard/validate.go:11-97 | Where each CAS hash is, failing exactly when one repeats |
| `ShardDecoder.Validate` | shard/validate.go:11-97 | Accepts exactly the shards whose sizes, ranges and references are consistent |
| `Validity.ShardValidIs` | shard/validate.go:11-97 | What validation accepts, spelled out: distinct blocks without reserved flags whose chunks lie one behind the other and add up modulo 2^32, files with no flags but bits 30 and 31 and the parts those announce, and terms that are not empty and, where their xorb is listed, lie within it and add up |
| `ShardDecoder.ValidIsEncodable` | shard/validate.go:11-97 | A valid shard whose counts fit their fields can be encoded, in exactly its announced size |
| `ShardDecoder.MarkerIsLost` | shard/validate.go:11-97 | A shard that passes validation and does not survive being encoded |
| `ShardDecoder.HollowIsShorter` | shard/shard.go:322-362 | A file that is announced 48 bytes longer than it is encoded |
| `ListFiles.CountUsage` | storage/list_files.go:223-258 | Each chunk is counted once per entry that references it |
| `ListFiles.CountDecides` | storage/list_files.go:201-213 | A chunk an entry references is shared exactly when its count is above one |
| `ListFiles.RunTotal` | storage/list_files.go:259-303 | Packed sizes of consecutive chunks add up to the bytes between their ends |
| `ListFiles.SumTerm` | storage/list_files.go:259-303 | A term adds each chunk not added before, run by run |
| `ListFiles.ComputeStoredSizes` | storage/list_files.go:223-307 | Each chunk an entry references in a term the store can satisfy counts its packed size once, as unique if no other entry references it and as shared otherwise |
| `ListFiles.CountedIs` | storage/list_files.go:259-303 | What is charged is exactly the chunks some satisfiable term covers |
| `ListFiles.ChargedIs` | storage/list_files.go:223-307 | Which chunks an entry is charged for, as unique or as shared, and at what size, spelled out in terms and packed ends |
| `CacheFile.UpdateAppend` | download/chunk_cache.go:504-524 | The checksum of a whole does not depend on how it is cut into pieces |
| `CacheFile.OffsetsFit` | download/chunk_cache.go:764-769 | Every offset of a cache file fits the 32 bits it is stored in |
| `CacheFile.ReadLayout` | download/chunk_cache.go:468-502 | A file is laid out only if its range is valid and its size is header, data and trailer |
| `CacheFile.VerifyCrc` | download/chunk_cache.go:507-529 | Reading a buffer at a time gives the verdict on the whole file |
| `CacheFile.ReadMetas` | download/chunk_cache.go:533-562 | Fails exactly when the range is outside the file or an offset pair is out of order; otherwise each ref is that of its table entry |
| `CacheFile.SealedAccepted` | download/chunk_cache.go:760-787 | A sealed file is accepted and gives back each chunk that was sealed into it |
| `Layout.SealedIs` | download/chunk_cache.go:760-787 | A sealed cache file byte by byte: one more than its chunks, where each starts and the last ends, their bytes, and four more |
| `Layout.SealedSum` | download/chunk_cache.go:760-787 | Those four are a checksum that takes in the bytes of the chunks first and all before them after |
| `CacheFile.UnsealedLooksSealed` | download/chunk_cache.go:257-267 | A file being written passes the size arithmetic exactly when it holds four bytes of data |
| `CacheFile.UnsealedAccepted` | download/chunk_cache.go:97-103 | Size and checksum together accept it only if those bytes are the checksum of the empty table |
| `CacheFile.HalfSealedRejected` | download/chunk_cache.go:776-783 | A file with its table patched and no checksum yet fails the size arithmetic |
| `ChunkWriter.ChunkCache.constructor` | download/chunk_cache.go:244-281 | A new file is the empty table |
| `ChunkWriter.ChunkCache.Offsets` | download/chunk_cache.go:764-769 | The 32-bit running sums are the chunk offsets; they never wrap around |
| `ChunkWriter.ChunkCache.Seal` | download/chunk_cache.go:760-787 | The file becomes the sealed file of the chunks loaded |
| `ChunkWriter.ChunkCache.Load` | download/chunk_cache.go:618-690 | One load takes the next chunk, ends or fails; until the last chunk the file is the empty table and the data so far, from then on it is sealed |
| `ChunkWriter.ChunkCache.LoadAll` | download/chunk_cache.go:730-757 | The file ends up sealed exactly when the decoder produced at least the expected chunks, holding those and no others; the call succeeds exactly when it produced no more and ended well |
| `ChunkWriter.ChunkCache.Finish` | download/chunk_cache.go:813-830 | A file that was not sealed is emptied |
| `ChunkWriter.ChunkCache.ReadChunk` | download/chunk_cache.go:575-607 | A reader gets a chunk exactly when it is shown and fits the buffer, and gets the bytes that were decoded |
| `CacheDirectory.Assemble` | download/chunk_cache.go:351-422 | The greedy cover misses only if some chunk is in no genuine candidate, whatever the order of equal starts |
| `CacheDirectory.OpenCachedRange` | download/chunk_cache.go:293-454 | Opens a place for every chunk, names a corrupt file, or misses; with no corrupt file it opens exactly when every chunk lies in some sealed file |
| `CacheDirectory.OpensExactly` | download/chunk_cache.go:293-454 | With no corrupt file a range opens exactly when every chunk of it is covered |
| `CacheDirectory.SealedIsGenuine` | download/chunk_cache.go:468-531 | A file sealed over the chunks its name gives is complete and genuine, and serves each of them |
| `CacheDirectory.OpenedBytes` | download/chunk_cache.go:424-451 | Each meta of an opened range leads to the xorb's own bytes of its chunk |
| `CacheMerge.ReadChunks` | download/cache_merge.go:30-40 | Chunks read back one by one fit the buffer and, in a directory with no corrupt entry, are the xorb's |
| `CacheMerge.WriteMergedEntry` | download/cache_merge.go:153-194 | In any directory: leaves a genuine file or nothing complete under the name, loses nothing, and touches no other file but a corrupt one met on the way; with no corrupt entry it succeeds exactly when the file is there already or every chunk is covered and readable |
| `CacheMerge.MergeRun` | download/cache_merge.go:122-148 | Nothing is lost unless a member of the run was reused as it was; on success exactly the unused members other than the covering one are gone; with no corrupt entry coverage and bytes stay |
| `CacheMerge.RunEnd` | download/cache_merge.go:90-99 | A run is a maximal stretch of touching entries, covered from end to end if none is corrupt |
| `CacheMerge.SpansRun` | download/cache_merge.go:90-99 | An entry that spans a stretch covers the run it is in from end to end |
| `CacheMerge.CoveringSpans` | download/cache_merge.go:122-148 | An entry that covers its run, and is not alone in it, spans a stretch |
| `CacheMerge.OpenSource` | download/chunk_cache.go:293-423 | Looking for the chunks of a merged file removes at most a corrupt entry and loses no chunk; with no corrupt entry it finds them exactly when all are covered |
| `CacheMerge.MergeHashDir` | download/cache_merge.go:47-116 | For any directory: the entries reused are, one for each stretch, those complete entries inside which every complete entry touching them lies; no chunk is lost if each of them is genuine or has no genuine entry inside it, and with no source in use only then, which can be told beforehand unless two entries are for the same chunks; with no corrupt entry every chunk keeps its bytes; when no source is in use and every read succeeds, no two remaining entries touch or overlap |
| `CacheMerge.CompactionSafe` | download/cache_merge.go:122-148 | Over every choice of sources in use, a run with an entry covering it loses no chunk exactly when that entry is genuine |
| `CacheMerge.FourBytesLoseChunks` | download/cache_merge.go:74-77 | A file with four bytes of data passes for complete, and compaction gives up the two sealed files it seems to cover |
| `CacheMerge.FourBytesMerged` | download/cache_merge.go:47-116 | The whole pass loses a chunk of that directory |
| `LruCache.Cache.Add` | internal/lru/lru.go:36-58 | The entry becomes the last of the list, the others stay in order, and the first beyond the limit are dropped |
| `LruCache.Cache.Get` | internal/lru/lru.go:61-73 | Finds the entry if there is one, and makes it the last of the list with the others in order |
| `LruCache.Cache.Remove` | internal/lru/lru.go:99-111 | Takes the entry out of the list and nothing else |
| `LruCache.Cache.RemoveOldest` | internal/lru/lru.go:114-145 | Removes and returns the oldest |
| `CacheAccounting.PoppedIsEnough` | download/cache_manager.go:258-274 | The entries popped are just enough: after any fewer the total is still over capacity |
| `CacheAccounting.JustEnoughUnique` | download/cache_manager.go:258-274 | Only one number of entries is just enough |
| `CacheAccounting.EvictedFinds` | download/cache_manager.go:263-277 | Only evictable entries among those popped are gone; all others keep size and users |
| `CacheAccounting.EvictedEnds` | download/cache_manager.go:263-284 | Eviction ends at or under capacity, or with nothing left that could be evicted; it pauses exactly in the second case |
| `CacheAccounting.ReconciledFinds` | download/cache_manager.go:366-403 | After a scan exactly what is on disk is tracked, at its size there, with the uses already counted |
| `CacheAccounting.StepKeepsBalance` | download/cache_manager.go:122-217 | Every critical section keeps the total equal to the sum of the tracked sizes |
| `CacheAccounting.RunsStayBalanced` | download/cache_manager.go:122-284 | In every run, at every point, the total is the sum of the tracked sizes |
| `CacheAccounting.StepCounts` | download/cache_manager.go:122-217 | A critical section counts uses right if and only if it is fair |
| `CacheAccounting.RefsCountUses` | download/cache_manager.go:36-40 | In every run the counts kept for a file are right at every point up to i if and only if no step before i gives back a use that was not taken or drops the name while it is in use; as long as they are, eviction drops no file in use |
| `CacheAccounting.ForgetRaces` | download/cache_manager.go:200-217 | A use that begins between the two halves of forgetting is dropped from the books |
| `CacheManager.Manager.Acquire` | download/cache_manager.go:122-134 | One more use, at the newest end, with the size the file has now |
| `CacheManager.Manager.Release` | download/cache_manager.go:137-147 | One use less; the last ends the pause of eviction |
| `CacheManager.Manager.IsIdle` | download/cache_manager.go:200-206 | Whether nobody uses an entry; the look makes it the newest |
| `CacheManager.Manager.Forget` | download/cache_manager.go:210-216 | The entry, its size and its verification are gone |
| `CacheManager.Manager.EvictLocked` | download/cache_manager.go:258-284 | Only unused entries with removable files go, the oldest first, with their verification; the total is then within the capacity or nothing more can go, and before the last one went it was not; eviction pauses exactly if it still is not |
| `CacheAccounting.EvictedIs` | download/cache_manager.go:258-284 | The same of the eviction as a function of the state |
| `CacheManager.Manager.ReconcileLocked` | download/cache_manager.go:366-403 | The rebuild keeps the order of what stays and adopts the rest after it |
| `CacheManager.Manager.EvaluateLocked` | download/cache_manager.go:243-256 | Does nothing below capacity or during a pause; otherwise scans if due, then evicts |

## Left out

- HTTP servers and clients, authentication, the command line, mirroring and progress reports: they would only add easy members.
- The S3 and file-system stores, apart from the local copies of the mapping cache: the store is modelled on its in-memory form.
- Concurrent uploads and sweeps: operations on the store run one after the other, as the grace period is there for the rest.
- The insides of BLAKE3, SHA-256, LZ4 and CRC-32, and the key constants: they are parameters.
- Keyed shards and their HMAC, shard expiry, and the shard's creation time.
- Cancellation of a read in progress in the seekable file, and reads after a concurrent close; the pipeline below it models cancellation.
- The number of workers and their scheduling beyond what every interleaving allows.
- 64-bit overflow of response offsets in the splitter: lengths are unbounded integers there.
- Names of cache files as text, directory creation and removal, and the file locks of other processes: a file that cannot be removed or a read that fails is an input of the model.
- CacheMerge.MergeHashDir: does not model sources that vanish while a pass runs.
- PutFile.PutFile: takes files of fewer than 2^32 chunks, because a file block counts its terms in 32 bits; the same bound is on PutFile.PutBytes and Deployed.StoreFile as a number of bytes.
- Backend.Storage.PutShard: promises integrity for shards with as many verification hashes as their flags announce, because others do not survive being encoded; uploads are validated before, in server/server.go lines 530 to 535.
- Xorb streams longer than a seek position can tell, and reads of a stored object that fail inside PutShard: the store is in memory.
- ChunkWriter.ChunkCache.Load: does not model failing writes to the cache file.
- Xorbmap: does not model the bytes of a mapping, only who may read them and when they are unmapped.
