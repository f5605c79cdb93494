# A verified model of par2engine

par2engine verifies and repairs files protected by a PAR2 set (Parity Volume Set Specification 2.0). This project
models its three layers in Dafny and proves what they are for. `dafny verify dfyconfig.toml` checks all of it.

1. **Reed-Solomon coding.** The field GF(2^16) with generator polynomial 0x1100B and its log/exp tables (`Polynomials`,
   `Field`, `Order`, `GF16`); the scalar, SSSE3 and AVX2 slice kernels (`ScalarKernel`, `Simd`, `Kernels`); in-place
   Gaussian elimination (`LinAlg`, `Matrices`, `Elimination`); the PAR2 Vandermonde matrix (`Vandermonde`,
   `GeneratorCount`); applying a matrix to shards with any interleaving of goroutines (`Apply`); erasure reconstruction
   (`Reconstruction`, `Coders`). Field laws are proved, not assumed, and products are remainders of polynomials. The
   main results are that encoding, losing shards and reconstructing gives the original data back, that elimination
   rejects exactly the singular systems, and that consecutive recovery exponents never give one.
2. **The scan.** CRC-32 of section 8 of RFC 1952, proved to be the remainder it is defined as, and its constant-time
   rolling window (`Crc32`, `CrcWindow`); the open-addressing table (`CrcTable`, `Checksums`); the report-once protocol
   between matching goroutines and the collector as a transition system over all runs (`Reports`); the search of chunks,
   files and sets (`Scan`). The main results are that blocks in place are found in every file that is not empty, that
   every window is accounted for, and that the shortcut for reported blocks changes neither results nor the blocks
   located.
3. **Integrity and repair.** The damage state of protected files, renaming and counting (`Integrity`); planning,
   streaming in chunks and installing (`Repair`). The main results are that verification finds out the damage of every
   file exactly, that renaming keeps this exactly when the planned renames are apart, that streaming reproduces the
   original content whatever the chunk size, that no target is replaced unless every rebuilt file has the right
   hash, and that a recoverable set is repaired to its original contents.

## How it is modelled

Code that changes things step by step is imperative here: arrays, classes and loops with the fields the program
mutates. Predicates such as `Done`, `IsApplied`, `Restored`, `Searched`, `Sound` and `Tiled` say what it achieves, and
lemmas about them say what that is good for. Machine words are natural numbers; exclusive or and conjunction are
defined bit by bit in `Bits`, shifts and truncations are written out.

Concurrency is in two forms. In `Apply`, goroutines take one kernel call at a time in any order. In `Scan`, a goroutine
lets all others take any finite number of steps of the protocol of `Reports` before each of its own accesses to shared
state; what it establishes is never undone by such steps, so goroutines of one file and of different files are taken
one after another.

Files are byte sequences under a path or an identifier. Failing I/O, cancellation, the order in which maps are visited
and the CPU flags are arbitrary choices; a context records that some access has failed, so that contracts can say what
holds when none has; MD5 is an arbitrary function. Nothing assumes that it has no collisions: blocks are located by CRC
and MD5, and that located blocks are the original ones is an explicit hypothesis (`Repair.Consistent`) of the theorems
that need it.

What the code takes for granted appears as a precondition:

- the number of checksum pairs of a file is its number of blocks, names of protected files are distinct, and so are
  the identifiers of protected files and candidates (`Integrity.Par2Set.Proper`);
- shards have an even length (`Coders.Reconstruct`), which holds because the block size is a multiple of four
  (par2/packet.go:206);
- recovery exponents are at most 32767 (par2/packet.go:315) in `Repair.Verified`;
- for the original content to come back, the bytes a repair reads for a located block, zeros past the end of its file
  included, are the block (`Repair.ReadsBack`). `Repair.VerifiedReadsBack` derives this from what verification has
  established if MD5 does not collide and nothing but zeros follows where the scan cut a block off: the scan pads at the
  protected length (par2/scan.go:973-974) and the repair reads up to a whole block (par2/repair.go:377);
- the disk does not change while a method runs, except by what the method does.

Three promises do not hold as stated.

- A block in place is located in every file that is not empty. In an empty file a cut-off last block of zeros counts as
  in place once padded, but the scan returns before looking (par2/scan.go:908-909). `Integrity.EmptyFileLosesZeros` is
  the input, `Integrity.EmptyInPlaceIff` says which blocks of an empty file are in place, and `Integrity.LoneFileIff`
  gives the condition.
- A successful repair leaves every protected file right if the planned renames are apart (`Integrity.Apart`): no file
  to be renamed is an intact protected file, or one put right by an earlier rename. Candidates may be registered under
  protected names, and the prescan takes them like any other (par2/scan.go:614-670); `Repair.IntactCandidateLost` is an
  input for which an intact file is lost and success is reported. `Integrity.IntactKeptIff` and
  `Integrity.RenamingRightIff` show that the condition is exact. It can be checked before a repair, on the planned
  renames and the damage found.
- A located block can be read after the renames, because places in a renamed candidate are redirected
  (par2/scan.go:851-862), unless it was found in a file that a rename overwrites, or in a protected file that is renamed
  as a candidate: only places under the identifier of the candidate are redirected. `Integrity.StaleBlock` is an input,
  and `Integrity.SameSourceIff` gives the exact condition. Such a repair ends with an error, not with a loss.

## Model

| member | source | states |
|---|---|---|
| Field.MulIff | gf16/gf16.go:320-337 | An element is the product of two exactly if it is the remainder of their product as polynomials on division by x^16 + x^12 + x^3 + x + 1 |
| Field.MulComm | gf16/gf16.go:320-337 | The product is commutative |
| Field.MulAssoc | gf16/gf16.go:320-337 | and associative |
| Field.MulAddLeft | gf16/gf16.go:320-337 | and distributes over exclusive or |
| Field.MulTimesX | gf16/gf16.go:320-337 | and multiplying a factor by x, with the reduction by 0x1100B, multiplies the product by x |
| Order.TwoIsPrimitive | rs/rs.go:39-51 | The powers of 2 repeat with period 65535 exactly |
| Order.ThreeIsPrimitive | gf16/gf16.go:65-66 | So do the powers of 3, which the logarithm tables are built from |
| Order.PowSurjective | gf16/gf16.go:68-84 | Every nonzero element is a power of a primitive one |
| Order.PowInjective | gf16/gf16.go:68-84 | and the powers below 65535 are distinct |
| Order.NoZeroDivisors | gf16/gf16.go:340-346 | A product is zero only if a factor is |
| GF16.TimesPoly | gf16/gf16.go:322-337 | Shift-and-xor multiplication computes the product of the field for all inputs |
| GF16.BuildTables | gf16/gf16.go:61-85 | The table loop never reaches a panic, and the tables it builds are the powers of 3 and their logarithms |
| GF16.Tables.Times | gf16/gf16.go:305-318 | The product, both before the tables are filled and after |
| GF16.Tables.Inverse | gf16/gf16.go:340-346 | t times the inverse of t is 1 |
| GF16.Tables.Div | gf16/gf16.go:349-359 | The quotient times u is t |
| GF16.Tables.Power | gf16/gf16.go:362-371 | The p-fold product, for all 32-bit exponents, zero included |
| ScalarKernel.MultByTwo | gf16/gf16.go:88-90 | The branchless doubling is multiplication by x in the field |
| ScalarKernel.CalcTable | gf16/gf16.go:93-109 | The two halves of the table hold c·j and c·(j shifted by 8) |
| ScalarKernel.ProductByLogs | gf16/gf16.go:182-190 | The element-by-element path of the short loop multiplies |
| ScalarKernel.MulScalar | gf16/gf16.go:169-291 | Both scalar kernels, short and unrolled: every element becomes the product or gains it; nothing outside the window changes, also when input and output are one slice |
| Simd.MapMultiplies | gf16/asm.go:208-257 | Packing to planes, four nibble shuffles per plane and unpacking multiply every element of a pair of lanes by c and swap the two |
| Simd.SetMulMask | gf16/gf16_amd64.s:16-20 | The nibble mask |
| Simd.SetConvMask | gf16/gf16_amd64.s:6-11 | The low-byte mask |
| Kernels.BuildEntry | gf16/gf16_amd64.go:66-86 | An entry holds the 128 bytes of nibble products of its coefficient |
| Kernels.Initialize | gf16/gf16_amd64.go:52-87 | All 65536 entries are right, and the block width fits the CPU flags, whatever they are |
| Kernels.MultiplyBlock | gf16/gf16_amd64.s:111-114 | The macro, lane by lane of a register pair, multiplies every element |
| Kernels.MulVector | gf16/asm.go:72-104 | The vector loops, one lane for SSSE3 and two for AVX2, agree with element-wise multiplication on any whole number of blocks |
| Kernels.MulNarrow | gf16/gf16_amd64.go:121-132 | Below one AVX2 block: SSSE3 blocks and a scalar tail, or the scalar kernel |
| Kernels.MulBulk | gf16/gf16_amd64.go:104-168 | The dispatch with its recursion on the tail does the same for every even length and every pair of CPU flags |
| Kernels.MulByteSlice | gf16/gf16.go:117-153 | The exported kernels, with their shortcuts for the empty slice and for zero |
| Matrices.Matrix.Set | rs/matrix.go:105-109 | One entry changes |
| Matrices.Matrix.SwapRows | rs/matrix.go:128-137 | Two rows change places, in place |
| Matrices.Matrix.ScaleRow | rs/matrix.go:150-154 | A row is multiplied in place through the byte kernels |
| Matrices.Matrix.AddScaledRow | rs/matrix.go:156-160 | A multiple of one row is added to another through the byte kernels |
| LinAlg.SwapKeepsSolutions | rs/matrix.go:167-169 | Swapping rows on both sides keeps the solutions of m·x = n·y, for all x and y |
| LinAlg.ScaleKeepsSolutions | rs/matrix.go:178-180 | So does scaling a row by a nonzero element |
| LinAlg.AddKeepsSolutions | rs/matrix.go:184-188 | So does adding a multiple of another row |
| LinAlg.NoPivot | rs/matrix.go:174-176 | A column without a pivot gives a nonzero v with m·v = 0 |
| LinAlg.SolvableNotSingular | rs/matrix.go:174-176 | A matrix for which the elimination finds a solution has no such v |
| LinAlg.SolutionIsProduct | rs/matrix.go:237-259 | A solution X satisfies m·X = n, entry by entry |
| Elimination.FindPivot | rs/matrix.go:165-173 | The first row from i on with a nonzero entry in the column changes places with row i and no other row moves; zero is returned only if there is none |
| Elimination.EliminateBelow | rs/matrix.go:183-189 | The column is cleared below the pivot and the system keeps its solutions |
| Elimination.ConvertToRowEchelonForm | rs/matrix.go:163-192 | If it fails, the original matrix is singular; otherwise m is in echelon form; the system is equivalent either way |
| Elimination.ConvertToReducedRowEchelonForm | rs/matrix.go:195-205 | m becomes the identity and the system stays equivalent |
| Elimination.RowReduceInPlace | rs/matrix.go:209-215 | Both phases together fail exactly for a singular matrix and otherwise solve the system |
| Elimination.Inverse | rs/matrix.go:218-235 | It fails exactly for non-square and singular matrices; otherwise m·N is the identity and m is untouched |
| Elimination.RowReduceForInverse | rs/matrix.go:239-259 | The exact error for each kind of input, and m·X = n on success |
| Elimination.NewVandermondeMatrix | rs/matrix.go:69-83 | Entry i, j is generator j to the power i; each of the two errors has its exact condition |
| Vandermonde.VanishingSums | rs/rs.go:39-51 | Weighted power sums over distinct elements vanish only if all weights do |
| Vandermonde.ConsecutiveNotSingular | rs/matrix.go:174-176 | A square part of the matrix on consecutive exponents is never singular |
| Vandermonde.InitGenerators | rs/rs.go:39-51 | The generators are the elements of order 65535, in the order of their logarithms to the base 2 |
| Vandermonde.GeneratorsUnique | rs/rs.go:42-49 | There is only one such list |
| Vandermonde.UsableIff | rs/rs.go:42-46 | A power of 2 has order 65535 exactly if none of 3, 5, 17 and 257 divides its exponent |
| Vandermonde.GeneratorsDistinct | rs/rs.go:42-43 | They are pairwise distinct and nonzero |
| GeneratorCount.EnoughGenerators | rs/rs.go:59-61 | There are exactly 32768 of them, the number of blocks a set may have (par2/scan.go:112-119) |
| Apply.ApplyMatrixSlice | rs/rs.go:77-92 | The window of every output row becomes the row times the inputs, unless cancelled; bytes outside stay |
| Apply.SplitBounds | rs/rs.go:126-133 | The split is a multiple of the block, covers its share, stays under one block above the larger of share and block, and makes at most numGoroutines ranges |
| Apply.WindowOf | rs/rs.go:158-160 | Each range is nonempty and ends inside the data |
| Apply.WindowsApart | rs/rs.go:158-160 | Different ranges do not overlap |
| Apply.WindowAt | rs/rs.go:158-160 | Every byte is in a range |
| Apply.RunGoroutines | rs/rs.go:155-165 | Kernel calls of all goroutines in any order: the result is the matrix applied to the inputs |
| Apply.ApplyMatrixParallelData | rs/rs.go:135-167 | The parallel application multiplies by the matrix and leaves inputs and matrix untouched; nothing happens without inputs or outputs; the error exactly for first lengths that differ |
| Apply.AppliedUnique | rs/rs.go:135-167 | There is one such result, so it does not depend on the number of goroutines |
| Reconstruction.MissingSolves | rs/rs.go:169-203 | The lost elements solve the system set up from what survived |
| Reconstruction.Recovered | rs/rs.go:269-278 | The shard computed for a lost one equals it |
| Coders.NewCoder | rs/rs.go:54-75 | The exact error for every pair of counts, and the PAR2 matrix on success |
| Coders.ValidateShardLengths | rs/rs.go:205-233 | The common length, or an error exactly when no common length exists |
| Coders.AnalyzeShards | rs/rs.go:295-323 | Which shards are available, missing and used, in order; enough exactly if as many recovery shards are there as data shards are lost |
| Coders.MakeReconstructionMatrix | rs/rs.go:169-203 | It fails exactly when the square part of the parity matrix is singular |
| Coders.Reconstruct | rs/rs.go:243-281 | The first error that applies, or all data shards restored; surviving shards keep their buffers; on any error the slice is unchanged |
| Coders.GenerateParity | rs/rs.go:326-347 | Recovery shard e is row e of the matrix times the data |
| Coders.RoundTrip | rs/rs.go:243-281 | Encoding, losing any shards and reconstructing gives the original data back; the only errors are too few recovery shards and, unless those used are consecutive, a singular system |
| Coders.ConsecutiveSucceeds | rs/rs.go:310-315 | With consecutive recovery shards the system is never singular |
| Coders.SingleLossSucceeds | rs/rs.go:310-319 | A single lost shard is always rebuilt if one recovery shard is there |
| Crc32.ChecksumIff | par2/checksummer.go:20-35 | A word is the checksum exactly if, inverted and read in reverse, it is the remainder of the message, its first 32 bits inverted, times x^32, on division by the polynomial with exponents 32, 26, 23, 22, 16, 12, 11, 10, 8, 7, 5, 4, 2, 1, 0 |
| Crc32.ReversedGenerator | par2/checksummer.go:62-63 | The constant behind the table is that polynomial in reverse, without its highest power |
| Crc32.FeedIsShift | par2/checksummer.go:62-63 | The table step is a shift of the register with the byte added to it |
| Crc32.FeedAllDifference | par2/checksummer.go:42-51 | Registers fed the same bytes differ by what their difference becomes when fed zeros |
| CrcWindow.RollingIsExact | par2/checksummer.go:58-65 | The updated value is the checksum of the window one byte further on, for every window, byte and size |
| CrcWindow.WindowMask | par2/checksummer.go:22-24 | The buffer with two bytes set has the checksum of a zero-filled window |
| CrcWindow.LeadingAffine | par2/checksummer.go:38-51 | Checksums of equally long messages are affine in the leading byte |
| CrcWindow.ByteContribution | par2/checksummer.go:36-49 | The parity-corrected sum of the base table is the checksum with that leading byte |
| CrcWindow.NewWindow | par2/checksummer.go:15-54 | It fails exactly below four bytes; otherwise every entry of the masked table is right |
| CrcTable.TableSize | par2/crc_table.go:33-37 | A power of two, at least 16, at least four times the entries and no larger than needed |
| CrcTable.Insertion | par2/crc_table.go:50-60 | Putting a value into the first free slot of its probe sequence adds it to the map represented |
| CrcTable.Insert | par2/crc_table.go:49-61 | Probing ends at a free slot, and the table then represents the larger map |
| CrcTable.FillTable | par2/crc_table.go:44-62 | In whatever order the map is visited: all of it is stored and the flags never run out |
| CrcTable.CrcLookupTable.constructor | par2/crc_table.go:26-64 | The table represents the map; every location has a cleared flag of its own; at most a quarter of the slots is taken |
| CrcTable.CrcLookupTable.Lookup | par2/crc_table.go:67-79 | Exactly what the map holds, or not found; probing ends |
| Checksums.BuildChecksumMap | par2/scan.go:254-275 | Every block of the known files is listed once, under its CRC, and nothing else is |
| Checksums.ListedIsFound | par2/scan.go:254-276 | A window with the checksums of a block is found to equal that block |
| Checksums.FoundIsListed | par2/scan.go:254-276 | and only such a window is |
| Reports.StepKeeps | par2/scan.go:1126-1175 | Every step of a call or of the collector keeps the invariant and takes back no flag, claim, result, event or place |
| Reports.RunGrows | par2/scan.go:1155-1163 | So it is over whole runs |
| Reports.ReportedOnce | par2/scan.go:1155-1157 | A call reports a new block exactly when it has claimed the flag of a block it hit, and a claim never changes hands |
| Reports.NothingNew | par2/scan.go:1141-1143 | A call whose blocks have all been reported before it starts reports nothing new, so skipping it changes no result |
| Reports.QuietLocated | par2/scan.go:298-317 | Once the channel is drained every reported block is located |
| Reports.LocatedAreHandled | par2/scan.go:298-317 | The blocks located are those known before and those hit or skipped, so the shortcut does not change them |
| Reports.PlacesAreTruthful | par2/scan.go:304-314 | Every place learned has a window with the checksums of the block |
| Reports.InEveryRun | par2/scan.go:298-317 | The same for every run of the protocol, at all times |
| Scan.Scanner.AllReported | par2/scan.go:1184-1191 | True only if all flags are set, with other goroutines running between the loads; false only if some flag was not set at first |
| Scan.Scanner.PassFlag | par2/scan.go:1155-1157 | Load and compare-and-swap, with others in between: swapped exactly if the flag was claimed meanwhile, and by this call |
| Scan.Scanner.MatchBlock | par2/scan.go:1126-1175 | In place exactly if one of the blocks the window equals is expected there; all of them are reported; on the grid an event is sent for each |
| Scan.Scanner.ClaimGrid | par2/scan.go:1091-1101 | Every window on the grid is checked, and claimed exactly if it is in place |
| Scan.Scanner.CheckWindow | par2/scan.go:1061-1068 | The checksum passed on, rolled or computed, is that of the window |
| Scan.Scanner.Slide | par2/scan.go:1034-1085 | It ends; every window is examined, in a claimed block, or less than a block after one that reported a new block; none in a claimed block is examined |
| Scan.Scanner.ScanChunk | par2/scan.go:1024-1085 | Grid and slide of one chunk together |
| Scan.OneChunk | par2/scan.go:944-945 | Every window of a file belongs to exactly one chunk |
| Scan.Scanner.ScanFileChunks | par2/scan.go:920-960 | All chunks of a file |
| Scan.Scanner.ScanLastPartialBlock | par2/scan.go:965-980 | The last block, cut off and padded, is compared |
| Scan.Scanner.ScanFile | par2/scan.go:881-916 | Missing and wrong-sized files are recorded; a missing or empty one leaves the shared state as it was; otherwise the file has been searched |
| Scan.Scanner.Scan | par2/scan.go:298-362 | All files that are not settled and all candidates left over have been searched, and nothing is under way any more; if no file has content nothing has changed |
| Scan.InPlaceIsLocated | par2/scan.go:1012-1023 | In an uncancelled, error-free scan a block that a nonempty file holds where it belongs is located |
| Scan.EveryWindow | par2/scan.go:1034-1085 | Coverage, for the whole file |
| Integrity.Decoder.InitFileIntegrity | par2/scan.go:102-132 | It fails exactly for a zero block size or more than 32768 blocks |
| Integrity.Decoder.CheckFileExistence | par2/scan.go:202-219 | Exactly the files that are not there are marked missing |
| Integrity.Decoder.MissingByQuickKey | par2/scan.go:600-609 | For every quick key of a missing file, the last missing file with that key |
| Integrity.Decoder.PrescanCandidateMatches | par2/scan.go:589-674 | A rename is planned only for a missing file, from a candidate with its hash, its length and its quick hash; when nothing fails and nothing is cancelled, it is for every missing file that is the last with its quick key. Only candidates that cannot be opened, or have the content of a file to be renamed, are left out of the scan |
| Integrity.Decoder.PrescanProtectedMatches | par2/scan.go:679-745 | A file is marked intact only with its hash, and all its blocks are then in place; when nothing fails and nothing is cancelled, exactly the files with the right length, quick hash and hash are marked |
| Integrity.Decoder.RunScan | par2/scan.go:143-175 | The scan keeps what was settled and finds the wrong sizes; it locates every block in place in a nonempty file, and only blocks with the right checksums; every window of an unsettled file or of a candidate that is not left out is accounted for: the blocks it equals are located, or it starts in a block in place or less than a block after one reported for the first time |
| Integrity.Decoder.DetectRenameCandidate | par2/scan.go:753-816 | A candidate under another name that has the hash of the file and all its blocks one after the other; when nothing fails there is one exactly if one is returned |
| Integrity.Decoder.VerifyProtectedFilesHashes | par2/scan.go:386-424 | Files that are intact, of the wrong size, missing or to be renamed keep their damage; a file with all blocks in place is judged by its hash, and any other has the wrong one; renames are planned exactly for the files found whole elsewhere |
| Integrity.Decoder.VerifyScans | par2/scan.go:135-179 | After success: every file is intact or to be rebuilt, every block in place in a nonempty file is located, every located block is justified by a hash or by its checksums. If no access failed, the damage of every file is determined by what is on disk: a file with the right length, quick hash and hash is intact; and every file that is not intact and every candidate has been searched. Each error has its reason |
| Integrity.EmptyInPlaceIff | par2/scan.go:906-909 | A block of an empty file is in place exactly if it is the last, is cut off and has the checksums of zeros |
| Integrity.EmptyFileLosesZeros | par2/scan.go:906-909 | The input for which a block in place is lost: such a block, for every block size and cut-off length |
| Integrity.LoneFileIff | par2/scan.go:906-909 | For a single file without candidates a block in place is located if and only if the file is not empty |
| Integrity.Decoder.RenameFile | par2/scan.go:829-874 | The file moves and is marked as intact; a failed rename falls back to a rebuild; what verification established is kept if the planned renames are apart; every located block stays located, and is read at the same offset of the same content unless the rename overwrites its file or takes it away under a protected name |
| Integrity.Decoder.RenameMisnamedFiles | par2/scan.go:821-876 | No rename is left; damage only changes to intact, and only for files that were to be renamed; when none fails the disk is as DiskAfter says. If the planned renames are apart, files marked as intact are so, and located blocks whose files no rename disturbs are read from the same content as before |
| Integrity.SameSourceIff | par2/scan.go:851-862 | After a rename a block of another file is read from the same content if and only if the file it was found in was not taken away under a protected name, nor overwritten by another content |
| Integrity.StaleBlock | par2/scan.go:851-862 | An input for which it is not: a block found in a protected file that is renamed as a candidate |
| Integrity.IntactKeptIff | par2/scan.go:821-876 | Renaming keeps all intact files intact if and only if no file to be renamed is one of them |
| Integrity.RenamingRightIff | par2/scan.go:821-876 | If all files to be renamed are there, once each: all files marked as intact after renaming are so if and only if the planned renames are apart |
| Integrity.Decoder.CountShards | par2/decoder.go:356-373 | The counts are those of blocks not located, renames and rebuilds |
| Integrity.CountsAre | par2/decoder.go:356-373 | They are the sizes of the sets of lost and located blocks, of files to be renamed and of other files to be rebuilt |
| Integrity.ShardCounts.BlocksNeeded | par2/decoder.go:52-58 | The least number of further recovery blocks with which a repair is possible |
| Integrity.RepairNeededIff | par2/decoder.go:42-44 | After verification a repair is needed exactly when some file is not intact |
| Integrity.Decoder.BuildNeedsWrite | par2/repair.go:234-251 | The names of the files that are damaged or have blocks elsewhere |
| Integrity.MustWriteIffRebuild | par2/repair.go:234-251 | After verification these are exactly the files to be rebuilt |
| Repair.ComputeChunkSize | par2/repair.go:183-190 | A positive multiple of 16, the largest for which all buffers keep within the limit and which is no larger than a block, unless even 16 is too large |
| Repair.ChunksTile | par2/repair.go:360-364 | Chunks are nonempty, adjoin and end with the block |
| Repair.ChunksEven | par2/repair.go:360-364 | Their positions and lengths are even |
| Repair.BuildFlatLocs | par2/repair.go:207-229 | Block k of file j is at the position the matrix has for it |
| Repair.ReadShard | par2/repair.go:377-384 | The file's bytes and zeros past its end, whatever the buffer held |
| Repair.ChunkApplied | par2/repair.go:391-396 | A chunk of a recovery block is its row times the chunks of the data |
| Repair.OnlySingular | rs/rs.go:317-319 | If the counts say that a repair is possible, a chunk fails only for a singular system, and not with consecutive recovery blocks |
| Repair.TileBlock | par2/repair.go:409-421 | The bytes of a block in a chunk have not been written before, and writing them makes the next block due |
| Repair.Pipeline.WriteBlock | par2/repair.go:413-421 | One block of one chunk goes where it belongs, to bytes not written before; every other byte stays |
| Repair.Pipeline.ExecuteChunk | par2/repair.go:360-424 | The outputs advance by one chunk, and hold the original bytes if the set is consistent |
| Repair.Pipeline.RunChunks | par2/repair.go:71-89 | After all chunks the bytes written are exactly those of the blocks of the files to be written; for a consistent set they are the original ones; it stops only for a cancellation, a failed access, a source that is not there or a singular system |
| Repair.OriginalContent | par2/repair.go:507-510 | Cut to its length, an output is the original content of the file |
| Repair.Pipeline.FinishRebuiltFile | par2/repair.go:507-523 | Truncated and checked |
| Repair.Pipeline.Install | par2/repair.go:432-481 | At every return each path holds its old content or a rebuilt file with the right hash; nothing is replaced if any output has a wrong hash, whatever error is returned |
| Repair.PlanRepair | par2/repair.go:127-164 | The plan: memory bound, row of blocks, files to write; it fails exactly for a recovery block of the wrong length |
| Repair.BlockLimit | par2/scan.go:111-119 | The limit on blocks is the number of generators |
| Repair.OriginalIsRight | par2/scan.go:686-712 | A file with its original content has the length, the quick hash of its first 16384 bytes and the hash that verification asks for |
| Repair.ReadIsWindowIff | par2/repair.go:377-384 | A repair reads at a located place what the scan compared there if and only if the bytes the scan cut off are zeros |
| Repair.VerifiedReadsBack | par2/repair.go:366-384 | Without MD5 collisions, and if no file goes on beyond a cut-off block with anything but zeros, every block that verification located reads back as the original |
| Repair.RunRepair | par2/repair.go:57-94 | Streaming equals reconstructing whole blocks: rebuilt files have the original content whatever the chunk size; the ways to fail are listed |
| Repair.RepairSet | par2/repair.go:20-101 | If the planned renames are apart: after success every protected file has the right hash, and after any outcome each has that or what it had, unless it was not intact and has been renamed. If the set is recoverable besides, success leaves every file with its original content, and unless an access fails or it is cancelled, repair fails only for too few recovery blocks or for a singular system with recovery blocks that are not consecutive |
| Repair.IntactCandidateLost | par2/scan.go:613-674 | The input for which it fails: a missing file whose content is that of an intact one registered as a candidate; the intact one is renamed away and Repair reports success |

## Left out

- Packet parsing, path sanitising, volume discovery and the order of identifiers: bounds checks and library calls.
- Real file I/O, directories, permissions, temporary names, handles and flushing: a temporary file is its content, and closing, syncing and renaming may fail.
- Progress reports, logging and the verification report: no effect on results.
- The capacity of the match channel and the semaphores: they delay goroutines and do not change what they do.
- gf16/gf16_avx2.s, gf16/stub.go and gf16/gf16_nonamd64.go: generated from gf16/asm.go, or the scalar kernel alone.
- Multiplying and multiplying-and-adding share one method with a flag for every kernel: the two bodies differ in one store.
- Casting matrix rows to bytes in place: modelled as a little-endian copy out and back, so the aliasing of the cast is not captured; the kernels themselves allow input and output to be one slice.
- Reusing chunk buffers: a buffer is a fresh array of arbitrary contents for every chunk, so only what is written to it is known, as with a reused one.
- Slices of the shards: goroutines work on windows of whole arrays; reading a source file opened earlier under the same name is reading that name.
- Sums of sizes beyond 64 bits: lengths and offsets are unbounded naturals.
- Kernels.Initialize: does not model that the package initialisation reads the CPU flags, which are arbitrary here.
- Coders.GenerateParity: does not model missing (nil) shards in its input, for which the program has no use.
- Coders.ConsecutiveSucceeds: is stated for consecutive exponents only, because other square parts of the matrix can be singular; for those Coders.Reconstruct reports the error exactly when the system is singular.
- CrcTable.CrcLookupTable.constructor: asks for at most 2^30 different CRC values, for which the mask fits 32 bits; a set has at most 32768 blocks.
- Scan.Scanner.ScanFileChunks: takes the goroutines of a file in order, each of them with arbitrary steps of all others in between; see above.
- Integrity.Decoder.RenameFile: does not claim that blocks found in a file that a rename overwrites, or takes away under a protected name, can be read as before, because then they cannot (Integrity.SameSourceIff).
- Verifying again after a repair: the repair leaves the recorded damage as it was, and so does the model.
- cmd/, tests/ and scripts/: the command line, data generation and test drivers.
