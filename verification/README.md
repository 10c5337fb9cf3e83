# A model of fastsigner

fastsigner signs APK files by splicing: it parses the tail of the ZIP, optionally rewrites the entries
section so that stored data is aligned, digests the contents in parallel, builds the v2 and v3 signer
blocks, and writes only what changed. Nearly every stage is a fast form of something simple. This
project models those stages in Dafny and proves each fast form equal to its simple form, for every
input, thread count and interleaving, then composes them: when `sign_one` succeeds is stated exactly;
the file it leaves is one fixed function of the input, the options and the key; it parses back under an
exact condition, and then a verifier accepts it and signing it again succeeds and changes nothing. A
rewrite keeps every entry that is to be kept: its name, its data and its place in the directory.

## How it is laid out

| module | what it holds |
|---|---|
| `Bytes`, `Wrappers`, `Hashing`, `Files`, `Partition` | bytes, integers and buffers, optional values, a digest as an arbitrary function, a file as a byte sequence, binary partition |
| `Fips180` | SHA-256, HMAC and PBKDF2 as FIPS 180-4, RFC 2104 and RFC 8018 define them |
| `X86Sha`, `Sha256Engine` | src/sha256.rs: the x86 kernel, the streaming hasher, the iterated hash, the PBKDF2 short cut |
| `Pkcs12` | the key derivation of src/pkcs12.rs |
| `Digest`, `DigestWorkers` | src/digest.rs: the sequential definition, lanes, and the workers as a step machine |
| `Zip`, `Sigblock` | src/zip.rs and src/sigblock.rs |
| `AlignExtra`, `HeaderReader`, `Planner`, `Directory`, `Assembly`, `Pipeline`, `Rewrite` | the entries rewrite of src/align.rs: alignment field, header window, plan, new directory, chunk assembly, producer/writer pipeline, and the whole |
| `Idempotence`, `RewriteTwice`, `Survival` | rewriting what was rewritten, and what becomes of the entries |
| `ShaFacts`, `Archive`, `Entries`, `SignerFormat`, `Verifier`, `Script` | the standards byte by byte, and that the definitions the other modules use say the same: FIPS 180-4, RFC 2104 and RFC 8018; the ZIP file, its records and local headers; the signer and signing blocks; a verifier's digest; poc/verify_v2_digest.py |
| `Inspector`, `Realigned` | the header inspector and the alignment check of src/align.rs |
| `Splice`, `Sign`, `Signed`, `Resign`, `Witness` | the tail of `sign_one` in src/main.rs, `sign_one` itself, the end-to-end results, and the inputs on which they fail |

Code that works in place is modelled in place (`Sha256Engine.Sha256`, `Digest.Lane`,
`HeaderReader.Reader`, `Inspector.LfhInspector`, `Files.File`, the array loops of the key derivation
and of the chunk assembly). The two concurrent algorithms are step machines: a run is any sequence of
a scheduler's choices, a choice also says how a racy read or an I/O operation comes out, and every
theorem about runs holds for all of them. Methods named `...Turn` carry the steps out with the code on
buffers and hashers, and promise the machine's step. The inspector's calls interleave by a
nondeterministic choice of the next locked update.

The specification functions (`Zip.Parse`, `Digest.ContentDigest`, `Planner.PlanFrom`, `Fips180.Hash` and
so on) are what the methods are proved against. What they say is proved in turn, without their names: on
inputs put together byte by byte, with the documents' own numbers, or by a step-by-step trace.

## Conventions

- Hashes are arbitrary functions with a fixed output length, except in `Fips180`, `X86Sha` and
  `Sha256Engine`. Signatures are arbitrary functions of the signed bytes that may fail; being functions,
  they are deterministic, which re-signing needs.
- A failing read is the parameter `flaky` of the methods that read, or a choice of the step machine; the
  theorems about failing runs say what survives (no deadlock, buffers accounted for, no result).
- `Sign.Setting` is what one call meets besides its input: the guessed algorithm, the processor's SHA
  instructions, the thread count, and the interleavings. `Sign.Signable` is what a run needs of its
  input and key; `Sign.Completes` adds that its threads end.
- u64 and usize arithmetic is unbounded; every truncating cast is written out (`PutU16`, `PutU32`,
  `PutU64` store the low bytes). Streaming SHA-256 assumes fewer than 2^61 bytes, as its length field does.
- The script's search for the EOCD takes the last mark in the file, so its result is stated for files
  without such a mark in the comment.
- The library's stable sort is modelled by insertion, `partition_point` by the binary search it is.
- PBKDF2's loop runs `1..iterations`, so zero iterations acts as one. The PKCS#12 derivation needs at
  least one; its callers refuse zero.

## What turned out to need a condition

- `aligning_extra` stores the alignment in 16 bits: it reads back exactly below 65536
  (`AlignExtra.DeclaredReadsBackIff`). Rewriting is idempotent all the same.
  The value 65536 reads back as 0 (`AlignExtra.DeclaredWraps`).
- Data lands on the larger of the rule's and the declared alignment. At every place it lands on the
  rule's exactly when the larger one is a multiple of it (`AlignExtra.ExtraOnRuleIff`,
  `Realigned.HeaderOnRuleIff`); at a single place it may do so by luck. Declared 6 and rule 4 put data
  at 6 (`AlignExtra.DeclaredOffRule`), and a rewrite of such a file is one the check reports an entry of
  (`Realigned.OffRuleRewrite`). The check of any rewrite lists exactly the records whose data is off
  their rule (`Realigned.CheckRewritten`).
- A signed file parses back exactly when its entry count is not 0xffff modulo 2^16, its patched EOCD
  hides no later EOCD record, and the filtered directory does not end in a Zip64 locator's signature
  and 16 bytes, with a comment short enough for the locator to be looked at (`Signed.ReparseIff`). Each
  of the three fails on an input that is signed without an error (`Witness.CountMarkFails`,
  `Witness.DecoyFails`, `Witness.LocatorFails`). A decoy can only start at six places of the patched
  bytes, and nowhere when the comment is empty (`Signed.DecoyOnlyInPatch`). The new directory offset is
  a multiple of 4096, so it is never the Zip64 mark.
- `HeaderReader::ensure` moves its window before it reads, so the window is only a copy of the input
  after success (`HeaderReader.Reader.Ensure`).
- The in-place writer copies a mapped directory before the block is written. Without the copy the file
  would come out the same exactly when every byte the block puts on the directory is the one already
  there (`Splice.MappedPartSafeIff`), and never for a file that has no signing block yet
  (`Splice.MappedPartClobbered`).

## Model

| member | source | states |
|---|---|---|
| X86Sha.Rnds2IsTwoRounds | src/sha256.rs:309-315 | the two-round instruction on ABEF/CDGH registers is two rounds of FIPS 180-4 section 6.2.2 |
| X86Sha.ScheduleIsFips | src/sha256.rs:317-321 | the rolling four-register step computes the next four message-schedule words |
| X86Sha.LoadIsWords | src/sha256.rs:281-284 | the byte shuffle reads four big-endian words |
| X86Sha.RegsRoundTrip | src/sha256.rs:293-307 | packing a state into two registers and back is the identity |
| X86Sha.OneBlock | src/sha256.rs:203-227 | sixty-four rounds by the registers, with the final additions, are one compression |
| X86Sha.Compress1 | src/sha256.rs:203-227 | the block loop folds the compression function over all blocks |
| X86Sha.Compress2 | src/sha256.rs:231-265 | two interleaved streams end in the states of two independent runs |
| ShaFacts.ConstantsAreCubeRoots | src/sha256.rs:179-192 | each round constant is the first 32 bits of the fraction of its prime's cube root |
| ShaFacts.InitialHashIsSquareRoots | src/sha256.rs:16 | the initial hash words are those of square roots |
| ShaFacts.ChChooses | src/sha256.rs:309-315 | Ch takes the bits of y where x has ones, else those of z |
| ShaFacts.MajVotes | src/sha256.rs:309-315 | Maj takes the bits on which x and y agree, else those of z |
| ShaFacts.BigSigma0Is | src/sha256.rs:309-315 | respects xor on all words |
| ShaFacts.BigSigma0Values | src/sha256.rs:309-315 | and has these values on the words with one bit; so for the other three |
| ShaFacts.BigSigma1Is | src/sha256.rs:309-315 | respects xor on all words |
| ShaFacts.BigSigma1Values | src/sha256.rs:309-315 | its values on the words with one bit |
| ShaFacts.SmallSigma0Is | src/sha256.rs:317-321 | respects xor on all words |
| ShaFacts.SmallSigma0Values | src/sha256.rs:317-321 | its values on the words with one bit |
| ShaFacts.SmallSigma1Is | src/sha256.rs:317-321 | respects xor on all words |
| ShaFacts.SmallSigma1Values | src/sha256.rs:317-321 | its values on the words with one bit |
| ShaFacts.WordIs | src/sha256.rs:281-284 | four bytes of a message are a big-endian word |
| ShaFacts.WordBytesIs | src/sha256.rs:158-168 | the digest's words are written big-endian |
| ShaFacts.PaddedIs | src/sha256.rs:158-168 | the padded message: a one bit, zeros, the bit length in eight bytes, to the fewest whole blocks |
| ShaFacts.ScheduleIs | src/sha256.rs:317-321 | sixteen big-endian words, then sums of four earlier ones modulo 2^32 |
| ShaFacts.RoundIs | src/sha256.rs:309-315 | one round in sums modulo 2^32 |
| ShaFacts.CompressIs | src/sha256.rs:203-227 | sixty-four rounds in order, then the sums that end a block |
| ShaFacts.BlocksAre | src/sha256.rs:203-227 | blocks are compressed one after the other |
| ShaFacts.StateBytesIs | src/sha256.rs:158-168 | the digest is the eight words in order, big-endian |
| ShaFacts.HmacIs | src/sha256.rs:67-102 | HMAC with its two pad blocks given byte by byte |
| ShaFacts.Pbkdf2Is | src/sha256.rs:67-102 | each 32 bytes of the key are the running xor of an HMAC chain from salt and block number |
| Sha256Engine.Sha256.Update | src/sha256.rs:133-150 | the hasher has absorbed exactly the bytes it was given, however they were split |
| Sha256Engine.Sha256.Finish | src/sha256.rs:158-168 | the digest is SHA-256 of everything absorbed, padded as in FIPS 180-4 section 5.1.1 |
| Sha256Engine.Sha256.Gap | src/sha256.rs:154-156 | the least number of bytes that completes a block |
| Sha256Engine.Update2 | src/sha256.rs:172-177 | at block boundaries, two hashers fed together absorb what each would alone |
| Sha256Engine.WrappedZeros | src/sha256.rs:158-168 | the wrapping `55 - buf_len` modulo 64 is the padding's zero count |
| Sha256Engine.ShortHash | src/sha256.rs:52-63 | one compression of a pre-padded block finishes the hash of a 32-byte message after whole blocks |
| Sha256Engine.Iterate | src/sha256.rs:52-63 | the in-place loop is the n-fold hash |
| Sha256Engine.Pbkdf2HmacSha256 | src/sha256.rs:67-102 | the absorbed-pad form equals PBKDF2 over HMAC-SHA-256 for every password, salt, count and length |
| Sha256Engine.NextU | src/sha256.rs:89-98 | two compressions turn one HMAC output into the next |
| Pkcs12.CarryStep | src/pkcs12.rs:153-158 | digit and carry account for a column of the big-endian sum |
| Pkcs12.AddWithCarry | src/pkcs12.rs:153-158 | the carry loop adds B + 1 to a block modulo 2^(8v), in place |
| Pkcs12.AddToEveryBlock | src/pkcs12.rs:151-159 | every block of I is increased, none skipped |
| Pkcs12.HashNIsIterated | src/pkcs12.rs:136-145 | the fast path for SHA-256 and the repeated digest agree |
| Pkcs12.Pkcs12Kdf | src/pkcs12.rs:124-161 | the loop equals RFC 7292 Appendix B.2 for every salt, password, count and output length |
| Pkcs12.KdfIs | src/pkcs12.rs:124-161 | given the hash chains of D, salt copies and password copies, spelled out, the key is their ends joined |
| Pkcs12.AddAllIs | src/pkcs12.rs:151-159 | between rounds each block, as a big-endian number, grows by B + 1 |
| Digest.ChunksAreSlices | src/digest.rs:34-50 | chunk k of a section is its k-th MiB |
| Digest.Locate | src/digest.rs:164-170 | the index walk finds the source and chunk of a global index |
| Digest.PartsAreChunks | src/digest.rs:40-50 | data part and tail part of each chunk make up the chunks of the joined section |
| Digest.HashChunk | src/digest.rs:53-63 | a chunk given in parts is digested as one |
| Digest.ChunkDigestsOf | src/digest.rs:66-74 | count and digests of a whole section |
| Digest.SettleKeepsBytes | src/digest.rs:113-130 | settling loses no byte; zero means everything is absorbed, else a block boundary with that many blocks |
| Digest.Lane.SettleLane | src/digest.rs:113-130 | the loop on the lane's fields is that function |
| Digest.FeedTwo | src/digest.rs:229-234 | two lanes advance together by the shorter one |
| DigestWorkers.WorkerStepOk | src/digest.rs:193-243 | a step keeps its worker in order and hands a new claim to it alone |
| DigestWorkers.RunKeepsInv | src/digest.rs:159-243 | in every run each claimed chunk is in flight or recorded in exactly one place, with no byte lost |
| DigestWorkers.FinishedIsComplete | src/digest.rs:193-250 | when all workers have returned, every chunk was recorded exactly once with its own digest |
| DigestWorkers.EveryStepProgresses | src/digest.rs:193-243 | every step of a worker makes a measure smaller, whatever the races |
| DigestWorkers.RunsAreFinite | src/digest.rs:193-243 | so at most that many moves can ever be made |
| DigestWorkers.ThreadCount | src/digest.rs:188-190 | the largest number of workers, no more than asked for, that leaves a chunk and a part of its own 512 KiB share to each; one when there is none |
| DigestWorkers.ClaimTurn | src/digest.rs:212-219 | claiming a chunk with a hasher in hand is the machine's claim |
| DigestWorkers.SettlingTurn | src/digest.rs:220-226 | settling a hasher's lane, and finishing it when nothing is left, is the machine's step |
| DigestWorkers.FeedTwoTurn | src/digest.rs:229-234 | feeding two hashers together is the machine's step |
| DigestWorkers.FeedOneTurn | src/digest.rs:235-239 | feeding the one left over is the machine's step |
| DigestWorkers.ScanTurn | src/digest.rs:200-206 | hashing a chunk at once, without SHA instructions, is the machine's step |
| DigestWorkers.CanFinish | src/digest.rs:193-243 | from every reachable state all workers can still return |
| DigestWorkers.FinishedDelivers | src/digest.rs:164-178 | a finished run has handed every chunk of a file-backed source to the inspector |
| DigestWorkers.Scatter | src/digest.rs:245-256 | results in any order end in their own slots |
| DigestWorkers.ParallelDigest | src/digest.rs:151-264 | for every thread count, interleaving and racy test, a finished run yields the sequential digest |
| DigestWorkers.ParallelContentDigest | src/digest.rs:151-264 | `content_digest` returns the digest of its header comment's definition exactly when its workers have all returned |
| Verifier.DigestIsRecomputed | poc/verify_v2_digest.py:43-49 | the content digest is 0x5a, chunk count and chunk digests hashed, a chunk digest 0xa5, length and chunk hashed, chunks every 2^20 bytes |
| Zip.FindEocd | src/zip.rs:81-93 | the scan finds the last EOCD record of the tail, and misses none |
| Zip.ParseFile | src/zip.rs:95-151 | `parse` is the specification's parse, its search included |
| Archive.ParseIff | src/zip.rs:95-151 | `parse` succeeds exactly on a single-disk archive with last EOCD, no Zip64 mark or locator and its directory before it; entries end at a signing block with both sizes and the magic, else at the directory |
| Archive.ParseErrors | src/zip.rs:97-103 | too small, or no EOCD, exactly when so |
| Archive.CheckErrors | src/zip.rs:114-128 | the first of the four tests that fails names the error |
| Archive.UnsignedParses | src/zip.rs:131-150 | entries, directory and EOCD without a block: the entries end where the directory starts |
| Archive.SignedParses | src/zip.rs:131-150 | with a block between, they end where it starts |
| Zip.ParseCdEntries | src/zip.rs:206-233 | succeeds exactly on a tiling by whole records and describes each; the error names the first bad offset |
| Zip.NoRecordsPastError | src/zip.rs:206-233 | an error means no record list makes up the directory |
| Zip.RecordsUnique | src/zip.rs:206-233 | a directory is tiled in one way |
| Entries.RecordReads | src/zip.rs:206-233 | a directory record put together field by field is read for what it says, also by the planner |
| Entries.ItemIsEntry | src/align.rs:335-370 | the planner's view of an entry is the parser's |
| Entries.PolicyIs | src/zip.rs:166-268 | which names leave a gap, are skipped, are kept, in any case where case does not matter |
| Entries.AlignmentIs | src/zip.rs:237-246 | none for compressed entries and directories, the library page for stored .so files, else 4 |
| Zip.FilterCd | src/zip.rs:281-302 | exactly the kept records in order; the compacted list is what a fresh parse gives |
| Zip.FilterAgreesWithReparse | src/zip.rs:281-309 | re-parsing the filtered bytes gives that list, and filtering again changes nothing |
| Sigblock.V2Signer | src/sigblock.rs:68-81 | the signed bytes are the embedded signed data |
| Sigblock.V3Signer | src/sigblock.rs:86-112 | the same for v3, with its SDK range inside and outside |
| Sigblock.V2RoundTrip | src/sigblock.rs:68-81 | a decoder recovers every field of a v2 signer |
| Sigblock.V3RoundTrip | src/sigblock.rs:86-112 | a decoder recovers every field of a v3 signer |
| Sigblock.SchemeBlockRoundTrip | src/sigblock.rs:115-118 | the signer list comes out of the scheme block |
| Sigblock.LpSeqRoundTrip | src/sigblock.rs:35-41 | length-prefixed sequences read back |
| Sigblock.PairsRoundTrip | src/sigblock.rs:45-53 | sequences of id and value pairs read back |
| Sigblock.SigningBlockSize | src/sigblock.rs:122-135 | the least multiple of 4096 that fits exactly or leaves room for a padding pair |
| Sigblock.ApkSigningBlock | src/sigblock.rs:139-161 | the block holds the pairs, at most one padding pair, both size fields and the magic |
| Sigblock.BlockRoundTrip | src/sigblock.rs:139-161 | walking the block returns the pairs and the padding pair; both sizes agree |
| Sigblock.PaddingBeforeBlock | src/sigblock.rs:164-166 | the next page boundary, nothing when already there |
| SignerFormat.V2SignedDataIs | src/sigblock.rs:56-78 | the signed data of v2 byte by byte: digests, certificates, the stripping-protection attribute exactly with v3, an empty element |
| SignerFormat.V2SignerIs | src/sigblock.rs:68-81 | the v2 signer byte by byte |
| SignerFormat.V3SignedDataIs | src/sigblock.rs:86-102 | the signed data of v3 byte by byte |
| SignerFormat.V3SignerIs | src/sigblock.rs:86-112 | the v3 signer byte by byte |
| SignerFormat.SchemeBlockIs | src/sigblock.rs:115-118 | the scheme block byte by byte |
| SignerFormat.BlockIs | src/sigblock.rs:122-161 | the signing block byte by byte, padded to the fewest pages of 4096 bytes that do |
| SignerFormat.PairsAre | src/main.rs:579-593 | the pairs of the block: v2 then v3, under their ids, v3 from SDK 24 |
| SignerFormat.SignedFileIff | src/main.rs:405-604 | the signed file byte by byte; there is one exactly when the key signs and the directory starts below 4 GiB |
| AlignExtra.DeclaredAlignment | src/align.rs:202-216 | the scan finds the first well-formed alignment field |
| AlignExtra.MakeAligningExtra | src/align.rs:221-242 | the loop keeps the fields to keep and appends one alignment field |
| AlignExtra.FieldIs | src/align.rs:202-231 | field by field: which are kept, and which declares the alignment |
| AlignExtra.NoFieldIs | src/align.rs:202-231 | a rest that is no whole field is dropped |
| AlignExtra.WrittenIs | src/align.rs:232-241 | the alignment field that is written, byte by byte, with the least padding |
| AlignExtra.ExtraAligns | src/align.rs:232-241 | data behind the new extra field lands on the alignment |
| AlignExtra.ExtraIdempotent | src/align.rs:221-242 | at a fixed offset, a second application changes nothing |
| AlignExtra.EffectiveStable | src/align.rs:371 | the larger of rule and declared alignment survives its own writing, 65536 included |
| AlignExtra.DeclaredReadsBackIff | src/align.rs:239 | the written alignment reads back exactly below 65536 |
| AlignExtra.DeclaredWraps | src/align.rs:239 | alignment 65536 is written as 0 and reads back so |
| AlignExtra.ExtraOnRuleIff | src/align.rs:371-372 | data lands on the rule at every place exactly when the larger alignment is a multiple of the rule's |
| AlignExtra.DeclaredOffRule | src/align.rs:371-372 | declared 6 under rule 4 puts data at 6 |
| Realigned.HeaderOnRuleIff | src/align.rs:363-379 | a whole rebuilt header puts its data on the rule at every place exactly under that condition, or when it fits nowhere |
| HeaderReader.Reader.Ensure | src/align.rs:288-298 | after success the window holds the wanted bytes |
| HeaderReader.Reader.Prefix | src/align.rs:300-309 | it succeeds and fails exactly as a direct read of the input does, but for a read that fails |
| Entries.HeaderReads | src/align.rs:300-309 | a local header put together field by field is read whole |
| Entries.HeaderFails | src/align.rs:300-309 | a missing signature or a header that does not fit is the error |
| Entries.StretchOfParts | src/align.rs:349-361 | header, data, and 16 bytes of descriptor when it starts with its signature, 12 when not, none without the flag |
| Planner.EveryStretch | src/align.rs:335-392 | a plan covers exactly these bytes of every entry, as record or removed; and there is one only if they are apart |
| Planner.PlanSucceeds | src/align.rs:335-392 | if they are apart and the headers can be rebuilt, there is a plan |
| Planner.MakePlans | src/align.rs:335-392 | the planner's loop gives the specification's plan or its first error, unless a header read fails, which it reports; the plan covers every entry's stretch |
| Planner.PlanIsGood | src/align.rs:328-392 | the plan tiles the output, partitions the input, keeps every output entry, and its length is old length minus removed plus header growth |
| Planner.RecordBytesKept | src/align.rs:363-382 | an output record keeps fixed fields, name, data and the whole descriptor |
| Planner.RecordAligned | src/align.rs:370-376 | its data lands on the larger of rule and declared alignment |
| Directory.MakeFileOrder | src/align.rs:53-66 | succeeds exactly when headers are distinct and inside the section, and then orders them by offset |
| Directory.NoteOffsets | src/align.rs:492-497 | each output entry gets the offset its plan laid it at |
| Directory.BuildCd | src/align.rs:498-507 | the new directory is the kept records in the original order with offsets patched |
| Directory.PatchedIsSame | src/align.rs:504 | a patched record parses to the same entry with the new offset, truncated to 32 bits |
| Assembly.PlansTile | src/align.rs:335-392 | the plans tile the sequential output without gap or overlap |
| Assembly.TiledOrder | src/align.rs:577-579 | both `partition_point` predicates are monotone over the plans |
| Assembly.Overlapping | src/align.rs:577-579 | the plans found are exactly those that touch the chunk, and they cover it |
| Assembly.SourceSpan | src/align.rs:583-592 | every byte the chunk needs lies in the span read |
| Assembly.CopySource | src/align.rs:617-625 | the window read and the direct read put the same bytes in place |
| Assembly.Assemble | src/align.rs:576-627 | the first bytes of a recycled buffer become exactly the output's, the rest is untouched |
| Assembly.AssembleAndHash | src/align.rs:556-633 | the digest is that of chunk k of the padded output |
| Assembly.PaddingStaysInChunk | src/align.rs:396-398 | trailing zeros stay within 4095 bytes, and every chunk has real bytes |
| Assembly.PaddingAddsNoChunk | src/align.rs:396-398 | padding opens no chunk of its own |
| Pipeline.ProducerCount | src/align.rs:402 | the most producers of up to six that leave a thread to the writer and have a chunk each, but one at least |
| Pipeline.BuildTurn | src/align.rs:429-437 | assembling and hashing a chunk from the input gives what the machine's build step sends |
| Pipeline.ProducerStepOk | src/align.rs:409-438 | a producer's step keeps its claims, buffers and recorded digests right |
| Pipeline.RunKeepsInv | src/align.rs:404-485 | whatever scheduler, disk and input do: claims, buffers, queued bytes and file stay right |
| Pipeline.ClaimedOnce | src/align.rs:416-419 | each chunk index is claimed at most once, and once when the counter has passed it |
| Pipeline.NoDeadlock | src/align.rs:409-456 | until all threads have ended some thread can move, read and write errors included |
| Pipeline.EveryStepProgresses | src/align.rs:409-456 | every move makes a measure smaller |
| Pipeline.CanFinish | src/align.rs:409-456 | from every reachable state all threads can still end, without further errors |
| Pipeline.CanSucceed | src/align.rs:404-485 | for every input there is a run that ends without an error |
| Pipeline.FinishedRun | src/align.rs:404-489 | a run without error leaves the file equal to the sequential output, with one correct digest per chunk |
| Pipeline.ChunkDigestsOf | src/align.rs:486-489 | slot k of `chunk_digests` is chunk k's digest |
| Rewrite.PlanNonEmpty | src/align.rs:335-391 | the planner emits no empty plan |
| Rewrite.PlansFit | src/align.rs:335-398 | what the planner hands over is what the assembler asks for |
| Rewrite.RewriteEntries | src/align.rs:317-508 | `rewrite` fails exactly when ordering, planning, a header read or a thread does; else file, directory, count, padding and chunk digests are those of the sequential plan |
| Survival.KeptSurvive | src/align.rs:317-508 | after a rewrite the directory holds exactly the kept records in order, moved to where the same header fields, name, data and descriptor stand, aligned |
| Survival.RewrittenSurvives | src/main.rs:470-507 | so of every content `sign_one` rewrites; the entry count is the number of records |
| Idempotence.HeaderStable | src/align.rs:363-379 | a rebuilt header is rebuilt to itself at the same place |
| Idempotence.RewriteIdempotent | src/align.rs:328-392 | rewriting the rewritten, padded section reproduces it and moves no entry |
| RewriteTwice.SecondDirectory | src/align.rs:491-507 | the new directory lists exactly the entries that were laid out, where they were |
| RewriteTwice.RewritingTwice | src/align.rs:317-508 | rewriting twice changes neither section nor directory |
| Inspector.LfhInspector.Inspect | src/align.rs:91-112 | the updates a call goes on to make say nothing false and account for every header that starts in its piece |
| Inspector.LfhInspector.Put | src/align.rs:105-116 | a locked update adds what it carries and loses nothing |
| Inspector.InspectPieces | src/align.rs:69-117 | however the calls' updates interleave, in the end every header delivered is accounted for |
| Inspector.Finish | src/align.rs:120-135 | lengths are those of direct reads; an error names an entry whose header is bad, was not delivered, or could not be read |
| Inspector.InspectAll | src/align.rs:69-136 | for any pieces in any interleaving, success exactly when every header was delivered and carries the signature |
| Inspector.InspectSection | src/digest.rs:159-178 | the chunks the digest delivers, in any order, are enough |
| Inspector.Check | src/align.rs:181-198 | fails exactly on disorder or overrun; else lists exactly the misaligned entries in file order |
| Inspector.QuickMisaligned | src/align.rs:151-172 | fails, says yes or says no exactly when the first sampled entry that is not fine is unreadable, is misaligned, or does not exist |
| Entries.ProvenBadIs | src/align.rs:151-198 | misaligned is: header readable, data behind name and extra field not on the alignment needed |
| Inspector.QuickThenCheck | src/align.rs:147-198 | after a quick yes the check cannot report an empty list |
| Inspector.FullCheck | src/main.rs:544-547 | inspector and check succeed exactly when headers are distinct, inside, readable and do not overrun, and then say whether some entry is misaligned |
| Realigned.RewrittenIsSound | src/align.rs:181-198 | the check of a rewrite cannot fail |
| Realigned.CheckRewritten | src/align.rs:181-198 | it reports nothing exactly when every record's data is on its rule, so whenever larger declared alignments are multiples of the rule |
| Realigned.OffRuleRewrite | src/align.rs:371-372 | a record the check reports after a rewrite |
| Splice.Layout | src/main.rs:405-414 | padding, block start, and the two EOCD copies patched in place |
| Splice.DigestLayout | src/main.rs:418-433 | the fast path digests entries with padding, directory and EOCD as the scheme asks, exactly when its workers return |
| Splice.FinishRewrittenDigest | src/main.rs:437-445 | digests made while writing, completed, are the digest of the whole |
| Splice.MakeBlock | src/main.rs:579-593 | the block holds the scheme blocks asked for, over one digest |
| Splice.MappedPartSafeIff | src/main.rs:636-642 | writing a part still mapped is right exactly when the block changes no byte of it |
| Splice.MappedPartClobbered | src/main.rs:636-642 | for a file without a signing block it never is |
| Splice.WriteInPlace | src/main.rs:630-648 | copy first or write only the block: the file ends as head, padding, block, directory, EOCD |
| Splice.WriteOut | src/main.rs:606-629 | the other two writers end with the same bytes |
| Sign.Decide | src/main.rs:477-547 | exactly when the headers and the first digest allow it, says whether to rewrite: no, always, or when some entry is misaligned |
| Sign.ModesAre | src/main.rs:495-547 | what each mode signs: entries as they are, rewritten, or rewritten when some kept entry is misaligned |
| Sign.Redigest | src/main.rs:576-578 | whatever algorithm was guessed, the digest used is the key's |
| Sign.RewritePath | src/main.rs:470-507 | a rewrite that can be planned and whose threads end; entries, directory and digest belong together |
| Sign.Finish | src/main.rs:579-649 | block, 4 GiB guard and write: the signed file of the content, or no write at all |
| Sign.SignOne | src/main.rs:449-649 | succeeds exactly when input, key and threads allow a run to complete; the result is the signed file of the content the mode asks for; a failure leaves the input as it was |
| Signed.DecoyOnlyInPatch | src/zip.rs:81-93 | a decoy EOCD can only start at six of the patched bytes, and not with an empty comment |
| Signed.LocatorSeenIff | src/zip.rs:120-122 | a locator is seen exactly when the directory ends in one and the comment is short enough |
| Signed.ReparseIff | src/zip.rs:95-151 | parsing the signed file recovers block, directory and EOCD exactly under the three conditions |
| Witness.CountMarkFails | src/zip.rs:117 | 65535 kept entries are signed to a file that does not parse back |
| Witness.LocatorFails | src/zip.rs:120-122 | so is a kept record whose comment looks like a Zip64 locator, once the entry behind it is dropped |
| Witness.DecoyFails | src/zip.rs:81-93 | so is a directory whose count and size spell an EOCD signature |
| Witness.TinyIsModest | src/main.rs:579-598 | keys as those three ask for exist |
| Signed.SignedFileVerifies | poc/verify_v2_digest.py:43-53 | a verifier with its own chunk loop finds, under the schemes' ids, its digest of the final bytes embedded, each signature over its embedded signed data, the attribute against stripping exactly with v3, and v3's SDK range |
| Script.SignedMatches | poc/verify_v2_digest.py:4-53 | the script, step by step, reports a match on every file signed with v2 |
| Resign.EndToEnd | src/main.rs:495-649 | on every path the output parses back exactly under the conditions, and then verifies |
| Resign.SignedAgain | src/main.rs:405-433 | given its own parts, a signed file is signed to itself |
| Resign.SameChecks | src/align.rs:151-198 | both alignment tests depend on the entries section alone |
| Resign.SecondSignable | src/main.rs:449-649 | the output of a run, where it parses back, has all a second run needs, which settles on the same content |
| Resign.CanComplete | src/main.rs:449-649 | wherever input and key allow it, there is a setting in which the run completes |
| Resign.ResignStable | src/main.rs:784-789 | a second run with the same options succeeds exactly when its threads end, and leaves every byte, whatever path either took |
| Resign.RunsAgree | src/main.rs:784-789 | in place or to another file, any guess, thread count or interleaving: the same bytes |
| Resign.SignThrice | src/main.rs:784-789 | in place, to another file, and in place again: each succeeds exactly when stated, and they give one result |

## Left out

- Pipeline.ProducerStepOk: assembly is one step (`Pipeline.BuildTurn`); a lost wake-up inside a channel is not modelled.
- Assembly.AssembleAndHash: the branch for a chunk without real bytes is absent, because `rewrite` asks for none.
- Planner.MakePlans: a data descriptor whose signature cannot be read, which the source then takes to have none, is not modelled.
- Inspector.Check: names of misaligned entries are indices.
- Sign.SignOne: header reads do not fail, and errors while the tail is written are not modelled, so neither is a partly written file; a schedule that leaves a thread running yields no result.
- Memory mapping, page release, file opening, temporary files and renaming: operating-system behaviour.
- RSA, ECDSA, ring's digests and AES-CBC: library code, taken as functions.
- The AArch64 kernel: the x86 kernel and the shared block loop carry the same claim.
- Key files, keystores and the rest of PKCS#12 (src/keys.rs, src/jks.rs, most of src/pkcs12.rs), PEM and base64: format walking that would only add easy members.
- Command line, password sources, timing counters, core counting, batch scheduling: plumbing; the batch queue repeats the chunk-claim pattern.
- Byte identity with apksigner: the reference is not in the repository.
