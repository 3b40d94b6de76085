# A verified model of eight pieces of rtg-core

This project models, in Dafny, eight self-contained pieces of the rtg-core genomics
toolkit and proves what they promise:

- **Multi-sample job dependencies** (`dependencies.dfy`, module `MultiSampleDependencies`).
  - The job graph of the multi-sample variant caller. A job is a chunk number and a job
    type: INCR, DANGLING, COMPLEX, BED, FILTER, OUT or FLUSH.
  - The model holds the chunks on which each type exists, the successor sets `to`, the
    fixed-arity predecessor lists `from`, and the `next` cursor that hands out INCR jobs
    within a look-ahead bound.
  - It proves that `to` and `from` describe the same edges, that every chain of jobs
    moves forward (so the graph is acyclic), that the seeds reach every job, and the
    literal tables for five chunks.
- **Chunked coverage** (`coverage.dfy`, module `Coverage`).
  - The per-reference chunk state of the coverage command: the chunk-size rule, chunk
    bounds, the current and previous coverage and IH arrays, `addBitSet`,
    `loadNextChunk`, `getValueForPosition` and `getCoverageForPosition`.
  - Also the running smoothing window, and the BED label built from meta strings.
- **Unmated augmenter** (`augmenter.dfy`, module `Augmenting`).
  - The read-name keyed left and right tables of uniquely mapped reads whose mate is not
    in the same record set. Tables are filled by `addRecord`, combined by `merge` and
    `Merger.blend`, and used to fill the mate fields of unmated records.
  - Unmapped reads are placed next to their mate: orientation, strand, reverse
    complement, reversed qualities and a clamped start.
- **Attribute extractor** (`attributes.dfy`, module `AttributeExtraction`).
  - Annotations sorted strictly by name, with errors for a missing or repeated one.
  - Attributes created in parallel, the type mappings, the ARFF attribute text,
    `toString` and `checkHeader`.
- **Read renaming** (`sam_rename.dfy`, `mapx_rename.dfy`, `sam2bam.dfy`; modules
  `SamRenaming`, `MapxRenaming`, `SamToBam`).
  - Output file names.
  - In SAM renaming, the checks on numeric read ids and the choice of name list.
  - In mapx renaming, the header state machine, the read-id column search and the
    rewriting of data lines.
  - The BAM output file of the SAM-to-BAM conversion.
- **Calibrated phred scaler** (`phred_scaler.dfy`, module `PhredScaling`).
  - The clamped two-dimensional quality lookup.
  - The integer preparation of the curve: evidence marking, per-quality sums and end
    defaults.
- **Mask factory registry** (`factory_util.dfy`, module `MaskFactories`): a
  case-insensitive name-to-mask table with three public aliases.
- **Deduplicating list** (`dedupify.dfy`, module `Dedupifying`).
  - The insertion-ordered list behind the deduplicating SAM iterator, with an index of
    the values entered into it.
  - `replace` moves the replacing element to the tail.

Shared support:

- `wrappers.dfy` (`Option`, `Result`).
- `java_strings.dfy`: the `java.lang.String` operations the code relies on. These are
  prefix and suffix tests, `contains`, `replace`, `indexOf`, `String.join`, `split`,
  ASCII `toLowerCase`, `Integer.parseInt` and the `(int)` cast.
- `file_names.dfy`: `File.getName` and gzip file names.

Where the source mutates objects, the model does too:

- The augmenter, merger, chunk buffers, smoothing window, job cursor, registry and
  deduplicating list are classes. Their methods carry `modifies` clauses and state the
  whole new state.
- Loops in the source are `while`/`for` loops with invariants, proved against
  specification functions.

## Model

| member | source | states |
|---|---|---|
| MultiSampleDependencies.AllIds | test/com/rtg/variant/bayes/multisample/multithread/DependenciesMultiSampleTest.java:65-84 | an id is in the graph exactly when its chunk is in its type's domain: INCR 0..n-1; DANGLING, COMPLEX, BED and FLUSH 0..n; FILTER and OUT 1..n+1 |
| MultiSampleDependencies.To | test/com/rtg/variant/bayes/multisample/multithread/DependenciesMultiSampleTest.java:117-146 | every successor is in the graph, is at the same chunk or the next, comes later in (chunk, type) order, and is never an INCR job |
| MultiSampleDependencies.From | test/com/rtg/variant/bayes/multisample/multithread/DependenciesMultiSampleTest.java:157-209 | the predecessor list has the type's fixed arity (DANGLING 3, COMPLEX 1, BED 3, FILTER 4, OUT 2), and every filled slot is in the graph and earlier in (chunk, type) order |
| MultiSampleDependencies.ToFromInverse | test/com/rtg/variant/bayes/multisample/multithread/DependenciesMultiSampleTest.java:117-197 | y is a successor of x exactly when x fills a predecessor slot of y (FLUSH excluded at both ends) |
| MultiSampleDependencies.SlotEdge | test/com/rtg/variant/bayes/multisample/multithread/DependenciesMultiSampleTest.java:199-209 | each filled input slot of a job (other than a FLUSH input) is an edge from that input to the job |
| MultiSampleDependencies.PathMovesForward | test/com/rtg/variant/bayes/multisample/multithread/DependenciesMultiSampleTest.java:117-146 | along any chain of successor edges the last job comes strictly after the first in (chunk, type) order |
| MultiSampleDependencies.Acyclic | test/com/rtg/variant/bayes/multisample/multithread/DependenciesMultiSampleTest.java:117-146 | no chain of successor edges returns to the job it started from |
| MultiSampleDependencies.ClosureCoversGraph | test/com/rtg/variant/bayes/multisample/multithread/DependenciesMultiSampleTest.java:58-63 | a set closed under `to` that holds every INCR job holds every job of the graph |
| MultiSampleDependencies.SeedsReach | test/com/rtg/variant/bayes/multisample/multithread/DependenciesMultiSampleTest.java:86-111 | a closed set holding INCR(0..m) holds every DANGLING, FLUSH, COMPLEX and BED job of chunks 0..m+1, and every FILTER and OUT job of chunks 1..m+1 |
| MultiSampleDependencies.LookAheadThreeOnFiveChunks | test/com/rtg/variant/bayes/multisample/multithread/DependenciesMultiSampleTest.java:86-111 | with INCR(0..3) on five chunks, every job type is reached at chunks 1 to 3, and every type but INCR at chunk 4 |
| MultiSampleDependencies.ToTableForFiveChunks | test/com/rtg/variant/bayes/multisample/multithread/DependenciesMultiSampleTest.java:117-131 | the exact successor sets of INCR(0), DANGLING(0) and COMPLEX(1) for five chunks |
| MultiSampleDependencies.ToTableAtEndForFiveChunks | test/com/rtg/variant/bayes/multisample/multithread/DependenciesMultiSampleTest.java:133-146 | the exact successor sets at the end of five chunks: DANGLING(5) is {BED(5), COMPLEX(5)}; BED(5) and OUT(6) have none; FILTER(5) is {OUT(5), FILTER(6)} |
| MultiSampleDependencies.FromTableForFiveChunks | test/com/rtg/variant/bayes/multisample/multithread/DependenciesMultiSampleTest.java:157-197 | the exact predecessor lists, null slots included, of DANGLING(0), BED(0), FILTER(1), OUT(1), DANGLING(5), FILTER(6) and OUT(6) |
| MultiSampleDependencies.DependenciesMultiSample.constructor | test/com/rtg/variant/bayes/multisample/multithread/DependenciesMultiSampleTest.java:219-221 | a new dependency object for n chunks has handed out no INCR job |
| MultiSampleDependencies.DependenciesMultiSample.Next | test/com/rtg/variant/bayes/multisample/multithread/DependenciesMultiSampleTest.java:222-231 | `next` returns the next INCR job and advances when that job's chunk exists and is within the bound; otherwise it returns nothing and changes nothing |
| MultiSampleDependencies.CloseUnderTo | test/com/rtg/variant/bayes/multisample/multithread/DependenciesMultiSampleTest.java:232-247 | the frontier loop gives a set closed under `to` that holds the known jobs and the frontier, and no INCR job beyond those |
| MultiSampleDependencies.AllIdsLookahead | test/com/rtg/variant/bayes/multisample/multithread/DependenciesMultiSampleTest.java:219-250 | alternating rounds of `next` and closing under `to` collect exactly every job of the graph |
| MultiSampleDependencies.AllIdsBounded | test/com/rtg/variant/bayes/multisample/multithread/DependenciesMultiSampleTest.java:86-111 | one round of `next` with a fixed bound, then closing, gives a closed set whose INCR jobs are exactly those of chunks up to the bound |
| Coverage.KeptMetas | src/com/rtg/variant/coverage/CoverageTask.java:90-95 | the kept meta strings are neither null nor blank, and there are no more of them than meta strings |
| Coverage.FormatMetaForBed | src/com/rtg/variant/coverage/CoverageTask.java:86-100 | the label built in the loop is the kept meta strings joined by single commas |
| Coverage.FormatMetaForBedRoundTrip | src/com/rtg/variant/coverage/CoverageTask.java:86-100 | the label is empty exactly when nothing is kept; when no kept string holds a comma, splitting the label at commas gives the kept strings back |
| Coverage.EffectiveChunkSizeIsMax | src/com/rtg/variant/coverage/CoverageTask.java:325 | the chunk size used is the larger of the configured size and 2*smoothing+2, so it is at least both |
| Coverage.ChunkIndexCorrect | src/com/rtg/variant/coverage/CoverageTask.java:402-403 | a position lies in the chunk its index names, and a position inside chunk k has index k |
| Coverage.ChunksAdjacent | src/com/rtg/variant/coverage/CoverageTask.java:402-403 | a chunk not clipped by the region end ends where the next chunk starts |
| Coverage.CoverageSumBound | src/com/rtg/variant/coverage/CoverageTask.java:420-436 | with non-negative amounts, the coverage at a position is at least the amount of every record covering it |
| Coverage.ChunkBuffers.constructor | src/com/rtg/variant/coverage/CoverageTask.java:321-337 | the state after `setReferenceSequence` for the first reference: region, chunk size and count set; no chunk loaded; no coverage or IH arrays yet; chunk bounds -1 |
| Coverage.ChunkBuffers.AddBitSet | src/com/rtg/variant/coverage/CoverageTask.java:420-436 | every array cell gains what the record adds at its position: the amount per set bit inside the array, and in TSV mode one count in the IH=1 or IH>1 array |
| Coverage.ChunkBuffers.AddRecords | src/com/rtg/variant/coverage/CoverageTask.java:410-414 | after the record loop each cell holds its previous value plus the contribution of every record |
| Coverage.ChunkBuffers.AdvanceIhArrays | src/com/rtg/variant/coverage/CoverageTask.java:393-398 | the IH arrays become the previous ones and fresh distinct zero-filled arrays of chunk size replace them |
| Coverage.ChunkBuffers.AdvanceChunk | src/com/rtg/variant/coverage/CoverageTask.java:390-404 | the chunk number advances, the chunk starts one chunk size after the last, the current arrays become the previous ones and fresh zero-filled arrays replace them |
| Coverage.ChunkBuffers.LoadNextChunk | src/com/rtg/variant/coverage/CoverageTask.java:389-418 | loads exactly while chunks remain; once they are all loaded it returns false and changes nothing. A load gives chunk bounds n*size+start and min(that+size, end), keeps the old array as previous, and fills every cell with its chunk's coverage |
| Coverage.ChunkBuffers.GetCoverageForPosition | src/com/rtg/variant/coverage/CoverageTask.java:372-387 | loads chunks until the position is before the chunk end, or fails with an index error once chunks run out; a value returned is the coverage at the position from the records of its chunk; an error means the position is past the last chunk or before the chunk start, and a position in the current chunk, or one chunk back after the first, always reads a value |
| Coverage.ChunkBuffers.LoadedCoverage | src/com/rtg/variant/coverage/CoverageTask.java:379-386 | once the position is before the chunk end, a value read is the coverage of its chunk's records; an error means the position is before the chunk start, and a position in the current or the previous chunk always reads a value |
| Coverage.ChunkBuffers.WindowLookBackLoaded | src/com/rtg/variant/coverage/CoverageTask.java:308-325 | with the chunk size at least twice the smoothing window plus two, every position from the one the window leaves (or the region start) up to a loaded position reads a value |
| Coverage.ChunkBuffers.ValueForPosition | src/com/rtg/variant/coverage/CoverageTask.java:353-362 | a non-negative offset reads the current array at the offset; a negative offset reads the previous array at chunkSize+offset; a read is an error exactly when that index is outside the array or the previous array is missing |
| Coverage.ChunkBuffers.IhForPosition | src/com/rtg/variant/coverage/CoverageTask.java:364-370 | a value read is the number of records of the position's chunk covering it with IH = 1 (or IH > 1), and every position of the current chunk, or of the previous one after the first chunk, reads a value |
| Coverage.SmoothingWindow.constructor | src/com/rtg/variant/coverage/CoverageTask.java:295-302 | the window starts at the region start with the sum and count of positions [start, min(end, start+w+1)) |
| Coverage.SmoothingWindow.Step | src/com/rtg/variant/coverage/CoverageTask.java:308-318 | after a step, the sum is the coverage over [max(start, pos-w), min(end, pos+w+1)) and the count is that window's size |
| Augmenting.StoredScoreNonNegative | src/com/rtg/variant/sv/UnmatedAugmenter.java:116-122 | a stored score is non-negative exactly when the record has a non-negative alignment score; a missing one is stored as the smallest int |
| Augmenting.MateOrientationFor | src/com/rtg/variant/sv/UnmatedAugmenter.java:375-381 | the orientation is R exactly when the mate is reversed, and 2 exactly when the read is first of its pair |
| Augmenting.ProjectedStart | src/com/rtg/variant/sv/UnmatedAugmenter.java:410-415 | the projected start is at least 1, and it is either 1 or one fragment length beyond the mate's start (upstream) or before its end (downstream) |
| Augmenting.ReversedTwice | src/com/rtg/variant/sv/UnmatedAugmenter.java:394-398 | reversing the qualities twice gives them back |
| Augmenting.ReverseQualities | src/com/rtg/variant/sv/UnmatedAugmenter.java:394-398 | the new quality array is the exact reverse of the old qualities |
| Augmenting.ReverseComplement | src/com/rtg/variant/sv/UnmatedAugmenter.java:389-392 | the result has the input's length and is the input reversed with each base complemented |
| Augmenting.ReverseComplementTwice | src/com/rtg/variant/sv/UnmatedAugmenter.java:389-392 | with a complement that undoes itself, the reverse complement of the reverse complement is the input |
| Augmenting.MergeTablesLookup | src/com/rtg/variant/sv/UnmatedAugmenter.java:146-153 | a merged table has the names of both, with the other's entry where both have one; the counters add up |
| Augmenting.MergeTablesLaws | src/com/rtg/variant/sv/UnmatedAugmenter.java:146-153 | merging into empty tables gives the other tables, and merging is associative |
| Augmenting.BlendTablesLeft | src/com/rtg/variant/sv/UnmatedAugmenter.java:83-97 | a name is on the blended left side exactly when some augmenter had it there, with the entry of the last augmenter that had it |
| Augmenting.BlendTablesRight | src/com/rtg/variant/sv/UnmatedAugmenter.java:83-97 | the same for the right side |
| Augmenting.BlendTablesCounters | src/com/rtg/variant/sv/UnmatedAugmenter.java:83-97 | the blended counters are the sums of the augmenters' counters |
| Augmenting.TakeMate | src/com/rtg/variant/sv/UnmatedAugmenter.java:330-344 | copies the mate's reference, start, strand and end; clears mate-unmapped; sets the mate score only when the stored score is non-negative; sets the insert size from `tlen` on the same reference, else 0 |
| Augmenting.UnmatedAugmenter.constructor | src/com/rtg/variant/sv/UnmatedAugmenter.java:135-139 | a new augmenter has empty tables and zero counters |
| Augmenting.UnmatedAugmenter.ClearMaps | src/com/rtg/variant/sv/UnmatedAugmenter.java:90-92 | the maps are emptied and the counters kept |
| Augmenting.UnmatedAugmenter.Merge | src/com/rtg/variant/sv/UnmatedAugmenter.java:146-153 | this augmenter's state becomes the merge of its own and the other's, the other's entries on top |
| Augmenting.UnmatedAugmenter.AddRecord | src/com/rtg/variant/sv/UnmatedAugmenter.java:159-175 | an augmentable record (paired, mapped, not proper, mate not on a reference, NH/IH 1) is stored under its name, on the left when first of pair and otherwise on the right; any other record changes nothing |
| Augmenting.UnmatedAugmenter.AddMachineType | src/com/rtg/variant/sv/UnmatedAugmenter.java:181-190 | an unknown platform or a machine without an orientation is the matching error and changes nothing; otherwise the read group's machine type is recorded |
| Augmenting.UnmatedAugmenter.MateEntry | src/com/rtg/variant/sv/UnmatedAugmenter.java:322-327 | there is an entry exactly when the record's name is on the opposite side |
| Augmenting.UnmatedAugmenter.UpdateUnmatedRecord | src/com/rtg/variant/sv/UnmatedAugmenter.java:320-347 | a record that is not augmentable, or whose mate is not stored, is unchanged; otherwise it gets the mate fields as in `TakeMate` and the counter rises by one |
| Augmenting.UnmatedAugmenter.MachineTypeOf | src/com/rtg/variant/sv/UnmatedAugmenter.java:371-372 | a machine type is found only for a record whose read group was recorded |
| Augmenting.UnmatedAugmenter.CopyMate | src/com/rtg/variant/sv/UnmatedAugmenter.java:362-368 | the mate's reference, start, strand and end are copied, and the unmapped counter rises by one |
| Augmenting.UnmatedAugmenter.UpdateUnmappedRecord | src/com/rtg/variant/sv/UnmatedAugmenter.java:354-433 | without a stored mate nothing changes; otherwise the mate is copied, and the read is placed next to it when its machine type expects an orientation for it, or else keeps its position, strand, bases and qualities |
| Augmenting.PlaceRead | src/com/rtg/variant/sv/UnmatedAugmenter.java:383-429 | the read moves to the mate's reference. It is reversed exactly for the R orientations, and then its bases are reverse-complemented and its qualities reversed. It starts at the projected start clamped to the reference length, or stops with the no-fragment-size error |
| Augmenting.MergeAndClear | src/com/rtg/variant/sv/UnmatedAugmenter.java:88-92 | one step of `blend`: the blend takes the augmenter's entries and counters, and the augmenter's maps are cleared |
| Augmenting.MergeAll | src/com/rtg/variant/sv/UnmatedAugmenter.java:86-94 | the loop of `blend`: the blend holds all augmenters' tables merged in list order, and each augmenter is cleared |
| Augmenting.Merger.constructor | src/com/rtg/variant/sv/UnmatedAugmenter.java:62-65 | a new merger has no augmenters and no blend |
| Augmenting.Merger.CreateUnmatedAugmenter | src/com/rtg/variant/sv/UnmatedAugmenter.java:71-75 | a fresh empty augmenter is appended to the list |
| Augmenting.Merger.Blend | src/com/rtg/variant/sv/UnmatedAugmenter.java:83-97 | the first call returns a fresh augmenter holding the merge of all, clears every constituent and empties the list; every later call returns that same augmenter and changes nothing |
| AttributeExtraction.MlDataTypeBijective | src/com/rtg/variant/avr/AttributeExtractor.java:144-157 | each annotation type maps to the attribute type of the same name, one to one |
| AttributeExtraction.CompatibleType | src/com/rtg/variant/avr/AttributeExtractor.java:366-380 | INTEGER goes to INTEGER, FLOAT to DOUBLE, FLAG to BOOLEAN, and STRING and CHARACTER to STRING, each in both directions |
| AttributeExtraction.ArffAttributeTextFields | src/com/rtg/variant/avr/AttributeExtractor.java:382-394 | for a name without spaces, the text splits into "@attribute", the name and "numeric" (integer or double), "{true,false}" (boolean) or "string" |
| AttributeExtraction.ArffStringRoundTrip | src/com/rtg/variant/avr/AttributeExtractor.java:396-398 | the ARFF text of a value reads back as that value (missing for "?"), for every value other than the text "?" itself |
| AttributeExtraction.NameLessTransitive | src/com/rtg/variant/avr/AttributeExtractor.java:95 | the name order of the sorted set is transitive |
| AttributeExtraction.NameLessTotal | src/com/rtg/variant/avr/AttributeExtractor.java:95 | any two different names are ordered one way or the other |
| AttributeExtraction.InsertByNameCorrect | src/com/rtg/variant/avr/AttributeExtractor.java:103 | adding a new name to the sorted set keeps it strictly sorted and adds exactly that annotation |
| AttributeExtraction.SortedByNameUnique | src/com/rtg/variant/avr/AttributeExtractor.java:95-106 | two strictly sorted arrangements of the same annotations are equal, so the normalised form is unique |
| AttributeExtraction.NormalizeAnnotations | src/com/rtg/variant/avr/AttributeExtractor.java:93-107 | succeeds exactly when no annotation is missing and no name repeats, giving a strictly name-sorted permutation of the input; the error is that of the first annotation that is missing or repeats an earlier name, every annotation before it being present with distinct names |
| AttributeExtraction.CreateAttributes | src/com/rtg/variant/avr/AttributeExtractor.java:109-115 | one attribute per annotation, attribute i with annotation i's name and mapped type |
| AttributeExtraction.HeaderMessagesEmpty | src/com/rtg/variant/avr/AttributeExtractor.java:123-134 | the gathered messages are empty exactly when no annotation rejects the header |
| AttributeExtraction.DescriptionsRoundTrip | src/com/rtg/variant/avr/AttributeExtractor.java:199-209 | when no name holds a comma, splitting the summary at commas gives one "name(type)" description per annotation |
| AttributeExtraction.AttributeExtractor.constructor | src/com/rtg/variant/avr/AttributeExtractor.java:78-82 | the extractor keeps the annotations and attributes it is given |
| AttributeExtraction.AttributeExtractor.FromAnnotations | src/com/rtg/variant/avr/AttributeExtractor.java:84-87 | the extractor for a list of annotations has one created attribute per annotation |
| AttributeExtraction.AttributeExtractor.CheckHeader | src/com/rtg/variant/avr/AttributeExtractor.java:123-134 | the header is rejected exactly when some annotation gives a message, and the error holds all messages, each followed by a line separator |
| AttributeExtraction.AttributeExtractor.ToString | src/com/rtg/variant/avr/AttributeExtractor.java:199-209 | the text is the annotations' "name(type)" descriptions joined by commas |
| SamRenaming.ExplicitOutputNameShape | src/com/rtg/ngs/SamRename.java:148-153 | the given name is kept as a prefix and stays BAM exactly when it was; it is gzip exactly when it was, or when compression is on and it is not BAM |
| SamRenaming.RenamedPathShape | src/com/rtg/ngs/SamRename.java:159-166 | the renamed path is seven characters longer, starts with the stem and "_rename", is BAM exactly when the input was, and is never a gzip name |
| SamRenaming.DefaultOutputNameShape | src/com/rtg/ngs/SamRename.java:154-171 | the default name is longer than the input, starts with the stem and "_rename", is BAM exactly when the input without ".gz" is, and is gzip exactly when compressing a name that is not BAM |
| SamRenaming.NameOffset | src/com/rtg/ngs/SamRename.java:261 | the offset is the range start when positive and within 32 bits, and 0 when the start is not positive |
| SamRenaming.ResolvedNameIsEntry | src/com/rtg/ngs/SamRename.java:274-309 | a resolved name is a numeric id inside the range, and is the entry at id minus offset of the list chosen: single, or left for first of pair and right otherwise; with paired SDFs the record is paired |
| SamRenaming.UnpairedRecordRefused | src/com/rtg/ngs/SamRename.java:294-298 | with paired SDFs a record without the paired flag never resolves, and once its id passes the number and range checks the error is the one the first-of-pair question raises |
| SamRenaming.BadFormatFirst | src/com/rtg/ngs/SamRename.java:274-317 | a non-numeric name or a negative id is the bad-format error whatever the range and names, and only those two are |
| SamRenaming.ResolveNumberedRead | src/com/rtg/ngs/SamRename.java:274-309 | the decimal id of the k-th read of the range resolves to entry k of the record's list, or to the not-paired error for an unpaired record against paired SDFs |
| SamRenaming.RenameRecords | src/com/rtg/ngs/SamRename.java:274-314 | each record written carries the SAM form of its resolved name; the first record failing a check, including an unpaired record against paired SDFs, stops the run with that check's error |
| MapxRenaming.DefaultOutputNameShape | src/com/rtg/protein/MapxRename.java:114-132 | the default name is "_rename" longer than the input, is gzip exactly when the input is, and keeps a ".tsv" extension |
| MapxRenaming.StepForMeaning | src/com/rtg/protein/MapxRename.java:145-163 | the header stops only at a comment naming read ids and not read names; only a non-empty line not starting with '#' is an unexpected line |
| MapxRenaming.HeaderLengthMeaning | src/com/rtg/protein/MapxRename.java:142-166 | a header is a run of lines that go on, ended by the first line that stops; a failing line fails with its own error, and running out of lines is the end-of-file error |
| MapxRenaming.ReadHeader | src/com/rtg/protein/MapxRename.java:142-166 | the header read is the lines up to and including the column headings, or the error `HeaderLength` gives |
| MapxRenaming.WriteModifiedHeader | src/com/rtg/protein/MapxRename.java:168-175 | every header line is written unchanged but the last, in which "read-id" becomes "read-name" |
| MapxRenaming.RenamedHeadingRefused | src/com/rtg/protein/MapxRename.java:155-158 | a rewritten column heading is refused as already renamed |
| MapxRenaming.RenamedFileRefused | src/com/rtg/protein/MapxRename.java:142-175 | renaming the output of a rename fails with the already-renamed error |
| MapxRenaming.SdfIdOfMeaning | src/com/rtg/protein/MapxRename.java:177-188 | the SDF id is 0 exactly when no line starts with the SDF-id header and a tab; otherwise it is the text after the tab of the first such line |
| MapxRenaming.IdColumn | src/com/rtg/protein/MapxRename.java:207-217 | there is no id column exactly when no heading is "read-id"; otherwise it is the first heading that is |
| MapxRenaming.FindIdColumn | src/com/rtg/protein/MapxRename.java:209-214 | the search loop finds the same column |
| MapxRenaming.ReplaceIdWithName | src/com/rtg/protein/MapxRename.java:253-266 | field `id` is overwritten by the name of the read it denotes, and the fields are joined by the separator; a bad id is an error |
| MapxRenaming.RewriteKeepsFields | src/com/rtg/protein/MapxRename.java:253-266 | a rewritten line has as many fields as before, all unchanged but the id field, which holds the read's name |
| MapxRenaming.PassThrough | src/com/rtg/protein/MapxRename.java:225-248 | empty lines, data lines with too few fields, and comments other than 8-field "#read " lines pass unchanged |
| MapxRenaming.ChangedLineHadId | src/com/rtg/protein/MapxRename.java:225-248 | a line that changes had the id column, or is an 8-field "#read " comment |
| MapxRenaming.RenameLine | src/com/rtg/protein/MapxRename.java:226-245 | the loop body gives exactly `RenamedLine`: empty and pass-through lines unchanged, other lines rewritten by `ReplaceIdWithName` |
| MapxRenaming.RenameDataLines | src/com/rtg/protein/MapxRename.java:223-248 | all data lines are rewritten in order, or the run stops with the error of the first that fails |
| MapxRenaming.RenamedLinesErrPersists | src/com/rtg/protein/MapxRename.java:223-248 | once a line fails, the whole run fails with that error |
| MapxRenaming.RenameFile | src/com/rtg/protein/MapxRename.java:199-251 | header errors, a missing id column, a malformed SDF id and a mismatching SDF id are errors; otherwise the output is the modified header followed by the renamed data lines |
| SamToBam.BamOutputFileIsBam | src/com/rtg/sam/Sam2Bam.java:168-173 | the chosen file's name ends in ".bam", the chosen path extends the given one, and choosing again changes nothing |
| PhredScaling.UnsignedByte | src/com/rtg/variant/BaseQualityMachineCyclePhredScaler.java:103 | the unsigned value is below 256 and congruent to the byte modulo 256, and equals it when non-negative |
| PhredScaling.ScaledPhredClamps | src/com/rtg/variant/BaseQualityMachineCyclePhredScaler.java:102-111 | the lookup fails exactly for a negative read position or a table without rows or columns; otherwise it reads the cell at both indices clamped into the table, and inside the table the exact cell |
| PhredScaling.NegativeByteIsHighQuality | src/com/rtg/variant/BaseQualityMachineCyclePhredScaler.java:103 | a negative byte stands for a quality of at least 128 |
| PhredScaling.MarkCurve | src/com/rtg/variant/BaseQualityMachineCyclePhredScaler.java:51-60 | every cell is -1 below the evidence threshold and otherwise the empirical quality of its counts |
| PhredScaling.MarkedExactlyWhenShort | src/com/rtg/variant/BaseQualityMachineCyclePhredScaler.java:51-60 | a cell is missing exactly when its evidence is short |
| PhredScaling.WrappedRowSumIsCast | src/com/rtg/variant/BaseQualityMachineCyclePhredScaler.java:64-71 | the total accumulated in an int is the true total cast to 32 bits |
| PhredScaling.WrappedTotalLosesEvidence | src/com/rtg/variant/BaseQualityMachineCyclePhredScaler.java:64-71 | with 2^31-1 and 1 observations the int total is -2^31, below a threshold the first position alone meets |
| PhredScaling.RowSumCoversEachCount | src/com/rtg/variant/BaseQualityMachineCyclePhredScaler.java:64-71 | a quality total is at least each of its counts, so one well-observed position gives the quality enough evidence |
| PhredScaling.QualitySums | src/com/rtg/variant/BaseQualityMachineCyclePhredScaler.java:64-71 | the corrected computation (see Findings): the per-quality mismatch and total counts are the exact row sums over read positions, where the source wraps them to 32 bits |
| PhredScaling.QualityDefaults | src/com/rtg/variant/BaseQualityMachineCyclePhredScaler.java:73-89 | inner defaults are marked like cells; a missing first default becomes 0 and a missing last default the last quality index, so neither end is missing |
| MaskFactories.FactoryRegistry.PutFactory | src/com/rtg/index/hash/ngs/FactoryUtil.java:54-56 | the factory is stored under the lower-cased name, keeping every key lower case |
| MaskFactories.FactoryRegistry.constructor | src/com/rtg/index/hash/ngs/FactoryUtil.java:37-52 | the table holds the ten masks under their lower-cased class names and the aliases cg1, cg1-fast and cg2 |
| MaskFactories.FactoryRegistry.HashFunctionAgreesWithCheck | src/com/rtg/index/hash/ngs/FactoryUtil.java:62-80 | a look-up succeeds exactly when the mask exists, giving the factory under the lower-cased name; otherwise the invalid-mask error names the mask |
| MaskFactories.FactoryRegistry.CaseInsensitive | src/com/rtg/index/hash/ngs/FactoryUtil.java:62-67 | names that lower-case alike exist together and resolve alike |
| MaskFactories.FactoryRegistry.AliasesResolve | src/com/rtg/index/hash/ngs/FactoryUtil.java:40-51 | cg1, cg1-fast and CG2 resolve to CGMaska15b1, CGMaska1b1 and CG2Maskw18a1, like those masks' own names; no name is an error |
| Dedupifying.DedupifyingList.constructor | test/com/rtg/sam/DedupifyingIteratorTest.java:80 | a new list is empty with an empty index |
| Dedupifying.DedupifyingList.Add | test/com/rtg/sam/DedupifyingIteratorTest.java:81-89 | the element is appended and its value enters the index exactly when the flag is set |
| Dedupifying.DedupifyingList.ContainsIffIndexed | test/com/rtg/sam/DedupifyingIteratorTest.java:90-94 | an element is found exactly when an equal one was added with the flag set |
| Dedupifying.DedupifyingList.Replace | test/com/rtg/sam/DedupifyingIteratorTest.java:118-121 | the indexed element equal to x leaves the list and x is appended at the tail and indexed |
| Dedupifying.DedupifyingList.RemoveFirst | test/com/rtg/sam/DedupifyingIteratorTest.java:95-101 | the head of the list is returned and removed, and leaves the index; an empty list returns nothing and changes nothing |
| Dedupifying.DedupifyingList.Drain | test/com/rtg/sam/DedupifyingIteratorTest.java:95-101 | removing until nothing is returned gives every element once, in list order, and leaves the list empty |
| Dedupifying.ReplacedValid | test/com/rtg/sam/DedupifyingIteratorTest.java:118-121 | replacing keeps the index exact and free of duplicates |
| Dedupifying.ListSimple | test/com/rtg/sam/DedupifyingIteratorTest.java:79-102 | of nine values added with four indexed, exactly the indexed ones are found, and draining gives all nine in insertion order |
| Dedupifying.ListDedup | test/com/rtg/sam/DedupifyingIteratorTest.java:104-132 | after replacing by equal values, draining gives b, c2, a3, d: the replacing objects at the tail |

## Left out

- I/O, writers, SAM and mapx readers, and the command-line plumbing are left out.
  - Files appear as sequences of lines or records.
  - The circular record buffer of the coverage command becomes a function from chunk
    number to that chunk's records.
- Floating point is left out: `countsToEmpiricalQuality`, `globalErrorRate`, the
  interpolation of missing curve cells (`Interpolate2dArray`), and `MathUtils.round`.
  - The conversion of counts to an empirical quality is a parameter.
  - A record's rounded coverage amount is given as an integer.
  - The curve is read before interpolation.
- Calls into code that is not part of this model become parameters. These are:
  - `InsertHelper.tlen`, the base complement of `DnaUtils`, and the pairing rules of
    `MachineType` and `PairOrientation`;
  - read-group fragment statistics and reference lengths;
  - `samReadName` and the name lists of `Names`/`PrereadNames`;
  - `SdfId` parsing and checking (whether the text of the header's SDF id is a number,
    and whether the id matches the reads).
- The header constants of the mapx writer are fixed strings, because `ProteinOutputProcessor` is not part of this model.
- `FileUtils.isGzipFilename` is taken as "ends in .gz".
- `toLowerCase` is ASCII lower-casing.
- Java's character-level rules are narrowed to what the renamed files, mask names and annotation names contain:
  - `Integer.parseInt` accepts only ASCII digits here, not the other Unicode decimal digits `Character.digit` knows;
  - names are ordered by Unicode scalar value, not by UTF-16 code unit, and the two orders differ only for supplementary characters;
  - the file name of a path ending in '/' is empty here, whereas `java.io.File` drops the trailing separator first (so `out.bam/` is not taken as `out.bam`).
- `String.split` is modelled for a one-character separator, dropping trailing empty fields.
- Augmenting.UnmatedAugmenter.UpdateUnmappedRecord: the remapping of reads in duplicated (PAR) regions is not modelled, and the start is the clamped projected start.
- Augmenting.Merger.Blend: the augmenters are modelled sequentially. The list is emptied after the loop rather than one element at a time through the iterator.
- MultiSampleDependencies.From: the `DependenciesMultiSample` source is not part of this model.
  - The graph follows the tables asserted by its test.
  - FLUSH's own predecessor list is not modelled, so `ToFromInverse` excludes FLUSH.
  - `delta()` is the constant `DELTA` (1).
- MultiSampleDependencies.AllIdsLookahead: `getLookAhead` is not part of this model. Each round's bound is the chunk of the next seed job plus the look-ahead.
- Dedupifying.DedupifyingList.Add: the list's own source (inside `DedupifyingIterator`) is not part of this model.
  - Its behaviour is taken from the assertions of its test.
  - An indexed add requires that no equal element is indexed yet, which is how the test uses it.
- SamRenaming.ExplicitOutputNameShape: only the file name is modelled; the parent directory the output is placed in is not.
- MapxRenaming.RenameFile: the warning for a header without an SDF id is a diagnostic and is not modelled. The malformed-id error carries the id text rather than the parse exception's message.
- AttributeExtraction.CompatibleType: the header types are the five named ones, so the `null` of any other type does not arise.
- Coverage.ChunkBuffers.GetCoverageForPosition: the null-pointer and index exceptions are error results.
- Coverage.ChunkBuffers.constructor: the state modelled is the one for the first reference. For a later reference `setReferenceSequence` keeps the previous reference's previous-coverage and IH arrays, which the model does not carry over.
- PhredScaling.QualitySums: states the exact sums, not the 32-bit wrap-around of the source; the wrap is modelled separately by `PhredScaling.WrappedTotalLosesEvidence` (see Findings).
- Augmenting.UnmatedAugmenter.UpdateUnmappedRecord: the first-of-pair flag of the record is taken as given; the error htsjdk raises when that flag is asked of a record that is not paired is not modelled.

## Findings

| source | as written | input that shows it | evidently intended | confidence | as-written member | corrected member |
|---|---|---|---|---|---|---|
| src/com/rtg/variant/BaseQualityMachineCyclePhredScaler.java:64-71 | the per-quality totals are `int` arrays, and `+=` of each 64-bit count wraps to 32 bits | one quality with two read positions holding 2147483647 and 1 observations: the total becomes -2147483648 and falls below the evidence threshold | the total is the exact sum of the counts, at least every count | not executed | PhredScaling.WrappedTotalLosesEvidence | PhredScaling.RowSumCoversEachCount |
