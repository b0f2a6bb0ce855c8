# BreaKmer target bookkeeping in Dafny

BreaKmer calls structural variants one target region at a time. This project models
the per-target core of that work, in `breakmer/processor/target.py`:

- reading jellyfish kmer dumps into a count dictionary (`load_kmers`);
- the set logic of `compare_kmers`, which keeps the kmers found in both the sample
  reads and the soft-clipped sample reads but not in the reference (nor in the
  normal sample, when one is given). It writes those kmers with their sample counts
  to the sample kmer file and then empties the kmer dictionaries;
- merging a target's intervals into one chromosome, start and end, and the
  200-base buffer used when reads are extracted;
- the `Variation` record and the gates of `find_sv_reads`, `clean_reads` and
  `complete_analysis`;
- contig ids and result collection in `resolve_sv`.

Files:

- `text.dfy` (module `Text`): the Python string behaviour this depends on.
  - `str.split(sep)` and `str.split()`;
  - the lines a text file yields;
  - `str(n)` and Python 2 `int(token)`.
- `kmers.dfy` (module `Kmers`): `load_kmers` and the sample kmer file.
  - `load_kmers` is split into methods: the guard and split, the loop over the file names, the loop over the lines of a file, and one line.
  - Each method is proved equal to a left-fold specification function.
  - The set differencing is pure.
- `intervals.dfy` (module `Intervals`): the interval merge, the read region, and the
  code as written for a start of 0.
- `contigs.dfy` (module `Contigs`): contig ids and the results filter.
- `target.dfy` (module `Target`): the `Variation` and `TargetManager` classes, whose
  methods update their fields in place as the source does.

External components enter only as parameters:

- the file system is a map from file name to text;
- the BAM reader is `bam: (SampleType, Region) -> seq<Read>`;
- cutadapt plus fastq reading is `clean`;
- jellyfish is the dump file names it returns;
- the assembler is `assemble`;
- a contig's own analysis is the `hasResult` flag it carries.

An exception is modelled as a returned `Option<LoadError>`. The dictionaries that
the source mutates in place keep the state they had reached when it was raised.

Where the code cannot run as written, the model follows the evident intent:

- Line 133 (`for chrom, int(start), int(end) in intervals`) is not valid Python. The
  intervals are modelled as already holding integers.
- Lines 292 and 302 key `files` and `var_reads` by the builtin `type` rather than
  `sampleType`. The model keys them by the sample type.
- Line 426 appends the undefined name `result`. The model appends the contig.
- Line 433 reads `self.results`, which exists only on `self.variation` (line 45).
  The model reads `variation.results`.
- `write_results` (line 434) is not defined in this file. The model records the
  call in the flag `resultsWritten`.

## Model

| member | source | states |
|---|---|---|
| Text.Split | breakmer/processor/target.py:24 | `fns.split(',')` gives at least one piece, and no piece contains the separator |
| Text.JoinSplit | breakmer/processor/target.py:24 | joining the pieces of a split with the separator gives back the string |
| Text.SplitJoin | breakmer/processor/target.py:24 | splitting a join of separator-free parts gives back the parts |
| Text.SplitNoSep | breakmer/processor/target.py:24 | a name without a comma splits into that one name |
| Text.Lines | breakmer/processor/target.py:26 | the lines a file yields hold no newline |
| Text.WriteLines | breakmer/processor/target.py:388-392 | the text of a file written one `line + "\n"` at a time, as a definition; `Text.LinesWriteLines` proves reading it back gives the lines |
| Text.LinesWriteLines | breakmer/processor/target.py:390 | a file written as one `line + "\n"` per line reads back as exactly those lines |
| Text.Words | breakmer/processor/target.py:27-28 | every word of `line.split()` is non-empty and holds no whitespace |
| Text.WordsOfPair | breakmer/processor/target.py:28 | `mer<TAB>count` with whitespace-free parts splits into exactly `[mer, count]` |
| Text.TakeWord | breakmer/processor/target.py:28 | the first word is a prefix without whitespace, followed by whitespace or the end |
| Text.NatToString | breakmer/processor/target.py:417 | `str(i)` of a count is a non-empty string of decimal digits |
| Text.ParseInt | breakmer/processor/target.py:31 | Python 2's `int(count)` as a definition: an optional sign and one or more decimal digits, anything else raises (`None`); `Text.ParseIntToString` proves it inverts `str` |
| Text.IntToString | breakmer/processor/target.py:390 | `str(count)` as a definition: a minus sign for negatives, then the digits of the magnitude; its properties are in `Text.ParseIntToString` and `Text.IntToStringIsToken` |
| Text.ParseIntToString | breakmer/processor/target.py:31 | `int(str(n)) == n` for every integer, negative ones included |
| Text.IntToStringIsToken | breakmer/processor/target.py:390 | `str(n)` is non-empty and has no whitespace |
| Text.NatToStringInjective | breakmer/processor/target.py:417 | different numbers print differently |
| Kmers.AddLine | breakmer/processor/target.py:27-31 | the effect of one line, as a definition: split into two words or raise; the mer enters at 0; then `int(count)` is added or raises; `Kmers.AddKmerLine` is proved equal to it |
| Kmers.AddLines | breakmer/processor/target.py:26-31 | the lines of one file folded in order, stopping at the first that raises, as a definition; `Kmers.AddFileLines` is proved equal to it and `Kmers.AddLinesCounts` gives the resulting counts |
| Kmers.LoadFiles | breakmer/processor/target.py:25-31 | the files folded in order, a missing one raising, stopping at the first error, as a definition; `Kmers.LoadFileNames` is proved equal to it |
| Kmers.LoadKmersSpec | breakmer/processor/target.py:17-32 | `load_kmers` as a definition: empty names return the dictionary, others are split on commas and folded; `Kmers.LoadKmers` is proved equal to it, `Kmers.LoadKmersCounts` and `Kmers.LoadKmersGrows` state its effect |
| Kmers.LoadKmers | breakmer/processor/target.py:17-32 | empty file names return the dictionary untouched; otherwise the result and the exception are those of the comma-separated files read in order |
| Kmers.LoadFileNames | breakmer/processor/target.py:25-31 | reading the named files in turn stops at the first missing file or bad line, keeping the counts reached |
| Kmers.AddFileLines | breakmer/processor/target.py:26-31 | the lines of one file are added in order, stopping at the first line that raises |
| Kmers.AddKmerLine | breakmer/processor/target.py:27-31 | a line adds its count to its mer, which first enters at 0; a line that is not two words raises, and so does a count that is not an integer, after the mer has entered |
| Kmers.AddLinesSticky | breakmer/processor/target.py:26-31 | once a line raises, the later lines are not read |
| Kmers.LoadFilesSticky | breakmer/processor/target.py:25-31 | once a file raises, the later files are not read |
| Kmers.LoadKmersGrows | breakmer/processor/target.py:21-31 | no file names leave the dictionary unchanged; otherwise no key is removed, and every new key is a whitespace-free word |
| Kmers.AddLinesCounts | breakmer/processor/target.py:26-31 | without an exception every line is well formed; the keys are the old keys plus the lines' mers; each mer's count is its prior count (0 if absent) plus the sum of its counts over the lines |
| Kmers.LoadKmersCounts | breakmer/processor/target.py:21-31 | without an exception every named file exists; the keys are the old keys plus the mers of all lines of all files; each count is the prior count plus the sum over all those lines |
| Kmers.LoadFilesIsAddLines | breakmer/processor/target.py:25-31 | reading several files equals reading their lines concatenated |
| Kmers.AddLinesAppend | breakmer/processor/target.py:26-31 | reading `a + b` is reading `a`, then, if no line raised, `b` |
| Kmers.LoadSingleFile | breakmer/processor/target.py:24-31 | one comma-free file name reads exactly that file's lines |
| Kmers.SampleOnlyMers | breakmer/processor/target.py:374-382 | a kmer is sample-only iff it is in both `case` and `case_sc`, not in `ref`, and not in `norm` when a normal is given |
| Kmers.CaseOnly | breakmer/processor/target.py:388-391 | `case_only` has exactly the sample-only kmers as keys, each with its `case` count; its keys are within `case` and avoid `ref` and `norm` |
| Kmers.WriteSampleKmers | breakmer/processor/target.py:386-392 | writes one `mer<TAB>count` line for each sample-only kmer, each exactly once, and builds `case_only` from the `case` counts |
| Kmers.KmerLine | breakmer/processor/target.py:390 | the line written for one mer, `mer<TAB>str(count)`, as a definition; `Kmers.AddLineFresh` proves reading it adds that mer with that count |
| Kmers.KmerLines | breakmer/processor/target.py:388-391 | the lines written for the mers in the order listed, as a definition; `Kmers.ReadKmerLines` proves they read back as those mers' counts |
| Kmers.KmerLineParses | breakmer/processor/target.py:390 | a written kmer line holds no newline |
| Kmers.ReadKmerLines | breakmer/processor/target.py:26-31 | reading distinct kmer lines as line 390 writes them into an empty dictionary gives those mers with their counts, without an exception |
| Kmers.KmerFileRoundTrip | breakmer/processor/target.py:26-31 | a kmer file written as at line 390 from a dictionary with whitespace-free keys reads back as that dictionary |
| Kmers.LoadEach | breakmer/processor/target.py:357-360 | the reference loop as a definition: every dump loaded into one dictionary, stopping at the first that raises; `Target.TargetManager.LoadReference` is proved equal to it and `Target.LoadEachSticky` states the stop |
| Kmers.SampleKmerFileRoundTrip | breakmer/processor/target.py:17-32 | `load_kmers` of the sample kmer file written at line 390 into an empty dictionary reproduces `case_only` |
| Kmers.AddLineFresh | breakmer/processor/target.py:28-31 | a written line for a mer not yet present adds that mer with its count |
| Kmers.KmerLinesAgree | breakmer/processor/target.py:390 | the lines written depend only on the counts of the listed mers |
| Intervals.MergeStep | breakmer/processor/target.py:134-143 | one turn of the interval loop, reading an unset bound as `None`, as a definition |
| Intervals.MergeFrom | breakmer/processor/target.py:132-143 | the interval loop from given bounds, as a definition; `Target.TargetManager.Setup` is proved equal to it |
| Intervals.Merge | breakmer/processor/target.py:132-143 | the interval loop from unset bounds; `Intervals.MergeIsHull` proves it gives the first chromosome, the least start and the greatest end |
| Intervals.ReadRegion | breakmer/processor/target.py:299-300 | the target widened by `regionBuffer` on both sides; `Intervals.RegionCoversIntervals` proves it covers every interval by exactly that margin |
| Intervals.MergeIsHull | breakmer/processor/target.py:132-143 | merging a non-empty interval list gives the first interval's chromosome, the least start and the greatest end, and both are attained by some interval |
| Intervals.RegionCoversIntervals | breakmer/processor/target.py:299-300 | the extraction region covers every interval with `regionBuffer` (200, line 121) bases on each side, and is no wider than that around the outermost intervals |
| Intervals.MergeStepAsWritten | breakmer/processor/target.py:134-143 | one turn of the loop with Python's truthiness tests, an empty name or a 0 counting as unset |
| Intervals.MergeAsWritten | breakmer/processor/target.py:132-143 | the loop with those tests; `Intervals.MergeAsWrittenLosesZeroStart` shows it differs from the intended merge, `Intervals.MergeAsWrittenAgreesOnPositive` when it does not |
| Intervals.MergeAsWrittenLosesZeroStart | breakmer/processor/target.py:134-139 | the code as written gives start 50 for a target whose first interval starts at 0; the intended merge gives 0 |
| Intervals.MergeAsWrittenAgreesOnPositive | breakmer/processor/target.py:132-143 | with non-empty chromosome names and positive coordinates, the code as written equals the intended merge |
| Contigs.ContigId | breakmer/processor/target.py:417 | `'contig' + str(iter)`; `Contigs.ContigIdInjective` proves different positions get different ids |
| Contigs.ContigIdInjective | breakmer/processor/target.py:417 | two positions with equal contig ids are the same position |
| Contigs.Identified | breakmer/processor/target.py:414-418 | the i-th contig (1-based) gets the id `contig<i>` and the target values; its sequence and result flag are unchanged |
| Contigs.IdentifiedIdsDistinct | breakmer/processor/target.py:414-418 | no two contigs of a target share an id |
| Contigs.WithResults | breakmer/processor/target.py:423-428 | the contigs with a result in input order, as a definition; `Contigs.WithResultsMembers`, `Contigs.WithResultsAppend` and `Contigs.WithResultsEmpty` state its properties |
| Contigs.WithResultsMembers | breakmer/processor/target.py:423-428 | the collected contigs are exactly those with a result, and there are no more of them than contigs |
| Contigs.WithResultsAppend | breakmer/processor/target.py:423-428 | collecting keeps the input order |
| Contigs.WithResultsSnoc | breakmer/processor/target.py:423-428 | one more contig is appended exactly when it has a result |
| Contigs.WithResultsEmpty | breakmer/processor/target.py:423-436 | nothing is collected iff no contig has a result |
| Target.SetupRecs | breakmer/processor/target.py:48-54 | the sample's entry is reset to `None`; the other samples' entries are kept, unless the dictionary was unset or empty |
| Target.WithCleaned | breakmer/processor/target.py:277-278 | after cleaning a sample, its entry holds the cleaned records and every other entry is as before |
| Target.SampleError | breakmer/processor/target.py:370-380 | the sample loads raise iff the sample, the soft-clipped sample or (when given) the normal load raises |
| Target.CompareError | breakmer/processor/target.py:357-380 | `compare_kmers` raises iff one of its loads raises, the reference's first |
| Target.SampleMaps | breakmer/processor/target.py:370-373 | the sample dictionary is stored however far it loaded; the soft-clipped one only if the sample load succeeded; other slots are kept |
| Target.MapsOnError | breakmer/processor/target.py:356-373 | on an exception the reference slot holds what was loaded; later slots are stored only if the loads before them succeeded |
| Target.AllSlotsCleared | breakmer/processor/target.py:395-397 | once all four slots are emptied, `variation.kmers` holds only empty dictionaries |
| Target.Variation.constructor | breakmer/processor/target.py:39-46 | a new record has no reads, no cleaned records, no kmer dictionaries, no clusters and no results |
| Target.Variation.SetupCleanedReads | breakmer/processor/target.py:48-54 | sets `cleaned_read_recs` as `SetupRecs` describes |
| Target.Variation.ClearSvReads | breakmer/processor/target.py:56-59 | empties the sample's extracted reads and nothing else |
| Target.Variation.ClearCleanedReads | breakmer/processor/target.py:61-64 | unsets the cleaned records |
| Target.Variation.GetSvReads | breakmer/processor/target.py:75-78 | the sample's extracted reads |
| Target.Variation.ContinueAnalysisCheck | breakmer/processor/target.py:66-73 | true iff the sample's cleaned records are non-empty |
| Target.Variation.AddResult | breakmer/processor/target.py:80-83 | appends the contig to the results |
| Target.TargetManager.constructor | breakmer/processor/target.py:109-122 | a new target has a fresh `Variation` and spans the merge of its intervals: the first chromosome, the least start, the greatest end |
| Target.TargetManager.Setup | breakmer/processor/target.py:124-143 | the interval loop leaves the bounds equal to the merge of the intervals, continued from the current bounds |
| Target.TargetManager.ExtractBamReads | breakmer/processor/target.py:284-303 | stores the sample's reads taken from the target widened by 200 bases on both sides; no other sample's reads change |
| Target.TargetManager.CleanReads | breakmer/processor/target.py:254-282 | stores the cleaned records and read length, empties the extracted reads, and returns whether any cleaned record is left |
| Target.TargetManager.FindSvReads | breakmer/processor/target.py:227-252 | cleans the normal only when one is configured; returns false iff cleaning the tumour leaves no read, and only then removes the output directory; the read length is the tumour's |
| Target.TargetManager.CleanNormal | breakmer/processor/target.py:240-243 | the normal is extracted and cleaned only when a normal BAM is given; otherwise nothing changes |
| Target.TargetManager.RmOutputDir | breakmer/processor/target.py:460-461 | the output directory no longer exists |
| Target.TargetManager.CompareKmers | breakmer/processor/target.py:348-405 | raises iff a load raises, leaving the dictionaries as far as they got; otherwise empties all four dictionaries and the cleaned records, assembles from `case_only` and the tumour records, and writes a sample kmer file that reads back as `case_only` |
| Target.TargetManager.LoadReference | breakmer/processor/target.py:356-360 | loads every reference dump into one dictionary, stopping at the first exception, and keeps it in the `ref` slot |
| Target.TargetManager.LoadSampleKmers | breakmer/processor/target.py:369-380 | loads the sample and soft-clipped sample into their slots, and the normal only when configured |
| Target.TargetManager.LoadIntoSlot | breakmer/processor/target.py:370-373 | the slot is reset and then holds the dictionary as far as it loaded |
| Target.TargetManager.AssembleSampleOnly | breakmer/processor/target.py:384-405 | writes the sample-only kmers, empties the four dictionaries, passes `case_only` to the assembler and clears the cleaned records |
| Target.TargetManager.ResolveSv | breakmer/processor/target.py:407-429 | the contigs get ids `contig1..contigN` by position and the target values; the results grow by exactly the contigs with a result, in order |
| Target.TargetManager.CompleteAnalysis | breakmer/processor/target.py:431-436 | results are written iff there are any; otherwise the output directory is removed |
| Target.TargetManager.GetTargetIntervals | breakmer/processor/target.py:438-441 | the target's intervals |
| Target.TargetManager.GetValues | breakmer/processor/target.py:443-446 | chromosome, start, end, name and intervals, the values `Target.TargetManager.ResolveSv` attaches to each contig |
| Target.TargetManager.GetSvReads | breakmer/processor/target.py:448-450 | delegates to the record: the sample's extracted reads |
| Target.TargetManager.ClearSvReads | breakmer/processor/target.py:452-454 | delegates to the record: empties the sample's extracted reads |
| Target.TargetManager.ClearCleanedReads | breakmer/processor/target.py:456-458 | delegates to the record: unsets the cleaned records |
| Target.TargetManager.AddResult | breakmer/processor/target.py:463-464 | delegates to the record: appends the contig to the results |
| Target.LoadEachSticky | breakmer/processor/target.py:357-360 | once a reference dump raises, the later dumps are not read |

## Left out

- File and directory I/O. Files are a name-to-text map and the output directory is a boolean.
  - Opening a missing file is the `MissingFile` error.
  - `shutil.rmtree` on a directory that is already gone would raise; this is not modelled.
  - `os.makedirs`, the reference-fasta marker file (lines 156-158), `add_path` and `set_ref_data` are not modelled: they build paths and write files.
- Path and file-name construction (lines 145-154, 172, 273, 324-346, 385, 400), and the `paths`/`files` dictionaries.
- External tools are parameters of the methods that call them:
  - jellyfish: the model takes the dump names it returns;
  - cutadapt and `utils.get_fastq_reads`: `clean`;
  - `bam_handler.get_variant_reads`: `bam`;
  - `check_clippings`, `write_seqs` and pysam's BAM writing, sorting and indexing are left out;
  - `assembly.init_assembly`: `assemble`;
  - the contig methods `set_meta_information`, `query_ref`, `make_calls`, `write_result` and `write_bam` are not modelled; `hasResult` stands for what `has_result` returns after them. These tools are not part of this model.
- The deprecated alternate-reference blocks inside string literals (lines 160-170, 195-225). Also the `target_altref_fn` loop at lines 362-366: that key is only set inside the deprecated block, so the loop never runs.
- Logging throughout, and the `preset_ref_data` branch of path setup.
- The `Variation` fields `sv_reads`, `kmer_clusters` and `svs`: nothing in this file reads or writes them. `kmers['clusters']` holds contigs rather than kmer counts, so it is the separate field `Variation.clusters`.
- Text.Lines: file iteration in universal-newline mode (`'rU'`) would also end a line at a lone `\r`. The model splits on `\n` only; `str.split()` still drops a trailing `\r`.
- Text.Words, Text.ParseInt: ASCII whitespace and ASCII digits only. Python also accepts Unicode whitespace and digits, and surrounding whitespace in `int()`.
- Kmers.LoadKmers: `fns` of `None` is modelled as the empty string, which the source treats the same way.
- Kmers.WriteSampleKmers: the order of the lines is the iteration order of the set, which the model leaves unspecified (the ghost `order`).
- Target.TargetManager.CompareKmers: requires the tumour's cleaned records to exist. Without them the source raises at line 403 only after writing the file; that path is not modelled.
- Target.TargetManager.ResolveSv: requires the clusters to exist. Before `compare_kmers` has finished, line 412 raises KeyError; that path is not modelled.
- Target.TargetManager.ExtractBamReads: requires the bounds to be set, as the arithmetic at lines 299-300 does.

## Findings

| source | as written | input that shows it | evidently intended | confidence | as-written member | corrected member |
|---|---|---|---|---|---|---|
| breakmer/processor/target.py:134-139 | `if not self.start` (and `self.end`, `self.chrom`) treat 0 or an empty name as unset, so a bound of 0 is overwritten by the next interval | intervals `[(chr1, 0, 100), (chr1, 50, 200)]` give start 50 | start is the least interval start, 0 here | not executed | Intervals.MergeAsWrittenLosesZeroStart | Intervals.MergeIsHull |
