/** The per-target state of the analysis (breakmer/processor/target.py:35-464): the
    `Variation` record of reads, cleaned reads, kmer dictionaries and results, and
    the `TargetManager` that fills it in through read extraction, cleaning, kmer
    comparison and contig resolution. Everything outside the file — the BAM reader,
    cutadapt, jellyfish, the assembler and the contigs' own analysis — is a parameter. */
module Target {
  import opened Text
  import opened Kmers
  import opened Intervals
  import opened Contigs

  /** The two samples reads are taken from: the tumour (`'sv'`) and the normal (`'norm'`). */
  datatype SampleType = Sv | Norm

  datatype Read = Read(name: string, sequence: string)

  /** What reading the cleaned fastq gives: the records kept and the read length. */
  datatype CleanedReads = CleanedReads(records: seq<Read>, readLen: int)

  /** The kmer dictionaries `compare_kmers` keeps in `variation.kmers`. */
  datatype KmerSlot = RefKmers | CaseKmers | CaseScKmers | CaseOnlyKmers

  /** The arguments `compare_kmers` hands to the assembler. */
  datatype AssemblyInput = AssemblyInput(kmers: KmerCounts, records: Option<seq<Read>>,
                                         kmerSize: int, minSupport: int, readLen: int)

  /** `cleaned_read_recs`: unset, or a dictionary from sample to its records (`None`
      while the sample is being cleaned). */
  type CleanedRecs = Option<map<SampleType, Option<seq<Read>>>>

  /** `setup_cleaned_reads`: an unset or empty dictionary starts afresh, and the
      sample's entry is reset; every other sample's entry is kept. */
  function SetupRecs(recs: CleanedRecs, t: SampleType): (r: map<SampleType, Option<seq<Read>>>)
    ensures t in r && r[t] == None
    ensures recs.Some? ==> recs.value.Keys <= r.Keys
    ensures forall u :: u in r && u != t ==> recs.Some? && u in recs.value && r[u] == recs.value[u]
  {
    (if recs.None? || recs.value == map[] then map[] else recs.value)[t := None]
  }

  /** The records after cleaning sample `t`: its entry now holds the cleaned reads. */
  function WithCleaned(recs: CleanedRecs, t: SampleType, cleaned: seq<Read>): (r: CleanedRecs)
    ensures r.Some? && t in r.value && r.value[t] == Some(cleaned)
    ensures forall u :: u != t && recs.Some? && u in recs.value ==> u in r.value && r.value[u] == recs.value[u]
    ensures forall u :: u != t && u in r.value ==> recs.Some? && u in recs.value
  {
    Some(SetupRecs(recs, t)[t := Some(cleaned)])
  }

  /** The exception raised after the reference loaded: the sample, then the
      soft-clipped sample, then (when configured) the normal. */
  function SampleError(case_: Loaded, sc: Loaded, norm: Option<Loaded>): (e: Option<LoadError>)
    ensures e.None? <==> case_.error.None? && sc.error.None? && (norm.Some? ==> norm.value.error.None?)
    ensures case_.error.Some? ==> e == case_.error
  {
    if case_.error.Some? then case_.error
    else if sc.error.Some? then sc.error
    else if norm.Some? then norm.value.error
    else None
  }

  /** The exception `compare_kmers` raises, if any: the reference's, else the samples'. */
  function CompareError(ref: Loaded, case_: Loaded, sc: Loaded, norm: Option<Loaded>): (e: Option<LoadError>)
    ensures e.None? <==> ref.error.None? && case_.error.None? && sc.error.None? && (norm.Some? ==> norm.value.error.None?)
    ensures ref.error.Some? ==> e == ref.error
  {
    if ref.error.Some? then ref.error else SampleError(case_, sc, norm)
  }

  /** `variation.kmers` after the sample loads: the sample dictionary, and the
      soft-clipped one unless the sample load raised; each as far as it got. */
  function SampleMaps(m: map<KmerSlot, KmerCounts>, case_: Loaded, sc: Loaded): (r: map<KmerSlot, KmerCounts>)
    ensures CaseKmers in r && r[CaseKmers] == case_.kmers
    ensures case_.error.None? ==> CaseScKmers in r && r[CaseScKmers] == sc.kmers
    ensures forall s :: s in m ==> s in r
    ensures forall s :: s in r && s != CaseKmers && (case_.error.Some? || s != CaseScKmers) ==> s in m && r[s] == m[s]
  {
    var m1 := m[CaseKmers := case_.kmers];
    if case_.error.Some? then m1 else m1[CaseScKmers := sc.kmers]
  }

  /** `variation.kmers` when `compare_kmers` raises: the dictionary being loaded is
      left half-filled, the ones after it are untouched. */
  function MapsOnError(m: map<KmerSlot, KmerCounts>, ref: Loaded, case_: Loaded, sc: Loaded): (r: map<KmerSlot, KmerCounts>)
    ensures RefKmers in r && r[RefKmers] == ref.kmers
    ensures ref.error.None? ==> CaseKmers in r && r[CaseKmers] == case_.kmers
    ensures ref.error.None? && case_.error.None? ==> CaseScKmers in r && r[CaseScKmers] == sc.kmers
    ensures forall s :: s in m ==> s in r
    ensures forall s :: (s in r && s != RefKmers && (ref.error.Some? || s != CaseKmers)
                          && (ref.error.Some? || case_.error.Some? || s != CaseScKmers)) ==> s in m && r[s] == m[s]
  {
    var m1 := m[RefKmers := ref.kmers];
    if ref.error.Some? then m1 else SampleMaps(m1, case_, sc)
  }

  /** A dictionary with every kmer slot present and empty is the all-empty one. */
  lemma AllSlotsCleared(m: map<KmerSlot, KmerCounts>)
    requires RefKmers in m && CaseKmers in m && CaseScKmers in m && CaseOnlyKmers in m
    requires m[RefKmers] == m[CaseKmers] == m[CaseScKmers] == m[CaseOnlyKmers] == map[]
    ensures m == map[RefKmers := map[], CaseKmers := map[], CaseScKmers := map[], CaseOnlyKmers := map[]]
  {
    var e := map[RefKmers := map[], CaseKmers := map[], CaseScKmers := map[], CaseOnlyKmers := map[]];
    forall s ensures s in m && s in e && m[s] == e[s] {
      match s
      case RefKmers =>
      case CaseKmers =>
      case CaseScKmers =>
      case CaseOnlyKmers =>
    }
  }

  /** The reads, cleaned reads, kmer dictionaries and results of one target. */
  class Variation {
    /** The sample reads extracted from each BAM file (the `sv` list of each). */
    var varReads: map<SampleType, seq<Read>>
    var cleanedReadRecs: CleanedRecs
    var kmerMaps: map<KmerSlot, KmerCounts>
    /** `kmers['clusters']`: the assembled contigs, once `compare_kmers` has run. */
    var clusters: Option<seq<Contig>>
    var results: seq<Contig>

    constructor ()
      ensures varReads == map[] && cleanedReadRecs == None && kmerMaps == map[]
      ensures clusters == None && results == []
    {
      varReads := map[];
      cleanedReadRecs := None;
      kmerMaps := map[];
      clusters := None;
      results := [];
    }

    /** The state change of `setup_cleaned_reads`, whose effect on the dictionary
        is defined once, by `SetupRecs`. */
    method SetupCleanedReads(t: SampleType)
      modifies this`cleanedReadRecs
      ensures cleanedReadRecs == Some(SetupRecs(old(cleanedReadRecs), t))
    {
      if cleanedReadRecs.None? || cleanedReadRecs.value == map[] {
        cleanedReadRecs := Some(map[]);
      }
      cleanedReadRecs := Some(cleanedReadRecs.value[t := None]);
    }

    /** Empties the sample's extracted reads. */
    method ClearSvReads(t: SampleType)
      requires t in varReads
      modifies this`varReads
      ensures varReads == old(varReads)[t := []]
    {
      varReads := varReads[t := []];
    }

    method ClearCleanedReads()
      modifies this`cleanedReadRecs
      ensures cleanedReadRecs == None
    {
      cleanedReadRecs := None;
    }

    /** Whether any cleaned read of the sample is left: `len` of its records. */
    function ContinueAnalysisCheck(t: SampleType): (check: bool)
      reads this
      requires cleanedReadRecs.Some? && t in cleanedReadRecs.value && cleanedReadRecs.value[t].Some?
      ensures check <==> cleanedReadRecs.value[t].value != []
    {
      |cleanedReadRecs.value[t].value| != 0
    }

    function GetSvReads(t: SampleType): seq<Read>
      reads this
      requires t in varReads
    {
      varReads[t]
    }

    method AddResult(c: Contig)
      modifies this`results
      ensures results == old(results) + [c]
    {
      results := results + [c];
    }
  }

  /** One target: its name and intervals, the region they span, and the analysis
      state in `variation`. The output directory and the results file are flags. */
  class TargetManager {
    const name: string
    const intervals: seq<Interval>
    /** Whether a normal BAM file was given. */
    const normalConfigured: bool
    const kmerSize: int
    /** The minimum split-read support passed to the assembler. */
    const minSupport: int
    const variation: Variation
    var chrom: Option<string>
    var start: Option<int>
    var end: Option<int>
    var readLen: int
    var outputDirExists: bool
    /** The sample-only kmer file, once written. */
    var sampleKmersText: Option<string>
    var resultsWritten: bool

    /** A new target spans the merge of its intervals: the first interval's
        chromosome, the smallest start and the largest end. */
    constructor (name: string, intervals: seq<Interval>, normalConfigured: bool, kmerSize: int, minSupport: int)
      ensures this.name == name && this.intervals == intervals && this.normalConfigured == normalConfigured
      ensures this.kmerSize == kmerSize && this.minSupport == minSupport
      ensures fresh(variation)
      ensures variation.varReads == map[] && variation.cleanedReadRecs == None && variation.kmerMaps == map[]
      ensures variation.clusters == None && variation.results == []
      ensures Bounds(chrom, start, end) == Merge(intervals)
      ensures |intervals| > 0 ==>
        && chrom == Some(intervals[0].chrom) && start.Some? && end.Some?
        && forall i :: 0 <= i < |intervals| ==> start.value <= intervals[i].start && intervals[i].end <= end.value
      ensures readLen == 0 && outputDirExists && sampleKmersText == None && !resultsWritten
    {
      this.name := name;
      this.intervals := intervals;
      this.normalConfigured := normalConfigured;
      this.kmerSize := kmerSize;
      this.minSupport := minSupport;
      variation := new Variation();
      chrom, start, end := None, None, None;
      readLen := 0;
      outputDirExists := true;
      sampleKmersText := None;
      resultsWritten := false;
      new;
      Setup();
      if |intervals| > 0 {
        MergeIsHull(intervals);
      }
    }

    /** The interval loop of `setup`, continuing from the current bounds. */
    method Setup()
      modifies this`chrom, this`start, this`end
      ensures Bounds(chrom, start, end) == MergeFrom(old(Bounds(chrom, start, end)), intervals)
    {
      ghost var b0 := Bounds(chrom, start, end);
      for i := 0 to |intervals|
        invariant Bounds(chrom, start, end) == MergeFrom(b0, intervals[..i])
      {
        var iv := intervals[i];
        if chrom.None? {
          chrom := Some(iv.chrom);
        }
        if start.None? {
          start := Some(iv.start);
        }
        if end.None? {
          end := Some(iv.end);
        }
        if iv.start < start.value {
          start := Some(iv.start);
        }
        if iv.end > end.value {
          end := Some(iv.end);
        }
        assert intervals[..i + 1][..i] == intervals[..i];
      }
      assert intervals[..|intervals|] == intervals;
    }

    function GetTargetIntervals(): seq<Interval>
    {
      intervals
    }

    /** `get_values`: chromosome, start, end, name and intervals. */
    function GetValues(): TargetValues
      reads this
    {
      TargetValues(chrom, start, end, name, GetTargetIntervals())
    }

    /** Reads of sample `t` from the target region widened by the buffer. */
    method ExtractBamReads(t: SampleType, bam: (SampleType, Region) -> seq<Read>)
      requires chrom.Some? && start.Some? && end.Some?
      modifies variation`varReads
      ensures variation.varReads == old(variation.varReads)[t := bam(t, ReadRegion(Bounds(chrom, start, end)))]
    {
      var region := Region(chrom.value, start.value - RegionBuffer, end.value + RegionBuffer);
      variation.varReads := variation.varReads[t := bam(t, region)];
    }

    /** Cleans sample `t`'s extracted reads into its cleaned records, takes the read
        length from them, empties the extracted reads and reports whether any
        cleaned read is left. */
    method CleanReads(t: SampleType, clean: (SampleType, seq<Read>) -> CleanedReads) returns (check: bool)
      requires t in variation.varReads
      modifies this`readLen, variation`cleanedReadRecs, variation`varReads
      ensures var c := clean(t, old(variation.varReads[t]));
        && variation.cleanedReadRecs == WithCleaned(old(variation.cleanedReadRecs), t, c.records)
        && readLen == c.readLen
        && variation.varReads == old(variation.varReads)[t := []]
        && (check <==> c.records != [])
    {
      variation.SetupCleanedReads(t);
      var c := clean(t, GetSvReads(t));
      variation.cleanedReadRecs := Some(variation.cleanedReadRecs.value[t := Some(c.records)]);
      readLen := c.readLen;
      ClearSvReads(t);
      check := variation.ContinueAnalysisCheck(t);
    }

    /** Extracts and cleans the tumour reads (and the normal reads first, when a
        normal BAM is given); with no tumour read left the output directory is
        removed and the analysis stops. */
    method FindSvReads(bam: (SampleType, Region) -> seq<Read>, clean: (SampleType, seq<Read>) -> CleanedReads)
      returns (check: bool)
      requires chrom.Some? && start.Some? && end.Some?
      modifies this`readLen, this`outputDirExists, variation`varReads, variation`cleanedReadRecs
      ensures var sv := clean(Sv, bam(Sv, ReadRegion(Bounds(chrom, start, end))));
        && (check <==> sv.records != [])
        && readLen == sv.readLen
      ensures outputDirExists == (old(outputDirExists) && check)
      ensures var norm := clean(Norm, bam(Norm, ReadRegion(Bounds(chrom, start, end))));
        var sv := clean(Sv, bam(Sv, ReadRegion(Bounds(chrom, start, end))));
        variation.cleanedReadRecs ==
          WithCleaned(if normalConfigured then WithCleaned(old(variation.cleanedReadRecs), Norm, norm.records)
                      else old(variation.cleanedReadRecs), Sv, sv.records)
      ensures Sv in variation.varReads && variation.varReads[Sv] == []
      ensures normalConfigured ==> Norm in variation.varReads && variation.varReads[Norm] == []
      ensures !normalConfigured ==> (Norm in variation.varReads <==> Norm in old(variation.varReads))
      ensures !normalConfigured && Norm in old(variation.varReads) ==> variation.varReads[Norm] == old(variation.varReads[Norm])
    {
      ExtractBamReads(Sv, bam);
      CleanNormal(bam, clean);
      check := CleanReads(Sv, clean);
      if !check {
        RmOutputDir();
      }
    }

    /** The normal sample's part of `find_sv_reads`: extracted and cleaned only when
        a normal BAM is given; the tumour's reads are not touched. */
    method CleanNormal(bam: (SampleType, Region) -> seq<Read>, clean: (SampleType, seq<Read>) -> CleanedReads)
      requires chrom.Some? && start.Some? && end.Some?
      modifies this`readLen, variation`varReads, variation`cleanedReadRecs
      ensures normalConfigured ==>
        && variation.varReads == old(variation.varReads)[Norm := []]
        && variation.cleanedReadRecs ==
             WithCleaned(old(variation.cleanedReadRecs), Norm, clean(Norm, bam(Norm, ReadRegion(Bounds(chrom, start, end)))).records)
        && readLen == clean(Norm, bam(Norm, ReadRegion(Bounds(chrom, start, end)))).readLen
      ensures !normalConfigured ==>
        && variation.varReads == old(variation.varReads)
        && variation.cleanedReadRecs == old(variation.cleanedReadRecs)
        && readLen == old(readLen)
    {
      if normalConfigured {
        ExtractBamReads(Norm, bam);
        var _ := CleanReads(Norm, clean);
      }
    }

    method RmOutputDir()
      modifies this`outputDirExists
      ensures !outputDirExists
    {
      outputDirExists := false;
    }

    /** Loads the reference kmers, then the sample's and the soft-clipped sample's,
        and the normal's when configured; keeps the sample kmers that are in both
        sample dictionaries and in neither the reference nor the normal, writes them
        to the sample kmer file and hands them to the assembler. */
    method CompareKmers(refDumps: seq<string>, caseDump: string, scDump: string, normDump: string,
                        fs: map<string, string>, assemble: AssemblyInput -> seq<Contig>)
      returns (err: Option<LoadError>, ghost written: seq<string>)
      requires variation.cleanedReadRecs.Some? && Sv in variation.cleanedReadRecs.value
      modifies this`sampleKmersText, variation`kmerMaps, variation`clusters, variation`cleanedReadRecs
      ensures var refL := LoadEach(refDumps, fs, map[]);
        var caseL := LoadKmersSpec(caseDump, fs, map[]);
        var scL := LoadKmersSpec(scDump, fs, map[]);
        var normL := if normalConfigured then Some(LoadKmersSpec(normDump, fs, map[])) else None;
        && err == CompareError(refL, caseL, scL, normL)
        && (err.Some? ==>
              && variation.kmerMaps == MapsOnError(old(variation.kmerMaps), refL, caseL, scL)
              && sampleKmersText == old(sampleKmersText)
              && variation.clusters == old(variation.clusters)
              && variation.cleanedReadRecs == old(variation.cleanedReadRecs))
        && (err.None? ==>
              var co := CaseOnly(caseL.kmers, scL.kmers, refL.kmers,
                                 if normalConfigured then Some(normL.value.kmers) else None);
              && variation.kmerMaps == map[RefKmers := map[], CaseKmers := map[], CaseScKmers := map[], CaseOnlyKmers := map[]]
              && variation.clusters == Some(assemble(AssemblyInput(co, old(variation.cleanedReadRecs).value[Sv],
                                                                   kmerSize, minSupport, readLen)))
              && variation.cleanedReadRecs == None
              && Enumerates(written, co)
              && sampleKmersText == Some(WriteLines(KmerLines(written, co)))
              && AddLines(map[], Lines(sampleKmersText.value)) == Loaded(co, None))
    {
      written := [];
      var ref, caseMers, scMers, norm;
      ref, err := LoadReference(refDumps, fs);
      if err.Some? {
        return;
      }
      caseMers, scMers, norm, err := LoadSampleKmers(caseDump, scDump, normDump, fs);
      if err.Some? {
        return;
      }
      LoadKmersGrows(caseDump, fs, map[]);
      written := AssembleSampleOnly(caseMers, scMers, ref, norm, assemble);
    }

    /** The sample, soft-clipped sample and normal loads of `compare_kmers`; the
        first two are kept in `variation.kmers` as they fill, the normal's is local. */
    method LoadSampleKmers(caseDump: string, scDump: string, normDump: string, fs: map<string, string>)
      returns (caseMers: KmerCounts, scMers: KmerCounts, norm: Option<KmerCounts>, err: Option<LoadError>)
      modifies variation`kmerMaps
      ensures var caseL := LoadKmersSpec(caseDump, fs, map[]);
        var scL := LoadKmersSpec(scDump, fs, map[]);
        var normL := if normalConfigured then Some(LoadKmersSpec(normDump, fs, map[])) else None;
        && err == SampleError(caseL, scL, normL)
        && variation.kmerMaps == SampleMaps(old(variation.kmerMaps), caseL, scL)
        && (err.None? ==>
              caseMers == caseL.kmers && scMers == scL.kmers
              && norm == if normalConfigured then Some(normL.value.kmers) else None)
    {
      scMers, norm := map[], None;
      caseMers, err := LoadIntoSlot(CaseKmers, caseDump, fs);
      if err.Some? {
        return;
      }
      scMers, err := LoadIntoSlot(CaseScKmers, scDump, fs);
      if err.Some? {
        return;
      }
      if normalConfigured {
        var r;
        r, err := LoadKmers(normDump, fs, map[]);
        norm := Some(r);
      }
    }

    /** `kmers[slot] = {}` followed by `load_kmers` into it: the dictionary is kept
        in `variation.kmers` however far the load gets. */
    method LoadIntoSlot(slot: KmerSlot, dump: string, fs: map<string, string>)
      returns (mers: KmerCounts, err: Option<LoadError>)
      modifies variation`kmerMaps
      ensures Loaded(mers, err) == LoadKmersSpec(dump, fs, map[])
      ensures variation.kmerMaps == old(variation.kmerMaps)[slot := mers]
    {
      variation.kmerMaps := variation.kmerMaps[slot := map[]];
      mers, err := LoadKmers(dump, fs, map[]);
      variation.kmerMaps := variation.kmerMaps[slot := mers];
    }

    /** The end of `compare_kmers`: writes the sample-only kmers, empties the kmer
        dictionaries, assembles and clears the cleaned reads. */
    method AssembleSampleOnly(caseMers: KmerCounts, scMers: KmerCounts, ref: KmerCounts, norm: Option<KmerCounts>,
                              assemble: AssemblyInput -> seq<Contig>)
      returns (ghost written: seq<string>)
      requires variation.cleanedReadRecs.Some? && Sv in variation.cleanedReadRecs.value
      modifies this`sampleKmersText, variation`kmerMaps, variation`clusters, variation`cleanedReadRecs
      ensures var co := CaseOnly(caseMers, scMers, ref, norm);
        && variation.kmerMaps == map[RefKmers := map[], CaseKmers := map[], CaseScKmers := map[], CaseOnlyKmers := map[]]
        && variation.clusters == Some(assemble(AssemblyInput(co, old(variation.cleanedReadRecs).value[Sv],
                                                             kmerSize, minSupport, readLen)))
        && variation.cleanedReadRecs == None
        && Enumerates(written, co)
        && sampleKmersText == Some(WriteLines(KmerLines(written, co)))
        && (TokenKeys(caseMers) ==> AddLines(map[], Lines(sampleKmersText.value)) == Loaded(co, None))
    {
      var mers := SampleOnlyMers(caseMers, scMers, ref, norm);
      var text, caseOnly;
      text, caseOnly, written := WriteSampleKmers(mers, caseMers);
      sampleKmersText := Some(text);
      variation.kmerMaps := variation.kmerMaps[CaseOnlyKmers := caseOnly];
      variation.kmerMaps := variation.kmerMaps[RefKmers := map[]][CaseKmers := map[]][CaseScKmers := map[]];
      variation.clusters := Some(assemble(AssemblyInput(caseOnly, variation.cleanedReadRecs.value[Sv],
                                                        kmerSize, minSupport, readLen)));
      ClearCleanedReads();
      variation.kmerMaps := variation.kmerMaps[CaseOnlyKmers := map[]];
      assert caseOnly == CaseOnly(caseMers, scMers, ref, norm);
      AllSlotsCleared(variation.kmerMaps);
      if TokenKeys(caseMers) {
        KmerFileRoundTrip(written, caseOnly);
      }
    }

    /** The reference loop of `compare_kmers`: every reference dump into one
        dictionary, kept in `variation.kmers['ref']` as it fills. */
    method LoadReference(refDumps: seq<string>, fs: map<string, string>)
      returns (ref: KmerCounts, err: Option<LoadError>)
      modifies variation`kmerMaps
      ensures Loaded(ref, err) == LoadEach(refDumps, fs, map[])
      ensures variation.kmerMaps == old(variation.kmerMaps)[RefKmers := ref]
    {
      ref, err := map[], None;
      variation.kmerMaps := variation.kmerMaps[RefKmers := ref];
      var i := 0;
      while i < |refDumps|
        invariant 0 <= i <= |refDumps|
        invariant err.None? && Loaded(ref, None) == LoadEach(refDumps[..i], fs, map[])
        invariant variation.kmerMaps == old(variation.kmerMaps)[RefKmers := ref]
      {
        assert refDumps[..i + 1][..i] == refDumps[..i];
        ref, err := LoadKmers(refDumps[i], fs, ref);
        variation.kmerMaps := variation.kmerMaps[RefKmers := ref];
        if err.Some? {
          LoadEachSticky(refDumps, fs, i + 1);
          return;
        }
        i := i + 1;
      }
      assert refDumps[..i] == refDumps;
    }

    /** Gives each contig its id `contig<i>` and the target's values, and collects
        the contigs that have a result. */
    method ResolveSv()
      requires variation.clusters.Some?
      modifies variation`clusters, variation`results
      ensures variation.clusters == Some(Identified(old(variation.clusters.value), GetValues()))
      ensures variation.results == old(variation.results) + WithResults(Identified(old(variation.clusters.value), GetValues()))
    {
      var values := GetValues();
      var contigs := variation.clusters.value;
      ghost var cs0 := contigs;
      ghost var results0 := variation.results;
      var iter := 1;
      for i := 0 to |contigs|
        invariant iter == i + 1 && |contigs| == |cs0|
        invariant forall j :: 0 <= j < i ==> contigs[j] == cs0[j].(meta := Some(ContigMeta(ContigId(j + 1), values)))
        invariant forall j :: i <= j < |contigs| ==> contigs[j] == cs0[j]
        invariant variation.results == results0 + WithResults(contigs[..i])
        invariant variation.clusters == old(variation.clusters)
      {
        var contig := contigs[i].(meta := Some(ContigMeta(ContigId(iter), values)));
        WithResultsSnoc(contigs[..i], contig);
        ghost var front := contigs[..i];
        contigs := contigs[i := contig];
        assert contigs[..i + 1] == front + [contig];
        if contig.hasResult {
          AddResult(contig);
        }
        iter := iter + 1;
      }
      assert contigs[..|contigs|] == contigs == Identified(cs0, values);
      variation.clusters := Some(contigs);
    }

    /** With results they are written out; without, the output directory is removed. */
    method CompleteAnalysis()
      modifies this`resultsWritten, this`outputDirExists
      ensures resultsWritten == (old(resultsWritten) || variation.results != [])
      ensures outputDirExists == (old(outputDirExists) && variation.results != [])
    {
      if |variation.results| > 0 {
        resultsWritten := true;
      } else {
        RmOutputDir();
      }
    }

    function GetSvReads(t: SampleType): seq<Read>
      reads this, variation
      requires t in variation.varReads
    {
      variation.GetSvReads(t)
    }

    method ClearSvReads(t: SampleType)
      requires t in variation.varReads
      modifies variation`varReads
      ensures variation.varReads == old(variation.varReads)[t := []]
    {
      variation.ClearSvReads(t);
    }

    method ClearCleanedReads()
      modifies variation`cleanedReadRecs
      ensures variation.cleanedReadRecs == None
    {
      variation.ClearCleanedReads();
    }

    method AddResult(c: Contig)
      modifies variation`results
      ensures variation.results == old(variation.results) + [c]
    {
      variation.AddResult(c);
    }
  }

  /** Once a reference dump fails to load, the later dumps are not read. */
  lemma {:induction false} LoadEachSticky(dumps: seq<string>, fs: map<string, string>, k: nat)
    requires k <= |dumps|
    requires LoadEach(dumps[..k], fs, map[]).error.Some?
    ensures LoadEach(dumps, fs, map[]) == LoadEach(dumps[..k], fs, map[])
    decreases |dumps| - k
  {
    if k < |dumps| {
      var n := |dumps|;
      assert dumps[..n - 1][..k] == dumps[..k];
      LoadEachSticky(dumps[..n - 1], fs, k);
    } else {
      assert dumps[..k] == dumps;
    }
  }
}
