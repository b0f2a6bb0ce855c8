/** Kmer count files: `load_kmers` (breakmer/processor/target.py:17-32), the
    sample-kmer file written by `compare_kmers` (lines 385-392), and the set
    differencing that decides which kmers are specific to the sample (lines 374-382). */
module Kmers {
  import opened Text

  /** A kmer dictionary: mer string to accumulated count. */
  type KmerCounts = map<string, int>

  /** The exceptions `load_kmers` can raise. */
  datatype LoadError =
    | MissingFile(name: string)    // open(fn) raises IOError
    | MalformedLine(line: string)  // `mer, count = line.split()` does not unpack
    | BadCount(line: string)       // int(count) raises ValueError

  /** The dictionary as `load_kmers` leaves it (it is updated in place, so its
      state survives an exception) and the exception raised, if any. */
  datatype Loaded = Loaded(kmers: KmerCounts, error: Option<LoadError>)

  /** The count a mer starts from: its current count, or 0 when absent. */
  function Prior(m: KmerCounts, mer: string): int
  {
    if mer in m then m[mer] else 0
  }

  // ---------------------------------------------------------------------------
  // Reading

  /** One turn of the inner loop: split the stripped line into `mer, count`, add
      the mer with count 0 when absent, then add `int(count)`. When `int` fails the
      mer has already been added. */
  function AddLine(m: KmerCounts, line: string): Loaded
  {
    var w := Words(line);
    if |w| != 2 then Loaded(m, Some(MalformedLine(line)))
    else
      var mer := w[0];
      var m' := if mer in m then m else m[mer := 0];
      match ParseInt(w[1])
      case None => Loaded(m', Some(BadCount(line)))
      case Some(c) => Loaded(m'[mer := m'[mer] + c], None)
  }

  /** The lines of one file, in order, until the first one that raises. */
  function AddLines(m: KmerCounts, lines: seq<string>): Loaded
  {
    if lines == [] then Loaded(m, None)
    else
      var r := AddLines(m, lines[..|lines| - 1]);
      if r.error.Some? then r else AddLine(r.kmers, lines[|lines| - 1])
  }

  /** The files, in order, until the first one that is missing or raises. */
  function LoadFiles(m: KmerCounts, names: seq<string>, fs: map<string, string>): Loaded
  {
    if names == [] then Loaded(m, None)
    else
      var r := LoadFiles(m, names[..|names| - 1], fs);
      var name := names[|names| - 1];
      if r.error.Some? then r
      else if name !in fs then Loaded(r.kmers, Some(MissingFile(name)))
      else AddLines(r.kmers, Lines(fs[name]))
  }

  /** What `load_kmers(fns, kmers)` does, with `fs` giving the text of each file:
      an empty (or absent) `fns` leaves the dictionary alone, any other is split on
      commas into file names. */
  function LoadKmersSpec(fns: string, fs: map<string, string>, m: KmerCounts): Loaded
  {
    if fns == "" then Loaded(m, None) else LoadFiles(m, Split(fns, ','), fs)
  }

  /** `load_kmers`: no file names leave the dictionary as it is; otherwise the
      names are split on commas and read in order by `LoadFileNames`. */
  method LoadKmers(fns: string, fs: map<string, string>, kmers: KmerCounts)
    returns (r: KmerCounts, err: Option<LoadError>)
    ensures Loaded(r, err) == LoadKmersSpec(fns, fs, kmers)
  {
    r, err := kmers, None;
    if fns == "" {
      return;
    }
    var names := Split(fns, ',');
    r, err := LoadFileNames(names, fs, kmers);
  }

  /** The loop of `load_kmers` over the file names, each file read by `AddFileLines`;
      a missing file raises before anything of it is read. */
  method LoadFileNames(names: seq<string>, fs: map<string, string>, kmers: KmerCounts)
    returns (r: KmerCounts, err: Option<LoadError>)
    ensures Loaded(r, err) == LoadFiles(kmers, names, fs)
  {
    r, err := kmers, None;
    var i := 0;
    while i < |names|
      invariant 0 <= i <= |names|
      invariant err.None? && LoadFiles(kmers, names[..i], fs) == Loaded(r, None)
    {
      var name := names[i];
      StepFiles(kmers, names, fs, i);
      if name !in fs {
        err := Some(MissingFile(name));
      } else {
        r, err := AddFileLines(Lines(fs[name]), r);
      }
      if err.Some? {
        LoadFilesSticky(kmers, names, fs, i + 1);
        assert names[..|names|] == names;
        return;
      }
      i := i + 1;
    }
    assert names[..|names|] == names;
  }

  /** The inner loop of `load_kmers` over the lines of one file, each line added
      by `AddKmerLine`. */
  method AddFileLines(lines: seq<string>, kmers: KmerCounts)
    returns (r: KmerCounts, err: Option<LoadError>)
    ensures Loaded(r, err) == AddLines(kmers, lines)
  {
    r, err := kmers, None;
    var j := 0;
    while j < |lines|
      invariant 0 <= j <= |lines|
      invariant err.None? && AddLines(kmers, lines[..j]) == Loaded(r, None)
    {
      StepLines(kmers, lines, j);
      r, err := AddKmerLine(lines[j], r);
      if err.Some? {
        AddLinesSticky(kmers, lines, j + 1);
        assert lines[..|lines|] == lines;
        return;
      }
      j := j + 1;
    }
    assert lines[..|lines|] == lines;
  }

  /** The body of the inner loop as the source writes it, updating the dictionary
      step by step; its effect is defined once, by the function `AddLine`, which
      the folds and the lemmas use. */
  method AddKmerLine(line: string, kmers: KmerCounts) returns (r: KmerCounts, err: Option<LoadError>)
    ensures Loaded(r, err) == AddLine(kmers, line)
  {
    r, err := kmers, None;
    var w := Words(line);
    if |w| != 2 {
      err := Some(MalformedLine(line));
      return;
    }
    var mer := w[0];
    if mer !in r {
      r := r[mer := 0];
    }
    var count := ParseInt(w[1]);
    if count.None? {
      err := Some(BadCount(line));
    } else {
      r := r[mer := r[mer] + count.value];
    }
  }

  lemma StepFiles(base: KmerCounts, names: seq<string>, fs: map<string, string>, i: nat)
    requires i < |names|
    requires LoadFiles(base, names[..i], fs).error.None?
    ensures var r := LoadFiles(base, names[..i], fs).kmers;
      LoadFiles(base, names[..i + 1], fs) ==
        if names[i] !in fs then Loaded(r, Some(MissingFile(names[i]))) else AddLines(r, Lines(fs[names[i]]))
  {
    assert names[..i + 1][..i] == names[..i];
  }

  lemma StepLines(base: KmerCounts, lines: seq<string>, j: nat)
    requires j < |lines|
    requires AddLines(base, lines[..j]).error.None?
    ensures AddLines(base, lines[..j + 1]) == AddLine(AddLines(base, lines[..j]).kmers, lines[j])
  {
    assert lines[..j + 1][..j] == lines[..j];
  }

  /** Once a line raises, the later lines are never read. */
  lemma {:induction false} AddLinesSticky(m: KmerCounts, lines: seq<string>, k: nat)
    requires k <= |lines|
    requires AddLines(m, lines[..k]).error.Some?
    ensures AddLines(m, lines) == AddLines(m, lines[..k])
    decreases |lines| - k
  {
    if k < |lines| {
      var n := |lines|;
      assert lines[..n][..n - 1] == lines[..n - 1];
      if k < n - 1 {
        assert lines[..n - 1][..k] == lines[..k];
        AddLinesSticky(m, lines[..n - 1], k);
      } else {
        assert lines[..k] == lines[..n - 1];
      }
    } else {
      assert lines[..k] == lines;
    }
  }

  /** Once a file is missing or raises, the later files are never opened. */
  lemma {:induction false} LoadFilesSticky(m: KmerCounts, names: seq<string>, fs: map<string, string>, k: nat)
    requires k <= |names|
    requires LoadFiles(m, names[..k], fs).error.Some?
    ensures LoadFiles(m, names, fs) == LoadFiles(m, names[..k], fs)
    decreases |names| - k
  {
    if k < |names| {
      var n := |names|;
      if k < n - 1 {
        assert names[..n - 1][..k] == names[..k];
        LoadFilesSticky(m, names[..n - 1], fs, k);
      } else {
        assert names[..k] == names[..n - 1];
      }
    } else {
      assert names[..k] == names;
    }
  }

  // ---------------------------------------------------------------------------
  // What loading accumulates

  predicate WellFormed(line: string)
  {
    |Words(line)| == 2 && ParseInt(Words(line)[1]).Some?
  }

  /** The sum of the counts a well-formed line list gives `mer`. */
  function SumFor(mer: string, lines: seq<string>): int
  {
    if lines == [] then 0
    else
      var last := lines[|lines| - 1];
      SumFor(mer, lines[..|lines| - 1])
        + (if WellFormed(last) && Words(last)[0] == mer then ParseInt(Words(last)[1]).value else 0)
  }

  /** The mers named by the well-formed lines. */
  function MersOf(lines: seq<string>): set<string>
  {
    if lines == [] then {}
    else
      var last := lines[|lines| - 1];
      MersOf(lines[..|lines| - 1]) + (if WellFormed(last) then {Words(last)[0]} else {})
  }

  /** A file read without error had only well-formed lines; it added exactly their
      mers, and each count is its prior count plus the sum over the lines. */
  lemma {:induction false} AddLinesCounts(m: KmerCounts, lines: seq<string>)
    requires AddLines(m, lines).error.None?
    ensures forall i :: 0 <= i < |lines| ==> WellFormed(lines[i])
    ensures AddLines(m, lines).kmers.Keys == m.Keys + MersOf(lines)
    ensures forall k :: k in AddLines(m, lines).kmers ==>
              AddLines(m, lines).kmers[k] == Prior(m, k) + SumFor(k, lines)
  {
    if lines != [] {
      var n := |lines|;
      var front := lines[..n - 1];
      AddLinesCounts(m, front);
      var r := AddLines(m, front);
      var last := lines[n - 1];
      var w := Words(last);
      assert r.error.None? && |w| == 2 && ParseInt(w[1]).Some?;
      forall i | 0 <= i < n ensures WellFormed(lines[i]) {
        if i < n - 1 { assert lines[i] == front[i]; }
      }
      var mer := w[0];
      if mer !in r.kmers {
        SumForAbsent(mer, front);
      }
    }
  }

  lemma {:induction false} SumForAbsent(mer: string, lines: seq<string>)
    requires mer !in MersOf(lines)
    ensures SumFor(mer, lines) == 0
  {
    if lines != [] {
      SumForAbsent(mer, lines[..|lines| - 1]);
    }
  }

  /** Loading never removes a key, and every key it adds is a whitespace-free
      word of some line. This holds whether or not an exception was raised. */
  lemma {:induction false} AddLinesGrows(m: KmerCounts, lines: seq<string>)
    ensures m.Keys <= AddLines(m, lines).kmers.Keys
    ensures forall k :: k in AddLines(m, lines).kmers && k !in m ==> IsToken(k)
  {
    if lines != [] {
      AddLinesGrows(m, lines[..|lines| - 1]);
    }
  }

  lemma {:induction false} LoadFilesGrows(m: KmerCounts, names: seq<string>, fs: map<string, string>)
    ensures m.Keys <= LoadFiles(m, names, fs).kmers.Keys
    ensures forall k :: k in LoadFiles(m, names, fs).kmers && k !in m ==> IsToken(k)
  {
    if names != [] {
      var r := LoadFiles(m, names[..|names| - 1], fs);
      LoadFilesGrows(m, names[..|names| - 1], fs);
      AddLinesGrows(r.kmers, if names[|names| - 1] in fs then Lines(fs[names[|names| - 1]]) else []);
    }
  }

  /** `load_kmers` never removes a key, leaves the dictionary alone when given no
      file names, and adds only whitespace-free mers. */
  lemma LoadKmersGrows(fns: string, fs: map<string, string>, m: KmerCounts)
    ensures fns == "" ==> LoadKmersSpec(fns, fs, m) == Loaded(m, None)
    ensures m.Keys <= LoadKmersSpec(fns, fs, m).kmers.Keys
    ensures forall k :: k in LoadKmersSpec(fns, fs, m).kmers && k !in m ==> IsToken(k)
  {
    if fns != "" {
      LoadFilesGrows(m, Split(fns, ','), fs);
    }
  }

  /** All the lines of the files, file after file. */
  function AllLines(names: seq<string>, fs: map<string, string>): seq<string>
    requires forall i :: 0 <= i < |names| ==> names[i] in fs
  {
    if names == [] then []
    else AllLines(names[..|names| - 1], fs) + Lines(fs[names[|names| - 1]])
  }

  /** Reading `a + b` is reading `a` and then, if no exception, `b`. */
  lemma {:induction false} AddLinesAppend(m: KmerCounts, a: seq<string>, b: seq<string>)
    ensures AddLines(m, a + b) ==
      (var r := AddLines(m, a); if r.error.Some? then r else AddLines(r.kmers, b))
  {
    if b == [] {
      assert a + b == a;
    } else {
      var n := |b|;
      AddLinesAppend(m, a, b[..n - 1]);
      assert (a + b)[..|a + b| - 1] == a + b[..n - 1];
      assert (a + b)[|a + b| - 1] == b[n - 1];
    }
  }

  /** Loading several files without error reads every file and is the same as
      reading all their lines one after the other. */
  lemma {:induction false} LoadFilesIsAddLines(m: KmerCounts, names: seq<string>, fs: map<string, string>)
    requires LoadFiles(m, names, fs).error.None?
    ensures forall i :: 0 <= i < |names| ==> names[i] in fs
    ensures LoadFiles(m, names, fs) == AddLines(m, AllLines(names, fs))
  {
    if names != [] {
      var n := |names|;
      var front := names[..n - 1];
      LoadFilesIsAddLines(m, front, fs);
      forall i | 0 <= i < n ensures names[i] in fs {
        if i < n - 1 { assert names[i] == front[i]; }
      }
      AddLinesAppend(m, AllLines(front, fs), Lines(fs[names[n - 1]]));
    }
  }

  /** A successful `load_kmers` over comma-separated file names read every file, and
      each mer's count is its prior count (0 when absent) plus the sum of its counts
      over all lines of all files; the keys are the prior keys plus those mers. */
  lemma LoadKmersCounts(fns: string, fs: map<string, string>, m: KmerCounts)
    requires fns != ""
    requires LoadKmersSpec(fns, fs, m).error.None?
    ensures var names := Split(fns, ',');
      && (forall i :: 0 <= i < |names| ==> names[i] in fs)
      && LoadKmersSpec(fns, fs, m).kmers.Keys == m.Keys + MersOf(AllLines(names, fs))
      && forall k :: k in LoadKmersSpec(fns, fs, m).kmers ==>
           LoadKmersSpec(fns, fs, m).kmers[k] == Prior(m, k) + SumFor(k, AllLines(names, fs))
  {
    var names := Split(fns, ',');
    LoadFilesIsAddLines(m, names, fs);
    AddLinesCounts(m, AllLines(names, fs));
  }

  /** With one file name, `load_kmers` reads just that file. */
  lemma LoadSingleFile(name: string, fs: map<string, string>, m: KmerCounts)
    requires name != "" && NoSep(name, ',') && name in fs
    ensures LoadKmersSpec(name, fs, m) == AddLines(m, Lines(fs[name]))
  {
    SplitNoSep(name, ',');
    var names := [name];
    assert names[..0] == [];
    assert LoadFiles(m, names[..0], fs) == Loaded(m, None);
    assert LoadFiles(m, names, fs) == AddLines(m, Lines(fs[name]));
  }

  // ---------------------------------------------------------------------------
  // Writing the sample-kmer file

  /** One line of the sample-kmer file: the mer, a tab, the count. */
  function KmerLine(mer: string, count: int): string
  {
    mer + "\t" + IntToString(count)
  }

  /** The lines written for the mers in `order`, each with its count in `m`. */
  function KmerLines(order: seq<string>, m: KmerCounts): seq<string>
    requires forall i :: 0 <= i < |order| ==> order[i] in m
  {
    if order == [] then []
    else KmerLines(order[..|order| - 1], m) + [KmerLine(order[|order| - 1], m[order[|order| - 1]])]
  }

  predicate Distinct(s: seq<string>)
  {
    forall i, j :: 0 <= i < j < |s| ==> s[i] != s[j]
  }

  /** `order` lists every key of `m` exactly once. */
  predicate Enumerates(order: seq<string>, m: KmerCounts)
  {
    && Distinct(order)
    && (forall i :: 0 <= i < |order| ==> order[i] in m)
    && (forall k :: k in m ==> k in order)
  }

  predicate TokenKeys(m: KmerCounts)
  {
    forall k :: k in m ==> IsToken(k)
  }

  /** The counts of the mers listed so far. */
  function Restrict(m: KmerCounts, order: seq<string>): KmerCounts
  {
    map k | k in m && k in order :: m[k]
  }

  lemma KmerLineParses(mer: string, count: int)
    requires IsToken(mer)
    ensures NoSep(KmerLine(mer, count), '\n')
  {
    IntToStringIsToken(count);
    var s := KmerLine(mer, count);
    forall i | 0 <= i < |s| ensures s[i] != '\n' {
      if i < |mer| { assert s[i] == mer[i]; }
      else if i > |mer| { assert s[i] == IntToString(count)[i - |mer| - 1]; }
    }
  }

  lemma {:induction false} ReadKmerLines(order: seq<string>, m: KmerCounts)
    requires Distinct(order) && TokenKeys(m)
    requires forall i :: 0 <= i < |order| ==> order[i] in m
    ensures AddLines(map[], KmerLines(order, m)) == Loaded(Restrict(m, order), None)
  {
    if order != [] {
      var front := order[..|order| - 1];
      DistinctFront(order);
      ReadKmerLines(front, m);
      ReadKmerLinesStep(front, order[|order| - 1], m);
      assert order == front + [order[|order| - 1]];
    }
  }

  lemma ReadKmerLinesStep(front: seq<string>, k: string, m: KmerCounts)
    requires TokenKeys(m) && k in m && k !in front
    requires forall i :: 0 <= i < |front| ==> front[i] in m
    requires AddLines(map[], KmerLines(front, m)) == Loaded(Restrict(m, front), None)
    ensures AddLines(map[], KmerLines(front + [k], m)) == Loaded(Restrict(m, front + [k]), None)
  {
    var order := front + [k];
    var lines := KmerLines(order, m);
    assert order[..|order| - 1] == front;
    assert lines[..|lines| - 1] == KmerLines(front, m);
    AddLineFresh(Restrict(m, front), k, m[k]);
    RestrictSnoc(m, front, k);
  }

  lemma DistinctFront(order: seq<string>)
    requires Distinct(order) && |order| > 0
    ensures Distinct(order[..|order| - 1])
    ensures order[|order| - 1] !in order[..|order| - 1]
  {
    var front := order[..|order| - 1];
    forall i, j | 0 <= i < j < |front| ensures front[i] != front[j] {
      assert front[i] == order[i] && front[j] == order[j];
    }
    forall i | 0 <= i < |front| ensures front[i] != order[|order| - 1] {
      assert front[i] == order[i];
    }
  }

  lemma {:induction false} KmerLinesNoNewline(order: seq<string>, m: KmerCounts)
    requires TokenKeys(m)
    requires forall i :: 0 <= i < |order| ==> order[i] in m
    ensures forall i :: 0 <= i < |KmerLines(order, m)| ==> NoSep(KmerLines(order, m)[i], '\n')
  {
    if order != [] {
      var n := |order|;
      var front := order[..n - 1];
      KmerLinesNoNewline(front, m);
      KmerLineParses(order[n - 1], m[order[n - 1]]);
      var lines := KmerLines(order, m);
      assert lines == KmerLines(front, m) + [KmerLine(order[n - 1], m[order[n - 1]])];
    }
  }

  lemma AddLineFresh(r: KmerCounts, mer: string, count: int)
    requires IsToken(mer) && mer !in r
    ensures AddLine(r, KmerLine(mer, count)) == Loaded(r[mer := count], None)
  {
    IntToStringIsToken(count);
    WordsOfPair(mer, IntToString(count));
    ParseIntToString(count);
  }

  lemma RestrictSnoc(m: KmerCounts, front: seq<string>, k: string)
    requires k in m
    ensures Restrict(m, front)[k := m[k]] == Restrict(m, front + [k])
  {
    var a := Restrict(m, front)[k := m[k]];
    var b := Restrict(m, front + [k]);
    forall x ensures x in a <==> x in b {
      assert x in front + [k] <==> x in front || x == k;
    }
    assert a.Keys == b.Keys;
  }

  /** The sample-kmer file, read back with `load_kmers` into an empty dictionary,
      gives back exactly the counts it was written from, whatever the order the
      mers were written in, provided no mer holds whitespace. */
  lemma KmerFileRoundTrip(order: seq<string>, m: KmerCounts)
    requires Enumerates(order, m) && TokenKeys(m)
    ensures AddLines(map[], Lines(WriteLines(KmerLines(order, m)))) == Loaded(m, None)
  {
    ReadKmerLines(order, m);
    KmerLinesNoNewline(order, m);
    LinesWriteLines(KmerLines(order, m));
    assert Restrict(m, order) == m;
  }

  lemma WriteLinesSnoc(lines: seq<string>, line: string)
    ensures WriteLines(lines + [line]) == WriteLines(lines) + line + "\n"
  {
    if lines != [] {
      assert (lines + [line])[1..] == lines[1..] + [line];
      WriteLinesSnoc(lines[1..], line);
    }
  }

  lemma {:induction false} KmerLinesAgree(order: seq<string>, m1: KmerCounts, m2: KmerCounts)
    requires forall i :: 0 <= i < |order| ==> order[i] in m1 && order[i] in m2 && m1[order[i]] == m2[order[i]]
    ensures KmerLines(order, m1) == KmerLines(order, m2)
  {
    if order != [] {
      KmerLinesAgree(order[..|order| - 1], m1, m2);
    }
  }

  /** The writing loop of `compare_kmers`: one `mer<TAB>count` line per mer, in the
      (unspecified) order the set is iterated, while `case_only` gets each mer with
      its sample count. `order` is the order the lines were written in. */
  method WriteSampleKmers(mers: set<string>, case_: KmerCounts)
    returns (text: string, caseOnly: KmerCounts, ghost order: seq<string>)
    requires mers <= case_.Keys
    ensures caseOnly == map k | k in mers :: case_[k]
    ensures Enumerates(order, caseOnly)
    ensures text == WriteLines(KmerLines(order, caseOnly))
  {
    text, caseOnly, order := "", map[], [];
    var remaining := mers;
    while remaining != {}
      invariant remaining <= mers
      invariant Distinct(order)
      invariant forall i :: 0 <= i < |order| ==> order[i] in mers && order[i] !in remaining
      invariant forall k :: k in mers ==> k in remaining || k in order
      invariant caseOnly == Restrict(case_, order)
      invariant text == WriteLines(KmerLines(order, case_))
      decreases remaining
    {
      var mer :| mer in remaining;
      text := text + KmerLine(mer, case_[mer]) + "\n";
      caseOnly := caseOnly[mer := case_[mer]];
      WriteLinesSnoc(KmerLines(order, case_), KmerLine(mer, case_[mer]));
      RestrictSnoc(case_, order, mer);
      DistinctSnoc(order, mer);
      order := order + [mer];
      remaining := remaining - {mer};
    }
    RestrictAll(case_, mers, order);
    KmerLinesAgree(order, case_, caseOnly);
  }

  lemma DistinctSnoc(s: seq<string>, x: string)
    requires Distinct(s) && x !in s
    ensures Distinct(s + [x])
  {
  }

  /** Restricting to a listing of `mers` is restricting to `mers`. */
  lemma RestrictAll(m: KmerCounts, mers: set<string>, order: seq<string>)
    requires mers <= m.Keys
    requires forall i :: 0 <= i < |order| ==> order[i] in mers
    requires forall k :: k in mers ==> k in order
    ensures Restrict(m, order) == map k | k in mers :: m[k]
  {
  }

  /** The sample-kmer file reads back as exactly the sample-only counts. */
  lemma SampleKmerFileRoundTrip(order: seq<string>, caseOnly: KmerCounts, fn: string)
    requires Enumerates(order, caseOnly) && TokenKeys(caseOnly)
    requires fn != "" && NoSep(fn, ',')
    ensures var fs := map[fn := WriteLines(KmerLines(order, caseOnly))];
      LoadKmersSpec(fn, fs, map[]) == Loaded(caseOnly, None)
  {
    var fs := map[fn := WriteLines(KmerLines(order, caseOnly))];
    LoadSingleFile(fn, fs, map[]);
    KmerFileRoundTrip(order, caseOnly);
  }

  /** The reference kmers: `load_kmers` on each reference dump in turn, all into one
      dictionary, until one raises. */
  function LoadEach(dumps: seq<string>, fs: map<string, string>, m: KmerCounts): Loaded
  {
    if dumps == [] then Loaded(m, None)
    else
      var r := LoadEach(dumps[..|dumps| - 1], fs, m);
      if r.error.Some? then r else LoadKmersSpec(dumps[|dumps| - 1], fs, r.kmers)
  }

  // ---------------------------------------------------------------------------
  // Sample-specific kmers

  /** The mers in both the sample's cleaned reads and its soft-clipped sequences,
      minus the reference mers, and minus the normal sample's mers when a normal
      sample is configured. Only the keys of the other dictionaries matter. */
  function SampleOnlyMers(case_: KmerCounts, caseSc: KmerCounts, ref: KmerCounts,
                          norm: Option<KmerCounts>): (r: set<string>)
    ensures forall k :: k in r <==>
      k in case_ && k in caseSc && k !in ref && (norm.Some? ==> k !in norm.value)
  {
    var scMers := case_.Keys * caseSc.Keys;
    var sampleOnly := scMers - ref.Keys;
    if norm.Some? then sampleOnly - norm.value.Keys else sampleOnly
  }

  /** The sample-only mers, each with its count in the sample's cleaned reads. */
  function CaseOnly(case_: KmerCounts, caseSc: KmerCounts, ref: KmerCounts,
                    norm: Option<KmerCounts>): (r: KmerCounts)
    ensures r.Keys == SampleOnlyMers(case_, caseSc, ref, norm)
    ensures r.Keys <= case_.Keys && r.Keys !! ref.Keys
    ensures norm.Some? ==> r.Keys !! norm.value.Keys
    ensures forall k :: k in r ==> r[k] == case_[k]
  {
    var mers := SampleOnlyMers(case_, caseSc, ref, norm);
    map k | k in mers :: case_[k]
  }
}
