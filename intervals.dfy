/** The target region: merging the target's intervals into one chromosome, start
    and end (`TargetManager.setup`, breakmer/processor/target.py:132-143), and the
    buffered region reads are extracted from (lines 121, 299-300). */
module Intervals {
  import opened Text

  /** One interval of the target as listed in the targets file. */
  datatype Interval = Interval(chrom: string, start: int, end: int)

  /** The target's `chrom`, `start` and `end` attributes; `None` until set. */
  datatype Bounds = Bounds(chrom: Option<string>, start: Option<int>, end: Option<int>)

  const Unset := Bounds(None, None, None)

  /** Base pairs added on both sides of the target when reads are extracted. */
  const RegionBuffer := 200

  /** One turn of the interval loop, reading "not set" as `None`: the first interval
      sets all three, later ones lower the start and raise the end. */
  function MergeStep(b: Bounds, iv: Interval): Bounds
  {
    var chrom := if b.chrom.None? then Some(iv.chrom) else b.chrom;
    var start := if b.start.None? then iv.start else b.start.value;
    var end := if b.end.None? then iv.end else b.end.value;
    Bounds(chrom,
           Some(if iv.start < start then iv.start else start),
           Some(if iv.end > end then iv.end else end))
  }

  /** The loop over the intervals, from bounds `b`. */
  function MergeFrom(b: Bounds, ivs: seq<Interval>): Bounds
  {
    if ivs == [] then b else MergeStep(MergeFrom(b, ivs[..|ivs| - 1]), ivs[|ivs| - 1])
  }

  function Merge(ivs: seq<Interval>): Bounds
  {
    MergeFrom(Unset, ivs)
  }

  /** Merging fixes the first interval's chromosome and takes the smallest start
      and the largest end, each of which is some interval's own coordinate. */
  lemma {:induction false} MergeIsHull(ivs: seq<Interval>)
    requires |ivs| > 0
    ensures var b := Merge(ivs);
      && b.chrom == Some(ivs[0].chrom) && b.start.Some? && b.end.Some?
      && (forall i :: 0 <= i < |ivs| ==> b.start.value <= ivs[i].start && ivs[i].end <= b.end.value)
      && (exists i :: 0 <= i < |ivs| && b.start.value == ivs[i].start)
      && (exists i :: 0 <= i < |ivs| && b.end.value == ivs[i].end)
  {
    var n := |ivs|;
    if n > 1 {
      var front := ivs[..n - 1];
      MergeIsHull(front);
      var b0 := Merge(front);
      var b := Merge(ivs);
      assert front[0] == ivs[0];
      forall i | 0 <= i < n ensures b.start.value <= ivs[i].start && ivs[i].end <= b.end.value {
        if i < n - 1 { assert ivs[i] == front[i]; }
      }
      var si :| 0 <= si < n - 1 && b0.start.value == front[si].start;
      var ei :| 0 <= ei < n - 1 && b0.end.value == front[ei].end;
      assert b.start.value == ivs[if ivs[n - 1].start < b0.start.value then n - 1 else si].start;
      assert b.end.value == ivs[if ivs[n - 1].end > b0.end.value then n - 1 else ei].end;
    } else {
      assert ivs[..0] == [];
      assert MergeFrom(Unset, ivs[..0]) == Unset;
    }
  }

  /** The region reads are extracted from: the target widened by the buffer on both
      sides. Python raises TypeError when a bound is unset. */
  datatype Region = Region(chrom: string, start: int, end: int)

  function ReadRegion(b: Bounds): Region
    requires b.chrom.Some? && b.start.Some? && b.end.Some?
  {
    Region(b.chrom.value, b.start.value - RegionBuffer, b.end.value + RegionBuffer)
  }

  /** The extraction region covers every interval of the target with 200 bases to
      spare on each side, and no more than that on the outermost intervals. */
  lemma RegionCoversIntervals(ivs: seq<Interval>)
    requires |ivs| > 0
    ensures Merge(ivs).chrom.Some? && Merge(ivs).start.Some? && Merge(ivs).end.Some?
    ensures var r := ReadRegion(Merge(ivs));
      && r.chrom == ivs[0].chrom
      && (forall i :: 0 <= i < |ivs| ==>
            r.start <= ivs[i].start - RegionBuffer && ivs[i].end + RegionBuffer <= r.end)
      && (exists i :: 0 <= i < |ivs| && r.start == ivs[i].start - RegionBuffer)
      && (exists i :: 0 <= i < |ivs| && r.end == ivs[i].end + RegionBuffer)
  {
    MergeIsHull(ivs);
  }

  // ---------------------------------------------------------------------------
  // The loop as written: Python's `if not self.start` is also true for a start of 0

  /** Python truthiness of an optional string or integer attribute. */
  predicate FalsyString(o: Option<string>) { o.None? || o.value == "" }
  predicate FalsyInt(o: Option<int>) { o.None? || o.value == 0 }

  /** One turn of the loop with the code's own tests: an empty chromosome name or a
      coordinate 0 counts as unset and is overwritten. */
  function MergeStepAsWritten(b: Bounds, iv: Interval): Bounds
  {
    var chrom := if FalsyString(b.chrom) then Some(iv.chrom) else b.chrom;
    var start := if FalsyInt(b.start) then iv.start else b.start.value;
    var end := if FalsyInt(b.end) then iv.end else b.end.value;
    Bounds(chrom,
           Some(if iv.start < start then iv.start else start),
           Some(if iv.end > end then iv.end else end))
  }

  function MergeAsWritten(ivs: seq<Interval>): Bounds
  {
    if ivs == [] then Unset
    else MergeStepAsWritten(MergeAsWritten(ivs[..|ivs| - 1]), ivs[|ivs| - 1])
  }

  /** A target starting at position 0: the code as written forgets that start once
      a later interval is seen, so the merged start is not the minimum. */
  lemma MergeAsWrittenLosesZeroStart()
    ensures var ivs := [Interval("chr1", 0, 100), Interval("chr1", 50, 200)];
      && MergeAsWritten(ivs).start == Some(50)
      && Merge(ivs).start == Some(0)
  {
    var ivs := [Interval("chr1", 0, 100), Interval("chr1", 50, 200)];
    assert ivs[..1] == [ivs[0]] && ivs[..1][..0] == [];
    assert MergeFrom(Unset, ivs[..1][..0]) == Unset;
    assert MergeFrom(Unset, ivs[..1]) == Bounds(Some("chr1"), Some(0), Some(100));
  }

  /** With non-empty chromosome names and positive coordinates the code as written
      and the intended merge agree. */
  lemma {:induction false} MergeAsWrittenAgreesOnPositive(ivs: seq<Interval>)
    requires forall i :: 0 <= i < |ivs| ==> ivs[i].chrom != "" && ivs[i].start > 0 && ivs[i].end > 0
    ensures MergeAsWritten(ivs) == Merge(ivs)
  {
    if ivs != [] {
      var n := |ivs|;
      var front := ivs[..n - 1];
      MergeAsWrittenAgreesOnPositive(front);
      if n > 1 {
        MergeIsHull(front);
        var b := Merge(front);
        var si :| 0 <= si < n - 1 && b.start.value == front[si].start;
        var ei :| 0 <= ei < n - 1 && b.end.value == front[ei].end;
        assert front[0] == ivs[0] && front[si] == ivs[si] && front[ei] == ivs[ei];
      }
    }
  }
}
