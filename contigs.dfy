/** Contigs as `resolve_sv` handles them (breakmer/processor/target.py:407-429):
    each gets the id `contig<i>` by its 1-based position, and those with a result
    are collected in order. */
module Contigs {
  import opened Text
  import opened Intervals

  /** What `get_values` returns: chromosome, start, end, name and intervals. */
  datatype TargetValues = TargetValues(chrom: Option<string>, start: Option<int>, end: Option<int>,
                                       name: string, intervals: seq<Interval>)

  /** What `set_meta_information` attaches to a contig. */
  datatype ContigMeta = ContigMeta(id: string, target: TargetValues)

  /** A contig from the assembler: its sequence, whether querying the reference and
      making calls will give it a result, and its meta information once set. */
  datatype Contig = Contig(sequence: string, hasResult: bool, meta: Option<ContigMeta>)

  /** `'contig' + str(i)`. */
  function ContigId(i: nat): string
  {
    "contig" + NatToString(i)
  }

  /** Different positions give different ids. */
  lemma ContigIdInjective(i: nat, j: nat)
    requires ContigId(i) == ContigId(j)
    ensures i == j
  {
    assert ContigId(i)[6..] == NatToString(i);
    assert ContigId(j)[6..] == NatToString(j);
    NatToStringInjective(i, j);
  }

  /** The contigs after `set_meta_information`: the one at 1-based position i has
      id `contig<i>` and the target's values; nothing else about it changes. */
  function Identified(cs: seq<Contig>, values: TargetValues): (r: seq<Contig>)
    ensures |r| == |cs|
    ensures forall i :: 0 <= i < |cs| ==>
      && r[i].sequence == cs[i].sequence && r[i].hasResult == cs[i].hasResult
      && r[i].meta == Some(ContigMeta(ContigId(i + 1), values))
  {
    if cs == [] then []
    else
      var n := |cs|;
      Identified(cs[..n - 1], values) + [cs[n - 1].(meta := Some(ContigMeta(ContigId(n), values)))]
  }

  /** No two resolved contigs share an id. */
  lemma IdentifiedIdsDistinct(cs: seq<Contig>, values: TargetValues)
    ensures forall i, j :: 0 <= i < j < |cs| ==>
      Identified(cs, values)[i].meta.value.id != Identified(cs, values)[j].meta.value.id
  {
    forall i, j | 0 <= i < j < |cs|
      ensures Identified(cs, values)[i].meta.value.id != Identified(cs, values)[j].meta.value.id
    {
      if ContigId(i + 1) == ContigId(j + 1) {
        ContigIdInjective(i + 1, j + 1);
      }
    }
  }

  /** The contigs that have a result, in the order given. */
  function WithResults(cs: seq<Contig>): seq<Contig>
  {
    if cs == [] then []
    else
      var n := |cs|;
      WithResults(cs[..n - 1]) + (if cs[n - 1].hasResult then [cs[n - 1]] else [])
  }

  /** Collecting one more contig appends it exactly when it has a result. */
  lemma WithResultsSnoc(cs: seq<Contig>, c: Contig)
    ensures WithResults(cs + [c]) == WithResults(cs) + (if c.hasResult then [c] else [])
  {
    assert (cs + [c])[..|cs|] == cs;
  }

  /** Collected contigs are exactly those with a result. */
  lemma {:induction false} WithResultsMembers(cs: seq<Contig>)
    ensures forall c :: c in WithResults(cs) <==> c in cs && c.hasResult
    ensures |WithResults(cs)| <= |cs|
  {
    if cs != [] {
      var n := |cs|;
      WithResultsMembers(cs[..n - 1]);
      assert cs == cs[..n - 1] + [cs[n - 1]];
    }
  }

  /** Collecting keeps the order: a split of the input splits the output. */
  lemma {:induction false} WithResultsAppend(a: seq<Contig>, b: seq<Contig>)
    ensures WithResults(a + b) == WithResults(a) + WithResults(b)
  {
    if b == [] {
      assert a + b == a;
    } else {
      var n := |b|;
      WithResultsAppend(a, b[..n - 1]);
      assert (a + b)[..|a + b| - 1] == a + b[..n - 1];
    }
  }

  /** Nothing is collected exactly when no contig has a result. */
  lemma WithResultsEmpty(cs: seq<Contig>)
    ensures WithResults(cs) == [] <==> forall i :: 0 <= i < |cs| ==> !cs[i].hasResult
  {
    WithResultsMembers(cs);
    if WithResults(cs) != [] {
      assert WithResults(cs)[0] in WithResults(cs);
    }
    if exists i :: 0 <= i < |cs| && cs[i].hasResult {
      var i :| 0 <= i < |cs| && cs[i].hasResult;
      assert cs[i] in WithResults(cs);
    }
  }
}
