/**
 * The fixed binning of the analysis: two centrality classes and nineteen
 * transverse-momentum (pT) bins of width 0.1 (analyzetree.cc, lines 29-39).
 * All arithmetic is over exact reals; the source's doubles are not modelled.
 */
module Layout {
  import opened Wrappers

  /** Number of centrality classes. */
  const NC: int := 2

  /** Inclusive centrality bounds of the two classes, in percent: [0,30] and [40,70]. */
  const ClassBounds: seq<(int, int)> := [(0, 30), (40, 70)]

  /** Number of pT bins, computed as the source does: (int)(2. / 0.1) - 1. */
  const NpT: int := (2.0 / 0.1).Floor - 1

  predicate InClass(c: real, i: int)
    requires 0 <= i < NC
  {
    ClassBounds[i].0 as real <= c <= ClassBounds[i].1 as real
  }

  /**
   * The class an event (or a resolution row) with centrality `c` belongs to:
   * the first class whose inclusive bounds contain `c`, or None.
   */
  function Classify(c: real): (r: Option<int>)
    ensures r.Some? <==> InClass(c, 0) || InClass(c, 1)
    ensures r.Some? ==> 0 <= r.value < NC && InClass(c, r.value)
  {
    if InClass(c, 0) then Some(0)
    else if InClass(c, 1) then Some(1)
    else None
  }

  /** The two classes do not overlap, so the first-match order of Classify never matters. */
  lemma ClassesDisjoint(c: real)
    ensures !(InClass(c, 0) && InClass(c, 1))
    ensures Classify(c) == Some(1) <==> InClass(c, 1)
  {
  }

  /** Upper edge of pT bin `k`, as stored in the k-th x-coordinate of the flow curves. */
  function UpperEdge(k: int): real
  {
    (k + 2) as real / 10.0
  }

  /**
   * The pT-bin index the counting loop produces (over exact reals): one less
   * than the number of steps 0.1, 0.2, ... that do not exceed pT.
   */
  function PTBin(pT: real): int
  {
    if pT < 0.1 then -1 else (10.0 * pT).Floor - 1
  }

  /** The pT values whose bin index lies inside a row of NpT histograms. */
  predicate InBinnedRange(pT: real)
  {
    0.1 <= pT < 2.0
  }

  /** The only guard the source applies before indexing with the bin: it skips pT > 2. */
  predicate SourceGuardAdmits(pT: real)
  {
    !(pT > 2.0)
  }

  /** The number of pT bins is nineteen and each bin's upper edge is 0.1 above its lower edge. */
  lemma BinCount()
    ensures NpT == 19
    ensures UpperEdge(0) == 0.2 && UpperEdge(NpT - 1) == 2.0
  {
  }

  /** Builds the x-coordinates of the flow curves by repeatedly adding 0.1, starting from 0.1. */
  method PTSplitting() returns (s: seq<real>)
    ensures |s| == NpT
    ensures forall k :: 0 <= k < NpT ==> s[k] == UpperEdge(k)
  {
    var pTInit := 0.1;
    var pTDelta := 0.1;
    s := [];
    while |s| < NpT
      invariant |s| <= NpT
      invariant pTInit == 0.1 + 0.1 * |s| as real
      invariant forall k :: 0 <= k < |s| ==> s[k] == UpperEdge(k)
    {
      pTInit := pTInit + pTDelta;
      s := s + [pTInit];
    }
  }

  /** The source's bin-counting loop: it always stops, with the index PTBin(pT). */
  method BinIndex(pT: real) returns (pTRange: int)
    ensures pTRange == PTBin(pT)
  {
    pTRange := -1;
    var pTTemp := 0.1;
    while pTTemp <= pT
      invariant pTTemp == (pTRange + 2) as real / 10.0
      invariant -1 <= pTRange <= PTBin(pT)
      decreases (10.0 * pT).Floor - pTRange
    {
      pTTemp := pTTemp + 0.1;
      pTRange := pTRange + 1;
    }
  }

  /** Bin k (k >= 0) holds exactly the pT in [UpperEdge(k) - 0.1, UpperEdge(k)). */
  lemma BinEdges(pT: real, k: int)
    requires 0 <= k
    ensures PTBin(pT) == k <==> UpperEdge(k) - 0.1 <= pT < UpperEdge(k)
  {
  }

  /** The bin index is a valid row position exactly for 0.1 <= pT < 2.0. */
  lemma BinnedRangeExact(pT: real)
    ensures InBinnedRange(pT) <==> 0 <= PTBin(pT) < NpT
  {
  }

  /**
   * As written, the source's guard lets through pT values whose index falls
   * outside the row of NpT histograms: index -1 below 0.1 and index NpT at 2.0.
   */
  lemma SourceGuardOverruns(pT: real)
    requires SourceGuardAdmits(pT) && !InBinnedRange(pT)
    ensures PTBin(pT) == -1 || PTBin(pT) == NpT
    ensures PTBin(pT) == NpT <==> pT == 2.0
  {
  }

  /** Two concrete inputs that the source's guard admits and that index outside the row. */
  lemma SourceGuardCounterexample()
    ensures SourceGuardAdmits(0.05) && PTBin(0.05) == -1
    ensures SourceGuardAdmits(2.0) && PTBin(2.0) == NpT
  {
  }
}
