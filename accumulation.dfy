/**
 * The event loop: every event's centrality is histogrammed, events outside
 * both centrality classes are skipped, and every particle of a kept event is
 * histogrammed by pT and, when its pT falls in a bin, by its folded angle
 * relative to the reaction plane (analyzetree.cc, lines 144-155 and 179-244).
 *
 * A histogram is modelled as the sequence of values filled into it, in fill
 * order; ROOT's internal 100-way binning is not modelled.
 */
module Accumulation {
  import opened Wrappers
  import opened Layout
  import opened Angle

  /** A track: its transverse momentum and lab-frame azimuthal angle, as computed from (px, py). */
  datatype Particle = Particle(pT: real, phi: real)

  /** One event record: reaction-plane angle, centrality and tracks. */
  datatype Event = Event(reactionPlane: real, centrality: real, particles: seq<Particle>)

  /** What one particle adds to the angular histogram of pT bin `k` of its event's class. */
  function ParticleFill(p: Particle, rp: real, k: int, pi: real): seq<real>
    requires pi > 0.0
  {
    if InBinnedRange(p.pT) && PTBin(p.pT) == k then [Fold(p.phi - rp, pi)] else []
  }

  /** The angles a list of particles adds to the angular histogram of pT bin `k`, in order. */
  function CellFills(ps: seq<Particle>, rp: real, k: int, pi: real): seq<real>
    requires pi > 0.0
  {
    if |ps| == 0 then [] else CellFills(ps[..|ps| - 1], rp, k, pi) + ParticleFill(ps[|ps| - 1], rp, k, pi)
  }

  /** The pT values of a list of particles, in order. */
  function PTs(ps: seq<Particle>): seq<real>
  {
    if |ps| == 0 then [] else PTs(ps[..|ps| - 1]) + [ps[|ps| - 1].pT]
  }

  /** What an event adds to the angular histogram of class `i`, pT bin `k`. */
  function EventCell(e: Event, i: int, k: int, pi: real): seq<real>
    requires pi > 0.0
  {
    if Classify(e.centrality) == Some(i) then CellFills(e.particles, e.reactionPlane, k, pi) else []
  }

  /** What an event adds to the pT distribution: all its pT values, or nothing if it is skipped. */
  function EventPTs(e: Event): seq<real>
  {
    if Classify(e.centrality).Some? then PTs(e.particles) else []
  }

  /** What a run of events adds to the angular histogram of class `i`, pT bin `k`. */
  function RunCell(es: seq<Event>, i: int, k: int, pi: real): seq<real>
    requires pi > 0.0
  {
    if |es| == 0 then [] else RunCell(es[..|es| - 1], i, k, pi) + EventCell(es[|es| - 1], i, k, pi)
  }

  function RunPTs(es: seq<Event>): seq<real>
  {
    if |es| == 0 then [] else RunPTs(es[..|es| - 1]) + EventPTs(es[|es| - 1])
  }

  function RunCentralities(es: seq<Event>): seq<real>
  {
    if |es| == 0 then [] else RunCentralities(es[..|es| - 1]) + [es[|es| - 1].centrality]
  }

  lemma CellFillsSnoc(ps: seq<Particle>, p: Particle, rp: real, k: int, pi: real)
    requires pi > 0.0
    ensures CellFills(ps + [p], rp, k, pi) == CellFills(ps, rp, k, pi) + ParticleFill(p, rp, k, pi)
    ensures PTs(ps + [p]) == PTs(ps) + [p.pT]
  {
    assert (ps + [p])[..|ps|] == ps;
  }

  lemma RunSnoc(es: seq<Event>, e: Event, i: int, k: int, pi: real)
    requires pi > 0.0
    ensures RunCell(es + [e], i, k, pi) == RunCell(es, i, k, pi) + EventCell(e, i, k, pi)
    ensures RunPTs(es + [e]) == RunPTs(es) + EventPTs(e)
    ensures RunCentralities(es + [e]) == RunCentralities(es) + [e.centrality]
  {
    assert (es + [e])[..|es|] == es;
  }

  lemma PrefixSnoc<T>(s: seq<T>, n: int)
    requires 0 <= n < |s|
    ensures s[..n + 1] == s[..n] + [s[n]]
  {
  }

  /**
   * A value that held `base + acc` and then received `add` holds `base + acc2`
   * when `acc2` is `acc` extended by `add`.
   */
  lemma AppendStep<T>(base: seq<T>, before: seq<T>, after: seq<T>, acc: seq<T>, acc2: seq<T>, add: seq<T>)
    requires before == base + acc && after == before + add && acc2 == acc + add
    ensures after == base + acc2
  {
    assert (base + acc) + add == base + (acc + add);
  }

  /** A particle in the binned range feeds exactly one angular cell of its class; any other particle feeds none. */
  lemma ParticleFillOneCell(p: Particle, rp: real, k: int, pi: real)
    requires pi > 0.0
    ensures |ParticleFill(p, rp, k, pi)| == (if InBinnedRange(p.pT) && k == PTBin(p.pT) then 1 else 0)
    ensures InBinnedRange(p.pT) ==> 0 <= PTBin(p.pT) < NpT
  {
    BinnedRangeExact(p.pT);
  }

  /** Every angle filled into an angular histogram lies in its range [-pi/2, pi/2]. */
  lemma {:induction false} CellFillsInRange(ps: seq<Particle>, rp: real, k: int, pi: real)
    requires pi > 0.0
    ensures forall j :: 0 <= j < |CellFills(ps, rp, k, pi)| ==>
      -pi / 2.0 <= CellFills(ps, rp, k, pi)[j] <= pi / 2.0
  {
    if |ps| > 0 {
      var p := ps[|ps| - 1];
      CellFillsInRange(ps[..|ps| - 1], rp, k, pi);
      FoldRange(p.phi - rp, pi);
    }
  }

  /** Every angle in an angular histogram after a run of events lies in [-pi/2, pi/2]. */
  lemma {:induction false} RunCellInRange(es: seq<Event>, i: int, k: int, pi: real)
    requires pi > 0.0
    ensures forall j :: 0 <= j < |RunCell(es, i, k, pi)| ==>
      -pi / 2.0 <= RunCell(es, i, k, pi)[j] <= pi / 2.0
  {
    if |es| > 0 {
      var e := es[|es| - 1];
      RunCellInRange(es[..|es| - 1], i, k, pi);
      CellFillsInRange(e.particles, e.reactionPlane, k, pi);
    }
  }

  /** Number of particles whose pT falls in the binned range. */
  function CountBinned(ps: seq<Particle>): nat
  {
    if |ps| == 0 then 0 else CountBinned(ps[..|ps| - 1]) + (if InBinnedRange(ps[|ps| - 1].pT) then 1 else 0)
  }

  /** Total number of angles in the first `n` pT cells. */
  function SumCells(ps: seq<Particle>, rp: real, n: int, pi: real): int
    requires pi > 0.0
  {
    if n <= 0 then 0 else SumCells(ps, rp, n - 1, pi) + |CellFills(ps, rp, n - 1, pi)|
  }

  lemma {:induction false} SumCellsSnoc(ps: seq<Particle>, p: Particle, rp: real, n: int, pi: real)
    requires pi > 0.0
    ensures SumCells(ps + [p], rp, n, pi)
      == SumCells(ps, rp, n, pi) + (if InBinnedRange(p.pT) && PTBin(p.pT) < n then 1 else 0)
  {
    BinnedRangeExact(p.pT);
    if n > 0 {
      SumCellsSnoc(ps, p, rp, n - 1, pi);
      CellFillsSnoc(ps, p, rp, n - 1, pi);
    }
  }

  lemma {:induction false} SumCellsEmpty(rp: real, n: int, pi: real)
    requires pi > 0.0
    ensures SumCells([], rp, n, pi) == 0
  {
    if n > 0 {
      SumCellsEmpty(rp, n - 1, pi);
    }
  }

  /**
   * Across the NpT cells of its class, an event receives exactly one angle per
   * particle in the binned range.
   */
  lemma {:induction false} TotalFills(ps: seq<Particle>, rp: real, pi: real)
    requires pi > 0.0
    ensures SumCells(ps, rp, NpT, pi) == CountBinned(ps)
  {
    if |ps| == 0 {
      SumCellsEmpty(rp, NpT, pi);
    } else {
      var n := |ps| - 1;
      TotalFills(ps[..n], rp, pi);
      assert ps == ps[..n] + [ps[n]];
      SumCellsSnoc(ps[..n], ps[n], rp, NpT, pi);
      BinnedRangeExact(ps[n].pT);
    }
  }

  /** An event outside both classes adds nothing to the pT distribution or any angular cell. */
  lemma SkippedEventAddsNothing(e: Event, i: int, k: int, pi: real)
    requires pi > 0.0
    requires !(0.0 <= e.centrality <= 30.0) && !(40.0 <= e.centrality <= 70.0)
    ensures EventPTs(e) == [] && EventCell(e, i, k, pi) == []
  {
  }

  /**
   * An event of centrality 15 with reaction plane 0 and one track of pT 1 at
   * angle 0 puts the angle 0 into class 0, bin 9, and nothing anywhere else.
   */
  lemma SingleTrackExample(pi: real, i: int, k: int)
    requires pi > 0.0
    ensures EventPTs(Event(0.0, 15.0, [Particle(1.0, 0.0)])) == [1.0]
    ensures EventCell(Event(0.0, 15.0, [Particle(1.0, 0.0)]), 0, 9, pi) == [0.0]
    ensures (i, k) != (0, 9) ==> EventCell(Event(0.0, 15.0, [Particle(1.0, 0.0)]), i, k, pi) == []
  {
    var ps := [Particle(1.0, 0.0)];
    assert ps[..0] == [];
    FoldKeepsInRange(0.0 - 0.0, pi);
    assert PTBin(1.0) == 9 && InBinnedRange(1.0);
    assert Classify(15.0) == Some(0);
    assert CellFills(ps, 0.0, k, pi) == ParticleFill(ps[0], 0.0, k, pi);
    assert CellFills(ps, 0.0, 9, pi) == ParticleFill(ps[0], 0.0, 9, pi);
  }

  /** The histograms the analysis fills. */
  class Accumulator {
    /** Values filled into the centrality distribution. */
    var centralityFills: seq<real>
    /** Values filled into the pT distribution. */
    var pTFills: seq<real>
    /** The 2 x NpT grid of angular distributions, indexed by (class, pT bin). */
    const azimuth: array2<seq<real>>

    ghost predicate Valid()
    {
      azimuth.Length0 == NC && azimuth.Length1 == NpT
    }

    /** All histograms start empty. */
    constructor ()
      ensures Valid() && fresh(azimuth)
      ensures centralityFills == [] && pTFills == []
      ensures forall i, k :: 0 <= i < NC && 0 <= k < NpT ==> azimuth[i, k] == []
    {
      centralityFills := [];
      pTFills := [];
      azimuth := new seq<real>[NC, NpT]((i, k) => []);
    }

    /**
     * One particle of an event in class `c`: its pT is always recorded; when the
     * pT falls in a bin, its folded angle goes into that bin's cell of class `c`,
     * and no other cell changes.
     */
    method FillParticle(c: int, rp: real, p: Particle, pi: real)
      requires Valid() && 0 <= c < NC && pi > 0.0
      modifies this`pTFills, azimuth
      ensures pTFills == old(pTFills) + [p.pT]
      ensures forall i, k :: 0 <= i < NC && 0 <= k < NpT ==>
        azimuth[i, k] == old(azimuth[i, k]) + (if i == c then ParticleFill(p, rp, k, pi) else [])
    {
      pTFills := pTFills + [p.pT];
      if p.pT > 2.0 {
        return;
      }
      var pTRange := BinIndex(p.pT);
      BinnedRangeExact(p.pT);
      if pTRange < 0 || pTRange >= NpT {
        return;
      }
      var phiRP := FoldAngle(p.phi - rp, pi);
      azimuth[c, pTRange] := azimuth[c, pTRange] + [phiRP];
    }

    /**
     * One event: its centrality is always recorded; if it is in neither class
     * nothing else changes, otherwise each of its particles is filled in order.
     */
    method Observe(e: Event, pi: real)
      requires Valid() && pi > 0.0
      modifies this, azimuth
      ensures centralityFills == old(centralityFills) + [e.centrality]
      ensures pTFills == old(pTFills) + EventPTs(e)
      ensures forall i, k :: 0 <= i < NC && 0 <= k < NpT ==>
        azimuth[i, k] == old(azimuth[i, k]) + EventCell(e, i, k, pi)
    {
      centralityFills := centralityFills + [e.centrality];
      var centralityRange := Classify(e.centrality);
      if centralityRange.None? {
        return;
      }
      var c := centralityRange.value;
      var iPart := 0;
      ghost var done: seq<Particle> := [];
      while iPart < |e.particles|
        invariant 0 <= iPart <= |e.particles| && done == e.particles[..iPart]
        invariant centralityFills == old(centralityFills) + [e.centrality]
        invariant pTFills == old(pTFills) + PTs(done)
        invariant forall i, k :: 0 <= i < NC && 0 <= k < NpT ==>
          azimuth[i, k] == old(azimuth[i, k]) + (if i == c then CellFills(done, e.reactionPlane, k, pi) else [])
      {
        var p := e.particles[iPart];
        CellFillsSnoc(done, p, e.reactionPlane, 0, pi);
        label before:
        FillParticle(c, e.reactionPlane, p, pi);
        AppendStep(old(pTFills), old@before(pTFills), pTFills, PTs(done), PTs(done + [p]), [p.pT]);
        forall i, k | 0 <= i < NC && 0 <= k < NpT
          ensures azimuth[i, k] == old(azimuth[i, k])
            + (if i == c then CellFills(done + [p], e.reactionPlane, k, pi) else [])
        {
          if i == c {
            CellFillsSnoc(done, p, e.reactionPlane, k, pi);
            AppendStep(old(azimuth[i, k]), old@before(azimuth[i, k]), azimuth[i, k],
              CellFills(done, e.reactionPlane, k, pi), CellFills(done + [p], e.reactionPlane, k, pi),
              ParticleFill(p, e.reactionPlane, k, pi));
          } else {
            AppendStep(old(azimuth[i, k]), old@before(azimuth[i, k]), azimuth[i, k], [], [], []);
          }
        }
        PrefixSnoc(e.particles, iPart);
        done := done + [p];
        iPart := iPart + 1;
      }
      assert done == e.particles;
    }

    /** The event loop: observes each event in order. */
    method Run(events: seq<Event>, pi: real)
      requires Valid() && pi > 0.0
      modifies this, azimuth
      ensures centralityFills == old(centralityFills) + RunCentralities(events)
      ensures pTFills == old(pTFills) + RunPTs(events)
      ensures forall i, k :: 0 <= i < NC && 0 <= k < NpT ==>
        azimuth[i, k] == old(azimuth[i, k]) + RunCell(events, i, k, pi)
    {
      var iEvent := 0;
      ghost var done: seq<Event> := [];
      while iEvent < |events|
        invariant 0 <= iEvent <= |events| && done == events[..iEvent]
        invariant centralityFills == old(centralityFills) + RunCentralities(done)
        invariant pTFills == old(pTFills) + RunPTs(done)
        invariant forall i, k :: 0 <= i < NC && 0 <= k < NpT ==>
          azimuth[i, k] == old(azimuth[i, k]) + RunCell(done, i, k, pi)
      {
        var e := events[iEvent];
        RunSnoc(done, e, 0, 0, pi);
        label before:
        Observe(e, pi);
        AppendStep(old(centralityFills), old@before(centralityFills), centralityFills,
          RunCentralities(done), RunCentralities(done + [e]), [e.centrality]);
        AppendStep(old(pTFills), old@before(pTFills), pTFills, RunPTs(done), RunPTs(done + [e]), EventPTs(e));
        forall i, k | 0 <= i < NC && 0 <= k < NpT
          ensures azimuth[i, k] == old(azimuth[i, k]) + RunCell(done + [e], i, k, pi)
        {
          RunSnoc(done, e, i, k, pi);
          AppendStep(old(azimuth[i, k]), old@before(azimuth[i, k]), azimuth[i, k],
            RunCell(done, i, k, pi), RunCell(done + [e], i, k, pi), EventCell(e, i, k, pi));
        }
        PrefixSnoc(events, iEvent);
        done := done + [e];
        iEvent := iEvent + 1;
      }
      assert events[..iEvent] == events;
    }
  }
}
