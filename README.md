# Elliptic-flow analysis core, modelled in Dafny

This project models the computational core of `analyzetree.cc`. That program measures the
elliptic flow v2 of particles from heavy-ion collision events. It does four things:

- It reads a table of reaction-plane resolutions, splits the rows into the centrality
  classes [0,30] and [40,70], and averages each class.
- It streams events. Each event's centrality is histogrammed, and the event is either
  classified or skipped.
- For each particle of a kept event, it histograms the transverse momentum pT. It then
  finds the pT bin with a counting loop and folds the particle's azimuthal angle, taken
  relative to the reaction plane, into [-pi/2, pi/2] by period-pi loops. The folded
  angle goes into one cell of a 2 x 19 grid of angular histograms.
- For every cell it turns the fitted parameters A, B, their errors and covariance into
  v2 = B / A / R and its propagated uncertainty, where R is the class's mean resolution.

All arithmetic is over exact reals. The constant pi is a parameter known only to be
positive. pT and phi are inputs to the model, because the source computes them with
`sqrt` and `atan2`. A histogram is modelled as the sequence of values filled into it, in
fill order. ROOT's internal 100-way binning is not modelled.

Modules:

- `Wrappers` holds `Option` and `Result`.
- `Layout` holds the centrality classes, NpT, the pT bin index and the curve x-coordinates.
- `Angle` holds the period-pi fold.
- `Resolution` holds table reading, the class split and the means.
- `Accumulation` holds the class `Accumulator`. Its fields are the three histogram
  families, and the angular grid is an `array2`. Its methods are the particle, event and
  run loops.
- `Flow` holds v2 and its uncertainty.

The loops of the source are methods with loop invariants. Each is proved against a
specification function, and the properties the analysis relies on are lemmas about those
functions.

The counting loop at `analyzetree.cc:227-230` puts bin k at 0.1(k+1) <= pT < 0.1(k+2), that
is, floor(10 pT) - 1. So pT = 0.1 is bin 0 and pT = 1 is bin 9. That last case is
`Accumulation.SingleTrackExample`.

## Model

| member | source | states |
|---|---|---|
| Layout.Classify | analyzetree.cc:204-210 | an event has a class exactly when its centrality is in [0,30] or [40,70] (bounds inclusive); the class returned is one whose bounds contain the centrality |
| Layout.ClassesDisjoint | analyzetree.cc:205-208 | the two classes never overlap, so class 1 is chosen exactly for centralities in [40,70] despite the first-match order |
| Layout.BinCount | analyzetree.cc:35 | (int)(2/0.1) - 1 is 19 bins; the first upper edge is 0.2 and the last is 2.0 |
| Layout.PTSplitting | analyzetree.cc:36-39 | the generator loop yields 19 values, the k-th being the upper edge 0.1(k+2) of bin k |
| Layout.BinIndex | analyzetree.cc:227-230 | the counting loop terminates for every pT and returns the index PTBin(pT) (-1 below 0.1, else floor(10 pT) - 1) |
| Layout.BinEdges | analyzetree.cc:227-230 | for k >= 0, the loop gives index k exactly when 0.1(k+1) <= pT < 0.1(k+2) |
| Layout.BinnedRangeExact | analyzetree.cc:221-242 | the index is a valid position in a row of 19 histograms exactly when 0.1 <= pT < 2.0 |
| Layout.SourceGuardOverruns | analyzetree.cc:221-242 | every pT that the guard `pT > 2` lets through but that lies outside [0.1, 2.0) gets index -1 or 19, and 19 exactly at pT = 2.0 |
| Layout.SourceGuardCounterexample | analyzetree.cc:221-242 | pT = 0.05 passes the guard and gets index -1; pT = 2.0 passes it and gets index 19 over exact reals |
| Angle.FoldAngle | analyzetree.cc:237-239 | the two loops (subtract pi while above pi/2, then add pi while below -pi/2) always terminate, with the closed-form fold of the input |
| Angle.FoldSatisfies | analyzetree.cc:237-239 | the fold lies in [-pi/2, pi/2], differs from the input by a whole number of pi, and reaches the upper edge only by subtraction and the lower edge only by addition |
| Angle.FoldedUnique | analyzetree.cc:237-239 | at most one result and half-turn count meet that description |
| Angle.FoldedIsFold | analyzetree.cc:237-239 | any result that meets the description is the fold |
| Angle.FoldRange | analyzetree.cc:237-239 | the folded angle lies in [-pi/2, pi/2] and is the input minus an integer multiple of pi |
| Angle.FoldKeepsInRange | analyzetree.cc:237-239 | an angle already in [-pi/2, pi/2] is left unchanged |
| Angle.FoldIdempotent | analyzetree.cc:237-239 | folding a folded angle changes nothing |
| Angle.FoldPeriodic | analyzetree.cc:237-239 | shifting the input by any whole number of pi leaves an interior result unchanged |
| Resolution.ReadTable | analyzetree.cc:77-103 | a file that cannot be opened is the only failure; otherwise every line yields exactly one (centrality, resolution) row, in file order, each value defaulting to 0 |
| Resolution.UnreadableLineIsZero | analyzetree.cc:86-92 | a blank line, or one whose first token does not parse, becomes the row (0, 0) |
| Resolution.Split | analyzetree.cc:109-116 | the splitting loop leaves in each list exactly the resolutions of that class's rows, in file order |
| Resolution.ClassRowsExact | analyzetree.cc:110-116 | a class's rows are increasing row numbers, and a row is among them exactly when its centrality classifies into that class |
| Resolution.ClassSamplesAreClassRows | analyzetree.cc:110-116 | the j-th resolution in a class list is the resolution of the j-th row of that class, so order is kept and nothing else is taken |
| Resolution.PartitionDisjoint | analyzetree.cc:110-116 | no row lands in both lists, and a row in neither class lands in none |
| Resolution.Mean | analyzetree.cc:118-119 | a class has a mean exactly when it is non-empty, and mean times size is the sum |
| Resolution.SumBounds | analyzetree.cc:118-119 | the accumulated sum lies between size times the smallest and size times the largest sample |
| Resolution.MeanWithinBounds | analyzetree.cc:118-119 | a non-empty class's mean lies between its smallest and largest sample |
| Resolution.SingleSampleMean | analyzetree.cc:118-119 | a class with a single sample has that sample as its mean |
| Resolution.ResolutionMeans | analyzetree.cc:77-121 | reading, splitting and averaging give one mean per class, each the mean of that class's rows of the file, or the open failure |
| Resolution.FourRowExample | analyzetree.cc:109-121 | rows (10, 0.30), (20, 0.34), (50, 0.28), (60, 0.30) give the means 0.32 and 0.29 |
| Accumulation.ParticleFillOneCell | analyzetree.cc:227-242 | a particle with 0.1 <= pT < 2.0 adds one angle to exactly one of the 19 cells of its class, and any other particle adds none |
| Accumulation.CellFillsInRange | analyzetree.cc:237-242 | every angle one event fills into an angular histogram lies in [-pi/2, pi/2] |
| Accumulation.RunCellInRange | analyzetree.cc:180-244 | after any run of events, every angle in every angular histogram lies in [-pi/2, pi/2] |
| Accumulation.TotalFills | analyzetree.cc:215-242 | over the 19 cells of its class, an event receives one angle per particle in the binned range |
| Accumulation.SkippedEventAddsNothing | analyzetree.cc:203-210 | an event outside both classes adds nothing to the pT distribution or to any angular cell |
| Accumulation.SingleTrackExample | analyzetree.cc:196-242 | centrality 15, reaction plane 0 and one track of pT 1 at angle 0 give the angle 0 in class 0, bin 9, and nothing in any other cell |
| Accumulation.Accumulator.constructor | analyzetree.cc:144-155 | all histograms start empty, and the angular grid is 2 x 19 |
| Accumulation.Accumulator.FillParticle | analyzetree.cc:218-242 | the pT is always recorded; a binned pT adds its folded angle to cell (class, bin) and no other cell changes; a pT below 0.1 fills nothing (the corrected guard, see Findings) |
| Accumulation.Accumulator.Observe | analyzetree.cc:196-243 | the centrality is always recorded, before classification; a skipped event changes nothing else; a kept event adds its particles' pT values and angles in particle order |
| Accumulation.Accumulator.Run | analyzetree.cc:180-244 | after the event loop each histogram holds its old contents followed by what every event contributes, in event order |
| Flow.V2 | analyzetree.cc:278 | v2 is defined exactly when a mean resolution exists and A and R are non-zero, and then v2 * A * R = B |
| Flow.Radicand | analyzetree.cc:280 | the quantity under the square root is accepted only for non-zero A and B, and is then non-negative |
| Flow.RadicandCleared | analyzetree.cc:280 | for non-zero A and B, the radicand times (A B)^2 is AErr^2 B^2 + BErr^2 A^2 - 2 Cov A B, so it is accepted exactly when that is non-negative |
| Flow.V2Err | analyzetree.cc:280 | the uncertainty is defined exactly when v2 and the radicand are; its scale squared equals v2 squared, and it is positive exactly when R is |
| Flow.ResolutionScaling | analyzetree.cc:278-280 | dividing by lambda R instead of R divides v2 and the uncertainty's scale by lambda and keeps the radicand |
| Flow.DoublingHalves | analyzetree.cc:278-280 | doubling the mean resolution halves both v2 and its uncertainty |

## Left out

- The fit (`analyzetree.cc:250-275`) is ROOT library code. A, B, their errors and Cov(A, B) are inputs to `Flow`.
- `sqrt` and `atan2` (`analyzetree.cc:219, 235`) are foreign floating-point functions. pT and phi are inputs.
- Flow.V2Err: the square root in the uncertainty is left symbolic. The result is `Spread(scale, radicand)`, meaning scale * sqrt(radicand), because Dafny's reals have no square root.
- Double rounding is not modelled. The repeated `+= 0.1` in the bin loop and in the curve x-coordinates, and the subtractions of pi in the fold, are exact here. In doubles, results at bin edges (for example pT = 2.0) depend on accumulated rounding.
- Resolution.Mean: an empty class gives no mean. The source divides 0 by 0 there and carries a NaN into v2. The model carries `None` and reports `NoResolution`.
- Flow.V2: a zero A or R gives a failure instead of the source's infinity or NaN. Likewise a zero B or a negative radicand in `Flow.V2Err` gives a failure.
- File handling and number parsing (`analyzetree.cc:51-103`) are abstracted:
  - A file is given as its lines, already split into tokens, or `None` when it cannot be opened.
  - The program's exit on that failure is the `Failure` result.
  - The first-line column count (`analyzetree.cc:55-67`) is computed but never used, and is not modelled.
- The event reader `particle_tree` (`analyzetree.cc:159-191`) is not part of this model. An event is given as its reaction plane, its centrality and its particles' (pT, phi).
- Progress printing (`analyzetree.cc:183-186`) and the printing of results (`analyzetree.cc:282`) are output only.
- The curve and file output (`analyzetree.cc:257-260, 284-306`) is left out: `TGraph` assembly and `TFile` writing are ROOT output.
- Command-line handling (`analyzetree.cc:125-140`) and the event cap (`analyzetree.cc:171-175`) are plumbing. `Accumulation.Accumulator.Run` takes the events to process as given.
- `Plot_analyzetree.C` is plotting only.
- Accumulation.Accumulator.FillParticle: drops pT = 2.0 exactly. The source's guard `pT > 2.` keeps that value on purpose. In doubles the counting loop's sum 0.1 + 19 x 0.1 exceeds 2.0, so the source fills bin 18 there. Over exact reals the loop gives index 19, one past the row, so the model fills nothing for it; this is the rounding left out above.
- ROOT's 100-bin layout of each histogram, and its under- and overflow, are not modelled. A histogram is the sequence of values filled into it.

## Findings

| source | as written | input that shows it | evidently intended | confidence | as-written member | corrected member |
|---|---|---|---|---|---|---|
| analyzetree.cc:221-242 | the only guard before `azimuthDistribution[centralityRange][pTRange]` is `pT > 2.`, so the bin index can fall outside the row of 19 histograms | pT = 0.05 passes the guard, the counting loop never runs, and the fill goes to index -1 | a pT below 0.1 fills no angular histogram | not executed; this case does not depend on rounding | Layout.SourceGuardCounterexample | Accumulation.Accumulator.FillParticle |
