/**
 * The reaction-plane resolution table: reading (centrality, resolution) rows,
 * splitting them into the two centrality classes and averaging each class
 * (analyzetree.cc, lines 49-121).
 */
module Resolution {
  import opened Wrappers
  import opened Layout

  /**
   * The outcome of one `>>` extraction of a double from a line: a number, or
   * text that does not parse as one.
   */
  datatype Token = Number(value: real) | Malformed

  /** A line of the table, as the sequence of extraction outcomes it yields. */
  type Line = seq<Token>

  /** The table as two parallel columns, in file order. */
  datatype Table = Table(centralities: seq<real>, resolutions: seq<real>)

  /** The only failure of reading: the file cannot be opened (the source then exits). */
  datatype ReadError = CannotOpen

  /**
   * One row from one line. Both values start at 0; a missing or malformed
   * first token leaves the stream failed, so the second read yields nothing either.
   */
  function LineCentrality(line: Line): real
  {
    if |line| >= 1 && line[0].Number? then line[0].value else 0.0
  }

  function LineResolution(line: Line): real
  {
    if |line| >= 2 && line[0].Number? && line[1].Number? then line[1].value else 0.0
  }

  /**
   * Reads every line into one (centrality, resolution) row, in file order;
   * `None` stands for a file that cannot be opened.
   */
  method ReadTable(file: Option<seq<Line>>) returns (r: Result<Table, ReadError>)
    ensures file.None? <==> r.Failure?
    ensures r.Success? ==>
      |r.value.centralities| == |file.value| && |r.value.resolutions| == |file.value|
    ensures r.Success? ==> forall i :: 0 <= i < |file.value| ==>
      r.value.centralities[i] == LineCentrality(file.value[i])
      && r.value.resolutions[i] == LineResolution(file.value[i])
  {
    if file.None? {
      return Failure(CannotOpen);
    }
    var lines := file.value;
    var rpCentrality: seq<real> := [];
    var rpResolution: seq<real> := [];
    var i := 0;
    while i < |lines|
      invariant 0 <= i <= |lines|
      invariant |rpCentrality| == i && |rpResolution| == i
      invariant forall j :: 0 <= j < i ==>
        rpCentrality[j] == LineCentrality(lines[j]) && rpResolution[j] == LineResolution(lines[j])
    {
      var centralityTemp := 0.0;
      var resolutionTemp := 0.0;
      if |lines[i]| >= 1 && lines[i][0].Number? {
        centralityTemp := lines[i][0].value;
        if |lines[i]| >= 2 && lines[i][1].Number? {
          resolutionTemp := lines[i][1].value;
        }
      }
      rpCentrality := rpCentrality + [centralityTemp];
      rpResolution := rpResolution + [resolutionTemp];
      i := i + 1;
    }
    r := Success(Table(rpCentrality, rpResolution));
  }

  /** A blank line, or one whose first token does not parse, becomes the row (0, 0). */
  lemma UnreadableLineIsZero(line: Line)
    requires |line| == 0 || line[0].Malformed?
    ensures LineCentrality(line) == 0.0 && LineResolution(line) == 0.0
  {
  }

  /**
   * The resolutions of the rows in class `c`, in file order (specification of
   * the splitting loop).
   */
  function ClassSamples(cents: seq<real>, ress: seq<real>, c: int): seq<real>
    requires |cents| == |ress|
  {
    if |cents| == 0 then []
    else
      var n := |cents| - 1;
      ClassSamples(cents[..n], ress[..n], c) + (if Classify(cents[n]) == Some(c) then [ress[n]] else [])
  }

  /** The row numbers of the rows in class `c`, in increasing order. */
  function ClassRows(cents: seq<real>, c: int): seq<int>
  {
    if |cents| == 0 then []
    else
      var n := |cents| - 1;
      ClassRows(cents[..n], c) + (if Classify(cents[n]) == Some(c) then [n] else [])
  }

  /** Appending a row extends the class of that row by its resolution, and no other class. */
  lemma ClassSamplesSnoc(cents: seq<real>, ress: seq<real>, x: real, y: real, c: int)
    requires |cents| == |ress|
    ensures ClassSamples(cents + [x], ress + [y], c)
      == ClassSamples(cents, ress, c) + (if Classify(x) == Some(c) then [y] else [])
  {
    assert (cents + [x])[..|cents|] == cents;
    assert (ress + [y])[..|ress|] == ress;
  }

  /** The class rows are increasing row numbers, and they are exactly the rows whose centrality is in the class. */
  lemma {:induction false} ClassRowsExact(cents: seq<real>, c: int)
    ensures forall j :: 0 <= j < |ClassRows(cents, c)| ==> 0 <= ClassRows(cents, c)[j] < |cents|
    ensures forall j, l :: 0 <= j < l < |ClassRows(cents, c)| ==> ClassRows(cents, c)[j] < ClassRows(cents, c)[l]
    ensures forall i :: 0 <= i < |cents| ==> (i in ClassRows(cents, c) <==> Classify(cents[i]) == Some(c))
  {
    if |cents| > 0 {
      var n := |cents| - 1;
      ClassRowsExact(cents[..n], c);
      assert forall i :: 0 <= i < n ==> cents[..n][i] == cents[i];
    }
  }

  /**
   * Splitting keeps file order and selects exactly the rows of the class:
   * the j-th sample of class `c` is the resolution of its j-th class row.
   */
  lemma {:induction false} ClassSamplesAreClassRows(cents: seq<real>, ress: seq<real>, c: int)
    requires |cents| == |ress|
    ensures |ClassSamples(cents, ress, c)| == |ClassRows(cents, c)|
    ensures forall j :: 0 <= j < |ClassRows(cents, c)| ==>
      0 <= ClassRows(cents, c)[j] < |ress| && ClassSamples(cents, ress, c)[j] == ress[ClassRows(cents, c)[j]]
  {
    if |cents| > 0 {
      var n := |cents| - 1;
      var pc, pr := cents[..n], ress[..n];
      ClassSamplesAreClassRows(pc, pr, c);
      ClassRowsExact(pc, c);
      var rows, samples := ClassRows(pc, c), ClassSamples(pc, pr, c);
      var last := Classify(cents[n]) == Some(c);
      assert ClassRows(cents, c) == rows + (if last then [n] else []);
      assert ClassSamples(cents, ress, c) == samples + (if last then [ress[n]] else []);
      forall j | 0 <= j < |rows|
        ensures pr[rows[j]] == ress[rows[j]]
      {
      }
    }
  }

  /** A row lands in at most one class; a row outside both classes lands in none. */
  lemma PartitionDisjoint(cents: seq<real>, ress: seq<real>, i: int)
    requires |cents| == |ress| && 0 <= i < |cents|
    ensures !(i in ClassRows(cents, 0) && i in ClassRows(cents, 1))
    ensures Classify(cents[i]).None? ==> i !in ClassRows(cents, 0) && i !in ClassRows(cents, 1)
  {
    ClassRowsExact(cents, 0);
    ClassRowsExact(cents, 1);
  }

  /** The splitting loop: rows of [0,30] go to the first list, rows of [40,70] to the second. */
  method Split(t: Table) returns (rpResolution1: seq<real>, rpResolution2: seq<real>)
    requires |t.centralities| == |t.resolutions|
    ensures rpResolution1 == ClassSamples(t.centralities, t.resolutions, 0)
    ensures rpResolution2 == ClassSamples(t.centralities, t.resolutions, 1)
  {
    var cents, ress := t.centralities, t.resolutions;
    rpResolution1, rpResolution2 := [], [];
    var iRes := 0;
    while iRes < |ress|
      invariant 0 <= iRes <= |ress|
      invariant rpResolution1 == ClassSamples(cents[..iRes], ress[..iRes], 0)
      invariant rpResolution2 == ClassSamples(cents[..iRes], ress[..iRes], 1)
    {
      assert cents[..iRes + 1] == cents[..iRes] + [cents[iRes]];
      assert ress[..iRes + 1] == ress[..iRes] + [ress[iRes]];
      ClassSamplesSnoc(cents[..iRes], ress[..iRes], cents[iRes], ress[iRes], 0);
      ClassSamplesSnoc(cents[..iRes], ress[..iRes], cents[iRes], ress[iRes], 1);
      if InClass(cents[iRes], 0) {
        rpResolution1 := rpResolution1 + [ress[iRes]];
      } else if InClass(cents[iRes], 1) {
        rpResolution2 := rpResolution2 + [ress[iRes]];
      }
      iRes := iRes + 1;
    }
    assert cents[..iRes] == cents && ress[..iRes] == ress;
  }

  /** Left-to-right sum, as std::accumulate computes it from 0. */
  function Sum(s: seq<real>): real
  {
    if |s| == 0 then 0.0 else Sum(s[..|s| - 1]) + s[|s| - 1]
  }

  /**
   * The class mean: sum divided by size. An empty class has none (the source
   * divides 0 by 0 there).
   */
  function Mean(s: seq<real>): (m: Option<real>)
    ensures m.Some? <==> |s| > 0
    ensures m.Some? ==> m.value * |s| as real == Sum(s)
  {
    if |s| == 0 then None else Some(Sum(s) / |s| as real)
  }

  lemma {:induction false} SumBounds(s: seq<real>, lo: real, hi: real)
    requires forall i :: 0 <= i < |s| ==> lo <= s[i] <= hi
    ensures lo * |s| as real <= Sum(s) <= hi * |s| as real
  {
    if |s| > 0 {
      var n := |s| - 1;
      assert forall i :: 0 <= i < n ==> s[..n][i] == s[i];
      SumBounds(s[..n], lo, hi);
      assert lo * (n + 1) as real == lo * n as real + lo;
      assert hi * (n + 1) as real == hi * n as real + hi;
    }
  }

  /** The mean of a non-empty class lies between the smallest and largest of its samples. */
  lemma MeanWithinBounds(s: seq<real>, lo: real, hi: real)
    requires |s| > 0
    requires forall i :: 0 <= i < |s| ==> lo <= s[i] <= hi
    ensures lo <= Mean(s).value <= hi
  {
    SumBounds(s, lo, hi);
    var n := |s| as real;
    var m := Mean(s).value;
    assert m * n == Sum(s);
    assert (m - lo) * n >= 0.0;
    assert (hi - m) * n >= 0.0;
  }

  /** A class holding a single sample has that sample as its mean. */
  lemma SingleSampleMean(x: real)
    ensures Mean([x]) == Some(x)
  {
    assert [x][..0] == [];
    assert Sum([x]) == x;
  }

  /**
   * Reading, splitting and averaging together: the per-class mean resolutions,
   * or the read failure.
   */
  method ResolutionMeans(file: Option<seq<Line>>) returns (r: Result<seq<Option<real>>, ReadError>)
    ensures file.None? <==> r.Failure?
    ensures r.Success? ==> |r.value| == NC && forall c :: 0 <= c < NC ==>
      r.value[c] == Mean(ClassSamples(Centralities(file.value), Resolutions(file.value), c))
  {
    var table := ReadTable(file);
    if table.Failure? {
      return Failure(table.error);
    }
    var t := table.value;
    assert t.centralities == Centralities(file.value);
    assert t.resolutions == Resolutions(file.value);
    var rpResolution1, rpResolution2 := Split(t);
    r := Success([Mean(rpResolution1), Mean(rpResolution2)]);
  }

  function Centralities(lines: seq<Line>): (cs: seq<real>)
    ensures |cs| == |lines|
  {
    seq(|lines|, i requires 0 <= i < |lines| => LineCentrality(lines[i]))
  }

  function Resolutions(lines: seq<Line>): (rs: seq<real>)
    ensures |rs| == |lines|
  {
    seq(|lines|, i requires 0 <= i < |lines| => LineResolution(lines[i]))
  }

  /**
   * Rows (10, 0.30), (20, 0.34), (50, 0.28), (60, 0.30) give the means 0.32 for
   * [0,30] and 0.29 for [40,70].
   */
  lemma FourRowExample()
    ensures Mean(ClassSamples([10.0, 20.0, 50.0, 60.0], [0.30, 0.34, 0.28, 0.30], 0)) == Some(0.32)
    ensures Mean(ClassSamples([10.0, 20.0, 50.0, 60.0], [0.30, 0.34, 0.28, 0.30], 1)) == Some(0.29)
  {
    assert Classify(10.0) == Some(0) && Classify(20.0) == Some(0);
    assert Classify(50.0) == Some(1) && Classify(60.0) == Some(1);
    ClassSamplesSnoc([], [], 10.0, 0.30, 0);
    ClassSamplesSnoc([10.0], [0.30], 20.0, 0.34, 0);
    ClassSamplesSnoc([10.0, 20.0], [0.30, 0.34], 50.0, 0.28, 0);
    ClassSamplesSnoc([10.0, 20.0, 50.0], [0.30, 0.34, 0.28], 60.0, 0.30, 0);
    ClassSamplesSnoc([], [], 10.0, 0.30, 1);
    ClassSamplesSnoc([10.0], [0.30], 20.0, 0.34, 1);
    ClassSamplesSnoc([10.0, 20.0], [0.30, 0.34], 50.0, 0.28, 1);
    ClassSamplesSnoc([10.0, 20.0, 50.0], [0.30, 0.34, 0.28], 60.0, 0.30, 1);
    assert [10.0, 20.0, 50.0] + [60.0] == [10.0, 20.0, 50.0, 60.0];
    assert [0.30, 0.34, 0.28] + [0.30] == [0.30, 0.34, 0.28, 0.30];
    assert ClassSamples([10.0, 20.0, 50.0, 60.0], [0.30, 0.34, 0.28, 0.30], 0) == [0.30, 0.34];
    assert ClassSamples([10.0, 20.0, 50.0, 60.0], [0.30, 0.34, 0.28, 0.30], 1) == [0.28, 0.30];
    assert [0.30, 0.34][..1] == [0.30] && [0.30][..0] == [];
    assert [0.28, 0.30][..1] == [0.28] && [0.28][..0] == [];
    assert Sum([0.30, 0.34]) == 0.64;
    assert Sum([0.28, 0.30]) == 0.58;
  }
}
