// The main results about sqlite_stat4: over every sorted index the scan runs
// without a failing assert, and each sample it keeps carries the exact
// statistics of its row in the whole index.
module SampleTheorem {
  import opened IndexOrder
  import opened SampleSelection
  import opened SamplePreference
  import opened SampleAccuracy
  import opened SampleInsertion
  import opened SampleFlush
  import opened SampleScan

  // ---- the candidates when the next row arrives ----------------------------------

  // A candidate that is not replaced is not in the subgroup that goes on: its
  // count there would be one less than that of the current row.
  lemma OutsideSubgroup(b: Sample, c0: Sample, c: Sample, rows: seq<Entry>, row: Entry, nCol: nat, i: nat, iChng: nat)
    requires NextRow(rows, row, nCol, iChng) && i < nCol - 1
    requires CurrentOk(c0, rows, nCol) && CurrentOk(c, rows + [row], nCol)
    requires BestOk(b, rows, nCol, i) && SampleShape(c, nCol)
    requires !IsBetterPost(c.(iCol := i), b)
    ensures !Agree(rows[RowOf(b)], row, i + 1)
  {
    OpenNext(b, rows, row, nCol, iChng, i + 1);
    if Open(b, rows, nCol, i + 1) {
      OpenCount(b, rows, nCol, i + 1);
    }
    GroupGrows(rows, row, nCol, iChng, i + 1);
    assert c.anEq[i + 1] == EqRows(rows + [row], row, i + 1);
    assert b.anEq[i + 1] == EqRows(rows, rows[RowOf(b)], i + 1);
  }

  lemma GroupGrows(rows: seq<Entry>, row: Entry, nCol: nat, iChng: nat, j: nat)
    requires NextRow(rows, row, nCol, iChng) && j < nCol
    ensures j < iChng ==> EqRows(rows + [row], row, j) == EqRows(rows, rows[|rows| - 1], j) + 1
    ensures j < iChng <==> Agree(rows[|rows| - 1], row, j)
  {
    CountsAdvance(rows, row, nCol, j);
    ChangeAgrees(rows[|rows| - 1], row, iChng, j);
  }

  // A candidate of the group that goes on is replaced unless it is the last
  // row of a subgroup, whose counts no longer change.
  lemma BestNext(b: Sample, c0: Sample, c: Sample, rows: seq<Entry>, row: Entry, nCol: nat, i: nat, iChng: nat)
    requires NextRow(rows, row, nCol, iChng) && i < iChng && i < nCol - 1
    requires CurrentOk(c0, rows, nCol) && CurrentOk(c, rows + [row], nCol)
    requires BestOk(b, rows, nCol, i) && SampleShape(c, nCol)
    requires !IsBetterPost(c.(iCol := i), b)
    ensures BestOk(b, rows + [row], nCol, i)
  {
    var all := rows + [row];
    PlacedNext(b, rows, row, nCol);
    assert all[|all| - 1] == row;
    OpenNext(b, rows, row, nCol, iChng, i);
    OutsideSubgroup(b, c0, c, rows, row, nCol, i, iChng);
    forall j | i < j < nCol
      ensures CountOk(b, all, nCol, j)
    {
      CountsSettled(rows, row, nCol, RowOf(b), j);
      assert b.anEq[j] == EqRows(rows, rows[RowOf(b)], j);
    }
  }

  lemma CurrentIsBest(c: Sample, rows: seq<Entry>, nCol: nat, i: nat)
    requires Sorted(rows, nCol) && CurrentOk(c, rows, nCol) && i < nCol
    ensures BestOk(c.(iCol := i), rows, nCol, i)
  {
    assert RowOf(c.(iCol := i)) == RowOf(c);
    forall j | i < j < nCol
      ensures CountOk(c.(iCol := i), rows, nCol, j)
    {
      assert c.anEq[j] == c.(iCol := i).anEq[j];
      assert CountOk(c, rows, nCol, j);
    }
  }

  lemma RenewedOk(p: Accum, c0: Sample, rows: seq<Entry>, row: Entry, iChng: nat, q: Accum)
    requires Shape(p) && NextRow(rows, row, p.nCol, iChng)
    requires CurrentOk(c0, rows, p.nCol) && CurrentOk(p.current, rows + [row], p.nCol) && AllBestOk(p, rows)
    requires q == Renewed(p, iChng)
    ensures Shape(q) && AllBestOk(q, rows + [row])
  {
    forall i | 0 <= i < q.nCol - 1
      ensures BestOk(q.aBest[i], rows + [row], q.nCol, i)
    {
      assert q.aBest[i] == BestAfter(p.aBest[i], p.current, i, iChng);
      assert BestOk(p.aBest[i], rows, p.nCol, i);
      if q.aBest[i] == p.current.(iCol := i) {
        CurrentIsBest(p.current, rows + [row], p.nCol, i);
      } else {
        BestNext(p.aBest[i], c0, p.current, rows, row, p.nCol, i, iChng);
      }
    }
  }

  // ---- the invariant of the scan ---------------------------------------------------

  // After each stat_push().
  ghost predicate Scanned(p: Accum, rows: seq<Entry>)
    requires Shape(p) && Sorted(rows, p.nCol)
  {
    && p.nRow == |rows|
    && CurrentOk(p.current, rows, p.nCol)
    && AllBestOk(p, rows)
    && SamplesOk(p, rows, p.nCol - 2, |rows|)
  }

  lemma ScannedFlushing(p: Accum, rows: seq<Entry>)
    requires Shape(p) && Sorted(rows, p.nCol) && Scanned(p, rows)
    ensures Flushing(p, rows, p.nCol - 2)
  {
    forall k, j | 0 <= k < |p.a| && p.nCol - 2 < j < p.nCol
      ensures p.a[k].anEq[j] != 0
    {
      assert KeptOk(p.a[k], rows, p.nCol, p.nPSample, p.nCol - 2);
    }
  }

  lemma ChangedCurrent(c: Sample, rows: seq<Entry>, nCol: nat, c': Sample)
    requires Sorted(rows, nCol) && CurrentOk(c, rows, nCol)
    requires SampleShape(c', nCol) && c' == c.(iCol := c'.iCol)
    ensures CurrentOk(c', rows, nCol)
  {
    forall j | 0 <= j < nCol
      ensures CountOk(c', rows, nCol, j)
    {
      assert c.anEq[j] == EqRows(rows, rows[RowOf(c)], j);
    }
  }

  // The state just before the periodic sample is considered.
  lemma IdentifiedOk(p: Accum, rows: seq<Entry>, row: Entry, iChng: nat, q: Accum)
    requires Shape(p) && NextRow(rows, row, p.nCol, iChng)
    requires Flushed(p, rows, iChng) && |rows| + 1 < p.mxSample * p.nPSample
    requires q == Identified(p.(current := Advanced(p.current, iChng)), row.rowid)
    ensures Shape(q) && CurrentOk(q.current, rows + [row], p.nCol)
    ensures AllBestOk(q, rows)
    ensures SamplesOk(q, rows + [row], p.nCol - 2, |rows|)
  {
    AdvancedOk(p.current, rows, row, p.nCol, iChng, q.current);
    SamplesNext(p, rows, row, iChng, q);
    forall i | 0 <= i < q.nCol - 1
      ensures BestOk(q.aBest[i], rows, q.nCol, i)
    {
      assert q.aBest[i] == p.aBest[i];
    }
  }

  lemma PushTail(p: Accum, c0: Sample, rows: seq<Entry>, row: Entry, iChng: nat)
    requires Shape(p) && NextRow(rows, row, p.nCol, iChng) && p.nRow == |rows| + 1
    requires CurrentOk(c0, rows, p.nCol) && CurrentOk(p.current, rows + [row], p.nCol) && AllBestOk(p, rows)
    requires SamplesOk(p, rows + [row], p.nCol - 2, |rows|)
    ensures PushPeriodic(p).Ok?
    ensures Shape(Renewed(PushPeriodic(p).value, iChng))
    ensures Scanned(Renewed(PushPeriodic(p).value, iChng), rows + [row])
  {
    PushPeriodicOk(p, rows + [row]);
    var r := PushPeriodic(p).value;
    ChangedCurrent(p.current, rows + [row], p.nCol, r.current);
    assert AllBestOk(r, rows) by {
      forall i | 0 <= i < r.nCol - 1
        ensures BestOk(r.aBest[i], rows, r.nCol, i)
      {
        assert r.aBest[i] == p.aBest[i];
      }
    }
    var q := Renewed(r, iChng);
    RenewedOk(r, c0, rows, row, iChng, q);
    ChangedCurrent(r.current, rows + [row], p.nCol, q.current);
  }

  lemma PushOk(p: Accum, rows: seq<Entry>, row: Entry, iChng: nat)
    requires Shape(p) && NextRow(rows, row, p.nCol, iChng) && Scanned(p, rows)
    requires |rows| + 1 < p.mxSample * p.nPSample
    ensures Push(p, iChng, row.rowid).Ok?
    ensures Scanned(Push(p, iChng, row.rowid).value, rows + [row])
  {
    ScannedFlushing(p, rows);
    var f := PushPreviousOk(p, rows, iChng);
    var q := Identified(f.(current := Advanced(f.current, iChng)), row.rowid);
    IdentifiedOk(f, rows, row, iChng, q);
    PushTail(q, p.current, rows, row, iChng);
  }

  // ---- whole runs --------------------------------------------------------------------

  lemma ChangeIsFirst(a: Entry, b: Entry, nCol: nat)
    requires |a.cols| == |b.cols| == nCol > 0 && PrefixLess(a, b, nCol - 1)
    ensures IsChange(a, b, Change(a, b, 0))
  {
    var d :| 0 <= d < nCol && FirstBelow(a, b, d);
    assert a.cols[d] != b.cols[d];
  }

  // A blank accumulator.
  ghost predicate Blank(p: Accum)
    requires Shape(p)
  {
    && p.nRow == 0 && p.a == [] && p.nMaxEqZero == 0
    && !p.current.isPSample
    && (forall j {:trigger p.current.anLt[j]} :: 0 <= j < p.nCol ==> p.current.anLt[j] == 0)
    && (forall j {:trigger p.current.anDLt[j]} :: 0 <= j < p.nCol ==> p.current.anDLt[j] == 0)
  }

  lemma FirstIdentified(p: Accum, row: Entry, q: Accum)
    requires Shape(p) && Blank(p) && Sorted([row], p.nCol) && 1 < p.mxSample * p.nPSample
    requires q == Identified(p.(current := p.current.(anEq := seq(p.nCol, _ => 1))), row.rowid)
    ensures SameIndex(p.(nRow := 1), q) && CurrentOk(q.current, [row], p.nCol)
    ensures SamplesOk(q, [row], p.nCol - 2, 0)
  {
    FirstCurrentOk(row, p.nCol, q.current);
  }

  lemma FirstRenewed(r: Accum, row: Entry, s: Accum)
    requires Shape(r) && Sorted([row], r.nCol) && r.nRow == 1
    requires CurrentOk(r.current, [row], r.nCol) && SamplesOk(r, [row], r.nCol - 2, 1)
    requires s == Renewed(r, 0)
    ensures Scanned(s, [row])
  {
    ChangedCurrent(r.current, [row], r.nCol, s.current);
    forall i | 0 <= i < s.nCol - 1
      ensures BestOk(s.aBest[i], [row], s.nCol, i)
    {
      CurrentIsBest(r.current, [row], r.nCol, i);
    }
  }

  lemma FirstPushOk(p: Accum, row: Entry)
    requires Shape(p) && Blank(p) && Sorted([row], p.nCol) && 1 < p.mxSample * p.nPSample
    ensures Push(p, 0, row.rowid).Ok?
    ensures Scanned(Push(p, 0, row.rowid).value, [row])
  {
    var q := Identified(p.(current := p.current.(anEq := seq(p.nCol, _ => 1))), row.rowid);
    FirstIdentified(p, row, q);
    PushPeriodicOk(q, [row]);
    var r := PushPeriodic(q).value;
    ChangedCurrent(q.current, [row], p.nCol, r.current);
    FirstRenewed(r, row, Renewed(r, 0));
  }

  lemma PrefixSorted(rows: seq<Entry>, nCol: nat, n: nat)
    requires Sorted(rows, nCol) && n <= |rows|
    ensures Sorted(rows[..n], nCol)
  {
  }

  // Pushing rows on the accumulator p0 has had outcome r.
  ghost predicate GoesWell(p0: Accum, r: Outcome<Accum>, rows: seq<Entry>)
    requires Shape(p0) && Sorted(rows, p0.nCol)
  {
    && r.Ok?
    && SameIndex(p0.(nRow := |rows|), r.value)
    && Scanned(r.value, rows)
  }

  lemma PushGoesWell(p0: Accum, q: Accum, rows: seq<Entry>, row: Entry, d: nat)
    requires Shape(p0) && NextRow(rows, row, p0.nCol, d) && GoesWell(p0, Ok(q), rows)
    requires |rows| + 1 < p0.mxSample * p0.nPSample
    ensures GoesWell(p0, Push(q, d, row.rowid), rows + [row])
  {
    PushOk(q, rows, row, d);
  }

  lemma NextRowOf(rows: seq<Entry>, nCol: nat, n: nat)
    requires Sorted(rows, nCol) && 0 < n < |rows|
    ensures NextRow(rows[..n], rows[n], nCol, ChangeAt(rows, n, nCol))
    ensures rows[..n + 1] == rows[..n] + [rows[n]]
  {
    assert rows[..n + 1] == rows[..n] + [rows[n]];
    PrefixSorted(rows, nCol, n);
    PrefixSorted(rows, nCol, n + 1);
    ChangeIsFirst(rows[n - 1], rows[n], nCol);
  }

  lemma {:induction false} ScanOk(p0: Accum, rows: seq<Entry>, n: nat)
    requires Shape(p0) && Blank(p0) && Sorted(rows, p0.nCol) && 0 < n <= |rows| < p0.mxSample * p0.nPSample
    ensures Sorted(rows[..n], p0.nCol)
    ensures GoesWell(p0, Scan(p0, rows, n), rows[..n])
  {
    PrefixSorted(rows, p0.nCol, n);
    if n == 1 {
      assert rows[..1] == [rows[0]];
      assert Scan(p0, rows, 0) == Ok(p0);
      FirstPushOk(p0, rows[0]);
    } else {
      ScanOk(p0, rows, n - 1);
      NextRowOf(rows, p0.nCol, n - 1);
      var q := Scan(p0, rows, n - 1).value;
      PushGoesWell(p0, q, rows[..n - 1], rows[n - 1], ChangeAt(rows, n - 1, p0.nCol));
    }
  }

  lemma InitOk(nCol: nat, count: nat, seed: nat, p0: Accum)
    requires nCol > 0 && p0 == Init(nCol, count, seed)
    ensures Shape(p0) && Blank(p0) && p0.nCol == nCol && p0.mxSample == STAT4_SAMPLES
    ensures count < p0.mxSample * p0.nPSample
  {
  }

  lemma ScannedAfter(rows: seq<Entry>, p0: Accum, n: nat, p: Accum)
    requires Shape(p0) && Blank(p0) && Sorted(rows, p0.nCol) && 0 < n <= |rows| < p0.mxSample * p0.nPSample
    requires Scan(p0, rows, n) == Ok(p)
    ensures Shape(p) && p.nCol == p0.nCol && Sorted(rows[..n], p0.nCol) && Scanned(p, rows[..n])
  {
    ScanOk(p0, rows, n);
  }

  lemma WholeScan(rows: seq<Entry>, p0: Accum, p: Accum)
    requires Shape(p0) && Blank(p0) && Sorted(rows, p0.nCol) && 0 < |rows| < p0.mxSample * p0.nPSample
    requires Scan(p0, rows, |rows|) == Ok(p)
    ensures Shape(p) && p.nCol == p0.nCol && Scanned(p, rows)
  {
    ScannedAfter(rows, p0, |rows|, p);
    assert rows[..|rows|] == rows;
  }

  // The next stat_push() of the scan.
  lemma ScanTurn(p0: Accum, rows: seq<Entry>, n: nat, p: Accum)
    requires Shape(p0) && Sorted(rows, p0.nCol) && n < |rows| && Scan(p0, rows, n) == Ok(p)
    ensures Shape(p) && p.nCol == p0.nCol
    ensures Scan(p0, rows, n + 1) == Push(p, ChangeAt(rows, n, p0.nCol), rows[n].rowid)
  {
  }

  lemma ScanGoesOn(p0: Accum, rows: seq<Entry>, n: nat, u: Outcome<Accum>)
    requires Shape(p0) && Blank(p0) && Sorted(rows, p0.nCol) && 0 < n <= |rows| < p0.mxSample * p0.nPSample
    requires u == Scan(p0, rows, n)
    ensures u.Ok?
  {
    ScanOk(p0, rows, n);
  }

  // Between any two stat_push() calls, a zero count means that the sample and
  // the row just scanned share their first j+1 columns, and nothing else.
  lemma ZeroMeansOpen(p: Accum, rows: seq<Entry>, k: nat, j: nat)
    requires Shape(p) && Sorted(rows, p.nCol) && Scanned(p, rows) && k < |p.a| && j < p.nCol - 1
    ensures SampleShape(p.a[k], p.nCol) && RowOf(p.a[k]) < |rows|
    ensures p.a[k].anEq[j] == 0 <==> Agree(rows[RowOf(p.a[k])], rows[|rows| - 1], j)
  {
    assert KeptOk(p.a[k], rows, p.nCol, p.nPSample, p.nCol - 2);
  }

  // The sample is one of the rows, and says of the whole index how many rows
  // equal it, sort below it and how many distinct values sort below it - for
  // each number of leading columns.
  ghost predicate ExactSample(s: Sample, rows: seq<Entry>, nCol: nat)
    requires Sorted(rows, nCol)
  {
    && SampleShape(s, nCol)
    && RowOf(s) < |rows|
    && s.rowid == rows[RowOf(s)].rowid
    && forall j {:trigger s.anEq[j]} {:trigger s.anLt[j]} {:trigger s.anDLt[j]} :: 0 <= j < nCol ==>
         && s.anEq[j] == EqRows(rows, rows[RowOf(s)], j)
         && s.anLt[j] == LtRows(rows, rows[RowOf(s)], j)
         && s.anDLt[j] == DistinctLt(rows, rows[RowOf(s)], j)
  }

  lemma FlushedExact(p: Accum, rows: seq<Entry>, k: nat)
    requires Shape(p) && Sorted(rows, p.nCol) && Flushed(p, rows, 0) && k < |p.a|
    ensures ExactSample(p.a[k], rows, p.nCol)
  {
    var s := p.a[k];
    assert KeptOk(s, rows, p.nCol, p.nPSample, -1);
    forall j | 0 <= j < p.nCol
      ensures s.anEq[j] == EqRows(rows, rows[RowOf(s)], j)
    {
      assert s.anEq[j] > 0;
    }
  }

  // At any time of a scan of no more rows than announced: a third of the room for
  // samples is enough for the periodic ones.
  lemma PeriodicAtMostThird(p: Accum, rows: seq<Entry>, nCol: nat, count: nat, seed: nat, level: int)
    requires Sorted(rows, nCol) && Shape(p) && p.nCol == nCol && |rows| <= count
    requires p.nPSample == Init(nCol, count, seed).nPSample
    requires AllKeptOk(p.a, rows, nCol, p.nPSample, level) && Ascending(p.a, nCol)
    ensures PeriodicCount(p.a, |p.a|) <= STAT4_SAMPLES / 3
  {
    PeriodsCover(nCol, count, seed);
    PeriodicBound(p.a, rows, nCol, p.nPSample, level, STAT4_SAMPLES / 3);
  }

  lemma PeriodsCover(nCol: nat, count: nat, seed: nat)
    requires nCol > 0
    ensures count < (STAT4_SAMPLES / 3 + 1) * Init(nCol, count, seed).nPSample
  {
  }

  // What is left in a[] at the end: exact samples in index order, at most 24 of
  // them and at most 8 of them periodic, with every nPSample-th row among them.
  ghost predicate ExactSamples(p: Accum, rows: seq<Entry>, nCol: nat)
    requires Sorted(rows, nCol)
  {
    && Shape(p) && p.nCol == nCol
    && |p.a| <= STAT4_SAMPLES
    && (forall k {:trigger p.a[k]} :: 0 <= k < |p.a| ==> ExactSample(p.a[k], rows, nCol))
    && PeriodicCount(p.a, |p.a|) <= STAT4_SAMPLES / 3
    && Ascending(p.a, nCol)
    && PeriodicKept(p.a, nCol, |rows|, p.nPSample)
  }

  // Main theorem.
  lemma AnalyzeExact(rows: seq<Entry>, nCol: nat, count: nat, seed: nat)
    requires Sorted(rows, nCol) && 0 < |rows| <= count
    ensures Analyze(rows, nCol, count, seed).Ok?
    ensures ExactSamples(Analyze(rows, nCol, count, seed).value, rows, nCol)
  {
    var p0 := Init(nCol, count, seed);
    InitOk(nCol, count, seed, p0);
    ScanOk(p0, rows, |rows|);
    var p := Scan(p0, rows, |rows|).value;
    WholeScan(rows, p0, p);
    ScannedFlushing(p, rows);
    var q := PushPreviousOk(p, rows, 0);
    PeriodicAtMostThird(q, rows, nCol, count, seed, -1);
    forall k | 0 <= k < |q.a|
      ensures ExactSample(q.a[k], rows, nCol)
    {
      FlushedExact(q, rows, k);
    }
  }

  // The last row counts itself.
  lemma CurrentPositive(p: Accum, rows: seq<Entry>)
    requires Shape(p) && Sorted(rows, p.nCol) && Scanned(p, rows)
    ensures forall i {:trigger p.current.anEq[i]} :: 0 <= i < p.nCol ==> p.current.anEq[i] > 0
  {
    forall i | 0 <= i < p.nCol
      ensures p.current.anEq[i] > 0
    {
      assert CountOk(p.current, rows, p.nCol, i);
      EqRowsPositive(rows, |rows| - 1, i);
    }
  }

  // The counts of the last row, from which the sqlite_stat1 numbers come.
  lemma LastRowCounts(p: Accum, rows: seq<Entry>, j: nat)
    requires Shape(p) && Sorted(rows, p.nCol) && Scanned(p, rows) && j < p.nCol
    ensures p.current.anDLt[j] + 1 == |Prefixes(rows, p.nCol, j)|
  {
    DistinctInAll(rows, p.nCol, j);
  }
}
