// What the accumulator means.  With rows the entries pushed so far, a zero in
// anEq[j] of a kept sample stands for "still open": the sample shares its
// first j+1 columns with the row being scanned, so the size of its group is
// not known yet.  Every other count is exact.
module SampleAccuracy {
  import opened Division
  import opened IndexOrder
  import opened SampleSelection
  import opened SamplePreference

  // The position of a sample among the rows of the index.
  ghost function RowOf(s: Sample): nat
    requires |s.anLt| > 0
  {
    s.anLt[|s.anLt| - 1]
  }

  // The sample is one of the rows; its anLt[] and anDLt[] are exact.
  ghost predicate Placed(s: Sample, rows: seq<Entry>, nCol: nat)
    requires Sorted(rows, nCol)
  {
    && SampleShape(s, nCol)
    && RowOf(s) < |rows|
    && s.rowid == rows[RowOf(s)].rowid
    && (forall j {:trigger s.anLt[j]} :: 0 <= j < nCol ==> s.anLt[j] == LtRows(rows, rows[RowOf(s)], j))
    && (forall j {:trigger s.anDLt[j]} :: 0 <= j < nCol ==> s.anDLt[j] == DistinctLt(rows, rows[RowOf(s)], j))
  }

  ghost predicate CountOk(s: Sample, rows: seq<Entry>, nCol: nat, j: nat)
    requires Sorted(rows, nCol) && Placed(s, rows, nCol) && j < nCol
  {
    s.anEq[j] == EqRows(rows, rows[RowOf(s)], j)
  }

  // The sample belongs to the group, on columns 0..j, that is being scanned.
  ghost predicate Open(s: Sample, rows: seq<Entry>, nCol: nat, j: nat)
    requires Sorted(rows, nCol) && Placed(s, rows, nCol) && j < nCol
  {
    Agree(rows[RowOf(s)], rows[|rows| - 1], j)
  }

  // A kept sample, once candidates down to column level + 1 are dealt with.
  ghost predicate KeptOk(s: Sample, rows: seq<Entry>, nCol: nat, nPSample: nat, level: int)
    requires Sorted(rows, nCol) && nPSample > 0
  {
    && Placed(s, rows, nCol)
    && (forall j {:trigger s.anEq[j]} :: 0 <= j < nCol ==>
          if s.anEq[j] == 0 then j < nCol - 1 && Open(s, rows, nCol, j) else CountOk(s, rows, nCol, j))
    && (forall j {:trigger s.anEq[j]} :: 0 <= j <= level && j < nCol - 1 && Open(s, rows, nCol, j) ==> s.anEq[j] == 0)
    && (!s.isPSample ==> forall j {:trigger s.anEq[j]} :: s.iCol <= j < nCol ==> s.anEq[j] != 0)
    && (s.isPSample <==> (RowOf(s) + 1) % nPSample == 0)
  }

  ghost predicate AllKeptOk(a: seq<Sample>, rows: seq<Entry>, nCol: nat, nPSample: nat, level: int)
    requires Sorted(rows, nCol) && nPSample > 0
  {
    forall k {:trigger a[k]} :: 0 <= k < |a| ==> KeptOk(a[k], rows, nCol, nPSample, level)
  }

  ghost predicate Ascending(a: seq<Sample>, nCol: nat)
    requires AllShaped(a, nCol) && nCol > 0
  {
    forall k, l :: 0 <= k < l < |a| ==> RowOf(a[k]) < RowOf(a[l])
  }

  ghost predicate HasRow(a: seq<Sample>, nCol: nat, r: nat)
    requires AllShaped(a, nCol) && nCol > 0
  {
    exists k :: 0 <= k < |a| && RowOf(a[k]) == r
  }

  // Every nPSample-th of the first n rows is kept.
  ghost predicate PeriodicKept(a: seq<Sample>, nCol: nat, n: nat, nPSample: nat)
    requires AllShaped(a, nCol) && nCol > 0 && nPSample > 0
  {
    forall r :: 0 <= r < n && (r + 1) % nPSample == 0 ==> HasRow(a, nCol, r)
  }

  // The invariant of a[], nSample, iMin and nMaxEqZero.
  ghost predicate SamplesOk(p: Accum, rows: seq<Entry>, level: int, seen: nat)
    requires Shape(p) && Sorted(rows, p.nCol)
  {
    && level < p.nCol - 1
    && seen <= |rows|
    && |rows| < p.mxSample * p.nPSample
    && AllKeptOk(p.a, rows, p.nCol, p.nPSample, level)
    && Ascending(p.a, p.nCol)
    && (forall k {:trigger p.a[k]} :: 0 <= k < |p.a| ==> RowOf(p.a[k]) < seen)
    && (|p.a| == p.mxSample ==> IsLeast(p.a, p.nCol, |p.a|, p.iMin))
    && p.nMaxEqZero < p.nCol
    && NoZeroFrom(p.a, p.nCol, p.nMaxEqZero)
    && PeriodicKept(p.a, p.nCol, seen, p.nPSample)
  }

  // The current row and its exact counts.
  ghost predicate CurrentOk(c: Sample, rows: seq<Entry>, nCol: nat)
    requires Sorted(rows, nCol)
  {
    && rows != []
    && Placed(c, rows, nCol)
    && !c.isPSample
    && RowOf(c) == |rows| - 1
    && forall j {:trigger c.anEq[j]} {:trigger CountOk(c, rows, nCol, j)} :: 0 <= j < nCol ==> CountOk(c, rows, nCol, j)
  }

  // Candidate i is in the current group on columns 0..i, with exact counts to
  // the right of column i.
  ghost predicate BestOk(b: Sample, rows: seq<Entry>, nCol: nat, i: nat)
    requires Sorted(rows, nCol) && rows != []
  {
    && i < nCol
    && Placed(b, rows, nCol)
    && !b.isPSample
    && b.iCol == i
    && Open(b, rows, nCol, i)
    && forall j {:trigger b.anEq[j]} {:trigger CountOk(b, rows, nCol, j)} :: i < j < nCol ==> CountOk(b, rows, nCol, j)
  }

  ghost predicate AllBestOk(p: Accum, rows: seq<Entry>)
    requires Shape(p) && Sorted(rows, p.nCol) && rows != []
  {
    forall i {:trigger p.aBest[i]} :: 0 <= i < p.nCol - 1 ==> BestOk(p.aBest[i], rows, p.nCol, i)
  }

  // Candidate i, completed: a row of the open group with exact counts from i on.
  ghost predicate Ready(b: Sample, rows: seq<Entry>, nCol: nat, i: nat)
    requires Sorted(rows, nCol) && rows != []
  {
    && i < nCol - 1
    && BestOk(b, rows, nCol, i)
    && b.anEq[i] == EqRows(rows, rows[|rows| - 1], i)
    && forall j {:trigger b.anEq[j]} {:trigger CountOk(b, rows, nCol, j)} :: i <= j < nCol ==>
        CountOk(b, rows, nCol, j) && b.anEq[j] > 0
  }

  // A sample stands for the open group on columns 0..c: a periodic one, or one
  // that was kept or upgraded for column c.
  ghost predicate Represented(a: seq<Sample>, rows: seq<Entry>, nCol: nat, nPSample: nat, level: int, c: nat)
    requires Sorted(rows, nCol) && nPSample > 0 && c < nCol && AllKeptOk(a, rows, nCol, nPSample, level)
  {
    exists u :: 0 <= u < |a| && Open(a[u], rows, nCol, c) && (a[u].isPSample || a[u].iCol == c)
  }

  // Columns right of i are dealt with: a zero left there belongs to a group
  // that is represented.
  ghost predicate DealtWith(p: Accum, rows: seq<Entry>, i: int)
    requires Shape(p) && Sorted(rows, p.nCol) && AllKeptOk(p.a, rows, p.nCol, p.nPSample, i) && -1 <= i
  {
    i + 1 < p.nCol ==>
      forall k, j {:trigger p.a[k].anEq[j]} ::
        0 <= k < |p.a| && i < j < p.nCol && !p.a[k].isPSample && p.a[k].anEq[j] == 0
        ==> Represented(p.a, rows, p.nCol, p.nPSample, i, i + 1)
  }

  // ---- groups ----------------------------------------------------------------

  lemma OpenShrink(s: Sample, rows: seq<Entry>, nCol: nat, i: nat, j: nat)
    requires Sorted(rows, nCol) && Placed(s, rows, nCol) && i <= j < nCol && Open(s, rows, nCol, j)
    ensures Open(s, rows, nCol, i)
  {
  }

  // Samples of the open group have the group's count.
  lemma OpenCount(s: Sample, rows: seq<Entry>, nCol: nat, j: nat)
    requires Sorted(rows, nCol) && Placed(s, rows, nCol) && j < nCol && Open(s, rows, nCol, j)
    ensures EqRows(rows, rows[RowOf(s)], j) == EqRows(rows, rows[|rows| - 1], j)
  {
    CountsOfAgreeing(rows, rows[RowOf(s)], rows[|rows| - 1], j);
  }

  lemma CandidateOk(p: Accum, rows: seq<Entry>, i: nat, b: Sample)
    requires Shape(p) && Sorted(rows, p.nCol) && i < p.nCol - 1
    requires CurrentOk(p.current, rows, p.nCol) && BestOk(p.aBest[i], rows, p.nCol, i)
    requires b == Completed(p, i)
    ensures Ready(b, rows, p.nCol, i)
  {
    assert RowOf(b) == RowOf(p.aBest[i]);
    assert Placed(b, rows, p.nCol) by {
      forall j | 0 <= j < p.nCol
        ensures b.anLt[j] == p.aBest[i].anLt[j] && b.anDLt[j] == p.aBest[i].anDLt[j]
      {
      }
    }
    assert CountOk(p.current, rows, p.nCol, i) by { assert p.current.anEq[i] == b.anEq[i]; }
    OpenCount(b, rows, p.nCol, i);
    forall j | i <= j < p.nCol
      ensures CountOk(b, rows, p.nCol, j) && b.anEq[j] > 0
    {
      if j > i {
        assert p.aBest[i].anEq[j] == b.anEq[j];
      }
      EqRowsPositive(rows, RowOf(b), j);
    }
  }

  // Every open, non-periodic sample passes the asserts of the upgrade scan.
  lemma CandidateBeats(b: Sample, s: Sample, rows: seq<Entry>, nCol: nat, nPSample: nat, i: nat, level: int)
    requires Sorted(rows, nCol) && rows != [] && nPSample > 0 && i < nCol - 1
    requires BestOk(b, rows, nCol, i) && b.anEq[i] == EqRows(rows, rows[|rows| - 1], i)
    requires KeptOk(s, rows, nCol, nPSample, level) && !s.isPSample && s.anEq[i] == 0
    ensures s.iCol > i && IsBetter(b, s)
  {
    assert s.anEq[s.iCol] != 0;
    OpenCount(s, rows, nCol, i);
    EqRowsShrink(rows, rows[RowOf(s)], i, s.iCol);
  }

  lemma MultiplesApart(x: nat, y: nat, n: nat)
    requires n > 0 && x < y && x % n == 0 && y % n == 0
    ensures x + n <= y
  {
    var q, r := x / n, y / n;
    assert x == q * n && y == r * n;
    assert r > q;
    assert (q + 1) * n <= r * n;
  }

  lemma NextMultiple(x: nat, y: nat, k: nat, n: nat)
    requires n > 0 && x < y && x % n == 0 && y % n == 0 && x >= k * n
    ensures y >= (k + 1) * n
  {
    MultiplesApart(x, y, n);
    assert (k + 1) * n == k * n + n;
  }

  // Multiples of n in ascending order: each is a period further.
  lemma {:induction false} PeriodsSpread(x: seq<nat>, n: nat, k: nat)
    requires n > 0 && k < |x| && x[0] > 0 && forall i {:trigger x[i]} :: 0 <= i < |x| ==> x[i] % n == 0
    requires forall i, j {:trigger x[i], x[j]} :: 0 <= i < j < |x| ==> x[i] < x[j]
    ensures x[k] >= (k + 1) * n
  {
    if k == 0 {
      NextMultiple(0, x[0], 0, n);
    } else {
      PeriodsSpread(x, n, k - 1);
      NextMultiple(x[k - 1], x[k], k, n);
    }
  }

  function PeriodicCount(a: seq<Sample>, n: nat): nat
    requires n <= |a|
  {
    if n == 0 then 0 else PeriodicCount(a, n - 1) + if a[n - 1].isPSample then 1 else 0
  }

  // The places, counted from one, of the periodic ones of the first n samples.
  function Periods(a: seq<Sample>, nCol: nat, n: nat): (x: seq<nat>)
    requires AllShaped(a, nCol) && nCol > 0 && n <= |a|
    ensures |x| == PeriodicCount(a, n)
  {
    if n == 0 then []
    else Periods(a, nCol, n - 1) + if a[n - 1].isPSample then [a[n - 1].anLt[nCol - 1] + 1] else []
  }

  ghost predicate PeriodsOk(x: seq<nat>, nPSample: nat, last: nat)
    requires nPSample > 0
  {
    && (forall i {:trigger x[i]} :: 0 <= i < |x| ==> 0 < x[i] <= last && x[i] % nPSample == 0)
    && (forall i, j {:trigger x[i], x[j]} :: 0 <= i < j < |x| ==> x[i] < x[j])
  }

  lemma PeriodAppended(x: seq<nat>, nPSample: nat, last: nat, y: nat)
    requires nPSample > 0 && PeriodsOk(x, nPSample, last) && last < y
    ensures PeriodsOk(x, nPSample, y)
    ensures y % nPSample == 0 ==> PeriodsOk(x + [y], nPSample, y)
  {
  }

  // Periodic samples are at the ends of periods.
  ghost predicate AtPeriods(a: seq<Sample>, nCol: nat, nPSample: nat)
    requires AllShaped(a, nCol) && nCol > 0 && nPSample > 0
  {
    forall k {:trigger a[k]} :: 0 <= k < |a| && a[k].isPSample ==> (RowOf(a[k]) + 1) % nPSample == 0
  }

  lemma {:induction false} PeriodsAre(a: seq<Sample>, nCol: nat, nPSample: nat, n: nat)
    requires AllShaped(a, nCol) && nCol > 0 && nPSample > 0 && AtPeriods(a, nCol, nPSample) && Ascending(a, nCol) &&
             n <= |a|
    ensures PeriodsOk(Periods(a, nCol, n), nPSample, if n == 0 then 0 else RowOf(a[n - 1]) + 1)
  {
    if n > 0 {
      PeriodsAre(a, nCol, nPSample, n - 1);
      var last := if n == 1 then 0 else RowOf(a[n - 2]) + 1;
      PeriodAppended(Periods(a, nCol, n - 1), nPSample, last, RowOf(a[n - 1]) + 1);
    }
  }

  lemma KeptAtPeriods(a: seq<Sample>, rows: seq<Entry>, nCol: nat, nPSample: nat, level: int)
    requires Sorted(rows, nCol) && nPSample > 0 && AllKeptOk(a, rows, nCol, nPSample, level) && AllShaped(a, nCol)
    ensures AtPeriods(a, nCol, nPSample)
    ensures forall k {:trigger a[k]} :: 0 <= k < |a| ==> RowOf(a[k]) < |rows|
  {
    forall k | 0 <= k < |a|
      ensures RowOf(a[k]) < |rows| && (a[k].isPSample ==> (RowOf(a[k]) + 1) % nPSample == 0)
    {
      assert KeptOk(a[k], rows, nCol, nPSample, level);
    }
  }

  // With fewer than m + 1 periods of rows there are at most m periodic samples.
  lemma PeriodicBound(a: seq<Sample>, rows: seq<Entry>, nCol: nat, nPSample: nat, level: int, m: nat)
    requires Sorted(rows, nCol) && nPSample > 0 && AllKeptOk(a, rows, nCol, nPSample, level)
    requires AllShaped(a, nCol) && Ascending(a, nCol) && |rows| < (m + 1) * nPSample
    ensures PeriodicCount(a, |a|) <= m
  {
    var x := Periods(a, nCol, |a|);
    if x != [] {
      KeptAtPeriods(a, rows, nCol, nPSample, level);
      PeriodsAre(a, nCol, nPSample, |a|);
      TooManyPeriods(x, nPSample, |rows|, m);
    }
  }

  lemma TooManyPeriods(x: seq<nat>, nPSample: nat, n: nat, m: nat)
    requires nPSample > 0 && x != [] && PeriodsOk(x, nPSample, n) && n < (m + 1) * nPSample
    ensures |x| <= m
  {
    PeriodsSpread(x, nPSample, |x| - 1);
    MulOrder(Min(|x|, m + 1), m + 1, nPSample);
    MulOrder(Min(|x|, m + 1), |x|, nPSample);
  }

  lemma {:induction false} AllPeriodic(a: seq<Sample>, n: nat)
    requires n <= |a| && forall k {:trigger a[k]} :: 0 <= k < n ==> a[k].isPSample
    ensures PeriodicCount(a, n) == n
  {
    if n > 0 {
      AllPeriodic(a, n - 1);
    }
  }

  // Periodic samples alone never fill a[].
  lemma RoomForOthers(a: seq<Sample>, rows: seq<Entry>, nCol: nat, nPSample: nat, level: int)
    requires Sorted(rows, nCol) && nPSample > 0 && AllKeptOk(a, rows, nCol, nPSample, level)
    requires AllShaped(a, nCol) && Ascending(a, nCol)
    requires a != [] && |rows| < |a| * nPSample
    ensures exists k :: 0 <= k < |a| && !a[k].isPSample
  {
    PeriodicBound(a, rows, nCol, nPSample, level, |a| - 1);
    if forall k {:trigger a[k]} :: 0 <= k < |a| ==> a[k].isPSample {
      AllPeriodic(a, |a|);
    }
  }
}
