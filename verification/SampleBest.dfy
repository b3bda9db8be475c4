// What the candidates in aBest[] are: rows of the current groups, and of all rows of
// such a group one that shares its next longer prefix with most others.
module SampleBest {
  import opened IndexOrder
  import opened SampleSelection
  import opened SampleAccuracy
  import opened SampleFlush
  import opened SampleScan
  import opened SampleTheorem

  // ---- what insertion leaves alone ----------------------------------------------------

  lemma InsertFrame(p: Accum, new_: Sample, nEqZero: nat, q: Accum)
    requires Shape(p) && SampleShape(new_, p.nCol) && nEqZero <= p.nCol && Insert(p, new_, nEqZero) == Ok(q)
    ensures q.aBest == p.aBest && q.current == p.current
  {
    hide FindUpgrade, MinFrom, Kept;
  }

  lemma CandidateFrame(p: Accum, i: nat, q: Accum)
    requires Shape(p) && i < p.nCol && PushCandidate(p, i) == Ok(q)
    ensures q.aBest == p.aBest[i := Completed(p, i)] && q.current == p.current
  {
    hide Insert;
    var b := Completed(p, i);
    var p1 := p.(aBest := p.aBest[i := b]);
    if WantsRoom(p1, b) == Ok(true) {
      InsertFrame(p1, b, i, q);
    }
  }

  // The loop completes its candidates and leaves those of the groups that go on alone.
  lemma {:induction false} CandidatesFrame(p: Accum, iChng: nat, q: Accum)
    requires Shape(p) && PushCandidates(p, iChng) == Ok(q)
    ensures |q.aBest| == p.nCol && forall j {:trigger q.aBest[j]} :: 0 <= j < iChng && j < p.nCol ==>
              q.aBest[j] == p.aBest[j]
    decreases p.nCol - iChng
  {
    hide PushCandidate;
    if iChng < p.nCol - 1 {
      var m := PushCandidates(p, iChng + 1).value;
      CandidatesFrame(p, iChng + 1, m);
      CandidateFrame(m, iChng, q);
    }
  }

  lemma PreviousFrame(p: Accum, iChng: nat, f: Accum)
    requires Shape(p) && iChng < p.nCol && PushPrevious(p, iChng) == Ok(f)
    ensures |f.aBest| == p.nCol && forall j {:trigger f.aBest[j]} :: 0 <= j < iChng ==> f.aBest[j] == p.aBest[j]
  {
    hide PushCandidates;
    CandidatesFrame(p, iChng, PushCandidates(p, iChng).value);
  }

  lemma PeriodicFrame(p: Accum, q: Accum)
    requires Shape(p) && !p.current.isPSample && PushPeriodic(p) == Ok(q)
    ensures q.aBest == p.aBest && q.current == p.current.(iCol := q.current.iCol)
  {
    hide Insert, IsPeriodic;
    if IsPeriodic(p.current.anLt[p.nCol - 1], p.nPSample) {
      var c := p.current.(isPSample := true, iCol := 0);
      InsertFrame(p, c, p.nCol - 1, Insert(p, c, p.nCol - 1).value);
    }
  }

  // ---- the largest subgroup ------------------------------------------------------------

  // In the current group of i + 1 columns no row shares i + 2 columns with more rows than
  // candidate b counts.
  ghost predicate InLargest(b: Sample, rows: seq<Entry>, nCol: nat, i: nat)
    requires Sorted(rows, nCol) && rows != [] && i < nCol - 1 && |b.anEq| == nCol
  {
    forall y {:trigger EqRows(rows, rows[y], i + 1)} :: 0 <= y < |rows| && Agree(rows[y], rows[|rows| - 1], i) ==>
      EqRows(rows, rows[y], i + 1) <= b.anEq[i + 1]
  }

  ghost predicate AllInLargest(p: Accum, rows: seq<Entry>)
    requires Shape(p) && Sorted(rows, p.nCol) && rows != []
  {
    forall i {:trigger p.aBest[i]} :: 0 <= i < p.nCol - 1 ==> InLargest(p.aBest[i], rows, p.nCol, i)
  }

  // The group goes on, and the new row replaces the candidate only if it is preferred.
  lemma LargestGoesOn(b: Sample, c: Sample, rows: seq<Entry>, row: Entry, nCol: nat, i: nat, iChng: nat)
    requires NextRow(rows, row, nCol, iChng) && i < iChng && i < nCol - 1 && CurrentOk(c, rows + [row], nCol)
    requires |b.anEq| == nCol && b.iCol == i && InLargest(b, rows, nCol, i)
    ensures InLargest(BestAfter(b, c, i, iChng), rows + [row], nCol, i)
  {
    var all, b' := rows + [row], BestAfter(b, c, i, iChng);
    assert all[|rows|] == row && b'.anEq[i + 1] >= b.anEq[i + 1] && b'.anEq[i + 1] >= c.anEq[i + 1];
    assert CountOk(c, all, nCol, i + 1);
    forall y {:trigger EqRows(all, all[y], i + 1)} | 0 <= y < |all| && Agree(all[y], row, i)
      ensures EqRows(all, all[y], i + 1) <= b'.anEq[i + 1]
    {
      if Agree(all[y], row, i + 1) {
        CountsOfAgreeing(all, all[y], row, i + 1);
      } else {
        OlderRow(rows, row, nCol, y, i, iChng);
        assert EqRows(rows, rows[y], i + 1) <= b.anEq[i + 1];
      }
    }
  }

  // A row of the group with another longer prefix.
  lemma OlderRow(rows: seq<Entry>, row: Entry, nCol: nat, y: nat, i: nat, iChng: nat)
    requires NextRow(rows, row, nCol, iChng) && i < iChng && i < nCol - 1 && y <= |rows|
    requires Agree((rows + [row])[y], row, i) && !Agree((rows + [row])[y], row, i + 1)
    ensures y < |rows| && (rows + [row])[y] == rows[y] && Agree(rows[y], rows[|rows| - 1], i)
    ensures Wide(rows, nCol) && EqRows(rows + [row], rows[y], i + 1) == EqRows(rows, rows[y], i + 1)
  {
    assert y < |rows| && (rows + [row])[y] == rows[y];
    ChangeAgrees(rows[|rows| - 1], row, iChng, i);
    AgreeLess(rows[|rows| - 1], row, rows[y], i);
    CountsSettled(rows, row, nCol, y, i + 1);
  }

  // A group that begins has one row.
  lemma OnlyNewRow(rows: seq<Entry>, row: Entry, nCol: nat, y: nat, i: nat, iChng: nat)
    requires NextRow(rows, row, nCol, iChng) && iChng <= i < nCol && y <= |rows|
    requires Agree((rows + [row])[y], row, i)
    ensures y == |rows|
  {
    var all := rows + [row];
    ChangeAgrees(rows[|rows| - 1], row, iChng, i);
    if y < |rows| {
      Contiguous(all, nCol, y, |rows| - 1, |rows|, i);
    }
  }

  // A group begins with the new row.
  lemma LargestBegins(c: Sample, rows: seq<Entry>, row: Entry, nCol: nat, i: nat, iChng: nat)
    requires NextRow(rows, row, nCol, iChng) && iChng <= i < nCol - 1 && CurrentOk(c, rows + [row], nCol)
    ensures InLargest(c.(iCol := i), rows + [row], nCol, i)
  {
    var all := rows + [row];
    assert all[|rows|] == row && CountOk(c, all, nCol, i + 1);
    forall y {:trigger EqRows(all, all[y], i + 1)} | 0 <= y < |all| && Agree(all[y], row, i)
      ensures EqRows(all, all[y], i + 1) <= c.anEq[i + 1]
    {
      OnlyNewRow(rows, row, nCol, y, i, iChng);
    }
  }

  // ---- runs ------------------------------------------------------------------------------

  lemma RenewedLargest(p: Accum, rows: seq<Entry>, row: Entry, iChng: nat, q: Accum)
    requires Shape(p) && NextRow(rows, row, p.nCol, iChng) && CurrentOk(p.current, rows + [row], p.nCol)
    requires forall i {:trigger p.aBest[i]} :: 0 <= i < iChng && i < p.nCol - 1 ==>
               InLargest(p.aBest[i], rows, p.nCol, i)
    requires q == Renewed(p, iChng)
    ensures AllInLargest(q, rows + [row])
  {
    forall i | 0 <= i < p.nCol - 1
      ensures InLargest(q.aBest[i], rows + [row], p.nCol, i)
    {
      assert q.aBest[i] == BestAfter(p.aBest[i], p.current, i, iChng);
      if i < iChng {
        LargestGoesOn(p.aBest[i], p.current, rows, row, p.nCol, i, iChng);
      } else {
        LargestBegins(p.current, rows, row, p.nCol, i, iChng);
      }
    }
  }

  lemma PushLargest(p: Accum, rows: seq<Entry>, row: Entry, iChng: nat, q: Accum)
    requires Shape(p) && NextRow(rows, row, p.nCol, iChng) && Scanned(p, rows) && AllInLargest(p, rows)
    requires |rows| + 1 < p.mxSample * p.nPSample && Push(p, iChng, row.rowid) == Ok(q)
    ensures Shape(q) && q.nCol == p.nCol && AllInLargest(q, rows + [row])
  {
    hide PushPrevious, PushPeriodic, Renewed, InLargest;
    ScannedFlushing(p, rows);
    var f := PushPreviousOk(p, rows, iChng);
    PreviousFrame(p, iChng, f);
    var p1 := Identified(f.(current := Advanced(f.current, iChng)), row.rowid);
    IdentifiedOk(f, rows, row, iChng, p1);
    var r := PushPeriodic(p1).value;
    PeriodicFrame(p1, r);
    ChangedCurrent(p1.current, rows + [row], p.nCol, r.current);
    assert forall i {:trigger r.aBest[i]} :: 0 <= i < iChng && i < p.nCol - 1 ==> r.aBest[i] == p.aBest[i];
    RenewedLargest(r, rows, row, iChng, q);
  }

  // A first row is alone.
  lemma Alone(c: Sample, row: Entry, nCol: nat, i: nat)
    requires Sorted([row], nCol) && CurrentOk(c, [row], nCol) && i < nCol - 1
    ensures InLargest(c.(iCol := i), [row], nCol, i)
  {
    assert CountOk(c, [row], nCol, i + 1);
  }

  lemma FirstLargest(p: Accum, row: Entry, q: Accum)
    requires Shape(p) && Blank(p) && Sorted([row], p.nCol) && 1 < p.mxSample * p.nPSample
    requires Push(p, 0, row.rowid) == Ok(q)
    ensures Shape(q) && q.nCol == p.nCol && AllInLargest(q, [row])
  {
    hide PushPeriodic, InLargest;
    var p1 := Identified(p.(current := p.current.(anEq := seq(p.nCol, _ => 1))), row.rowid);
    FirstIdentified(p, row, p1);
    var r := PushPeriodic(p1).value;
    PeriodicFrame(p1, r);
    ChangedCurrent(p1.current, [row], p.nCol, r.current);
    forall i | 0 <= i < p.nCol - 1
      ensures InLargest(q.aBest[i], [row], p.nCol, i)
    {
      Alone(r.current, row, p.nCol, i);
    }
  }

  lemma LastTurnLargest(p0: Accum, rows: seq<Entry>, n: nat, p: Accum, q: Accum)
    requires Shape(p0) && Sorted(rows, p0.nCol) && 1 < n <= |rows| < p0.mxSample * p0.nPSample
    requires GoesWell(p0, Ok(p), rows[..n - 1]) && AllInLargest(p, rows[..n - 1])
    requires Push(p, ChangeAt(rows, n - 1, p0.nCol), rows[n - 1].rowid) == Ok(q)
    ensures Shape(q) && q.nCol == p0.nCol && Sorted(rows[..n], p0.nCol) && AllInLargest(q, rows[..n])
  {
    hide Push, AllInLargest;
    NextRowOf(rows, p0.nCol, n - 1);
    PushLargest(p, rows[..n - 1], rows[n - 1], ChangeAt(rows, n - 1, p0.nCol), q);
  }

  lemma FirstScanLargest(p0: Accum, rows: seq<Entry>, q: Accum)
    requires Shape(p0) && Blank(p0) && Sorted(rows, p0.nCol) && 1 <= |rows| < p0.mxSample * p0.nPSample
    requires Scan(p0, rows, 1) == Ok(q)
    ensures Shape(q) && q.nCol == p0.nCol && Sorted(rows[..1], p0.nCol) && AllInLargest(q, rows[..1])
  {
    hide Push, AllInLargest;
    PrefixSorted(rows, p0.nCol, 1);
    assert rows[..1] == [rows[0]];
    assert Scan(p0, rows, 0) == Ok(p0);
    FirstLargest(p0, rows[0], q);
  }

  lemma {:induction false} ScanLargest(p0: Accum, rows: seq<Entry>, n: nat, q: Accum)
    requires Shape(p0) && Blank(p0) && Sorted(rows, p0.nCol) && 0 < n <= |rows| < p0.mxSample * p0.nPSample
    requires Scan(p0, rows, n) == Ok(q)
    ensures Shape(q) && q.nCol == p0.nCol && Sorted(rows[..n], p0.nCol) && AllInLargest(q, rows[..n])
  {
    hide Push, AllInLargest;
    if n == 1 {
      FirstScanLargest(p0, rows, q);
    } else {
      ScanOk(p0, rows, n - 1);
      var p := Scan(p0, rows, n - 1).value;
      ScanLargest(p0, rows, n - 1, p);
      LastTurnLargest(p0, rows, n, p, q);
    }
  }

  lemma LargestMeans(b: Sample, rows: seq<Entry>, n: nat, nCol: nat, i: nat, y: nat)
    requires 0 < n <= |rows| && Sorted(rows[..n], nCol) && i < nCol - 1 && y < n && Agree(rows[y], rows[n - 1], i)
    requires SampleShape(b, nCol) && BestOk(b, rows[..n], nCol, i) && InLargest(b, rows[..n], nCol, i)
    ensures RowOf(b) < n && Agree(rows[RowOf(b)], rows[n - 1], i)
    ensures EqRows(rows[..n], rows[y], i + 1) <= EqRows(rows[..n], rows[RowOf(b)], i + 1)
  {
    assert CountOk(b, rows[..n], nCol, i + 1);
    assert rows[..n][y] == rows[y] && rows[..n][n - 1] == rows[n - 1] && rows[..n][RowOf(b)] == rows[RowOf(b)];
  }

  // After n rows: candidate i is in the current group of i + 1 columns, and of the rows
  // of that group none shares i + 2 columns with more rows.
  lemma BestIsLargest(p0: Accum, rows: seq<Entry>, n: nat, p: Accum, i: nat, y: nat)
    requires Shape(p0) && Blank(p0) && Sorted(rows, p0.nCol) && 0 < n <= |rows| < p0.mxSample * p0.nPSample
    requires Scan(p0, rows, n) == Ok(p) && i < p0.nCol - 1 && y < n && Agree(rows[y], rows[n - 1], i)
    ensures Shape(p) && p.nCol == p0.nCol && Wide(rows[..n], p0.nCol)
    ensures RowOf(p.aBest[i]) < n && Agree(rows[RowOf(p.aBest[i])], rows[n - 1], i)
    ensures EqRows(rows[..n], rows[y], i + 1) <= EqRows(rows[..n], rows[RowOf(p.aBest[i])], i + 1)
  {
    hide Scan, SamplesOk;
    ScannedAfter(rows, p0, n, p);
    ScanLargest(p0, rows, n, p);
    LargestMeans(p.aBest[i], rows, n, p.nCol, i, y);
  }
}
