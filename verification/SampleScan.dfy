// The scan of a whole index: stat_init(), one stat_push() per entry in index
// order, and the last samplePushPrevious() made by stat_get().
module SampleScan {
  import opened Division
  import opened IndexOrder
  import opened SampleSelection
  import opened SamplePreference
  import opened SampleAccuracy
  import opened SampleInsertion
  import opened SampleFlush

  const STAT4_SAMPLES: nat := 24

  function BlankSample(nCol: nat, iCol: nat): Sample {
    var zeros := seq(nCol, _ => 0);
    Sample(zeros, zeros, zeros, IntKey(0), false, iCol, 0)
  }

  // stat_init(nCol, _, count); seed is the start value of the tie-breaking hash.
  function Init(nCol: nat, count: nat, seed: nat): (p: Accum)
    requires nCol > 0
    ensures Shape(p)
  {
    Accum(nCol, STAT4_SAMPLES, count / (STAT4_SAMPLES / 3 + 1) + 1, 0, BlankSample(nCol, 0), seed,
          seq(nCol, i requires 0 <= i < nCol => BlankSample(nCol, i)), [], 0, 0)
  }

  // The column handed to stat_push(): the left-most one in which b differs
  // from its predecessor a.
  function Change(a: Entry, b: Entry, i: nat): (d: nat)
    requires i < |a.cols| == |b.cols|
    ensures i <= d < |a.cols|
    ensures (forall c :: 0 <= c < i ==> a.cols[c] == b.cols[c]) && a.cols != b.cols ==> IsChange(a, b, d)
    decreases |a.cols| - i
  {
    if a.cols[i] != b.cols[i] || i + 1 == |a.cols| then i else Change(a, b, i + 1)
  }

  function ChangeAt(rows: seq<Entry>, k: nat, nCol: nat): nat
    requires k < |rows| && nCol > 0 && forall i :: 0 <= i < |rows| ==> |rows[i].cols| == nCol
  {
    if k == 0 then 0 else Change(rows[k - 1], rows[k], 0)
  }

  // The first n entries pushed.
  function Scan(p: Accum, rows: seq<Entry>, n: nat): (r: Outcome<Accum>)
    requires Shape(p) && n <= |rows| && forall i :: 0 <= i < |rows| ==> |rows[i].cols| == p.nCol
    ensures r.Ok? ==> SameIndex(p.(nRow := p.nRow + n), r.value)
  {
    if n == 0 then Ok(p)
    else
      var q :- Scan(p, rows, n - 1);
      Push(q, ChangeAt(rows, n - 1, p.nCol), rows[n - 1].rowid)
  }

  function Analyze(rows: seq<Entry>, nCol: nat, count: nat, seed: nat): (r: Outcome<Accum>)
    requires nCol > 0 && forall i :: 0 <= i < |rows| ==> |rows[i].cols| == nCol
    ensures r.Ok? ==> SameIndex(Init(nCol, count, seed).(nRow := |rows|), r.value)
  {
    var p :- Scan(Init(nCol, count, seed), rows, |rows|);
    PushPrevious(p, 0)
  }

  // row follows rows in the index and differs from the last of them first in
  // column iChng.
  ghost predicate NextRow(rows: seq<Entry>, row: Entry, nCol: nat, iChng: nat) {
    && rows != []
    && Sorted(rows + [row], nCol) && Sorted(rows, nCol)
    && |row.cols| == nCol
    && IsChange(rows[|rows| - 1], row, iChng)
  }

  // ---- the current row ---------------------------------------------------------

  lemma AdvancedAt(c: Sample, iChng: nat, j: nat)
    requires j < |c.anEq| == |c.anLt| == |c.anDLt|
    ensures Advanced(c, iChng).anEq[j] == if j < iChng then c.anEq[j] + 1 else 1
    ensures Advanced(c, iChng).anLt[j] == c.anLt[j] + if j < iChng then 0 else c.anEq[j]
    ensures Advanced(c, iChng).anDLt[j] == c.anDLt[j] + if j < iChng then 0 else 1
  {
  }

  lemma AdvancedCounts(c: Sample, rows: seq<Entry>, row: Entry, nCol: nat, iChng: nat, j: nat)
    requires NextRow(rows, row, nCol, iChng) && CurrentOk(c, rows, nCol) && j < nCol
    ensures Advanced(c, iChng).anEq[j] == EqRows(rows + [row], row, j)
    ensures Advanced(c, iChng).anLt[j] == LtRows(rows + [row], row, j)
    ensures Advanced(c, iChng).anDLt[j] == DistinctLt(rows + [row], row, j)
  {
    AdvancedAt(c, iChng, j);
    CurrentCounts(c, rows, nCol, j);
    CountsAdvance(rows, row, nCol, j);
    ChangeAgrees(rows[|rows| - 1], row, iChng, j);
  }

  lemma AdvancedPosition(c: Sample, rows: seq<Entry>, row: Entry, nCol: nat, iChng: nat)
    requires NextRow(rows, row, nCol, iChng) && CurrentOk(c, rows, nCol)
    ensures Advanced(c, iChng).anLt[nCol - 1] == |rows|
  {
    AdvancedAt(c, iChng, nCol - 1);
    CurrentCounts(c, rows, nCol, nCol - 1);
    PositionOf(rows, nCol, |rows| - 1);
  }

  lemma CurrentCounts(c: Sample, rows: seq<Entry>, nCol: nat, j: nat)
    requires Sorted(rows, nCol) && CurrentOk(c, rows, nCol) && j < nCol
    ensures c.anEq[j] == EqRows(rows, rows[|rows| - 1], j)
    ensures c.anLt[j] == LtRows(rows, rows[|rows| - 1], j)
    ensures c.anDLt[j] == DistinctLt(rows, rows[|rows| - 1], j)
  {
    assert CountOk(c, rows, nCol, j);
  }

  lemma AdvancedOk(c: Sample, rows: seq<Entry>, row: Entry, nCol: nat, iChng: nat, c': Sample)
    requires NextRow(rows, row, nCol, iChng) && CurrentOk(c, rows, nCol)
    requires SampleShape(c', nCol) && c'.rowid == row.rowid && !c'.isPSample
    requires c'.anEq == Advanced(c, iChng).anEq && c'.anLt == Advanced(c, iChng).anLt &&
             c'.anDLt == Advanced(c, iChng).anDLt
    ensures CurrentOk(c', rows + [row], nCol)
  {
    var all := rows + [row];
    assert all[|rows|] == row;
    AdvancedPosition(c, rows, row, nCol, iChng);
    assert RowOf(c') == |rows|;
    forall j | 0 <= j < nCol
      ensures c'.anLt[j] == LtRows(all, row, j) && c'.anDLt[j] == DistinctLt(all, row, j)
      ensures c'.anEq[j] == EqRows(all, row, j)
    {
      AdvancedCounts(c, rows, row, nCol, iChng, j);
    }
  }

  lemma FirstCurrentOk(row: Entry, nCol: nat, c: Sample)
    requires Sorted([row], nCol)
    requires SampleShape(c, nCol) && c.rowid == row.rowid && !c.isPSample
    requires forall j {:trigger c.anEq[j]} :: 0 <= j < nCol ==> c.anEq[j] == 1
    requires forall j {:trigger c.anLt[j]} :: 0 <= j < nCol ==> c.anLt[j] == 0
    requires forall j {:trigger c.anDLt[j]} :: 0 <= j < nCol ==> c.anDLt[j] == 0
    ensures CurrentOk(c, [row], nCol)
  {
    var rows := [row];
    assert rows[..0] == [] && rows[0] == row;
    assert |row.cols| == nCol;
    forall j | 0 <= j < nCol
      ensures EqRows(rows, row, j) == 1 && LtRows(rows, row, j) == 0 && DistinctLt(rows, row, j) == 0
    {
      PrefixLessExcludes(row, row, j);
      assert PrefixesBelow(rows, row, j) == {};
    }
    forall j | 0 <= j < nCol
      ensures CountOk(c, rows, nCol, j)
    {
      assert c.anEq[j] == 1 == EqRows(rows, row, j);
    }
  }

  // ---- the kept samples when the next row arrives --------------------------------

  lemma OpenNext(s: Sample, rows: seq<Entry>, row: Entry, nCol: nat, iChng: nat, j: nat)
    requires NextRow(rows, row, nCol, iChng) && Placed(s, rows, nCol) && j < nCol
    ensures Agree(rows[RowOf(s)], row, j) <==> j < iChng && Open(s, rows, nCol, j)
  {
    var all := rows + [row];
    var x := RowOf(s);
    assert all[x] == rows[x] && all[|rows|] == row && all[|rows| - 1] == rows[|rows| - 1];
    ChangeAgrees(rows[|rows| - 1], row, iChng, j);
    if Agree(rows[x], row, j) {
      Contiguous(all, nCol, x, |rows| - 1, |rows|, j);
    }
  }

  lemma PlacedNext(s: Sample, rows: seq<Entry>, row: Entry, nCol: nat)
    requires Sorted(rows + [row], nCol) && Sorted(rows, nCol) && Placed(s, rows, nCol)
    ensures Placed(s, rows + [row], nCol)
    ensures (rows + [row])[RowOf(s)] == rows[RowOf(s)]
  {
    forall j | 0 <= j < nCol
      ensures s.anLt[j] == LtRows(rows + [row], rows[RowOf(s)], j)
      ensures s.anDLt[j] == DistinctLt(rows + [row], rows[RowOf(s)], j)
    {
      CountsSettled(rows, row, nCol, RowOf(s), j);
    }
  }

  lemma KeptNext(s: Sample, rows: seq<Entry>, row: Entry, nCol: nat, nPSample: nat, iChng: nat)
    requires NextRow(rows, row, nCol, iChng) && nPSample > 0
    requires KeptOk(s, rows, nCol, nPSample, iChng - 1)
    requires forall j {:trigger s.anEq[j]} :: iChng <= j < nCol ==> s.anEq[j] > 0
    ensures KeptOk(s, rows + [row], nCol, nPSample, nCol - 2)
  {
    var all := rows + [row];
    PlacedNext(s, rows, row, nCol);
    assert all[|all| - 1] == row;
    forall j | 0 <= j < nCol
      ensures if s.anEq[j] == 0 then j < nCol - 1 && Open(s, all, nCol, j) else CountOk(s, all, nCol, j)
      ensures Open(s, all, nCol, j) ==> s.anEq[j] == 0
    {
      OpenNext(s, rows, row, nCol, iChng, j);
      CountsSettled(rows, row, nCol, RowOf(s), j);
    }
  }

  lemma SamplesNext(p: Accum, rows: seq<Entry>, row: Entry, iChng: nat, q: Accum)
    requires Shape(p) && NextRow(rows, row, p.nCol, iChng)
    requires Flushed(p, rows, iChng) && |rows| + 1 < p.mxSample * p.nPSample
    requires SameIndex(q.(nRow := p.nRow), p) && Shape(q) && q.a == p.a && q.iMin == p.iMin &&
             q.nMaxEqZero == p.nMaxEqZero
    ensures SamplesOk(q, rows + [row], p.nCol - 2, |rows|)
  {
    forall k | 0 <= k < |q.a|
      ensures KeptOk(q.a[k], rows + [row], q.nCol, q.nPSample, q.nCol - 2)
    {
      assert q.a[k] == p.a[k];
      KeptNext(q.a[k], rows, row, p.nCol, p.nPSample, iChng);
    }
  }

  // ---- the periodic sample ---------------------------------------------------------

  lemma PeriodicSample(c: Sample, rows: seq<Entry>, nCol: nat, nPSample: nat, n: Sample)
    requires Sorted(rows, nCol) && nPSample > 0 && CurrentOk(c, rows, nCol)
    requires IsPeriodic(|rows| - 1, nPSample)
    requires n == c.(isPSample := true, iCol := 0, anEq := Zeroed(c.anEq, nCol - 1))
    ensures KeptOk(n, rows, nCol, nPSample, nCol - 2)
    ensures n.anEq[nCol - 1] > 0 && RowOf(n) == |rows| - 1
  {
    PeriodStep(|rows| - 1, nPSample);
    assert RowOf(n) == RowOf(c);
    assert Placed(n, rows, nCol);
    assert c.anEq[nCol - 1] == n.anEq[nCol - 1];
    assert CountOk(c, rows, nCol, nCol - 1);
    EqRowsPositive(rows, RowOf(c), nCol - 1);
  }

  lemma InsertIsAppend(p: Accum, c: Sample, q: Accum, r: Outcome<Accum>)
    requires Shape(p) && SampleShape(c, p.nCol) && c.isPSample && r == Insert(p, c, p.nCol - 1)
    requires q == p.(nMaxEqZero := if p.nCol - 1 > p.nMaxEqZero then p.nCol - 1 else p.nMaxEqZero)
    ensures r == Append(q, c, p.nCol - 1)
  {
  }

  lemma InsertPeriodicOk(p: Accum, rows: seq<Entry>, c: Sample, r: Outcome<Accum>)
    requires Shape(p) && Sorted(rows, p.nCol) && CurrentOk(p.current, rows, p.nCol)
    requires SamplesOk(p, rows, p.nCol - 2, |rows| - 1)
    requires IsPeriodic(|rows| - 1, p.nPSample) && c == p.current.(isPSample := true, iCol := 0)
    requires r == Insert(p, c, p.nCol - 1)
    ensures r.Ok? && SamplesOk(r.value, rows, p.nCol - 2, |rows|) && r.value.aBest == p.aBest
    ensures |p.a| >= p.mxSample ==> 0 <= p.iMin < |p.a|
    ensures r.value.a == Kept(p) + [c.(anEq := Zeroed(c.anEq, p.nCol - 1))]
  {
    hide Insert, Append;
    var q := p.(nMaxEqZero := if p.nCol - 1 > p.nMaxEqZero then p.nCol - 1 else p.nMaxEqZero);
    var n := c.(anEq := Zeroed(c.anEq, p.nCol - 1));
    PeriodicSample(p.current, rows, p.nCol, p.nPSample, n);
    InsertIsAppend(p, c, q, r);
    AppendOk(q, rows, c, p.nCol - 1, n, p.nCol - 2, |rows| - 1, |rows|);
  }

  lemma PushPeriodicOk(p: Accum, rows: seq<Entry>)
    requires Shape(p) && Sorted(rows, p.nCol) && CurrentOk(p.current, rows, p.nCol)
    requires SamplesOk(p, rows, p.nCol - 2, |rows| - 1)
    ensures PushPeriodic(p).Ok?
    ensures SamplesOk(PushPeriodic(p).value, rows, p.nCol - 2, |rows|)
    ensures PushPeriodic(p).value.aBest == p.aBest
    ensures PushPeriodic(p).value.current == p.current.(iCol := PushPeriodic(p).value.current.iCol)
  {
    PeriodStep(|rows| - 1, p.nPSample);
    if IsPeriodic(|rows| - 1, p.nPSample) {
      var c := p.current.(isPSample := true, iCol := 0);
      InsertPeriodicOk(p, rows, c, Insert(p, c, p.nCol - 1));
    }
  }
}
