// samplePushPrevious(): the groups that end at column iChng are closed.  Each
// pass over a candidate keeps the invariant one column further to the left,
// and the closing sweep fills in the counts that were still open.
module SampleFlush {
  import opened IndexOrder
  import opened SampleSelection
  import opened Wrappers
  import opened SamplePreference
  import opened SampleAccuracy
  import opened SampleInsertion

  // The invariant between candidates: columns right of i are dealt with.
  ghost predicate Closing(p: Accum, rows: seq<Entry>, i: int)
    requires Shape(p) && Sorted(rows, p.nCol)
  {
    && -1 <= i
    && SamplesOk(p, rows, i, |rows|)
    && DealtWith(p, rows, i)
  }

  lemma Raised(p: Accum, rows: seq<Entry>, i: nat, q: Accum)
    requires Shape(p) && Sorted(rows, p.nCol) && i < p.nCol - 1 && Closing(p, rows, i)
    requires q == p.(nMaxEqZero := if i > p.nMaxEqZero then i else p.nMaxEqZero)
    ensures Shape(q) && Closing(q, rows, i) && AllKeptOk(q.a, rows, q.nCol, q.nPSample, i)
  {
  }

  // No room and no wish for it: then no sample that is not periodic is open at i.
  lemma Declined(p: Accum, rows: seq<Entry>, i: nat, b: Sample)
    requires Shape(p) && Sorted(rows, p.nCol) && rows != [] && Ready(b, rows, p.nCol, i)
    requires Closing(p, rows, i)
    requires |p.a| == p.mxSample && !IsBetter(b, p.a[p.iMin])
    ensures Closing(p, rows, i - 1)
  {
    LowerLevel(p.a, rows, p.nCol, p.nPSample, i, i - 1);
    forall k, j | 0 <= k < |p.a| && i - 1 < j < p.nCol && !p.a[k].isPSample
      ensures p.a[k].anEq[j] != 0
    {
      NotOpen(p, rows, i, b, k, j);
    }
  }

  lemma NotOpen(p: Accum, rows: seq<Entry>, i: nat, b: Sample, k: nat, j: nat)
    requires Shape(p) && Sorted(rows, p.nCol) && rows != [] && Ready(b, rows, p.nCol, i)
    requires SamplesOk(p, rows, i, |rows|)
    requires |p.a| == p.mxSample && !IsBetter(b, p.a[p.iMin])
    requires k < |p.a| && i <= j < p.nCol && !p.a[k].isPSample
    ensures p.a[k].anEq[j] != 0
  {
    var s := p.a[k];
    assert KeptOk(s, rows, p.nCol, p.nPSample, i);
    if s.anEq[j] == 0 {
      OpenShrink(s, rows, p.nCol, i, j);
      OpenIsZero(p, rows, i, k);
      CandidateBeats(b, s, rows, p.nCol, p.nPSample, i, i);
      StrictWeakOrder(b, s, p.a[p.iMin], p.nCol);
    }
  }

  // A periodic sample already stands for the prefix.
  lemma AlreadyStands(p: Accum, rows: seq<Entry>, i: nat, k: nat)
    requires Shape(p) && Sorted(rows, p.nCol) && i < p.nCol - 1 && Closing(p, rows, i)
    requires k < |p.a| && p.a[k].isPSample && p.a[k].anEq[i] == 0
    ensures Closing(p, rows, i - 1)
  {
    LowerLevel(p.a, rows, p.nCol, p.nPSample, i, i - 1);
    OpenIsZero(p, rows, i, k);
    assert Represented(p.a, rows, p.nCol, p.nPSample, i - 1, i);
  }

  lemma UpgradeCloses(p: Accum, rows: seq<Entry>, i: nat, b: Sample, u: nat, q: Accum)
    requires Shape(p) && Sorted(rows, p.nCol) && rows != [] && Ready(b, rows, p.nCol, i)
    requires Closing(p, rows, i)
    requires IsTop(p.a, p.nCol, i, 0, u)
    requires forall k :: 0 <= k < |p.a| && p.a[k].anEq[i] == 0 ==> !p.a[k].isPSample
    requires q == p.(a := p.a[u := Upgraded(p.a[u], b, p.nCol)])
    ensures Shape(q) && FindNewMin(q).Ok?
    ensures FindNewMin(q).value == q.(iMin := FindNewMin(q).value.iMin)
    ensures Closing(FindNewMin(q).value, rows, i - 1)
  {
    var s, s' := p.a[u], Upgraded(p.a[u], b, p.nCol);
    assert KeptOk(s, rows, p.nCol, p.nPSample, i);
    OpenIsZero(p, rows, i, u);
    forall j | i < j < p.nCol
      ensures s.anEq[j] != 0
    {
      PickedHasNoZeroRight(p, rows, i, u, j);
    }
    UpgradedKeptOk(s, b, rows, p.nCol, p.nPSample, i, s');
    UpgradeOk(p, rows, i, b, u, s', q);
    var r := FindNewMin(q).value;
    assert r.a[u] == s';
    assert Represented(r.a, rows, r.nCol, r.nPSample, i - 1, i);
  }

  // Nobody is open at column i, so every kept sample precedes the candidate.
  lemma AllPrecede(p: Accum, rows: seq<Entry>, i: nat, b: Sample, k: nat)
    requires Shape(p) && Sorted(rows, p.nCol) && rows != [] && Ready(b, rows, p.nCol, i)
    requires SamplesOk(p, rows, i, |rows|) && k < |p.a| && p.a[k].anEq[i] != 0
    ensures RowOf(p.a[k]) < RowOf(b)
  {
    OpenIsZero(p, rows, i, k);
    if RowOf(p.a[k]) >= RowOf(b) {
      Contiguous(rows, p.nCol, RowOf(b), RowOf(p.a[k]), |rows| - 1, i);
    }
  }

  lemma AppendedCandidate(p: Accum, rows: seq<Entry>, i: nat, b: Sample, n: Sample)
    requires Shape(p) && Sorted(rows, p.nCol) && rows != [] && Ready(b, rows, p.nCol, i)
    requires SamplesOk(p, rows, i, |rows|)
    requires forall k {:trigger p.a[k]} :: 0 <= k < |p.a| ==> RowOf(p.a[k]) < RowOf(b)
    requires n == b.(anEq := Zeroed(b.anEq, i))
    ensures KeptOk(n, rows, p.nCol, p.nPSample, i - 1)
    ensures forall j {:trigger n.anEq[j]} :: i <= j < p.nCol ==> n.anEq[j] > 0
  {
    assert RowOf(n) == RowOf(b);
    assert Placed(n, rows, p.nCol);
    forall j | 0 <= j < p.nCol
      ensures if n.anEq[j] == 0 then j < p.nCol - 1 && Open(n, rows, p.nCol, j) else CountOk(n, rows, p.nCol, j)
      ensures j >= i ==> n.anEq[j] > 0
    {
      if j >= i {
        assert b.anEq[j] == n.anEq[j];
      }
    }
    assert (RowOf(n) + 1) % p.nPSample == 0 ==> HasRow(p.a, p.nCol, RowOf(n));
  }

  lemma AppendCloses(p: Accum, rows: seq<Entry>, i: nat, b: Sample, n: Sample)
    requires Shape(p) && Sorted(rows, p.nCol) && rows != [] && Ready(b, rows, p.nCol, i)
    requires Closing(p, rows, i) && i <= p.nMaxEqZero
    requires forall k :: 0 <= k < |p.a| ==> p.a[k].anEq[i] != 0
    requires n == b.(anEq := Zeroed(b.anEq, i))
    ensures Append(p, b, i).Ok?
    ensures Append(p, b, i).value == p.(a := Kept(p) + [n], iMin := Append(p, b, i).value.iMin)
    ensures Closing(Append(p, b, i).value, rows, i - 1)
  {
    forall k | 0 <= k < |p.a|
      ensures RowOf(p.a[k]) < RowOf(b)
    {
      AllPrecede(p, rows, i, b, k);
    }
    AppendedCandidate(p, rows, i, b, n);
    SamplesLower(p, rows, i);
    AppendOk(p, rows, b, i, n, i - 1, |rows|, |rows|);
    AppendedDealtWith(p, rows, i, n, Append(p, b, i).value);
  }

  lemma SamplesLower(p: Accum, rows: seq<Entry>, i: nat)
    requires Shape(p) && Sorted(rows, p.nCol) && SamplesOk(p, rows, i, |rows|)
    ensures SamplesOk(p, rows, i - 1, |rows|)
  {
    LowerLevel(p.a, rows, p.nCol, p.nPSample, i, i - 1);
  }

  // A count that is missing right of column i is missing at column i, too.
  lemma ZeroShrinks(p: Accum, rows: seq<Entry>, i: nat, k: nat, j: nat)
    requires Shape(p) && Sorted(rows, p.nCol) && i < p.nCol - 1 && i <= j < p.nCol && k < |p.a|
    requires AllKeptOk(p.a, rows, p.nCol, p.nPSample, i)
    ensures p.a[k].anEq[j] == 0 ==> p.a[k].anEq[i] == 0
  {
    OpenIsZero(p, rows, i, k);
    if p.a[k].anEq[j] == 0 {
      OpenShrink(p.a[k], rows, p.nCol, i, j);
    }
  }

  lemma AppendedDealtWith(p: Accum, rows: seq<Entry>, i: nat, n: Sample, q: Accum)
    requires Shape(p) && Shape(q) && q.nCol == p.nCol && q.nPSample == p.nPSample
    requires Sorted(rows, p.nCol) && i < p.nCol - 1
    requires AllKeptOk(p.a, rows, p.nCol, p.nPSample, i) && AllKeptOk(q.a, rows, p.nCol, p.nPSample, i - 1)
    requires forall k :: 0 <= k < |p.a| ==> p.a[k].anEq[i] != 0
    requires |p.a| >= p.mxSample ==> 0 <= p.iMin < |p.a|
    requires q.a == Kept(p) + [n] && |n.anEq| == p.nCol
    requires forall j {:trigger n.anEq[j]} :: i <= j < p.nCol ==> n.anEq[j] > 0
    ensures DealtWith(q, rows, i - 1)
  {
    Survivors(p);
    forall k, j | 0 <= k < |q.a| && i - 1 < j < q.nCol && !q.a[k].isPSample
      ensures q.a[k].anEq[j] != 0
    {
      if k < |Kept(p)| {
        ZeroShrinks(p, rows, i, Origin(p, k), j);
      }
    }
  }

  // sampleInsert() on a completed candidate.
  ghost predicate KeepsClosing(p: Accum, r: Outcome<Accum>, rows: seq<Entry>, i: int)
    requires Shape(p) && Sorted(rows, p.nCol)
  {
    && r.Ok?
    && SameIndex(p, r.value)
    && r.value.current == p.current && r.value.aBest == p.aBest
    && Closing(r.value, rows, i)
  }

  lemma BlockedCloses(p: Accum, rows: seq<Entry>, i: nat, b: Sample)
    requires Shape(p) && Sorted(rows, p.nCol) && rows != [] && Ready(b, rows, p.nCol, i)
    requires Closing(p, rows, i) && i <= p.nMaxEqZero && Upgradable(p.a, b, p.nCol)
    requires FindUpgrade(p.a, b, p.nCol, |p.a|, None) == Blocked
    ensures KeepsClosing(p, Ok(p), rows, i - 1)
  {
    FindUpgradeFinds(p.a, b, p.nCol, |p.a|, None);
    var k :| 0 <= k < |p.a| && p.a[k].anEq[i] == 0 && p.a[k].isPSample;
    AlreadyStands(p, rows, i, k);
  }

  lemma NoneChosenCloses(p: Accum, rows: seq<Entry>, i: nat, b: Sample, r: Outcome<Accum>)
    requires Shape(p) && Sorted(rows, p.nCol) && rows != [] && Ready(b, rows, p.nCol, i)
    requires Closing(p, rows, i) && i <= p.nMaxEqZero && Upgradable(p.a, b, p.nCol)
    requires FindUpgrade(p.a, b, p.nCol, |p.a|, None) == Chosen(None) && r == Append(p, b, i)
    ensures KeepsClosing(p, r, rows, i - 1)
  {
    hide Append;
    FindUpgradeFinds(p.a, b, p.nCol, |p.a|, None);
    AppendCloses(p, rows, i, b, b.(anEq := Zeroed(b.anEq, i)));
  }

  lemma ChosenCloses(p: Accum, rows: seq<Entry>, i: nat, b: Sample, u: nat, q: Accum, r: Outcome<Accum>)
    requires Shape(p) && Sorted(rows, p.nCol) && rows != [] && Ready(b, rows, p.nCol, i)
    requires Closing(p, rows, i) && i <= p.nMaxEqZero && Upgradable(p.a, b, p.nCol)
    requires u < |p.a| && FindUpgrade(p.a, b, p.nCol, |p.a|, None) == Chosen(Some(u))
    requires q == p.(a := p.a[u := Upgraded(p.a[u], b, p.nCol)]) && Shape(q) && r == FindNewMin(q)
    ensures KeepsClosing(p, r, rows, i - 1)
  {
    hide FindNewMin;
    FindUpgradeFinds(p.a, b, p.nCol, |p.a|, None);
    UpgradeCloses(p, rows, i, b, u, q);
  }

  lemma InsertCloses(p: Accum, rows: seq<Entry>, i: nat, b: Sample)
    requires Shape(p) && Sorted(rows, p.nCol) && rows != [] && Ready(b, rows, p.nCol, i)
    requires Closing(p, rows, i)
    ensures KeepsClosing(p, Insert(p, b, i), rows, i - 1)
  {
    hide Append, FindNewMin, Closing, FindUpgrade;
    var q := p.(nMaxEqZero := if i > p.nMaxEqZero then i else p.nMaxEqZero);
    Raised(p, rows, i, q);
    AllUpgradable(q, rows, i, b);
    FindUpgradeFinds(q.a, b, q.nCol, |q.a|, None);
    match FindUpgrade(q.a, b, q.nCol, |q.a|, None) {
      case Blocked =>
        BlockedCloses(q, rows, i, b);
      case Chosen(None) =>
        NoneChosenCloses(q, rows, i, b, Append(q, b, i));
      case Chosen(Some(u)) =>
        var q1 := q.(a := q.a[u := Upgraded(q.a[u], b, q.nCol)]);
        ChosenCloses(q, rows, i, b, u, q1, FindNewMin(q1));
    }
  }

  // The invariant of the whole accumulator while groups are being closed.
  ghost predicate Flushing(p: Accum, rows: seq<Entry>, i: int)
    requires Shape(p) && Sorted(rows, p.nCol)
  {
    && CurrentOk(p.current, rows, p.nCol)
    && AllBestOk(p, rows)
    && Closing(p, rows, i)
  }

  lemma CompletedShape(p: Accum, i: nat, b: Sample, q: Accum)
    requires Shape(p) && i < p.nCol && b == Completed(p, i) && q == p.(aBest := p.aBest[i := b])
    ensures Shape(q)
  {
    assert forall k {:trigger q.aBest[k]} :: 0 <= k < p.nCol ==> q.aBest[k] == if k == i then b else p.aBest[k];
  }

  lemma CompletedAllBest(p: Accum, rows: seq<Entry>, i: nat, b: Sample, q: Accum)
    requires Shape(p) && Sorted(rows, p.nCol) && rows != [] && i < p.nCol - 1 && AllBestOk(p, rows)
    requires q == p.(aBest := p.aBest[i := b]) && Shape(q) && BestOk(b, rows, p.nCol, i)
    ensures AllBestOk(q, rows)
  {
    forall k | 0 <= k < q.nCol - 1
      ensures BestOk(q.aBest[k], rows, q.nCol, k)
    {
      assert BestOk(p.aBest[k], rows, p.nCol, k);
      assert q.aBest[k] == if k == i then b else p.aBest[k];
    }
  }

  lemma CompletedBest(p: Accum, rows: seq<Entry>, i: nat, b: Sample, q: Accum)
    requires Shape(p) && Sorted(rows, p.nCol) && i < p.nCol - 1 && Flushing(p, rows, i)
    requires b == Completed(p, i) && q == p.(aBest := p.aBest[i := b])
    ensures Shape(q) && Flushing(q, rows, i) && Ready(b, rows, p.nCol, i)
  {
    assert BestOk(p.aBest[i], rows, p.nCol, i);
    CandidateOk(p, rows, i, b);
    CompletedShape(p, i, b, q);
    CompletedAllBest(p, rows, i, b, q);
    ClosingReads(p, q, rows, i);
  }

  // The closing invariant does not read the candidates.
  lemma ClosingReads(p: Accum, q: Accum, rows: seq<Entry>, i: int)
    requires Shape(p) && Sorted(rows, p.nCol) && Closing(p, rows, i)
    requires Shape(q) && q == p.(aBest := q.aBest)
    ensures Closing(q, rows, i)
  {
  }

  // The outcome r of some steps from p keeps the invariant, down to column i.
  ghost predicate KeepsFlushing(p: Accum, r: Outcome<Accum>, rows: seq<Entry>, i: int)
    requires Shape(p) && Sorted(rows, p.nCol)
  {
    && r.Ok?
    && SameIndex(p, r.value)
    && r.value.current == p.current
    && Flushing(r.value, rows, i)
  }

  lemma PushCandidateOk(p: Accum, rows: seq<Entry>, i: nat)
    requires Shape(p) && Sorted(rows, p.nCol) && i < p.nCol - 1 && Flushing(p, rows, i)
    ensures KeepsFlushing(p, PushCandidate(p, i), rows, i - 1)
  {
    var b := Completed(p, i);
    var q := p.(aBest := p.aBest[i := b]);
    CompletedBest(p, rows, i, b, q);
    if |q.a| == q.mxSample && !IsBetter(b, q.a[q.iMin]) {
      Declined(q, rows, i, b);
    } else {
      InsertCloses(q, rows, i, b);
    }
  }

  // One more turn of the loop, which had the outcome r so far.
  lemma PushCandidatesTurnOk(p: Accum, r: Outcome<Accum>, rows: seq<Entry>, i: nat, r': Outcome<Accum>)
    requires Shape(p) && Sorted(rows, p.nCol) && i < p.nCol - 1
    requires KeepsFlushing(p, r, rows, i) && r' == PushCandidate(r.value, i)
    ensures KeepsFlushing(p, r', rows, i - 1)
  {
    PushCandidateOk(r.value, rows, i);
  }

  lemma PushCandidatesLast(p: Accum, i: nat, r: Outcome<Accum>)
    requires Shape(p) && i < p.nCol - 1 && r == PushCandidates(p, i + 1) && r.Ok?
    ensures PushCandidates(p, i) == PushCandidate(r.value, i)
  {
  }

  lemma {:induction false} PushCandidatesOk(p: Accum, rows: seq<Entry>, iChng: nat, r: Outcome<Accum>)
    requires Shape(p) && Sorted(rows, p.nCol) && iChng < p.nCol && Flushing(p, rows, p.nCol - 2)
    requires r == PushCandidates(p, iChng)
    ensures KeepsFlushing(p, r, rows, iChng - 1)
    decreases p.nCol - iChng
  {
    hide PushCandidate;
    if iChng < p.nCol - 1 {
      var r1 := PushCandidates(p, iChng + 1);
      PushCandidatesOk(p, rows, iChng + 1, r1);
      PushCandidatesLast(p, iChng, r1);
      PushCandidatesTurnOk(p, r1, rows, iChng, r);
    }
  }

  // ---- the closing sweep -------------------------------------------------------

  lemma FilledSample(s: Sample, c: Sample, rows: seq<Entry>, nCol: nat, nPSample: nat, iChng: nat, s': Sample)
    requires Sorted(rows, nCol) && nPSample > 0 && iChng < nCol
    requires CurrentOk(c, rows, nCol) && KeptOk(s, rows, nCol, nPSample, iChng - 1)
    requires s' == s.(anEq := FilledCounts(s.anEq, c.anEq, iChng))
    ensures KeptOk(s', rows, nCol, nPSample, iChng - 1)
    ensures forall j {:trigger s'.anEq[j]} :: iChng <= j < nCol ==> s'.anEq[j] > 0
    ensures !s.isPSample ==> SameFrom(s, s', s.iCol)
  {
    assert RowOf(s') == RowOf(s);
    assert Placed(s', rows, nCol);
    forall j | 0 <= j < nCol
      ensures if s'.anEq[j] == 0 then j < nCol - 1 && Open(s', rows, nCol, j) else CountOk(s', rows, nCol, j)
      ensures j >= iChng ==> s'.anEq[j] > 0
      ensures s.anEq[j] != 0 ==> s'.anEq[j] == s.anEq[j]
      ensures j < iChng ==> s'.anEq[j] == s.anEq[j]
    {
      if j >= iChng && s.anEq[j] == 0 {
        OpenCount(s, rows, nCol, j);
        assert c.anEq[j] == s'.anEq[j];
        assert CountOk(c, rows, nCol, j);
        EqRowsPositive(rows, RowOf(s), j);
      }
    }
  }

  lemma LeastStays(a: seq<Sample>, a': seq<Sample>, nCol: nat, m: int)
    requires AllShaped(a, nCol) && AllShaped(a', nCol) && |a| == |a'| && IsLeast(a, nCol, |a|, m)
    requires forall k {:trigger a'[k]} :: 0 <= k < |a| ==>
               && a'[k] == a[k].(anEq := a'[k].anEq)
               && (!a[k].isPSample ==> SameFrom(a[k], a'[k], a[k].iCol))
    ensures IsLeast(a', nCol, |a'|, m)
  {
    forall k | 0 <= k < |a'| && !a'[k].isPSample
      ensures !IsBetter(a'[m], a'[k])
    {
      IsBetterLocal(a[m], a'[m], a[k], a'[k], nCol);
    }
  }

  // Every count right of column iChng - 1 is known; what is open further left
  // shares its prefix with the row just scanned.
  ghost predicate Flushed(p: Accum, rows: seq<Entry>, iChng: nat)
    requires Shape(p) && Sorted(rows, p.nCol)
  {
    && CurrentOk(p.current, rows, p.nCol)
    && AllBestOk(p, rows)
    && SamplesOk(p, rows, iChng - 1, |rows|)
    && NoZeroFrom(p.a, p.nCol, iChng)
  }

  lemma FilledSamples(p: Accum, rows: seq<Entry>, iChng: nat, f: Accum)
    requires Shape(p) && Sorted(rows, p.nCol) && iChng < p.nCol && iChng < p.nMaxEqZero
    requires CurrentOk(p.current, rows, p.nCol) && AllKeptOk(p.a, rows, p.nCol, p.nPSample, iChng - 1)
    requires f == Filled(p, iChng)
    ensures Shape(f) && |f.a| == |p.a|
    ensures forall k {:trigger f.a[k]} :: 0 <= k < |p.a| ==>
              && f.a[k] == p.a[k].(anEq := f.a[k].anEq)
              && KeptOk(f.a[k], rows, p.nCol, p.nPSample, iChng - 1)
              && (!p.a[k].isPSample ==> SameFrom(p.a[k], f.a[k], p.a[k].iCol))
    ensures NoZeroFrom(f.a, f.nCol, iChng)
  {
    forall k | 0 <= k < |p.a|
      ensures f.a[k] == p.a[k].(anEq := f.a[k].anEq)
      ensures KeptOk(f.a[k], rows, p.nCol, p.nPSample, iChng - 1)
      ensures forall j {:trigger f.a[k].anEq[j]} :: iChng <= j < p.nCol ==> f.a[k].anEq[j] > 0
      ensures !p.a[k].isPSample ==> SameFrom(p.a[k], f.a[k], p.a[k].iCol)
    {
      FilledSample(p.a[k], p.current, rows, p.nCol, p.nPSample, iChng, f.a[k]);
    }
  }

  lemma FilledSomeOk(p: Accum, rows: seq<Entry>, iChng: nat, f: Accum)
    requires Shape(p) && Sorted(rows, p.nCol) && iChng < p.nCol && SamplesOk(p, rows, iChng - 1, |rows|)
    requires CurrentOk(p.current, rows, p.nCol) && iChng < p.nMaxEqZero && f == Filled(p, iChng)
    ensures Shape(f) && SamplesOk(f, rows, iChng - 1, |rows|) && NoZeroFrom(f.a, p.nCol, iChng)
  {
    hide KeptOk, CurrentOk, IsLeast, PeriodicKept;
    FilledSamples(p, rows, iChng, f);
    assert forall k {:trigger f.a[k]} :: 0 <= k < |p.a| ==> RowOf(f.a[k]) == RowOf(p.a[k]);
    if |p.a| == p.mxSample {
      LeastStays(p.a, f.a, p.nCol, p.iMin);
    }
    UpgradeKeepsPeriodic(p.a, f.a, p.nCol, p.nPSample, |rows|);
  }

  lemma FilledOk(p: Accum, rows: seq<Entry>, iChng: nat, f: Accum)
    requires Shape(p) && Sorted(rows, p.nCol) && iChng < p.nCol && Flushing(p, rows, iChng - 1)
    requires f == Filled(p, iChng)
    ensures Shape(f) && Flushed(f, rows, iChng)
  {
    if iChng < p.nMaxEqZero {
      FilledSomeOk(p, rows, iChng, f);
    }
  }

  lemma CandidatesPushed(p: Accum, rows: seq<Entry>, iChng: nat) returns (q: Accum)
    requires Shape(p) && Sorted(rows, p.nCol) && iChng < p.nCol && Flushing(p, rows, p.nCol - 2)
    ensures PushCandidates(p, iChng) == Ok(q)
    ensures Shape(q) && q.current == p.current && q.nCol == p.nCol && Flushing(q, rows, iChng - 1)
  {
    var r := PushCandidates(p, iChng);
    PushCandidatesOk(p, rows, iChng, r);
    q := r.value;
  }

  lemma PushPreviousOk(p: Accum, rows: seq<Entry>, iChng: nat) returns (f: Accum)
    requires Shape(p) && Sorted(rows, p.nCol) && iChng < p.nCol && Flushing(p, rows, p.nCol - 2)
    ensures PushPrevious(p, iChng) == Ok(f)
    ensures Shape(f) && SameIndex(p, f) && f.current == p.current && Flushed(f, rows, iChng)
  {
    var q := CandidatesPushed(p, rows, iChng);
    PreviousPushed(q, rows, iChng);
    PreviousPushedIs(p, iChng, q);
    f := Filled(q, iChng);
  }

  lemma PreviousPushedIs(p: Accum, iChng: nat, q: Accum)
    requires Shape(p) && iChng < p.nCol && PushCandidates(p, iChng) == Ok(q)
    requires Shape(q) && NoZeroFrom(q.a, q.nCol, q.nMaxEqZero)
    ensures SameIndex(p, q) && PushPrevious(p, iChng) == Ok(Filled(q, iChng))
  {
  }

  lemma PreviousPushed(q: Accum, rows: seq<Entry>, iChng: nat)
    requires Shape(q) && Sorted(rows, q.nCol) && iChng < q.nCol && Flushing(q, rows, iChng - 1)
    ensures NoZeroFrom(q.a, q.nCol, q.nMaxEqZero)
    ensures Filled(q, iChng).current == q.current && Flushed(Filled(q, iChng), rows, iChng)
  {
    FlushingNoZero(q, rows, iChng - 1);
    FilledOk(q, rows, iChng, Filled(q, iChng));
  }

  // The check between the two loops of samplePushPrevious() cannot fail.
  lemma FlushingNoZero(p: Accum, rows: seq<Entry>, i: int)
    requires Shape(p) && Sorted(rows, p.nCol) && Flushing(p, rows, i)
    ensures NoZeroFrom(p.a, p.nCol, p.nMaxEqZero)
  {
  }
}
