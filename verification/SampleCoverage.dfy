// Which prefixes the kept samples stand for.  No two samples stand for the same
// prefix, unless both are periodic.  Every prefix whose group has ended has a sample
// that stands for it, as long as there is room; and when there is none, a group that
// has none is no larger than that of any sample that is not periodic.
module SampleCoverage {
  import Division
  import opened IndexOrder
  import opened SampleSelection
  import opened Wrappers
  import opened SamplePreference
  import opened SampleAccuracy
  import opened SampleInsertion
  import opened SampleFlush
  import opened SampleScan
  import opened SampleTheorem

  // A sample stands for the prefixes of its row from column iCol on, a periodic
  // one for all of them.
  predicate StandsAt(s: Sample, c: nat) {
    s.isPSample || s.iCol <= c
  }

  ghost predicate StandsFor(s: Sample, rows: seq<Entry>, nCol: nat, x: nat, c: nat)
    requires Wide(rows, nCol) && c < nCol && |s.anLt| == nCol && x < |rows|
  {
    RowOf(s) < |rows| && Agree(rows[RowOf(s)], rows[x], c) && StandsAt(s, c)
  }

  ghost predicate HasStand(a: seq<Sample>, rows: seq<Entry>, nCol: nat, x: nat, c: nat)
    requires Wide(rows, nCol) && c < nCol && AllShaped(a, nCol) && x < |rows|
  {
    exists k :: 0 <= k < |a| && StandsFor(a[k], rows, nCol, x, c)
  }

  // Both samples stand for the same prefix, and not both are periodic.
  ghost predicate Clash(s: Sample, t: Sample, rows: seq<Entry>, nCol: nat, c: nat)
    requires Wide(rows, nCol) && c < nCol && |s.anLt| == |t.anLt| == nCol
  {
    && RowOf(s) < |rows| && RowOf(t) < |rows| && Agree(rows[RowOf(s)], rows[RowOf(t)], c)
    && StandsAt(s, c) && StandsAt(t, c) && !(s.isPSample && t.isPSample)
  }

  ghost predicate NoClash(s: Sample, t: Sample, rows: seq<Entry>, nCol: nat)
    requires Wide(rows, nCol) && |s.anLt| == |t.anLt| == nCol
  {
    forall c {:trigger Clash(s, t, rows, nCol, c)} :: 0 <= c < nCol - 1 ==> !Clash(s, t, rows, nCol, c)
  }

  ghost predicate Unique(a: seq<Sample>, rows: seq<Entry>, nCol: nat)
    requires Wide(rows, nCol) && AllShaped(a, nCol)
  {
    forall k, l {:trigger NoClash(a[k], a[l], rows, nCol)} :: 0 <= k < l < |a| ==> NoClash(a[k], a[l], rows, nCol)
  }

  // The size of the group for which a sample was kept.
  function Weight(s: Sample): nat
    requires s.iCol < |s.anEq|
  {
    s.anEq[s.iCol]
  }

  // No sample that is not periodic was kept for a smaller group.
  ghost predicate NoSmaller(a: seq<Sample>, nCol: nat, n: nat)
    requires AllShaped(a, nCol)
  {
    forall k {:trigger a[k]} :: 0 <= k < |a| && !a[k].isPSample ==> n <= Weight(a[k])
  }

  // The prefix of c + 1 columns of row x has a sample; or a[] is full, and of samples
  // for groups that are no smaller.
  ghost predicate Settled(p: Accum, rows: seq<Entry>, x: nat, c: nat)
    requires Shape(p) && Sorted(rows, p.nCol) && c < p.nCol && x < |rows|
  {
    || HasStand(p.a, rows, p.nCol, x, c)
    || (|p.a| == p.mxSample && NoSmaller(p.a, p.nCol, EqRows(rows, rows[x], c)))
  }

  // So it is with each prefix whose group has ended, and in the current group with
  // those of more than i + 1 columns.
  ghost predicate Covered(p: Accum, rows: seq<Entry>, i: int)
    requires Shape(p) && Sorted(rows, p.nCol) && rows != []
  {
    forall x, c {:trigger Settled(p, rows, x, c)} ::
      0 <= x < |rows| && 0 <= c < p.nCol - 1 && (c > i || !Agree(rows[x], rows[|rows| - 1], c)) ==>
        Settled(p, rows, x, c)
  }

  // What was settled before is settled after.
  ghost predicate Carries(p: Accum, q: Accum, rows: seq<Entry>)
    requires Shape(p) && Shape(q) && q.nCol == p.nCol && Sorted(rows, p.nCol)
  {
    forall x, c {:trigger Settled(q, rows, x, c)} ::
      0 <= x < |rows| && 0 <= c < p.nCol - 1 && Settled(p, rows, x, c) ==> Settled(q, rows, x, c)
  }

  lemma NoClashSwap(s: Sample, t: Sample, rows: seq<Entry>, nCol: nat)
    requires Wide(rows, nCol) && |s.anLt| == |t.anLt| == nCol && NoClash(s, t, rows, nCol)
    ensures NoClash(t, s, rows, nCol)
  {
    forall c | 0 <= c < nCol - 1
      ensures !Clash(t, s, rows, nCol, c)
    {
      assert !Clash(s, t, rows, nCol, c);
    }
  }

  // ---- changes to a[] ---------------------------------------------------------------

  lemma AppendedUnique(p: Accum, rows: seq<Entry>, n: Sample, a: seq<Sample>)
    requires Shape(p) && Wide(rows, p.nCol) && Unique(p.a, rows, p.nCol) && SampleShape(n, p.nCol)
    requires |p.a| >= p.mxSample ==> 0 <= p.iMin < |p.a|
    requires forall k {:trigger p.a[k]} :: 0 <= k < |p.a| ==> NoClash(p.a[k], n, rows, p.nCol)
    requires a == Kept(p) + [n]
    ensures AllShaped(a, p.nCol) && Unique(a, rows, p.nCol)
  {
    Survivors(p);
    assert forall k {:trigger a[k]} :: 0 <= k < |a| - 1 ==> a[k] == p.a[Origin(p, k)];
    forall k, l | 0 <= k < l < |a|
      ensures NoClash(a[k], a[l], rows, p.nCol)
    {
      if l < |a| - 1 {
        assert Origin(p, k) < Origin(p, l);
        assert NoClash(p.a[Origin(p, k)], p.a[Origin(p, l)], rows, p.nCol);
      }
    }
  }

  lemma UpgradedUnique(a: seq<Sample>, rows: seq<Entry>, nCol: nat, u: nat, s: Sample, a': seq<Sample>)
    requires Wide(rows, nCol) && AllShaped(a, nCol) && Unique(a, rows, nCol) && u < |a| && SampleShape(s, nCol)
    requires forall k {:trigger a[k]} :: 0 <= k < |a| && k != u ==> NoClash(a[k], s, rows, nCol)
    requires a' == a[u := s]
    ensures AllShaped(a', nCol) && Unique(a', rows, nCol)
  {
    forall k, l | 0 <= k < l < |a'|
      ensures NoClash(a'[k], a'[l], rows, nCol)
    {
      if k == u {
        NoClashSwap(a[l], s, rows, nCol);
      } else if l != u {
        assert NoClash(a[k], a[l], rows, nCol);
      }
    }
  }

  // Sample for sample the same row, and standing for no fewer prefixes.
  ghost predicate StandsOn(a: seq<Sample>, a': seq<Sample>, nCol: nat)
    requires AllShaped(a, nCol) && AllShaped(a', nCol) && nCol > 0
  {
    |a| <= |a'| && forall k {:trigger a[k]} {:trigger a'[k]} :: 0 <= k < |a| ==>
      RowOf(a'[k]) == RowOf(a[k]) && a'[k].isPSample == a[k].isPSample && a'[k].iCol <= a[k].iCol
  }

  lemma StandStays(a: seq<Sample>, a': seq<Sample>, rows: seq<Entry>, nCol: nat, x: nat, c: nat)
    requires Wide(rows, nCol) && c < nCol && x < |rows| && AllShaped(a, nCol) && AllShaped(a', nCol)
    requires StandsOn(a, a', nCol)
    requires HasStand(a, rows, nCol, x, c)
    ensures HasStand(a', rows, nCol, x, c)
  {
    var k :| 0 <= k < |a| && StandsFor(a[k], rows, nCol, x, c);
    assert StandsFor(a'[k], rows, nCol, x, c);
  }

  // Rows with the same prefix are settled together.
  lemma SettledTogether(p: Accum, rows: seq<Entry>, x: nat, y: nat, c: nat)
    requires Shape(p) && Sorted(rows, p.nCol) && c < p.nCol && x < |rows| && y < |rows|
    requires Settled(p, rows, y, c) && Agree(rows[x], rows[y], c)
    ensures Settled(p, rows, x, c)
  {
    CountsOfAgreeing(rows, rows[x], rows[y], c);
    if HasStand(p.a, rows, p.nCol, y, c) {
      var k :| 0 <= k < |p.a| && StandsFor(p.a[k], rows, p.nCol, y, c);
      AgreeLess(rows[x], rows[y], rows[RowOf(p.a[k])], c);
      assert StandsFor(p.a[k], rows, p.nCol, x, c);
    }
  }

  // After the turn for column i.
  lemma CoveredDown(p: Accum, rows: seq<Entry>, i: nat, q: Accum)
    requires Shape(p) && Sorted(rows, p.nCol) && rows != [] && i < p.nCol - 1 && Covered(p, rows, i)
    requires Shape(q) && q.nCol == p.nCol && Carries(p, q, rows) && Settled(q, rows, |rows| - 1, i)
    ensures Covered(q, rows, i - 1)
  {
    forall x, c | 0 <= x < |rows| && 0 <= c < p.nCol - 1 && (c > i - 1 || !Agree(rows[x], rows[|rows| - 1], c))
      ensures Settled(q, rows, x, c)
    {
      if c == i && Agree(rows[x], rows[|rows| - 1], c) {
        SettledTogether(q, rows, x, |rows| - 1, c);
      } else {
        assert Settled(p, rows, x, c);
      }
    }
  }

  lemma CoveredOn(p: Accum, q: Accum, rows: seq<Entry>, i: int)
    requires Shape(p) && Shape(q) && Sorted(rows, p.nCol) && rows != [] && q.nCol == p.nCol
    requires Carries(p, q, rows) && Covered(p, rows, i)
    ensures Covered(q, rows, i)
  {
    forall x, c | 0 <= x < |rows| && 0 <= c < p.nCol - 1 && (c > i || !Agree(rows[x], rows[|rows| - 1], c))
      ensures Settled(q, rows, x, c)
    {
      assert Settled(p, rows, x, c);
    }
  }

  // ---- full arrays ---------------------------------------------------------------------

  // The preferred one of two samples was kept for a group that is no smaller.
  lemma WeightOrder(s: Sample, t: Sample)
    requires |s.anEq| == |t.anEq| && s.iCol < |s.anEq| && t.iCol < |t.anEq|
    ensures IsBetter(s, t) ==> Weight(s) >= Weight(t)
    ensures !IsBetter(s, t) ==> Weight(s) <= Weight(t)
  {
  }

  lemma LeastWeight(a: seq<Sample>, nCol: nat, m: int)
    requires AllShaped(a, nCol) && IsLeast(a, nCol, |a|, m)
    ensures NoSmaller(a, nCol, Weight(a[m]))
  {
    forall k {:trigger a[k]} | 0 <= k < |a| && !a[k].isPSample
      ensures Weight(a[m]) <= Weight(a[k])
    {
      WeightOrder(a[m], a[k]);
    }
  }

  // The groups for which a sample that is not periodic stands are no larger than the
  // one for which it was kept.
  lemma StandWeight(s: Sample, rows: seq<Entry>, nCol: nat, nPSample: nat, level: int, x: nat, c: nat)
    requires Sorted(rows, nCol) && nPSample > 0 && c < nCol && x < |rows| && KeptOk(s, rows, nCol, nPSample, level)
    requires !s.isPSample && StandsFor(s, rows, nCol, x, c)
    ensures EqRows(rows, rows[x], c) <= Weight(s)
  {
    assert s.anEq[s.iCol] != 0;
    CountsOfAgreeing(rows, rows[RowOf(s)], rows[x], c);
    EqRowsShrink(rows, rows[RowOf(s)], s.iCol, c);
  }

  // A sample n that goes to the end of a[]: if that is full, the least preferred one
  // that is not periodic goes, and n is periodic or preferred to it.
  ghost predicate GetsIn(p: Accum, n: Sample, q: Accum)
    requires Shape(p)
  {
    && SampleShape(n, p.nCol) && Shape(q) && q.nCol == p.nCol && q.mxSample == p.mxSample
    && (|p.a| == p.mxSample ==>
          IsLeast(p.a, p.nCol, |p.a|, p.iMin) && (n.isPSample || Weight(n) >= Weight(p.a[p.iMin])))
    && (|p.a| >= p.mxSample ==> 0 <= p.iMin < |p.a|)
    && q.a == Kept(p) + [n]
  }

  lemma StandSurvives(p: Accum, rows: seq<Entry>, n: Sample, q: Accum, x: nat, c: nat, k: nat)
    requires Shape(p) && Sorted(rows, p.nCol) && c < p.nCol && x < |rows| && GetsIn(p, n, q)
    requires k < |p.a| && StandsFor(p.a[k], rows, p.nCol, x, c) && (|p.a| == p.mxSample ==> k != p.iMin)
    ensures HasStand(q.a, rows, p.nCol, x, c)
  {
    Survivors(p);
    var j := if |p.a| == p.mxSample && k > p.iMin then k - 1 else k;
    assert Kept(p)[j] == p.a[Origin(p, j)] && Origin(p, j) == k;
    assert q.a[j] == Kept(p)[j];
    assert StandsFor(q.a[j], rows, p.nCol, x, c);
  }

  lemma SmallerSurvives(p: Accum, n: Sample, q: Accum, w: nat)
    requires Shape(p) && GetsIn(p, n, q) && |p.a| == p.mxSample && NoSmaller(p.a, p.nCol, w)
    ensures NoSmaller(q.a, q.nCol, w) && |q.a| == q.mxSample
  {
    Survivors(p);
    forall k {:trigger q.a[k]} | 0 <= k < |q.a| && !q.a[k].isPSample
      ensures w <= Weight(q.a[k])
    {
      if k < |Kept(p)| {
        assert q.a[k] == Kept(p)[k] == p.a[Origin(p, k)];
      } else {
        assert w <= Weight(p.a[p.iMin]);
      }
    }
  }

  lemma SettledAppend(p: Accum, rows: seq<Entry>, level: int, n: Sample, q: Accum, x: nat, c: nat)
    requires Shape(p) && Sorted(rows, p.nCol) && AllKeptOk(p.a, rows, p.nCol, p.nPSample, level) && GetsIn(p, n, q)
    requires x < |rows| && c < p.nCol && Settled(p, rows, x, c)
    ensures Settled(q, rows, x, c)
  {
    if HasStand(p.a, rows, p.nCol, x, c) {
      var k :| 0 <= k < |p.a| && StandsFor(p.a[k], rows, p.nCol, x, c);
      if |p.a| == p.mxSample && k == p.iMin {
        assert KeptOk(p.a[k], rows, p.nCol, p.nPSample, level);
        StandWeight(p.a[k], rows, p.nCol, p.nPSample, level, x, c);
        LeastWeight(p.a, p.nCol, k);
        SmallerSurvives(p, n, q, EqRows(rows, rows[x], c));
      } else {
        StandSurvives(p, rows, n, q, x, c, k);
      }
    } else {
      SmallerSurvives(p, n, q, EqRows(rows, rows[x], c));
    }
  }

  lemma AppendCarries(p: Accum, rows: seq<Entry>, level: int, n: Sample, q: Accum)
    requires Shape(p) && Sorted(rows, p.nCol) && AllKeptOk(p.a, rows, p.nCol, p.nPSample, level) && GetsIn(p, n, q)
    ensures Carries(p, q, rows)
  {
    forall x, c | 0 <= x < |rows| && 0 <= c < p.nCol - 1 && Settled(p, rows, x, c)
      ensures Settled(q, rows, x, c)
    {
      SettledAppend(p, rows, level, n, q, x, c);
    }
  }

  // Sample for sample as before, or for a larger group.
  ghost predicate NoLighter(a: seq<Sample>, a': seq<Sample>, nCol: nat)
    requires AllShaped(a, nCol) && AllShaped(a', nCol)
  {
    |a| == |a'| && forall k {:trigger a[k]} {:trigger a'[k]} :: 0 <= k < |a| && !a[k].isPSample ==>
      Weight(a'[k]) >= Weight(a[k])
  }

  lemma StayCarries(p: Accum, q: Accum, rows: seq<Entry>)
    requires Shape(p) && Shape(q) && q.nCol == p.nCol && q.mxSample == p.mxSample && Sorted(rows, p.nCol)
    requires StandsOn(p.a, q.a, p.nCol) && NoLighter(p.a, q.a, p.nCol)
    ensures Carries(p, q, rows)
  {
    forall x, c | 0 <= x < |rows| && 0 <= c < p.nCol - 1 && Settled(p, rows, x, c)
      ensures Settled(q, rows, x, c)
    {
      if HasStand(p.a, rows, p.nCol, x, c) {
        StandStays(p.a, q.a, rows, p.nCol, x, c);
      } else {
        var n := EqRows(rows, rows[x], c);
        forall k {:trigger q.a[k]} | 0 <= k < |q.a| && !q.a[k].isPSample
          ensures n <= Weight(q.a[k])
        {
          assert n <= Weight(p.a[k]);
        }
      }
    }
  }

  // ---- one candidate ------------------------------------------------------------------

  // A sample with a count at column i does not share the candidate's prefix.
  lemma CandidateApart(p: Accum, rows: seq<Entry>, i: nat, b: Sample, n: Sample, k: nat)
    requires Shape(p) && Sorted(rows, p.nCol) && rows != [] && Ready(b, rows, p.nCol, i) && k < |p.a|
    requires AllKeptOk(p.a, rows, p.nCol, p.nPSample, i) && p.a[k].anEq[i] != 0
    requires SampleShape(n, p.nCol) && RowOf(n) == RowOf(b) && !n.isPSample && n.iCol == i
    ensures NoClash(p.a[k], n, rows, p.nCol)
  {
    OpenIsZero(p, rows, i, k);
    forall c | 0 <= c < p.nCol - 1
      ensures !Clash(p.a[k], n, rows, p.nCol, c)
    {
      AgreeTrans(rows[RowOf(p.a[k])], rows[RowOf(b)], rows[|rows| - 1], i);
    }
  }

  lemma AgreeTrans(a: Entry, b: Entry, e: Entry, j: nat)
    requires j < |a.cols| == |b.cols| == |e.cols|
    ensures Agree(a, b, j) && Agree(b, e, j) ==> Agree(a, e, j)
    ensures Agree(a, b, j) <==> Agree(b, a, j)
  {
  }

  // Of two samples of one group the one that stands for it is preferred.
  lemma StandIsBetter(s: Sample, u: Sample, rows: seq<Entry>, nCol: nat, nPSample: nat, level: int, c: nat)
    requires Sorted(rows, nCol) && nPSample > 0 && c < nCol
    requires KeptOk(s, rows, nCol, nPSample, level) && KeptOk(u, rows, nCol, nPSample, level)
    requires !s.isPSample && !u.isPSample && s.iCol <= c < u.iCol && Agree(rows[RowOf(s)], rows[RowOf(u)], c)
    ensures IsBetter(s, u)
  {
    assert s.anEq[s.iCol] != 0 && u.anEq[u.iCol] != 0;
    CountsOfAgreeing(rows, rows[RowOf(s)], rows[RowOf(u)], s.iCol);
    EqRowsShrink(rows, rows[RowOf(u)], s.iCol, u.iCol);
  }

  // The sample that is upgraded clashes with no other: one that stood for a prefix
  // of it would have been preferred.
  lemma UpgradeApart(p: Accum, rows: seq<Entry>, i: nat, u: nat, s': Sample, k: nat)
    requires Shape(p) && Sorted(rows, p.nCol) && rows != [] && i < p.nCol - 1
    requires AllKeptOk(p.a, rows, p.nCol, p.nPSample, i) && Unique(p.a, rows, p.nCol)
    requires IsTop(p.a, p.nCol, i, 0, u) && k < |p.a| && k != u
    requires forall l :: 0 <= l < |p.a| && p.a[l].anEq[i] == 0 ==> !p.a[l].isPSample
    requires SampleShape(s', p.nCol) && RowOf(s') == RowOf(p.a[u]) && !s'.isPSample && s'.iCol == i
    ensures NoClash(p.a[k], s', rows, p.nCol)
  {
    OpenIsZero(p, rows, i, u);
    OpenIsZero(p, rows, i, k);
    forall c | 0 <= c < p.nCol - 1
      ensures !Clash(p.a[k], s', rows, p.nCol, c)
    {
      UpgradeApartAt(p, rows, i, u, s', k, c);
    }
  }

  lemma UpgradeApartAt(p: Accum, rows: seq<Entry>, i: nat, u: nat, s': Sample, k: nat, c: nat)
    requires Shape(p) && Sorted(rows, p.nCol) && rows != [] && i < p.nCol - 1 && c < p.nCol - 1
    requires AllKeptOk(p.a, rows, p.nCol, p.nPSample, i) && Unique(p.a, rows, p.nCol)
    requires IsTop(p.a, p.nCol, i, 0, u) && k < |p.a| && k != u
    requires forall l :: 0 <= l < |p.a| && p.a[l].anEq[i] == 0 ==> !p.a[l].isPSample
    requires SampleShape(s', p.nCol) && RowOf(s') == RowOf(p.a[u]) && !s'.isPSample && s'.iCol == i
    ensures !Clash(p.a[k], s', rows, p.nCol, c)
  {
    if Clash(p.a[k], s', rows, p.nCol, c) {
      OpenIsZero(p, rows, i, u);
      OpenIsZero(p, rows, i, k);
      assert KeptOk(p.a[k], rows, p.nCol, p.nPSample, i) && KeptOk(p.a[u], rows, p.nCol, p.nPSample, i);
      AgreeTrans(rows[RowOf(p.a[k])], rows[RowOf(p.a[u])], rows[|rows| - 1], i);
      ClashesNot(p.a, rows, p.nCol, k, u, c);
      StandIsBetter(p.a[k], p.a[u], rows, p.nCol, p.nPSample, i, c);
    }
  }

  lemma ClashesNot(a: seq<Sample>, rows: seq<Entry>, nCol: nat, k: nat, u: nat, c: nat)
    requires Wide(rows, nCol) && AllShaped(a, nCol) && Unique(a, rows, nCol) && k < |a| && u < |a| && k != u &&
             c < nCol - 1
    ensures !Clash(a[k], a[u], rows, nCol, c)
  {
    if k < u {
      assert NoClash(a[k], a[u], rows, nCol);
    } else {
      assert NoClash(a[u], a[k], rows, nCol);
      NoClashSwap(a[u], a[k], rows, nCol);
    }
  }

  // A sample that is not periodic stands for some prefix.
  ghost predicate EachStands(a: seq<Sample>, nCol: nat) {
    forall k {:trigger a[k]} :: 0 <= k < |a| ==> a[k].isPSample || a[k].iCol < nCol - 1
  }

  lemma AppendedEach(p: Accum, n: Sample, a: seq<Sample>)
    requires Shape(p) && EachStands(p.a, p.nCol) && (n.isPSample || n.iCol < p.nCol - 1)
    requires |p.a| >= p.mxSample ==> 0 <= p.iMin < |p.a|
    requires a == Kept(p) + [n]
    ensures EachStands(a, p.nCol)
  {
    Survivors(p);
    assert forall k {:trigger a[k]} :: 0 <= k < |a| - 1 ==> a[k] == p.a[Origin(p, k)];
  }

  // What one step of the flush keeps.
  ghost predicate Stands(p: Accum, rows: seq<Entry>, i: int)
    requires Shape(p) && Sorted(rows, p.nCol) && rows != []
  {
    Unique(p.a, rows, p.nCol) && EachStands(p.a, p.nCol) && Covered(p, rows, i)
  }

  // Only a[] matters.
  lemma StandsReads(p: Accum, q: Accum, rows: seq<Entry>, i: int)
    requires Shape(p) && Shape(q) && Sorted(rows, p.nCol) && rows != [] && Stands(p, rows, i)
    requires q.a == p.a && q.nCol == p.nCol && q.mxSample == p.mxSample
    ensures Stands(q, rows, i)
  {
    StayCarries(p, q, rows);
    CoveredOn(p, q, rows, i);
  }

  lemma BlockedStands(p: Accum, rows: seq<Entry>, i: nat, k: nat)
    requires Shape(p) && Sorted(rows, p.nCol) && rows != [] && i < p.nCol - 1 && Stands(p, rows, i)
    requires AllKeptOk(p.a, rows, p.nCol, p.nPSample, i) && k < |p.a| && p.a[k].isPSample && p.a[k].anEq[i] == 0
    ensures Stands(p, rows, i - 1) && HasStand(p.a, rows, p.nCol, |rows| - 1, i)
  {
    OpenIsZero(p, rows, i, k);
    assert StandsFor(p.a[k], rows, p.nCol, |rows| - 1, i);
    assert Carries(p, p, rows);
    CoveredDown(p, rows, i, p);
  }

  lemma AppendStands(p: Accum, rows: seq<Entry>, i: nat, b: Sample, q: Accum)
    requires Shape(p) && Sorted(rows, p.nCol) && rows != [] && Ready(b, rows, p.nCol, i) && Stands(p, rows, i)
    requires AllKeptOk(p.a, rows, p.nCol, p.nPSample, i) && SampleShape(b, p.nCol)
    requires forall k :: 0 <= k < |p.a| ==> p.a[k].anEq[i] != 0
    requires q.nMaxEqZero == p.nMaxEqZero && GetsIn(p, b.(anEq := Zeroed(b.anEq, i)), q)
    ensures Stands(q, rows, i - 1) && HasStand(q.a, rows, p.nCol, |rows| - 1, i)
  {
    var n := b.(anEq := Zeroed(b.anEq, i));
    forall k | 0 <= k < |p.a|
      ensures NoClash(p.a[k], n, rows, p.nCol)
    {
      CandidateApart(p, rows, i, b, n, k);
    }
    AppendedUnique(p, rows, n, q.a);
    AppendedEach(p, n, q.a);
    assert q.a[|q.a| - 1] == n;
    assert StandsFor(q.a[|q.a| - 1], rows, p.nCol, |rows| - 1, i);
    AppendCarries(p, rows, i, n, q);
    CoveredDown(p, rows, i, q);
  }

  // The upgraded sample stands for a group that is no smaller.
  lemma UpgradeCarries(p: Accum, rows: seq<Entry>, i: nat, b: Sample, u: nat, q: Accum)
    requires Shape(p) && Sorted(rows, p.nCol) && rows != [] && Ready(b, rows, p.nCol, i) && SampleShape(b, p.nCol)
    requires u < |p.a| && p.a[u].anEq[i] == 0 && !p.a[u].isPSample && Upgradable(p.a, b, p.nCol)
    requires Shape(q) && q == p.(a := p.a[u := Upgraded(p.a[u], b, p.nCol)], iMin := q.iMin)
    ensures Carries(p, q, rows)
  {
    WeightOrder(b, p.a[u]);
    StayCarries(p, q, rows);
  }

  lemma UpgradeStands(p: Accum, rows: seq<Entry>, i: nat, b: Sample, u: nat, q: Accum)
    requires Shape(p) && Sorted(rows, p.nCol) && rows != [] && Ready(b, rows, p.nCol, i) && Stands(p, rows, i)
    requires AllKeptOk(p.a, rows, p.nCol, p.nPSample, i) && IsTop(p.a, p.nCol, i, 0, u)
    requires forall k :: 0 <= k < |p.a| && p.a[k].anEq[i] == 0 ==> !p.a[k].isPSample
    requires SampleShape(b, p.nCol) && Upgradable(p.a, b, p.nCol)
    requires Shape(q) && q == p.(a := p.a[u := Upgraded(p.a[u], b, p.nCol)], iMin := q.iMin)
    ensures Stands(q, rows, i - 1) && HasStand(q.a, rows, p.nCol, |rows| - 1, i)
  {
    var s' := Upgraded(p.a[u], b, p.nCol);
    OpenIsZero(p, rows, i, u);
    forall k | 0 <= k < |p.a| && k != u
      ensures NoClash(p.a[k], s', rows, p.nCol)
    {
      UpgradeApart(p, rows, i, u, s', k);
    }
    UpgradedUnique(p.a, rows, p.nCol, u, s', q.a);
    assert StandsFor(q.a[u], rows, p.nCol, |rows| - 1, i);
    UpgradeCarries(p, rows, i, b, u, q);
    CoveredDown(p, rows, i, q);
  }

  // A candidate that is inserted, into a full array only if it is preferred to the
  // least preferred sample there.
  lemma InsertStands(p: Accum, rows: seq<Entry>, i: nat, b: Sample, q: Accum)
    requires Shape(p) && Sorted(rows, p.nCol) && rows != [] && Ready(b, rows, p.nCol, i)
    requires Closing(p, rows, i) && Stands(p, rows, i) && Insert(p, b, i) == Ok(q)
    requires |p.a| == p.mxSample ==> IsBetter(b, p.a[p.iMin])
    ensures Shape(q) && q.nCol == p.nCol && Stands(q, rows, i - 1) && HasStand(q.a, rows, p.nCol, |rows| - 1, i)
  {
    hide Append, FindNewMin;
    var p1 := p.(nMaxEqZero := if i > p.nMaxEqZero then i else p.nMaxEqZero);
    Raised(p, rows, i, p1);
    AllUpgradable(p1, rows, i, b);
    StandsReads(p, p1, rows, i);
    FindUpgradeFinds(p1.a, b, p1.nCol, |p1.a|, None);
    match FindUpgrade(p1.a, b, p1.nCol, |p1.a|, None) {
      case Blocked =>
        var k :| 0 <= k < |p1.a| && p1.a[k].anEq[i] == 0 && p1.a[k].isPSample;
        BlockedStands(p1, rows, i, k);
      case Chosen(None) =>
        var n := b.(anEq := Zeroed(b.anEq, i));
        AppendCloses(p1, rows, i, b, n);
        if |p1.a| == p1.mxSample {
          WeightOrder(b, p1.a[p1.iMin]);
        }
        AppendStands(p1, rows, i, b, q);
      case Chosen(Some(u)) =>
        UpgradeCloses(p1, rows, i, b, u, p1.(a := p1.a[u := Upgraded(p1.a[u], b, p1.nCol)]));
        UpgradeStands(p1, rows, i, b, u, q);
    }
  }

  // A candidate that a full array declines was not for a larger group.
  lemma DeclinedStands(p: Accum, rows: seq<Entry>, i: nat, b: Sample)
    requires Shape(p) && Sorted(rows, p.nCol) && rows != [] && Ready(b, rows, p.nCol, i) && SampleShape(b, p.nCol)
    requires Stands(p, rows, i) && |p.a| == p.mxSample && IsLeast(p.a, p.nCol, |p.a|, p.iMin)
    requires !IsBetter(b, p.a[p.iMin])
    ensures Stands(p, rows, i - 1)
  {
    WeightOrder(b, p.a[p.iMin]);
    LeastWeight(p.a, p.nCol, p.iMin);
    forall k {:trigger p.a[k]} | 0 <= k < |p.a| && !p.a[k].isPSample
      ensures Weight(b) <= Weight(p.a[k])
    {
    }
    assert Settled(p, rows, |rows| - 1, i);
    assert Carries(p, p, rows);
    CoveredDown(p, rows, i, p);
  }

  // A full array: the candidate gets in, or its group has a sample already, exactly if
  // it is preferred to some sample that is not periodic; otherwise nothing changes.
  ghost predicate Wanted(a: seq<Sample>, b: Sample, nCol: nat)
    requires AllShaped(a, nCol) && SampleShape(b, nCol)
  {
    exists k {:trigger a[k]} :: 0 <= k < |a| && !a[k].isPSample && IsBetter(b, a[k])
  }

  lemma WantedByLeast(a: seq<Sample>, b: Sample, nCol: nat, m: int)
    requires AllShaped(a, nCol) && SampleShape(b, nCol) && IsLeast(a, nCol, |a|, m)
    ensures Wanted(a, b, nCol) <==> IsBetter(b, a[m])
  {
    if Wanted(a, b, nCol) {
      var k :| 0 <= k < |a| && !a[k].isPSample && IsBetter(b, a[k]);
      StrictWeakOrder(b, a[k], a[m], nCol);
    }
  }

  lemma CandidateStands(p: Accum, rows: seq<Entry>, i: nat, q: Accum)
    requires Shape(p) && Sorted(rows, p.nCol) && i < p.nCol - 1 && Flushing(p, rows, i) && Stands(p, rows, i)
    requires PushCandidate(p, i) == Ok(q)
    ensures Shape(q) && q.nCol == p.nCol && Stands(q, rows, i - 1)
    ensures |p.a| < p.mxSample || Wanted(p.a, Completed(p, i), p.nCol) ==> HasStand(q.a, rows, p.nCol, |rows| - 1, i)
    ensures |p.a| == p.mxSample && !Wanted(p.a, Completed(p, i), p.nCol) ==> q.a == p.a
  {
    hide Insert;
    var b := Completed(p, i);
    var p1 := p.(aBest := p.aBest[i := b]);
    CompletedBest(p, rows, i, b, p1);
    StandsReads(p, p1, rows, i);
    if |p.a| == p.mxSample {
      WantedByLeast(p.a, b, p.nCol, p.iMin);
    }
    if |p1.a| == p1.mxSample && !IsBetter(b, p1.a[p1.iMin]) {
      DeclinedStands(p1, rows, i, b);
      StandsReads(p1, q, rows, i - 1);
    } else {
      InsertStands(p1, rows, i, b, q);
    }
  }

  // The outcome r of the loop keeps what the samples stand for.
  ghost predicate StandsAfter(r: Outcome<Accum>, rows: seq<Entry>, nCol: nat, i: int)
    requires Sorted(rows, nCol) && rows != []
  {
    r.Ok? && Shape(r.value) && r.value.nCol == nCol && Stands(r.value, rows, i)
  }

  lemma CandidateTurn(p: Accum, r: Outcome<Accum>, rows: seq<Entry>, i: nat, r': Outcome<Accum>)
    requires Shape(p) && Sorted(rows, p.nCol) && rows != [] && i < p.nCol - 1
    requires KeepsFlushing(p, r, rows, i) && StandsAfter(r, rows, p.nCol, i) && r' == PushCandidate(r.value, i)
    ensures StandsAfter(r', rows, p.nCol, i - 1)
  {
    PushCandidateOk(r.value, rows, i);
    CandidateStands(r.value, rows, i, r'.value);
  }

  lemma {:induction false} CandidatesStand(p: Accum, rows: seq<Entry>, iChng: nat, r: Outcome<Accum>)
    requires Shape(p) && Sorted(rows, p.nCol) && iChng < p.nCol && Flushing(p, rows, p.nCol - 2) &&
             Stands(p, rows, p.nCol - 2)
    requires r == PushCandidates(p, iChng)
    ensures StandsAfter(r, rows, p.nCol, iChng - 1)
    decreases p.nCol - iChng
  {
    hide PushCandidate;
    if iChng < p.nCol - 1 {
      var r1 := PushCandidates(p, iChng + 1);
      CandidatesStand(p, rows, iChng + 1, r1);
      PushCandidatesOk(p, rows, iChng + 1, r1);
      PushCandidatesLast(p, iChng, r1);
      CandidateTurn(p, r1, rows, iChng, r);
    }
  }

  // ---- the sweep, the next row, the periodic sample ------------------------------------

  // The same samples, with other counts, but not where they count.
  lemma SameStands(p: Accum, q: Accum, rows: seq<Entry>, i: int)
    requires Shape(p) && Shape(q) && Sorted(rows, p.nCol) && rows != [] && q.nCol == p.nCol && q.mxSample == p.mxSample
    requires |q.a| == |p.a| && forall k {:trigger q.a[k]} {:trigger p.a[k]} :: 0 <= k < |p.a| ==>
               q.a[k] == p.a[k].(anEq := q.a[k].anEq)
    requires NoLighter(p.a, q.a, p.nCol) && Stands(p, rows, i)
    ensures Stands(q, rows, i)
  {
    forall k, l | 0 <= k < l < |q.a|
      ensures NoClash(q.a[k], q.a[l], rows, q.nCol)
    {
      assert NoClash(p.a[k], p.a[l], rows, p.nCol);
      forall c | 0 <= c < p.nCol - 1
        ensures !Clash(q.a[k], q.a[l], rows, p.nCol, c)
      {
        assert !Clash(p.a[k], p.a[l], rows, p.nCol, c);
      }
    }
    StayCarries(p, q, rows);
    CoveredOn(p, q, rows, i);
  }

  lemma FilledStands(p: Accum, rows: seq<Entry>, iChng: nat)
    requires Shape(p) && Sorted(rows, p.nCol) && rows != [] && Stands(p, rows, iChng - 1)
    requires AllKeptOk(p.a, rows, p.nCol, p.nPSample, iChng - 1)
    ensures Shape(Filled(p, iChng)) && Stands(Filled(p, iChng), rows, iChng - 1)
  {
    var q := Filled(p, iChng);
    forall k {:trigger q.a[k]} | 0 <= k < |p.a| && !p.a[k].isPSample
      ensures Weight(q.a[k]) >= Weight(p.a[k])
    {
      assert KeptOk(p.a[k], rows, p.nCol, p.nPSample, iChng - 1);
      assert p.a[k].anEq[p.a[k].iCol] != 0;
    }
    SameStands(p, q, rows, iChng - 1);
  }

  // A row arrives that differs from its predecessor first in column iChng.
  lemma NextStands(p: Accum, rows: seq<Entry>, row: Entry, iChng: nat)
    requires Shape(p) && NextRow(rows, row, p.nCol, iChng) && Stands(p, rows, iChng - 1)
    requires forall k {:trigger p.a[k]} :: 0 <= k < |p.a| ==> RowOf(p.a[k]) < |rows|
    ensures Stands(p, rows + [row], p.nCol - 2)
  {
    var all := rows + [row];
    assert all[|rows|] == row && forall x :: 0 <= x < |rows| ==> all[x] == rows[x];
    forall k, l | 0 <= k < l < |p.a|
      ensures NoClash(p.a[k], p.a[l], all, p.nCol)
    {
      assert NoClash(p.a[k], p.a[l], rows, p.nCol);
      forall c | 0 <= c < p.nCol - 1
        ensures !Clash(p.a[k], p.a[l], all, p.nCol, c)
      {
        assert !Clash(p.a[k], p.a[l], rows, p.nCol, c);
      }
    }
    forall x, c | 0 <= x < |all| && 0 <= c < p.nCol - 1 && (c > p.nCol - 2 || !Agree(all[x], row, c))
      ensures Settled(p, all, x, c)
    {
      NextSettled(p, rows, row, iChng, x, c);
    }
  }

  lemma NextSettled(p: Accum, rows: seq<Entry>, row: Entry, iChng: nat, x: nat, c: nat)
    requires Shape(p) && NextRow(rows, row, p.nCol, iChng) && Covered(p, rows, iChng - 1)
    requires x <= |rows| && c < p.nCol - 1 && !Agree((rows + [row])[x], row, c)
    ensures Sorted(rows + [row], p.nCol) && Settled(p, rows + [row], x, c)
  {
    var all, last := rows + [row], rows[|rows| - 1];
    assert x < |rows| && all[x] == rows[x];
    ChangeAgrees(last, row, iChng, c);
    AgreeTrans(rows[x], last, row, c);
    assert Settled(p, rows, x, c);
    CountsSettled(rows, row, p.nCol, x, c);
    if HasStand(p.a, rows, p.nCol, x, c) {
      var k :| 0 <= k < |p.a| && StandsFor(p.a[k], rows, p.nCol, x, c);
      assert all[RowOf(p.a[k])] == rows[RowOf(p.a[k])];
      assert StandsFor(p.a[k], all, p.nCol, x, c);
    }
  }

  // A periodic sample clashes with none: a sample that stood for a prefix of the
  // current row would have its count there already.
  lemma PeriodicApart(p: Accum, rows: seq<Entry>, n: Sample, k: nat)
    requires Shape(p) && Sorted(rows, p.nCol) && rows != [] && k < |p.a|
    requires AllKeptOk(p.a, rows, p.nCol, p.nPSample, p.nCol - 2)
    requires SampleShape(n, p.nCol) && RowOf(n) == |rows| - 1 && n.isPSample
    ensures NoClash(p.a[k], n, rows, p.nCol)
  {
    var s := p.a[k];
    assert KeptOk(s, rows, p.nCol, p.nPSample, p.nCol - 2);
    forall c | 0 <= c < p.nCol - 1
      ensures !Clash(s, n, rows, p.nCol, c)
    {
      assert Open(s, rows, p.nCol, c) ==> s.anEq[c] == 0;
    }
  }

  lemma PeriodicStands(p: Accum, rows: seq<Entry>, n: Sample, q: Accum)
    requires Shape(p) && Sorted(rows, p.nCol) && rows != [] && Stands(p, rows, p.nCol - 2)
    requires AllKeptOk(p.a, rows, p.nCol, p.nPSample, p.nCol - 2) && GetsIn(p, n, q)
    requires RowOf(n) == |rows| - 1 && n.isPSample
    ensures Stands(q, rows, p.nCol - 2)
  {
    forall k | 0 <= k < |p.a|
      ensures NoClash(p.a[k], n, rows, p.nCol)
    {
      PeriodicApart(p, rows, n, k);
    }
    AppendedUnique(p, rows, n, q.a);
    AppendedEach(p, n, q.a);
    AppendCarries(p, rows, p.nCol - 2, n, q);
    CoveredOn(p, q, rows, p.nCol - 2);
  }

  // ---- whole runs ---------------------------------------------------------------------

  lemma PreviousStands(p: Accum, rows: seq<Entry>, iChng: nat, f: Accum)
    requires Shape(p) && Sorted(rows, p.nCol) && iChng < p.nCol && Flushing(p, rows, p.nCol - 2) &&
             Stands(p, rows, p.nCol - 2)
    requires PushPrevious(p, iChng) == Ok(f)
    ensures Shape(f) && f.nCol == p.nCol && Stands(f, rows, iChng - 1)
  {
    var r := PushCandidates(p, iChng);
    CandidatesStand(p, rows, iChng, r);
    PushCandidatesOk(p, rows, iChng, r);
    PushPreviousEnds(p, iChng, r.value);
    FilledStands(r.value, rows, iChng);
  }

  lemma InsertedStands(p: Accum, rows: seq<Entry>, c: Sample, r: Outcome<Accum>)
    requires Shape(p) && Sorted(rows, p.nCol) && CurrentOk(p.current, rows, p.nCol)
    requires SamplesOk(p, rows, p.nCol - 2, |rows| - 1) && Stands(p, rows, p.nCol - 2)
    requires IsPeriodic(|rows| - 1, p.nPSample) && c == p.current.(isPSample := true, iCol := 0)
    requires r == Insert(p, c, p.nCol - 1)
    ensures r.Ok? && Shape(r.value) && SameIndex(p, r.value) && Stands(r.value, rows, p.nCol - 2)
  {
    hide Insert;
    InsertPeriodicOk(p, rows, c, r);
    PeriodicStands(p, rows, c.(anEq := Zeroed(c.anEq, p.nCol - 1)), r.value);
  }

  lemma PushPeriodicStands(p: Accum, rows: seq<Entry>, q: Accum)
    requires Shape(p) && Sorted(rows, p.nCol) && CurrentOk(p.current, rows, p.nCol)
    requires SamplesOk(p, rows, p.nCol - 2, |rows| - 1) && Stands(p, rows, p.nCol - 2) && PushPeriodic(p) == Ok(q)
    ensures Shape(q) && q.nCol == p.nCol && Stands(q, rows, p.nCol - 2)
  {
    hide Insert;
    if IsPeriodic(|rows| - 1, p.nPSample) {
      var c := p.current.(isPSample := true, iCol := 0);
      var r := Insert(p, c, p.nCol - 1);
      InsertedStands(p, rows, c, r);
      StandsReads(r.value, q, rows, p.nCol - 2);
    }
  }

  // The rest of a stat_push(), after the groups that end have been closed.
  lemma TailStands(p: Accum, all: seq<Entry>, iChng: nat, r: Accum, q: Accum)
    requires Shape(p) && Sorted(all, p.nCol) && CurrentOk(p.current, all, p.nCol)
    requires SamplesOk(p, all, p.nCol - 2, |all| - 1) && Stands(p, all, p.nCol - 2)
    requires PushPeriodic(p) == Ok(r) && q == Renewed(r, iChng)
    ensures Shape(q) && q.nCol == p.nCol && Stands(q, all, p.nCol - 2)
  {
    PushPeriodicStands(p, all, r);
    StandsReads(r, q, all, p.nCol - 2);
  }

  lemma PushStands(p: Accum, rows: seq<Entry>, row: Entry, iChng: nat, q: Accum)
    requires Shape(p) && NextRow(rows, row, p.nCol, iChng) && Scanned(p, rows) && Stands(p, rows, p.nCol - 2)
    requires |rows| + 1 < p.mxSample * p.nPSample && Push(p, iChng, row.rowid) == Ok(q)
    ensures Shape(q) && q.nCol == p.nCol && Stands(q, rows + [row], p.nCol - 2)
  {
    ScannedFlushing(p, rows);
    var f := PushPreviousOk(p, rows, iChng);
    PreviousStands(p, rows, iChng, f);
    NextStands(f, rows, row, iChng);
    var p1 := Identified(f.(current := Advanced(f.current, iChng)), row.rowid);
    IdentifiedOk(f, rows, row, iChng, p1);
    StandsReads(f, p1, rows + [row], p.nCol - 2);
    TailStands(p1, rows + [row], iChng, PushPeriodic(p1).value, q);
  }

  lemma FirstStands(p: Accum, row: Entry, q: Accum)
    requires Shape(p) && Blank(p) && Sorted([row], p.nCol) && 1 < p.mxSample * p.nPSample
    requires Push(p, 0, row.rowid) == Ok(q)
    ensures Shape(q) && q.nCol == p.nCol && Stands(q, [row], p.nCol - 2)
  {
    var p1 := Identified(p.(current := p.current.(anEq := seq(p.nCol, _ => 1))), row.rowid);
    FirstIdentified(p, row, p1);
    assert Stands(p1, [row], p.nCol - 2);
    TailStands(p1, [row], 0, PushPeriodic(p1).value, q);
  }

  // The last turn of a scan of n rows.
  lemma ScanTurnStands(p0: Accum, rows: seq<Entry>, n: nat, p: Accum, q: Accum)
    requires Shape(p0) && Blank(p0) && Sorted(rows, p0.nCol) && 1 < n <= |rows| < p0.mxSample * p0.nPSample
    requires GoesWell(p0, Ok(p), rows[..n - 1]) && Stands(p, rows[..n - 1], p0.nCol - 2)
    requires Push(p, ChangeAt(rows, n - 1, p0.nCol), rows[n - 1].rowid) == Ok(q)
    ensures Shape(q) && q.nCol == p0.nCol && Sorted(rows[..n], p0.nCol) && Stands(q, rows[..n], p0.nCol - 2)
  {
    NextRowOf(rows, p0.nCol, n - 1);
    PushStands(p, rows[..n - 1], rows[n - 1], ChangeAt(rows, n - 1, p0.nCol), q);
  }

  lemma ScanBefore(p0: Accum, rows: seq<Entry>, n: nat, q: Accum) returns (p: Accum)
    requires Shape(p0) && Blank(p0) && Sorted(rows, p0.nCol) && 1 < n <= |rows| < p0.mxSample * p0.nPSample
    requires Scan(p0, rows, n) == Ok(q)
    ensures Shape(p) && p.nCol == p0.nCol && Sorted(rows[..n - 1], p0.nCol) && Scan(p0, rows, n - 1) == Ok(p)
    ensures GoesWell(p0, Ok(p), rows[..n - 1])
    ensures Push(p, ChangeAt(rows, n - 1, p0.nCol), rows[n - 1].rowid) == Ok(q)
  {
    ScanOk(p0, rows, n - 1);
    p := Scan(p0, rows, n - 1).value;
  }

  lemma FirstScanStands(p0: Accum, rows: seq<Entry>, q: Accum)
    requires Shape(p0) && Blank(p0) && Sorted(rows, p0.nCol) && 1 <= |rows| < p0.mxSample * p0.nPSample
    requires Scan(p0, rows, 1) == Ok(q)
    ensures Shape(q) && q.nCol == p0.nCol && Sorted(rows[..1], p0.nCol) && Stands(q, rows[..1], p0.nCol - 2)
  {
    PrefixSorted(rows, p0.nCol, 1);
    assert rows[..1] == [rows[0]];
    assert Scan(p0, rows, 0) == Ok(p0);
    FirstStands(p0, rows[0], q);
  }

  lemma {:induction false} ScanStands(p0: Accum, rows: seq<Entry>, n: nat, q: Accum)
    requires Shape(p0) && Blank(p0) && Sorted(rows, p0.nCol) && 0 < n <= |rows| < p0.mxSample * p0.nPSample
    requires Scan(p0, rows, n) == Ok(q)
    ensures Shape(q) && q.nCol == p0.nCol && Sorted(rows[..n], p0.nCol) && Stands(q, rows[..n], p0.nCol - 2)
  {
    if n == 1 {
      FirstScanStands(p0, rows, q);
    } else {
      var p := ScanBefore(p0, rows, n, q);
      ScanStands(p0, rows, n - 1, p);
      ScanTurnStands(p0, rows, n, p, q);
    }
  }

  // Every prefix of every row has a sample that stands for it.
  ghost predicate AllStand(a: seq<Sample>, rows: seq<Entry>, nCol: nat)
    requires Wide(rows, nCol) && AllShaped(a, nCol)
  {
    forall x, c {:trigger HasStand(a, rows, nCol, x, c)} :: 0 <= x < |rows| && 0 <= c < nCol - 1 ==>
        HasStand(a, rows, nCol, x, c)
  }

  // Each prefix has a sample; or 24 samples are kept, and each of them that is not
  // periodic for a group of at least as many rows as share the prefix.
  ghost predicate LargestKept(a: seq<Sample>, rows: seq<Entry>, nCol: nat)
    requires Wide(rows, nCol) && AllShaped(a, nCol)
  {
    forall x, c {:trigger HasStand(a, rows, nCol, x, c)} :: 0 <= x < |rows| && 0 <= c < nCol - 1 ==>
      HasStand(a, rows, nCol, x, c)
      || (|a| == STAT4_SAMPLES && forall k {:trigger a[k]} :: 0 <= k < |a| && !a[k].isPSample ==>
            EqRows(rows, rows[x], c) <= a[k].anEq[a[k].iCol])
  }

  // Main theorem: no two samples stand for the same prefix, unless both are periodic;
  // each prefix has a sample, or 24 are kept and each of them that is not periodic was
  // kept for a group of at least as many rows.
  lemma AnalyzeCovers(rows: seq<Entry>, nCol: nat, count: nat, seed: nat, f: Accum)
    requires Sorted(rows, nCol) && 0 < |rows| <= count && Analyze(rows, nCol, count, seed) == Ok(f)
    ensures Shape(f) && f.nCol == nCol && Unique(f.a, rows, nCol) && EachStands(f.a, nCol)
    ensures LargestKept(f.a, rows, nCol)
    ensures |f.a| < STAT4_SAMPLES ==> AllStand(f.a, rows, nCol)
    ensures f.nPSample == Init(nCol, count, seed).nPSample && AllKeptOk(f.a, rows, nCol, f.nPSample, -1)
  {
    var p0 := Init(nCol, count, seed);
    InitOk(nCol, count, seed, p0);
    ScanOk(p0, rows, |rows|);
    var p := Scan(p0, rows, |rows|).value;
    WholeScan(rows, p0, p);
    ScanStands(p0, rows, |rows|, p);
    assert rows[..|rows|] == rows;
    ScannedFlushing(p, rows);
    var q := PushPreviousOk(p, rows, 0);
    PreviousStands(p, rows, 0, q);
    assert f == q && f.mxSample == STAT4_SAMPLES;
    AllSettled(f, rows);
  }

  // ---- how many samples are periodic ---------------------------------------------------

  lemma {:induction false} CountGrows(a: seq<Sample>, m: nat, n: nat)
    requires m <= n <= |a|
    ensures PeriodicCount(a, m) <= PeriodicCount(a, n)
  {
    if m < n {
      CountGrows(a, m, n - 1);
    }
  }

  // The sample at row r, the last row of the j-th period, is at least the j-th periodic
  // one.
  lemma {:induction false} PeriodHeld(a: seq<Sample>, rows: seq<Entry>, nCol: nat, nPSample: nat, level: int, j: nat,
          r: nat) returns (k: nat)
    requires Sorted(rows, nCol) && nPSample > 0 && AllShaped(a, nCol) && AllKeptOk(a, rows, nCol, nPSample, level)
    requires Ascending(a, nCol) && PeriodicKept(a, nCol, |rows|, nPSample)
    requires 0 < j && r < |rows| && r + 1 == j * nPSample
    ensures k < |a| && RowOf(a[k]) == r && PeriodicCount(a, k + 1) >= j
    decreases j
  {
    hide Ascending, KeptOk;
    Division.Unique(r + 1, nPSample, j, 0);
    Division.IsDivision(r + 1, nPSample);
    assert HasRow(a, nCol, r);
    k :| 0 <= k < |a| && RowOf(a[k]) == r;
    IsPeriodicSample(a, rows, nCol, nPSample, level, k);
    if j > 1 {
      PeriodBefore(j, nPSample);
      var l := PeriodHeld(a, rows, nCol, nPSample, level, j - 1, r - nPSample);
      EarlierRow(a, nCol, l, k);
      CountGrows(a, l + 1, k);
    }
  }

  lemma IsPeriodicSample(a: seq<Sample>, rows: seq<Entry>, nCol: nat, nPSample: nat, level: int, k: nat)
    requires Sorted(rows, nCol) && nPSample > 0 && AllShaped(a, nCol) && AllKeptOk(a, rows, nCol, nPSample, level)
    requires k < |a| && (RowOf(a[k]) + 1) % nPSample == 0
    ensures a[k].isPSample
  {
    assert KeptOk(a[k], rows, nCol, nPSample, level);
  }

  lemma PeriodBefore(j: nat, n: nat)
    requires j > 1
    ensures (j - 1) * n == j * n - n && j * n - n >= n
  {
    Division.MulOrder(1, j - 1, n);
  }

  lemma EarlierRow(a: seq<Sample>, nCol: nat, l: nat, k: nat)
    requires AllShaped(a, nCol) && nCol > 0 && Ascending(a, nCol) && l < |a| && k < |a| && RowOf(a[l]) < RowOf(a[k])
    ensures l < k
  {
  }

  lemma Products(m: nat, n: nat, q: nat)
    requires q == m * n
    ensures (m + 1) * n == q + n && (m > 0 ==> q >= n)
  {
    if m > 0 {
      Division.MulOrder(1, m, n);
    }
  }

  lemma PeriodsCounted(a: seq<Sample>, rows: seq<Entry>, nCol: nat, n: nat, level: int, m: nat, q: nat)
    requires Sorted(rows, nCol) && n > 0 && AllShaped(a, nCol) && AllKeptOk(a, rows, nCol, n, level)
    requires Ascending(a, nCol) && PeriodicKept(a, nCol, |rows|, n) && q == m * n && q <= |rows| < q + n
    ensures PeriodicCount(a, |a|) == m
  {
    hide AllKeptOk, Ascending, PeriodicKept, PeriodicCount;
    Products(m, n, q);
    PeriodicBound(a, rows, nCol, n, level, m);
    if m > 0 {
      var k := PeriodHeld(a, rows, nCol, n, level, m, q - 1);
      CountGrows(a, k + 1, |a|);
    }
  }

  // As many samples are periodic as there are whole periods; if as many rows as were
  // announced have been pushed, and at least 72, a third of the room is used for them.
  lemma PeriodicExactly(rows: seq<Entry>, nCol: nat, count: nat, seed: nat, f: Accum)
    requires Sorted(rows, nCol) && 0 < |rows| <= count && Analyze(rows, nCol, count, seed) == Ok(f)
    ensures Shape(f) && PeriodicCount(f.a, |f.a|) == |rows| / f.nPSample
    ensures |rows| == count >= 72 ==> PeriodicCount(f.a, |f.a|) == STAT4_SAMPLES / 3
  {
    hide Analyze, ExactSample, AllKeptOk, Ascending, PeriodicKept, Sorted, PeriodicCount;
    AnalyzeCovers(rows, nCol, count, seed, f);
    AnalyzeExact(rows, nCol, count, seed);
    WholePeriods(|rows|, f.nPSample);
    PeriodsCounted(f.a, rows, nCol, f.nPSample, -1, |rows| / f.nPSample, |rows| / f.nPSample * f.nPSample);
    if |rows| == count >= 72 {
      EightPeriods(count, f.nPSample);
    }
  }

  lemma WholePeriods(r: nat, n: nat)
    requires n > 0
    ensures r / n * n <= r < r / n * n + n
  {
    assert r == r / n * n + r % n;
  }

  lemma EightPeriods(count: nat, n: nat)
    requires count >= 72 && n == count / (STAT4_SAMPLES / 3 + 1) + 1
    ensures n > 0 && count / n == STAT4_SAMPLES / 3
  {
    assert 8 * n <= count < 9 * n;
    Division.Unique(count, n, 8, count - 8 * n);
    Division.IsDivision(count, n);
  }

  lemma AllSettled(f: Accum, rows: seq<Entry>)
    requires Shape(f) && Sorted(rows, f.nCol) && rows != [] && Covered(f, rows, -1)
    ensures forall x, c {:trigger HasStand(f.a, rows, f.nCol, x, c)} :: 0 <= x < |rows| && 0 <= c < f.nCol - 1 ==>
              HasStand(f.a, rows, f.nCol, x, c)
              || (|f.a| == f.mxSample && NoSmaller(f.a, f.nCol, EqRows(rows, rows[x], c)))
  {
    forall x, c | 0 <= x < |rows| && 0 <= c < f.nCol - 1
      ensures HasStand(f.a, rows, f.nCol, x, c)
              || (|f.a| == f.mxSample && NoSmaller(f.a, f.nCol, EqRows(rows, rows[x], c)))
    {
      assert Settled(f, rows, x, c);
    }
  }
}
