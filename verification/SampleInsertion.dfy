// sampleInsert() and samplePushPrevious() keep the meaning of the samples, and
// none of their asserts can fail.
module SampleInsertion {
  import opened IndexOrder
  import opened SampleSelection
  import opened SamplePreference
  import opened SampleAccuracy
  import opened Wrappers

  lemma LowerLevel(a: seq<Sample>, rows: seq<Entry>, nCol: nat, nPSample: nat, level: int, level': int)
    requires Sorted(rows, nCol) && nPSample > 0 && AllKeptOk(a, rows, nCol, nPSample, level) && level' <= level
    ensures AllKeptOk(a, rows, nCol, nPSample, level')
  {
  }

  lemma FindNewMinOk(p: Accum, rows: seq<Entry>, level: int)
    requires Shape(p) && Sorted(rows, p.nCol) && AllKeptOk(p.a, rows, p.nCol, p.nPSample, level)
    requires Ascending(p.a, p.nCol) && |rows| < p.mxSample * p.nPSample
    ensures FindNewMin(p).Ok?
    ensures FindNewMin(p).value == p.(iMin := FindNewMin(p).value.iMin)
    ensures |p.a| == p.mxSample ==> IsLeast(p.a, p.nCol, |p.a|, FindNewMin(p).value.iMin)
  {
    if |p.a| >= p.mxSample {
      MinFromFinds(p.a, p.nCol, 0, -1);
      RoomForOthers(p.a, rows, p.nCol, p.nPSample, level);
    }
  }

  // ---- making room -------------------------------------------------------------

  // Sample k of the survivors was at this index before.
  function Origin(p: Accum, k: nat): nat {
    if |p.a| >= p.mxSample && k >= p.iMin then k + 1 else k
  }

  // Sample o, if it survives, is at this index afterwards.
  function Target(p: Accum, o: nat): int {
    if |p.a| >= p.mxSample && o > p.iMin then o - 1 else o
  }

  lemma Survivors(p: Accum)
    requires Shape(p) && (|p.a| >= p.mxSample ==> 0 <= p.iMin < |p.a|)
    ensures |Kept(p)| == if |p.a| >= p.mxSample then |p.a| - 1 else |p.a|
    ensures forall k {:trigger Kept(p)[k]} :: 0 <= k < |Kept(p)| ==>
              Origin(p, k) < |p.a| && Kept(p)[k] == p.a[Origin(p, k)]
  {
    forall k | 0 <= k < |Kept(p)|
      ensures Origin(p, k) < |p.a| && Kept(p)[k] == p.a[Origin(p, k)]
    {
      if |p.a| >= p.mxSample {
        assert Without(p.a, p.iMin)[k] == p.a[if k < p.iMin then k else k + 1];
      }
    }
  }

  lemma Survives(p: Accum, o: nat)
    requires Shape(p) && (|p.a| >= p.mxSample ==> 0 <= p.iMin < |p.a|)
    requires o < |p.a| && !(|p.a| >= p.mxSample && o == p.iMin)
    ensures 0 <= Target(p, o) < |Kept(p)| && Kept(p)[Target(p, o)] == p.a[o]
  {
  }

  lemma EvictionKeepsPeriodic(p: Accum, rows: seq<Entry>, level: int, seen: nat)
    requires Shape(p) && Sorted(rows, p.nCol) && SamplesOk(p, rows, level, seen)
    ensures AllShaped(Kept(p), p.nCol)
    ensures PeriodicKept(Kept(p), p.nCol, seen, p.nPSample)
  {
    Survivors(p);
    forall r | 0 <= r < seen && (r + 1) % p.nPSample == 0
      ensures HasRow(Kept(p), p.nCol, r)
    {
      PeriodicSurvives(p, rows, level, seen, r);
    }
  }

  lemma PeriodicSurvives(p: Accum, rows: seq<Entry>, level: int, seen: nat, r: nat)
    requires Shape(p) && Sorted(rows, p.nCol) && SamplesOk(p, rows, level, seen)
    requires r < seen && (r + 1) % p.nPSample == 0
    requires AllShaped(Kept(p), p.nCol)
    ensures HasRow(Kept(p), p.nCol, r)
  {
    assert HasRow(p.a, p.nCol, r);
    var o :| 0 <= o < |p.a| && RowOf(p.a[o]) == r;
    assert KeptOk(p.a[o], rows, p.nCol, p.nPSample, level);
    Survives(p, o);
    assert RowOf(Kept(p)[Target(p, o)]) == r;
  }

  lemma AppendedPeriodic(kept: seq<Sample>, n: Sample, nCol: nat, nPSample: nat, seen: nat, seen': nat)
    requires nCol > 0 && nPSample > 0 && AllShaped(kept, nCol) && SampleShape(n, nCol)
    requires PeriodicKept(kept, nCol, seen, nPSample)
    requires seen' == seen || (seen' == seen + 1 && RowOf(n) == seen)
    ensures AllShaped(kept + [n], nCol)
    ensures PeriodicKept(kept + [n], nCol, seen', nPSample)
  {
    var a := kept + [n];
    forall r | 0 <= r < seen' && (r + 1) % nPSample == 0
      ensures HasRow(a, nCol, r)
    {
      if r < seen {
        assert HasRow(kept, nCol, r);
        var k :| 0 <= k < |kept| && RowOf(kept[k]) == r;
        assert a[k] == kept[k];
      } else {
        assert a[|kept|] == n;
      }
    }
  }

  lemma AppendedAscending(p: Accum, n: Sample)
    requires Shape(p) && (|p.a| >= p.mxSample ==> 0 <= p.iMin < |p.a|)
    requires Ascending(p.a, p.nCol) && SampleShape(n, p.nCol)
    requires forall k {:trigger p.a[k]} :: 0 <= k < |p.a| ==> RowOf(p.a[k]) < RowOf(n)
    ensures AllShaped(Kept(p) + [n], p.nCol)
    ensures Ascending(Kept(p) + [n], p.nCol)
  {
    Survivors(p);
    var kept := Kept(p);
    var a := kept + [n];
    forall k, l | 0 <= k < l < |a|
      ensures RowOf(a[k]) < RowOf(a[l])
    {
      assert a[k] == kept[k] == p.a[Origin(p, k)];
      if l < |kept| {
        assert a[l] == kept[l] == p.a[Origin(p, l)];
      }
    }
  }

  lemma AppendedKeptOk(p: Accum, rows: seq<Entry>, n: Sample, level: int)
    requires Shape(p) && (|p.a| >= p.mxSample ==> 0 <= p.iMin < |p.a|)
    requires Sorted(rows, p.nCol) && AllKeptOk(p.a, rows, p.nCol, p.nPSample, level)
    requires KeptOk(n, rows, p.nCol, p.nPSample, level)
    ensures AllKeptOk(Kept(p) + [n], rows, p.nCol, p.nPSample, level)
  {
    Survivors(p);
    var kept := Kept(p);
    var a := kept + [n];
    forall k | 0 <= k < |a|
      ensures KeptOk(a[k], rows, p.nCol, p.nPSample, level)
    {
      if k < |kept| {
        assert a[k] == kept[k] == p.a[Origin(p, k)];
      }
    }
  }

  lemma AppendedNoZero(p: Accum, n: Sample)
    requires Shape(p) && (|p.a| >= p.mxSample ==> 0 <= p.iMin < |p.a|)
    requires NoZeroFrom(p.a, p.nCol, p.nMaxEqZero) && SampleShape(n, p.nCol)
    requires forall j {:trigger n.anEq[j]} :: p.nMaxEqZero <= j < p.nCol ==> n.anEq[j] > 0
    ensures AllShaped(Kept(p) + [n], p.nCol)
    ensures NoZeroFrom(Kept(p) + [n], p.nCol, p.nMaxEqZero)
  {
    Survivors(p);
    var kept := Kept(p);
    var a := kept + [n];
    forall k, j | 0 <= k < |a| && p.nMaxEqZero <= j < p.nCol
      ensures a[k].anEq[j] > 0
    {
      if k < |kept| {
        assert a[k] == kept[k] == p.a[Origin(p, k)];
      }
    }
  }

  lemma SurvivorsBefore(p: Accum, r: nat)
    requires Shape(p) && (|p.a| >= p.mxSample ==> 0 <= p.iMin < |p.a|)
    requires forall k {:trigger p.a[k]} :: 0 <= k < |p.a| ==> RowOf(p.a[k]) < r
    ensures AllShaped(Kept(p), p.nCol)
    ensures forall k {:trigger Kept(p)[k]} :: 0 <= k < |Kept(p)| ==> RowOf(Kept(p)[k]) < r
  {
    Survivors(p);
  }

  lemma AppendShape(p: Accum, n: Sample, q: Accum)
    requires Shape(p) && (|p.a| >= p.mxSample ==> 0 <= p.iMin < |p.a|)
    requires SampleShape(n, p.nCol)
    requires forall k {:trigger p.a[k]} :: 0 <= k < |p.a| ==> RowOf(p.a[k]) < RowOf(n)
    requires q == p.(a := Kept(p) + [n])
    ensures Shape(q)
    ensures forall k {:trigger q.a[k]} :: 0 <= k < |q.a| ==> RowOf(q.a[k]) <= RowOf(n)
  {
    SurvivorsBefore(p, RowOf(n));
    var kept := Kept(p);
    assert forall k {:trigger q.a[k]} :: 0 <= k < |q.a| ==> q.a[k] == if k < |kept| then kept[k] else n;
  }

  lemma AppendIs(p: Accum, new_: Sample, z: nat, n: Sample, q: Accum)
    requires Shape(p) && (|p.a| >= p.mxSample ==> 0 <= p.iMin < |p.a|)
    requires SampleShape(new_, p.nCol) && z < p.nCol
    requires n == new_.(anEq := Zeroed(new_.anEq, z))
    requires forall k {:trigger p.a[k]} :: 0 <= k < |p.a| ==> RowOf(p.a[k]) < RowOf(new_)
    requires q == p.(a := Kept(p) + [n]) && Shape(q)
    ensures Append(p, new_, z) == FindNewMin(q)
  {
    SurvivorsBefore(p, RowOf(new_));
    var kept := Kept(p);
    if kept != [] {
      assert RowOf(kept[|kept| - 1]) < RowOf(new_);
    }
  }

  // A sample past the last one, with the count of every group that has ended,
  // joins the others: the least desirable sample makes room, never a periodic one.
  lemma AppendOk(p: Accum, rows: seq<Entry>, new_: Sample, z: nat, n: Sample, level: int, seen: nat, seen': nat)
    requires Shape(p) && Sorted(rows, p.nCol) && SamplesOk(p, rows, level, seen)
    requires SampleShape(new_, p.nCol) && z < p.nCol
    requires n == new_.(anEq := Zeroed(new_.anEq, z))
    requires KeptOk(n, rows, p.nCol, p.nPSample, level)
    requires forall k {:trigger p.a[k]} :: 0 <= k < |p.a| ==> RowOf(p.a[k]) < RowOf(new_)
    requires forall j {:trigger n.anEq[j]} :: p.nMaxEqZero <= j < p.nCol ==> n.anEq[j] > 0
    requires RowOf(new_) < seen' <= |rows|
    requires seen' == seen || (seen' == seen + 1 && RowOf(new_) == seen)
    ensures Append(p, new_, z).Ok?
    ensures Append(p, new_, z).value == p.(a := Kept(p) + [n], iMin := Append(p, new_, z).value.iMin)
    ensures SamplesOk(Append(p, new_, z).value, rows, level, seen')
  {
    EvictionKeepsPeriodic(p, rows, level, seen);
    AppendedPeriodic(Kept(p), n, p.nCol, p.nPSample, seen, seen');
    AppendedAscending(p, n);
    AppendedKeptOk(p, rows, n, level);
    AppendedNoZero(p, n);
    var q := p.(a := Kept(p) + [n]);
    AppendShape(p, n, q);
    AppendIs(p, new_, z, n, q);
    FindNewMinOk(q, rows, level);
  }

  // ---- one candidate -------------------------------------------------------------

  lemma OpenIsZero(p: Accum, rows: seq<Entry>, i: nat, k: nat)
    requires Shape(p) && Sorted(rows, p.nCol) && i < p.nCol - 1 && k < |p.a|
    requires AllKeptOk(p.a, rows, p.nCol, p.nPSample, i)
    ensures Placed(p.a[k], rows, p.nCol)
    ensures p.a[k].anEq[i] == 0 <==> Open(p.a[k], rows, p.nCol, i)
  {
    assert KeptOk(p.a[k], rows, p.nCol, p.nPSample, i);
    assert (p.a[k].anEq[i] == 0) || CountOk(p.a[k], rows, p.nCol, i);
  }

  lemma AllUpgradable(p: Accum, rows: seq<Entry>, i: nat, b: Sample)
    requires Shape(p) && Sorted(rows, p.nCol) && rows != [] && Ready(b, rows, p.nCol, i)
    requires AllKeptOk(p.a, rows, p.nCol, p.nPSample, i)
    ensures Upgradable(p.a, b, p.nCol)
  {
    forall k | 0 <= k < |p.a| && p.a[k].anEq[b.iCol] == 0 && !p.a[k].isPSample
      ensures p.a[k].iCol > b.iCol && IsBetter(b, p.a[k])
    {
      assert KeptOk(p.a[k], rows, p.nCol, p.nPSample, i);
      CandidateBeats(b, p.a[k], rows, p.nCol, p.nPSample, i, i);
    }
  }

  // The sample picked for an upgrade has no zero right of column i: the sample
  // standing for the longer prefix would have been preferred to it.
  lemma PickedHasNoZeroRight(p: Accum, rows: seq<Entry>, i: nat, u: nat, j: nat)
    requires Shape(p) && Sorted(rows, p.nCol) && i < j < p.nCol
    requires AllKeptOk(p.a, rows, p.nCol, p.nPSample, i) && DealtWith(p, rows, i)
    requires IsTop(p.a, p.nCol, i, 0, u)
    requires forall k :: 0 <= k < |p.a| && p.a[k].anEq[i] == 0 ==> !p.a[k].isPSample
    ensures p.a[u].anEq[j] != 0
  {
    if p.a[u].anEq[j] == 0 {
      assert Represented(p.a, rows, p.nCol, p.nPSample, i, i + 1);
      var w :| 0 <= w < |p.a| && Open(p.a[w], rows, p.nCol, i + 1) && (p.a[w].isPSample || p.a[w].iCol == i + 1);
      OpenIsZero(p, rows, i, w);
      StandInBeats(p.a[w], p.a[u], rows, p.nCol, p.nPSample, i, j);
    }
  }

  lemma StandInBeats(w: Sample, u: Sample, rows: seq<Entry>, nCol: nat, nPSample: nat, i: nat, j: nat)
    requires Sorted(rows, nCol) && nPSample > 0 && i < j < nCol
    requires KeptOk(w, rows, nCol, nPSample, i) && KeptOk(u, rows, nCol, nPSample, i)
    requires !w.isPSample && w.iCol == i + 1 && Open(w, rows, nCol, i + 1)
    requires !u.isPSample && u.anEq[j] == 0
    ensures IsBetter(w, u)
  {
    assert u.anEq[u.iCol] != 0 && w.anEq[w.iCol] != 0;
    OpenShrink(u, rows, nCol, i + 1, j);
    OpenCount(w, rows, nCol, i + 1);
    OpenCount(u, rows, nCol, i + 1);
    EqRowsShrink(rows, rows[RowOf(u)], i + 1, u.iCol);
  }

  lemma UpgradedKeptOk(s: Sample, b: Sample, rows: seq<Entry>, nCol: nat, nPSample: nat, i: nat, s': Sample)
    requires Sorted(rows, nCol) && rows != [] && nPSample > 0 && Ready(b, rows, nCol, i)
    requires KeptOk(s, rows, nCol, nPSample, i) && !s.isPSample && Open(s, rows, nCol, i)
    requires forall j {:trigger s.anEq[j]} :: i < j < nCol ==> s.anEq[j] != 0
    requires s' == Upgraded(s, b, nCol)
    ensures KeptOk(s', rows, nCol, nPSample, i - 1)
    ensures forall j {:trigger s'.anEq[j]} :: i <= j < nCol ==> s'.anEq[j] != 0
    ensures RowOf(s') == RowOf(s) && Open(s', rows, nCol, i)
  {
    OpenCount(s, rows, nCol, i);
    assert Placed(s', rows, nCol);
    assert b.anEq[i] > 0;
    forall j | 0 <= j < nCol
      ensures if s'.anEq[j] == 0 then j < nCol - 1 && Open(s', rows, nCol, j) else CountOk(s', rows, nCol, j)
      ensures j >= i ==> s'.anEq[j] != 0
    {
      if j != i {
        assert s'.anEq[j] == s.anEq[j];
      }
    }
    forall j | 0 <= j <= i - 1 && j < nCol - 1 && Open(s', rows, nCol, j)
      ensures s'.anEq[j] == 0
    {
      assert s'.anEq[j] == s.anEq[j];
    }
  }

  lemma UpgradeOk(p: Accum, rows: seq<Entry>, i: nat, b: Sample, u: nat, s': Sample, q: Accum)
    requires Shape(p) && Sorted(rows, p.nCol) && rows != [] && Ready(b, rows, p.nCol, i)
    requires SamplesOk(p, rows, i, |rows|)
    requires u < |p.a| && !p.a[u].isPSample
    requires SampleShape(s', p.nCol) && RowOf(s') == RowOf(p.a[u]) && !s'.isPSample
    requires KeptOk(s', rows, p.nCol, p.nPSample, i - 1)
    requires forall j {:trigger s'.anEq[j]} :: 0 <= j < p.nCol && s'.anEq[j] == 0 ==> p.a[u].anEq[j] == 0
    requires q == p.(a := p.a[u := s'])
    ensures Shape(q) && FindNewMin(q).Ok?
    ensures FindNewMin(q).value == q.(iMin := FindNewMin(q).value.iMin)
    ensures SamplesOk(FindNewMin(q).value, rows, i - 1, |rows|)
  {
    LowerLevel(p.a, rows, p.nCol, p.nPSample, i, i - 1);
    assert forall k {:trigger q.a[k]} :: 0 <= k < |q.a| ==> q.a[k] == if k == u then s' else p.a[k];
    assert Ascending(q.a, q.nCol);
    assert AllKeptOk(q.a, rows, q.nCol, q.nPSample, i - 1);
    FindNewMinOk(q, rows, i - 1);
    UpgradeKeepsPeriodic(p.a, q.a, p.nCol, p.nPSample, |rows|);
    forall k, j | 0 <= k < |q.a| && q.nMaxEqZero <= j < q.nCol
      ensures q.a[k].anEq[j] > 0
    {
      assert p.a[k].anEq[j] > 0;
    }
  }

  lemma UpgradeKeepsPeriodic(a: seq<Sample>, a': seq<Sample>, nCol: nat, nPSample: nat, seen: nat)
    requires nCol > 0 && nPSample > 0 && AllShaped(a, nCol) && AllShaped(a', nCol) && |a| == |a'|
    requires forall k {:trigger a'[k]} :: 0 <= k < |a| ==> RowOf(a'[k]) == RowOf(a[k])
    requires PeriodicKept(a, nCol, seen, nPSample)
    ensures PeriodicKept(a', nCol, seen, nPSample)
  {
    forall r | 0 <= r < seen && (r + 1) % nPSample == 0
      ensures HasRow(a', nCol, r)
    {
      assert HasRow(a, nCol, r);
      var k :| 0 <= k < |a| && RowOf(a[k]) == r;
      assert RowOf(a'[k]) == r;
    }
  }
}
