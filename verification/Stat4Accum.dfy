// The accumulator behind stat_init(), stat_push() and stat_get(): one object
// updated in place while an index is scanned.  Every method is tied to the
// function of SampleSelection that specifies it, and every assert of the
// source is an assert here.
module Stat4 {
  import opened Division
  import opened IndexOrder
  import opened SampleSelection
  import opened SampleScan
  import opened StatText
  import opened Wrappers
  import SampleAccuracy
  import SampleCoverage
  import SampleTheorem

  // sampleIsBetterPost()
  method SampleIsBetterPost(pNew: Sample, pOld: Sample) returns (better: bool)
    requires |pNew.anEq| == |pOld.anEq| && pNew.iCol == pOld.iCol < |pNew.anEq|
    ensures better == IsBetterPost(pNew, pOld)
  {
    var nCol := |pNew.anEq|;
    var i := pNew.iCol + 1;
    while i < nCol
      invariant pNew.iCol < i <= nCol
      invariant IsBetterPost(pNew, pOld) == BetterFrom(pNew, pOld, i)
    {
      if pNew.anEq[i] > pOld.anEq[i] {
        return true;
      }
      if pNew.anEq[i] < pOld.anEq[i] {
        return false;
      }
      i := i + 1;
    }
    return pNew.iHash > pOld.iHash;
  }

  // sampleIsBetter()
  method SampleIsBetter(pNew: Sample, pOld: Sample) returns (better: bool)
    requires |pNew.anEq| == |pOld.anEq| && pNew.iCol < |pNew.anEq| && pOld.iCol < |pOld.anEq|
    requires !pNew.isPSample && !pOld.isPSample
    ensures better == IsBetter(pNew, pOld)
  {
    var nEqNew, nEqOld := pNew.anEq[pNew.iCol], pOld.anEq[pOld.iCol];
    if nEqNew > nEqOld {
      return true;
    }
    if nEqNew == nEqOld {
      if pNew.iCol < pOld.iCol {
        return true;
      }
      if pNew.iCol == pOld.iCol {
        better := SampleIsBetterPost(pNew, pOld);
        return;
      }
    }
    return false;
  }

  function RoundedUp(n: nat, d: nat): nat {
    if d == 0 then 0 else (n + d - 1) / d
  }

  // The numbers of the sqlite_stat1 entry, from the counts of the last row.
  ghost predicate Stat1Numbers(p: Accum, nKeyCol: nat, stat: seq<nat>)
    requires Shape(p) && nKeyCol <= p.nCol
  {
    && |stat| == nKeyCol + 1
    && stat[0] == p.nRow
    && forall i {:trigger stat[i + 1]} :: 0 <= i < nKeyCol ==> stat[i + 1] == RoundedUp(p.nRow, p.current.anDLt[i] + 1)
  }

  lemma Stat1Next(p: Accum, i: nat, stat: seq<nat>, iVal: nat)
    requires Shape(p) && i < p.nCol && Stat1Numbers(p, i, stat) && iVal == RoundedUp(p.nRow, p.current.anDLt[i] + 1)
    ensures Stat1Numbers(p, i + 1, stat + [iVal])
  {
  }

  class Stat4Accum {
    const nCol: nat
    const mxSample: nat
    const nPSample: nat
    const a: array<Sample>
    const aBest: array<Sample>
    var nRow: nat
    var current: Sample
    var iPrn: nat
    var iMin: int
    var nSample: nat
    var nMaxEqZero: nat

    ghost predicate Valid()
      reads this, a, aBest
    {
      && a != aBest && a.Length == mxSample && aBest.Length == nCol && nSample <= mxSample
      && Shape(Abs())
    }

    // The value of the accumulator.
    ghost function Abs(): Accum
      reads this, a, aBest
      requires nSample <= a.Length
    {
      Accum(nCol, mxSample, nPSample, nRow, current, iPrn, aBest[..], a[..nSample], iMin, nMaxEqZero)
    }

    // stat_init()
    constructor (nCol: nat, count: nat, seed: nat)
      requires nCol > 0
      ensures Valid() && fresh(a) && fresh(aBest)
      ensures Abs() == Init(nCol, count, seed)
    {
      this.nCol := nCol;
      mxSample := STAT4_SAMPLES;
      nPSample := count / (STAT4_SAMPLES / 3 + 1) + 1;
      nRow := 0;
      current := BlankSample(nCol, 0);
      iPrn := seed;
      iMin := 0;
      nSample := 0;
      nMaxEqZero := 0;
      a := new Sample[STAT4_SAMPLES](_ => BlankSample(nCol, 0));
      aBest := new Sample[nCol](i => BlankSample(nCol, i));
      new;
      assert aBest[..] == Init(nCol, count, seed).aBest;
    }

    // The upgrade scan of sampleInsert(): blocked by a periodic sample, or the
    // best open sample, if any.
    method ScanForUpgrade(pNew: Sample) returns (blocked: bool, up: Option<nat>)
      requires Valid() && SampleShape(pNew, nCol) && !pNew.isPSample
      requires !FindUpgrade(a[..nSample], pNew, nCol, nSample, None).Fault?
      ensures FindUpgrade(a[..nSample], pNew, nCol, nSample, None) == if blocked then Blocked else Chosen(up)
    {
      ghost var s := a[..nSample];
      up := None;
      var i := nSample;
      while i > 0
        invariant 0 <= i <= nSample
        invariant up.Some? ==> up.value < nSample && !a[up.value].isPSample
        invariant FindUpgrade(s, pNew, nCol, nSample, None) == FindUpgrade(s, pNew, nCol, i, up)
      {
        i := i - 1;
        var pOld := a[i];
        assert pOld == s[i];
        if pOld.anEq[pNew.iCol] == 0 {
          if pOld.isPSample {
            return true, None;
          }
          assert pOld.iCol > pNew.iCol;
          assert IsBetter(pNew, pOld);
          var take := up.None?;
          if up.Some? {
            take := SampleIsBetter(pOld, a[up.value]);
          }
          if take {
            up := Some(i);
          }
        }
      }
      blocked := false;
    }

    // The last loop of sampleInsert().
    method FindMin()
      requires Valid() && FindNewMin(Abs()).Ok?
      modifies this`iMin
      ensures Valid() && Abs() == FindNewMin(old(Abs())).value
    {
      if nSample >= mxSample {
        ghost var s := a[..nSample];
        var m := -1;
        var i := 0;
        while i < mxSample
          invariant 0 <= i <= mxSample && -1 <= m < mxSample && (m >= 0 ==> !a[m].isPSample)
          invariant MinFrom(s, nCol, 0, -1) == MinFrom(s, nCol, i, m)
        {
          if !a[i].isPSample {
            var take := m < 0;
            if m >= 0 {
              take := SampleIsBetter(a[m], a[i]);
            }
            if take {
              m := i;
            }
          }
          i := i + 1;
        }
        assert m >= 0;
        iMin := m;
      }
    }

    // The sample at iMin gives up its slot to those behind it.
    method MakeRoom()
      requires Valid() && nSample >= mxSample && 0 <= iMin < nSample
      modifies this`nSample, a
      ensures nSample == mxSample - 1 && a[..nSample] == Kept(old(Abs()))
    {
      ghost var was := a[..nSample];
      var n, s := nSample, iMin;
      while s < n - 1
        invariant n == nSample == mxSample == a.Length && iMin <= s <= n - 1
        invariant forall k :: 0 <= k < iMin ==> a[k] == was[k]
        invariant forall k :: iMin <= k < s ==> a[k] == was[k + 1]
        invariant forall k :: s < k < n ==> a[k] == was[k]
      {
        a[s] := a[s + 1];
        s := s + 1;
      }
      nSample := mxSample - 1;
    }

    method AppendSample(pNew: Sample, nEqZero: nat)
      requires Valid() && SampleShape(pNew, nCol) && nEqZero <= nCol
      requires Append(Abs(), pNew, nEqZero).Ok?
      modifies this`nSample, this`iMin, a
      ensures Valid() && Abs() == Append(old(Abs()), pNew, nEqZero).value
    {
      ghost var p := Abs();
      AppendParts(p, pNew, nEqZero);
      if nSample >= mxSample {
        MakeRoom();
      }
      assert a[..nSample] == Kept(p);
      assert nSample == 0 || pNew.anLt[nCol - 1] > a[nSample - 1].anLt[nCol - 1];
      a[nSample] := pNew.(anEq := Zeroed(pNew.anEq, nEqZero));
      nSample := nSample + 1;
      assert a[..nSample] == Kept(p) + [pNew.(anEq := Zeroed(pNew.anEq, nEqZero))];
      FindMin();
    }

    // sampleInsert()
    method SampleInsert(pNew: Sample, nEqZero: nat)
      requires Valid() && SampleShape(pNew, nCol) && nEqZero <= nCol
      requires Insert(Abs(), pNew, nEqZero).Ok?
      modifies this`nSample, this`iMin, this`nMaxEqZero, a
      ensures Valid() && Abs() == Insert(old(Abs()), pNew, nEqZero).value
    {
      if nEqZero > nMaxEqZero {
        nMaxEqZero := nEqZero;
      }
      if !pNew.isPSample {
        assert pNew.anEq[pNew.iCol] > 0;
        var blocked, up := ScanForUpgrade(pNew);
        if blocked {
          return;
        }
        if up.Some? {
          ghost var p := Abs();
          var u := up.value;
          a[u] := a[u].(iCol := pNew.iCol, anEq := a[u].anEq[pNew.iCol := pNew.anEq[pNew.iCol]]);
          assert a[..nSample] == p.a[u := Upgraded(p.a[u], pNew, nCol)];
          FindMin();
          return;
        }
      }
      AppendSample(pNew, nEqZero);
    }
  
    // The sweep of samplePushPrevious() over one sample.
    method FillSample(i: nat, iChng: nat)
      requires Valid() && i < nSample
      modifies a
      ensures forall k :: 0 <= k < mxSample && k != i ==> a[k] == old(a[k])
      ensures |old(a[i]).anEq| == nCol
      ensures a[i] == old(a[i]).(anEq := FilledCounts(old(a[i]).anEq, current.anEq, iChng))
    {
      ghost var was := a[i].anEq;
      assert SampleShape(Abs().a[i], nCol);
      var j := iChng;
      while j < nCol
        invariant j >= iChng && (j > nCol ==> j == iChng)
        invariant |a[i].anEq| == nCol && a[i] == old(a[i]).(anEq := a[i].anEq)
        invariant forall k :: 0 <= k < mxSample && k != i ==> a[k] == old(a[k])
        invariant forall l :: 0 <= l < nCol ==>
          a[i].anEq[l] == if iChng <= l < j && was[l] == 0 then current.anEq[l] else was[l]
      {
        if a[i].anEq[j] == 0 {
          a[i] := a[i].(anEq := a[i].anEq[j := current.anEq[j]]);
        }
        j := j + 1;
      }
      assert a[i].anEq == FilledCounts(was, current.anEq, iChng);
    }

    method FillSamples(iChng: nat)
      requires Valid()
      modifies this`nMaxEqZero, a
      ensures Valid() && Abs() == Filled(old(Abs()), iChng)
    {
      ghost var p := Abs();
      if iChng < nMaxEqZero {
        var i := nSample;
        while i > 0
          invariant 0 <= i <= nSample && Valid()
          invariant forall k :: 0 <= k < nSample ==> SampleShape(p.a[k], nCol)
          invariant forall k :: 0 <= k < nSample ==>
            a[k] == if k < i then p.a[k] else p.a[k].(anEq := FilledCounts(p.a[k].anEq, current.anEq, iChng))
        {
          i := i - 1;
          FillSample(i, iChng);
          ShapedStays(p, iChng, a[..nSample], i);
        }
        nMaxEqZero := iChng;
        assert a[..nSample] == Filled(p, iChng).a;
      }
    }

    lemma ShapedStays(p: Accum, iChng: nat, s: seq<Sample>, i: nat)
      requires Shape(p) && |s| == |p.a| && i <= |s|
      requires forall k :: 0 <= k < |s| ==>
        s[k] == if k < i then p.a[k] else p.a[k].(anEq := FilledCounts(p.a[k].anEq, p.current.anEq, iChng))
      ensures AllShaped(s, p.nCol)
    {
    }

    // One turn of the candidate loop of samplePushPrevious().
    method SamplePushCandidate(i: nat)
      requires Valid() && i < nCol
      requires PushCandidate(Abs(), i).Ok?
      modifies this`nSample, this`iMin, this`nMaxEqZero, a, aBest
      ensures Valid() && Abs() == PushCandidate(old(Abs()), i).value
    {
      ghost var q := Abs();
      var pBest := aBest[i].(anEq := aBest[i].anEq[i := current.anEq[i]]);
      assert pBest == Completed(q, i);
      aBest[i] := pBest;
      assert aBest[..] == q.aBest[i := pBest];
      assert Abs() == q.(aBest := q.aBest[i := pBest]);
      var wants := nSample < mxSample;
      if !wants {
        wants := SampleIsBetter(pBest, a[iMin]);
      }
      if wants {
        SampleInsert(pBest, i);
      }
    }

    // The candidate loop of samplePushPrevious().
    method SamplePushCandidates(iChng: nat)
      requires Valid() && iChng < nCol
      requires PushCandidates(Abs(), iChng).Ok?
      modifies this`nSample, this`iMin, this`nMaxEqZero, a, aBest
      ensures Valid() && Abs() == PushCandidates(old(Abs()), iChng).value
    {
      hide PushCandidate;
      ghost var p := Abs();
      var i := nCol - 2;
      while i >= iChng
        invariant iChng - 1 <= i < nCol - 1 && Valid() && nCol == p.nCol
        invariant PushCandidates(p, i + 1) == Ok(Abs())
        decreases i
      {
        PushCandidatesSoFar(p, i, iChng);
        PushCandidatesTurn(p, Abs(), i, PushCandidate(Abs(), i));
        SamplePushCandidate(i);
        i := i - 1;
      }
    }

    // The candidates of the groups that end, and the check behind their loop.
    method SampleCloseGroups(iChng: nat)
      requires Valid() && iChng < nCol
      requires PushPrevious(Abs(), iChng).Ok?
      modifies this`nSample, this`iMin, this`nMaxEqZero, a, aBest
      ensures Valid() && PushPrevious(old(Abs()), iChng) == Ok(Filled(Abs(), iChng))
    {
      hide PushCandidates;
      ghost var p := Abs();
      PushPreviousStarts(p, iChng);
      SamplePushCandidates(iChng);
      PushPreviousEnds(p, iChng, Abs());
      assert NoZeroFrom(Abs().a, nCol, nMaxEqZero);
    }

    // samplePushPrevious()
    method SamplePushPrevious(iChng: nat)
      requires Valid() && iChng < nCol
      requires PushPrevious(Abs(), iChng).Ok?
      modifies this`nSample, this`iMin, this`nMaxEqZero, a, aBest
      ensures Valid() && Abs() == PushPrevious(old(Abs()), iChng).value
    {
      SampleCloseGroups(iChng);
      FillSamples(iChng);
    }

    // The counts of stat_push() for the second and later rows.
    method AdvanceCounts(iChng: nat)
      requires Valid() && iChng < nCol
      modifies this`current
      ensures Valid() && current == Advanced(old(current), iChng)
    {
      ghost var c := current;
      var anEq, anLt, anDLt := current.anEq, current.anLt, current.anDLt;
      var i := 0;
      while i < iChng
        invariant 0 <= i <= iChng && |anEq| == nCol
        invariant forall j :: 0 <= j < nCol ==> anEq[j] == if j < i then c.anEq[j] + 1 else c.anEq[j]
      {
        anEq := anEq[i := anEq[i] + 1];
        i := i + 1;
      }
      while i < nCol
        invariant iChng <= i <= nCol && |anEq| == |anLt| == |anDLt| == nCol
        invariant forall j :: 0 <= j < i ==>
          && anEq[j] == Advanced(c, iChng).anEq[j]
          && anLt[j] == Advanced(c, iChng).anLt[j]
          && anDLt[j] == Advanced(c, iChng).anDLt[j]
        invariant forall j :: i <= j < nCol ==> anEq[j] == c.anEq[j] && anLt[j] == c.anLt[j] && anDLt[j] == c.anDLt[j]
      {
        anDLt := anDLt[i := anDLt[i] + 1];
        anLt := anLt[i := anLt[i] + anEq[i]];
        anEq := anEq[i := 1];
        i := i + 1;
      }
      current := current.(anEq := anEq, anLt := anLt, anDLt := anDLt);
      assert anEq == Advanced(c, iChng).anEq && anLt == Advanced(c, iChng).anLt && anDLt == Advanced(c, iChng).anDLt;
    }

    method StepCurrent(iChng: nat)
      requires Valid() && iChng < nCol
      requires Stepped(Abs(), iChng).Ok?
      modifies this`current, this`nSample, this`iMin, this`nMaxEqZero, a, aBest
      ensures Valid() && Abs() == Stepped(old(Abs()), iChng).value
    {
      if nRow == 0 {
        var anEq := current.anEq;
        var i := 0;
        while i < nCol
          invariant 0 <= i <= nCol && |anEq| == nCol && forall j :: 0 <= j < i ==> anEq[j] == 1
        {
          anEq := anEq[i := 1];
          i := i + 1;
        }
        assert anEq == seq(nCol, _ => 1);
        current := current.(anEq := anEq);
      } else {
        SamplePushPrevious(iChng);
        AdvanceCounts(iChng);
      }
    }

    method PushPeriodicSample()
      requires Valid() && PushPeriodic(Abs()).Ok?
      modifies this`current, this`nSample, this`iMin, this`nMaxEqZero, a
      ensures Valid() && Abs() == PushPeriodic(old(Abs())).value
    {
      var nLt := current.anLt[nCol - 1];
      IsDivision(nLt, nPSample);
      IsDivision(nLt + 1, nPSample);
      if nLt / nPSample != (nLt + 1) / nPSample {
        var c := current.(isPSample := true, iCol := 0);
        SampleInsert(c, nCol - 1);
        current := c.(isPSample := false);
      }
    }

    // The last loop of stat_push(): the current row as a candidate for each column.
    method UpdateBest(iChng: nat)
      requires Valid() && iChng < nCol
      modifies this`current, aBest
      ensures Valid() && Abs() == Renewed(old(Abs()), iChng)
    {
      ghost var p := Abs();
      var i := 0;
      while i < nCol - 1
        invariant 0 <= i <= nCol - 1
        invariant current == if i == 0 then p.current else p.current.(iCol := i - 1)
        invariant forall k :: 0 <= k < nCol ==>
          aBest[k] == if k < i then BestAfter(p.aBest[k], p.current, k, iChng) else p.aBest[k]
        invariant a[..nSample] == p.a
      {
        current := current.(iCol := i);
        assert SampleShape(p.aBest[i], nCol);
        var take := i >= iChng;
        if !take {
          take := SampleIsBetterPost(current, aBest[i]);
        }
        if take {
          aBest[i] := current;
        }
        i := i + 1;
      }
      assert aBest[..] == Renewed(p, iChng).aBest;
      assert Shape(Abs());
    }

    method IdentifyCurrent(rowid: Rowid)
      requires Valid()
      modifies this`nRow, this`iPrn, this`current
      ensures Valid() && Abs() == Identified(old(Abs()), rowid)
    {
      nRow := nRow + 1;
      IsDivision(iPrn * 1103515245 + 12345, TWO32);
      iPrn := (iPrn * 1103515245 + 12345) % TWO32;
      current := current.(rowid := rowid, iHash := iPrn);
    }

    // stat_push()
    method StatPush(iChng: nat, rowid: Rowid)
      requires Valid() && iChng < nCol
      requires Push(Abs(), iChng, rowid).Ok?
      modifies this, a, aBest
      ensures Valid() && Abs() == Push(old(Abs()), iChng, rowid).value
    {
      StepCurrent(iChng);
      IdentifyCurrent(rowid);
      PushPeriodicSample();
      UpdateBest(iChng);
    }

    // stat_get(P, STAT_GET_STAT1): the row count, and for each key column the
    // rows per distinct value of the columns up to it, rounded up.
    method StatGetStat1(nKeyCol: nat) returns (zRet: string, ghost stat: seq<nat>)
      requires Valid() && nKeyCol <= nCol
      requires forall i {:trigger current.anEq[i]} :: 0 <= i < nKeyCol ==> current.anEq[i] > 0
      ensures Stat1Numbers(Abs(), nKeyCol, stat) && zRet == Joined(stat)
    {
      zRet, stat := Digits(nRow), [nRow];
      var i := 0;
      while i < nKeyCol
        invariant 0 <= i <= nKeyCol && Stat1Numbers(Abs(), i, stat) && zRet == Joined(stat)
      {
        var nDistinct := current.anDLt[i] + 1;
        var iVal := (nRow + nDistinct - 1) / nDistinct;
        zRet := zRet + " " + Digits(iVal);
        JoinedNext(stat, iVal);
        Stat1Next(Abs(), i, stat, iVal);
        stat := stat + [iVal];
        assert current.anEq[i] > 0;
        i := i + 1;
      }
    }
  }

  // The comparison of an entry with its predecessor that precedes each
  // stat_push(); the registers of regPrev hold the predecessor's columns.
  method LeftmostChange(regPrev: seq<int>, row: Entry) returns (regChng: nat)
    requires |regPrev| == |row.cols| > 0
    ensures regChng == Change(Entry(regPrev, row.rowid), row, 0)
  {
    ghost var prev := Entry(regPrev, row.rowid);
    regChng := 0;
    while regChng + 1 < |regPrev| && regPrev[regChng] == row.cols[regChng]
      invariant regChng < |regPrev|
      invariant Change(prev, row, 0) == Change(prev, row, regChng)
    {
      regChng := regChng + 1;
    }
  }

  // The start value of the tie-breaking hash: 32-bit products, combined by xor.
  function Seed(nCol: nat, count: nat): nat {
    var x: bv32 := ((0x689e962d * nCol) % TWO32) as bv32;
    var y: bv32 := ((0xd0944565 * count) % TWO32) as bv32;
    (x ^ y) as nat
  }

  // The sqlite_stat1 numbers of the index: its size, and the average number of
  // rows per distinct value of its first columns.
  ghost predicate ExactStat1(stat1: seq<nat>, rows: seq<Entry>, nCol: nat, nKeyCol: nat)
    requires Sorted(rows, nCol) && nKeyCol <= nCol
  {
    && |stat1| == nKeyCol + 1
    && stat1[0] == |rows|
    && forall i {:trigger stat1[i + 1]} :: 0 <= i < nKeyCol ==>
        stat1[i + 1] == RoundedUp(|rows|, |Prefixes(rows, nCol, i)|)
  }

  // The comparison in one turn of the scan loop.
  method CompareEntry(rows: seq<Entry>, nCol: nat, n: nat, regPrev: seq<int>) returns (regChng: nat, regPrev': seq<int>)
    requires Sorted(rows, nCol) && n < |rows|
    requires n > 0 ==> regPrev == rows[n - 1].cols
    ensures regChng == ChangeAt(rows, n, nCol) && regPrev' == rows[n].cols
  {
    regChng := 0;
    regPrev' := rows[n].cols;
    if n > 0 {
      regChng := LeftmostChange(regPrev, rows[n]);
      ChangeReadsColumns(Entry(regPrev, rows[n].rowid), rows[n - 1], rows[n], 0);
      regPrev' := regPrev[..regChng] + rows[n].cols[regChng..];
      KeptColumns(rows[n - 1], rows[n], nCol, regPrev');
    }
  }

  // One turn of the scan loop.
  method ScanEntry(p: Stat4Accum, rows: seq<Entry>, n: nat, regPrev: seq<int>, ghost p0: Accum)
    returns (regPrev': seq<int>)
    requires p.Valid() && Shape(p0) && SampleTheorem.Blank(p0) && Sorted(rows, p0.nCol)
    requires p.nCol == p0.nCol && n < |rows| < p0.mxSample * p0.nPSample
    requires n > 0 ==> regPrev == rows[n - 1].cols
    requires Scan(p0, rows, n) == Ok(p.Abs())
    modifies p, p.a, p.aBest
    ensures p.Valid() && Scan(p0, rows, n + 1) == Ok(p.Abs())
    ensures regPrev' == rows[n].cols
  {
    SampleTheorem.ScanTurn(p0, rows, n, p.Abs());
    SampleTheorem.ScanGoesOn(p0, rows, n + 1, Scan(p0, rows, n + 1));
    var regChng;
    regChng, regPrev' := CompareEntry(rows, p.nCol, n, regPrev);
    p.StatPush(regChng, rows[n].rowid);
  }

  method ScanIndex(rows: seq<Entry>, nCol: nat) returns (p: Stat4Accum)
    requires Sorted(rows, nCol) && rows != []
    ensures fresh(p) && fresh(p.a) && fresh(p.aBest) && p.Valid() && p.nCol == nCol
    ensures Scan(Init(nCol, |rows|, Seed(nCol, |rows|)), rows, |rows|) == Ok(p.Abs())
    ensures SampleTheorem.Scanned(p.Abs(), rows)
  {
    ghost var p0 := Init(nCol, |rows|, Seed(nCol, |rows|));
    SampleTheorem.InitOk(nCol, |rows|, Seed(nCol, |rows|), p0);
    p := new Stat4Accum(nCol, |rows|, Seed(nCol, |rows|));
    var regPrev := rows[0].cols;
    var n := 0;
    while n < |rows|
      invariant 0 <= n <= |rows| && p.Valid() && fresh(p) && fresh(p.a) && fresh(p.aBest) && p.nCol == nCol
      invariant Scan(p0, rows, n) == Ok(p.Abs())
      invariant n > 0 ==> regPrev == rows[n - 1].cols
    {
      regPrev := ScanEntry(p, rows, n, regPrev, p0);
      n := n + 1;
    }
    SampleTheorem.WholeScan(rows, p0, p.Abs());
  }

  lemma Stat1OfScan(rows: seq<Entry>, nKeyCol: nat, q: Accum, stat1: seq<nat>)
    requires Shape(q) && Sorted(rows, q.nCol) && SampleTheorem.Scanned(q, rows) && nKeyCol <= q.nCol
    requires Stat1Numbers(q, nKeyCol, stat1)
    ensures ExactStat1(stat1, rows, q.nCol, nKeyCol)
  {
    forall i | 0 <= i < nKeyCol
      ensures stat1[i + 1] == RoundedUp(|rows|, |Prefixes(rows, q.nCol, i)|)
    {
      SampleTheorem.LastRowCounts(q, rows, i);
    }
  }

  // ANALYZE of one index: the scan loop, the sqlite_stat1 numbers and the
  // final samplePushPrevious() made by stat_get().
  method AnalyzeIndex(rows: seq<Entry>, nCol: nat, nKeyCol: nat)
    returns (p: Stat4Accum, zStat1: string, ghost stat1: seq<nat>)
    requires Sorted(rows, nCol) && rows != [] && nKeyCol <= nCol
    ensures p.Valid()
    ensures Analyze(rows, nCol, |rows|, Seed(nCol, |rows|)) == Ok(p.Abs())
    ensures SampleTheorem.ExactSamples(p.Abs(), rows, nCol)
    ensures SampleCoverage.Unique(p.Abs().a, rows, nCol) && SampleCoverage.LargestKept(p.Abs().a, rows, nCol)
    ensures ExactStat1(stat1, rows, nCol, nKeyCol) && zStat1 == Joined(stat1)
  {
    ghost var seed := Seed(nCol, |rows|);
    p := ScanIndex(rows, nCol);
    SampleTheorem.CurrentPositive(p.Abs(), rows);
    zStat1, stat1 := p.StatGetStat1(nKeyCol);
    Stat1OfScan(rows, nKeyCol, p.Abs(), stat1);
    SampleTheorem.AnalyzeExact(rows, nCol, |rows|, seed);
    p.SamplePushPrevious(0);
    SampleCoverage.AnalyzeCovers(rows, nCol, |rows|, seed, p.Abs());
  }

  lemma {:induction false} ChangeReadsColumns(a: Entry, a': Entry, b: Entry, i: nat)
    requires i < |a.cols| == |b.cols| && a.cols == a'.cols
    ensures Change(a, b, i) == Change(a', b, i)
    decreases |a.cols| - i
  {
    if a.cols[i] == b.cols[i] && i + 1 < |a.cols| {
      ChangeReadsColumns(a, a', b, i + 1);
    }
  }

  // Copying the columns from the change on brings regPrev up to date.
  lemma KeptColumns(a: Entry, b: Entry, nCol: nat, regPrev: seq<int>)
    requires |a.cols| == |b.cols| == nCol > 0 && PrefixLess(a, b, nCol - 1)
    requires regPrev == a.cols[..Change(a, b, 0)] + b.cols[Change(a, b, 0)..]
    ensures regPrev == b.cols
  {
    SampleTheorem.ChangeIsFirst(a, b, nCol);
  }
}
