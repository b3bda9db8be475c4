// initAvgEq(): the average number of rows for a key that no sample stands for.
// When the samples are those of ANALYZE, the sums count exactly the rows and
// the distinct prefixes without a sample.
module StatAverages {
  import opened Division
  import opened IndexOrder
  import opened StatGroups
  import opened Wrappers
  import SampleAccuracy
  import SampleSelection
  import SampleTheorem
  import SampleScan
  import Stat4
  import StatText

  // The last part of a turn of initAvgEq(): the average of the rows and values
  // that the sums have left.
  function Quotient(nRow: nat, nDist100: nat, sumEq: nat, nSum100: nat): (avgEq: nat)
    ensures avgEq > 0
  {
    var avg := if nDist100 > nSum100 && sumEq < nRow then 100 * (nRow - sumEq) / (nDist100 - nSum100) else 0;
    if avg == 0 then 1 else avg
  }

  // Nothing in sqlite_stat1 says how many distinct values column iCol has.
  predicate NoEstimate(aiRowEst: Option<seq<nat>>, nKeyCol: nat, iCol: nat) {
    aiRowEst.None? || iCol >= nKeyCol || iCol + 1 >= |aiRowEst.value| || aiRowEst.value[iCol + 1] == 0
  }

  function Average(a: seq<IndexSample>, nCol: nat, aiRowEst: Option<seq<nat>>, nKeyCol: nat, iCol: nat): nat
    requires a != [] && Shaped(a, nCol) && iCol < nCol
  {
    var n := |a| - 1;
    if NoEstimate(aiRowEst, nKeyCol, iCol) then
      Quotient(a[n].anLt[iCol], 100 * a[n].anDLt[iCol], SumEq(a, nCol, iCol, n), 100 * Groups(a, nCol, iCol, n))
    else
      var est := aiRowEst.value;
      Quotient(est[0], 100 * est[0] / est[iCol + 1], SumEq(a, nCol, iCol, |a|), 100 * Groups(a, nCol, iCol, |a|))
  }

  // The inner loop of initAvgEq().
  method SumSamples(aSample: seq<IndexSample>, nCol: nat, iCol: nat, nSample: nat) returns (sumEq: nat, nSum100: nat)
    requires Shaped(aSample, nCol) && iCol < nCol && nSample <= |aSample|
    ensures sumEq == SumEq(aSample, nCol, iCol, nSample) && nSum100 == 100 * Groups(aSample, nCol, iCol, nSample)
  {
    sumEq, nSum100 := 0, 0;
    var i := 0;
    while i < nSample
      invariant 0 <= i <= nSample
      invariant sumEq == SumEq(aSample, nCol, iCol, i) && nSum100 == 100 * Groups(aSample, nCol, iCol, i)
    {
      if i == |aSample| - 1 || aSample[i].anDLt[iCol] != aSample[i + 1].anDLt[iCol] {
        sumEq := sumEq + aSample[i].anEq[iCol];
        nSum100 := nSum100 + 100;
      }
      i := i + 1;
    }
  }

  // One turn of the outer loop.
  method AverageOf(aSample: seq<IndexSample>, nCol: nat, aiRowEst: Option<seq<nat>>, nKeyCol: nat, iCol: nat)
    returns (avgEq: nat)
    requires aSample != [] && Shaped(aSample, nCol) && iCol < nCol
    ensures avgEq == Average(aSample, nCol, aiRowEst, nKeyCol, iCol)
  {
    var nSample := |aSample|;
    var nRow, nDist100;
    if NoEstimate(aiRowEst, nKeyCol, iCol) {
      nRow := aSample[nSample - 1].anLt[iCol];
      nDist100 := 100 * aSample[nSample - 1].anDLt[iCol];
      nSample := nSample - 1;
    } else {
      nRow := aiRowEst.value[0];
      nDist100 := 100 * aiRowEst.value[0] / aiRowEst.value[iCol + 1];
    }
    var sumEq, nSum100 := SumSamples(aSample, nCol, iCol, nSample);
    avgEq := 0;
    if nDist100 > nSum100 && sumEq < nRow {
      avgEq := 100 * (nRow - sumEq) / (nDist100 - nSum100);
    }
    if avgEq == 0 {
      avgEq := 1;
    }
  }

  // initAvgEq() for an index with samples.
  method InitAvgEq(aSample: seq<IndexSample>, aiRowEst: Option<seq<nat>>, nKeyCol: nat, aAvgEq: array<nat>)
    requires aSample != [] && Shaped(aSample, aAvgEq.Length) && aAvgEq.Length > 0
    modifies aAvgEq
    ensures forall j {:trigger aAvgEq[j]} :: 0 <= j < aAvgEq.Length ==>
              aAvgEq[j] == if j > 0 && j == aAvgEq.Length - 1 then 1
                else Average(aSample, aAvgEq.Length, aiRowEst, nKeyCol, j)
  {
    var nCol := 1;
    if aAvgEq.Length > 1 {
      nCol := aAvgEq.Length - 1;
      aAvgEq[nCol] := 1;
    }
    var iCol := 0;
    while iCol < nCol
      invariant 0 <= iCol <= nCol && (aAvgEq.Length > 1 ==> nCol == aAvgEq.Length - 1 && aAvgEq[nCol] == 1)
      invariant forall j {:trigger aAvgEq[j]} :: 0 <= j < iCol ==>
                  aAvgEq[j] == Average(aSample, aAvgEq.Length, aiRowEst, nKeyCol, j)
    {
      aAvgEq[iCol] := AverageOf(aSample, aAvgEq.Length, aiRowEst, nKeyCol, iCol);
      iCol := iCol + 1;
    }
  }

  // ---- arithmetic ------------------------------------------------------------------

  lemma QuotientAtLeast(n: nat, d: nat, q: nat)
    requires d > 0 && q * d <= n
    ensures n / d >= q
  {
    Unique(q * d, d, q, 0);
    QuotMono(q * d, n, d);
    IsDivision(n, d);
  }

  lemma QuotientAtMost(n: nat, d: nat, q: nat)
    requires d > 0 && n < q * d + d
    ensures n / d <= q
  {
    Unique(q * d + (d - 1), d, q, d - 1);
    QuotMono(n, q * d + (d - 1), d);
    IsDivision(n, d);
  }

  lemma Hundredfold(q: nat, d: nat)
    ensures q * (100 * d) == 100 * (q * d) == (100 * q) * d
  {
  }

  lemma ScaledQuotient(u: nat, v: nat)
    requires v > 0
    ensures 100 * u / (100 * v) == u / v
  {
    var q := u / v;
    assert u == q * v + u % v;
    Hundredfold(q, v);
    Unique(100 * u, 100 * v, q, 100 * (u % v));
    IsDivision(100 * u, 100 * v);
  }

  // Dividing by less than 100 v gives at least u / v.
  lemma SmallerDivisor(u: nat, v: nat, c: nat)
    requires 0 < c <= 100 * v
    ensures 100 * u / c >= u / v
  {
    var q := u / v;
    assert u == q * v + u % v;
    Hundredfold(q, v);
    MulOrder(c, 100 * v, q);
    assert q * c == c * q && q * (100 * v) == (100 * v) * q;
    QuotientAtLeast(100 * u, c, q);
  }

  lemma AtLeastOne(u: nat, v: nat)
    requires 0 < v <= u
    ensures u / v >= 1
  {
    QuotientAtLeast(u, v, 1);
  }

  lemma RoundedUpCovers(n: nat, d: nat, e: nat)
    requires d > 0 && n > 0 && e == Stat4.RoundedUp(n, d)
    ensures e > 0 && n <= e * d && (n % d == 0 ==> n == e * d)
  {
    assert n + d - 1 == e * d + (n + d - 1) % d;
    if n % d == 0 {
      var q := n / d;
      assert n == q * d;
      Unique(n + d - 1, d, q, d - 1);
      IsDivision(n + d - 1, d);
    }
  }

  // The number of values estimated from a rounded-up average is never too large.
  lemma EstimateAtMost(n: nat, d: nat, e: nat)
    requires d > 0 && n > 0 && e == Stat4.RoundedUp(n, d)
    ensures e > 0 && 100 * n / e <= 100 * d
    ensures n % d == 0 ==> 100 * n / e == 100 * d
  {
    RoundedUpCovers(n, d, e);
    Hundredfold(e, d);
    Hundredfold(d, e);
    assert e * d == d * e;
    QuotientAtMost(100 * n, e, 100 * d);
    if n % d == 0 {
      QuotientAtLeast(100 * n, e, 100 * d);
    }
  }

  // ---- what the averages mean ---------------------------------------------------------

  // The rounded-down average of u rows over v values, 1 if there are none.
  function Mean(u: nat, v: nat): nat {
    if v == 0 then 1 else u / v
  }

  // The sums have left u rows and v values.
  lemma QuotientIsMean(nRow: nat, nDist: nat, sumEq: nat, nSum: nat, u: nat, v: nat)
    requires nRow == sumEq + u && nDist == nSum + v && v <= u && (u > 0 ==> v > 0)
    ensures Quotient(nRow, 100 * nDist, sumEq, 100 * nSum) == Mean(u, v)
  {
    if v > 0 {
      ScaledQuotient(u, v);
      AtLeastOne(u, v);
    }
  }

  // The same with a number of values that may have been estimated too small.
  lemma QuotientAtLeastMean(nRow: nat, nDist100: nat, nDist: nat, sumEq: nat, nSum: nat, u: nat, v: nat)
    requires nRow == sumEq + u && nDist == nSum + v && v <= u && (u > 0 ==> v > 0)
    requires nDist100 <= 100 * nDist
    ensures nDist100 > 100 * nSum ==> v > 0 && Quotient(nRow, nDist100, sumEq, 100 * nSum) >= Mean(u, v)
    ensures nDist100 <= 100 * nSum ==> Quotient(nRow, nDist100, sumEq, 100 * nSum) == 1
  {
    if nDist100 > 100 * nSum {
      SmallerDivisor(u, v, nDist100 - 100 * nSum);
      AtLeastOne(u, v);
    }
  }

  // Without an estimate: the average over the keys below the last sample that no
  // sample stands for.
  lemma AverageIsExact(a: seq<IndexSample>, r: seq<nat>, rows: seq<Entry>, nCol: nat, aiRowEst: Option<seq<nat>>,
          nKeyCol: nat,
                       j: nat, w: set<nat>, u: set<nat>)
    requires Sorted(rows, nCol) && Samples(a, r, rows, nCol) && j < nCol && a != [] && NoEstimate(aiRowEst, nKeyCol, j)
    requires w == Below(rows, rows[r[|a| - 1]], j) && u == Unsampled(r, rows, nCol, j, w)
    ensures Average(a, nCol, aiRowEst, nKeyCol, j) == Mean(|u|, |PrefixesOf(rows, nCol, u, j)|)
  {
    var n := |a| - 1;
    CoveredBelow(a, r, rows, nCol, j, w);
    Remainder(a, r, rows, nCol, j, n, w, u);
    LastCounts(a, r, rows, nCol, j, w);
    QuotientIsMean(|w|, |PrefixesOf(rows, nCol, w, j)|, SumEq(a, nCol, j, n), Groups(a, nCol, j, n), |u|,
      |PrefixesOf(rows, nCol, u, j)|);
  }

  lemma LastCounts(a: seq<IndexSample>, r: seq<nat>, rows: seq<Entry>, nCol: nat, j: nat, w: set<nat>)
    requires Sorted(rows, nCol) && Samples(a, r, rows, nCol) && j < nCol && a != [] &&
             w == Below(rows, rows[r[|a| - 1]], j)
    ensures a[|a| - 1].anLt[j] == |w| && a[|a| - 1].anDLt[j] == |PrefixesOf(rows, nCol, w, j)|
  {
    var n := |a| - 1;
    CountsAreSizes(rows, rows[r[n]], j);
    assert SampleIs(a[n], rows, r[n], nCol);
    assert PrefixesOf(rows, nCol, w, j) == PrefixesBelow(rows, rows[r[n]], j);
  }

  // A hundred times the number of values of columns 0..j, as estimated.
  function Estimated(est: seq<nat>, j: nat): nat
    requires j + 1 < |est|
  {
    if est[j + 1] == 0 then 0 else 100 * est[0] / est[j + 1]
  }

  lemma EstimateIs(rows: seq<Entry>, nCol: nat, est: seq<nat>, nKeyCol: nat, j: nat)
    requires Sorted(rows, nCol) && rows != [] && nKeyCol <= nCol && Stat4.ExactStat1(est, rows, nCol, nKeyCol) &&
             j < nKeyCol
    ensures est[0] == |rows| && est[j + 1] > 0 && |Prefixes(rows, nCol, j)| > 0
    ensures Estimated(est, j) <= 100 * |Prefixes(rows, nCol, j)|
    ensures |rows| % |Prefixes(rows, nCol, j)| == 0 ==> Estimated(est, j) == 100 * |Prefixes(rows, nCol, j)|
  {
    assert rows[0].cols[..j + 1] in Prefixes(rows, nCol, j);
    EstimateAtMost(|rows|, |Prefixes(rows, nCol, j)|, est[j + 1]);
  }

  lemma AllPrefixes(rows: seq<Entry>, nCol: nat, j: nat)
    requires Wide(rows, nCol) && j < nCol
    ensures PrefixesOf(rows, nCol, AllRows(|rows|), j) == Prefixes(rows, nCol, j)
  {
  }

  // What all groups together leave over.
  lemma LeftOver(a: seq<IndexSample>, r: seq<nat>, rows: seq<Entry>, nCol: nat, j: nat, u: set<nat>, v: nat)
    requires Sorted(rows, nCol) && Samples(a, r, rows, nCol) && j < nCol
    requires u == Unsampled(r, rows, nCol, j, AllRows(|rows|)) && v == |PrefixesOf(rows, nCol, u, j)|
    ensures |rows| == SumEq(a, nCol, j, |a|) + |u|
    ensures |Prefixes(rows, nCol, j)| == Groups(a, nCol, j, |a|) + v
    ensures v <= |u| && (|u| > 0 ==> v > 0)
  {
    CoveredAll(a, r, rows, nCol, j);
    Remainder(a, r, rows, nCol, j, |a|, AllRows(|rows|), u);
    AllPrefixes(rows, nCol, j);
  }

  lemma AverageFromEstimate(a: seq<IndexSample>, nCol: nat, est: seq<nat>, nKeyCol: nat, j: nat)
    requires a != [] && Shaped(a, nCol) && j < nKeyCol <= nCol && |est| == nKeyCol + 1 && est[j + 1] > 0
    ensures Average(a, nCol, Some(est), nKeyCol, j)
         == Quotient(est[0], Estimated(est, j), SumEq(a, nCol, j, |a|), 100 * Groups(a, nCol, j, |a|))
  {
  }

  // With the estimates of the same ANALYZE: below the average over all keys that no
  // sample stands for exactly if the estimated number of values leaves no such key
  // and there are some, with more than one row on average; and exact when the
  // average that was rounded up was a whole number.
  lemma AverageIsUpperBoundIff(a: seq<IndexSample>, r: seq<nat>, rows: seq<Entry>, nCol: nat, est: seq<nat>,
          nKeyCol: nat,
                            j: nat, u: set<nat>, v: nat)
    requires Sorted(rows, nCol) && Samples(a, r, rows, nCol) && j < nCol && a != [] && nKeyCol <= nCol
    requires Stat4.ExactStat1(est, rows, nCol, nKeyCol) && j < nKeyCol
    requires u == Unsampled(r, rows, nCol, j, AllRows(|rows|)) && v == |PrefixesOf(rows, nCol, u, j)|
    ensures (Average(a, nCol, Some(est), nKeyCol, j) >= Mean(|u|, v)) <==>
            (Estimated(est, j) > 100 * Groups(a, nCol, j, |a|) || Mean(|u|, v) <= 1)
    ensures Estimated(est, j) > 100 * Groups(a, nCol, j, |a|) ==> v > 0
    ensures Estimated(est, j) <= 100 * Groups(a, nCol, j, |a|) ==> Average(a, nCol, Some(est), nKeyCol, j) == 1
    ensures Prefixes(rows, nCol, j) != {} && |rows| % |Prefixes(rows, nCol, j)| == 0 ==>
              Average(a, nCol, Some(est), nKeyCol, j) == Mean(|u|, v)
  {
    assert r[0] < |rows|;
    LeftOver(a, r, rows, nCol, j, u, v);
    EstimateIs(rows, nCol, est, nKeyCol, j);
    AverageFromEstimate(a, nCol, est, nKeyCol, j);
    var d, e, s := |Prefixes(rows, nCol, j)|, SumEq(a, nCol, j, |a|), Groups(a, nCol, j, |a|);
    QuotientAtLeastMean(|rows|, Estimated(est, j), d, e, s, |u|, v);
    QuotientIsMean(|rows|, d, e, s, |u|, v);
  }

  // ---- from ANALYZE to the averages ------------------------------------------------------

  function Loaded(s: SampleSelection.Sample, nCol: nat): IndexSample {
    IndexSample(StatText.Decode(StatText.Joined(s.anEq), nCol).0,
                StatText.Decode(StatText.Joined(s.anLt), nCol).0,
                StatText.Decode(StatText.Joined(s.anDLt), nCol).0)
  }

  // The samples written to sqlite_stat4 and read back from there.
  function LoadedAll(a: seq<SampleSelection.Sample>, nCol: nat): seq<IndexSample> {
    seq(|a|, k requires 0 <= k < |a| => Loaded(a[k], nCol))
  }

  // Their places in the index.
  ghost function Places(a: seq<SampleSelection.Sample>, nCol: nat): seq<nat>
    requires SampleSelection.AllShaped(a, nCol) && nCol > 0
  {
    seq(|a|, k requires 0 <= k < |a| => SampleAccuracy.RowOf(a[k]))
  }

  lemma CountsFit(rows: seq<Entry>, e: Entry, j: nat)
    requires j < |e.cols| && Wide(rows, |e.cols|)
    ensures EqRows(rows, e, j) <= |rows| && LtRows(rows, e, j) <= |rows| && DistinctLt(rows, e, j) <= |rows|
  {
    CountsAreSizes(rows, e, j);
    SubsetSize(EqualTo(rows, e, j), AllRows(|rows|));
    SubsetSize(Below(rows, e, j), AllRows(|rows|));
    PrefixesAtMost(rows, |e.cols|, Below(rows, e, j), j);
    assert PrefixesOf(rows, |e.cols|, Below(rows, e, j), j) == PrefixesBelow(rows, e, j);
  }

  lemma LoadedIs(s: SampleSelection.Sample, rows: seq<Entry>, nCol: nat)
    requires Sorted(rows, nCol) && SampleTheorem.ExactSample(s, rows, nCol) && |rows| < TWO32
    ensures Loaded(s, nCol) == IndexSample(s.anEq, s.anLt, s.anDLt)
    ensures SampleIs(Loaded(s, nCol), rows, SampleAccuracy.RowOf(s), nCol)
  {
    forall j | 0 <= j < nCol
      ensures s.anEq[j] < TWO32 && s.anLt[j] < TWO32 && s.anDLt[j] < TWO32
    {
      CountsFit(rows, rows[SampleAccuracy.RowOf(s)], j);
    }
    StatText.FaithfulIff(s.anEq);
    StatText.FaithfulIff(s.anLt);
    StatText.FaithfulIff(s.anDLt);
  }

  lemma LoadedSamples(p: SampleSelection.Accum, rows: seq<Entry>, nCol: nat)
    requires Sorted(rows, nCol) && SampleTheorem.ExactSamples(p, rows, nCol) && |rows| < TWO32
    ensures Samples(LoadedAll(p.a, nCol), Places(p.a, nCol), rows, nCol)
  {
    var a, r := LoadedAll(p.a, nCol), Places(p.a, nCol);
    forall k | 0 <= k < |a|
      ensures |a[k].anEq| == |a[k].anLt| == |a[k].anDLt| == nCol && r[k] < |rows| && SampleIs(a[k], rows, r[k], nCol)
    {
      assert SampleTheorem.ExactSample(p.a[k], rows, nCol);
      LoadedIs(p.a[k], rows, nCol);
    }
  }

  lemma Stat1Loaded(rows: seq<Entry>, nCol: nat, nKeyCol: nat, stat1: seq<nat>)
    requires Sorted(rows, nCol) && 0 < |rows| < TWO32 && nKeyCol <= nCol && Stat4.ExactStat1(stat1, rows, nCol, nKeyCol)
    ensures StatText.Decode(StatText.Joined(stat1), nKeyCol + 1) == (stat1, "")
  {
    forall i | 0 <= i < |stat1|
      ensures stat1[i] < TWO32
    {
      if i > 0 {
        var k := i - 1;
        assert stat1[k + 1] == Stat4.RoundedUp(|rows|, |Prefixes(rows, nCol, k)|);
        RoundedUpAtMost(|rows|, |Prefixes(rows, nCol, k)|);
      }
    }
    StatText.FaithfulIff(stat1);
  }

  lemma RoundedUpAtMost(n: nat, d: nat)
    requires n > 0
    ensures Stat4.RoundedUp(n, d) <= n
  {
    if d > 0 {
      MulOrder(1, d, n);
      QuotientAtMost(n + d - 1, d, n);
    }
  }

  lemma FirstPeriod(nCol: nat, count: nat, seed: nat)
    requires nCol > 0 && count > 0
    ensures SampleScan.Init(nCol, count, seed).nPSample <= count
  {
  }

  lemma SamplePeriod(rows: seq<Entry>, nCol: nat, seed: nat, p: SampleSelection.Accum)
    requires Sorted(rows, nCol) && rows != [] && SampleScan.Analyze(rows, nCol, |rows|, seed) == SampleSelection.Ok(p)
    ensures p.nPSample <= |rows|
  {
    FirstPeriod(nCol, |rows|, seed);
  }

  // At least one periodic sample is always kept.
  lemma SomeSample(p: SampleSelection.Accum, rows: seq<Entry>, nCol: nat)
    requires Sorted(rows, nCol) && SampleTheorem.ExactSamples(p, rows, nCol) && p.nPSample <= |rows|
    ensures p.a != []
  {
    assert SampleAccuracy.HasRow(p.a, nCol, p.nPSample - 1);
  }

  // What ANALYZE has written about an index is loaded unchanged: the samples that
  // initAvgEq() works on are rows of the index with exact counts, and there is at
  // least one; the estimates are those of the whole index.
  lemma AnalyzeThenLoad(rows: seq<Entry>, nCol: nat, nKeyCol: nat, seed: nat, p: SampleSelection.Accum, stat1: seq<nat>)
    requires Sorted(rows, nCol) && 0 < |rows| < TWO32 && nKeyCol <= nCol
    requires SampleScan.Analyze(rows, nCol, |rows|, seed) == SampleSelection.Ok(p) &&
             Stat4.ExactStat1(stat1, rows, nCol, nKeyCol)
    ensures SampleTheorem.ExactSamples(p, rows, nCol) && p.a != []
    ensures Samples(LoadedAll(p.a, nCol), Places(p.a, nCol), rows, nCol)
    ensures Stat4.ExactStat1(StatText.Decode(StatText.Joined(stat1), nKeyCol + 1).0, rows, nCol, nKeyCol)
  {
    SampleTheorem.AnalyzeExact(rows, nCol, |rows|, seed);
    SamplePeriod(rows, nCol, seed, p);
    SomeSample(p, rows, nCol);
    LoadedSamples(p, rows, nCol);
    Stat1Loaded(rows, nCol, nKeyCol, stat1);
  }
}
