// An index on which the averages of initAvgEq() are too small: 24 keys with two
// rows each and one with three.  Each of the 24 samples of ANALYZE stands for
// another key, and the estimate of 17 distinct keys in sqlite_stat1 leaves none
// for the key that has no sample.
module StatWitness {
  import opened IndexOrder
  import opened StatAverages
  import opened StatGroups
  import opened Wrappers
  import SampleAccuracy
  import SampleCoverage
  import SampleScan
  import SampleSelection
  import SampleTheorem
  import Stat4

  function Key(x: nat): nat {
    if x < 48 then x / 2 else 24
  }

  function Pairs(): seq<Entry> {
    seq(51, x requires 0 <= x < 51 => Entry([Key(x), x], IntKey(x)))
  }

  ghost predicate ArePairs(rows: seq<Entry>) {
    |rows| == 51 && forall x: nat {:trigger rows[x]} :: x < 51 ==> rows[x].cols == [Key(x), x]
  }

  lemma PairsArePairs()
    ensures ArePairs(Pairs())
  {
  }

  lemma PairsSorted(rows: seq<Entry>)
    requires ArePairs(rows)
    ensures Sorted(rows, 2)
  {
    forall x: nat, y: nat | x < y < |rows|
      ensures PrefixLess(rows[x], rows[y], 1)
    {
      assert Key(x) <= Key(y);
      assert FirstBelow(rows[x], rows[y], if Key(x) < Key(y) then 0 else 1);
    }
  }

  lemma AgreeIsKey(rows: seq<Entry>, x: nat, y: nat)
    requires ArePairs(rows) && x < 51 && y < 51
    ensures Agree(rows[x], rows[y], 0) <==> Key(x) == Key(y)
  {
    assert rows[x].cols[0] == Key(x) && rows[y].cols[0] == Key(y);
  }

  // The keys below n.
  ghost function Keys(n: nat): (s: set<seq<int>>)
    ensures |s| == n && forall p {:trigger p in s} :: p in s <==> |p| == 1 && 0 <= p[0] < n
  {
    if n == 0 then {}
    else
      assert forall p: seq<int> {:trigger |p|} :: |p| == 1 && p[0] == n - 1 ==> p == [n - 1];
      Keys(n - 1) + {[n - 1]}
  }

  lemma CountKeys(rows: seq<Entry>)
    requires ArePairs(rows) && Sorted(rows, 2)
    ensures |Prefixes(rows, 2, 0)| == 25
  {
    hide Keys;
    var keys := Keys(25);
    forall p | p in Prefixes(rows, 2, 0)
      ensures p in keys
    {
      var x :| 0 <= x < |rows| && p == rows[x].cols[..1];
      assert |p| == 1 && p[0] == Key(x);
    }
    forall p | p in keys
      ensures p in Prefixes(rows, 2, 0)
    {
      var x := 2 * p[0];
      assert rows[x].cols == [Key(x), x];
      assert rows[x].cols[..1] == p;
    }
    assert Prefixes(rows, 2, 0) == keys;
  }

  // ---- the samples ------------------------------------------------------------------

  // Every sixth row is periodic, and no key has as many as four rows.
  lemma SamplesApart(rows: seq<Entry>, a: seq<SampleSelection.Sample>, k: nat, l: nat)
    requires ArePairs(rows) && Sorted(rows, 2) && SampleSelection.AllShaped(a, 2) && k < l < |a|
    requires SampleAccuracy.AllKeptOk(a, rows, 2, 6, -1) && SampleAccuracy.Ascending(a, 2)
    requires SampleCoverage.Unique(a, rows, 2) && SampleCoverage.EachStands(a, 2)
    ensures SampleAccuracy.RowOf(a[k]) < 51 && SampleAccuracy.RowOf(a[l]) < 51
    ensures !Agree(rows[SampleAccuracy.RowOf(a[k])], rows[SampleAccuracy.RowOf(a[l])], 0)
  {
    var x, y := SampleAccuracy.RowOf(a[k]), SampleAccuracy.RowOf(a[l]);
    assert SampleAccuracy.KeptOk(a[k], rows, 2, 6, -1) && SampleAccuracy.KeptOk(a[l], rows, 2, 6, -1);
    assert SampleCoverage.NoClash(a[k], a[l], rows, 2);
    assert !SampleCoverage.Clash(a[k], a[l], rows, 2, 0);
    AgreeIsKey(rows, x, y);
    if a[k].isPSample && a[l].isPSample {
      SampleAccuracy.MultiplesApart(x + 1, y + 1, 6);
      assert Key(x) < Key(y);
    }
  }

  lemma {:induction false} AllGroups(a: seq<IndexSample>, r: seq<nat>, rows: seq<Entry>, n: nat)
    requires Sorted(rows, 2) && Samples(a, r, rows, 2) && n <= |a|
    requires forall k, l {:trigger r[k], r[l]} :: 0 <= k < l < |r| ==> !Agree(rows[r[k]], rows[r[l]], 0)
    ensures Groups(a, 2, 0, n) == n
  {
    if n > 0 {
      AllGroups(a, r, rows, n - 1);
      if n < |a| {
        ClosesIs(a, r, rows, 2, 0, n - 1);
      }
    }
  }

  // With fewer than 24 samples each key would have one.
  lemma NoneUnsampled(rows: seq<Entry>, a: seq<SampleSelection.Sample>, r: seq<nat>, u: set<nat>)
    requires ArePairs(rows) && Sorted(rows, 2) && SampleSelection.AllShaped(a, 2) && r == Places(a, 2)
    requires forall k {:trigger r[k]} :: 0 <= k < |r| ==> r[k] < |rows|
    requires SampleCoverage.AllStand(a, rows, 2) && u == Unsampled(r, rows, 2, 0, AllRows(51))
    ensures u == {}
  {
    hide AllRows;
    forall x: nat | x < 51
      ensures HasSample(r, rows, 2, 0, x)
    {
      assert SampleCoverage.HasStand(a, rows, 2, x, 0);
      var k :| 0 <= k < |a| && SampleCoverage.StandsFor(a[k], rows, 2, x, 0);
      assert r[k] == SampleAccuracy.RowOf(a[k]);
      AgreeIsKey(rows, x, r[k]);
      AgreeIsKey(rows, r[k], x);
    }
  }

  // Another row with the same key.
  function Mate(x: nat): (y: nat)
    requires x < 51
    ensures y < 51 && y != x && Key(y) == Key(x)
  {
    if x % 2 == 0 && x < 50 then x + 1 else if x < 50 then x - 1 else 48
  }

  lemma TwoUnsampled(rows: seq<Entry>, r: seq<nat>, u: set<nat>)
    requires ArePairs(rows) && Sorted(rows, 2) && forall k {:trigger r[k]} :: 0 <= k < |r| ==> r[k] < |rows|
    requires u == Unsampled(r, rows, 2, 0, AllRows(51)) && u != {}
    ensures |u| >= 2
  {
    hide AllRows;
    var x :| x in u;
    AgreeIsKey(rows, Mate(x), x);
    SampleShared(r, rows, 2, 0, Mate(x), x);
    SubsetSize({x, Mate(x)}, u);
  }

  // ---- the averages -------------------------------------------------------------------

  lemma PlacesInside(rows: seq<Entry>, a: seq<SampleSelection.Sample>, r: seq<nat>)
    requires Sorted(rows, 2) && SampleSelection.AllShaped(a, 2) && r == Places(a, 2)
    requires SampleAccuracy.AllKeptOk(a, rows, 2, 6, -1)
    ensures forall k {:trigger r[k]} :: 0 <= k < |r| ==> r[k] < |rows|
  {
    forall k | 0 <= k < |r|
      ensures r[k] < |rows|
    {
      assert SampleAccuracy.KeptOk(a[k], rows, 2, 6, -1);
    }
  }

  lemma PlacesApart(rows: seq<Entry>, p: SampleSelection.Accum, seed: nat, r: seq<nat>)
    requires ArePairs(rows) && Sorted(rows, 2) && SampleScan.Analyze(rows, 2, 51, seed) == SampleSelection.Ok(p)
    requires SampleTheorem.ExactSamples(p, rows, 2) && r == Places(p.a, 2)
    ensures forall k {:trigger r[k]} :: 0 <= k < |r| ==> r[k] < |rows|
    ensures forall k, l {:trigger r[k], r[l]} :: 0 <= k < l < |r| ==> !Agree(rows[r[k]], rows[r[l]], 0)
    ensures |p.a| < 24 ==> SampleCoverage.AllStand(p.a, rows, 2)
  {
    hide SampleScan.Analyze, SampleTheorem.ExactSample, SampleAccuracy.KeptOk, SampleCoverage.Unique,
      SampleCoverage.EachStands, SampleCoverage.AllStand;
    SampleCoverage.AnalyzeCovers(rows, 2, 51, seed, p);
    PlacesInside(rows, p.a, r);
    forall k, l | 0 <= k < l < |r|
      ensures !Agree(rows[r[k]], rows[r[l]], 0)
    {
      SamplesApart(rows, p.a, k, l);
    }
  }

  lemma TwentyFour(rows: seq<Entry>, p: SampleSelection.Accum, seed: nat, a: seq<IndexSample>, r: seq<nat>, u: set<nat>)
    requires ArePairs(rows) && Sorted(rows, 2) && SampleScan.Analyze(rows, 2, 51, seed) == SampleSelection.Ok(p)
    requires SampleTheorem.ExactSamples(p, rows, 2) && r == Places(p.a, 2) && |a| == |p.a| && Samples(a, r, rows, 2)
    requires u == Unsampled(r, rows, 2, 0, AllRows(51))
    ensures Groups(a, 2, 0, |a|) == 24 && |u| >= 2 && |PrefixesOf(rows, 2, u, 0)| == 1
  {
    hide SampleScan.Analyze, SampleTheorem.ExactSample, SampleIs, Groups, SampleCoverage.AllStand, AllRows;
    PlacesApart(rows, p, seed, r);
    AllGroups(a, r, rows, |a|);
    CountKeys(rows);
    LeftOver(a, r, rows, 2, 0, u, |PrefixesOf(rows, 2, u, 0)|);
    if |p.a| < 24 {
      NoneUnsampled(rows, p.a, r, u);
    }
    TwoUnsampled(rows, r, u);
  }

  // What ANALYZE writes about this index makes the average for a key without a
  // sample 1, although the one key without a sample has at least two rows.
  lemma AverageTooSmall(rows: seq<Entry>, seed: nat) returns (p: SampleSelection.Accum, u: set<nat>)
    requires ArePairs(rows)
    ensures Sorted(rows, 2) && SampleScan.Analyze(rows, 2, 51, seed) == SampleSelection.Ok(p)
    ensures Stat4.ExactStat1([51, 3], rows, 2, 1)
    ensures SampleTheorem.ExactSamples(p, rows, 2) && p.a != [] && Samples(LoadedAll(p.a, 2), Places(p.a, 2), rows, 2)
    ensures u == Unsampled(Places(p.a, 2), rows, 2, 0, AllRows(51)) && |PrefixesOf(rows, 2, u, 0)| == 1
    ensures Average(LoadedAll(p.a, 2), 2, Some([51, 3]), 1, 0) == 1 < Mean(|u|, 1)
  {
    hide SampleScan.Analyze, SampleTheorem.ExactSample, SampleIs, Groups, AllRows, Average;
    PairsSorted(rows);
    SampleTheorem.AnalyzeExact(rows, 2, 51, seed);
    p := SampleScan.Analyze(rows, 2, 51, seed).value;
    CountKeys(rows);
    assert Stat4.RoundedUp(51, 25) == 3;
    AnalyzeThenLoad(rows, 2, 1, seed, p, [51, 3]);
    u := Unsampled(Places(p.a, 2), rows, 2, 0, AllRows(51));
    TwentyFour(rows, p, seed, LoadedAll(p.a, 2), Places(p.a, 2), u);
    AverageIsUpperBoundIff(LoadedAll(p.a, 2), Places(p.a, 2), rows, 2, [51, 3], 1, 0, u, 1);
  }
}
