// The groups of rows that the samples of an index stand for: counted by adding
// up anEq[] of one sample per group, as the loops of initAvgEq() do.
module StatGroups {
  import opened IndexOrder

  // A sample as it is loaded from sqlite_stat4.
  datatype IndexSample = IndexSample(anEq: seq<nat>, anLt: seq<nat>, anDLt: seq<nat>)

  predicate Shaped(a: seq<IndexSample>, nCol: nat) {
    forall k {:trigger a[k]} :: 0 <= k < |a| ==> |a[k].anEq| == |a[k].anLt| == |a[k].anDLt| == nCol
  }

  // The sample is row x of the index, with exact counts.
  ghost predicate SampleIs(s: IndexSample, rows: seq<Entry>, x: nat, nCol: nat)
    requires Sorted(rows, nCol) && |s.anEq| == |s.anLt| == |s.anDLt| == nCol
  {
    && x < |rows|
    && forall j {:trigger s.anEq[j]} {:trigger s.anLt[j]} {:trigger s.anDLt[j]} :: 0 <= j < nCol ==>
         && s.anEq[j] == EqRows(rows, rows[x], j)
         && s.anLt[j] == LtRows(rows, rows[x], j)
         && s.anDLt[j] == DistinctLt(rows, rows[x], j)
  }

  // Sample k is row r[k], in index order.
  ghost predicate Samples(a: seq<IndexSample>, r: seq<nat>, rows: seq<Entry>, nCol: nat)
    requires Sorted(rows, nCol)
  {
    && |a| == |r| && Shaped(a, nCol)
    && (forall k {:trigger r[k]} :: 0 <= k < |r| ==> r[k] < |rows|)
    && (forall k, l {:trigger r[k], r[l]} :: 0 <= k < l < |r| ==> r[k] < r[l])
    && (forall k {:trigger SampleIs(a[k], rows, r[k], nCol)} :: 0 <= k < |a| ==> SampleIs(a[k], rows, r[k], nCol))
  }

  // ---- what the loops add up -------------------------------------------------------

  // Sample k is the last one with its value of anDLt[j].
  predicate Closes(a: seq<IndexSample>, nCol: nat, j: nat, k: nat)
    requires Shaped(a, nCol) && j < nCol && k < |a|
  {
    k == |a| - 1 || a[k].anDLt[j] != a[k + 1].anDLt[j]
  }

  function SumEq(a: seq<IndexSample>, nCol: nat, j: nat, n: nat): nat
    requires Shaped(a, nCol) && j < nCol && n <= |a|
  {
    if n == 0 then 0 else SumEq(a, nCol, j, n - 1) + if Closes(a, nCol, j, n - 1) then a[n - 1].anEq[j] else 0
  }

  function Groups(a: seq<IndexSample>, nCol: nat, j: nat, n: nat): nat
    requires Shaped(a, nCol) && j < nCol && n <= |a|
  {
    if n == 0 then 0 else Groups(a, nCol, j, n - 1) + if Closes(a, nCol, j, n - 1) then 1 else 0
  }

  // ---- sets of rows -------------------------------------------------------------------

  lemma {:induction false} SubsetSize<T>(a: set<T>, b: set<T>)
    requires a <= b
    ensures |a| <= |b|
  {
    if a != {} {
      var x :| x in a;
      SubsetSize(a - {x}, b - {x});
    }
  }

  ghost function EqualTo(rows: seq<Entry>, e: Entry, j: nat): set<nat>
    requires j < |e.cols| && Wide(rows, |e.cols|)
  {
    set x: nat | x < |rows| && Agree(rows[x], e, j)
  }

  ghost function Below(rows: seq<Entry>, e: Entry, j: nat): set<nat>
    requires j < |e.cols| && Wide(rows, |e.cols|)
  {
    set x: nat | x < |rows| && PrefixLess(rows[x], e, j)
  }

  lemma OneMoreRow(rows: seq<Entry>, e: Entry, j: nat, front: seq<Entry>, n: nat)
    requires j < |e.cols| && Wide(rows, |e.cols|) && |rows| == n + 1 && front == rows[..n]
    ensures Wide(front, |e.cols|)
    ensures EqualTo(rows, e, j) == EqualTo(front, e, j) + if Agree(rows[n], e, j) then {n} else {}
    ensures Below(rows, e, j) == Below(front, e, j) + if PrefixLess(rows[n], e, j) then {n} else {}
    ensures n !in EqualTo(front, e, j) && n !in Below(front, e, j)
  {
    assert forall x :: 0 <= x < n ==> front[x] == rows[x];
  }

  // Counting rows is taking the size of a set.
  lemma {:induction false} CountsAreSizes(rows: seq<Entry>, e: Entry, j: nat)
    requires j < |e.cols| && Wide(rows, |e.cols|)
    ensures EqRows(rows, e, j) == |EqualTo(rows, e, j)| && LtRows(rows, e, j) == |Below(rows, e, j)|
  {
    if rows != [] {
      var front := rows[..|rows| - 1];
      OneMoreRow(rows, e, j, front, |front|);
      CountsAreSizes(front, e, j);
    }
  }

  ghost function PrefixesOf(rows: seq<Entry>, nCol: nat, w: set<nat>, j: nat): set<seq<int>>
    requires Wide(rows, nCol) && j < nCol && forall x <- w :: x < |rows|
  {
    set x | x in w :: rows[x].cols[..j + 1]
  }

  // Rows have the same prefix exactly when they agree.
  lemma SamePrefix(a: Entry, b: Entry, j: nat)
    requires j < |a.cols| == |b.cols|
    ensures a.cols[..j + 1] == b.cols[..j + 1] <==> Agree(a, b, j)
  {
    if a.cols[..j + 1] == b.cols[..j + 1] {
      forall c | 0 <= c <= j ensures a.cols[c] == b.cols[c] {
        assert a.cols[..j + 1][c] == b.cols[..j + 1][c];
      }
    }
  }

  lemma {:induction false} PrefixesAtMost(rows: seq<Entry>, nCol: nat, w: set<nat>, j: nat)
    requires Wide(rows, nCol) && j < nCol && forall x <- w :: x < |rows|
    ensures |PrefixesOf(rows, nCol, w, j)| <= |w|
  {
    if w != {} {
      var x :| x in w;
      PrefixesAtMost(rows, nCol, w - {x}, j);
      var rest := PrefixesOf(rows, nCol, w - {x}, j);
      SubsetSize(PrefixesOf(rows, nCol, w, j), rest + {rows[x].cols[..j + 1]});
    }
  }

  // ---- groups of samples ----------------------------------------------------------------

  // Of two rows with different prefixes the later one has more prefixes below it.
  lemma DistinctGrows(rows: seq<Entry>, nCol: nat, x: nat, y: nat, j: nat)
    requires Sorted(rows, nCol) && x < y < |rows| && j < nCol && !Agree(rows[x], rows[y], j)
    ensures DistinctLt(rows, rows[x], j) < DistinctLt(rows, rows[y], j)
  {
    OrderedPrefix(rows[x], rows[y], j);
    var a, b, p := PrefixesBelow(rows, rows[x], j), PrefixesBelow(rows, rows[y], j), rows[x].cols[..j + 1];
    forall k | 0 <= k < |rows| && PrefixLess(rows[k], rows[x], j)
      ensures PrefixLess(rows[k], rows[y], j) && rows[k].cols[..j + 1] != p
    {
      BelowIsBefore(rows, nCol, k, x, j);
      OrderedPrefix(rows[k], rows[y], j);
      if Agree(rows[k], rows[y], j) {
        Contiguous(rows, nCol, k, x, y, j);
      }
      PrefixLessExcludes(rows[k], rows[x], j);
      SamePrefix(rows[k], rows[x], j);
    }
    assert a + {p} <= b && p !in a;
    SubsetSize(a + {p}, b);
  }

  lemma BelowIsBefore(rows: seq<Entry>, nCol: nat, k: nat, x: nat, j: nat)
    requires Sorted(rows, nCol) && k < |rows| && x < |rows| && j < nCol && PrefixLess(rows[k], rows[x], j)
    ensures k < x
  {
    PrefixLessExcludes(rows[k], rows[k], j);
    if x < k {
      OrderedPrefix(rows[x], rows[k], j);
    }
  }

  // Neighbouring samples are in the same group exactly when their anDLt[j] is the same.
  lemma ClosesIs(a: seq<IndexSample>, r: seq<nat>, rows: seq<Entry>, nCol: nat, j: nat, k: nat)
    requires Sorted(rows, nCol) && Samples(a, r, rows, nCol) && j < nCol && k + 1 < |a|
    ensures Closes(a, nCol, j, k) <==> !Agree(rows[r[k]], rows[r[k + 1]], j)
  {
    assert SampleIs(a[k], rows, r[k], nCol) && SampleIs(a[k + 1], rows, r[k + 1], nCol);
    if Agree(rows[r[k]], rows[r[k + 1]], j) {
      CountsOfAgreeing(rows, rows[r[k]], rows[r[k + 1]], j);
    } else {
      DistinctGrows(rows, nCol, r[k], r[k + 1], j);
    }
  }

  // The last sample of a group has no later sample in its group,
  lemma GroupsApart(a: seq<IndexSample>, r: seq<nat>, rows: seq<Entry>, nCol: nat, j: nat, k: nat, l: nat)
    requires Sorted(rows, nCol) && Samples(a, r, rows, nCol) && j < nCol && k < l < |a| && Closes(a, nCol, j, k)
    ensures !Agree(rows[r[k]], rows[r[l]], j)
  {
    ClosesIs(a, r, rows, nCol, j, k);
    if Agree(rows[r[k]], rows[r[l]], j) {
      Contiguous(rows, nCol, r[k], r[k + 1], r[l], j);
    }
  }

  // and each group has one.
  lemma {:induction false} LastOfGroup(a: seq<IndexSample>, r: seq<nat>, rows: seq<Entry>, nCol: nat, j: nat, k: nat)
    returns (l: nat)
    requires Sorted(rows, nCol) && Samples(a, r, rows, nCol) && j < nCol && k < |a|
    ensures k <= l < |a| && Closes(a, nCol, j, l) && Agree(rows[r[k]], rows[r[l]], j)
    decreases |a| - k
  {
    l := k;
    if !Closes(a, nCol, j, k) {
      ClosesIs(a, r, rows, nCol, j, k);
      l := LastOfGroup(a, r, rows, nCol, j, k + 1);
    }
  }

  // The rows of the groups whose last sample is among the first n.
  ghost predicate Covers(a: seq<IndexSample>, r: seq<nat>, rows: seq<Entry>, nCol: nat, j: nat, n: nat, x: nat)
    requires Sorted(rows, nCol) && Samples(a, r, rows, nCol) && j < nCol && n <= |a| && x < |rows|
  {
    exists k :: 0 <= k < n && Closes(a, nCol, j, k) && Agree(rows[x], rows[r[k]], j)
  }

  ghost function Covered(a: seq<IndexSample>, r: seq<nat>, rows: seq<Entry>, nCol: nat, j: nat, n: nat): set<nat>
    requires Sorted(rows, nCol) && Samples(a, r, rows, nCol) && j < nCol && n <= |a|
  {
    set x: nat | x < |rows| && Covers(a, r, rows, nCol, j, n, x)
  }

  lemma CoversNext(a: seq<IndexSample>, r: seq<nat>, rows: seq<Entry>, nCol: nat, j: nat, n: nat, x: nat)
    requires Sorted(rows, nCol) && Samples(a, r, rows, nCol) && j < nCol && n < |a| && x < |rows|
    ensures Covers(a, r, rows, nCol, j, n + 1, x) <==>
              Covers(a, r, rows, nCol, j, n, x) || (Closes(a, nCol, j, n) && Agree(rows[x], rows[r[n]], j))
    ensures Covers(a, r, rows, nCol, j, n, x) ==> !Agree(rows[x], rows[r[n]], j)
  {
    if Covers(a, r, rows, nCol, j, n, x) {
      var k :| 0 <= k < n && Closes(a, nCol, j, k) && Agree(rows[x], rows[r[k]], j);
      GroupsApart(a, r, rows, nCol, j, k, n);
      AgreeLess(rows[x], rows[r[k]], rows[r[n]], j);
    }
  }

  lemma CoveredNext(a: seq<IndexSample>, r: seq<nat>, rows: seq<Entry>, nCol: nat, j: nat, n: nat, c: set<nat>,
          c': set<nat>)
    requires Sorted(rows, nCol) && Samples(a, r, rows, nCol) && j < nCol && n < |a|
    requires c == Covered(a, r, rows, nCol, j, n) && c' == Covered(a, r, rows, nCol, j, n + 1)
    ensures c' == c + if Closes(a, nCol, j, n) then EqualTo(rows, rows[r[n]], j) else {}
    ensures forall x <- c :: !Agree(rows[x], rows[r[n]], j)
  {
    forall x: nat | x < |rows|
      ensures x in c' <==> x in c || (Closes(a, nCol, j, n) && x in EqualTo(rows, rows[r[n]], j))
      ensures x in c ==> !Agree(rows[x], rows[r[n]], j)
    {
      CoversNext(a, r, rows, nCol, j, n, x);
    }
  }

  // A group brings one prefix, and a new one.
  lemma PrefixNext(rows: seq<Entry>, nCol: nat, j: nat, c: set<nat>, e: Entry, c': set<nat>)
    requires Wide(rows, nCol) && j < nCol && |e.cols| == nCol && e in rows
    requires (forall x <- c :: x < |rows| && !Agree(rows[x], e, j)) && c' == c + EqualTo(rows, e, j)
    ensures |PrefixesOf(rows, nCol, c', j)| == |PrefixesOf(rows, nCol, c, j)| + 1
  {
    var own := e.cols[..j + 1];
    forall x: nat | x < |rows|
      ensures rows[x].cols[..j + 1] == own <==> Agree(rows[x], e, j)
    {
      SamePrefix(rows[x], e, j);
    }
    var i :| 0 <= i < |rows| && rows[i] == e;
    assert i in c';
    assert PrefixesOf(rows, nCol, c', j) == PrefixesOf(rows, nCol, c, j) + {own};
    assert own !in PrefixesOf(rows, nCol, c, j);
  }

  lemma GroupCounted(a: seq<IndexSample>, r: seq<nat>, rows: seq<Entry>, nCol: nat, j: nat, n: nat, c: set<nat>,
          c': set<nat>)
    requires Sorted(rows, nCol) && Samples(a, r, rows, nCol) && j < nCol && n < |a| && Closes(a, nCol, j, n)
    requires c == Covered(a, r, rows, nCol, j, n) && c' == Covered(a, r, rows, nCol, j, n + 1)
    ensures |c'| == |c| + a[n].anEq[j]
    ensures |PrefixesOf(rows, nCol, c', j)| == |PrefixesOf(rows, nCol, c, j)| + 1
  {
    CoveredNext(a, r, rows, nCol, j, n, c, c');
    assert SampleIs(a[n], rows, r[n], nCol);
    CountsAreSizes(rows, rows[r[n]], j);
    PrefixNext(rows, nCol, j, c, rows[r[n]], c');
  }

  // The sums over the first n samples.
  ghost predicate Counted(a: seq<IndexSample>, rows: seq<Entry>, nCol: nat, j: nat, n: nat, c: set<nat>)
    requires Shaped(a, nCol) && Wide(rows, nCol) && j < nCol && n <= |a| && forall x <- c :: x < |rows|
  {
    SumEq(a, nCol, j, n) == |c| && Groups(a, nCol, j, n) == |PrefixesOf(rows, nCol, c, j)|
  }

  lemma CountedNext(a: seq<IndexSample>, r: seq<nat>, rows: seq<Entry>, nCol: nat, j: nat, n: nat, c: set<nat>,
          c': set<nat>)
    requires Sorted(rows, nCol) && Samples(a, r, rows, nCol) && j < nCol && n < |a|
    requires c == Covered(a, r, rows, nCol, j, n) && c' == Covered(a, r, rows, nCol, j, n + 1)
    requires Counted(a, rows, nCol, j, n, c)
    ensures Counted(a, rows, nCol, j, n + 1, c')
  {
    if Closes(a, nCol, j, n) {
      GroupCounted(a, r, rows, nCol, j, n, c, c');
    } else {
      CoveredNext(a, r, rows, nCol, j, n, c, c');
      assert c' == c;
    }
  }

  // Adding up one sample per group counts rows and prefixes once each.
  lemma {:induction false} GroupsCounted(a: seq<IndexSample>, r: seq<nat>, rows: seq<Entry>, nCol: nat, j: nat, n: nat,
          c: set<nat>)
    requires Sorted(rows, nCol) && Samples(a, r, rows, nCol) && j < nCol && n <= |a| &&
             c == Covered(a, r, rows, nCol, j, n)
    ensures Counted(a, rows, nCol, j, n, c)
  {
    if n == 0 {
      assert c == {};
    } else {
      var c0 := Covered(a, r, rows, nCol, j, n - 1);
      GroupsCounted(a, r, rows, nCol, j, n - 1, c0);
      CountedNext(a, r, rows, nCol, j, n - 1, c0, c);
    }
  }

  // ---- rows without a sample --------------------------------------------------------------

  ghost predicate HasSample(r: seq<nat>, rows: seq<Entry>, nCol: nat, j: nat, x: nat)
    requires Wide(rows, nCol) && j < nCol && x < |rows| && forall k {:trigger r[k]} :: 0 <= k < |r| ==> r[k] < |rows|
  {
    exists k :: 0 <= k < |r| && Agree(rows[x], rows[r[k]], j)
  }

  // The rows of w that agree with no sample on columns 0..j.
  ghost function Unsampled(r: seq<nat>, rows: seq<Entry>, nCol: nat, j: nat, w: set<nat>): set<nat>
    requires Wide(rows, nCol) && j < nCol && forall k {:trigger r[k]} :: 0 <= k < |r| ==> r[k] < |rows|
    requires forall x <- w :: x < |rows|
  {
    set x | x in w && !HasSample(r, rows, nCol, j, x)
  }

  ghost function AllRows(n: nat): (w: set<nat>)
    ensures |w| == n && forall x: nat :: x in w <==> x < n
  {
    if n == 0 then {} else AllRows(n - 1) + {n - 1}
  }

  // All groups cover the rows that have a sample.
  lemma CoveredAll(a: seq<IndexSample>, r: seq<nat>, rows: seq<Entry>, nCol: nat, j: nat)
    requires Sorted(rows, nCol) && Samples(a, r, rows, nCol) && j < nCol
    ensures Covered(a, r, rows, nCol, j, |a|) == AllRows(|rows|) - Unsampled(r, rows, nCol, j, AllRows(|rows|))
  {
    forall x: nat | x < |rows|
      ensures HasSample(r, rows, nCol, j, x) <==> Covers(a, r, rows, nCol, j, |a|, x)
    {
      if HasSample(r, rows, nCol, j, x) {
        var k :| 0 <= k < |r| && Agree(rows[x], rows[r[k]], j);
        var l := LastOfGroup(a, r, rows, nCol, j, k);
        AgreeLess(rows[x], rows[r[k]], rows[r[l]], j);
      }
    }
  }

  // All groups but the last cover the rows below the last sample that have one.
  lemma CoveredBelow(a: seq<IndexSample>, r: seq<nat>, rows: seq<Entry>, nCol: nat, j: nat, w: set<nat>)
    requires Sorted(rows, nCol) && Samples(a, r, rows, nCol) && j < nCol && a != []
    requires w == Below(rows, rows[r[|a| - 1]], j)
    ensures Covered(a, r, rows, nCol, j, |a| - 1) == w - Unsampled(r, rows, nCol, j, w)
  {
    var n := |a| - 1;
    forall x: nat | x < |rows|
      ensures Covers(a, r, rows, nCol, j, n, x) <==>
                PrefixLess(rows[x], rows[r[n]], j) && HasSample(r, rows, nCol, j, x)
    {
      if Covers(a, r, rows, nCol, j, n, x) {
        var k :| 0 <= k < n && Closes(a, nCol, j, k) && Agree(rows[x], rows[r[k]], j);
        GroupsApart(a, r, rows, nCol, j, k, n);
        OrderedPrefix(rows[r[k]], rows[r[n]], j);
        AgreeLess(rows[x], rows[r[k]], rows[r[n]], j);
      } else if HasSample(r, rows, nCol, j, x) {
        var k :| 0 <= k < |r| && Agree(rows[x], rows[r[k]], j);
        var l := LastOfGroup(a, r, rows, nCol, j, k);
        AgreeLess(rows[x], rows[r[k]], rows[r[l]], j);
        assert l == n;
        PrefixLessExcludes(rows[x], rows[r[n]], j);
      }
    }
  }

  lemma SampleShared(r: seq<nat>, rows: seq<Entry>, nCol: nat, j: nat, x: nat, y: nat)
    requires Wide(rows, nCol) && j < nCol && x < |rows| && y < |rows| && forall k {:trigger r[k]} :: 0 <= k < |r| ==>
               r[k] < |rows|
    ensures Agree(rows[x], rows[y], j) && HasSample(r, rows, nCol, j, x) ==> HasSample(r, rows, nCol, j, y)
  {
    if Agree(rows[x], rows[y], j) && HasSample(r, rows, nCol, j, x) {
      var k :| 0 <= k < |r| && Agree(rows[x], rows[r[k]], j);
      AgreeLess(rows[x], rows[y], rows[r[k]], j);
    }
  }

  // Rows with and without a sample share no prefix.
  lemma PrefixesApart(r: seq<nat>, rows: seq<Entry>, nCol: nat, j: nat, w: set<nat>, u: set<nat>)
    requires Wide(rows, nCol) && j < nCol && forall k {:trigger r[k]} :: 0 <= k < |r| ==> r[k] < |rows|
    requires (forall x <- w :: x < |rows|) && u == Unsampled(r, rows, nCol, j, w)
    ensures |PrefixesOf(rows, nCol, w, j)| == |PrefixesOf(rows, nCol, w - u, j)| + |PrefixesOf(rows, nCol, u, j)|
  {
    forall x, y | x in w - u && y in u
      ensures rows[x].cols[..j + 1] != rows[y].cols[..j + 1]
    {
      SamePrefix(rows[x], rows[y], j);
      SampleShared(r, rows, nCol, j, x, y);
    }
    assert PrefixesOf(rows, nCol, w, j) == PrefixesOf(rows, nCol, w - u, j) + PrefixesOf(rows, nCol, u, j);
    assert PrefixesOf(rows, nCol, w - u, j) !! PrefixesOf(rows, nCol, u, j);
  }

  // What is left of a set of rows whose sampled part the first n samples cover.
  lemma Remainder(a: seq<IndexSample>, r: seq<nat>, rows: seq<Entry>, nCol: nat, j: nat, n: nat, w: set<nat>,
          u: set<nat>)
    requires Sorted(rows, nCol) && Samples(a, r, rows, nCol) && j < nCol && n <= |a|
    requires (forall x <- w :: x < |rows|) && u == Unsampled(r, rows, nCol, j, w)
    requires Covered(a, r, rows, nCol, j, n) == w - u
    ensures |w| == SumEq(a, nCol, j, n) + |u|
    ensures |PrefixesOf(rows, nCol, w, j)| == Groups(a, nCol, j, n) + |PrefixesOf(rows, nCol, u, j)|
    ensures |PrefixesOf(rows, nCol, u, j)| <= |u| && (u != {} ==> |PrefixesOf(rows, nCol, u, j)| > 0)
  {
    GroupsCounted(a, r, rows, nCol, j, n, w - u);
    PrefixesApart(r, rows, nCol, j, w, u);
    assert w == (w - u) + u;
    PrefixesAtMost(rows, nCol, u, j);
    if u != {} {
      var x :| x in u;
      assert rows[x].cols[..j + 1] in PrefixesOf(rows, nCol, u, j);
    }
  }
}
