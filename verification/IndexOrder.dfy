// The rows of a sorted index, and what its statistics mean: for a row and a
// column j, how many rows agree with it on columns 0..j, how many rows and how
// many distinct prefixes sort before it.
module IndexOrder {

  // The key that leads from an index entry back to its table row.
  datatype Rowid = IntKey(key: int) | BlobKey(record: seq<int>)

  // One index entry.  Column values are ranks in the collation of the column.
  datatype Entry = Entry(cols: seq<int>, rowid: Rowid)

  // Both rows hold the same values in columns 0..j.
  ghost predicate Agree(a: Entry, b: Entry, j: nat)
    requires j < |a.cols| && j < |b.cols|
  {
    forall c :: 0 <= c <= j ==> a.cols[c] == b.cols[c]
  }

  // Column d is the first to differ, and a holds the smaller value there.
  ghost predicate FirstBelow(a: Entry, b: Entry, d: nat)
    requires d < |a.cols| && d < |b.cols|
  {
    a.cols[d] < b.cols[d] && forall c :: 0 <= c < d ==> a.cols[c] == b.cols[c]
  }

  // The first j+1 columns of a sort before those of b.
  ghost predicate PrefixLess(a: Entry, b: Entry, j: nat)
    requires j < |a.cols| && j < |b.cols|
  {
    exists d :: 0 <= d <= j && FirstBelow(a, b, d)
  }

  ghost predicate Wide(rows: seq<Entry>, nCol: nat)
  {
    forall k :: 0 <= k < |rows| ==> |rows[k].cols| == nCol
  }

  // An index on nCol columns, scanned in order: no two entries are equal.
  ghost predicate Sorted(rows: seq<Entry>, nCol: nat)
  {
    && nCol > 0
    && Wide(rows, nCol)
    && forall x, y :: 0 <= x < y < |rows| ==> PrefixLess(rows[x], rows[y], nCol - 1)
  }

  // Number of rows that agree with e on columns 0..j.
  ghost function EqRows(rows: seq<Entry>, e: Entry, j: nat): nat
    requires j < |e.cols| && Wide(rows, |e.cols|)
  {
    if rows == [] then 0
    else EqRows(rows[..|rows| - 1], e, j) + if Agree(rows[|rows| - 1], e, j) then 1 else 0
  }

  // Number of rows whose columns 0..j sort before those of e.
  ghost function LtRows(rows: seq<Entry>, e: Entry, j: nat): nat
    requires j < |e.cols| && Wide(rows, |e.cols|)
  {
    if rows == [] then 0
    else LtRows(rows[..|rows| - 1], e, j) + if PrefixLess(rows[|rows| - 1], e, j) then 1 else 0
  }

  // The distinct values of columns 0..j that sort before those of e.
  ghost function PrefixesBelow(rows: seq<Entry>, e: Entry, j: nat): set<seq<int>>
    requires j < |e.cols| && Wide(rows, |e.cols|)
  {
    set k | 0 <= k < |rows| && PrefixLess(rows[k], e, j) :: rows[k].cols[..j + 1]
  }

  ghost function DistinctLt(rows: seq<Entry>, e: Entry, j: nat): nat
    requires j < |e.cols| && Wide(rows, |e.cols|)
  {
    |PrefixesBelow(rows, e, j)|
  }

  // What the scan of an index computes for each entry: the left-most column
  // in which it differs from its predecessor.
  ghost predicate IsChange(a: Entry, b: Entry, d: nat)
    requires |a.cols| == |b.cols|
  {
    d < |a.cols| && a.cols[d] != b.cols[d] && forall c :: 0 <= c < d ==> a.cols[c] == b.cols[c]
  }

  lemma PrefixLessExcludes(a: Entry, b: Entry, j: nat)
    requires j < |a.cols| && j < |b.cols|
    ensures !(PrefixLess(a, b, j) && Agree(a, b, j))
    ensures !(PrefixLess(a, b, j) && PrefixLess(b, a, j))
  {
    if PrefixLess(a, b, j) {
      var d :| 0 <= d <= j && FirstBelow(a, b, d);
      assert a.cols[d] != b.cols[d];
    }
  }

  // In an ordered pair the prefixes are ordered or equal.
  lemma OrderedPrefix(a: Entry, b: Entry, j: nat)
    requires j < |a.cols| == |b.cols|
    requires PrefixLess(a, b, |a.cols| - 1)
    ensures PrefixLess(a, b, j) || Agree(a, b, j)
    ensures !PrefixLess(b, a, j)
  {
    var d :| 0 <= d < |a.cols| && FirstBelow(a, b, d);
    if d <= j {
      assert PrefixLess(a, b, j);
      PrefixLessExcludes(a, b, j);
    } else {
      assert Agree(a, b, j);
      if PrefixLess(b, a, j) {
        PrefixLessExcludes(b, a, j);
        assert Agree(b, a, j);
      }
    }
  }

  lemma AgreeLess(a: Entry, b: Entry, e: Entry, j: nat)
    requires j < |a.cols| == |b.cols| == |e.cols|
    requires Agree(a, b, j)
    ensures PrefixLess(e, a, j) <==> PrefixLess(e, b, j)
    ensures PrefixLess(a, e, j) <==> PrefixLess(b, e, j)
    ensures Agree(a, e, j) <==> Agree(b, e, j)
  {
    forall d | 0 <= d <= j
      ensures FirstBelow(e, a, d) <==> FirstBelow(e, b, d)
      ensures FirstBelow(a, e, d) <==> FirstBelow(b, e, d)
    {
    }
  }

  // Rows sharing a prefix are contiguous in a sorted index.
  lemma Contiguous(rows: seq<Entry>, nCol: nat, x: nat, y: nat, z: nat, j: nat)
    requires Sorted(rows, nCol) && x <= y <= z < |rows| && j < nCol
    requires Agree(rows[x], rows[z], j)
    ensures Agree(rows[x], rows[y], j) && Agree(rows[y], rows[z], j)
  {
    if x < y < z {
      OrderedPrefix(rows[x], rows[y], j);
      OrderedPrefix(rows[y], rows[z], j);
      AgreeLess(rows[x], rows[z], rows[y], j);
      PrefixLessExcludes(rows[y], rows[z], j);
    }
  }

  // No two entries agree on every column.
  lemma DistinctEntries(rows: seq<Entry>, nCol: nat, x: nat, y: nat)
    requires Sorted(rows, nCol) && x < y < |rows|
    ensures !Agree(rows[x], rows[y], nCol - 1)
    ensures !Agree(rows[y], rows[x], nCol - 1)
  {
    PrefixLessExcludes(rows[x], rows[y], nCol - 1);
    assert Agree(rows[x], rows[y], nCol - 1) <==> Agree(rows[y], rows[x], nCol - 1);
  }

  // A change at column d is exactly agreement on the columns before d.
  lemma ChangeAgrees(a: Entry, b: Entry, d: nat, j: nat)
    requires |a.cols| == |b.cols| && IsChange(a, b, d) && j < |a.cols|
    ensures Agree(a, b, j) <==> j < d
  {
  }

  // ---- the counts when one more row arrives --------------------------------

  lemma SortedPrefix(rows: seq<Entry>, row: Entry, nCol: nat)
    requires Sorted(rows + [row], nCol)
    ensures Sorted(rows, nCol) && |row.cols| == nCol
  {
    var all := rows + [row];
    assert all[|rows|] == row;
    forall k | 0 <= k < |rows|
      ensures |rows[k].cols| == nCol
    {
      assert rows[k] == all[k];
    }
    forall x, y | 0 <= x < y < |rows|
      ensures PrefixLess(rows[x], rows[y], nCol - 1)
    {
      assert rows[x] == all[x] && rows[y] == all[y];
    }
  }

  lemma CountsOfAppend(rows: seq<Entry>, row: Entry, e: Entry, j: nat)
    requires j < |e.cols| && Wide(rows + [row], |e.cols|)
    ensures Wide(rows, |e.cols|) && |row.cols| == |e.cols|
    ensures EqRows(rows + [row], e, j) == EqRows(rows, e, j) + if Agree(row, e, j) then 1 else 0
    ensures LtRows(rows + [row], e, j) == LtRows(rows, e, j) + if PrefixLess(row, e, j) then 1 else 0
    ensures PrefixesBelow(rows + [row], e, j)
         == PrefixesBelow(rows, e, j) + if PrefixLess(row, e, j) then {row.cols[..j + 1]} else {}
  {
    var all := rows + [row];
    assert all[|rows|] == row && all[..|all| - 1] == rows;
    assert forall k :: 0 <= k < |rows| ==> all[k] == rows[k];
    var below := PrefixesBelow(rows, e, j) + if PrefixLess(row, e, j) then {row.cols[..j + 1]} else {};
    forall p | p in PrefixesBelow(all, e, j)
      ensures p in below
    {
      var k :| 0 <= k < |all| && PrefixLess(all[k], e, j) && p == all[k].cols[..j + 1];
      if k < |rows| {
        assert rows[k] == all[k];
      }
    }
    forall p | p in below
      ensures p in PrefixesBelow(all, e, j)
    {
      if p in PrefixesBelow(rows, e, j) {
        var k :| 0 <= k < |rows| && PrefixLess(rows[k], e, j) && p == rows[k].cols[..j + 1];
        assert all[k] == rows[k];
      } else {
        assert all[|rows|] == row;
      }
    }
  }

  // Counts depend only on the columns 0..j.
  lemma {:induction false} CountsOfAgreeing(rows: seq<Entry>, a: Entry, b: Entry, j: nat)
    requires j < |a.cols| == |b.cols| && Wide(rows, |a.cols|) && Agree(a, b, j)
    ensures EqRows(rows, a, j) == EqRows(rows, b, j)
    ensures LtRows(rows, a, j) == LtRows(rows, b, j)
    ensures PrefixesBelow(rows, a, j) == PrefixesBelow(rows, b, j)
  {
    if rows != [] {
      CountsOfAgreeing(rows[..|rows| - 1], a, b, j);
      AgreeLess(a, b, rows[|rows| - 1], j);
      assert Agree(rows[|rows| - 1], a, j) <==> Agree(a, rows[|rows| - 1], j);
      assert Agree(rows[|rows| - 1], b, j) <==> Agree(b, rows[|rows| - 1], j);
    }
    forall k | 0 <= k < |rows|
      ensures PrefixLess(rows[k], a, j) <==> PrefixLess(rows[k], b, j)
    {
      AgreeLess(a, b, rows[k], j);
    }
  }

  // A longer shared prefix is shared by fewer rows.
  lemma {:induction false} EqRowsShrink(rows: seq<Entry>, e: Entry, i: nat, j: nat)
    requires i <= j < |e.cols| && Wide(rows, |e.cols|)
    ensures EqRows(rows, e, j) <= EqRows(rows, e, i)
  {
    if rows != [] {
      EqRowsShrink(rows[..|rows| - 1], e, i, j);
    }
  }

  // Every row of the index is counted at least once, by itself.
  lemma {:induction false} EqRowsPositive(rows: seq<Entry>, x: nat, j: nat)
    requires x < |rows| && j < |rows[x].cols| && Wide(rows, |rows[x].cols|)
    ensures EqRows(rows, rows[x], j) > 0
  {
    if x < |rows| - 1 {
      var front := rows[..|rows| - 1];
      assert front[x] == rows[x];
      EqRowsPositive(front, x, j);
    }
  }

  // A row after all others: the rows that sort before it on columns 0..j are
  // those before its predecessor together with those equal to its predecessor
  // - unless the two agree, and then nothing changes.
  lemma CountsAdvance(rows: seq<Entry>, row: Entry, nCol: nat, j: nat)
    requires Sorted(rows + [row], nCol) && rows != [] && j < nCol
    ensures Wide(rows, nCol) && Wide(rows + [row], nCol) && |row.cols| == nCol
    ensures var last := rows[|rows| - 1];
            if Agree(last, row, j) then
              && EqRows(rows + [row], row, j) == EqRows(rows, last, j) + 1
              && LtRows(rows + [row], row, j) == LtRows(rows, last, j)
              && DistinctLt(rows + [row], row, j) == DistinctLt(rows, last, j)
            else
              && EqRows(rows + [row], row, j) == 1
              && LtRows(rows + [row], row, j) == LtRows(rows, last, j) + EqRows(rows, last, j)
              && DistinctLt(rows + [row], row, j) == DistinctLt(rows, last, j) + 1
  {
    SortedPrefix(rows, row, nCol);
    var last := rows[|rows| - 1];
    CountsOfAppend(rows, row, row, j);
    PrefixLessExcludes(row, row, j);
    if Agree(last, row, j) {
      CountsOfAgreeing(rows, last, row, j);
    } else {
      CountsPastPrefix(rows, row, nCol, j, |rows|);
      assert rows[..|rows|] == rows;
      DistinctPastPrefix(rows, row, nCol, j);
    }
  }

  // Every earlier row sorts below the new prefix, and either below the
  // predecessor's prefix or equal to it.
  lemma BelowNewPrefix(rows: seq<Entry>, row: Entry, nCol: nat, j: nat, k: nat)
    requires Sorted(rows + [row], nCol) && rows != [] && j < nCol && k < |rows|
    requires Wide(rows, nCol) && |row.cols| == nCol
    requires !Agree(rows[|rows| - 1], row, j)
    ensures PrefixLess(rows[k], row, j) && !Agree(rows[k], row, j)
    ensures PrefixLess(rows[k], rows[|rows| - 1], j) <==> !Agree(rows[k], rows[|rows| - 1], j)
  {
    SortedPrefix(rows, row, nCol);
    var all := rows + [row];
    assert all[k] == rows[k] && all[|rows|] == row && all[|rows| - 1] == rows[|rows| - 1];
    if Agree(rows[k], row, j) {
      Contiguous(all, nCol, k, |rows| - 1, |rows|, j);
    }
    OrderedPrefix(rows[k], row, j);
    PrefixLessExcludes(rows[k], rows[|rows| - 1], j);
    if k < |rows| - 1 {
      OrderedPrefix(rows[k], rows[|rows| - 1], j);
    }
  }

  lemma {:induction false} CountsPastPrefix(rows: seq<Entry>, row: Entry, nCol: nat, j: nat, n: nat)
    requires Sorted(rows + [row], nCol) && rows != [] && j < nCol && n <= |rows|
    requires Wide(rows, nCol) && |row.cols| == nCol && Wide(rows[..n], nCol)
    requires !Agree(rows[|rows| - 1], row, j)
    ensures EqRows(rows[..n], row, j) == 0
    ensures LtRows(rows[..n], row, j)
         == LtRows(rows[..n], rows[|rows| - 1], j) + EqRows(rows[..n], rows[|rows| - 1], j)
  {
    if n > 0 {
      CountsPastPrefix(rows, row, nCol, j, n - 1);
      assert rows[..n][..n - 1] == rows[..n - 1];
      BelowNewPrefix(rows, row, nCol, j, n - 1);
    }
  }

  lemma DistinctPastPrefix(rows: seq<Entry>, row: Entry, nCol: nat, j: nat)
    requires Sorted(rows + [row], nCol) && rows != [] && j < nCol
    requires Wide(rows, nCol) && |row.cols| == nCol
    requires !Agree(rows[|rows| - 1], row, j)
    ensures DistinctLt(rows, row, j) == DistinctLt(rows, rows[|rows| - 1], j) + 1
  {
    var last := rows[|rows| - 1];
    var known := PrefixesBelow(rows, last, j);
    forall p | p in known
      ensures p != last.cols[..j + 1]
    {
      var k :| 0 <= k < |rows| && PrefixLess(rows[k], last, j) && p == rows[k].cols[..j + 1];
      PrefixLessExcludes(rows[k], last, j);
      if p == last.cols[..j + 1] {
        forall c | 0 <= c <= j ensures rows[k].cols[c] == last.cols[c] {
          assert p[c] == rows[k].cols[c] && p[c] == last.cols[c];
        }
      }
    }
    forall p | p in PrefixesBelow(rows, row, j)
      ensures p in known + {last.cols[..j + 1]}
    {
      var k :| 0 <= k < |rows| && PrefixLess(rows[k], row, j) && p == rows[k].cols[..j + 1];
      BelowNewPrefix(rows, row, nCol, j, k);
      if Agree(rows[k], last, j) {
        assert p == last.cols[..j + 1];
      }
    }
    forall p | p in known + {last.cols[..j + 1]}
      ensures p in PrefixesBelow(rows, row, j)
    {
      if p in known {
        var k :| 0 <= k < |rows| && PrefixLess(rows[k], last, j) && p == rows[k].cols[..j + 1];
        BelowNewPrefix(rows, row, nCol, j, k);
      } else {
        BelowNewPrefix(rows, row, nCol, j, |rows| - 1);
      }
    }
    assert PrefixesBelow(rows, row, j) == known + {last.cols[..j + 1]};
  }

  // For an earlier row the rows sorting before it are all known already; only
  // its count of equals may still grow, while the scan stays inside its group.
  lemma CountsSettled(rows: seq<Entry>, row: Entry, nCol: nat, x: nat, j: nat)
    requires Sorted(rows + [row], nCol) && x < |rows| && j < nCol
    ensures Wide(rows, nCol) && Wide(rows + [row], nCol) && |row.cols| == nCol
    ensures LtRows(rows + [row], rows[x], j) == LtRows(rows, rows[x], j)
    ensures DistinctLt(rows + [row], rows[x], j) == DistinctLt(rows, rows[x], j)
    ensures EqRows(rows + [row], rows[x], j)
         == EqRows(rows, rows[x], j) + if Agree(rows[x], row, j) then 1 else 0
  {
    SortedPrefix(rows, row, nCol);
    var all := rows + [row];
    assert all[x] == rows[x] && all[|rows|] == row;
    OrderedPrefix(rows[x], row, j);
    CountsOfAppend(rows, row, rows[x], j);
    assert Agree(rows[x], row, j) <==> Agree(row, rows[x], j);
  }

  // Counted over all columns, the rows before an entry give its position.
  lemma {:induction false} PositionOf(rows: seq<Entry>, nCol: nat, x: nat)
    requires Sorted(rows, nCol) && x < |rows|
    ensures LtRows(rows, rows[x], nCol - 1) == x
    ensures EqRows(rows, rows[x], nCol - 1) == 1
  {
    var front, last := rows[..|rows| - 1], rows[|rows| - 1];
    assert rows == front + [last];
    SortedPrefix(front, last, nCol);
    if x < |rows| - 1 {
      PositionOf(front, nCol, x);
      CountsSettled(front, last, nCol, x, nCol - 1);
      DistinctEntries(rows, nCol, x, |rows| - 1);
    } else if front != [] {
      PositionOf(front, nCol, |front| - 1);
      CountsAdvance(front, last, nCol, nCol - 1);
      DistinctEntries(rows, nCol, |front| - 1, |front|);
    } else {
      PrefixLessExcludes(last, last, nCol - 1);
    }
  }

  // The distinct values of columns 0..j in the whole index.
  ghost function Prefixes(rows: seq<Entry>, nCol: nat, j: nat): set<seq<int>>
    requires j < nCol && Wide(rows, nCol)
  {
    set k | 0 <= k < |rows| :: rows[k].cols[..j + 1]
  }

  // All of them but one sort before the last row.
  lemma DistinctInAll(rows: seq<Entry>, nCol: nat, j: nat)
    requires Sorted(rows, nCol) && rows != [] && j < nCol
    ensures |Prefixes(rows, nCol, j)| == DistinctLt(rows, rows[|rows| - 1], j) + 1
  {
    var last := rows[|rows| - 1];
    var below := PrefixesBelow(rows, last, j);
    var own := last.cols[..j + 1];
    forall k | 0 <= k < |rows|
      ensures rows[k].cols[..j + 1] in below + {own}
      ensures PrefixLess(rows[k], last, j) ==> rows[k].cols[..j + 1] != own
    {
      PrefixLessExcludes(rows[k], last, j);
      if k < |rows| - 1 {
        OrderedPrefix(rows[k], last, j);
      }
      if Agree(rows[k], last, j) {
        assert rows[k].cols[..j + 1] == own;
      } else {
        assert exists c :: 0 <= c <= j && rows[k].cols[..j + 1][c] != own[c];
      }
    }
    assert Prefixes(rows, nCol, j) == below + {own};
    assert own !in below;
  }
}
