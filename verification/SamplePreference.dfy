// sampleIsBetter() is a strict weak order, so "the best sample sharing a
// prefix" and "the least desirable sample" mean what their names say, and the
// two scans of sampleInsert() find them.
module SamplePreference {
  import opened SampleSelection
  import opened Wrappers

  lemma {:induction false} BetterFromOrder(x: Sample, y: Sample, z: Sample, i: nat)
    requires |x.anEq| == |y.anEq| == |z.anEq| && i <= |x.anEq|
    ensures !(BetterFrom(x, y, i) && BetterFrom(y, x, i))
    ensures BetterFrom(x, y, i) ==> BetterFrom(x, z, i) || BetterFrom(z, y, i)
    decreases |x.anEq| - i
  {
    if i < |x.anEq| {
      BetterFromOrder(x, y, z, i + 1);
    }
  }

  // Asymmetric and negatively transitive.
  lemma StrictWeakOrder(x: Sample, y: Sample, z: Sample, nCol: nat)
    requires SampleShape(x, nCol) && SampleShape(y, nCol) && SampleShape(z, nCol)
    ensures !(IsBetter(x, y) && IsBetter(y, x))
    ensures IsBetter(x, y) ==> IsBetter(x, z) || IsBetter(z, y)
  {
    if x.iCol == y.iCol {
      BetterFromOrder(x, y, z, x.iCol + 1);
    }
  }

  lemma Transitive(x: Sample, y: Sample, z: Sample, nCol: nat)
    requires SampleShape(x, nCol) && SampleShape(y, nCol) && SampleShape(z, nCol)
    requires IsBetter(x, y) && IsBetter(y, z)
    ensures IsBetter(x, z)
  {
    StrictWeakOrder(x, y, z, nCol);
    StrictWeakOrder(y, z, x, nCol);
  }

  // From column i on, x has the larger count in the first column d where they differ.
  ghost predicate LargerFirst(x: Sample, y: Sample, i: nat, d: nat)
    requires |x.anEq| == |y.anEq|
  {
    i <= d < |x.anEq| && x.anEq[d] > y.anEq[d] && forall j {:trigger x.anEq[j]} :: i <= j < d ==> x.anEq[j] == y.anEq[j]
  }

  ghost predicate IsLarger(x: Sample, y: Sample, i: nat)
    requires |x.anEq| == |y.anEq|
  {
    exists d: nat :: LargerFirst(x, y, i, d)
  }

  lemma LargerLater(x: Sample, y: Sample, i: nat)
    requires |x.anEq| == |y.anEq| && i < |x.anEq|
    ensures IsLarger(x, y, i) <==> x.anEq[i] > y.anEq[i] || (x.anEq[i] == y.anEq[i] && IsLarger(x, y, i + 1))
  {
    if IsLarger(x, y, i) {
      var d: nat :| LargerFirst(x, y, i, d);
      assert d > i ==> x.anEq[i] == y.anEq[i] && LargerFirst(x, y, i + 1, d);
    }
    if x.anEq[i] > y.anEq[i] {
      assert LargerFirst(x, y, i, i);
    } else if x.anEq[i] == y.anEq[i] && IsLarger(x, y, i + 1) {
      var d: nat :| LargerFirst(x, y, i + 1, d);
      assert LargerFirst(x, y, i, d);
    }
  }

  lemma {:induction false} LargerIff(x: Sample, y: Sample, i: nat)
    requires |x.anEq| == |y.anEq| && i <= |x.anEq|
    ensures BetterFrom(x, y, i) <==> IsLarger(x, y, i) || (SameFrom(x, y, i) && x.iHash > y.iHash)
    decreases |x.anEq| - i
  {
    if i < |x.anEq| {
      LargerIff(x, y, i + 1);
      LargerLater(x, y, i);
      assert SameFrom(x, y, i) <==> x.anEq[i] == y.anEq[i] && SameFrom(x, y, i + 1);
    }
  }

  // Of samples kept for the same column with equal counts there, the one is preferred
  // that has the larger count in the first later column where they differ; the hash
  // decides if there is none.
  lemma PreferenceMeans(x: Sample, y: Sample, nCol: nat)
    requires SampleShape(x, nCol) && SampleShape(y, nCol)
    requires x.iCol == y.iCol && x.anEq[x.iCol] == y.anEq[y.iCol]
    ensures IsBetter(x, y) <==>
              IsLarger(x, y, x.iCol + 1) || (SameFrom(x, y, x.iCol + 1) && x.iHash > y.iHash)
  {
    LargerIff(x, y, x.iCol + 1);
  }

  // The preference of a sample reads its counts from column iCol on only.
  ghost predicate SameFrom(x: Sample, y: Sample, i: nat)
    requires |x.anEq| == |y.anEq|
  {
    forall j {:trigger x.anEq[j]} :: i <= j < |x.anEq| ==> x.anEq[j] == y.anEq[j]
  }

  lemma {:induction false} BetterFromLocal(x: Sample, x': Sample, y: Sample, y': Sample, i: nat)
    requires |x.anEq| == |y.anEq| == |x'.anEq| == |y'.anEq| && i <= |x.anEq|
    requires SameFrom(x, x', i) && SameFrom(y, y', i) && x.iHash == x'.iHash && y.iHash == y'.iHash
    ensures BetterFrom(x, y, i) == BetterFrom(x', y', i)
    decreases |x.anEq| - i
  {
    if i < |x.anEq| {
      BetterFromLocal(x, x', y, y', i + 1);
    }
  }

  lemma IsBetterLocal(x: Sample, x': Sample, y: Sample, y': Sample, nCol: nat)
    requires SampleShape(x, nCol) && SampleShape(x', nCol) && SampleShape(y, nCol) && SampleShape(y', nCol)
    requires x.iCol == x'.iCol && y.iCol == y'.iCol && x.iHash == x'.iHash && y.iHash == y'.iHash
    requires SameFrom(x, x', x.iCol) && SameFrom(y, y', y.iCol)
    ensures IsBetter(x, y) == IsBetter(x', y')
  {
    if x.iCol == y.iCol {
      BetterFromLocal(x, x', y, y', x.iCol + 1);
    }
  }

  // ---- the least desirable sample ------------------------------------------

  ghost predicate IsLeast(a: seq<Sample>, nCol: nat, n: nat, m: int)
    requires AllShaped(a, nCol) && n <= |a|
  {
    && 0 <= m < |a| && !a[m].isPSample
    && forall k :: 0 <= k < n && !a[k].isPSample ==> !IsBetter(a[m], a[k])
  }

  lemma {:induction false} MinFromFinds(a: seq<Sample>, nCol: nat, i: nat, iMin: int)
    requires AllShaped(a, nCol) && i <= |a| && -1 <= iMin < |a|
    requires if iMin < 0 then forall k :: 0 <= k < i ==> a[k].isPSample else IsLeast(a, nCol, i, iMin)
    ensures var m := MinFrom(a, nCol, i, iMin);
            if m < 0 then forall k :: 0 <= k < |a| ==> a[k].isPSample else IsLeast(a, nCol, |a|, m)
    decreases |a| - i
  {
    if i < |a| {
      if a[i].isPSample {
        MinFromFinds(a, nCol, i + 1, iMin);
      } else if iMin < 0 {
        assert !IsBetter(a[i], a[i]) by { StrictWeakOrder(a[i], a[i], a[i], nCol); }
        MinFromFinds(a, nCol, i + 1, i);
      } else {
        if IsBetter(a[iMin], a[i]) {
          forall k | 0 <= k < i + 1 && !a[k].isPSample
            ensures !IsBetter(a[i], a[k])
          {
            StrictWeakOrder(a[i], a[i], a[i], nCol);
            if k < i && IsBetter(a[i], a[k]) {
              Transitive(a[iMin], a[i], a[k], nCol);
            }
          }
          MinFromFinds(a, nCol, i + 1, i);
        } else {
          MinFromFinds(a, nCol, i + 1, iMin);
        }
      }
    }
  }

  // ---- the sample to upgrade ---------------------------------------------------

  // No sample with a zero in column c, from index i on, is preferred to the u-th.
  ghost predicate IsTop(a: seq<Sample>, nCol: nat, c: nat, i: nat, u: nat)
    requires AllShaped(a, nCol) && c < nCol
  {
    && u < |a| && !a[u].isPSample && a[u].anEq[c] == 0
    && forall k :: i <= k < |a| && a[k].anEq[c] == 0 ==> !IsBetter(a[k], a[u])
  }

  // Every sample that the scan may pick passes the asserts of the scan.
  ghost predicate Upgradable(a: seq<Sample>, new_: Sample, nCol: nat)
    requires AllShaped(a, nCol) && SampleShape(new_, nCol)
  {
    forall k :: 0 <= k < |a| && a[k].anEq[new_.iCol] == 0 && !a[k].isPSample
      ==> a[k].iCol > new_.iCol && IsBetter(new_, a[k])
  }

  lemma {:induction false} FindUpgradeFinds(a: seq<Sample>, new_: Sample, nCol: nat, i: nat, up: Option<nat>)
    requires AllShaped(a, nCol) && SampleShape(new_, nCol) && i <= |a| && Upgradable(a, new_, nCol)
    requires forall k :: i <= k < |a| && a[k].anEq[new_.iCol] == 0 ==> !a[k].isPSample && up.Some?
    requires up.Some? ==> IsTop(a, nCol, new_.iCol, i, up.value)
    ensures match FindUpgrade(a, new_, nCol, i, up)
            case Fault => false
            case Blocked => exists k :: 0 <= k < |a| && a[k].anEq[new_.iCol] == 0 && a[k].isPSample
            case Chosen(None) => forall k :: 0 <= k < |a| ==> a[k].anEq[new_.iCol] != 0
            case Chosen(Some(u)) =>
              && (forall k :: 0 <= k < |a| && a[k].anEq[new_.iCol] == 0 ==> !a[k].isPSample)
              && IsTop(a, nCol, new_.iCol, 0, u)
  {
    if i > 0 {
      var pOld := a[i - 1];
      if pOld.anEq[new_.iCol] != 0 {
        FindUpgradeFinds(a, new_, nCol, i - 1, up);
      } else if !pOld.isPSample {
        assert !IsBetter(pOld, pOld) by { StrictWeakOrder(pOld, pOld, pOld, nCol); }
        if up.None? {
          FindUpgradeFinds(a, new_, nCol, i - 1, Some(i - 1));
        } else if IsBetter(pOld, a[up.value]) {
          forall k | i - 1 <= k < |a| && a[k].anEq[new_.iCol] == 0
            ensures !IsBetter(a[k], pOld)
          {
            if k >= i && IsBetter(a[k], pOld) {
              Transitive(a[k], pOld, a[up.value], nCol);
            }
          }
          FindUpgradeFinds(a, new_, nCol, i - 1, Some(i - 1));
        } else {
          FindUpgradeFinds(a, new_, nCol, i - 1, up);
        }
      }
    }
  }
}
