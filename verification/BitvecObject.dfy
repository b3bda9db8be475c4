// Bitvec as the object that is changed in place.  Contents is the set of
// integers it stands for; whichever of the three forms it has taken, the
// operations act on that set.
module BitvecObjects {
  import opened Division
  import opened BitvecHash
  import opened BitvecBits

  const SQLITE_OK: int := 0
  const SQLITE_NOMEM: int := 7

  // The sizes that follow from BITVEC_SZ with 4-byte integers and 8-byte pointers.
  const BITVEC_SZ: nat := 512
  const BITVEC_USIZE: nat := (BITVEC_SZ - 3 * 4) / 8 * 8
  const BITVEC_NELEM: nat := BITVEC_USIZE
  const BITVEC_NBIT: nat := BITVEC_NELEM * 8
  const BITVEC_NINT: nat := BITVEC_USIZE / 4
  const BITVEC_MXHASH: nat := BITVEC_NINT / 2
  const BITVEC_NPTR: nat := BITVEC_USIZE / 8

  function DivisorFor(iSize: nat): nat {
    (iSize + BITVEC_NPTR - 1) / BITVEC_NPTR
  }

  // The sub-bitmaps cover the whole range and are smaller.
  lemma DivisorCovers(iSize: nat)
    requires iSize > BITVEC_NBIT
    ensures 0 < DivisorFor(iSize) < iSize <= BITVEC_NPTR * DivisorFor(iSize)
  {
  }

  lemma QuotBelow(i: nat, n: nat, d: nat)
    requires d > 0 && i < n * d
    ensures Quot(i, d) < n
  {
    QuotRem(i, d);
    if Quot(i, d) >= n {
      MulOrder(n, Quot(i, d), d);
    }
  }

  lemma BinInRange(iSize: nat, i: nat)
    requires iSize > BITVEC_NBIT && i < iSize
    ensures 0 < DivisorFor(iSize) < iSize && Quot(i, DivisorFor(iSize)) < BITVEC_NPTR
  {
    DivisorCovers(iSize);
    QuotBelow(i, BITVEC_NPTR, DivisorFor(iSize));
  }

  // A value is determined by its bin and its place in it.
  lemma BinIsUnique(x: nat, y: nat, d: nat)
    requires d > 0 && x != y
    ensures Quot(x, d) != Quot(y, d) || Rem(x, d) != Rem(y, d)
  {
    QuotRem(x, d);
    QuotRem(y, d);
  }

  // The members of c and i, when the sub-bitmap of i holds s.
  ghost function Regathered(c: set<nat>, i: nat, d: nat, s: set<nat>): set<nat>
    requires d > 0 && i > 0 && 0 !in c
  {
    set x | x in c + {i} && (Quot(x - 1, d) == Quot(i - 1, d) ==> Rem(x - 1, d) + 1 in s)
  }

  // What happens to the sub-bitmap happens to the whole.
  lemma RegatheredIs(c: set<nat>, i: nat, d: nat, s: set<nat>, s': set<nat>, v: nat)
    requires d > 0 && i > 0 && 0 !in c && v == Rem(i - 1, d) + 1
    requires forall x <- c :: Quot(x - 1, d) == Quot(i - 1, d) ==> Rem(x - 1, d) + 1 in s
    ensures Regathered(c, i, d, s') <= c + {i}
    ensures s' == s + {v} ==> Regathered(c, i, d, s') == c + {i}
    ensures s' == s - {v} ==> Regathered(c, i, d, s') == c - {i}
  {
    forall x | x in c && x != i
      ensures Quot(x - 1, d) != Quot(i - 1, d) || Rem(x - 1, d) + 1 != v
    {
      BinIsUnique(x - 1, i - 1, d);
    }
  }

  class Bitvec {
    const iSize: nat
    var nSet: nat
    var iDivisor: nat
    const aBitmap: array<bv8>
    const aHash: array<nat>
    const apSub: array<Bitvec?>
    ghost var Contents: set<nat>
    ghost var Repr: set<object>

    ghost predicate Shape()
      reads this
    {
      && {this, aBitmap, aHash, apSub} <= Repr
      && aBitmap.Length == BITVEC_NELEM && aHash.Length == BITVEC_NINT && apSub.Length == BITVEC_NPTR
      && (forall x :: x in Contents ==> 0 < x <= iSize)
    }

    ghost predicate BitmapForm()
      reads this, aBitmap
    {
      && aBitmap.Length == BITVEC_NELEM && iDivisor == 0
      && forall i: nat {:trigger BitAt(aBitmap[..], i)} :: i < BITVEC_NBIT ==>
          (BitAt(aBitmap[..], i) <==> i + 1 in Contents)
    }

    ghost predicate HashForm()
      reads this, aHash
    {
      && aHash.Length == BITVEC_NINT && iDivisor == 0
      && HashOk(aHash[..]) && nSet == Count(aHash[..]) <= BITVEC_NINT - 1 && Contents == Elements(aHash[..])
    }

    // The sub-bitmap for bin k is separate from the rest.
    ghost predicate SubOk(k: nat)
      requires k < apSub.Length && apSub[k] != null
      reads this, apSub, apSub[k]
    {
      && apSub[k] in Repr && apSub[k].Repr <= Repr && {this, aBitmap, aHash, apSub} !! apSub[k].Repr
      && apSub[k].iSize == iDivisor < iSize
    }

    // The set that the sub-bitmap for bin k stands for.
    ghost function Sub(k: nat): set<nat>
      requires k < apSub.Length
      reads this, apSub, apSub[k]
    {
      if apSub[k] == null then {} else apSub[k].Contents
    }

    // x is in the sub-bitmap of its bin.
    ghost predicate InBin(x: nat, k: nat)
      requires iDivisor > 0 && k < apSub.Length
      reads this, apSub, apSub[k]
    {
      x > 0 && k == Quot(x - 1, iDivisor) && Rem(x - 1, iDivisor) + 1 in Sub(k)
    }

    // The sub-bitmaps are valid,
    ghost predicate SubsValid()
      requires apSub.Length == BITVEC_NPTR && apSub in Repr
      reads this, Repr
      decreases iSize, 0
    {
      forall k {:trigger apSub[k]} :: 0 <= k < BITVEC_NPTR && apSub[k] != null ==>
        apSub[k] in Repr && SubOk(k) && apSub[k].Valid()
    }

    // have nothing in common
    ghost predicate SubsApart()
      requires apSub.Length == BITVEC_NPTR && apSub in Repr
      reads this, Repr
    {
      forall k, l {:trigger apSub[k], apSub[l]} ::
        0 <= k < l < BITVEC_NPTR && apSub[k] in Repr && apSub[l] in Repr ==> apSub[k].Repr !! apSub[l].Repr
    }

    // and hold the contents between them.
    ghost predicate SubsHold()
      requires apSub.Length == BITVEC_NPTR && apSub in Repr && iDivisor > 0
      reads this, Repr
    {
      forall x: nat, k: nat {:trigger InBin(x, k)} ::
        0 < x <= iSize && k < BITVEC_NPTR && k == Quot(x - 1, iDivisor) && (apSub[k] == null || apSub[k] in Repr) ==>
          (x in Contents <==> InBin(x, k))
    }

    ghost predicate Valid()
      reads this, Repr
      ensures Valid() ==> this in Repr
      decreases iSize, 1
    {
      && Shape()
      && if iSize <= BITVEC_NBIT then BitmapForm()
         else if iDivisor == 0 then HashForm()
         else iDivisor == DivisorFor(iSize) && SubsValid() && SubsApart() && SubsHold()
    }

    // sqlite3BitvecCreate()
    constructor (iSize: nat)
      ensures Valid() && fresh(Repr) && Contents == {} && this.iSize == iSize && iDivisor == 0 && nSet == 0
      ensures forall h :: 0 <= h < BITVEC_NINT ==> aHash[h] == 0
    {
      this.iSize := iSize;
      nSet, iDivisor := 0, 0;
      aBitmap := new bv8[BITVEC_NELEM](_ => 0);
      aHash := new nat[BITVEC_NINT](_ => 0);
      apSub := new Bitvec?[BITVEC_NPTR](_ => null);
      Contents := {};
      new;
      Repr := {this, aBitmap, aHash, apSub};
      CountZeros(aHash[..]);
      forall i: nat | i < BITVEC_NBIT
        ensures !BitAt(aBitmap[..], i)
      {
        NoBits(i % 8);
      }
    }

    // The probe loop of the hash form: from the home slot of v to v itself, or
    // else to the empty slot where it can be stored.
    method Probe(v: nat) returns (h: nat, found: bool)
      requires HashForm() && v > 0
      ensures h < BITVEC_NINT && (found <==> v in Contents)
      ensures !found ==> aHash[h] == 0 && Probing(aHash[..], v, h)
      ensures aHash[Home(v, BITVEC_NINT)] == 0 ==> !found && h == Home(v, BITVEC_NINT)
    {
      ghost var a := aHash[..];
      ghost var e := EmptySlot(a);
      h, found := Home(v, BITVEC_NINT), false;
      ProbeStarts(a, v);
      while aHash[h] != 0
        invariant Probing(a, v, h) && !found
        invariant a[Home(v, BITVEC_NINT)] == 0 ==> h == Home(v, BITVEC_NINT)
        decreases Dist(h, e, BITVEC_NINT)
      {
        if aHash[h] == v {
          return h, true;
        }
        ProbeMoves(a, v, h, e);
        h := Next(h, BITVEC_NINT);
      }
      ProbeFails(a, v, h);
    }

    // What sqlite3BitvecTestNotNull() does once it has come to a Bitvec without
    // sub-bitmaps.
    method TestLeaf(x: nat) returns (b: bool)
      requires Valid() && iDivisor == 0 && x < iSize
      ensures b <==> x + 1 in Contents
    {
      if iSize <= BITVEC_NBIT {
        assert BitAt(aBitmap[..], x) <==> x + 1 in Contents;
        b := Bit(aBitmap[x / 8], x % 8);
      } else {
        var h;
        h, b := Probe(x + 1);
      }
    }

    // The sub-bitmap of x, where the search goes on.
    method Descend(x: nat) returns (q: Bitvec?, y: nat)
      requires Valid() && iDivisor > 0 && x < iSize
      ensures q == null ==> x + 1 !in Contents
      ensures q != null ==>
                q in Repr && q.Valid() && y < q.iSize < iSize && (x + 1 in Contents <==> y + 1 in q.Contents)
    {
      BinInRange(iSize, x);
      var bin := Quot(x, iDivisor);
      assert x + 1 in Contents <==> InBin(x + 1, bin);
      q, y := apSub[bin], Rem(x, iDivisor);
    }

    // sqlite3BitvecTestNotNull(); i - 1 wraps around for i == 0.
    method TestNotNull(i: nat) returns (b: bool)
      requires Valid() && i < TWO32 && iSize < TWO32
      ensures b <==> i in Contents
    {
      var x: nat := if i == 0 then TWO32 - 1 else i - 1;
      if x >= iSize {
        return false;
      }
      var p: Bitvec := this;
      while p.iDivisor != 0
        invariant p.Valid() && x < p.iSize
        invariant i in Contents <==> x + 1 in p.Contents
        decreases p.iSize
      {
        var q;
        q, x := p.Descend(x);
        if q == null {
          return false;
        }
        p := q;
      }
      b := p.TestLeaf(x);
    }

    // ---- the forms without sub-bitmaps --------------------------------------------

    method SetBit(i: nat)
      requires Valid() && iSize <= BITVEC_NBIT && 0 < i <= iSize
      modifies this`Contents, aBitmap
      ensures Valid() && Contents == old(Contents) + {i}
    {
      ghost var a := aBitmap[..];
      aBitmap[(i - 1) / 8] := aBitmap[(i - 1) / 8] | Mask((i - 1) % 8);
      Contents := Contents + {i};
      SetAt(a, i - 1, aBitmap[..]);
    }

    method ClearBit(i: nat)
      requires Valid() && iSize <= BITVEC_NBIT && 0 < i <= iSize
      modifies this`Contents, aBitmap
      ensures Valid() && Contents == old(Contents) - {i}
    {
      ghost var a := aBitmap[..];
      aBitmap[(i - 1) / 8] := aBitmap[(i - 1) / 8] & !Mask((i - 1) % 8);
      Contents := Contents - {i};
      ClearAt(a, i - 1, aBitmap[..]);
    }

    // bitvec_set_end
    method Store(i: nat, h: nat)
      requires Valid() && iSize > BITVEC_NBIT && iDivisor == 0 && 0 < i <= iSize
      requires nSet < BITVEC_NINT - 1 && Probing(aHash[..], i, h) && aHash[h] == 0
      modifies this`Contents, this`nSet, aHash
      ensures Valid() && Contents == old(Contents) + {i}
      ensures nSet == old(nSet) + 1 && aHash[..] == old(aHash[..])[h := i]
    {
      ghost var a := aHash[..];
      nSet := nSet + 1;
      aHash[h] := i;
      Contents := Contents + {i};
      assert aHash[..] == a[h := i];
      ProbeInserts(a, i, h, aHash[..]);
    }

    // ---- the divided form ------------------------------------------------------------

    twostate lemma SubAdded(bin: nat)
      requires old(Valid()) && iSize > BITVEC_NBIT && bin < BITVEC_NPTR && old(apSub[bin]) == null && iDivisor > 0
      requires iDivisor == old(iDivisor) && Contents == old(Contents) && Repr >= old(Repr)
      requires forall k :: 0 <= k < BITVEC_NPTR && k != bin ==> apSub[k] == old(apSub[k])
      requires forall o <- old(Repr) :: o != this && o != apSub ==> unchanged(o)
      requires apSub[bin] != null && apSub[bin] in Repr && fresh(apSub[bin].Repr) && apSub[bin].Repr <= Repr
      requires apSub[bin].Valid() && apSub[bin].Contents == {} && apSub[bin].iSize == iDivisor < iSize
      ensures SubsValid() && SubsApart() && SubsHold()
    {
      forall x: nat, k: nat | 0 < x <= iSize && k < BITVEC_NPTR && k == Quot(x - 1, iDivisor)
        ensures x in Contents <==> InBin(x, k)
      {
        assert old(InBin(x, k)) <==> InBin(x, k);
      }
    }

    // A new, empty sub-bitmap for bin, if memory can be had.
    method AddSub(bin: nat) returns (ok: bool)
      requires Valid() && iSize > BITVEC_NBIT && iDivisor > 0 && bin < BITVEC_NPTR && apSub[bin] == null
      modifies this`Repr, apSub
      ensures Valid() && fresh(Repr - old(Repr)) && ok == (apSub[bin] != null)
    {
      ok := *;
      if ok {
        var q := new Bitvec(iDivisor);
        assert iDivisor < iSize by { BinInRange(iSize, 0); }
        apSub[bin] := q;
        Repr := Repr + q.Repr;
        SubAdded(bin);
      }
    }

    // The sub-bitmap for bin has changed.
    twostate lemma SubChanged(bin: nat)
      requires old(Valid()) && iSize > BITVEC_NBIT && bin < BITVEC_NPTR && old(apSub[bin]) != null && iDivisor > 0
      requires iDivisor == old(iDivisor)
      requires forall k {:trigger apSub[k]} :: 0 <= k < BITVEC_NPTR ==> apSub[k] == old(apSub[k])
      requires forall o <- old(Repr) :: o != this && o !in old(apSub[bin].Repr) ==> unchanged(o)
      requires apSub[bin].Valid() && fresh(apSub[bin].Repr - old(apSub[bin].Repr)) &&
               Repr == old(Repr) + apSub[bin].Repr
      ensures SubsValid() && SubsApart()
    {
    }

    // It has changed at i, or has lost members.
    twostate lemma SubHolds(i: nat)
      requires old(Valid()) && iSize > BITVEC_NBIT && iDivisor == old(iDivisor) > 0 && 0 < i <= iSize
      requires Quot(i - 1, iDivisor) < BITVEC_NPTR && old(apSub[Quot(i - 1, iDivisor)]) != null
      requires forall k {:trigger apSub[k]} :: 0 <= k < BITVEC_NPTR ==> apSub[k] == old(apSub[k])
      requires forall o <- old(Repr) :: o != this && o !in old(apSub[Quot(i - 1, iDivisor)].Repr) ==> unchanged(o)
      requires Sub(Quot(i - 1, iDivisor)) <= old(Sub(Quot(i - 1, iDivisor))) + {Rem(i - 1, iDivisor) + 1} &&
               apSub in Repr
      requires Contents == Regathered(old(Contents), i, iDivisor, Sub(Quot(i - 1, iDivisor)))
      ensures SubsHold()
    {
      forall x: nat, k: nat | 0 < x <= iSize && k < BITVEC_NPTR && k == Quot(x - 1, iDivisor)
        ensures x in Contents <==> InBin(x, k)
      {
        assert old(InBin(x, k)) <==> x in old(Contents);
        if x != i {
          BinIsUnique(x - 1, i - 1, iDivisor);
        }
      }
    }

    twostate lemma SubReturned(i: nat)
      requires old(Valid()) && iSize > BITVEC_NBIT && iDivisor == old(iDivisor) > 0 && 0 < i <= iSize
      requires Quot(i - 1, iDivisor) < BITVEC_NPTR && old(apSub[Quot(i - 1, iDivisor)]) != null
      requires forall k {:trigger apSub[k]} :: 0 <= k < BITVEC_NPTR ==> apSub[k] == old(apSub[k])
      requires forall o <- old(Repr) :: o != this && o !in old(apSub[Quot(i - 1, iDivisor)].Repr) ==> unchanged(o)
      requires apSub[Quot(i - 1, iDivisor)].Valid()
      requires fresh(apSub[Quot(i - 1, iDivisor)].Repr - old(apSub[Quot(i - 1, iDivisor)].Repr))
      requires Sub(Quot(i - 1, iDivisor)) <= old(Sub(Quot(i - 1, iDivisor))) + {Rem(i - 1, iDivisor) + 1}
      requires Repr == old(Repr) + apSub[Quot(i - 1, iDivisor)].Repr
      requires Contents == Regathered(old(Contents), i, iDivisor, Sub(Quot(i - 1, iDivisor)))
      ensures Valid()
    {
      SubChanged(Quot(i - 1, iDivisor));
      SubHolds(i);
    }

    // What happened to the sub-bitmap of i has happened to the whole.
    twostate lemma SubContents(i: nat)
      requires old(Valid()) && iSize > BITVEC_NBIT && iDivisor == old(iDivisor) > 0 && 0 < i <= iSize
      requires Quot(i - 1, iDivisor) < BITVEC_NPTR
      requires Contents == Regathered(old(Contents), i, iDivisor, Sub(Quot(i - 1, iDivisor)))
      ensures Contents <= old(Contents) + {i}
      ensures Sub(Quot(i - 1, iDivisor)) == old(Sub(Quot(i - 1, iDivisor))) + {Rem(i - 1, iDivisor) + 1} ==>
                Contents == old(Contents) + {i}
      ensures Sub(Quot(i - 1, iDivisor)) == old(Sub(Quot(i - 1, iDivisor))) - {Rem(i - 1, iDivisor) + 1} ==>
                Contents == old(Contents) - {i}
    {
      var bin := Quot(i - 1, iDivisor);
      forall x | x in old(Contents)
        ensures Quot(x - 1, iDivisor) == bin ==> Rem(x - 1, iDivisor) + 1 in old(Sub(bin))
      {
        assert Quot(x - 1, iDivisor) == bin ==> old(InBin(x, bin));
      }
      RegatheredIs(old(Contents), i, iDivisor, old(Sub(bin)), Sub(bin), Rem(i - 1, iDivisor) + 1);
    }

    // ---- sqlite3BitvecSet() --------------------------------------------------------------

    method SetInSub(i: nat) returns (rc: int)
      requires Valid() && iSize > BITVEC_NBIT && iDivisor > 0 && 0 < i <= iSize
      modifies Repr
      ensures Valid() && fresh(Repr - old(Repr)) && iDivisor == old(iDivisor)
      ensures rc == SQLITE_OK || rc == SQLITE_NOMEM
      ensures Contents <= old(Contents) + {i}
      ensures rc == SQLITE_OK ==> Contents == old(Contents) + {i}
      decreases iSize, 0, 1
    {
      BinInRange(iSize, i - 1);
      var bin, off := Quot(i - 1, iDivisor), Rem(i - 1, iDivisor);
      if apSub[bin] == null {
        var ok := AddSub(bin);
        if !ok {
          return SQLITE_NOMEM;
        }
      }
      rc := SetInBin(i, bin, off);
    }

    method SetInBin(i: nat, bin: nat, off: nat) returns (rc: int)
      requires Valid() && iSize > BITVEC_NBIT && iDivisor > 0 && 0 < i <= iSize
      requires bin < BITVEC_NPTR && bin == Quot(i - 1, iDivisor) && off == Rem(i - 1, iDivisor) && apSub[bin] != null
      modifies Repr
      ensures Valid() && fresh(Repr - old(Repr)) && iDivisor == old(iDivisor)
      ensures rc == SQLITE_OK || rc == SQLITE_NOMEM
      ensures Contents <= old(Contents) + {i}
      ensures rc == SQLITE_OK ==> Contents == old(Contents) + {i}
      decreases iSize, 0, 0
    {
      var q := apSub[bin];
      rc := q.Set(off + 1);
      Repr := Repr + q.Repr;
      Contents := Regathered(Contents, i, iDivisor, Sub(bin));
      SubReturned(i);
      SubContents(i);
    }

    // The home slot of i is empty and the hash may still take a value there.
    ghost predicate Free(i: nat)
      reads this, aHash
      requires i > 0 && aHash.Length == BITVEC_NINT
    {
      iSize > BITVEC_NBIT && iDivisor == 0 && nSet < BITVEC_NINT - 1 && aHash[Home(i, BITVEC_NINT)] == 0
    }

    // The value i has joined the n values of a hash with the slots a.
    ghost predicate StoredAtHome(i: nat, n: nat, a: seq<nat>)
      reads this, aHash
    {
      iDivisor == 0 && nSet == n + 1 && i > 0 && |a| == BITVEC_NINT && aHash[..] == a[Home(i, BITVEC_NINT) := i]
    }

    // sqlite3BitvecSet(); a value whose home slot is free is stored there, however
    // many values the hash holds.
    method Set(i: nat) returns (rc: int)
      requires Valid() && 0 < i <= iSize
      modifies Repr
      ensures Valid() && fresh(Repr - old(Repr)) && (old(iDivisor) > 0 ==> iDivisor == old(iDivisor))
      ensures rc == SQLITE_OK || rc == SQLITE_NOMEM
      ensures Contents <= old(Contents) + {i}
      ensures rc == SQLITE_OK ==> Contents == old(Contents) + {i}
      ensures old(Free(i)) ==> rc == SQLITE_OK && StoredAtHome(i, old(nSet), old(aHash[..]))
      decreases iSize, if iDivisor == 0 then 2 else 0, 2
    {
      if iSize > BITVEC_NBIT && iDivisor > 0 {
        rc := SetInSub(i);
      } else if iSize <= BITVEC_NBIT {
        SetBit(i);
        rc := SQLITE_OK;
      } else {
        var h, found := Probe(i);
        if found {
          rc := SQLITE_OK;
        } else if if h == Home(i, BITVEC_NINT) then nSet < BITVEC_NINT - 1 else nSet < BITVEC_MXHASH {
          Store(i, h);
          rc := SQLITE_OK;
        } else {
          rc := Subdivide(i);
        }
      }
    }

    // bitvec_set_rehash: the values move to sub-bitmaps.
    method Subdivide(i: nat) returns (rc: int)
      requires Valid() && iSize > BITVEC_NBIT && iDivisor == 0 && 0 < i <= iSize
      modifies Repr
      ensures Valid() && fresh(Repr - old(Repr))
      ensures rc == SQLITE_OK || rc == SQLITE_NOMEM
      ensures Contents <= old(Contents) + {i}
      ensures rc == SQLITE_OK ==> Contents == old(Contents) + {i}
      decreases iSize, 1, 0
    {
      var ok: bool := *;
      if !ok {
        return SQLITE_NOMEM;
      }
      var aiValues := aHash[..];
      Divide();
      rc := Set(i);
      var j := 0;
      while j < BITVEC_NINT
        invariant 0 <= j <= BITVEC_NINT && Valid() && iDivisor > 0 && fresh(Repr - old(Repr))
        invariant rc == SQLITE_OK || rc == SQLITE_NOMEM
        invariant Contents <= {i} + Elements(aiValues)
        invariant rc == SQLITE_OK ==> forall k :: 0 <= k < j && aiValues[k] != 0 ==> aiValues[k] in Contents
        invariant rc == SQLITE_OK ==> i in Contents
      {
        if aiValues[j] != 0 {
          assert aiValues[j] in Elements(aiValues);
          var r := Set(aiValues[j]);
          rc := if rc == SQLITE_OK then r else rc;
        }
        j := j + 1;
      }
    }

    // The hash form becomes an empty divided form.
    method Divide()
      requires Valid() && iSize > BITVEC_NBIT && iDivisor == 0
      modifies this`iDivisor, this`Contents, apSub
      ensures Valid() && iDivisor > 0 && Contents == {}
    {
      forall k | 0 <= k < BITVEC_NPTR {
        apSub[k] := null;
      }
      iDivisor := DivisorFor(iSize);
      BinInRange(iSize, 0);
      Contents := {};
    }

    // ---- sqlite3BitvecClear() --------------------------------------------------------------

    // The hash form without i: the other values are entered into an empty table.
    method RebuildHash(i: nat)
      requires Valid() && iSize > BITVEC_NBIT && iDivisor == 0 && i > 0
      modifies this`nSet, this`Contents, aHash
      ensures Valid() && Contents == old(Contents) - {i}
    {
      var aiValues := aHash[..];
      EmptyHash();
      var j := 0;
      while j < BITVEC_NINT
        invariant 0 <= j <= BITVEC_NINT && HashForm() && Shape()
        invariant nSet <= Count(aiValues[..j])
        invariant Contents == Elements(aiValues[..j]) - {i}
      {
        CountNext(aiValues, j);
        ElementsNext(aiValues, j);
        if aiValues[j] != 0 && aiValues[j] != i {
          Enter(aiValues[j]);
        }
        j := j + 1;
      }
      assert aiValues[..j] == aiValues;
    }

    // memset()
    method EmptyHash()
      requires Shape() && iDivisor == 0
      modifies this`nSet, this`Contents, aHash
      ensures Shape() && HashForm() && Contents == {} && nSet == 0
    {
      forall k | 0 <= k < BITVEC_NINT {
        aHash[k] := 0;
      }
      nSet := 0;
      CountZeros(aHash[..]);
      Contents := {};
    }

    // The inner loop of the rebuilding.
    method Enter(v: nat)
      requires Shape() && HashForm() && nSet < BITVEC_NINT - 1 && 0 < v <= iSize && v !in Contents
      modifies this`nSet, this`Contents, aHash
      ensures Shape() && HashForm() && Contents == old(Contents) + {v} && nSet == old(nSet) + 1
    {
      ghost var a := aHash[..];
      var h, found := Probe(v);
      nSet := nSet + 1;
      aHash[h] := v;
      Contents := Contents + {v};
      assert aHash[..] == a[h := v];
      ProbeInserts(a, v, h, aHash[..]);
    }

    method ClearInSub(i: nat)
      requires Valid() && iSize > BITVEC_NBIT && iDivisor > 0 && 0 < i <= iSize
      modifies Repr
      ensures Valid() && fresh(Repr - old(Repr)) && Contents == old(Contents) - {i}
      decreases iSize, 0
    {
      BinInRange(iSize, i - 1);
      var bin, off := Quot(i - 1, iDivisor), Rem(i - 1, iDivisor);
      assert i in Contents <==> InBin(i, bin);
      if apSub[bin] != null {
        var q := apSub[bin];
        q.Clear(off + 1);
        Repr := Repr + q.Repr;
        Contents := Regathered(Contents, i, iDivisor, Sub(bin));
        SubReturned(i);
        SubContents(i);
      }
    }

    method Clear(i: nat)
      requires Valid() && 0 < i <= iSize
      modifies Repr
      ensures Valid() && fresh(Repr - old(Repr)) && Contents == old(Contents) - {i}
      decreases iSize, 1
    {
      if iSize > BITVEC_NBIT && iDivisor > 0 {
        ClearInSub(i);
      } else if iSize <= BITVEC_NBIT {
        ClearBit(i);
      } else {
        RebuildHash(i);
      }
    }
  }
}
