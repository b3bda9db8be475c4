// The bitmap form of a Bitvec: an array of bytes, tested and changed through
// one-bit masks.
module BitvecBits {

  // 1 << k
  function Mask(k: nat): bv8
    requires k < 8
  {
    if k == 0 then 1 else if k == 1 then 2 else if k == 2 then 4 else if k == 3 then 8
    else if k == 4 then 16 else if k == 5 then 32 else if k == 6 then 64 else 128
  }

  predicate Bit(b: bv8, k: nat)
    requires k < 8
  {
    b & Mask(k) != 0
  }

  lemma BitAfterSet(b: bv8, j: nat, k: nat)
    requires j < 8 && k < 8
    ensures Bit(b | Mask(j), k) <==> k == j || Bit(b, k)
  {
  }

  lemma BitAfterClear(b: bv8, j: nat, k: nat)
    requires j < 8 && k < 8
    ensures Bit(b & !Mask(j), k) <==> k != j && Bit(b, k)
  {
  }

  lemma NoBits(k: nat)
    requires k < 8
    ensures !Bit(0, k)
  {
  }

  // Bit i of a bitmap.
  predicate BitAt(a: seq<bv8>, i: nat)
    requires i < 8 * |a|
  {
    Bit(a[i / 8], i % 8)
  }

  lemma SetAt(a: seq<bv8>, i: nat, b: seq<bv8>)
    requires i < 8 * |a| && b == a[i / 8 := a[i / 8] | Mask(i % 8)]
    ensures forall k: nat {:trigger BitAt(b, k)} :: k < 8 * |a| ==> (BitAt(b, k) <==> k == i || BitAt(a, k))
  {
    forall k: nat | k < 8 * |a|
      ensures BitAt(b, k) <==> k == i || BitAt(a, k)
    {
      BitAfterSet(a[i / 8], i % 8, k % 8);
    }
  }

  lemma ClearAt(a: seq<bv8>, i: nat, b: seq<bv8>)
    requires i < 8 * |a| && b == a[i / 8 := a[i / 8] & !Mask(i % 8)]
    ensures forall k: nat {:trigger BitAt(b, k)} :: k < 8 * |a| ==> (BitAt(b, k) <==> k != i && BitAt(a, k))
  {
    forall k: nat | k < 8 * |a|
      ensures BitAt(b, k) <==> k != i && BitAt(a, k)
    {
      BitAfterClear(a[i / 8], i % 8, k % 8);
    }
  }
}
