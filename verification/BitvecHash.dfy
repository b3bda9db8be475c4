// The open-addressing hash form of a Bitvec, on the values of its slots: zero
// is an empty slot, a value is found by walking from its home slot to the next
// empty one.
module BitvecHash {
  import opened Division

  // BITVEC_HASH() of the zero-based value.
  function Home(v: nat, n: nat): (h: nat)
    requires v > 0 && n > 0
    ensures h < n
  {
    Rem(v - 1, n)
  }

  // The slot after h, around the end.
  function Next(h: nat, n: nat): nat {
    if h + 1 >= n then 0 else h + 1
  }

  // The number of steps from slot h to slot s.
  function Dist(h: nat, s: nat, n: nat): nat
    requires h < n && s < n
  {
    if s >= h then s - h else s + n - h
  }

  // No value from h on up to slot s meets an empty slot.
  ghost predicate Unbroken(a: seq<nat>, h: nat, s: nat)
    requires h < |a| && s < |a|
  {
    forall k {:trigger a[k]} :: 0 <= k < |a| && Dist(h, k, |a|) < Dist(h, s, |a|) ==> a[k] != 0
  }

  ghost predicate Reachable(a: seq<nat>, s: nat)
    requires s < |a|
  {
    a[s] != 0 ==> Unbroken(a, Home(a[s], |a|), s)
  }

  // The invariant of the slots: every value can be reached from its home slot,
  // and none is stored twice.
  ghost predicate HashOk(a: seq<nat>) {
    && (forall s {:trigger Reachable(a, s)} {:trigger a[s]} :: 0 <= s < |a| ==> Reachable(a, s))
    && (forall s, t {:trigger a[s], a[t]} :: 0 <= s < t < |a| && a[s] != 0 ==> a[s] != a[t])
  }

  ghost function Elements(a: seq<nat>): set<nat> {
    set v | v in a && v != 0
  }

  function Count(a: seq<nat>): (c: nat)
    ensures c <= |a|
  {
    if a == [] then 0 else Count(a[..|a| - 1]) + if a[|a| - 1] != 0 then 1 else 0
  }

  // ---- counting -----------------------------------------------------------------

  lemma {:induction false} CountUpdate(a: seq<nat>, h: nat, v: nat)
    requires h < |a| && a[h] == 0 && v != 0
    ensures Count(a[h := v]) == Count(a) + 1
  {
    var b := a[h := v];
    if h == |a| - 1 {
      assert b[..|a| - 1] == a[..|a| - 1];
    } else {
      assert b[..|a| - 1] == a[..|a| - 1][h := v];
      CountUpdate(a[..|a| - 1], h, v);
    }
  }

  lemma {:induction false} EmptySlot(a: seq<nat>) returns (e: nat)
    requires Count(a) < |a|
    ensures e < |a| && a[e] == 0
  {
    if a[|a| - 1] == 0 {
      e := |a| - 1;
    } else {
      e := EmptySlot(a[..|a| - 1]);
    }
  }

  lemma {:induction false} CountZeros(a: seq<nat>)
    requires forall k :: 0 <= k < |a| ==> a[k] == 0
    ensures Count(a) == 0 && HashOk(a) && Elements(a) == {}
  {
    if a != [] {
      CountZeros(a[..|a| - 1]);
    }
  }

  lemma {:induction false} CountPrefix(a: seq<nat>, j: nat)
    requires j <= |a|
    ensures Count(a[..j]) <= Count(a)
  {
    if j < |a| {
      assert a[..|a| - 1][..j] == a[..j];
      CountPrefix(a[..|a| - 1], j);
    } else {
      assert a[..j] == a;
    }
  }

  // The next value of a table is not among the earlier ones.
  lemma CountNext(a: seq<nat>, j: nat)
    requires j < |a|
    ensures Count(a[..j + 1]) == Count(a[..j]) + if a[j] == 0 then 0 else 1
    ensures Count(a[..j + 1]) <= Count(a)
  {
    CountPrefix(a, j + 1);
    assert a[..j + 1][..j] == a[..j];
  }

  lemma ElementsNext(a: seq<nat>, j: nat)
    requires HashOk(a) && j < |a|
    ensures Elements(a[..j + 1]) == Elements(a[..j]) + if a[j] == 0 then {} else {a[j]}
    ensures a[j] != 0 ==> a[j] in Elements(a) && a[j] !in Elements(a[..j])
  {
    assert a[..j + 1] == a[..j] + [a[j]];
  }

  // ---- probing ----------------------------------------------------------------------

  // The state of a probe for v that has come to slot h: it has met neither v
  // nor an empty slot.
  ghost predicate Probing(a: seq<nat>, v: nat, h: nat) {
    && v > 0 && h < |a|
    && forall k {:trigger a[k]} :: 0 <= k < |a| && Dist(Home(v, |a|), k, |a|) < Dist(Home(v, |a|), h, |a|) ==>
        a[k] != 0 && a[k] != v
  }

  lemma ProbeStarts(a: seq<nat>, v: nat)
    requires v > 0 && a != []
    ensures Probing(a, v, Home(v, |a|))
  {
  }

  // Moving on from an occupied slot, the probe comes nearer to any empty one.
  lemma ProbeMoves(a: seq<nat>, v: nat, h: nat, e: nat)
    requires Probing(a, v, h) && a[h] != 0 && a[h] != v && e < |a| && a[e] == 0
    ensures Probing(a, v, Next(h, |a|)) && Dist(Next(h, |a|), e, |a|) < Dist(h, e, |a|)
  {
    var n, home := |a|, Home(v, |a|);
    assert Dist(home, e, n) >= Dist(home, h, n);
    forall k | 0 <= k < n && Dist(home, k, n) < Dist(home, Next(h, n), n)
      ensures a[k] != 0 && a[k] != v
    {
      assert Dist(home, k, n) < Dist(home, h, n) || k == h;
    }
  }

  // A probe that ends at an empty slot has shown that v is not stored.
  lemma ProbeFails(a: seq<nat>, v: nat, h: nat)
    requires HashOk(a) && Probing(a, v, h) && a[h] == 0
    ensures v !in Elements(a)
  {
    forall k | 0 <= k < |a|
      ensures a[k] != v
    {
      assert Reachable(a, k);
    }
  }

  // And v can be stored there.
  lemma ProbeInserts(a: seq<nat>, v: nat, h: nat, b: seq<nat>)
    requires HashOk(a) && Probing(a, v, h) && a[h] == 0 && b == a[h := v]
    ensures HashOk(b) && Elements(b) == Elements(a) + {v} && Count(b) == Count(a) + 1
  {
    ProbeFails(a, v, h);
    CountUpdate(a, h, v);
    forall s | 0 <= s < |b|
      ensures Reachable(b, s)
    {
      if s != h {
        assert Reachable(a, s);
      }
    }
    forall x | x in Elements(a)
      ensures x in Elements(b)
    {
      var k :| 0 <= k < |a| && a[k] == x;
      assert b[k] == x;
    }
    assert b[h] == v;
  }
}
