// sqlite3BitvecBuiltinTest(): a sequence of operations is carried out on a
// Bitvec and on a linear array, which are then compared bit by bit.
module BitvecReplay {
  import opened BitvecHash
  import opened BitvecObjects
  import opened Division

  // One step of the test program: opcodes 1 and 3, 2 and 4, and 5.
  datatype Op = SetBoth(i: nat) | ClearBoth(i: nat) | SetArray(i: nat)

  // The set that the Bitvec should stand for,
  function Applied(ops: seq<Op>): set<nat> {
    if ops == [] then {}
    else
      var s := Applied(ops[..|ops| - 1]);
      match ops[|ops| - 1]
      case SetBoth(i) => s + {i}
      case ClearBoth(i) => s - {i}
      case SetArray(_) => s
  }

  // and the one that the array stands for.
  function Recorded(ops: seq<Op>): set<nat> {
    if ops == [] then {}
    else
      var s := Recorded(ops[..|ops| - 1]);
      match ops[|ops| - 1]
      case SetBoth(i) => s + {i}
      case ClearBoth(i) => s - {i}
      case SetArray(i) => s + {i}
  }

  lemma {:induction false} SameWithoutFaults(ops: seq<Op>)
    requires forall op <- ops :: !op.SetArray?
    ensures Applied(ops) == Recorded(ops)
  {
    if ops != [] {
      SameWithoutFaults(ops[..|ops| - 1]);
    }
  }

  // One more operation.
  lemma {:induction false} AppliedOne(ops: seq<Op>, op: Op)
    ensures Applied(ops + [op]) ==
            match op {
              case SetBoth(i) => Applied(ops) + {i}
              case ClearBoth(i) => Applied(ops) - {i}
              case SetArray(_) => Applied(ops)
            }
    ensures Recorded(ops + [op]) ==
            match op {
              case SetBoth(i) => Recorded(ops) + {i}
              case ClearBoth(i) => Recorded(ops) - {i}
              case SetArray(i) => Recorded(ops) + {i}
            }
  {
    assert (ops + [op])[..|ops|] == ops;
  }

  // sqlite3BitvecTest(), where a missing Bitvec holds nothing.
  method BitvecTest(p: Bitvec?, i: nat) returns (b: bool)
    requires p != null ==> p.Valid() && p.iSize < TWO32
    requires i < TWO32
    ensures b <==> p != null && i in p.Contents
  {
    b := false;
    if p != null {
      b := p.TestNotNull(i);
    }
  }

  // Any sequence of operations on a new Bitvec: unless memory runs out, it stands
  // for exactly the set that the operations describe.
  method Replay(sz: nat, ops: seq<Op>, pV: array<bool>) returns (p: Bitvec, rc: int)
    requires 0 < sz < TWO32 - 1 && forall op <- ops :: 1 <= op.i <= sz
    requires pV.Length == sz + 1 && forall x :: 0 <= x <= sz ==> !pV[x]
    modifies pV
    ensures p.Valid() && fresh(p.Repr) && p.iSize == sz && (rc == SQLITE_OK || rc == SQLITE_NOMEM)
    ensures rc == SQLITE_OK ==> p.Contents == Applied(ops) && forall x :: 0 <= x <= sz ==>
              (pV[x] <==> x in Recorded(ops))
  {
    p := new Bitvec(sz);
    rc := SQLITE_OK;
    var n := 0;
    while n < |ops|
      invariant 0 <= n <= |ops| && p.Valid() && fresh(p.Repr) && p.iSize == sz && rc == SQLITE_OK
      invariant p.Contents == Applied(ops[..n])
      invariant forall x :: 0 <= x <= sz ==> (pV[x] <==> x in Recorded(ops[..n]))
    {
      var op := ops[n];
      assert ops[..n + 1] == ops[..n] + [op];
      AppliedOne(ops[..n], op);
      pV[op.i] := !op.ClearBoth?;
      if op.SetBoth? {
        rc := p.Set(op.i);
        if rc != SQLITE_OK {
          return;
        }
      } else if op.ClearBoth? {
        p.Clear(op.i);
      }
      n := n + 1;
    }
    assert ops[..n] == ops;
  }

  // The comparison loop: 0, or the first bit in which the two differ.
  method Compare(p: Bitvec, sz: nat, pV: array<bool>) returns (rc: int)
    requires p.Valid() && p.iSize == sz < TWO32 - 1 && pV.Length == sz + 1
    ensures rc == 0 <==> forall x :: 1 <= x <= sz ==> (pV[x] <==> x in p.Contents)
    ensures rc != 0 ==> 1 <= rc <= sz && (pV[rc] <==> rc !in p.Contents)
  {
    rc := 0;
    var i := 1;
    while i <= sz && rc == 0
      invariant 1 <= i <= sz + 1
      invariant rc == 0 ==> forall x :: 1 <= x < i ==> (pV[x] <==> x in p.Contents)
      invariant rc != 0 ==> 1 <= rc <= sz && (pV[rc] <==> rc !in p.Contents)
      decreases sz + 1 - i, rc == 0
    {
      var b := BitvecTest(p, i);
      if pV[i] != b {
        rc := i;
      } else {
        i := i + 1;
      }
    }
  }

  // The whole test: it reports no difference exactly when there is none, and
  // there is none unless opcode 5 was used.
  method BuiltinTest(sz: nat, ops: seq<Op>) returns (rc: int)
    requires 0 < sz < TWO32 - 1 && forall op <- ops :: 1 <= op.i <= sz
    ensures rc == -1 || (rc == 0 <==> forall x :: 1 <= x <= sz ==> (x in Recorded(ops) <==> x in Applied(ops)))
    ensures (forall op <- ops :: !op.SetArray?) ==> rc == -1 || rc == 0
  {
    var pV := new bool[sz + 1](_ => false);
    var p, r := Replay(sz, ops, pV);
    if r != SQLITE_OK {
      return -1;
    }
    var none := BitvecTest(null, 0);
    var past := BitvecTest(p, sz + 1);
    var zero := BitvecTest(p, 0);
    rc := (if none then 1 else 0) + (if past then 1 else 0) + (if zero then 1 else 0) + (p.iSize - sz);
    var differs := Compare(p, sz, pV);
    if differs != 0 {
      rc := differs;
    }
    if forall op <- ops :: !op.SetArray? {
      SameWithoutFaults(ops);
    }
  }

  // The values from 1 to n - 1.
  function Initial(n: nat): set<nat> {
    if n <= 1 then {} else Initial(n - 1) + {n - 1}
  }

  // The hash holds the values from 1 to n - 1, each in its home slot.
  ghost predicate FilledUpTo(p: Bitvec, n: nat)
    reads p, p.aHash
  {
    && p.iDivisor == 0 && p.nSet == n - 1 && p.Contents == Initial(n) && p.aHash.Length == BITVEC_NINT
    && forall h :: n - 1 <= h < BITVEC_NINT ==> p.aHash[h] == 0
  }

  method FillNext(p: Bitvec, n: nat)
    requires p.Valid() && p.iSize > BITVEC_NBIT && 0 < n < BITVEC_NINT && FilledUpTo(p, n)
    modifies p.Repr
    ensures p.Valid() && fresh(p.Repr - old(p.Repr)) && FilledUpTo(p, n + 1)
  {
    ghost var a := p.aHash[..];
    assert Home(n, BITVEC_NINT) == n - 1;
    var rc := p.Set(n);
    assert p.aHash[..] == a[n - 1 := n];
    assert forall h :: 0 <= h < BITVEC_NINT ==> p.aHash[h] == p.aHash[..][h];
  }

  // Without collisions the hash is not converted at half its size: values with home
  // slots of their own fill all slots but one.
  method FillWithoutCollision(sz: nat) returns (p: Bitvec)
    requires BITVEC_NBIT < sz < TWO32
    ensures p.Valid() && fresh(p.Repr) && p.iDivisor == 0
    ensures p.nSet == BITVEC_NINT - 1 > BITVEC_MXHASH
    ensures p.Contents == Initial(BITVEC_NINT)
  {
    p := new Bitvec(sz);
    var i := 1;
    while i < BITVEC_NINT
      invariant 1 <= i <= BITVEC_NINT && p.Valid() && fresh(p.Repr) && p.iSize == sz && FilledUpTo(p, i)
    {
      FillNext(p, i);
      i := i + 1;
    }
  }
}
