// The lock protocol as the code of one connection: the counts and flags of its
// btrees, updated by sqlite3BtreeEnter() and sqlite3BtreeLeave(), with the
// loops over pNext.  The other connections appear only through
// sqlite3_mutex_try(), which may fail.  A blocking sqlite3_mutex_enter() has
// the precondition that every mutex held has a smaller address.  A BtShared.db is
// set by whoever takes the mutex; once the mutex is free others may set it.
module BtreeConnection {
  import opened BtreeMutex
  import opened Wrappers
  import BtreeMutexCalls

  class Connection {
    const bts: seq<nat>
    const aDb: seq<Option<nat>>
    const wantToLock: array<nat>
    const locked: array<bool>
    var held: set<nat>
    var dbs: set<nat>        // the BtShared whose db is this connection
    var noSharedCache: bool

    ghost predicate Shaped()
      reads this
    {
      && wantToLock.Length == locked.Length == |bts|
      && (forall i, j :: 0 <= i < j < |bts| ==> bts[i] < bts[j])
      && (forall i :: 0 <= i < |aDb| && aDb[i].Some? ==> aDb[i].value < |bts|)
      && (forall i, j :: 0 <= i < j < |aDb| && aDb[i].Some? ==> aDb[i] != aDb[j])
      && (noSharedCache ==> forall i :: 0 <= i < |aDb| ==> aDb[i].None?)
    }

    // The mutexes held are those of the btrees whose locked flag is set, and their
    // BtShared.db is this connection.
    ghost predicate HeldMatches()
      reads this, locked
      requires Shaped()
    {
      && (forall k :: 0 <= k < |bts| ==> (bts[k] in held <==> locked[k]))
      && (forall a :: a in held ==> a in bts)
      && held <= dbs
    }

    // Between calls a btree is locked exactly when it is wanted.
    ghost predicate Valid()
      reads this, wantToLock, locked
    {
      && Shaped() && HeldMatches()
      && forall k :: 0 <= k < |bts| ==> locked[k] == (wantToLock[k] > 0)
    }

    constructor (bts: seq<nat>, aDb: seq<Option<nat>>)
      requires forall i, j :: 0 <= i < j < |bts| ==> bts[i] < bts[j]
      requires forall i :: 0 <= i < |aDb| && aDb[i].Some? ==> aDb[i].value < |bts|
      requires forall i, j :: 0 <= i < j < |aDb| && aDb[i].Some? ==> aDb[i] != aDb[j]
      ensures Valid() && fresh(wantToLock) && fresh(locked)
      ensures this.bts == bts && this.aDb == aDb && held == {} && dbs == {}
    {
      this.bts := bts;
      this.aDb := aDb;
      wantToLock := new nat[|bts|](_ => 0);
      locked := new bool[|bts|](_ => false);
      held, dbs := {}, {};
      noSharedCache := false;
    }

    // sqlite3_mutex_try(): another connection may hold the mutex.
    method MutexTry(k: nat) returns (ok: bool)
      requires Shaped() && HeldMatches() && k < |bts| && !locked[k]
      modifies this`held, this`dbs, locked
      ensures Shaped() && HeldMatches()
      ensures locked[..] == if ok then old(locked[..])[k := true] else old(locked[..])
    {
      ok := *;
      if ok {
        held := held + {bts[k]};
        dbs := dbs + {bts[k]};
        locked[k] := true;
      }
    }

    // lockBtreeMutex(): blocks until the mutex is free.
    method LockBtreeMutex(k: nat)
      requires Shaped() && HeldMatches() && k < |bts| && !locked[k]
      requires forall a :: a in held ==> a < bts[k]
      modifies this`held, this`dbs, locked
      ensures Shaped() && HeldMatches()
      ensures locked[..] == old(locked[..])[k := true] && bts[k] in dbs
    {
      assert bts[k] !in held;
      held := held + {bts[k]};
      dbs := dbs + {bts[k]};
      locked[k] := true;
    }

    // unlockBtreeMutex()
    method UnlockBtreeMutex(k: nat)
      requires Shaped() && HeldMatches() && k < |bts| && locked[k]
      modifies this`held, this`dbs, locked
      ensures Shaped() && HeldMatches()
      ensures locked[..] == old(locked[..])[k := false]
    {
      assert bts[k] in held;
      assert bts[k] in dbs;
      held := held - {bts[k]};
      locked[k] := false;
      if * {
        dbs := dbs - {bts[k]};
      }
    }

    // btreeLockCarefully(): take the lock at once if it is free; otherwise give
    // up the later ones, wait for it, and take those back in address order.
    method BtreeLockCarefully(k: nat)
      requires Shaped() && HeldMatches() && k < |bts| && !locked[k] && wantToLock[k] > 0
      requires forall i :: 0 <= i < |bts| && i != k ==> locked[i] == (wantToLock[i] > 0)
      modifies this`held, this`dbs, locked
      ensures Valid()
    {
      var ok := MutexTry(k);
      if ok {
        return;
      }
      var later := k + 1;
      while later < |bts|
        invariant k < later <= |bts| && Shaped() && HeldMatches()
        invariant forall i :: 0 <= i < |bts| ==> locked[i] == (wantToLock[i] > 0 && !(k <= i < later))
      {
        if locked[later] {
          UnlockBtreeMutex(later);
        }
        later := later + 1;
      }
      LockBtreeMutex(k);
      later := k + 1;
      while later < |bts|
        invariant k < later <= |bts| && Shaped() && HeldMatches()
        invariant forall i :: 0 <= i < |bts| ==> locked[i] == (wantToLock[i] > 0 && i < later)
      {
        if wantToLock[later] > 0 {
          LockBtreeMutex(later);
        }
        later := later + 1;
      }
    }

    // sqlite3BtreeEnter() on a sharable btree.
    method BtreeEnter(k: nat)
      requires Valid() && k < |bts|
      modifies this`held, this`dbs, wantToLock, locked
      ensures Valid()
      ensures wantToLock[..] == old(wantToLock[..])[k := old(wantToLock[k]) + 1]
    {
      wantToLock[k] := wantToLock[k] + 1;
      if locked[k] {
        return;
      }
      BtreeLockCarefully(k);
    }

    // sqlite3BtreeLeave() on a sharable btree.
    method BtreeLeave(k: nat)
      requires Valid() && k < |bts| && wantToLock[k] > 0
      modifies this`held, this`dbs, wantToLock, locked
      ensures Valid()
      ensures wantToLock[..] == old(wantToLock[..])[k := old(wantToLock[k]) - 1]
    {
      wantToLock[k] := wantToLock[k] - 1;
      if wantToLock[k] == 0 {
        UnlockBtreeMutex(k);
      }
    }

    // sqlite3BtreeEnterAll()
    method BtreeEnterAll()
      requires Valid()
      modifies this, wantToLock, locked
      ensures Valid() && AllHeld()
      ensures wantToLock[..] == BtreeMutexCalls.Bumped(old(wantToLock[..]), aDb, |aDb|)
    {
      ghost var base := wantToLock[..];
      if noSharedCache {
        assert wantToLock[..] == BtreeMutexCalls.Bumped(base, aDb, |aDb|);
        return;
      }
      var skipOk := true;
      var i := 0;
      assert wantToLock[..] == BtreeMutexCalls.Bumped(base, aDb, 0);
      while i < |aDb|
        invariant 0 <= i <= |aDb| && Valid()
        invariant wantToLock[..] == BtreeMutexCalls.Bumped(base, aDb, i)
        invariant skipOk == forall l :: 0 <= l < i ==> aDb[l].None?
      {
        BtreeMutexCalls.BumpNext(base, aDb, i);
        if aDb[i].Some? {
          BtreeEnter(aDb[i].value);
          skipOk := false;
        }
        i := i + 1;
      }
      noSharedCache := skipOk;
      forall l | 0 <= l < |aDb| && aDb[l].Some?
        ensures wantToLock[aDb[l].value] > 0
      {
        assert aDb[l] in aDb[..|aDb|];
        assert wantToLock[..][aDb[l].value] == base[aDb[l].value] + 1;
      }
    }

    // sqlite3BtreeLeaveAll(), undoing an EnterAll.
    method BtreeLeaveAll(ghost base: seq<nat>)
      requires Valid() && |base| == |bts|
      requires wantToLock[..] == BtreeMutexCalls.Bumped(base, aDb, |aDb|)
      modifies this, wantToLock, locked
      ensures Valid() && wantToLock[..] == base
    {
      if noSharedCache {
        assert BtreeMutexCalls.Bumped(base, aDb, |aDb|) == base;
        return;
      }
      var i := 0;
      while i < |aDb|
        invariant 0 <= i <= |aDb| && Valid() && Leaving(base, i)
      {
        LeaveSlot(i, base);
        i := i + 1;
      }
      BtreeMutexCalls.BumpInjective(wantToLock[..], base, aDb, |aDb|);
    }

    // The btrees in the slots before the i-th have been left.
    ghost predicate Leaving(base: seq<nat>, i: nat)
      reads this, wantToLock
      requires Shaped() && |base| == |bts| && i <= |aDb|
    {
      && BtreeMutexCalls.Bumped(wantToLock[..], aDb, i) == BtreeMutexCalls.Bumped(base, aDb, |aDb|)
      && forall l :: i <= l < |aDb| && aDb[l].Some? ==> wantToLock[aDb[l].value] == base[aDb[l].value] + 1
    }

    method LeaveSlot(i: nat, ghost base: seq<nat>)
      requires Valid() && |base| == |bts| && i < |aDb| && Leaving(base, i)
      modifies this`held, this`dbs, wantToLock, locked
      ensures Valid() && Leaving(base, i + 1)
    {
      ghost var w := wantToLock[..];
      BtreeMutexCalls.BumpNext(w, aDb, i);
      if aDb[i].Some? {
        BtreeLeave(aDb[i].value);
        BtreeMutexCalls.BumpShift(w, wantToLock[..], aDb, i, aDb[i].value);
      }
    }

    ghost predicate AllHeld()
      reads this, wantToLock, locked
      requires Shaped()
    {
      forall i :: 0 <= i < |aDb| && aDb[i].Some? ==> wantToLock[aDb[i].value] > 0 && bts[aDb[i].value] in held
    }

    // sqlite3BtreeHoldsAllMutexes()
    method HoldsAllMutexes() returns (all: bool)
      requires Valid()
      ensures all == AllHeld()
    {
      var i := 0;
      while i < |aDb|
        invariant 0 <= i <= |aDb|
        invariant forall l :: 0 <= l < i && aDb[l].Some? ==> wantToLock[aDb[l].value] > 0 && bts[aDb[l].value] in held
      {
        if aDb[i].Some? && (wantToLock[aDb[i].value] == 0 || bts[aDb[i].value] !in held) {
          return false;
        }
        i := i + 1;
      }
      return true;
    }
  }
}
