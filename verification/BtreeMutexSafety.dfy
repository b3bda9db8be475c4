// What every interleaving of the lock protocol keeps.
module BtreeMutexSafety {
  import opened BtreeMutex
  import opened Wrappers

  // ---- every step keeps the invariant --------------------------------------------

  // What a step says of its own connection: the same btrees, and a legal place
  // in the protocol.
  ghost predicate GoesOn(s: Sys, x: nat, c: Conn)
    requires x < |s.conns|
  {
    c.bts == s.conns[x].bts && ConnOk(c)
  }

  lemma HeldElsewhere(s: Sys, x: nat, c: Conn, a: nat, t: Sys)
    requires Inv(s) && x < |s.conns| && GoesOn(s, x, c)
    requires t.conns == s.conns[x := c] && Shape(t)
    requires forall l :: 0 <= l < |c.bts| && c.bts[l] == a && s.conns[x].locked[l] ==> c.locked[l]
    requires a in s.owner && a in t.owner && t.owner[a] == s.owner[a]
    ensures HeldIsLocked(t, a)
  {
    assert HeldIsLocked(s, a);
    var y := s.owner[a];
    var l :| 0 <= l < |s.conns[y].bts| && s.conns[y].bts[l] == a && s.conns[y].locked[l];
    assert t.conns[y].bts[l] == a && t.conns[y].locked[l];
  }

  lemma ConnsGoOn(s: Sys, x: nat, c: Conn, t: Sys)
    requires Inv(s) && x < |s.conns| && GoesOn(s, x, c) && t.conns == s.conns[x := c]
    ensures Shape(t)
    ensures forall y {:trigger t.conns[y]} :: 0 <= y < |t.conns| ==> ConnOk(t.conns[y])
  {
    assert forall y {:trigger t.conns[y]} :: 0 <= y < |t.conns| ==> t.conns[y] == if y == x then c else s.conns[y];
  }

  lemma MovingInv(s: Sys, x: nat, c: Conn, t: Sys)
    requires Inv(s) && x < |s.conns| && GoesOn(s, x, c) && c.locked == s.conns[x].locked
    requires t == Moving(s, x, c)
    ensures Inv(t)
  {
    ConnsGoOn(s, x, c, t);
    forall a | a in t.owner
      ensures HeldIsLocked(t, a)
    {
      HeldElsewhere(s, x, c, a, t);
    }
    forall y | 0 <= y < |t.conns|
      ensures HoldsWhatItLocked(t, y)
    {
      HoldsElsewhere(s, x, c, y, t);
    }
  }

  // Mutexes of s that stay held, and locks of s that stay set.
  lemma HoldsElsewhere(s: Sys, x: nat, c: Conn, y: nat, t: Sys)
    requires Inv(s) && x < |s.conns| && y < |s.conns| && GoesOn(s, x, c)
    requires t.conns == s.conns[x := c] && Shape(t)
    requires y == x ==> forall l :: 0 <= l < |c.bts| && c.locked[l] ==> s.conns[x].locked[l]
    requires forall l :: 0 <= l < |t.conns[y].bts| && t.conns[y].locked[l] && s.conns[y].locked[l] ==>
               var a := t.conns[y].bts[l];
               (a in s.owner ==> a in t.owner && t.owner[a] == s.owner[a]) &&
                 (a in s.db ==> a in t.db && t.db[a] == s.db[a])
    ensures HoldsWhatItLocked(t, y)
  {
    assert HoldsWhatItLocked(s, y);
    forall l | 0 <= l < |t.conns[y].bts| && t.conns[y].locked[l]
      ensures t.conns[y].bts[l] in t.owner && t.owner[t.conns[y].bts[l]] == y
      ensures t.conns[y].bts[l] in t.db && t.db[t.conns[y].bts[l]] == y
    {
      assert s.conns[y].locked[l];
    }
  }

  lemma LockingInv(s: Sys, x: nat, c: Conn, k: nat, c': Conn, t: Sys)
    requires Inv(s) && x < |s.conns| && k < |c.bts| == |c.locked| && c.locked == s.conns[x].locked
    requires c.bts[k] !in s.owner
    requires c' == c.(locked := c.locked[k := true]) && GoesOn(s, x, c')
    requires t == Locking(s, x, c, k)
    ensures Inv(t)
  {
    ConnsGoOn(s, x, c', t);
    LockingHolds(s, x, c, k, c', t);
    forall a | a in t.owner
      ensures HeldIsLocked(t, a)
    {
      if a == c.bts[k] {
        assert t.conns[x].bts[k] == a && t.conns[x].locked[k];
      } else {
        HeldElsewhere(s, x, c', a, t);
      }
    }
  }

  lemma LockingHolds(s: Sys, x: nat, c: Conn, k: nat, c': Conn, t: Sys)
    requires Inv(s) && x < |s.conns| && k < |c.bts| == |c.locked| && c.locked == s.conns[x].locked
    requires c.bts[k] !in s.owner
    requires c' == c.(locked := c.locked[k := true]) && GoesOn(s, x, c')
    requires t == Locking(s, x, c, k) && Shape(t)
    ensures forall y {:trigger HoldsWhatItLocked(t, y)} :: 0 <= y < |t.conns| ==> HoldsWhatItLocked(t, y)
  {
    forall y | 0 <= y < |t.conns|
      ensures HoldsWhatItLocked(t, y)
    {
      assert HoldsWhatItLocked(s, y);
      forall l | 0 <= l < |t.conns[y].bts| && t.conns[y].locked[l]
        ensures t.conns[y].bts[l] in t.owner && t.owner[t.conns[y].bts[l]] == y
        ensures t.conns[y].bts[l] in t.db && t.db[t.conns[y].bts[l]] == y
      {
        if y != x || l != k {
          assert s.conns[y].locked[l];
        }
      }
    }
  }

  lemma UnlockingInv(s: Sys, x: nat, c: Conn, k: nat, c': Conn, t: Sys)
    requires Inv(s) && x < |s.conns| && k < |c.bts| == |c.locked| && c.locked == s.conns[x].locked && c.locked[k]
    requires c' == c.(locked := c.locked[k := false]) && GoesOn(s, x, c')
    requires t == Unlocking(s, x, c, k)
    ensures Inv(t)
  {
    ConnsGoOn(s, x, c', t);
    UnlockingHolds(s, x, c, k, c', t);
    forall a | a in t.owner
      ensures HeldIsLocked(t, a)
    {
      HeldElsewhere(s, x, c', a, t);
    }
  }

  lemma UnlockingHolds(s: Sys, x: nat, c: Conn, k: nat, c': Conn, t: Sys)
    requires Inv(s) && x < |s.conns| && k < |c.bts| == |c.locked| && c.locked == s.conns[x].locked && c.locked[k]
    requires c' == c.(locked := c.locked[k := false]) && GoesOn(s, x, c')
    requires t == Unlocking(s, x, c, k) && Shape(t)
    ensures forall y {:trigger HoldsWhatItLocked(t, y)} :: 0 <= y < |t.conns| ==> HoldsWhatItLocked(t, y)
  {
    assert HoldsWhatItLocked(s, x) && s.conns[x].locked[k];
    forall y | 0 <= y < |t.conns|
      ensures HoldsWhatItLocked(t, y)
    {
      assert HoldsWhatItLocked(s, y);
      forall l | 0 <= l < |t.conns[y].bts| && t.conns[y].locked[l]
        ensures t.conns[y].bts[l] in t.owner && t.owner[t.conns[y].bts[l]] == y
        ensures t.conns[y].bts[l] in t.db && t.db[t.conns[y].bts[l]] == y
      {
        assert s.conns[y].locked[l];
      }
    }
  }

  // ---- one connection's place in the protocol ------------------------------------

  lemma TriedOk(c: Conn, k: nat)
    requires ConnOk(c) && c.pc == Trying(k)
    ensures ConnOk(c.(pc := Idle, locked := c.locked[k := true]))
    ensures ConnOk(c.(pc := Releasing(k, k + 1)))
  {
  }

  lemma ReleasedOk(c: Conn, k: nat, j: nat)
    requires ConnOk(c) && c.pc == Releasing(k, j)
    ensures if j == |c.bts| then ConnOk(c.(pc := Acquiring(k)))
            else if c.locked[j] then ConnOk(c.(pc := Releasing(k, j + 1), locked := c.locked[j := false]))
            else ConnOk(c.(pc := Releasing(k, j + 1)))
  {
  }

  lemma AcquiredOk(c: Conn, k: nat)
    requires ConnOk(c) && c.pc == Acquiring(k)
    ensures ConnOk(c.(pc := Relocking(k, k + 1), locked := c.locked[k := true]))
  {
  }

  lemma RelockedOk(c: Conn, k: nat, j: nat)
    requires ConnOk(c) && c.pc == Relocking(k, j)
    ensures if j == |c.bts| then ConnOk(c.(pc := Idle))
            else if c.wantToLock[j] == 0 then ConnOk(c.(pc := Relocking(k, j + 1)))
            else ConnOk(c.(pc := Relocking(k, j + 1), locked := c.locked[j := true]))
  {
  }

  // sqlite3BtreeLeave() only ever unlocks a btree that is locked.
  lemma LeftOk(c: Conn, k: nat, c1: Conn)
    requires ConnShape(c) && LocksOk(c) && c.pc == Idle && k < |c.bts| && c.wantToLock[k] > 0
    requires c1 == c.(wantToLock := c.wantToLock[k := c.wantToLock[k] - 1]) && TaskOk(c1)
    ensures c.locked[k]
    ensures if c1.wantToLock[k] == 0 then ConnOk(c1.(locked := c1.locked[k := false])) else ConnOk(c1)
  {
  }

  lemma EnteredOk(c: Conn, k: nat)
    requires ConnOk(c) && c.pc == Idle && !c.task.LeavingAll? && k < |c.bts|
    ensures ConnOk(EnterCall(c, k))
  {
  }

  lemma TaskAdvancedOk(c: Conn, i: nat)
    requires ConnOk(c) && c.pc == Idle && c.task == EnteringAll(i)
    ensures i == |c.aDb| ==> ConnOk(c.(task := NoTask, noSharedCache := !HasSharable(c)))
    ensures i < |c.aDb| && c.aDb[i].None? ==> ConnOk(c.(task := EnteringAll(i + 1)))
    ensures i < |c.aDb| && c.aDb[i].Some? ==> ConnOk(EnterCall(c.(task := EnteringAll(i + 1)), c.aDb[i].value))
  {
  }

  lemma TaskLeftOk(c: Conn, i: nat)
    requires ConnOk(c) && c.task == LeavingAll(i) && i < |c.aDb| && c.aDb[i].Some?
    ensures var k := c.aDb[i].value;
            c.wantToLock[k] > 0 &&
            TaskOk(c.(task := LeavingAll(i + 1), wantToLock := c.wantToLock[k := c.wantToLock[k] - 1]))
  {
  }

  // ---- steps of the system -----------------------------------------------------------

  lemma LeaveCallInv(s: Sys, x: nat, c: Conn, k: nat, t: Sys)
    requires Inv(s) && x < |s.conns| && ConnShape(c) && k < |c.bts|
    requires c.bts == s.conns[x].bts && c.locked == s.conns[x].locked && c.pc == Idle && LocksOk(c)
    requires TaskOk(c.(wantToLock := c.wantToLock[k := if c.wantToLock[k] == 0 then 0 else c.wantToLock[k] - 1]))
    requires LeaveCall(s, x, c, k) == Some(t)
    ensures Inv(t)
  {
    var c1 := c.(wantToLock := c.wantToLock[k := c.wantToLock[k] - 1]);
    LeftOk(c, k, c1);
    if c1.wantToLock[k] == 0 {
      UnlockingInv(s, x, c1, k, c1.(locked := c1.locked[k := false]), t);
    } else {
      MovingInv(s, x, c1, t);
    }
  }

  lemma EnteringAllInv(s: Sys, x: nat, i: nat, t: Sys)
    requires Inv(s) && x < |s.conns| && s.conns[x].pc == Idle && s.conns[x].task == EnteringAll(i)
    requires RunTask(s, x, s.conns[x]) == Some(t)
    ensures Inv(t)
  {
    var c := s.conns[x];
    assert ConnOk(c);
    TaskAdvancedOk(c, i);
    if i >= |c.aDb| {
      MovingInv(s, x, c.(task := NoTask, noSharedCache := !HasSharable(c)), t);
    } else if c.aDb[i].None? {
      MovingInv(s, x, c.(task := EnteringAll(i + 1)), t);
    } else {
      MovingInv(s, x, EnterCall(c.(task := EnteringAll(i + 1)), c.aDb[i].value), t);
    }
  }

  lemma LeavingAllInv(s: Sys, x: nat, i: nat, t: Sys)
    requires Inv(s) && x < |s.conns| && s.conns[x].pc == Idle && s.conns[x].task == LeavingAll(i)
    requires RunTask(s, x, s.conns[x]) == Some(t)
    ensures Inv(t)
  {
    var c := s.conns[x];
    assert ConnOk(c);
    if i >= |c.aDb| {
      MovingInv(s, x, c.(task := NoTask), t);
    } else if c.aDb[i].None? {
      MovingInv(s, x, c.(task := LeavingAll(i + 1)), t);
    } else {
      TaskLeftOk(c, i);
      LeaveCallInv(s, x, c.(task := LeavingAll(i + 1)), c.aDb[i].value, t);
    }
  }

  lemma TryStepInv(s: Sys, x: nat, k: nat, t: Sys)
    requires Inv(s) && x < |s.conns| && s.conns[x].pc == Trying(k)
    requires RunStep(s, x, s.conns[x]) == Some(t)
    ensures Inv(t)
  {
    var c := s.conns[x];
    assert ConnOk(c);
    TriedOk(c, k);
    if c.bts[k] !in s.owner {
      LockingInv(s, x, c.(pc := Idle), k, c.(pc := Idle, locked := c.locked[k := true]), t);
    } else {
      MovingInv(s, x, c.(pc := Releasing(k, k + 1)), t);
    }
  }

  lemma ReleaseStepInv(s: Sys, x: nat, k: nat, j: nat, t: Sys)
    requires Inv(s) && x < |s.conns| && s.conns[x].pc == Releasing(k, j)
    requires RunStep(s, x, s.conns[x]) == Some(t)
    ensures Inv(t)
  {
    var c := s.conns[x];
    assert ConnOk(c);
    ReleasedOk(c, k, j);
    if j == |c.bts| {
      MovingInv(s, x, c.(pc := Acquiring(k)), t);
    } else if c.locked[j] {
      var c1 := c.(pc := Releasing(k, j + 1));
      UnlockingInv(s, x, c1, j, c1.(locked := c1.locked[j := false]), t);
    } else {
      MovingInv(s, x, c.(pc := Releasing(k, j + 1)), t);
    }
  }

  lemma AcquireStepInv(s: Sys, x: nat, k: nat, t: Sys)
    requires Inv(s) && x < |s.conns| && s.conns[x].pc == Acquiring(k)
    requires RunStep(s, x, s.conns[x]) == Some(t)
    ensures Inv(t)
  {
    var c := s.conns[x];
    assert ConnOk(c);
    AcquiredOk(c, k);
    var c1 := c.(pc := Relocking(k, k + 1));
    LockingInv(s, x, c1, k, c1.(locked := c1.locked[k := true]), t);
  }

  lemma RelockStepInv(s: Sys, x: nat, k: nat, j: nat, t: Sys)
    requires Inv(s) && x < |s.conns| && s.conns[x].pc == Relocking(k, j)
    requires RunStep(s, x, s.conns[x]) == Some(t)
    ensures Inv(t)
  {
    var c := s.conns[x];
    assert ConnOk(c);
    RelockedOk(c, k, j);
    if j == |c.bts| {
      MovingInv(s, x, c.(pc := Idle), t);
    } else if c.wantToLock[j] == 0 {
      MovingInv(s, x, c.(pc := Relocking(k, j + 1)), t);
    } else {
      var c1 := c.(pc := Relocking(k, j + 1));
      LockingInv(s, x, c1, j, c1.(locked := c1.locked[j := true]), t);
    }
  }

  lemma RunStepInv(s: Sys, x: nat, t: Sys)
    requires Inv(s) && x < |s.conns| && RunStep(s, x, s.conns[x]) == Some(t)
    ensures Inv(t)
  {
    var c := s.conns[x];
    match c.pc {
      case Trying(k) => TryStepInv(s, x, k, t);
      case Releasing(k, j) => ReleaseStepInv(s, x, k, j, t);
      case Acquiring(k) => AcquireStepInv(s, x, k, t);
      case Relocking(k, j) => RelockStepInv(s, x, k, j, t);
      case Idle =>
        if c.task.EnteringAll? {
          EnteringAllInv(s, x, c.task.i, t);
        } else {
          LeavingAllInv(s, x, c.task.i, t);
        }
    }
  }

  lemma CallInv(s: Sys, x: nat, act: Act, t: Sys)
    requires Inv(s) && act != Run && Step(s, x, act) == Some(t)
    ensures Inv(t)
  {
    var c := s.conns[x];
    assert ConnOk(c);
    match act {
      case Enter(k) =>
        EnteredOk(c, k);
        MovingInv(s, x, EnterCall(c, k), t);
      case Leave(k) =>
        LeaveCallInv(s, x, c, k, t);
      case EnterAll =>
        MovingInv(s, x, if c.noSharedCache then c else c.(task := EnteringAll(0)), t);
      case LeaveAll =>
        MovingInv(s, x, if c.noSharedCache then c else c.(task := LeavingAll(0)), t);
    }
  }

  // Every step keeps the invariant.
  lemma StepInv(s: Sys, x: nat, act: Act, t: Sys)
    requires Inv(s) && Step(s, x, act) == Some(t)
    ensures Inv(t)
  {
    if act == Run {
      RunStepInv(s, x, t);
    } else {
      CallInv(s, x, act, t);
    }
  }

  // A run: each event is an act of some connection.
  datatype Event = Event(conn: nat, act: Act)

  ghost function After(s: Sys, run: seq<Event>): Option<Sys>
    requires Shape(s)
  {
    if run == [] then Some(s)
    else
      match After(s, run[..|run| - 1])
      case None => None
      case Some(t) =>
        if Shape(t) then Step(t, run[|run| - 1].conn, run[|run| - 1].act) else None
  }

  // Every state that an interleaving reaches satisfies the invariant.
  lemma {:induction false} RunInv(s: Sys, run: seq<Event>)
    requires Initial(s) && After(s, run).Some?
    ensures Inv(After(s, run).value)
  {
    if run == [] {
      forall x | 0 <= x < |s.conns|
        ensures ConnOk(s.conns[x]) && HoldsWhatItLocked(s, x)
      {
        assert AtRest(s.conns[x]);
      }
    } else {
      RunInv(s, run[..|run| - 1]);
      StepInv(After(s, run[..|run| - 1]).value, run[|run| - 1].conn, run[|run| - 1].act, After(s, run).value);
    }
  }
}
