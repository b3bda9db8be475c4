// What a completed call has done, whatever the other connections did in the
// meantime: Enter and Leave form a recursive lock, EnterAll takes every
// sharable btree and LeaveAll undoes it.
module BtreeMutexCalls {
  import opened BtreeMutex
  import opened Wrappers
  import opened BtreeMutexSafety
  import opened BtreeMutexProgress

  // The events of one call of connection x: x makes no other call.
  ghost predicate OnlyRuns(run: seq<Event>, x: nat) {
    forall i :: 0 <= i < |run| && run[i].conn == x ==> run[i].act == Run
  }

  // The source's sqlite3BtreeHoldsAllMutexes().
  ghost predicate HoldsAllMutexes(s: Sys, x: nat)
    requires Shape(s) && x < |s.conns|
  {
    forall i :: 0 <= i < |s.conns[x].aDb| && s.conns[x].aDb[i].Some? ==>
      && s.conns[x].wantToLock[s.conns[x].aDb[i].value] > 0
      && Holds(s, x, s.conns[x].bts[s.conns[x].aDb[i].value])
  }

  // Exactly the wanted btrees are locked, and their mutexes held.
  ghost predicate LocksMatch(s: Sys, x: nat)
    requires Shape(s) && x < |s.conns|
  {
    forall k :: 0 <= k < |s.conns[x].bts| ==>
      && s.conns[x].locked[k] == (s.conns[x].wantToLock[k] > 0)
      && Holds(s, x, s.conns[x].bts[k]) == (s.conns[x].wantToLock[k] > 0)
  }

  lemma AtRestMatches(s: Sys, x: nat)
    requires Inv(s) && x < |s.conns| && AtRest(s.conns[x])
    ensures LocksMatch(s, x)
  {
    var c := s.conns[x];
    assert ConnOk(c) && HoldsWhatItLocked(s, x);
    forall k | 0 <= k < |c.bts|
      ensures Holds(s, x, c.bts[k]) == c.locked[k]
    {
      if Holds(s, x, c.bts[k]) {
        assert HeldIsLocked(s, c.bts[k]);
        var l :| 0 <= l < |c.bts| && c.bts[l] == c.bts[k] && c.locked[l];
        assert l == k;
      }
    }
  }

  // The counts of a connection, relative to those at the start of the call:
  // EnterAll has added one for each btree in the slots before the next one,
  // LeaveAll has subtracted one.
  function Bumped(base: seq<nat>, aDb: seq<Option<nat>>, i: nat): seq<nat>
    requires i <= |aDb|
  {
    seq(|base|, k requires 0 <= k < |base| => base[k] + if Some(k) in aDb[..i] then 1 else 0)
  }

  ghost predicate Between(c: Conn, c0: Conn) {
    c.bts == c0.bts && c.aDb == c0.aDb
  }

  ghost predicate EnterProgress(c: Conn, c0: Conn, k: nat) {
    && Between(c, c0) && c.task == NoTask && k < |c0.wantToLock|
    && c.wantToLock == c0.wantToLock[k := c0.wantToLock[k] + 1]
  }

  ghost predicate EnterAllProgress(c: Conn, c0: Conn) {
    && Between(c, c0) && !c.task.LeavingAll?
    && (c.task.EnteringAll? ==> c.task.i <= |c.aDb|)
    && c.wantToLock == Bumped(c0.wantToLock, c.aDb, if c.task.EnteringAll? then c.task.i else |c.aDb|)
  }

  ghost predicate LeaveAllProgress(c: Conn, c0: Conn) {
    && Between(c, c0) && !c.task.EnteringAll?
    && (c.task.LeavingAll? ==> c.task.i <= |c.aDb|)
    && c0.wantToLock == Bumped(c.wantToLock, c.aDb, if c.task.LeavingAll? then c.task.i else |c.aDb|)
  }

  lemma BumpNext(base: seq<nat>, aDb: seq<Option<nat>>, i: nat)
    requires i < |aDb|
    requires forall l, m :: 0 <= l < m < |aDb| && aDb[l].Some? ==> aDb[l] != aDb[m]
    ensures aDb[i].None? ==> Bumped(base, aDb, i + 1) == Bumped(base, aDb, i)
    ensures aDb[i].Some? && aDb[i].value < |base| ==>
      Bumped(base, aDb, i + 1) == Bumped(base, aDb, i)[aDb[i].value := base[aDb[i].value] + 1]
      && Bumped(base, aDb, i)[aDb[i].value] == base[aDb[i].value]
  {
    assert aDb[..i + 1] == aDb[..i] + [aDb[i]];
    if aDb[i].Some? && aDb[i].value < |base| {
      assert aDb[i] !in aDb[..i];
    }
  }

  ghost predicate SameFixed(c: Conn, c0: Conn) {
    Between(c, c0) && (c.task == NoTask && c0.task == NoTask ==> c.noSharedCache == c0.noSharedCache)
  }

  lemma UnlockKeepsRest(t: Sys, x: nat, u: Sys)
    requires Shape(t) && x < |t.conns| && (t.conns[x].pc.Trying? || t.conns[x].pc.Releasing?)
    requires RunStep(t, x, t.conns[x]) == Some(u)
    ensures x < |u.conns| && u.conns[x] == t.conns[x].(pc := u.conns[x].pc, locked := u.conns[x].locked)
  {
  }

  lemma RelockKeepsRest(t: Sys, x: nat, u: Sys)
    requires Shape(t) && x < |t.conns| && (t.conns[x].pc.Acquiring? || t.conns[x].pc.Relocking?)
    requires RunStep(t, x, t.conns[x]) == Some(u)
    ensures x < |u.conns| && u.conns[x] == t.conns[x].(pc := u.conns[x].pc, locked := u.conns[x].locked)
  {
  }

  lemma LockKeepsRest(t: Sys, x: nat, u: Sys)
    requires Shape(t) && x < |t.conns| && t.conns[x].pc != Idle && Step(t, x, Run) == Some(u)
    ensures x < |u.conns| && u.conns[x] == t.conns[x].(pc := u.conns[x].pc, locked := u.conns[x].locked)
  {
    if t.conns[x].pc.Trying? || t.conns[x].pc.Releasing? {
      UnlockKeepsRest(t, x, u);
    } else {
      RelockKeepsRest(t, x, u);
    }
  }

  // A step of btreeLockCarefully() moves locks, not counts.
  lemma RunKeepsRest(t: Sys, x: nat, u: Sys)
    requires Shape(t) && x < |t.conns| && t.conns[x].task == NoTask && Step(t, x, Run) == Some(u)
    ensures x < |u.conns| && u.conns[x].task == NoTask && SameFixed(u.conns[x], t.conns[x])
    ensures u.conns[x].wantToLock == t.conns[x].wantToLock
  {
    LockKeepsRest(t, x, u);
  }

  lemma EnterRuns(s: Sys, x: nat, c0: Conn, k: nat, t: Sys)
    requires Inv(s) && x < |s.conns| && EnterProgress(s.conns[x], c0, k) && Step(s, x, Run) == Some(t)
    ensures EnterProgress(t.conns[x], c0, k)
  {
    RunKeepsRest(s, x, t);
  }

  lemma EnterAllRuns(s: Sys, x: nat, c0: Conn, t: Sys)
    requires Inv(s) && x < |s.conns| && EnterAllProgress(s.conns[x], c0) && Step(s, x, Run) == Some(t)
    ensures EnterAllProgress(t.conns[x], c0)
  {
    var c := s.conns[x];
    if c.pc != Idle {
      LockKeepsRest(s, x, t);
    } else {
      assert ConnOk(c);
      if c.task.i < |c.aDb| {
        BumpNext(c0.wantToLock, c.aDb, c.task.i);
      }
    }
  }

  lemma LeaveAllRuns(s: Sys, x: nat, c0: Conn, t: Sys)
    requires Inv(s) && x < |s.conns| && LeaveAllProgress(s.conns[x], c0) && Step(s, x, Run) == Some(t)
    ensures LeaveAllProgress(t.conns[x], c0)
  {
    var c, c' := s.conns[x], t.conns[x];
    if c.pc != Idle {
      LockKeepsRest(s, x, t);
    } else {
      assert ConnOk(c);
      if c.task.i < |c.aDb| {
        var i := c.task.i;
        if c.aDb[i].Some? {
          BumpShift(c.wantToLock, c'.wantToLock, c.aDb, i, c.aDb[i].value);
        } else {
          BumpNext(c.wantToLock, c.aDb, i);
        }
      }
    }
  }

  lemma BumpShift(w: seq<nat>, w': seq<nat>, aDb: seq<Option<nat>>, i: nat, k: nat)
    requires i < |aDb| && k < |w| && w[k] > 0 && w' == w[k := w[k] - 1] && aDb[i] == Some(k)
    requires forall l, m :: 0 <= l < m < |aDb| && aDb[l].Some? ==> aDb[l] != aDb[m]
    ensures Bumped(w', aDb, i + 1) == Bumped(w, aDb, i)
  {
    assert aDb[..i + 1] == aDb[..i] + [Some(k)];
    assert Some(k) !in aDb[..i];
  }

  // ---- whole calls -------------------------------------------------------------------

  ghost function AfterCall(s: Sys, x: nat, call: Act, run: seq<Event>): Option<Sys>
    requires Shape(s)
  {
    match Step(s, x, call)
    case None => None
    case Some(t) => if Shape(t) then After(t, run) else None
  }

  lemma {:induction false} AfterInv(s: Sys, run: seq<Event>)
    requires Inv(s) && After(s, run).Some?
    ensures Inv(After(s, run).value)
    ensures |After(s, run).value.conns| == |s.conns|
  {
    if run != [] {
      AfterInv(s, run[..|run| - 1]);
      var t, e := After(s, run[..|run| - 1]).value, run[|run| - 1];
      var u := After(s, run).value;
      StepInv(t, e.conn, e.act, u);
      OthersStay(t, e.conn, e.act, u);
    }
  }

  lemma {:induction false} EnterThroughout(s: Sys, x: nat, c0: Conn, k: nat, run: seq<Event>)
    requires Inv(s) && x < |s.conns| && EnterProgress(s.conns[x], c0, k)
    requires OnlyRuns(run, x) && After(s, run).Some?
    ensures |After(s, run).value.conns| == |s.conns| && EnterProgress(After(s, run).value.conns[x], c0, k)
  {
    if run != [] {
      var front, e := run[..|run| - 1], run[|run| - 1];
      EnterThroughout(s, x, c0, k, front);
      AfterInv(s, front);
      var t, u := After(s, front).value, After(s, run).value;
      OthersStay(t, e.conn, e.act, u);
      if e.conn == x {
        EnterRuns(t, x, c0, k, u);
      }
    }
  }

  lemma {:induction false} EnterAllThroughout(s: Sys, x: nat, c0: Conn, run: seq<Event>)
    requires Inv(s) && x < |s.conns| && EnterAllProgress(s.conns[x], c0)
    requires OnlyRuns(run, x) && After(s, run).Some?
    ensures |After(s, run).value.conns| == |s.conns| && EnterAllProgress(After(s, run).value.conns[x], c0)
  {
    if run != [] {
      var front, e := run[..|run| - 1], run[|run| - 1];
      EnterAllThroughout(s, x, c0, front);
      AfterInv(s, front);
      var t, u := After(s, front).value, After(s, run).value;
      OthersStay(t, e.conn, e.act, u);
      if e.conn == x {
        EnterAllRuns(t, x, c0, u);
      }
    }
  }

  lemma {:induction false} LeaveAllThroughout(s: Sys, x: nat, c0: Conn, run: seq<Event>)
    requires Inv(s) && x < |s.conns| && LeaveAllProgress(s.conns[x], c0)
    requires OnlyRuns(run, x) && After(s, run).Some?
    ensures |After(s, run).value.conns| == |s.conns| && LeaveAllProgress(After(s, run).value.conns[x], c0)
  {
    if run != [] {
      var front, e := run[..|run| - 1], run[|run| - 1];
      LeaveAllThroughout(s, x, c0, front);
      AfterInv(s, front);
      var t, u := After(s, front).value, After(s, run).value;
      OthersStay(t, e.conn, e.act, u);
      if e.conn == x {
        LeaveAllRuns(t, x, c0, u);
      }
    }
  }

  // sqlite3BtreeEnter() counts once more on btree k and leaves every other
  // count as it was; all the locks given up on the way are held again.
  lemma EnterIsRecursiveLock(s: Sys, x: nat, k: nat, run: seq<Event>, t: Sys)
    requires Inv(s) && x < |s.conns| && k < |s.conns[x].bts| && AtRest(s.conns[x])
    requires OnlyRuns(run, x) && AfterCall(s, x, Enter(k), run) == Some(t)
    requires x < |t.conns| && AtRest(t.conns[x])
    ensures Inv(t) && LocksMatch(t, x)
    ensures t.conns[x].wantToLock == s.conns[x].wantToLock[k := s.conns[x].wantToLock[k] + 1]
  {
    var s1 := Step(s, x, Enter(k)).value;
    StepInv(s, x, Enter(k), s1);
    EnterThroughout(s1, x, s.conns[x], k, run);
    AfterInv(s1, run);
    AtRestMatches(t, x);
  }

  lemma RestDetermined(c: Conn, d: Conn)
    requires ConnOk(c) && ConnOk(d) && AtRest(c) && AtRest(d)
    requires Between(c, d) && c.noSharedCache == d.noSharedCache && c.wantToLock == d.wantToLock
    ensures c == d
  {
    assert c.locked == d.locked;
  }

  lemma {:induction false} EnterKeepsRest(s: Sys, x: nat, run: seq<Event>)
    requires Inv(s) && x < |s.conns| && s.conns[x].task == NoTask
    requires OnlyRuns(run, x) && After(s, run).Some?
    ensures |After(s, run).value.conns| == |s.conns|
    ensures After(s, run).value.conns[x].task == NoTask && SameFixed(After(s, run).value.conns[x], s.conns[x])
  {
    if run != [] {
      var front, e := run[..|run| - 1], run[|run| - 1];
      EnterKeepsRest(s, x, front);
      AfterInv(s, front);
      var t, u := After(s, front).value, After(s, run).value;
      OthersStay(t, e.conn, e.act, u);
      if e.conn == x {
        RunKeepsRest(t, x, u);
      }
    }
  }

  lemma LeaveAtRest(t: Sys, x: nat, k: nat, c0: Conn)
    requires Inv(t) && x < |t.conns| && AtRest(t.conns[x])
    requires ConnOk(c0) && AtRest(c0) && k < |c0.bts|
    requires Between(t.conns[x], c0) && t.conns[x].noSharedCache == c0.noSharedCache
    requires t.conns[x].wantToLock == c0.wantToLock[k := c0.wantToLock[k] + 1]
    ensures Step(t, x, Leave(k)).Some?
    ensures Inv(Step(t, x, Leave(k)).value) && Step(t, x, Leave(k)).value.conns[x] == c0
  {
    assert ConnOk(t.conns[x]);
    var u := Step(t, x, Leave(k)).value;
    StepInv(t, x, Leave(k), u);
    assert ConnOk(u.conns[x]);
    assert u.conns[x].wantToLock == c0.wantToLock;
    RestDetermined(c0, u.conns[x]);
  }

  // Leave undoes Enter, at once.
  lemma LeaveUndoesEnter(s: Sys, x: nat, k: nat, run: seq<Event>, t: Sys)
    requires Inv(s) && x < |s.conns| && k < |s.conns[x].bts| && AtRest(s.conns[x])
    requires OnlyRuns(run, x) && AfterCall(s, x, Enter(k), run) == Some(t)
    requires x < |t.conns| && AtRest(t.conns[x]) && Shape(t)
    ensures Step(t, x, Leave(k)).Some?
    ensures Inv(Step(t, x, Leave(k)).value) && Step(t, x, Leave(k)).value.conns[x] == s.conns[x]
  {
    EnterIsRecursiveLock(s, x, k, run, t);
    var s1 := Step(s, x, Enter(k)).value;
    StepInv(s, x, Enter(k), s1);
    EnterKeepsRest(s1, x, run);
    assert ConnOk(s.conns[x]);
    LeaveAtRest(t, x, k, s.conns[x]);
  }

  // The asserts of lockBtreeMutex() and unlockBtreeMutex(), wherever a
  // connection is about to call them.
  lemma MutexAsserts(s: Sys, x: nat, i: nat)
    requires Inv(s) && x < |s.conns| && i < |s.conns[x].bts|
    ensures s.conns[x].pc.Acquiring? && s.conns[x].pc.k == i ==>
              !s.conns[x].locked[i] && !Holds(s, x, s.conns[x].bts[i])
    ensures s.conns[x].pc.Relocking? && s.conns[x].pc.j == i && s.conns[x].wantToLock[i] > 0 ==>
              !s.conns[x].locked[i] && !Holds(s, x, s.conns[x].bts[i])
    ensures s.conns[x].locked[i] ==>
              && s.conns[x].wantToLock[i] > 0 && Holds(s, x, s.conns[x].bts[i])
              && s.conns[x].bts[i] in s.db && s.db[s.conns[x].bts[i]] == x
    ensures s.conns[x].pc == Idle && s.conns[x].wantToLock[i] == 1 ==> s.conns[x].locked[i]
  {
    var c := s.conns[x];
    assert ConnOk(c) && HoldsWhatItLocked(s, x);
    if Holds(s, x, c.bts[i]) {
      assert HeldIsLocked(s, c.bts[i]);
      var l :| 0 <= l < |c.bts| && c.bts[l] == c.bts[i] && c.locked[l];
      assert l == i;
    }
  }

  lemma NothingToEnter(s: Sys, x: nat)
    requires Inv(s) && x < |s.conns| && s.conns[x].noSharedCache
    ensures Bumped(s.conns[x].wantToLock, s.conns[x].aDb, |s.conns[x].aDb|) == s.conns[x].wantToLock
  {
    assert ConnOk(s.conns[x]);
  }

  // After EnterAll every mutex needed is held, although the btrees were locked
  // in the order of db->aDb[], not of their addresses.
  lemma EnterAllHoldsAll(s: Sys, x: nat, run: seq<Event>, t: Sys)
    requires Inv(s) && x < |s.conns| && AtRest(s.conns[x])
    requires OnlyRuns(run, x) && AfterCall(s, x, EnterAll, run) == Some(t)
    requires x < |t.conns| && AtRest(t.conns[x])
    ensures Inv(t) && LocksMatch(t, x) && HoldsAllMutexes(t, x)
    ensures t.conns[x].aDb == s.conns[x].aDb && t.conns[x].bts == s.conns[x].bts
    ensures t.conns[x].wantToLock == Bumped(s.conns[x].wantToLock, s.conns[x].aDb, |s.conns[x].aDb|)
  {
    var s1 := Step(s, x, EnterAll).value;
    StepInv(s, x, EnterAll, s1);
    if s.conns[x].noSharedCache {
      NothingToEnter(s, x);
    }
    EnterAllThroughout(s1, x, s.conns[x], run);
    AfterInv(s1, run);
    AtRestMatches(t, x);
    assert ConnOk(t.conns[x]);
    forall i | 0 <= i < |t.conns[x].aDb| && t.conns[x].aDb[i].Some?
      ensures t.conns[x].wantToLock[t.conns[x].aDb[i].value] > 0
    {
      var k := t.conns[x].aDb[i].value;
      assert Some(k) in t.conns[x].aDb[..|t.conns[x].aDb|];
    }
  }

  // LeaveAll, called when EnterAll has returned, restores every count.
  lemma LeaveAllUndoes(s: Sys, x: nat, run1: seq<Event>, t: Sys, run2: seq<Event>, u: Sys)
    requires Inv(s) && x < |s.conns| && AtRest(s.conns[x])
    requires OnlyRuns(run1, x) && AfterCall(s, x, EnterAll, run1) == Some(t)
    requires x < |t.conns| && AtRest(t.conns[x]) && Shape(t)
    requires OnlyRuns(run2, x) && AfterCall(t, x, LeaveAll, run2) == Some(u)
    requires x < |u.conns| && AtRest(u.conns[x])
    ensures Inv(u) && LocksMatch(u, x)
    ensures u.conns[x].wantToLock == s.conns[x].wantToLock
  {
    EnterAllHoldsAll(s, x, run1, t);
    var t1 := Step(t, x, LeaveAll).value;
    StepInv(t, x, LeaveAll, t1);
    if t.conns[x].noSharedCache {
      NothingToEnter(t, x);
    }
    LeaveAllThroughout(t1, x, t.conns[x], run2);
    AfterInv(t1, run2);
    AtRestMatches(u, x);
    BumpInjective(s.conns[x].wantToLock, u.conns[x].wantToLock, s.conns[x].aDb, |s.conns[x].aDb|);
  }

  lemma BumpInjective(v: seq<nat>, w: seq<nat>, aDb: seq<Option<nat>>, i: nat)
    requires i <= |aDb| && Bumped(v, aDb, i) == Bumped(w, aDb, i)
    ensures v == w
  {
    assert |v| == |Bumped(v, aDb, i)| == |w|;
    forall k | 0 <= k < |v|
      ensures v[k] == w[k]
    {
      assert Bumped(v, aDb, i)[k] == Bumped(w, aDb, i)[k];
    }
  }
}
