// Liveness of the lock protocol: waiting goes up the address order, so some
// connection can always move, and each call has a bound on its own steps.
module BtreeMutexProgress {
  import opened BtreeMutex
  import opened Wrappers
  import opened BtreeMutexSafety

  // The mutex a connection is about to take in a blocking way.
  function Wanted(c: Conn): Option<nat>
    requires ConnShape(c)
  {
    match c.pc
    case Acquiring(k) => Some(c.bts[k])
    case Relocking(k, j) => if j < |c.bts| && c.wantToLock[j] > 0 then Some(c.bts[j]) else None
    case _ => None
  }

  ghost predicate Holds(s: Sys, x: nat, a: nat) {
    a in s.owner && s.owner[a] == x
  }

  // The connection cannot take its next step.
  ghost predicate Blocked(s: Sys, x: nat)
    requires Shape(s) && x < |s.conns|
  {
    !AtRest(s.conns[x]) && RunStep(s, x, s.conns[x]).None?
  }

  // A connection waits only for a mutex that another one holds, and holds only
  // mutexes with smaller addresses itself.
  lemma WaitsUpward(s: Sys, x: nat)
    requires Inv(s) && x < |s.conns| && Blocked(s, x)
    ensures Wanted(s.conns[x]).Some?
    ensures Wanted(s.conns[x]).value in s.owner
    ensures s.owner[Wanted(s.conns[x]).value] < |s.conns| && s.owner[Wanted(s.conns[x]).value] != x
    ensures forall a: nat :: Holds(s, x, a) ==> a < Wanted(s.conns[x]).value
  {
    var c := s.conns[x];
    assert ConnOk(c);
    BlockedIsWaiting(s, x);
    var w := Wanted(c).value;
    assert HeldIsLocked(s, w);
    forall a: nat | Holds(s, x, a)
      ensures a < w
    {
      assert HeldIsLocked(s, a);
      var l :| 0 <= l < |c.bts| && c.bts[l] == a && c.locked[l];
      HeldBelow(c, l);
    }
  }

  lemma HeldBelow(c: Conn, l: nat)
    requires ConnOk(c) && Wanted(c).Some? && l < |c.bts| && c.locked[l]
    ensures c.bts[l] < Wanted(c).value
  {
  }

  // The loops over db->aDb[] never wait by themselves.
  lemma TaskGoesOn(s: Sys, x: nat, c: Conn)
    requires x < |s.conns| && ConnOk(c)
    ensures c.pc == Idle && c.task != NoTask ==> RunTask(s, x, c).Some?
  {
    if c.task.LeavingAll? && c.task.i < |c.aDb| && c.aDb[c.task.i].Some? {
      TaskLeftOk(c, c.task.i);
    }
  }

  lemma BlockedIsWaiting(s: Sys, x: nat)
    requires Inv(s) && x < |s.conns| && Blocked(s, x)
    ensures Wanted(s.conns[x]).Some? && Wanted(s.conns[x]).value in s.owner
  {
    var c := s.conns[x];
    assert ConnOk(c);
    TaskGoesOn(s, x, c);
  }

  // The connection can act: it takes the next step of its call, or it is
  // between calls, holds a mutex and can leave that btree.
  ghost predicate CanMove(s: Sys, x: nat)
    requires Shape(s) && x < |s.conns|
  {
    || (!AtRest(s.conns[x]) && Step(s, x, Run).Some?)
    || (AtRest(s.conns[x]) &&
        exists k :: 0 <= k < |s.conns[x].bts| && s.conns[x].locked[k] && Step(s, x, Leave(k)).Some?)
  }

  lemma HolderCanMove(s: Sys, y: nat, a: nat)
    requires Inv(s) && y < |s.conns| && Holds(s, y, a) && !Blocked(s, y)
    ensures CanMove(s, y)
  {
    if AtRest(s.conns[y]) {
      assert HeldIsLocked(s, a);
      var k :| 0 <= k < |s.conns[y].bts| && s.conns[y].bts[k] == a && s.conns[y].locked[k];
      assert ConnOk(s.conns[y]);
      assert Step(s, y, Leave(k)).Some?;
    }
  }

  // Following who holds what, a blocked connection leads to one that can move:
  // along the way the mutexes waited for strictly increase.
  lemma {:induction false} NoDeadlock(s: Sys, x: nat, bound: nat) returns (y: nat, a: nat)
    requires Inv(s) && x < |s.conns| && Blocked(s, x)
    requires forall b :: b in s.owner ==> b <= bound
    ensures y < |s.conns| && CanMove(s, y)
    ensures Holds(s, y, a) && a >= Wanted(s.conns[x]).value
    decreases bound - Wanted(s.conns[x]).value
  {
    WaitsUpward(s, x);
    a := Wanted(s.conns[x]).value;
    y := s.owner[a];
    if Blocked(s, y) {
      WaitsUpward(s, y);
      assert Holds(s, y, a);
      y, a := NoDeadlock(s, y, bound);
    } else {
      HolderCanMove(s, y, a);
    }
  }

  lemma {:induction false} SomeBound(keys: set<nat>) returns (bound: nat)
    ensures forall a :: a in keys ==> a <= bound
    decreases |keys|
  {
    bound := 0;
    if keys != {} {
      var a :| a in keys;
      var rest := keys - {a};
      var b := SomeBound(rest);
      bound := if a > b then a else b;
      assert forall c :: c in keys ==> c == a || c in rest;
    }
  }

  // In no reachable state are all the connections stuck: if a call is in
  // progress anywhere, some connection can move.
  lemma SomeoneCanMove(s: Sys, run: seq<Event>, t: Sys, x: nat)
    requires Initial(s) && After(s, run) == Some(t)
    requires Shape(t) && x < |t.conns| && !AtRest(t.conns[x])
    ensures exists y :: 0 <= y < |t.conns| && CanMove(t, y)
  {
    RunInv(s, run);
    if Blocked(t, x) {
      var bound := SomeBound(t.owner.Keys);
      var y, a := NoDeadlock(t, x, bound);
    } else {
      assert CanMove(t, x);
    }
  }

  // When nobody sits on a mutex between calls, it is a call in progress that
  // can go on.
  lemma SomeCallProceeds(s: Sys, run: seq<Event>, t: Sys, x: nat)
    requires Initial(s) && After(s, run) == Some(t)
    requires Shape(t) && x < |t.conns| && !AtRest(t.conns[x])
    requires forall a :: a in t.owner && t.owner[a] < |t.conns| ==> !AtRest(t.conns[t.owner[a]])
    ensures exists y :: 0 <= y < |t.conns| && !AtRest(t.conns[y]) && Step(t, y, Run).Some?
  {
    RunInv(s, run);
    if Blocked(t, x) {
      var bound := SomeBound(t.owner.Keys);
      var y, a := NoDeadlock(t, x, bound);
      assert Step(t, y, Run).Some?;
    } else {
      assert Step(t, x, Run).Some?;
    }
  }

  // ---- bounded calls -------------------------------------------------------------

  // Steps of its own that the lock operation in progress still takes at most.
  function PcSteps(c: Conn): nat
    requires ConnShape(c)
  {
    var n := |c.bts|;
    match c.pc
    case Idle => 0
    case Trying(k) => 2 * n + 5
    case Releasing(k, j) => 2 * n + 4 - j
    case Acquiring(k) => n + 3
    case Relocking(k, j) => n + 1 - j
  }

  function Times(m: nat, per: nat): nat {
    if m == 0 then 0 else per + Times(m - 1, per)
  }

  // The same for the loop over db->aDb[].
  function TaskSteps(c: Conn): nat {
    match c.task
    case NoTask => 0
    case EnteringAll(i) => if i >= |c.aDb| then 1 else Times(|c.aDb| - i, 2 * |c.bts| + 7) + 1
    case LeavingAll(i) => if i >= |c.aDb| then 1 else Times(|c.aDb| - i, 2 * |c.bts| + 7) + 1
  }

  // The same for the whole call.
  function StepsLeft(c: Conn): nat
    requires ConnShape(c)
  {
    PcSteps(c) + TaskSteps(c)
  }

  lemma UnlockRunsDown(s: Sys, x: nat, t: Sys)
    requires Shape(s) && x < |s.conns| && (s.conns[x].pc.Trying? || s.conns[x].pc.Releasing?)
    requires RunStep(s, x, s.conns[x]) == Some(t) && Shape(t)
    ensures |t.conns| == |s.conns| && StepsLeft(t.conns[x]) < StepsLeft(s.conns[x])
  {
    var c, c' := s.conns[x], t.conns[x];
    assert c'.bts == c.bts && c'.task == c.task && c'.aDb == c.aDb;
  }

  lemma RelockRunsDown(s: Sys, x: nat, t: Sys)
    requires Shape(s) && x < |s.conns| && (s.conns[x].pc.Acquiring? || s.conns[x].pc.Relocking?)
    requires RunStep(s, x, s.conns[x]) == Some(t) && Shape(t)
    ensures |t.conns| == |s.conns| && StepsLeft(t.conns[x]) < StepsLeft(s.conns[x])
  {
    var c, c' := s.conns[x], t.conns[x];
    assert c'.bts == c.bts && c'.task == c.task && c'.aDb == c.aDb;
  }

  lemma TaskRunsDown(s: Sys, x: nat, t: Sys)
    requires Shape(s) && x < |s.conns| && s.conns[x].pc == Idle && RunTask(s, x, s.conns[x]) == Some(t)
    requires Shape(t)
    ensures |t.conns| == |s.conns| && StepsLeft(t.conns[x]) < StepsLeft(s.conns[x])
  {
    var c, c' := s.conns[x], t.conns[x];
    assert c'.bts == c.bts && c'.aDb == c.aDb && PcSteps(c') <= 2 * |c.bts| + 5;
  }

  // A step of one connection is a step of no other.
  lemma OthersStay(s: Sys, x: nat, act: Act, t: Sys)
    requires Shape(s) && Step(s, x, act) == Some(t)
    ensures x < |s.conns| == |t.conns|
    ensures t.conns == s.conns[x := t.conns[x]]
  {
  }

  // Each step of a call brings its end nearer, whatever the others do.
  lemma StepsRunDown(s: Sys, x: nat, t: Sys)
    requires Inv(s) && Step(s, x, Run) == Some(t)
    ensures Shape(t) && |t.conns| == |s.conns| && StepsLeft(t.conns[x]) < StepsLeft(s.conns[x])
  {
    StepInv(s, x, Run, t);
    if s.conns[x].pc == Idle {
      TaskRunsDown(s, x, t);
    } else if s.conns[x].pc.Trying? || s.conns[x].pc.Releasing? {
      UnlockRunsDown(s, x, t);
    } else {
      RelockRunsDown(s, x, t);
    }
  }
}
