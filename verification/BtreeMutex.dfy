// The shared-cache lock protocol as a machine of interleaved steps.  Any
// number of connections enter and leave their sharable btrees; each step of a
// connection is one mutex operation, and the steps of different connections
// interleave freely.
module BtreeMutex {
  import opened Wrappers

  // Where a connection is inside sqlite3BtreeEnter().  The indexes are
  // positions in its list of sharable btrees, which pNext links in ascending
  // order of the BtShared address.
  datatype Pc =
    | Idle
    | Trying(k: nat)              // before sqlite3_mutex_try() on btree k
    | Releasing(k: nat, j: nat)   // unlocking the later btrees, next j
    | Acquiring(k: nat)           // before lockBtreeMutex() on btree k
    | Relocking(k: nat, j: nat)   // retaking the later locks, next j

  // The loop over db->aDb[] of btreeEnterAll() or btreeLeaveAll(), next slot i.
  datatype Task = NoTask | EnteringAll(i: nat) | LeavingAll(i: nat)

  // A connection.  bts holds the BtShared address of each sharable btree; a
  // slot of aDb holds the position in bts of its btree, or None when it has no
  // btree or one that is not sharable.
  datatype Conn = Conn(
    bts: seq<nat>,
    aDb: seq<Option<nat>>,
    wantToLock: seq<nat>,
    locked: seq<bool>,
    pc: Pc,
    task: Task,
    noSharedCache: bool)

  // owner: which connection holds a BtShared mutex.  db: BtShared.db.
  datatype Sys = Sys(conns: seq<Conn>, owner: map<nat, nat>, db: map<nat, nat>)

  // What a connection does next: a call of its own, or the next step of the
  // call in progress.
  datatype Act = Enter(k: nat) | Leave(k: nat) | EnterAll | LeaveAll | Run

  predicate ConnShape(c: Conn) {
    && |c.wantToLock| == |c.locked| == |c.bts|
    && (forall i, j :: 0 <= i < j < |c.bts| ==> c.bts[i] < c.bts[j])
    && (forall i :: 0 <= i < |c.aDb| && c.aDb[i].Some? ==> c.aDb[i].value < |c.bts|)
    && (forall i, j :: 0 <= i < j < |c.aDb| && c.aDb[i].Some? ==> c.aDb[i] != c.aDb[j])
    && match c.pc
       case Idle => true
       case Trying(k) => k < |c.bts|
       case Releasing(k, j) => k < j <= |c.bts|
       case Acquiring(k) => k < |c.bts|
       case Relocking(k, j) => k < j <= |c.bts|
  }

  predicate Shape(s: Sys) {
    forall x {:trigger s.conns[x]} :: 0 <= x < |s.conns| ==> ConnShape(s.conns[x])
  }

  // ---- the steps ---------------------------------------------------------------

  function Locking(s: Sys, x: nat, c: Conn, k: nat): Sys
    requires x < |s.conns| && k < |c.bts| && |c.locked| == |c.bts|
  {
    s.(conns := s.conns[x := c.(locked := c.locked[k := true])],
       owner := s.owner[c.bts[k] := x],
       db := s.db[c.bts[k] := x])
  }

  function Unlocking(s: Sys, x: nat, c: Conn, k: nat): Sys
    requires x < |s.conns| && k < |c.bts| && |c.locked| == |c.bts|
  {
    s.(conns := s.conns[x := c.(locked := c.locked[k := false])],
       owner := s.owner - {c.bts[k]})
  }

  function Moving(s: Sys, x: nat, c: Conn): Sys
    requires x < |s.conns|
  {
    s.(conns := s.conns[x := c])
  }

  // sqlite3BtreeEnter() up to its first mutex operation.
  function EnterCall(c: Conn, k: nat): Conn
    requires ConnShape(c) && k < |c.bts|
  {
    c.(wantToLock := c.wantToLock[k := c.wantToLock[k] + 1],
       pc := if c.locked[k] then Idle else Trying(k))
  }

  // sqlite3BtreeLeave()
  function LeaveCall(s: Sys, x: nat, c: Conn, k: nat): Option<Sys>
    requires x < |s.conns| && ConnShape(c) && k < |c.bts|
  {
    if c.wantToLock[k] == 0 then None
    else
      var c1 := c.(wantToLock := c.wantToLock[k := c.wantToLock[k] - 1]);
      if c1.wantToLock[k] == 0 then Some(Unlocking(s, x, c1, k)) else Some(Moving(s, x, c1))
  }

  // Does some slot of aDb hold a sharable btree?
  predicate HasSharable(c: Conn) {
    exists i :: 0 <= i < |c.aDb| && c.aDb[i].Some?
  }

  // One step of the loops over db->aDb[].
  function RunTask(s: Sys, x: nat, c: Conn): Option<Sys>
    requires x < |s.conns| && ConnShape(c)
  {
    match c.task
    case NoTask => None
    case EnteringAll(i) =>
      if i >= |c.aDb| then Some(Moving(s, x, c.(task := NoTask, noSharedCache := !HasSharable(c))))
      else if c.aDb[i].None? then Some(Moving(s, x, c.(task := EnteringAll(i + 1))))
      else Some(Moving(s, x, EnterCall(c.(task := EnteringAll(i + 1)), c.aDb[i].value)))
    case LeavingAll(i) =>
      if i >= |c.aDb| then Some(Moving(s, x, c.(task := NoTask)))
      else if c.aDb[i].None? then Some(Moving(s, x, c.(task := LeavingAll(i + 1))))
      else LeaveCall(s, x, c.(task := LeavingAll(i + 1)), c.aDb[i].value)
  }

  // One step of btreeLockCarefully(); None while the mutex wanted is taken.
  function RunStep(s: Sys, x: nat, c: Conn): Option<Sys>
    requires x < |s.conns| && ConnShape(c)
  {
    match c.pc
    case Idle => RunTask(s, x, c)
    case Trying(k) =>
      if c.bts[k] !in s.owner then Some(Locking(s, x, c.(pc := Idle), k))
      else Some(Moving(s, x, c.(pc := Releasing(k, k + 1))))
    case Releasing(k, j) =>
      if j == |c.bts| then Some(Moving(s, x, c.(pc := Acquiring(k))))
      else if c.locked[j] then Some(Unlocking(s, x, c.(pc := Releasing(k, j + 1)), j))
      else Some(Moving(s, x, c.(pc := Releasing(k, j + 1))))
    case Acquiring(k) =>
      if c.bts[k] in s.owner then None
      else Some(Locking(s, x, c.(pc := Relocking(k, k + 1)), k))
    case Relocking(k, j) =>
      if j == |c.bts| then Some(Moving(s, x, c.(pc := Idle)))
      else if c.wantToLock[j] == 0 then Some(Moving(s, x, c.(pc := Relocking(k, j + 1))))
      else if c.bts[j] in s.owner then None
      else Some(Locking(s, x, c.(pc := Relocking(k, j + 1)), j))
  }

  // Between calls: the connection runs code outside this file.
  predicate AtRest(c: Conn) {
    c.pc == Idle && c.task == NoTask
  }

  // LeaveAll undoes an EnterAll: the source asserts that every count is positive.
  predicate EnteredAll(c: Conn)
    requires ConnShape(c)
  {
    forall i :: 0 <= i < |c.aDb| && c.aDb[i].Some? ==> c.wantToLock[c.aDb[i].value] > 0
  }

  function Step(s: Sys, x: nat, act: Act): Option<Sys>
    requires Shape(s)
  {
    if x >= |s.conns| then None
    else
      var c := s.conns[x];
      match act
      case Run => RunStep(s, x, c)
      case Enter(k) =>
        if AtRest(c) && k < |c.bts| then Some(Moving(s, x, EnterCall(c, k))) else None
      case Leave(k) =>
        if AtRest(c) && k < |c.bts| then LeaveCall(s, x, c, k) else None
      case EnterAll =>
        if !AtRest(c) then None
        else Some(Moving(s, x, if c.noSharedCache then c else c.(task := EnteringAll(0))))
      case LeaveAll =>
        if !AtRest(c) || !EnteredAll(c) then None
        else Some(Moving(s, x, if c.noSharedCache then c else c.(task := LeavingAll(0))))
  }

  // ---- the invariant -------------------------------------------------------------

  // Which btrees a connection holds, as a function of where it is.
  ghost predicate LocksOk(c: Conn)
    requires ConnShape(c)
  {
    match c.pc
    case Idle =>
      forall i :: 0 <= i < |c.bts| ==> c.locked[i] == (c.wantToLock[i] > 0)
    case Trying(k) =>
      && c.wantToLock[k] > 0 && !c.locked[k]
      && forall i :: 0 <= i < |c.bts| && i != k ==> c.locked[i] == (c.wantToLock[i] > 0)
    case Releasing(k, j) =>
      && c.wantToLock[k] > 0
      && forall i :: 0 <= i < |c.bts| ==> c.locked[i] == (c.wantToLock[i] > 0 && !(k <= i < j))
    case Acquiring(k) =>
      && c.wantToLock[k] > 0
      && forall i :: 0 <= i < |c.bts| ==> c.locked[i] == (c.wantToLock[i] > 0 && i < k)
    case Relocking(k, j) =>
      && c.wantToLock[k] > 0
      && forall i :: 0 <= i < |c.bts| ==> c.locked[i] == (c.wantToLock[i] > 0 && i < j)
  }

  // Progress of the loops over aDb, and the flag that lets them be skipped.
  ghost predicate TaskOk(c: Conn)
    requires ConnShape(c)
  {
    && (c.noSharedCache ==> !HasSharable(c))
    && match c.task
       case NoTask => true
       case EnteringAll(i) =>
         i <= |c.aDb| && forall l :: 0 <= l < i && c.aDb[l].Some? ==> c.wantToLock[c.aDb[l].value] > 0
       case LeavingAll(i) =>
         c.pc == Idle && i <= |c.aDb| && forall l :: i <= l < |c.aDb| && c.aDb[l].Some? ==>
             c.wantToLock[c.aDb[l].value] > 0
  }

  ghost predicate ConnOk(c: Conn) {
    ConnShape(c) && LocksOk(c) && TaskOk(c)
  }

  // Every locked btree's mutex is held by its connection, whose handle is in
  // BtShared.db.
  ghost predicate HoldsWhatItLocked(s: Sys, x: nat)
    requires Shape(s) && x < |s.conns|
  {
    forall k {:trigger s.conns[x].locked[k]} :: 0 <= k < |s.conns[x].bts| && s.conns[x].locked[k] ==>
      && s.conns[x].bts[k] in s.owner && s.owner[s.conns[x].bts[k]] == x
      && s.conns[x].bts[k] in s.db && s.db[s.conns[x].bts[k]] == x
  }

  // A held mutex belongs to a btree that its holder has locked.
  ghost predicate HeldIsLocked(s: Sys, a: nat)
    requires Shape(s) && a in s.owner
  {
    && s.owner[a] < |s.conns|
    && var c := s.conns[s.owner[a]];
       exists k :: 0 <= k < |c.bts| && c.bts[k] == a && c.locked[k]
  }

  ghost predicate Inv(s: Sys) {
    && Shape(s)
    && (forall x {:trigger s.conns[x]} :: 0 <= x < |s.conns| ==> ConnOk(s.conns[x]))
    && (forall x {:trigger HoldsWhatItLocked(s, x)} :: 0 <= x < |s.conns| ==> HoldsWhatItLocked(s, x))
    && (forall a {:trigger s.owner[a]} :: a in s.owner ==> HeldIsLocked(s, a))
  }

  // No btree entered, no mutex held, nothing known about aDb.
  ghost predicate Initial(s: Sys) {
    && Shape(s)
    && s.owner == map[]
    && forall x {:trigger s.conns[x]} :: 0 <= x < |s.conns| ==>
         && AtRest(s.conns[x])
         && !s.conns[x].noSharedCache
         && forall k :: 0 <= k < |s.conns[x].bts| ==> s.conns[x].wantToLock[k] == 0 && !s.conns[x].locked[k]
  }
}
