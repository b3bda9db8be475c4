// sqlite3_backup as the object whose fields the calls change, and the list of
// backups that hangs off the source pager.  Every method is tied to the
// function of BackupModel or BackupProtocol that it carries out.
module BackupObjects {
  import opened Division
  import opened BackupModel
  import opened BackupProtocol

  // The copy loop has come to state bk with answer r; its outcome will be all.
  ghost predicate StillToCopy(g: Geometry, bk: Backup, r: int, pages: seq<seq<Byte>>, budget: int, env: Env,
          all: (Backup, int)) {
    && g.src > 0 && g.dst > 0 && bk.iNext > 0
    && (forall k {:trigger pages[k]} :: 0 <= k < |pages| ==> |pages[k]| == g.src)
    && all == if r != SQLITE_OK then (bk, r) else CopyPages(g, bk, pages, budget, env)
  }

  // A step that copies a page has locked the destination.
  lemma StepLocksFirst(src: nat, pending: nat, bk: Backup, pages: seq<seq<Byte>>, nPage: int, env: Env)
    requires src > 0 && bk.pgszDest > 0 && bk.iNext > 0 && (bk.iNext > 1 ==> bk.bDestLocked)
    requires forall k {:trigger pages[k]} :: 0 <= k < |pages| ==> |pages[k]| == src
    ensures Step(src, pending, bk, pages, nPage, env).0.iNext > 1 ==>
              Step(src, pending, bk, pages, nPage, env).0.bDestLocked
  {
    var p := Prepare(src, bk, env);
    var c := Copied(src, pending, bk, pages, nPage, env);
    assert p.1 == SQLITE_OK ==> p.0.bDestLocked && c.0.bDestLocked;
  }

  class BackupHandle {
    var iNext: nat
    var rc: int
    var nRemaining: nat
    var nPagecount: nat
    var isAttached: bool
    var bDestLocked: bool
    var iDestSchema: nat
    const hasDestDb: bool
    const destMemdb: bool
    var pgszDest: nat
    var dest: seq<Byte>
    var file: seq<Byte>
    var pNext: BackupHandle?

    function State(): Backup
      reads this
    {
      Backup(iNext, rc, nRemaining, nPagecount, isAttached, bDestLocked, iDestSchema, hasDestDb, destMemdb, pgszDest,
        dest, file)
    }

    // sqlite3_backup_init()
    constructor (hasDestDb: bool, destMemdb: bool, pgszDest: nat, dest: seq<Byte>)
      ensures State() == Backup(1, SQLITE_OK, 0, 0, false, false, 0, hasDestDb, destMemdb, pgszDest, dest, dest)
      ensures pNext == null
    {
      iNext, rc, nRemaining, nPagecount, iDestSchema := 1, SQLITE_OK, 0, 0, 0;
      isAttached, bDestLocked, pNext := false, false, null;
      this.hasDestDb, this.destMemdb, this.pgszDest := hasDestDb, destMemdb, pgszDest;
      this.dest, file := dest, dest;
    }

    // memcpy() into a destination page, and the page count in the header.
    method CopyIntoPage(g: Geometry, data: seq<Byte>, bUpdate: bool, nSrcPage: nat, iOff: nat)
      requires g.src > 0 && g.dst > 0 && |data| == g.src
      modifies `dest
      ensures dest == CopyChunk(g, old(dest), data, bUpdate, nSrcPage, iOff)
    {
      var size := PageOffset(Quot(iOff, g.dst) + 2, g.dst);
      var from := Rem(iOff, g.src);
      dest := WriteAt(dest, size, iOff, data[from..Min(from + Min(g.src, g.dst), g.src)]);
      if iOff == 0 && !bUpdate {
        dest := WriteAt(dest, size, 28, FourBytes(nSrcPage));
      }
    }

    // backupOnePage()
    method CopyPage(src: nat, pending: nat, iSrcPg: nat, data: seq<Byte>, bUpdate: bool, nSrcPage: nat, io: Pager)
      returns (r: int)
      requires src > 0 && pgszDest > 0 && iSrcPg > 0 && |data| == src
      requires bDestLocked && !IsFatal(rc) && iSrcPg != PendingPage(Geometry(src, pgszDest, pending), src)
      modifies `dest
      ensures (dest, r) == OnePage(Geo(src, pending, old(State())), old(dest), destMemdb, iSrcPg, data, bUpdate,
              nSrcPage, io)
    {
      var g := Geometry(src, pgszDest, pending);
      assert bDestLocked;
      assert !IsFatal(rc);
      assert iSrcPg != PendingPage(g, src);
      var iOff := PageOffset(iSrcPg, src);
      var iEnd := iOff + src;
      r := SQLITE_OK;
      if src != pgszDest && destMemdb {
        r := SQLITE_READONLY;
      }
      ghost var all := if r != SQLITE_OK then (dest, r) else CopyLoop(g, dest, iEnd, data, bUpdate, nSrcPage, io, iOff);
      while r == SQLITE_OK && iOff < iEnd
        invariant all == if r != SQLITE_OK then (dest, r)
                  else CopyLoop(g, dest, iEnd, data, bUpdate, nSrcPage, io, iOff)
        decreases iEnd - iOff
      {
        var iDest := Quot(iOff, g.dst) + 1;
        if iDest != PendingPage(g, g.dst) {
          r := io(iDest);
          if r == SQLITE_OK {
            CopyIntoPage(g, data, bUpdate, nSrcPage, iOff);
          }
        }
        iOff := iOff + g.dst;
      }
    }

    // The part of sqlite3_backup_step() before the copy loop.
    method Begin(src: nat, env: Env) returns (r: int)
      modifies `pgszDest, `bDestLocked, `iDestSchema
      ensures (State(), r) == Prepare(src, old(State()), env)
    {
      r := SQLITE_OK;
      if hasDestDb && env.srcWriting {
        r := SQLITE_BUSY;
      }
      if r == SQLITE_OK {
        r := env.beginSrc;
      }
      if !bDestLocked && r == SQLITE_OK {
        if env.tookPgsz {
          pgszDest := src;
        }
        if env.setPgsz == SQLITE_NOMEM {
          r := SQLITE_NOMEM;
        }
      }
      if r == SQLITE_OK && !bDestLocked {
        r := env.beginDest;
        if r == SQLITE_OK {
          iDestSchema, bDestLocked := env.schema, true;
        }
      }
      if r == SQLITE_OK && env.walMode && src != pgszDest {
        r := SQLITE_READONLY;
      }
    }

    // The copy loop of sqlite3_backup_step().
    method CopySome(src: nat, pending: nat, pages: seq<seq<Byte>>, nPage: int, env: Env) returns (r: int)
      requires src > 0 && pgszDest > 0 && iNext > 0 && bDestLocked && !IsFatal(rc)
      requires forall k {:trigger pages[k]} :: 0 <= k < |pages| ==> |pages[k]| == src
      modifies `iNext, `dest
      ensures (State(), r) == CopyPages(Geo(src, pending, old(State())), old(State()), pages, nPage, env)
    {
      var g := Geometry(src, pgszDest, pending);
      ghost var all := CopyPages(g, State(), pages, nPage, env);
      r := SQLITE_OK;
      var ii := 0;
      while (nPage < 0 || ii < nPage) && iNext <= |pages| && r == SQLITE_OK
        invariant Geo(src, pending, State()) == g && iNext > 0 && (nPage >= 0 ==> ii <= nPage)
        invariant StillToCopy(g, State(), r, pages, nPage - ii, env, all)
        decreases |pages| + 1 - iNext
      {
        r := CopyTurn(g, r, pages, nPage - ii, env, all);
        ii := ii + 1;
      }
    }

    // One turn of the copy loop.
    method CopyTurn(g: Geometry, r0: int, pages: seq<seq<Byte>>, ghost budget: int, env: Env, ghost all: (Backup, int))
      returns (r: int)
      requires 0 < iNext <= |pages| && bDestLocked && !IsFatal(rc) && budget != 0 && r0 == SQLITE_OK
      requires g == Geo(g.src, g.pending, State()) && StillToCopy(g, State(), r0, pages, budget, env, all)
      modifies `iNext, `dest
      ensures iNext == old(iNext) + 1
      ensures StillToCopy(g, State(), r, pages, budget - 1, env, all)
    {
      assert |pages[iNext - 1]| == g.src;
      r := CopyNextPage(g.src, g.pending, pages, env);
    }

    method CopyNextPage(src: nat, pending: nat, pages: seq<seq<Byte>>, env: Env) returns (r: int)
      requires src > 0 && pgszDest > 0 && 0 < iNext <= |pages| && |pages[iNext - 1]| == src && bDestLocked &&
               !IsFatal(rc)
      modifies `iNext, `dest
      ensures (State(), r) == CopyNext(Geo(src, pending, old(State())), old(State()), pages, env)
    {
      var iSrcPg := iNext;
      r := SQLITE_OK;
      if iSrcPg != PendingPage(Geometry(src, pgszDest, pending), src) {
        r := env.getSrc(iSrcPg);
        if r == SQLITE_OK {
          r := CopyPage(src, pending, iSrcPg, pages[iSrcPg - 1], false, |pages|, env.io);
        }
      }
      iNext := iNext + 1;
    }

    // The loop that writes source pages into the pending-byte page of the file.
    static method WriteHole(g: Geometry, file0: seq<Byte>, pages: seq<seq<Byte>>, iEnd: nat, env: Env)
      returns (f: seq<Byte>, r: int)
      requires g.src > 0
      ensures (f, r) == ExtraWrites(g, file0, pages, g.pending + g.src, iEnd, env)
    {
      var iOff := g.pending + g.src;
      f, r := file0, SQLITE_OK;
      while r == SQLITE_OK && iOff < iEnd
        invariant ExtraWrites(g, file0, pages, g.pending + g.src, iEnd, env)
                  == if r != SQLITE_OK then (f, r) else ExtraWrites(g, f, pages, iOff, iEnd, env)
        decreases iEnd - iOff
      {
        var iSrcPg := Quot(iOff, g.src) + 1;
        r := if iSrcPg > |pages| then SQLITE_CORRUPT else env.getSrc(iSrcPg);
        if r == SQLITE_OK {
          r := env.osWrite(iSrcPg);
          if r == SQLITE_OK {
            f := WriteAt(f, 0, iOff, pages[iSrcPg - 1]);
          }
        }
        iOff := iOff + g.src;
      }
    }

    // The writes and the truncation of the destination file.
    method CommitFile(g: Geometry, pages: seq<seq<Byte>>, nSrcPage: nat, env: Env) returns (f: seq<Byte>, r: int)
      requires g.src > 0 && g.dst > 0
      ensures (f, r) == WriteFile(g, dest, pages, nSrcPage, env)
    {
      if g.src < g.dst {
        var iSize := PageOffset(nSrcPage + 1, g.src);
        f, r := [], env.journalRest;
        if r == SQLITE_OK {
          r := env.commitOne;
        }
        if r == SQLITE_OK {
          f, r := WriteHole(g, Committed(g, dest, env.oldFile), pages, Min(g.pending + g.dst, iSize), env);
          if r == SQLITE_OK {
            r := env.osTruncate;
          }
          if r == SQLITE_OK {
            f := Truncated(f, iSize);
            r := env.sync;
          }
        }
      } else {
        f := Truncated(Committed(g, dest, env.oldFile), PageOffset(DestTruncate(g, nSrcPage) + 1, g.dst));
        r := env.commitOne;
      }
    }

    // The end of sqlite3_backup_step().
    method Complete(src: nat, pending: nat, pages: seq<seq<Byte>>, env: Env) returns (r: int)
      requires src > 0 && pgszDest > 0
      modifies `dest, `file
      ensures (State(), r) == Finish(Geo(src, pending, old(State())), old(State()), pages, env)
    {
      r := SQLITE_DONE;
      var nSrcPage := |pages|;
      if nSrcPage == 0 {
        r := env.newDb;
        nSrcPage := 1;
      }
      if r == SQLITE_OK || r == SQLITE_DONE {
        r := env.updateMeta;
        if r == SQLITE_OK {
          dest := WriteAt(dest, pgszDest, 40, FourBytes(iDestSchema + 1));
          if env.walMode {
            r := env.setVersion;
            if r == SQLITE_OK {
              dest := WriteAt(dest, pgszDest, 18, [2, 2]);
            }
          }
        }
        if r == SQLITE_OK {
          var f;
          f, r := CommitFile(Geometry(src, pgszDest, pending), pages, nSrcPage, env);
          if r == SQLITE_OK {
            file, r := f, if env.commitTwo == SQLITE_OK then SQLITE_DONE else env.commitTwo;
          }
        }
      }
    }

    // The part of sqlite3_backup_step() after a copy loop that went well: the
    // counters, and then the end of the backup or its attachment.
    method CountAndFinish(src: nat, pending: nat, pages: seq<seq<Byte>>, env: Env) returns (r: int, attach: bool)
      requires src > 0 && pgszDest > 0
      modifies `nPagecount, `nRemaining, `dest, `file
      ensures attach == (iNext <= |pages| && !isAttached)
      ensures iNext <= |pages| ==> State() == Counted(old(State()), |pages|) && r == SQLITE_OK
      ensures iNext > |pages| ==>
                (State(), r) == Finish(Geo(src, pending, old(State())), Counted(old(State()), |pages|), pages, env)
    {
      nPagecount := |pages|;
      nRemaining := Rem32(|pages| + 1 - iNext);
      r, attach := SQLITE_OK, iNext <= |pages| && !isAttached;
      if iNext > |pages| {
        r := Complete(src, pending, pages, env);
      }
    }

    // sqlite3_backup_step() up to the attachment of the backup, which it asks for.
    // The code tests rc for DONE again before it completes the backup; no routine
    // called earlier answers DONE.
    method Advance(src: nat, pending: nat, pages: seq<seq<Byte>>, nPage: int, env: Env) returns (r: int, attach: bool)
      requires src > 0 && pgszDest > 0 && iNext > 0
      requires forall k {:trigger pages[k]} :: 0 <= k < |pages| ==> |pages[k]| == src
      modifies this`iNext, this`rc, this`nRemaining, this`nPagecount, this`bDestLocked, this`iDestSchema,
               this`pgszDest, this`dest, this`file
      ensures (State().(isAttached := isAttached || attach), r) == Step(src, pending, old(State()), pages, nPage, env)
      ensures attach ==> !isAttached
    {
      r, attach := rc, false;
      if !IsFatal(r) {
        r := CopyMore(src, pending, pages, nPage, env);
        if r == SQLITE_OK {
          r, attach := CountAndFinish(src, pending, pages, env);
        }
        if r == SQLITE_IOERR_NOMEM {
          r := SQLITE_NOMEM;
        }
        rc := r;
      }
    }

    method CopyMore(src: nat, pending: nat, pages: seq<seq<Byte>>, nPage: int, env: Env) returns (r: int)
      requires src > 0 && pgszDest > 0 && iNext > 0 && !IsFatal(rc)
      requires forall k {:trigger pages[k]} :: 0 <= k < |pages| ==> |pages[k]| == src
      modifies `iNext, `dest, `pgszDest, `bDestLocked, `iDestSchema
      ensures (State(), r) == Copied(src, pending, old(State()), pages, nPage, env)
    {
      r := Begin(src, env);
      if r == SQLITE_OK {
        r := CopySome(src, pending, pages, nPage, env);
      }
    }

    // The part of sqlite3BackupRestart() that concerns one backup.
    method Rewind()
      modifies `iNext
      ensures State() == Restart(old(State()))
    {
      iNext := 1;
    }

    // Pages are copied only after the destination has been locked.
    predicate LockedFirst()
      reads this
    {
      pgszDest > 0 && (iNext > 1 ==> bDestLocked)
    }

    // The part of backupUpdate() that concerns one backup.
    method Receive(src: nat, pending: nat, iPage: nat, aData: seq<Byte>, nSrcPage: nat, io: Pager)
      requires src > 0 && LockedFirst() && iPage > 0 && |aData| == src && iPage != Quot(pending, src) + 1
      modifies `dest, `rc
      ensures State() == Update(src, pending, old(State()), iPage, aData, nSrcPage, io)
    {
      if !IsFatal(rc) && iPage < iNext {
        var r := CopyPage(src, pending, iPage, aData, true, nSrcPage, io);
        if r != SQLITE_OK {
          rc := r;
        }
      }
    }
  }

  // The source pager's list of attached backups.
  class SourcePager {
    var pBackup: BackupHandle?
    ghost var handles: seq<BackupHandle>

    ghost function From(i: nat): BackupHandle?
      reads this
    {
      if i < |handles| then handles[i] else null
    }

    ghost predicate Valid()
      reads this, handles`pNext
    {
      && pBackup == From(0)
      && (forall i {:trigger handles[i].pNext} :: 0 <= i < |handles| ==> handles[i].pNext == From(i + 1))
      && (forall i, j {:trigger handles[i], handles[j]} :: 0 <= i < j < |handles| ==> handles[i] != handles[j])
    }

    constructor ()
      ensures Valid() && handles == []
    {
      pBackup, handles := null, [];
    }

    // attachBackupObject()
    method AttachBackupObject(p: BackupHandle)
      requires Valid() && p !in handles
      modifies this, p`pNext, p`isAttached
      ensures Valid() && handles == [p] + old(handles)
      ensures p.State() == old(p.State()).(isAttached := true)
    {
      p.pNext := pBackup;
      pBackup := p;
      p.isAttached := true;
      handles := [p] + handles;
    }

    // sqlite3_backup_step()
    method BackupStep(p: BackupHandle, src: nat, pending: nat, pages: seq<seq<Byte>>, nPage: int, env: Env)
      returns (r: int)
      requires Valid() && (p.isAttached <==> p in handles)
      requires src > 0 && p.LockedFirst() && p.iNext > 0
      requires forall k {:trigger pages[k]} :: 0 <= k < |pages| ==> |pages[k]| == src
      modifies this, p
      ensures (p.State(), r) == Step(src, pending, old(p.State()), pages, nPage, env)
      ensures Valid() && (p.isAttached <==> p in handles) && p.LockedFirst()
      ensures handles == if p.isAttached && !old(p.isAttached) then [p] + old(handles) else old(handles)
    {
      var attach;
      StepLocksFirst(src, pending, p.State(), pages, nPage, env);
      r, attach := p.Advance(src, pending, pages, nPage, env);
      if attach {
        AttachBackupObject(p);
      }
    }

    // sqlite3BackupUpdate(): every attached backup receives the page; io gives the
    // answers of its destination pager.  The source pager never writes its
    // pending-byte page.
    method BackupUpdate(src: nat, pending: nat, iPage: nat, aData: seq<Byte>, nSrcPage: nat, io: BackupHandle -> Pager)
      requires Valid() && src > 0 && iPage > 0 && |aData| == src && iPage != Quot(pending, src) + 1
      requires forall i {:trigger handles[i]} :: 0 <= i < |handles| ==>
                 handles[i].pgszDest > 0 && handles[i].LockedFirst()
      modifies handles`dest, handles`rc
      ensures Valid() && handles == old(handles)
      ensures forall i {:trigger handles[i]} :: 0 <= i < |handles| ==>
                handles[i].State() == Update(src, pending, old(handles[i].State()), iPage, aData, nSrcPage,
                  io(handles[i]))
    {
      var p := pBackup;
      ghost var n := 0;
      while p != null
        invariant 0 <= n <= |handles| && p == From(n)
        invariant forall i {:trigger handles[i]} :: 0 <= i < n ==>
                    handles[i].State() == Update(src, pending, old(handles[i].State()), iPage, aData, nSrcPage,
                      io(handles[i]))
        invariant forall i {:trigger handles[i]} :: n <= i < |handles| ==> handles[i].State() == old(handles[i].State())
        decreases |handles| - n
      {
        p.Receive(src, pending, iPage, aData, nSrcPage, io(p));
        p := p.pNext;
        n := n + 1;
      }
    }

    // sqlite3BackupRestart()
    method BackupRestart()
      requires Valid()
      modifies handles`iNext
      ensures Valid() && handles == old(handles)
      ensures forall i {:trigger handles[i]} :: 0 <= i < |handles| ==>
                handles[i].State() == Restart(old(handles[i].State()))
    {
      var p := pBackup;
      ghost var n := 0;
      while p != null
        invariant 0 <= n <= |handles| && p == From(n)
        invariant forall i {:trigger handles[i]} :: 0 <= i < n ==>
                    handles[i].State() == Restart(old(handles[i].State()))
        invariant forall i {:trigger handles[i]} :: n <= i < |handles| ==> handles[i].State() == old(handles[i].State())
        decreases |handles| - n
      {
        p.Rewind();
        p := p.pNext;
        n := n + 1;
      }
    }

    // The loop of sqlite3_backup_finish(): the backup before p in the list.
    method Previous(p: BackupHandle, ghost n: nat) returns (q: BackupHandle)
      requires Valid() && 0 < n < |handles| && handles[n] == p
      ensures q == handles[n - 1]
    {
      q := pBackup;
      ghost var m := 0;
      while q.pNext != p
        invariant 0 <= m < n && q == handles[m]
        decreases n - m
      {
        q := q.pNext;
        m := m + 1;
      }
    }

    // Taking the backup after q out of the list.
    method Splice(q: BackupHandle, ghost n: nat)
      requires Valid() && 0 < n < |handles| && handles[n - 1] == q
      modifies this`handles, q`pNext
      ensures Valid() && handles == old(handles)[..n] + old(handles)[n + 1..]
    {
      ghost var all := handles;
      q.pNext := q.pNext.pNext;
      handles := handles[..n] + handles[n + 1..];
      assert forall i {:trigger handles[i]} :: 0 <= i < |handles| ==> handles[i] == all[if i < n then i else i + 1];
    }

    method Detach(p: BackupHandle, ghost n: nat)
      requires Valid() && n < |handles| && handles[n] == p
      modifies this, handles`pNext
      ensures Valid() && p !in handles && handles == old(handles)[..n] + old(handles)[n + 1..]
    {
      if pBackup == p {
        pBackup := p.pNext;
        handles := handles[1..];
      } else {
        var q := Previous(p, n);
        Splice(q, n);
      }
    }

    // sqlite3_backup_finish(): the backup leaves the list, the others keep their
    // order and their state; the caller is told how it ended.
    method BackupFinish(p: BackupHandle, ghost n: nat) returns (r: int)
      requires Valid() && (p.isAttached <==> p in handles) && (p.isAttached ==> n < |handles| && handles[n] == p)
      modifies this, handles`pNext
      ensures Valid() && p !in handles
      ensures handles == if p.isAttached then old(handles)[..n] + old(handles)[n + 1..] else old(handles)
      ensures r == if p.rc == SQLITE_DONE then SQLITE_OK else p.rc
    {
      r := if p.rc == SQLITE_DONE then SQLITE_OK else p.rc;
      if p.isAttached {
        Detach(p, n);
      }
    }
  }
}
