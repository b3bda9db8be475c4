// What sqlite3_backup_step() answers when no routine that it calls fails.
module BackupAnswers {
  import opened Division
  import opened BackupModel
  import opened BackupCopy
  import opened BackupProtocol
  import opened BackupRun
  import opened BackupDone
  import opened BackupLimits

  // Every routine succeeds; the source may be in a write transaction.
  ghost predicate AllSucceed(env: Env) {
    && env.beginSrc == SQLITE_OK && env.setPgsz != SQLITE_NOMEM && env.beginDest == SQLITE_OK
    && (forall k :: env.getSrc(k) == SQLITE_OK) && (forall k :: env.io(k) == SQLITE_OK)
    && (env.newDb == SQLITE_OK || env.newDb == SQLITE_DONE)
    && env.updateMeta == SQLITE_OK && env.setVersion == SQLITE_OK
    && env.journalRest == SQLITE_OK && env.commitOne == SQLITE_OK && (forall k :: env.osWrite(k) == SQLITE_OK)
    && env.osTruncate == SQLITE_OK && env.sync == SQLITE_OK && env.commitTwo == SQLITE_OK
  }

  lemma {:induction false} LoopGoesWell(g: Geometry, dest: seq<Byte>, iEnd: nat, data: seq<Byte>, nSrcPage: nat,
          io: Pager, iOff: nat)
    requires g.src > 0 && g.dst > 0 && |data| == g.src && forall k :: io(k) == SQLITE_OK
    ensures CopyLoop(g, dest, iEnd, data, false, nSrcPage, io, iOff).1 == SQLITE_OK
    decreases iEnd - iOff
  {
    if iOff < iEnd {
      LoopGoesWell(g, dest, iEnd, data, nSrcPage, io, iOff + g.dst);
      LoopGoesWell(g, CopyChunk(g, dest, data, false, nSrcPage, iOff), iEnd, data, nSrcPage, io, iOff + g.dst);
    }
  }

  lemma {:induction false} PagesGoWell(g: Geometry, bk: Backup, pages: seq<seq<Byte>>, budget: int, env: Env)
    requires g.src > 0 && g.dst > 0 && bk.iNext > 0 && SourceOk(pages, g.src) && (bk.destMemdb ==> g.src == g.dst)
    requires (forall k :: env.getSrc(k) == SQLITE_OK) && (forall k :: env.io(k) == SQLITE_OK)
    ensures CopyPages(g, bk, pages, budget, env).1 == SQLITE_OK
    decreases |pages| + 1 - bk.iNext
  {
    if budget != 0 && bk.iNext <= |pages| {
      var k := bk.iNext;
      LoopGoesWell(g, bk.dest, PageOffset(k, g.src) + g.src, pages[k - 1], |pages|, env.io, PageOffset(k, g.src));
      PagesGoWell(g, CopyNext(g, bk, pages, env).0, pages, budget - 1, env);
    }
  }

  // The extra loop finds every page that it looks for.
  lemma {:induction false} ExtraGoesWell(g: Geometry, f: seq<Byte>, pages: seq<seq<Byte>>, iOff: nat, iEnd: nat,
          env: Env)
    requires g.src > 0 && (iOff < iEnd ==> iEnd <= PageOffset(|pages| + 1, g.src))
    requires (forall k :: env.getSrc(k) == SQLITE_OK) && (forall k :: env.osWrite(k) == SQLITE_OK)
    ensures ExtraWrites(g, f, pages, iOff, iEnd, env).1 == SQLITE_OK
    decreases iEnd - iOff
  {
    if iOff < iEnd {
      QuotRem(iOff, g.src);
      PageOffsetIsProduct(|pages| + 1, g.src);
      var k := Quot(iOff, g.src);
      if k >= |pages| {
        MulOrder(|pages|, k, g.src);
      }
      ExtraGoesWell(g, WriteAt(f, 0, iOff, pages[k]), pages, iOff + g.src, iEnd, env);
    }
  }

  lemma FinishGoesWell(g: Geometry, bk: Backup, pages: seq<seq<Byte>>, env: Env)
    requires g.src > 0 && g.dst > 0 && AllSucceed(env)
    ensures Finish(g, bk, pages, env).1 == SQLITE_DONE
  {
    var n := Max(|pages|, 1);
    if g.src < g.dst {
      var iEnd := Min(g.pending + g.dst, PageOffset(n + 1, g.src));
      assert PageOffset(2, g.src) == g.src;
      ExtraGoesWell(g, Committed(g, Patched(bk, env), env.oldFile), pages, g.pending + g.src, iEnd, env);
    }
  }

  // A step that has been prepared goes well.
  lemma PreparedGoesWell(src: nat, pending: nat, bk: Backup, pages: seq<seq<Byte>>, nPage: int, env: Env,
          p: (Backup, int), r: (Backup, int))
    requires src > 0 && bk.pgszDest > 0 && bk.iNext > 0 && SourceOk(pages, src) && AllSucceed(env) && !IsFatal(bk.rc)
    requires p == Prepare(src, bk, env) && p.1 == SQLITE_OK && (bk.destMemdb ==> src == p.0.pgszDest)
    requires r == Step(src, pending, bk, pages, nPage, env)
    ensures r.1 == if nPage < 0 || bk.iNext + nPage > |pages| then SQLITE_DONE else SQLITE_OK
  {
    hide Prepare, CopyPages, Finish;
    var g := Geo(src, pending, p.0);
    PagesGoWell(g, p.0, pages, nPage, env);
    var c := CopyPages(g, p.0, pages, nPage, env);
    CopyPagesCount(g, p.0, pages, nPage, env, c);
    FinishGoesWell(g, Counted(c.0, |pages|), pages, env);
  }

  // The answers of a step that meets no error: BUSY while the source is in a write
  // transaction, and nothing has changed then; READONLY for a destination in WAL
  // mode with another page size, before any page is copied; otherwise - a database in
  // memory must have the same page size, see below - DONE exactly if nPage reaches past
  // the last page of the source.  An earlier BUSY or LOCKED makes no difference.
  lemma StepAnswers(src: nat, pending: nat, bk: Backup, pages: seq<seq<Byte>>, nPage: int, env: Env, pgsz: nat,
          r: (Backup, int))
    requires src > 0 && bk.pgszDest > 0 && bk.iNext > 0 && SourceOk(pages, src) && AllSucceed(env)
    requires bk.rc in {SQLITE_OK, SQLITE_BUSY, SQLITE_LOCKED}
    requires pgsz == if !bk.bDestLocked && env.tookPgsz then src else bk.pgszDest
    requires r == Step(src, pending, bk, pages, nPage, env)
    ensures bk.hasDestDb && env.srcWriting ==> r == (bk.(rc := SQLITE_BUSY), SQLITE_BUSY)
    ensures !(bk.hasDestDb && env.srcWriting) && env.walMode && src != pgsz ==>
              r.1 == SQLITE_READONLY && r.0.iNext == bk.iNext && r.0.dest == bk.dest && r.0.file == bk.file
    ensures !(bk.hasDestDb && env.srcWriting) && (env.walMode || bk.destMemdb ==> src == pgsz) ==>
              r.1 == if nPage < 0 || bk.iNext + nPage > |pages| then SQLITE_DONE else SQLITE_OK
  {
    hide CopyPages, Finish;
    var p := Prepare(src, bk, env);
    if !(bk.hasDestDb && env.srcWriting) && (env.walMode || bk.destMemdb ==> src == pgsz) {
      PreparedGoesWell(src, pending, bk, pages, nPage, env, p, r);
    }
  }

  // The pending-byte page begins at the pending byte.
  lemma NotPending(g: Geometry, k: nat)
    requires g.src > 0 && k > 0 && g.pending % g.src == 0 && PageOffset(k, g.src) != g.pending
    ensures k != PendingPage(g, g.src)
  {
    PageOffsetIsProduct(k, g.src);
    QuotRem(g.pending, g.src);
    IsDivision(g.pending, g.src);
  }

  // A database in memory whose pages have another size takes no page.
  lemma MemoryAnswers(src: nat, pending: nat, bk: Backup, pages: seq<seq<Byte>>, nPage: int, env: Env, pgsz: nat,
          r: (Backup, int))
    requires src > 0 && bk.pgszDest > 0 && 0 < bk.iNext <= |pages| && SourceOk(pages, src) && AllSucceed(env)
    requires bk.rc in {SQLITE_OK, SQLITE_BUSY, SQLITE_LOCKED} && !env.srcWriting && nPage != 0
    requires pgsz == if !bk.bDestLocked && env.tookPgsz then src else bk.pgszDest
    requires bk.destMemdb && src != pgsz && pending % src == 0 && PageOffset(bk.iNext, src) != pending
    requires r == Step(src, pending, bk, pages, nPage, env)
    ensures r.1 == SQLITE_READONLY && r.0.dest == bk.dest && r.0.file == bk.file
  {
    var p := Prepare(src, bk, env);
    NotPending(Geo(src, pending, p.0), bk.iNext);
  }

  // Every page that the copy loop has moved past could be read and written.
  lemma {:induction false} PagesRead(g: Geometry, bk: Backup, pages: seq<seq<Byte>>, budget: int, env: Env,
          c: (Backup, int))
    requires g.src > 0 && g.dst > 0 && bk.iNext > 0 && SourceOk(pages, g.src)
    requires c == CopyPages(g, bk, pages, budget, env) && c.1 == SQLITE_OK
    ensures forall k: nat {:trigger env.getSrc(k)} :: bk.iNext <= k < c.0.iNext && k != PendingPage(g, g.src) ==>
              env.getSrc(k) == SQLITE_OK
    decreases |pages| + 1 - bk.iNext
  {
    if budget != 0 && bk.iNext <= |pages| {
      PagesRead(g, CopyNext(g, bk, pages, env).0, pages, budget - 1, env, c);
    }
  }

  // A step answers DONE only if every routine that it needs has succeeded; and it
  // reports that memory ran out under one code only.
  lemma DoneMeansSuccess(src: nat, pending: nat, bk: Backup, pages: seq<seq<Byte>>, nPage: int, env: Env,
          r: (Backup, int))
    requires src > 0 && bk.pgszDest > 0 && bk.iNext > 0 && SourceOk(pages, src) && NeverDone(env) && !IsFatal(bk.rc)
    requires r == Step(src, pending, bk, pages, nPage, env)
    ensures r.1 != SQLITE_IOERR_NOMEM
    ensures Copied(src, pending, bk, pages, nPage, env).1 == SQLITE_IOERR_NOMEM ==> r.1 == SQLITE_NOMEM
    ensures r.1 == SQLITE_DONE ==>
              && !(bk.hasDestDb && env.srcWriting) && env.beginSrc == SQLITE_OK
              && (bk.bDestLocked || (env.beginDest == SQLITE_OK && env.setPgsz != SQLITE_NOMEM))
              && (env.walMode ==> src == r.0.pgszDest && env.setVersion == SQLITE_OK)
              && (pages == [] ==> env.newDb == SQLITE_OK || env.newDb == SQLITE_DONE)
              && env.updateMeta == SQLITE_OK && env.commitOne == SQLITE_OK && env.commitTwo == SQLITE_OK
              && (src < r.0.pgszDest ==>
                    env.journalRest == SQLITE_OK && env.osTruncate == SQLITE_OK && env.sync == SQLITE_OK)
              && (forall k: nat {:trigger env.getSrc(k)} ::
                    bk.iNext <= k <= |pages| && k != PendingPage(Geo(src, pending, r.0), src) ==>
                      env.getSrc(k) == SQLITE_OK)
  {
    if r.1 == SQLITE_DONE {
      var p := Prepare(src, bk, env);
      DoneFinishes(src, pending, bk, pages, nPage, env, r);
      var c := Copied(src, pending, bk, pages, nPage, env);
      var g, b := Geo(src, pending, r.0), Counted(c.0, |pages|);
      DoneIsCommitted(g, b, pages, env, (r.0.(rc := bk.rc), SQLITE_DONE));
      PagesRead(g, p.0, pages, nPage, env, c);
    }
  }
}
