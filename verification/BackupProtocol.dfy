// One call of sqlite3_backup_step(), and the callbacks by which the source
// pager tells a backup that a page was written or that everything may have
// changed.  Whatever the pagers, the btree layer and the file system answer is
// a parameter.
module BackupProtocol {
  import opened Division
  import opened BackupModel

  const SQLITE_CORRUPT: int := 11
  const SQLITE_IOERR_NOMEM: int := 3082

  // One sqlite3_backup, with the image of its destination as its pager sees it
  // and the destination file as left by the last commit.
  datatype Backup = Backup(
    iNext: nat,
    rc: int,
    nRemaining: nat,
    nPagecount: nat,
    isAttached: bool,
    bDestLocked: bool,
    iDestSchema: nat,
    hasDestDb: bool,
    destMemdb: bool,
    pgszDest: nat,
    dest: seq<Byte>,
    file: seq<Byte>)

  // The answers that one call of sqlite3_backup_step() receives.
  datatype Env = Env(
    srcWriting: bool,       // the source is in a write transaction
    beginSrc: int,          // opening a read transaction on the source
    setPgsz: int,           // setDestPgsz(), and whether it took effect
    tookPgsz: bool,
    beginDest: int,         // locking the destination
    schema: nat,            // and the schema cookie found there
    walMode: bool,
    getSrc: Pager,          // sqlite3PagerGet() on the source
    io: Pager,              // sqlite3PagerGet()/Write() on the destination
    newDb: int,             // the steps that finish the backup
    updateMeta: int,
    setVersion: int,
    journalRest: int,
    commitOne: int,
    osWrite: Pager,
    osTruncate: int,
    sync: int,
    commitTwo: int,
    oldFile: seq<Byte>)     // the destination file before the commit

  // The source database: page k is pages[k-1].
  ghost predicate SourceOk(pages: seq<seq<Byte>>, pgsz: nat) {
    forall k {:trigger pages[k]} :: 0 <= k < |pages| ==> |pages[k]| == pgsz
  }

  function Geo(src: nat, pending: nat, bk: Backup): Geometry {
    Geometry(src, bk.pgszDest, pending)
  }

  // ---- the copy loop of a step ---------------------------------------------------

  // Copies pages from iNext on, at most budget of them (any number if it is
  // negative); iNext moves past a page even when copying it failed.
  function CopyPages(g: Geometry, bk: Backup, pages: seq<seq<Byte>>, budget: int, env: Env): (r: (Backup, int))
    requires g.src > 0 && g.dst > 0 && bk.iNext > 0 && forall k {:trigger pages[k]} :: 0 <= k < |pages| ==>
               |pages[k]| == g.src
    ensures r.0 == bk.(iNext := r.0.iNext, dest := r.0.dest)
    ensures r.0.iNext >= bk.iNext
    decreases |pages| + 1 - bk.iNext
  {
    if budget == 0 || bk.iNext > |pages| then (bk, SQLITE_OK)
    else
      var r := CopyNext(g, bk, pages, env);
      if r.1 != SQLITE_OK then r else CopyPages(g, r.0, pages, budget - 1, env)
  }

  function CopyNext(g: Geometry, bk: Backup, pages: seq<seq<Byte>>, env: Env): (r: (Backup, int))
    requires g.src > 0 && g.dst > 0 && 0 < bk.iNext <= |pages| && |pages[bk.iNext - 1]| == g.src
    ensures r.0 == bk.(iNext := bk.iNext + 1, dest := r.0.dest)
  {
    var k := bk.iNext;
    if k == PendingPage(g, g.src) then (bk.(iNext := k + 1), SQLITE_OK)
    else if env.getSrc(k) != SQLITE_OK then (bk.(iNext := k + 1), env.getSrc(k))
    else
      var r := OnePage(g, bk.dest, bk.destMemdb, k, pages[k - 1], false, |pages|, env.io);
      (bk.(iNext := k + 1, dest := r.0), r.1)
  }

  // ---- finishing ---------------------------------------------------------------------

  // The number of destination pages to keep.
  function DestTruncate(g: Geometry, nSrcPage: nat): nat
    requires g.src > 0 && g.dst > 0
  {
    if g.src < g.dst then
      var ratio := Quot(g.dst, g.src);
      if ratio == 0 then 0
      else
        var n := Quot(nSrcPage + ratio - 1, ratio);
        if n == PendingPage(g, g.dst) then n - 1 else n
    else nSrcPage * Quot(g.src, g.dst)
  }

  // The file after the pager has written the image: the pending-byte page is
  // never written.
  function Committed(g: Geometry, dest: seq<Byte>, oldFile: seq<Byte>): (f: seq<Byte>)
    ensures |f| == |dest|
    ensures forall o: nat {:trigger ByteAt(f, o)} :: !(g.pending <= o < g.pending + g.dst) ==>
              ByteAt(f, o) == ByteAt(dest, o)
  {
    seq(|dest|, o requires 0 <= o < |dest| =>
      if g.pending <= o < g.pending + g.dst then ByteAt(oldFile, o) else dest[o])
  }

  // The source pages that fall into the destination's pending-byte page are
  // written to the file directly.
  function ExtraWrites(g: Geometry, file: seq<Byte>, pages: seq<seq<Byte>>, iOff: nat, iEnd: nat,
          env: Env): (seq<Byte>, int)
    requires g.src > 0
    decreases iEnd - iOff
  {
    if iOff >= iEnd then (file, SQLITE_OK)
    else
      var k := Quot(iOff, g.src) + 1;
      if k > |pages| then (file, SQLITE_CORRUPT)
      else if env.getSrc(k) != SQLITE_OK then (file, env.getSrc(k))
      else if env.osWrite(k) != SQLITE_OK then (file, env.osWrite(k))
      else ExtraWrites(g, WriteAt(file, 0, iOff, pages[k - 1]), pages, iOff + g.src, iEnd, env)
  }

  function Truncated(file: seq<Byte>, size: nat): seq<Byte> {
    file[..Min(|file|, size)]
  }

  // sqlite3BtreeUpdateMeta(): the schema cookie in the header.
  function WithCookie(bk: Backup): seq<Byte> {
    WriteAt(bk.dest, bk.pgszDest, 40, FourBytes(bk.iDestSchema + 1))
  }

  // What the btree layer writes into the header: the schema cookie, and the
  // file format versions in WAL mode.
  function Patched(bk: Backup, env: Env): seq<Byte> {
    if env.walMode then WriteAt(WithCookie(bk), bk.pgszDest, 18, [2, 2]) else WithCookie(bk)
  }

  // The file written by the two commit phases, if they succeed.
  function WriteFile(g: Geometry, dest: seq<Byte>, pages: seq<seq<Byte>>, nSrcPage: nat, env: Env): (seq<Byte>, int)
    requires g.src > 0 && g.dst > 0
  {
    if g.src < g.dst then
      var iSize := PageOffset(nSrcPage + 1, g.src);
      if env.journalRest != SQLITE_OK then ([], env.journalRest)
      else if env.commitOne != SQLITE_OK then ([], env.commitOne)
      else
        var w := ExtraWrites(g, Committed(g, dest, env.oldFile), pages, g.pending + g.src,
          Min(g.pending + g.dst, iSize), env);
        if w.1 != SQLITE_OK then w
        else if env.osTruncate != SQLITE_OK then (w.0, env.osTruncate)
        else (Truncated(w.0, iSize), env.sync)
    else
      (Truncated(Committed(g, dest, env.oldFile), PageOffset(DestTruncate(g, nSrcPage) + 1, g.dst)), env.commitOne)
  }

  // The part of a step that runs once every page has been copied.
  function Finish(g: Geometry, bk: Backup, pages: seq<seq<Byte>>, env: Env): (r: (Backup, int))
    requires g.src > 0 && g.dst > 0
    ensures r.0 == bk.(dest := r.0.dest, file := r.0.file)
  {
    if pages == [] && env.newDb != SQLITE_OK && env.newDb != SQLITE_DONE then (bk, env.newDb)
    else if env.updateMeta != SQLITE_OK then (bk, env.updateMeta)
    else if env.walMode && env.setVersion != SQLITE_OK then (bk.(dest := WithCookie(bk)), env.setVersion)
    else
      var dest := Patched(bk, env);
      var w := WriteFile(g, dest, pages, Max(|pages|, 1), env);
      if w.1 != SQLITE_OK then (bk.(dest := dest), w.1)
      else (bk.(dest := dest, file := w.0), if env.commitTwo == SQLITE_OK then SQLITE_DONE else env.commitTwo)
  }

  // ---- sqlite3_backup_step() -----------------------------------------------------------

  // Up to the copy loop: transactions, page size, locks.
  function Prepare(src: nat, bk: Backup, env: Env): (r: (Backup, int))
    ensures r.0 == bk.(pgszDest := r.0.pgszDest, bDestLocked := r.0.bDestLocked, iDestSchema := r.0.iDestSchema)
    ensures bk.bDestLocked ==> r.0 == bk
    ensures r.0.pgszDest == bk.pgszDest || r.0.pgszDest == src
    ensures r.1 == SQLITE_OK ==> r.0.bDestLocked
  {
    var rc0 := if bk.hasDestDb && env.srcWriting then SQLITE_BUSY else env.beginSrc;
    if bk.bDestLocked then
      (bk, if rc0 == SQLITE_OK && env.walMode && src != bk.pgszDest then SQLITE_READONLY else rc0)
    else if rc0 != SQLITE_OK then (bk, rc0)
    else
      var b := if env.tookPgsz then bk.(pgszDest := src) else bk;
      if env.setPgsz == SQLITE_NOMEM then (b, SQLITE_NOMEM)
      else if env.beginDest != SQLITE_OK then (b, env.beginDest)
      else
        var c := b.(bDestLocked := true, iDestSchema := env.schema);
        (c, if env.walMode && src != c.pgszDest then SQLITE_READONLY else SQLITE_OK)
  }

  // The counters that backup_remaining() and backup_pagecount() report.
  function Counted(bk: Backup, nSrcPage: nat): Backup {
    bk.(nPagecount := nSrcPage,
        nRemaining := if nSrcPage + 1 >= bk.iNext then nSrcPage + 1 - bk.iNext else Rem32(nSrcPage + 1 - bk.iNext))
  }

  // A difference of unsigned 32-bit page numbers.
  function Rem32(n: int): nat
    decreases if n < 0 then -n else 0
  {
    if n < 0 then Rem32(n + TWO32) else n
  }

  // The step up to the end of the copy loop.
  function Copied(src: nat, pending: nat, bk: Backup, pages: seq<seq<Byte>>, nPage: int, env: Env): (r: (Backup, int))
    requires src > 0 && bk.pgszDest > 0 && bk.iNext > 0
    requires forall k {:trigger pages[k]} :: 0 <= k < |pages| ==> |pages[k]| == src
    ensures r.0.pgszDest > 0 && r.0.iNext >= bk.iNext
    ensures r.0.isAttached == bk.isAttached && r.0.rc == bk.rc && r.0.file == bk.file && r.0.hasDestDb == bk.hasDestDb
  {
    var p := Prepare(src, bk, env);
    if p.1 != SQLITE_OK then p else CopyPages(Geo(src, pending, p.0), p.0, pages, nPage, env)
  }

  // Whether the step goes on to finish the backup.
  predicate Finishes(src: nat, pending: nat, bk: Backup, pages: seq<seq<Byte>>, nPage: int, env: Env)
    requires src > 0 && bk.pgszDest > 0 && bk.iNext > 0
    requires forall k {:trigger pages[k]} :: 0 <= k < |pages| ==> |pages[k]| == src
  {
    var c := Copied(src, pending, bk, pages, nPage, env);
    !IsFatal(bk.rc) && c.1 == SQLITE_OK && c.0.iNext > |pages|
  }

  function Step(src: nat, pending: nat, bk: Backup, pages: seq<seq<Byte>>, nPage: int, env: Env): (r: (Backup, int))
    requires src > 0 && bk.pgszDest > 0 && bk.iNext > 0
    requires forall k {:trigger pages[k]} :: 0 <= k < |pages| ==> |pages[k]| == src
    ensures r.0.pgszDest > 0 && r.0.iNext > 0
    ensures r.1 == r.0.rc
  {
    if IsFatal(bk.rc) then (bk, bk.rc)
    else
      var c := Copied(src, pending, bk, pages, nPage, env);
      if c.1 != SQLITE_OK then Stopped(c.0, c.1)
      else
        var b := Counted(c.0, |pages|);
        if b.iNext > |pages| then
          var f := Finish(Geo(src, pending, b), b, pages, env);
          Stopped(f.0, f.1)
        else (b.(isAttached := true, rc := SQLITE_OK), SQLITE_OK)
  }

  function Stopped(bk: Backup, rc: int): (Backup, int) {
    var e := if rc == SQLITE_IOERR_NOMEM then SQLITE_NOMEM else rc;
    (bk.(rc := e), e)
  }

  // ---- callbacks from the source pager ------------------------------------------------

  // backupUpdate(), for one backup: page k now holds data.
  function Update(src: nat, pending: nat, bk: Backup, k: nat, data: seq<Byte>, nSrcPage: nat, io: Pager): (b: Backup)
    requires src > 0 && bk.pgszDest > 0 && k > 0 && |data| == src
    ensures b == bk.(rc := b.rc, dest := b.dest)
  {
    if !IsFatal(bk.rc) && k < bk.iNext then
      var r := OnePage(Geo(src, pending, bk), bk.dest, bk.destMemdb, k, data, true, nSrcPage, io);
      bk.(dest := r.0, rc := if r.1 != SQLITE_OK then r.1 else bk.rc)
    else bk
  }

  // sqlite3BackupRestart(), for one backup.
  function Restart(bk: Backup): Backup {
    bk.(iNext := 1)
  }
}
