// What the header of the destination holds when a backup is done, in the bytes
// that are not those of the source.
module BackupHeader {
  import opened Division
  import opened BackupModel
  import opened BackupCopy
  import opened BackupProtocol
  import opened BackupRun
  import opened BackupDone

  // The bytes from offset o on.
  ghost predicate Holds(img: seq<Byte>, o: nat, bytes: seq<Byte>) {
    forall i: nat {:trigger bytes[i]} :: i < |bytes| ==> ByteAt(img, o + i) == bytes[i]
  }

  // The images agree on the first 512 bytes.
  ghost predicate SameHeader(dest: seq<Byte>, dest': seq<Byte>) {
    forall o: nat {:trigger ByteAt(dest', o)} :: o < 512 ==> ByteAt(dest', o) == ByteAt(dest, o)
  }

  lemma HeldValue(img: seq<Byte>, o: nat, n: nat)
    requires Holds(img, o, FourBytes(n))
    ensures Get4Byte(img, o) == n % TWO32
  {
    hide FourBytes;
    FourBytesValue(n, img, o);
  }

  lemma HeldOn(dest: seq<Byte>, file: seq<Byte>, o: nat, bytes: seq<Byte>)
    requires SameHeader(dest, file) && Holds(dest, o, bytes) && o + |bytes| <= 512
    ensures Holds(file, o, bytes)
  {
  }

  // ---- the page count ----------------------------------------------------------------

  lemma CountInChunk(g: Geometry, dest: seq<Byte>, data: seq<Byte>, nSrcPage: nat)
    requires g.src > 0 && g.dst > 0 && |data| == g.src
    ensures Holds(CopyChunk(g, dest, data, false, nSrcPage, 0), 28, FourBytes(nSrcPage))
  {
  }

  lemma DataInChunk(g: Geometry, dest: seq<Byte>, data: seq<Byte>, nSrcPage: nat)
    requires g.src >= 512 && g.dst >= 512 && |data| == g.src
    ensures Holds(CopyChunk(g, dest, data, true, nSrcPage, 0), 28, data[28..32])
  {
    Unique(0, g.src, 0, 0);
    var d := CopyChunk(g, dest, data, true, nSrcPage, 0);
    assert forall o: nat {:trigger ByteAt(d, o)} :: o < 512 ==> ByteAt(d, o) == data[o];
  }

  // The first turn for page 1 decides on its first bytes.
  lemma FirstChunkStays(g: Geometry, dest: seq<Byte>, destMemdb: bool, data: seq<Byte>, bUpdate: bool, nSrcPage: nat,
          io: Pager, r: (seq<Byte>, int))
    requires Fits(g) && |data| == g.src && r == OnePage(g, dest, destMemdb, 1, data, bUpdate, nSrcPage, io)
    requires r.1 == SQLITE_OK
    ensures SameHeader(CopyChunk(g, dest, data, bUpdate, nSrcPage, 0), r.0)
  {
    hide CopyChunk;
    FirstTurn(g, 0);
    NextTurn(g, 0, 0);
    HoleIsPendingPage(g, 0);
    var q: nat :| q > 0 && g.pending == q * g.dst;
    assert !InHole(g, 0) by { MulOrder(1, q, g.dst); }
    var d := CopyChunk(g, dest, data, bUpdate, nSrcPage, 0);
    CopyLoopOk(g, 1, 0, d, data, bUpdate, nSrcPage, io, g.dst, r);
  }

  // The copy of page 1 puts the page count into the header.
  lemma CountInPage(g: Geometry, dest: seq<Byte>, destMemdb: bool, data: seq<Byte>, nSrcPage: nat, io: Pager,
          r: (seq<Byte>, int))
    requires Fits(g) && |data| == g.src && r == OnePage(g, dest, destMemdb, 1, data, false, nSrcPage, io) &&
             r.1 == SQLITE_OK
    ensures Holds(r.0, 28, FourBytes(nSrcPage))
  {
    FirstChunkStays(g, dest, destMemdb, data, false, nSrcPage, io, r);
    CountInChunk(g, dest, data, nSrcPage);
    HeldOn(CopyChunk(g, dest, data, false, nSrcPage, 0), r.0, 28, FourBytes(nSrcPage));
  }

  // A write to page 1 that is delivered later brings its own page count.
  lemma DeliveredCount(g: Geometry, dest: seq<Byte>, destMemdb: bool, data: seq<Byte>, nSrcPage: nat, io: Pager,
          r: (seq<Byte>, int))
    requires Fits(g) && |data| == g.src && r == OnePage(g, dest, destMemdb, 1, data, true, nSrcPage, io)
    requires r.1 == SQLITE_OK
    ensures Get4Byte(r.0, 28) == Get4Byte(data, 28)
  {
    FirstChunkStays(g, dest, destMemdb, data, true, nSrcPage, io, r);
    DataInChunk(g, dest, data, nSrcPage);
    var b := data[28..32];
    HeldOn(CopyChunk(g, dest, data, true, nSrcPage, 0), r.0, 28, b);
    assert b[0] == data[28] && b[1] == data[29] && b[2] == data[30] && b[3] == data[31];
  }

  lemma LaterPage(g: Geometry, bk: Backup, pages: seq<seq<Byte>>, env: Env, r: (Backup, int))
    requires Fits(g) && 1 < bk.iNext <= |pages| && SourceOk(pages, g.src) && |pages[bk.iNext - 1]| == g.src
    requires r == CopyNext(g, bk, pages, env)
    ensures SameHeader(bk.dest, r.0.dest)
  {
    var k := bk.iNext;
    PagesApart(1, k, g.src);
    if k != PendingPage(g, g.src) && env.getSrc(k) == SQLITE_OK {
      var o := OnePage(g, bk.dest, bk.destMemdb, k, pages[k - 1], false, |pages|, env.io);
      OnePageOk(g, bk.dest, bk.destMemdb, k, pages[k - 1], false, |pages|, env.io, o);
    }
  }

  lemma {:induction false} LaterPages(g: Geometry, bk: Backup, pages: seq<seq<Byte>>, budget: int, env: Env,
          c: (Backup, int))
    requires Fits(g) && bk.iNext > 1 && SourceOk(pages, g.src) && c == CopyPages(g, bk, pages, budget, env)
    ensures SameHeader(bk.dest, c.0.dest)
    decreases |pages| + 1 - bk.iNext
  {
    if budget != 0 && bk.iNext <= |pages| {
      var r := CopyNext(g, bk, pages, env);
      LaterPage(g, bk, pages, env, r);
      if r.1 == SQLITE_OK {
        LaterPages(g, r.0, pages, budget - 1, env, c);
      }
    }
  }

  // A step that begins with page 1 leaves the number of pages it found.
  lemma CountCopied(g: Geometry, bk: Backup, pages: seq<seq<Byte>>, budget: int, env: Env, c: (Backup, int))
    requires Fits(g) && bk.iNext == 1 && pages != [] && SourceOk(pages, g.src) && budget != 0
    requires c == CopyPages(g, bk, pages, budget, env) && c.1 == SQLITE_OK
    ensures Holds(c.0.dest, 28, FourBytes(|pages|))
  {
    var p: nat :| p > 0 && g.pending == p * g.src;
    Unique(g.pending, g.src, p, 0);
    assert |pages[0]| == g.src;
    var r := CopyNext(g, bk, pages, env);
    CountInPage(g, bk.dest, bk.destMemdb, pages[0], |pages|, env.io, (r.0.dest, r.1));
    LaterPages(g, r.0, pages, budget - 1, env, c);
  }

  // ---- the file -------------------------------------------------------------------------

  lemma HeaderWritten(g: Geometry, dest: seq<Byte>, pages: seq<seq<Byte>>, env: Env, n: nat, w: (seq<Byte>, int))
    requires Fits(g) && SourceOk(pages, g.src) && n == Max(|pages|, 1)
    requires w == WriteFile(g, dest, pages, n, env) && w.1 == SQLITE_OK
    ensures SameHeader(dest, w.0)
  {
    PagesApart(1, n + 1, g.src);
    if g.src < g.dst {
      SmallHeader(g, dest, pages, env, n, w);
    } else {
      var r, p := LargeSourceIs(g);
      LargeSourceSize(g, r, n);
      MulOrder(1, p, g.src);
      CutKeepsHeader(g, dest, Committed(g, dest, env.oldFile), Committed(g, dest, env.oldFile),
        PageOffset(n + 1, g.src), w.0);
    }
  }

  lemma ExtraKeepsHeader(g: Geometry, f: seq<Byte>, pages: seq<seq<Byte>>, n: nat, r: nat, p: nat, q: nat, env: Env,
          x: (seq<Byte>, int))
    requires Smaller(g, r, p, q) && SourceOk(pages, g.src) && n == Max(|pages|, 1)
    requires x == ExtraWrites(g, f, pages, g.pending + g.src, Min(g.pending + g.dst, PageOffset(n + 1, g.src)), env)
    requires x.1 == SQLITE_OK
    ensures SameHeader(f, x.0)
  {
    if pages != [] {
      ExtraRange(g, Patch(false, false), f, pages, r, p, q, env, x);
      PagesApart(1, p + 2, g.src);
    } else {
      MulOrder(1, p, g.src);
    }
  }

  lemma SmallHeader(g: Geometry, dest: seq<Byte>, pages: seq<seq<Byte>>, env: Env, n: nat, w: (seq<Byte>, int))
    requires Fits(g) && SourceOk(pages, g.src) && n == Max(|pages|, 1) && g.src < g.dst &&
             PageOffset(n + 1, g.src) >= g.src
    requires w == WriteFile(g, dest, pages, n, env) && w.1 == SQLITE_OK
    ensures SameHeader(dest, w.0)
  {
    var r, p, q := SmallerIs(g);
    MulOrder(1, p, g.src);
    var f := Committed(g, dest, env.oldFile);
    var x := ExtraWrites(g, f, pages, g.pending + g.src, Min(g.pending + g.dst, PageOffset(n + 1, g.src)), env);
    ExtraKeepsHeader(g, f, pages, n, r, p, q, env, x);
    CutKeepsHeader(g, dest, f, x.0, PageOffset(n + 1, g.src), w.0);
  }

  lemma CutKeepsHeader(g: Geometry, dest: seq<Byte>, f: seq<Byte>, x: seq<Byte>, size: nat, file: seq<Byte>)
    requires g.pending >= 512 && size >= 512 && SameHeader(f, x) && file == Truncated(x, size)
    requires forall o: nat {:trigger ByteAt(f, o)} :: !(g.pending <= o < g.pending + g.dst) ==>
               ByteAt(f, o) == ByteAt(dest, o)
    ensures SameHeader(dest, file)
  {
    forall o: nat | o < 512
      ensures ByteAt(file, o) == ByteAt(dest, o)
    {
      assert ByteAt(x, o) == ByteAt(f, o) == ByteAt(dest, o);
    }
  }

  lemma PatchIs(bk: Backup, env: Env)
    ensures Holds(Patched(bk, env), 40, FourBytes(bk.iDestSchema + 1))
    ensures env.walMode ==> Holds(Patched(bk, env), 18, [2, 2])
    ensures forall b: seq<Byte> {:trigger Holds(bk.dest, 28, b)} :: |b| == 4 && Holds(bk.dest, 28, b) ==>
              Holds(Patched(bk, env), 28, b)
  {
    var c := WithCookie(bk);
    assert forall o: nat {:trigger ByteAt(c, o)} :: ByteAt(c, o) == ByteAt(c, o);
  }

  // Whatever the commit answers, the header of the image has been rewritten.
  lemma HeaderIsRewritten(g: Geometry, bk: Backup, pages: seq<seq<Byte>>, env: Env, f: (Backup, int))
    requires g.src > 0 && g.dst > 0 && f == Finish(g, bk, pages, env)
    requires pages == [] ==> env.newDb == SQLITE_OK || env.newDb == SQLITE_DONE
    requires env.updateMeta == SQLITE_OK && (env.walMode ==> env.setVersion == SQLITE_OK)
    ensures Get4Byte(f.0.dest, 40) == (bk.iDestSchema + 1) % TWO32
    ensures env.walMode ==> ByteAt(f.0.dest, 18) == ByteAt(f.0.dest, 19) == 2
  {
    PatchIs(bk, env);
    HeldValue(f.0.dest, 40, bk.iDestSchema + 1);
  }

  // When a step answers DONE the file has the schema cookie after the one that was
  // found when the destination was locked, in WAL mode the versions of that mode,
  // and, if the step began with page 1, the page count.
  lemma DoneHeader(src: nat, pending: nat, w: World, nPage: int, env: Env, r: (Backup, int))
    requires Inv(src, pending, w) && !IsFatal(w.bk.rc) && NeverDone(env)
    requires r == Step(src, pending, w.bk, w.pages, nPage, env) && r.1 == SQLITE_DONE
    ensures Get4Byte(r.0.file, 40) == ((if w.bk.bDestLocked then w.bk.iDestSchema else env.schema) + 1) % TWO32
    ensures env.walMode ==> ByteAt(r.0.file, 18) == ByteAt(r.0.file, 19) == 2
    ensures w.bk.iNext == 1 && w.pages != [] ==> Get4Byte(r.0.file, 28) == |w.pages| % TWO32
  {
    hide FourBytes, Get4Byte, WriteFile;
    var p := Prepare(src, w.bk, env);
    var c := Copied(src, pending, w.bk, w.pages, nPage, env);
    PrepareKeeps(src, pending, w, env, p);
    DoneFinishes(src, pending, w.bk, w.pages, nPage, env, r);
    var g, b := Geo(src, pending, r.0), Counted(c.0, |w.pages|);
    DoneIsCommitted(g, b, w.pages, env, (r.0.(rc := w.bk.rc), SQLITE_DONE));
    HeaderWritten(g, Patched(b, env), w.pages, env, Max(|w.pages|, 1), (r.0.file, SQLITE_OK));
    PatchIs(b, env);
    if w.bk.iNext == 1 && w.pages != [] {
      CountCopied(g, p.0, w.pages, nPage, env, c);
      HeldOn(Patched(b, env), r.0.file, 28, FourBytes(|w.pages|));
      HeldValue(r.0.file, 28, |w.pages|);
    }
    HeldOn(Patched(b, env), r.0.file, 40, FourBytes(b.iDestSchema + 1));
    HeldValue(r.0.file, 40, b.iDestSchema + 1);
  }
}
