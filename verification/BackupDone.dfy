// When a backup is done, the file of the destination holds every used byte of
// the source; the pages that fell into the destination's pending-byte page
// were written to it directly.
module BackupDone {
  import opened Division
  import opened BackupModel
  import opened BackupCopy
  import opened BackupProtocol
  import opened BackupRun

  // Page k of the source is in the file, but for the page count and what else has
  // been rewritten of the header.
  ghost predicate InFile(g: Geometry, patched: Patch, file: seq<Byte>, k: nat, data: seq<Byte>)
    requires k > 0 && |data| == g.src
  {
    var start := PageOffset(k, g.src);
    && start + g.src <= |file|
    && (forall o: nat {:trigger ByteAt(file, o)} ::
          start <= o < start + g.src && !InCount(o) && !InHeader(o, patched) ==> ByteAt(file, o) == data[o - start])
  }

  // ---- the pending-byte pages -------------------------------------------------------

  // A source with smaller pages: whole numbers of them fill a destination page
  // and reach up to the pending byte.
  ghost predicate Smaller(g: Geometry, r: nat, p: nat, q: nat) {
    && r >= 2 && p > 0 && q > 0 && g.src >= 512
    && g.dst == r * g.src && g.pending == p * g.src && g.pending == q * g.dst
  }

  lemma SmallerIs(g: Geometry) returns (r: nat, p: nat, q: nat)
    requires Fits(g) && g.src < g.dst
    ensures Smaller(g, r, p, q)
  {
    r :| r > 0 && (g.src == r * g.dst || g.dst == r * g.src);
    p :| p > 0 && g.pending == p * g.src;
    q :| q > 0 && g.pending == q * g.dst;
    if g.src == r * g.dst {
      MulOrder(1, r, g.dst);
    }
  }

  // The pages of the source that lie in the hole are those from p + 1 to p + r.
  lemma HolePages(g: Geometry, r: nat, p: nat, q: nat, k: nat)
    requires Smaller(g, r, p, q) && k > 0
    ensures PendingPage(g, g.src) == p + 1 && PendingPage(g, g.dst) == q + 1
    ensures k <= p ==> PageOffset(k, g.src) + g.src <= g.pending
    ensures p < k <= p + r ==> g.pending <= PageOffset(k, g.src) && PageOffset(k, g.src) + g.src <= g.pending + g.dst
    ensures p + r < k ==> g.pending + g.dst <= PageOffset(k, g.src)
  {
    Unique(g.pending, g.src, p, 0);
    Unique(g.pending, g.dst, q, 0);
    PageOffsetIsProduct(k, g.src);
    assert (p + r) * g.src == g.pending + g.dst;
    if k <= p {
      MulOrder(k - 1, p, g.src);
    } else if k <= p + r {
      MulOrder(p, k - 1, g.src);
      MulOrder(k - 1, p + r, g.src);
    } else {
      MulOrder(p + r, k - 1, g.src);
    }
  }

  // ---- the writes into the hole ------------------------------------------------------

  // The files agree outside the pages from k up to kEnd.
  ghost predicate SameElsewhere(g: Geometry, file: seq<Byte>, file': seq<Byte>, k: nat, kEnd: nat) {
    && |file| <= |file'|
    && forall o: nat {:trigger ByteAt(file', o)} ::
         !(PageOffset(k, g.src) <= o < PageOffset(kEnd, g.src)) ==> ByteAt(file', o) == ByteAt(file, o)
  }

  // The pages from k up to kEnd are in the file.
  ghost predicate Writes(g: Geometry, patched: Patch, file: seq<Byte>, pages: seq<seq<Byte>>, k: nat, kEnd: nat) {
    forall l: nat {:trigger pages[l - 1]} ::
      0 < l && k <= l < kEnd && l <= |pages| ==> |pages[l - 1]| == g.src && InFile(g, patched, file, l, pages[l - 1])
  }

  lemma ExtraTurn(g: Geometry, file: seq<Byte>, pages: seq<seq<Byte>>, k: nat, kEnd: nat, env: Env, w: (seq<Byte>, int))
    requires g.src > 0 && SourceOk(pages, g.src) && 0 < k < kEnd <= |pages| + 1
    requires w == ExtraWrites(g, file, pages, PageOffset(k, g.src), PageOffset(kEnd, g.src), env) && w.1 == SQLITE_OK
    ensures |pages[k - 1]| == g.src
    ensures w == ExtraWrites(g, WriteAt(file, 0, PageOffset(k, g.src), pages[k - 1]), pages,
                             PageOffset(k + 1, g.src), PageOffset(kEnd, g.src), env)
  {
    PagesApart(k, kEnd, g.src);
    PageOffsetIsProduct(k, g.src);
    Unique(PageOffset(k, g.src), g.src, k - 1, 0);
  }

  // The loop writes the pages from k up to kEnd and nothing else.
  lemma {:induction false} ExtraWritesOk(g: Geometry, patched: Patch, file: seq<Byte>, pages: seq<seq<Byte>>, k: nat,
          kEnd: nat, env: Env, w: (seq<Byte>, int))
    requires g.src > 0 && SourceOk(pages, g.src) && 0 < k <= kEnd <= |pages| + 1
    requires w == ExtraWrites(g, file, pages, PageOffset(k, g.src), PageOffset(kEnd, g.src), env) && w.1 == SQLITE_OK
    ensures Writes(g, patched, w.0, pages, k, kEnd) && SameElsewhere(g, file, w.0, k, kEnd)
    decreases kEnd - k
  {
    if k < kEnd {
      ExtraTurn(g, file, pages, k, kEnd, env, w);
      var file1 := WriteAt(file, 0, PageOffset(k, g.src), pages[k - 1]);
      ExtraWritesOk(g, patched, file1, pages, k + 1, kEnd, env, w);
      OneWritten(g, patched, file, pages[k - 1], k, kEnd, file1, w.0);
      WritesOneMore(g, patched, w.0, pages, k, kEnd);
    } else {
      assert w == (file, SQLITE_OK);
    }
  }

  lemma WritesOneMore(g: Geometry, patched: Patch, file: seq<Byte>, pages: seq<seq<Byte>>, k: nat, kEnd: nat)
    requires 0 < k <= |pages| && |pages[k - 1]| == g.src && InFile(g, patched, file, k, pages[k - 1])
    requires Writes(g, patched, file, pages, k + 1, kEnd)
    ensures Writes(g, patched, file, pages, k, kEnd)
  {
  }

  lemma OneWritten(g: Geometry, patched: Patch, file: seq<Byte>, data: seq<Byte>, k: nat, kEnd: nat, file1: seq<Byte>,
          file': seq<Byte>)
    requires g.src > 0 && |data| == g.src && 0 < k < kEnd
    requires file1 == WriteAt(file, 0, PageOffset(k, g.src), data) && SameElsewhere(g, file1, file', k + 1, kEnd)
    ensures SameElsewhere(g, file, file', k, kEnd) && InFile(g, patched, file', k, data)
  {
    PagesApart(k, kEnd, g.src);
    forall o: nat | o < PageOffset(k + 1, g.src) || o >= PageOffset(kEnd, g.src)
      ensures ByteAt(file', o) == ByteAt(file1, o)
    {
    }
  }

  // ---- the file that the commit leaves ------------------------------------------------

  // Page k lies outside the hole and is in the image, so it is in the file that
  // the pager writes.
  lemma CommittedPage(g: Geometry, patched: Patch, dest: seq<Byte>, oldFile: seq<Byte>, pages: seq<seq<Byte>>, k: nat,
          f: seq<Byte>)
    requires g.src > 0 && KeptAt(g, dest, pages, k, patched) && f == Committed(g, dest, oldFile)
    requires forall o: nat {:trigger InHole(g, o)} :: PageOffset(k, g.src) <= o < PageOffset(k, g.src) + g.src ==>
               !InHole(g, o)
    ensures InFile(g, patched, f, k, pages[k - 1])
  {
    assert !InHole(g, PageOffset(k, g.src) + g.src - 1);
    forall o: nat | PageOffset(k, g.src) <= o < PageOffset(k, g.src) + g.src
      ensures ByteAt(f, o) == ByteAt(dest, o)
    {
      assert !InHole(g, o);
    }
  }

  lemma StaysInFile(g: Geometry, patched: Patch, file: seq<Byte>, file': seq<Byte>, k: nat, kEnd: nat, l: nat,
          data: seq<Byte>)
    requires g.src > 0 && |data| == g.src && l > 0 && InFile(g, patched, file, l, data) &&
             SameElsewhere(g, file, file', k, kEnd)
    requires 0 < k <= kEnd && (l < k || l >= kEnd)
    ensures InFile(g, patched, file', l, data)
  {
    if l < k {
      PagesApart(l, k, g.src);
    } else if l > kEnd {
      PagesApart(kEnd, l, g.src);
    }
  }

  lemma TruncatedPage(g: Geometry, patched: Patch, file: seq<Byte>, n: nat, k: nat, data: seq<Byte>, f: seq<Byte>)
    requires g.src > 0 && 0 < k <= n && |data| == g.src && InFile(g, patched, file, k, data)
    requires f == Truncated(file, PageOffset(n + 1, g.src))
    ensures InFile(g, patched, f, k, data)
  {
    PagesApart(k, n + 1, g.src);
    forall o: nat | o < PageOffset(k, g.src) + g.src
      ensures ByteAt(f, o) == ByteAt(file, o)
    {
    }
  }

  // Everything the source holds, except its own pending-byte page, is there.
  ghost predicate Complete(g: Geometry, patched: Patch, file: seq<Byte>, pages: seq<seq<Byte>>)
    requires g.src > 0
  {
    forall k: nat {:trigger pages[k - 1]} ::
      0 < k <= |pages| && k != PendingPage(g, g.src) ==>
          |pages[k - 1]| == g.src && InFile(g, patched, file, k, pages[k - 1])
  }

  // The pages written into the hole: those after the source's own pending-byte
  // page, as far as the hole and the source go.
  function HoleEnd(r: nat, p: nat, n: nat): nat {
    Max(p + 2, Min(p + r + 1, n + 1))
  }

  lemma HoleOffsets(g: Geometry, r: nat, p: nat, q: nat, n: nat)
    requires Smaller(g, r, p, q) && n > 0
    ensures g.pending + g.src == PageOffset(p + 2, g.src)
    ensures if n + 1 < p + 2 then Min(g.pending + g.dst, PageOffset(n + 1, g.src)) <= g.pending + g.src
            else Min(g.pending + g.dst, PageOffset(n + 1, g.src)) == PageOffset(HoleEnd(r, p, n), g.src)
  {
    PageOffsetIsProduct(p + 2, g.src);
    PageOffsetIsProduct(p + r + 1, g.src);
    PageOffsetIsProduct(n + 1, g.src);
    assert (p + 1) * g.src == g.pending + g.src;
    assert (p + r) * g.src == g.pending + g.dst;
    MulOrder(Min(n, p + r), Max(n, p + r), g.src);
    if n < p + 1 {
      MulOrder(n, p + 1, g.src);
    }
  }

  lemma ExtraRange(g: Geometry, patched: Patch, f: seq<Byte>, pages: seq<seq<Byte>>, r: nat, p: nat, q: nat, env: Env,
          x: (seq<Byte>, int))
    requires Smaller(g, r, p, q) && SourceOk(pages, g.src) && pages != []
    requires x == ExtraWrites(g, f, pages, g.pending + g.src, Min(g.pending + g.dst, PageOffset(|pages| + 1, g.src)),
             env)
    requires x.1 == SQLITE_OK
    ensures SameElsewhere(g, f, x.0, p + 2, HoleEnd(r, p, |pages|)) &&
            Writes(g, patched, x.0, pages, p + 2, HoleEnd(r, p, |pages|))
  {
    var n := |pages|;
    HoleOffsets(g, r, p, q, n);
    if n + 1 >= p + 2 {
      ExtraWritesOk(g, patched, f, pages, p + 2, HoleEnd(r, p, n), env, x);
    }
  }

  lemma SmallSourcePage(g: Geometry, patched: Patch, dest: seq<Byte>, pages: seq<seq<Byte>>, r: nat, p: nat, q: nat,
          f: seq<Byte>, env: Env,
                        x: seq<Byte>, l: nat)
    requires Smaller(g, r, p, q) && SourceOk(pages, g.src) && 0 < l <= |pages| && l != p + 1
    requires PagesKept(g, dest, pages, |pages| + 1, patched) && f == Committed(g, dest, env.oldFile)
    requires SameElsewhere(g, f, x, p + 2, HoleEnd(r, p, |pages|)) &&
             Writes(g, patched, x, pages, p + 2, HoleEnd(r, p, |pages|))
    ensures |pages[l - 1]| == g.src && InFile(g, patched, x, l, pages[l - 1])
  {
    HolePages(g, r, p, q, l);
    if l <= p || l > p + r {
      assert KeptAt(g, dest, pages, l, patched);
      CommittedPage(g, patched, dest, env.oldFile, pages, l, f);
      StaysInFile(g, patched, f, x, p + 2, HoleEnd(r, p, |pages|), l, pages[l - 1]);
    }
  }

  lemma SmallSourceFile(g: Geometry, patched: Patch, dest: seq<Byte>, pages: seq<seq<Byte>>, env: Env,
          w: (seq<Byte>, int))
    requires Fits(g) && SourceOk(pages, g.src) && g.src < g.dst && pages != []
    requires PagesKept(g, dest, pages, |pages| + 1, patched)
    requires w == WriteFile(g, dest, pages, |pages|, env) && w.1 == SQLITE_OK
    ensures Complete(g, patched, w.0, pages) && |w.0| <= PageOffset(|pages| + 1, g.src)
  {
    var r, p, q := SmallerIs(g);
    var f := Committed(g, dest, env.oldFile);
    var x := ExtraWrites(g, f, pages, g.pending + g.src, Min(g.pending + g.dst, PageOffset(|pages| + 1, g.src)), env);
    assert x.1 == SQLITE_OK && w.0 == Truncated(x.0, PageOffset(|pages| + 1, g.src));
    ExtraRange(g, patched, f, pages, r, p, q, env, x);
    SmallSourceComplete(g, patched, dest, pages, r, p, q, f, env, x.0, w.0);
  }

  lemma SmallSourceComplete(g: Geometry, patched: Patch, dest: seq<Byte>, pages: seq<seq<Byte>>, r: nat, p: nat,
          q: nat, f: seq<Byte>, env: Env,
                            x: seq<Byte>, file: seq<Byte>)
    requires Smaller(g, r, p, q) && SourceOk(pages, g.src)
    requires PagesKept(g, dest, pages, |pages| + 1, patched) && f == Committed(g, dest, env.oldFile)
    requires SameElsewhere(g, f, x, p + 2, HoleEnd(r, p, |pages|)) &&
             Writes(g, patched, x, pages, p + 2, HoleEnd(r, p, |pages|))
    requires file == Truncated(x, PageOffset(|pages| + 1, g.src))
    ensures Complete(g, patched, file, pages)
  {
    HolePages(g, r, p, q, 1);
    forall l: nat {:trigger pages[l - 1]} | 0 < l <= |pages| && l != p + 1
      ensures |pages[l - 1]| == g.src && InFile(g, patched, file, l, pages[l - 1])
    {
      SmallSourcePage(g, patched, dest, pages, r, p, q, f, env, x, l);
      TruncatedPage(g, patched, x, |pages|, l, pages[l - 1], file);
    }
  }

  // ---- a source with larger or equal pages ---------------------------------------------

  lemma LargeSourceIs(g: Geometry) returns (r: nat, p: nat)
    requires Fits(g) && g.src >= g.dst
    ensures r > 0 && p > 0 && g.src == r * g.dst && g.pending == p * g.src
  {
    r :| r > 0 && (g.src == r * g.dst || g.dst == r * g.src);
    p :| p > 0 && g.pending == p * g.src;
    if g.dst == r * g.src {
      MulOrder(1, r, g.src);
      assert g.src == 1 * g.dst;
      r := 1;
    }
  }

  // Only the source's own pending-byte page meets the hole.
  lemma LargePageWhole(g: Geometry, r: nat, p: nat, k: nat)
    requires r > 0 && p > 0 && g.dst >= 512 && g.src == r * g.dst && g.pending == p * g.src && g.src > 0
    requires k > 0 && k != p + 1
    ensures PendingPage(g, g.src) == p + 1
    ensures PageOffset(k, g.src) + g.src <= g.pending || g.pending + g.dst <= PageOffset(k, g.src)
  {
    Unique(g.pending, g.src, p, 0);
    PageOffsetIsProduct(k, g.src);
    MulOrder(1, r, g.dst);
    if k <= p {
      MulOrder(k - 1, p, g.src);
    } else {
      MulOrder(p, k - 1, g.src);
    }
  }

  lemma LargeSourceSize(g: Geometry, r: nat, n: nat)
    requires r > 0 && g.dst > 0 && g.src > 0 && g.src == r * g.dst
    ensures PageOffset(DestTruncate(g, n) + 1, g.dst) == PageOffset(n + 1, g.src)
  {
    Unique(g.src, g.dst, r, 0);
    MulOrder(1, r, g.dst);
    assert DestTruncate(g, n) == n * r;
    PageOffsetIsProduct(n * r + 1, g.dst);
    PageOffsetIsProduct(n + 1, g.src);
    Regroup(n, r, g.dst);
  }

  lemma Regroup(n: nat, r: nat, d: nat)
    ensures (n * r) * d == n * (r * d)
  {
  }

  lemma LargeSourceFile(g: Geometry, patched: Patch, dest: seq<Byte>, pages: seq<seq<Byte>>, env: Env,
          w: (seq<Byte>, int))
    requires Fits(g) && SourceOk(pages, g.src) && g.src >= g.dst && pages != []
    requires PagesKept(g, dest, pages, |pages| + 1, patched)
    requires w == WriteFile(g, dest, pages, |pages|, env) && w.1 == SQLITE_OK
    ensures Complete(g, patched, w.0, pages) && |w.0| <= PageOffset(|pages| + 1, g.src)
  {
    var r, p := LargeSourceIs(g);
    var n, f := |pages|, Committed(g, dest, env.oldFile);
    LargeSourceSize(g, r, n);
    Unique(g.pending, g.src, p, 0);
    forall l: nat {:trigger pages[l - 1]} | 0 < l <= n && l != p + 1
      ensures |pages[l - 1]| == g.src && InFile(g, patched, w.0, l, pages[l - 1])
    {
      LargePageWhole(g, r, p, l);
      assert KeptAt(g, dest, pages, l, patched);
      CommittedPage(g, patched, dest, env.oldFile, pages, l, f);
      TruncatedPage(g, patched, f, n, l, pages[l - 1], w.0);
    }
  }

  // ---- the theorem ------------------------------------------------------------------------

  // No routine that a step calls answers DONE, except sqlite3BtreeNewDb().
  ghost predicate NeverDone(env: Env) {
    && env.beginSrc != SQLITE_DONE && env.setPgsz != SQLITE_DONE && env.beginDest != SQLITE_DONE
    && (forall k :: env.getSrc(k) != SQLITE_DONE) && (forall k :: env.io(k) != SQLITE_DONE)
    && env.updateMeta != SQLITE_DONE && env.setVersion != SQLITE_DONE
    && env.journalRest != SQLITE_DONE && env.commitOne != SQLITE_DONE && (forall k :: env.osWrite(k) != SQLITE_DONE)
    && env.osTruncate != SQLITE_DONE && env.sync != SQLITE_DONE && env.commitTwo != SQLITE_DONE
  }

  lemma {:induction false} CopyLoopNotDone(g: Geometry, dest: seq<Byte>, iEnd: nat, data: seq<Byte>, bUpdate: bool,
          nSrcPage: nat,
                                           io: Pager, iOff: nat)
    requires g.src > 0 && g.dst > 0 && |data| == g.src && forall k :: io(k) != SQLITE_DONE
    ensures CopyLoop(g, dest, iEnd, data, bUpdate, nSrcPage, io, iOff).1 != SQLITE_DONE
    decreases iEnd - iOff
  {
    if iOff < iEnd {
      CopyLoopNotDone(g, dest, iEnd, data, bUpdate, nSrcPage, io, iOff + g.dst);
      CopyLoopNotDone(g, CopyChunk(g, dest, data, bUpdate, nSrcPage, iOff), iEnd, data, bUpdate, nSrcPage, io,
        iOff + g.dst);
    }
  }

  lemma CopyNextNotDone(g: Geometry, bk: Backup, pages: seq<seq<Byte>>, env: Env, r: (Backup, int))
    requires g.src > 0 && g.dst > 0 && 0 < bk.iNext <= |pages| && SourceOk(pages, g.src) && NeverDone(env)
    requires |pages[bk.iNext - 1]| == g.src && r == CopyNext(g, bk, pages, env)
    ensures r.1 != SQLITE_DONE
  {
    var k := bk.iNext;
    CopyLoopNotDone(g, bk.dest, PageOffset(k, g.src) + g.src, pages[k - 1], false, |pages|, env.io,
      PageOffset(k, g.src));
  }

  lemma {:induction false} CopyPagesNotDone(g: Geometry, bk: Backup, pages: seq<seq<Byte>>, budget: int, env: Env)
    requires g.src > 0 && g.dst > 0 && bk.iNext > 0 && SourceOk(pages, g.src) && NeverDone(env)
    ensures CopyPages(g, bk, pages, budget, env).1 != SQLITE_DONE
    decreases |pages| + 1 - bk.iNext
  {
    hide CopyNext;
    if budget != 0 && bk.iNext <= |pages| {
      var r := CopyNext(g, bk, pages, env);
      CopyNextNotDone(g, bk, pages, env, r);
      if r.1 == SQLITE_OK {
        CopyPagesNotDone(g, r.0, pages, budget - 1, env);
      }
    }
  }

  lemma {:induction false} ExtraWritesNotDone(g: Geometry, file: seq<Byte>, pages: seq<seq<Byte>>, iOff: nat,
          iEnd: nat, env: Env)
    requires g.src > 0 && NeverDone(env)
    ensures ExtraWrites(g, file, pages, iOff, iEnd, env).1 != SQLITE_DONE
    decreases iEnd - iOff
  {
    if iOff < iEnd && Quot(iOff, g.src) < |pages| {
      ExtraWritesNotDone(g, WriteAt(file, 0, iOff, pages[Quot(iOff, g.src)]), pages, iOff + g.src, iEnd, env);
    }
  }

  lemma WriteFileNotDone(g: Geometry, dest: seq<Byte>, pages: seq<seq<Byte>>, n: nat, env: Env)
    requires g.src > 0 && g.dst > 0 && NeverDone(env)
    ensures WriteFile(g, dest, pages, n, env).1 != SQLITE_DONE
  {
    ExtraWritesNotDone(g, Committed(g, dest, env.oldFile), pages, g.pending + g.src,
                       Min(g.pending + g.dst, PageOffset(n + 1, g.src)), env);
  }

  // DONE comes from the end of a step that has committed the destination.
  lemma DoneIsCommitted(g: Geometry, bk: Backup, pages: seq<seq<Byte>>, env: Env, f: (Backup, int))
    requires g.src > 0 && g.dst > 0 && NeverDone(env) && f == Finish(g, bk, pages, env) && f.1 == SQLITE_DONE
    ensures WriteFile(g, Patched(bk, env), pages, Max(|pages|, 1), env) == (f.0.file, SQLITE_OK)
  {
    WriteFileNotDone(g, Patched(bk, env), pages, Max(|pages|, 1), env);
  }

  lemma DoneFinishes(src: nat, pending: nat, bk: Backup, pages: seq<seq<Byte>>, nPage: int, env: Env, r: (Backup, int))
    requires src > 0 && bk.pgszDest > 0 && bk.iNext > 0 && SourceOk(pages, src) && NeverDone(env) && !IsFatal(bk.rc)
    requires r == Step(src, pending, bk, pages, nPage, env) && r.1 == SQLITE_DONE
    ensures Finishes(src, pending, bk, pages, nPage, env)
    ensures Finish(Geo(src, pending, r.0), Counted(Copied(src, pending, bk, pages, nPage, env).0, |pages|), pages, env)
            == (r.0.(rc := bk.rc), SQLITE_DONE)
  {
    var p := Prepare(src, bk, env);
    CopyPagesNotDone(Geo(src, pending, p.0), p.0, pages, nPage, env);
  }

  lemma CommittedComplete(g: Geometry, bk: Backup, pages: seq<seq<Byte>>, env: Env, patched: Patch, patched': Patch,
          f: (Backup, int))
    requires Fits(g) && SourceOk(pages, g.src) && NeverDone(env) && patched' == Repatched(patched, env.walMode)
    requires PagesKept(g, bk.dest, pages, |pages| + 1, patched)
    requires f == Finish(g, bk, pages, env) && f.1 == SQLITE_DONE
    ensures Complete(g, patched', f.0.file, pages) && |f.0.file| <= PageOffset(Max(|pages|, 1) + 1, g.src)
  {
    DoneIsCommitted(g, bk, pages, env, f);
    var d := Patched(bk, env);
    PatchedHeader(bk, env, d, patched');
    HeaderKept(g, bk.dest, d, pages, |pages| + 1, patched, patched');
    if pages == [] {
      EmptySourceFile(g, d, env, (f.0.file, SQLITE_OK));
    } else if g.src < g.dst {
      SmallSourceFile(g, patched', d, pages, env, (f.0.file, SQLITE_OK));
    } else {
      LargeSourceFile(g, patched', d, pages, env, (f.0.file, SQLITE_OK));
    }
  }

  // An empty source becomes a file of one page.
  lemma EmptySourceFile(g: Geometry, dest: seq<Byte>, env: Env, w: (seq<Byte>, int))
    requires Fits(g) && w == WriteFile(g, dest, [], 1, env) && w.1 == SQLITE_OK
    ensures |w.0| <= PageOffset(2, g.src)
  {
    if g.src >= g.dst {
      var r, p := LargeSourceIs(g);
      LargeSourceSize(g, r, 1);
    }
  }

  // A step that answers DONE has left the complete source, and nothing beyond
  // its end, in the destination file.
  lemma DoneMeansComplete(src: nat, pending: nat, w: World, nPage: int, env: Env, r: (Backup, int))
    requires Inv(src, pending, w) && !IsFatal(w.bk.rc) && Calm(src, pending, w, StepBy(nPage, env)) && NeverDone(env)
    requires r == Step(src, pending, w.bk, w.pages, nPage, env) && r.1 == SQLITE_DONE
    ensures Complete(Geo(src, pending, r.0), Repatched(w.patched, env.walMode), r.0.file, w.pages)
    ensures |r.0.file| <= PageOffset(Max(|w.pages|, 1) + 1, src)
    ensures w.pages != [] && |w.pages| != PendingPage(Geo(src, pending, r.0), src) ==>
              |r.0.file| == PageOffset(|w.pages| + 1, src)
  {
    var c := Copied(src, pending, w.bk, w.pages, nPage, env);
    CopiedKeeps(src, pending, w, nPage, env, c);
    DoneFinishes(src, pending, w.bk, w.pages, nPage, env, r);
    var g, b, patched' := Geo(src, pending, r.0), Counted(c.0, |w.pages|), Repatched(w.patched, env.walMode);
    assert PagesKept(g, b.dest, w.pages, |w.pages| + 1, w.patched);
    CommittedComplete(g, b, w.pages, env, w.patched, patched', (r.0.(rc := w.bk.rc), SQLITE_DONE));
    if w.pages != [] {
      LastPageEnds(g, patched', r.0.file, w.pages);
    }
  }

  lemma LastPageEnds(g: Geometry, patched: Patch, file: seq<Byte>, pages: seq<seq<Byte>>)
    requires g.src > 0 && pages != [] && Complete(g, patched, file, pages)
    ensures |pages| != PendingPage(g, g.src) ==> PageOffset(|pages| + 1, g.src) <= |file|
  {
    var last := pages[|pages| - 1];
    assert |pages| != PendingPage(g, g.src) ==> InFile(g, patched, file, |pages|, last);
  }

  // No step of the run is made in WAL mode.
  ghost predicate NoWal(es: seq<Event>) {
    forall i {:trigger es[i]} :: 0 <= i < |es| && es[i].StepBy? ==> !es[i].env.walMode
  }

  // Without it the file format versions are never rewritten.
  lemma {:induction false} VersionsKept(src: nat, pending: nat, w: World, es: seq<Event>)
    requires Shaped(src, w) && CalmRun(src, pending, w, es) && NoWal(es) && !w.patched.versions
    ensures !Run(src, pending, w, es).patched.versions
    decreases |es|
  {
    if es != [] {
      assert es[0].StepBy? ==> !es[0].env.walMode;
      VersionsKept(src, pending, Apply(src, pending, w, es[0]), es[1..]);
    }
  }

  // From sqlite3_backup_init() through any calm run: if a step then answers DONE,
  // the file holds the source as it is at that moment, and nothing else.  Only the
  // page count and the schema cookie of the header may differ, and in WAL mode the
  // file format versions.
  lemma BackupCompletes(src: nat, pending: nat, w: World, es: seq<Event>, w': World, nPage: int, env: Env,
          r: (Backup, int))
    requires Fits(Geo(src, pending, w.bk)) && SourceOk(w.pages, src) && Fresh(w.bk) && !w.patched.versions
    requires CalmRun(src, pending, w, es) && w' == Run(src, pending, w, es)
    requires !IsFatal(w'.bk.rc) && Calm(src, pending, w', StepBy(nPage, env)) && NeverDone(env)
    requires r == Step(src, pending, w'.bk, w'.pages, nPage, env) && r.1 == SQLITE_DONE
    ensures Complete(Geo(src, pending, r.0), Patch(true, true), r.0.file, w'.pages)
    ensures NoWal(es) && !env.walMode ==> Complete(Geo(src, pending, r.0), Patch(true, false), r.0.file, w'.pages)
    ensures |r.0.file| <= PageOffset(Max(|w'.pages|, 1) + 1, src)
  {
    FreshInv(src, pending, w);
    RunKeeps(src, pending, w, es);
    DoneMeansComplete(src, pending, w', nPage, env, r);
    var g := Geo(src, pending, r.0);
    CompleteWithin(g, Repatched(w'.patched, env.walMode), Patch(true, true), r.0.file, w'.pages);
    if NoWal(es) && !env.walMode {
      VersionsKept(src, pending, w, es);
    }
  }

  lemma CompleteWithin(g: Geometry, patched: Patch, patched': Patch, file: seq<Byte>, pages: seq<seq<Byte>>)
    requires g.src > 0 && Complete(g, patched, file, pages) && Within(patched, patched')
    ensures Complete(g, patched', file, pages)
  {
    forall k: nat {:trigger pages[k - 1]} | 0 < k <= |pages| && k != PendingPage(g, g.src)
      ensures |pages[k - 1]| == g.src && InFile(g, patched', file, k, pages[k - 1])
    {
      assert InFile(g, patched, file, k, pages[k - 1]);
    }
  }
}
