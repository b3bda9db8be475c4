// What happens when a copy or the commit of a backup is told to try again: the
// exact conditions under which the prefix invariant is lost.
module BackupFailure {
  import opened Division
  import opened BackupModel
  import opened BackupCopy
  import opened BackupProtocol
  import opened BackupRun
  import opened BackupDone

  // Where the copy loop gives up: the offset of the turn whose destination page
  // is refused, or iEnd.
  function FailAt(g: Geometry, iEnd: nat, io: Pager, iOff: nat): (o: nat)
    requires g.dst > 0
    decreases iEnd - iOff
  {
    if iOff >= iEnd then iOff
    else
      var iDest := Quot(iOff, g.dst) + 1;
      if iDest != PendingPage(g, g.dst) && io(iDest) != SQLITE_OK then iOff else FailAt(g, iEnd, io, iOff + g.dst)
  }

  function FailCode(g: Geometry, iEnd: nat, io: Pager, iOff: nat): int
    requires g.dst > 0
  {
    CodeAt(g, iEnd, io, FailAt(g, iEnd, io, iOff))
  }

  function CodeAt(g: Geometry, iEnd: nat, io: Pager, o: nat): int
    requires g.dst > 0
  {
    if o < iEnd then io(Quot(o, g.dst) + 1) else SQLITE_OK
  }

  lemma {:induction false} FailAtIs(g: Geometry, k: nat, start: nat, io: Pager, iOff: nat)
    requires Fits(g) && k > 0 && start == PageOffset(k, g.src) <= iOff && Turn(g, start, iOff)
    ensures FailAt(g, start + g.src, io, iOff) >= iOff
    ensures FailAt(g, start + g.src, io, iOff) < start + g.src ==>
              !InHole(g, FailAt(g, start + g.src, io, iOff)) && Turn(g, start, FailAt(g, start + g.src, io, iOff))
              && FailCode(g, start + g.src, io, iOff) != SQLITE_OK
    decreases start + g.src - iOff
  {
    if iOff < start + g.src {
      HoleIsPendingPage(g, iOff);
      NextTurn(g, start, iOff);
      var iDest := Quot(iOff, g.dst) + 1;
      if iDest == PendingPage(g, g.dst) || io(iDest) == SQLITE_OK {
        FailAtIs(g, k, start, io, iOff + g.dst);
      }
    }
  }

  // One turn of the loop, and where it gives up then.
  lemma LoopTurn(g: Geometry, dest: seq<Byte>, iEnd: nat, data: seq<Byte>, bUpdate: bool, nSrcPage: nat, io: Pager,
          iOff: nat,
                 d: seq<Byte>, iDest: nat)
    requires g.src > 0 && g.dst > 0 && |data| == g.src && iOff < iEnd && iDest == Quot(iOff, g.dst) + 1
    requires d == if iDest == PendingPage(g, g.dst) then dest else CopyChunk(g, dest, data, bUpdate, nSrcPage, iOff)
    ensures if iDest != PendingPage(g, g.dst) && io(iDest) != SQLITE_OK
            then CopyLoop(g, dest, iEnd, data, bUpdate, nSrcPage, io, iOff) == (dest, io(iDest)) &&
              FailAt(g, iEnd, io, iOff) == iOff
            else CopyLoop(g, dest, iEnd, data, bUpdate, nSrcPage, io, iOff)
                 == CopyLoop(g, d, iEnd, data, bUpdate, nSrcPage, io, iOff + g.dst)
                 && FailAt(g, iEnd, io, iOff) == FailAt(g, iEnd, io, iOff + g.dst)
  {
  }

  // The answer of the loop does not depend on what is copied.
  lemma {:induction false} LoopAnswers(g: Geometry, dest: seq<Byte>, iEnd: nat, data: seq<Byte>, bUpdate: bool,
                                       nSrcPage: nat, io: Pager, iOff: nat, r: (seq<Byte>, int), o: nat)
    requires g.src > 0 && g.dst > 0 && |data| == g.src
    requires r == CopyLoop(g, dest, iEnd, data, bUpdate, nSrcPage, io, iOff) && o == FailAt(g, iEnd, io, iOff)
    ensures r.1 == CodeAt(g, iEnd, io, o)
    decreases iEnd - iOff
  {
    if iOff < iEnd {
      var iDest := Quot(iOff, g.dst) + 1;
      var d := if iDest == PendingPage(g, g.dst) then dest else CopyChunk(g, dest, data, bUpdate, nSrcPage, iOff);
      LoopTurn(g, dest, iEnd, data, bUpdate, nSrcPage, io, iOff, d, iDest);
      if iDest == PendingPage(g, g.dst) || io(iDest) == SQLITE_OK {
        LoopAnswers(g, d, iEnd, data, bUpdate, nSrcPage, io, iOff + g.dst, r, o);
      }
    }
  }

  lemma TurnLeaves(g: Geometry, start: nat, iOff: nat, dest: seq<Byte>, data: seq<Byte>, d: seq<Byte>, o: nat)
    requires |data| == g.src && start <= iOff && TurnDone(g, start, iOff, dest, data, d) && o >= iOff + g.dst
    ensures ByteAt(d, o) == ByteAt(dest, o)
  {
  }

  // The page at which it gives up is left as it was.
  lemma {:induction false} LoopLeaves(g: Geometry, k: nat, start: nat, dest: seq<Byte>, data: seq<Byte>, bUpdate: bool,
                                      nSrcPage: nat, io: Pager, iOff: nat, r: (seq<Byte>, int), o: nat)
    requires Fits(g) && k > 0 && |data| == g.src && start == PageOffset(k, g.src) <= iOff && Turn(g, start, iOff)
    requires r == CopyLoop(g, dest, start + g.src, data, bUpdate, nSrcPage, io, iOff)
    requires o == FailAt(g, start + g.src, io, iOff)
    ensures ByteAt(r.0, o) == ByteAt(dest, o)
    decreases start + g.src - iOff
  {
    if iOff < start + g.src {
      var iDest := Quot(iOff, g.dst) + 1;
      NextTurn(g, start, iOff);
      var d := if iDest == PendingPage(g, g.dst) then dest else CopyChunk(g, dest, data, bUpdate, nSrcPage, iOff);
      LoopTurn(g, dest, start + g.src, data, bUpdate, nSrcPage, io, iOff, d, iDest);
      if iDest == PendingPage(g, g.dst) || io(iDest) == SQLITE_OK {
        LoopLeaves(g, k, start, d, data, bUpdate, nSrcPage, io, iOff + g.dst, r, o);
        FailAtIs(g, k, start, io, iOff + g.dst);
        ChunkLeaves(g, k, start, dest, data, bUpdate, nSrcPage, iOff, o);
      }
    }
  }

  lemma ChunkLeaves(g: Geometry, k: nat, start: nat, dest: seq<Byte>, data: seq<Byte>, bUpdate: bool, nSrcPage: nat,
          iOff: nat, o: nat)
    requires Fits(g) && k > 0 && |data| == g.src && start == PageOffset(k, g.src) <= iOff < start + g.src &&
             o >= iOff + g.dst
    ensures ByteAt(CopyChunk(g, dest, data, bUpdate, nSrcPage, iOff), o) == ByteAt(dest, o)
  {
    var d := CopyChunk(g, dest, data, bUpdate, nSrcPage, iOff);
    OffsetInPage(k, g.src, start, iOff);
    CopyChunkOk(g, start, dest, data, bUpdate, nSrcPage, iOff, d);
    TurnLeaves(g, start, iOff, dest, data, d, o);
  }

  // A turn does not start inside the page count of the header.
  lemma TurnNotInCount(g: Geometry, k: nat, start: nat, o: nat)
    requires Fits(g) && k > 0 && start == PageOffset(k, g.src) && Turn(g, start, o)
    ensures !InCount(o)
  {
    var t: nat :| o == start + t * g.dst;
    PageOffsetIsProduct(k, g.src);
    if k > 1 {
      MulOrder(1, k - 1, g.src);
    }
    if t > 0 {
      MulOrder(1, t, g.dst);
    }
  }

  // ---- the copy of the next page ------------------------------------------------------

  // The copy of page iNext holding data ends in a fatal error or keeps the page.
  ghost predicate CopySafe(g: Geometry, bk: Backup, pages: seq<seq<Byte>>, env: Env, data: seq<Byte>)
    requires g.src > 0 && g.dst > 0 && 0 < bk.iNext <= |pages| && |data| == g.src
  {
    var r := CopyNext(g, bk, pages[bk.iNext - 1 := data], env);
    IsFatal(r.1) || PageCopied(g, r.0.dest, bk.iNext, data)
  }

  function NextCode(g: Geometry, bk: Backup, env: Env): int
    requires g.src > 0 && g.dst > 0 && bk.iNext > 0
  {
    if env.getSrc(bk.iNext) != SQLITE_OK then env.getSrc(bk.iNext)
    else if g.src != g.dst && bk.destMemdb then SQLITE_READONLY
    else FailCode(g, PageOffset(bk.iNext, g.src) + g.src, env.io, PageOffset(bk.iNext, g.src))
  }

  lemma CopyNextCode(g: Geometry, bk: Backup, pages: seq<seq<Byte>>, env: Env, data: seq<Byte>, r: (Backup, int))
    requires Fits(g) && 0 < bk.iNext <= |pages| && |data| == g.src && bk.iNext != PendingPage(g, g.src)
    requires r == CopyNext(g, bk, pages[bk.iNext - 1 := data], env)
    ensures r.1 == NextCode(g, bk, env)
    ensures r.1 == SQLITE_OK ==> PageCopied(g, r.0.dest, bk.iNext, data)
    ensures env.getSrc(bk.iNext) != SQLITE_OK ==> r.0.dest == bk.dest
  {
    var k, start := bk.iNext, PageOffset(bk.iNext, g.src);
    if env.getSrc(k) == SQLITE_OK {
      var o := OnePage(g, bk.dest, bk.destMemdb, k, data, false, |pages|, env.io);
      OnePageOk(g, bk.dest, bk.destMemdb, k, data, false, |pages|, env.io, o);
      if g.src == g.dst || !bk.destMemdb {
        LoopAnswers(g, bk.dest, start + g.src, data, false, |pages|, env.io, start, o,
          FailAt(g, start + g.src, env.io, start));
      }
    }
  }

  // The offset at which a refused copy certainly left the destination alone.
  function WitnessOffset(g: Geometry, bk: Backup, env: Env): nat
    requires g.src > 0 && g.dst > 0 && bk.iNext > 0
  {
    var start := PageOffset(bk.iNext, g.src);
    if env.getSrc(bk.iNext) != SQLITE_OK then start else FailAt(g, start + g.src, env.io, start)
  }

  lemma RefusedByte(g: Geometry, bk: Backup, pages: seq<seq<Byte>>, env: Env, data: seq<Byte>, r: (Backup, int), o: nat)
    requires Fits(g) && 0 < bk.iNext <= |pages| && |data| == g.src && bk.iNext != PendingPage(g, g.src)
    requires r == CopyNext(g, bk, pages[bk.iNext - 1 := data], env) && o == WitnessOffset(g, bk, env)
    requires Soft(NextCode(g, bk, env)) && !InHole(g, PageOffset(bk.iNext, g.src))
    ensures PageOffset(bk.iNext, g.src) <= o < PageOffset(bk.iNext, g.src) + g.src && !InHole(g, o) && !InCount(o)
    ensures ByteAt(r.0.dest, o) == ByteAt(bk.dest, o)
  {
    var k, start := bk.iNext, PageOffset(bk.iNext, g.src);
    FirstTurn(g, start);
    if env.getSrc(k) == SQLITE_OK {
      FailAtIs(g, k, start, env.io, start);
      var p := OnePage(g, bk.dest, bk.destMemdb, k, data, false, |pages|, env.io);
      LoopLeaves(g, k, start, bk.dest, data, false, |pages|, env.io, start, p, o);
    }
    TurnNotInCount(g, k, start, o);
  }

  // A page that lies in the destination's pending-byte page as a whole.
  lemma HiddenPage(g: Geometry, k: nat, dest: seq<Byte>, data: seq<Byte>)
    requires Fits(g) && k > 0 && |data| == g.src && k != PendingPage(g, g.src) && InHole(g, PageOffset(k, g.src))
    ensures PageCopied(g, dest, k, data)
  {
    if g.src < g.dst {
      var r, p, q := SmallerIs(g);
      HolePages(g, r, p, q, k);
    } else {
      var r, p := LargeSourceIs(g);
      Unique(g.pending, g.src, p, 0);
      LargePageWhole(g, r, p, k);
    }
  }

  // A content for which a refused copy of the page is not safe.
  lemma RefusedContent(g: Geometry, bk: Backup, pages: seq<seq<Byte>>, env: Env) returns (data: seq<Byte>)
    requires Fits(g) && 0 < bk.iNext <= |pages| && bk.iNext != PendingPage(g, g.src)
    requires Soft(NextCode(g, bk, env)) && !InHole(g, PageOffset(bk.iNext, g.src))
    ensures |data| == g.src && !CopySafe(g, bk, pages, env, data)
  {
    var o := WitnessOffset(g, bk, env);
    var b: Byte := if ByteAt(bk.dest, o) == 0 then 1 else 0;
    data := seq(g.src, _ => b);
    var r := CopyNext(g, bk, pages[bk.iNext - 1 := data], env);
    CopyNextCode(g, bk, pages, env, data, r);
    RefusedByte(g, bk, pages, env, data, r, o);
  }

  // Whatever page iNext holds, copying it is safe: exactly when it is not told to
  // try again, or the page lies in the destination's pending-byte page anyway.
  lemma CopyIsSafeIff(g: Geometry, bk: Backup, pages: seq<seq<Byte>>, env: Env)
    requires Fits(g) && 0 < bk.iNext <= |pages| && bk.iNext != PendingPage(g, g.src)
    ensures (forall data: seq<Byte> :: |data| == g.src ==> CopySafe(g, bk, pages, env, data)) <==>
            !Soft(NextCode(g, bk, env)) || InHole(g, PageOffset(bk.iNext, g.src))
  {
    if Soft(NextCode(g, bk, env)) && !InHole(g, PageOffset(bk.iNext, g.src)) {
      var data := RefusedContent(g, bk, pages, env);
    } else {
      forall data: seq<Byte> | |data| == g.src
        ensures CopySafe(g, bk, pages, env, data)
      {
        SafeCopy(g, bk, pages, env, data);
      }
    }
  }

  lemma SafeCopy(g: Geometry, bk: Backup, pages: seq<seq<Byte>>, env: Env, data: seq<Byte>)
    requires Fits(g) && 0 < bk.iNext <= |pages| && bk.iNext != PendingPage(g, g.src) && |data| == g.src
    requires !Soft(NextCode(g, bk, env)) || InHole(g, PageOffset(bk.iNext, g.src))
    ensures CopySafe(g, bk, pages, env, data)
  {
    var r := CopyNext(g, bk, pages[bk.iNext - 1 := data], env);
    CopyNextCode(g, bk, pages, env, data, r);
    if InHole(g, PageOffset(bk.iNext, g.src)) {
      HiddenPage(g, bk.iNext, r.0.dest, data);
    }
  }

  // ---- the commit of a backup that is not attached -----------------------------------------

  // The step copies everything, the backup is not attached to the source pager, and
  // the commit is told to try again.
  ghost predicate CommitRefused(src: nat, pending: nat, w: World, nPage: int, env: Env)
    requires Shaped(src, w)
  {
    && Finishes(src, pending, w.bk, w.pages, nPage, env) && !w.bk.isAttached
    && Soft(Step(src, pending, w.bk, w.pages, nPage, env).1)
  }

  // A write of data to page 1 that follows leaves the prefix invariant, unless its
  // own copy is told to try again.
  ghost predicate WriteReaches(src: nat, pending: nat, w: World, data: seq<Byte>, io: Pager)
    requires Shaped(src, w)
  {
    Allowed(src, pending, w, Write(1, data, io)) && Calm(src, pending, w, Write(1, data, io)) ==>
      var w' := Apply(src, pending, w, Write(1, data, io));
      IsFatal(w'.bk.rc) || PagesKept(Geo(src, pending, w'.bk), w'.bk.dest, w'.pages, w'.bk.iNext, w'.patched)
  }

  // A backup that copied everything in its first step is not attached to the
  // source pager.  If its commit is told to try again, the next write to page 1
  // does not reach it, and the invariant is lost.
  lemma UnattachedCommitGoesStale(src: nat, pending: nat, w: World, nPage: int, env: Env, w': World, io: Pager)
    returns (data: seq<Byte>)
    requires Inv(src, pending, w) && w.pages != [] && CommitRefused(src, pending, w, nPage, env)
    requires w' == Apply(src, pending, w, StepBy(nPage, env))
    ensures |data| == src && !WriteReaches(src, pending, w', data, io)
  {
    var g := Geo(src, pending, w'.bk);
    var b: Byte := if ByteAt(w'.bk.dest, 0) == 0 then 1 else 0;
    data := seq(src, _ => b);
    var p: nat :| p > 0 && pending == p * src;
    Unique(pending, src, p, 0);
    NotKept(g, w'.bk.dest, Written(w'.pages, 1, data), w'.bk.iNext, w'.patched);
  }

  lemma NotKept(g: Geometry, dest: seq<Byte>, pages: seq<seq<Byte>>, n: nat, patched: Patch)
    requires g.src > 0 && g.pending > 0 && PendingPage(g, g.src) > 1 && n > 1
    requires pages != [] && |pages[0]| == g.src && pages[0][0] != ByteAt(dest, 0)
    ensures !PagesKept(g, dest, pages, n, patched)
  {
    assert !InHole(g, 0) && !InCount(0) && !InHeader(0, patched);
    assert !KeptAt(g, dest, pages, 1, patched);
  }

  // After a step in which no page copy was told to try again, every write to page 1
  // reaches the backup: exactly when it was not the commit of an unattached backup
  // that was.
  lemma StepIsSafeIff(src: nat, pending: nat, w: World, nPage: int, env: Env, w': World)
    requires Inv(src, pending, w) && w.pages != [] && w' == Apply(src, pending, w, StepBy(nPage, env))
    requires !IsFatal(w.bk.rc) && Prepare(src, w.bk, env).1 == SQLITE_OK ==>
               !Soft(Copied(src, pending, w.bk, w.pages, nPage, env).1)
    ensures (forall data: seq<Byte>, io: Pager {:trigger WriteReaches(src, pending, w', data, io)} ::
               |data| == src ==> WriteReaches(src, pending, w', data, io))
            <==> !CommitRefused(src, pending, w, nPage, env)
  {
    if CommitRefused(src, pending, w, nPage, env) {
      var data := UnattachedCommitGoesStale(src, pending, w, nPage, env, w', env.io);
    } else {
      StepKeeps(src, pending, w, nPage, env, w');
      forall data: seq<Byte>, io: Pager | |data| == src
        ensures WriteReaches(src, pending, w', data, io)
      {
        NextWrite(src, pending, w', data, io);
      }
    }
  }

  lemma NextWrite(src: nat, pending: nat, w: World, data: seq<Byte>, io: Pager)
    requires Inv(src, pending, w) && |data| == src
    ensures WriteReaches(src, pending, w, data, io)
  {
    var e := Write(1, data, io);
    if Allowed(src, pending, w, e) && Calm(src, pending, w, e) {
      WriteKeeps(src, pending, w, 1, data, io, Apply(src, pending, w, e));
    }
  }
}
