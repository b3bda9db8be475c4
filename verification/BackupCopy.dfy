// backupOnePage() writes a source page to where it belongs in the destination
// image, except for what falls into the destination's pending-byte page, and
// touches nothing else.
module BackupCopy {
  import opened Division
  import opened BackupModel

  // The offset lies in the destination page that holds the pending byte.
  predicate InHole(g: Geometry, o: nat) {
    g.pending <= o < g.pending + g.dst
  }

  // Bytes that the backup does not take from the source: the page count in the
  // header.
  predicate InCount(o: nat) {
    28 <= o < 32
  }

  // Every byte of source page k that the destination can hold is there.
  ghost predicate PageCopied(g: Geometry, dest: seq<Byte>, k: nat, data: seq<Byte>)
    requires k > 0 && |data| == g.src
  {
    var start := PageOffset(k, g.src);
    forall o: nat {:trigger ByteAt(dest, o)} ::
      start <= o < start + g.src && !InHole(g, o) && !InCount(o) ==> ByteAt(dest, o) == data[o - start]
  }

  // The image extends over what the destination can hold of the source page at
  // start, from offset iOff on.
  ghost predicate Reaches(g: Geometry, start: nat, iOff: nat, dest: seq<Byte>) {
    forall o: nat {:trigger InHole(g, o)} :: iOff <= o < start + g.src && !InHole(g, o) ==> o < |dest|
  }

  // The images agree outside the source page at offset start.
  ghost predicate SameOutside(g: Geometry, start: nat, dest: seq<Byte>, dest': seq<Byte>) {
    forall o: nat {:trigger ByteAt(dest', o)} :: !(start <= o < start + g.src) ==> ByteAt(dest', o) == ByteAt(dest, o)
  }

  // ---- page arithmetic -----------------------------------------------------------

  lemma QuotOfSum(m: nat, d: nat, i: nat)
    requires i < d
    ensures Quot(m * d + i, d) == m
  {
    Unique(m * d + i, d, m, i);
  }

  // Small pages fill large ones without straddling.
  lemma QuotOfPart(n: nat, s: nat, r: nat, i: nat)
    requires r > 0 && s > 0 && i < s
    ensures r * s > 0 && Quot(n * s + i, r * s) == Quot(n, r)
  {
    var q, e := Quot(n, r), Rem(n, r);
    QuotRem(n, r);
    MulOrder(e, r, s);
    assert n * s == q * (r * s) + e * s by {
      assert n == q * r + e;
      assert (q * r + e) * s == (q * r) * s + e * s;
      assert (q * r) * s == q * (r * s);
    }
    Unique(n * s + i, r * s, q, e * s + i);
  }

  lemma HoleIsPendingPage(g: Geometry, o: nat)
    requires Fits(g)
    ensures Quot(o, g.dst) + 1 == PendingPage(g, g.dst) <==> InHole(g, o)
  {
    var q: nat :| q > 0 && g.pending == q * g.dst;
    QuotOfSum(q, g.dst, 0);
    QuotRem(o, g.dst);
    if Quot(o, g.dst) < q {
      MulOrder(Quot(o, g.dst), q, g.dst);
    } else if Quot(o, g.dst) > q {
      MulOrder(q, Quot(o, g.dst), g.dst);
    }
  }

  // Offset iOff starts a turn of the copy loop over the source page at start.
  ghost predicate Turn(g: Geometry, start: nat, iOff: nat) {
    exists t: nat :: iOff == start + t * g.dst
  }

  lemma NextTurn(g: Geometry, start: nat, iOff: nat)
    requires Turn(g, start, iOff)
    ensures Turn(g, start, iOff + g.dst)
  {
    var t: nat :| iOff == start + t * g.dst;
    assert (t + 1) * g.dst == t * g.dst + g.dst;
    assert iOff + g.dst == start + (t + 1) * g.dst;
  }

  lemma FirstTurn(g: Geometry, start: nat)
    ensures Turn(g, start, start)
  {
    assert start == start + 0 * g.dst;
  }

  lemma LargeSourceTurn(n: nat, r: nat, t: nat, d: nat, o: nat)
    requires d > 0
    requires n * (r * d) + t * d <= o < n * (r * d) + t * d + d
    ensures Quot(o, d) == Quot(n * (r * d) + t * d, d)
  {
    var m := n * r + t;
    assert n * (r * d) + t * d == m * d by {
      assert n * (r * d) == (n * r) * d;
      assert m * d == (n * r) * d + t * d;
    }
    QuotOfSum(m, d, 0);
    QuotOfSum(m, d, o - m * d);
  }

  lemma SmallSourceTurn(n: nat, r: nat, t: nat, s: nat, iOff: nat, o: nat)
    requires r > 0 && s > 0 && r * s > 0
    requires iOff == n * s + t * (r * s) && iOff <= o < n * s + s
    ensures Quot(o, r * s) == Quot(iOff, r * s)
  {
    if t > 0 {
      MulOrder(1, t, r * s);
      MulOrder(1, r, s);
    }
    assert iOff == n * s;
    QuotOfPart(n, s, r, 0);
    QuotOfPart(n, s, r, o - iOff);
  }

  // What one turn copies lies within one destination page.
  lemma TurnInOnePage(g: Geometry, k: nat, start: nat, iOff: nat, o: nat)
    requires Fits(g) && k > 0 && start == PageOffset(k, g.src) && Turn(g, start, iOff)
    requires iOff <= o < Min(iOff + g.dst, start + g.src)
    ensures Quot(o, g.dst) == Quot(iOff, g.dst)
  {
    PageOffsetIsProduct(k, g.src);
    var t: nat :| iOff == start + t * g.dst;
    var r: nat :| r > 0 && (g.src == r * g.dst || g.dst == r * g.src);
    if g.src == r * g.dst {
      LargeSourceTurn(k - 1, r, t, g.dst, o);
    } else {
      SmallSourceTurn(k - 1, r, t, g.src, iOff, o);
    }
  }

  // ---- one turn ---------------------------------------------------------------------

  // start is the offset of the source page.
  lemma ChunkIs(g: Geometry, start: nat, data: seq<Byte>, iOff: nat)
    requires g.src > 0 && g.dst > 0 && |data| == g.src
    requires start <= iOff < start + g.src && Rem(iOff, g.src) == iOff - start
    ensures Chunk(g, data, iOff) == data[iOff - start..Min(iOff + g.dst, start + g.src) - start]
  {
  }

  // The turn at iOff copies the bytes up to the end of its destination page or of
  // the source page, and leaves the others as in dest.
  ghost predicate TurnDone(g: Geometry, start: nat, iOff: nat, dest: seq<Byte>, data: seq<Byte>, d: seq<Byte>)
    requires |data| == g.src && start <= iOff
  {
    && Max(|dest|, Min(iOff + g.dst, start + g.src)) <= |d|
    && (forall o: nat {:trigger ByteAt(d, o)} ::
          if iOff <= o < Min(iOff + g.dst, start + g.src)
          then InCount(o) || ByteAt(d, o) == data[o - start]
          else ByteAt(d, o) == ByteAt(dest, o))
  }

  lemma ChunkWritten(g: Geometry, start: nat, dest: seq<Byte>, data: seq<Byte>, size: nat, iOff: nat, chunk: seq<Byte>,
          d: seq<Byte>)
    requires g.src > 0 && g.dst > 0 && |data| == g.src && start <= iOff < start + g.src
    requires chunk == data[iOff - start..Min(iOff + g.dst, start + g.src) - start]
    requires d == WriteAt(dest, size, iOff, chunk)
    ensures TurnDone(g, start, iOff, dest, data, d)
  {
    assert forall i :: 0 <= i < |chunk| ==> chunk[i] == data[i + iOff - start];
  }

  lemma CountWritten(g: Geometry, start: nat, dest: seq<Byte>, data: seq<Byte>, size: nat, count: seq<Byte>,
          d: seq<Byte>, d': seq<Byte>)
    requires g.src >= 512 && g.dst >= 512 && |data| == g.src && start == 0 && |count| == 4
    requires TurnDone(g, start, 0, dest, data, d) && d' == WriteAt(d, size, 28, count)
    ensures TurnDone(g, start, 0, dest, data, d')
  {
    forall o: nat | !InCount(o)
      ensures ByteAt(d', o) == ByteAt(d, o)
    {
    }
  }

  lemma CopyChunkOk(g: Geometry, start: nat, dest: seq<Byte>, data: seq<Byte>, bUpdate: bool, nSrcPage: nat, iOff: nat,
          d: seq<Byte>)
    requires g.src >= 512 && g.dst >= 512 && |data| == g.src
    requires start <= iOff < start + g.src && Rem(iOff, g.src) == iOff - start
    requires d == CopyChunk(g, dest, data, bUpdate, nSrcPage, iOff)
    ensures TurnDone(g, start, iOff, dest, data, d)
  {
    ChunkIs(g, start, data, iOff);
    var chunk := Chunk(g, data, iOff);
    var size := PageOffset(Quot(iOff, g.dst) + 2, g.dst);
    var copied := WriteAt(dest, size, iOff, chunk);
    ChunkWritten(g, start, dest, data, size, iOff, chunk, copied);
    if iOff == 0 && !bUpdate {
      CountWritten(g, start, dest, data, size, FourBytes(nSrcPage), copied, d);
    }
  }

  // ---- the loop -------------------------------------------------------------------------

  // The bytes from iOff to the end of the source page at start are copied, the
  // others are as in dest.
  ghost predicate CopiedFrom(g: Geometry, start: nat, iOff: nat, dest: seq<Byte>, dest': seq<Byte>, data: seq<Byte>)
    requires |data| == g.src && start <= iOff
  {
    forall o: nat {:trigger ByteAt(dest', o)} ::
      if iOff <= o < start + g.src
      then InHole(g, o) || InCount(o) || ByteAt(dest', o) == data[o - start]
      else ByteAt(dest', o) == ByteAt(dest, o)
  }

  // What the loop from iOff on has done when it returns r.
  ghost predicate LoopDone(g: Geometry, start: nat, iOff: nat, dest: seq<Byte>, data: seq<Byte>, r: (seq<Byte>, int))
    requires |data| == g.src && start <= iOff
  {
    && (r.1 == SQLITE_OK ==> CopiedFrom(g, start, iOff, dest, r.0, data) && Reaches(g, start, iOff, r.0))
    && SameOutside(g, start, dest, r.0) && |dest| <= |r.0|
  }

  lemma TurnThenRest(g: Geometry, start: nat, iOff: nat, dest: seq<Byte>, data: seq<Byte>, d: seq<Byte>,
          r: (seq<Byte>, int))
    requires g.src >= 512 && g.dst >= 512 && |data| == g.src && start <= iOff < start + g.src
    requires TurnDone(g, start, iOff, dest, data, d) && LoopDone(g, start, iOff + g.dst, d, data, r)
    ensures LoopDone(g, start, iOff, dest, data, r)
  {
    forall o: nat
      ensures !(start <= o < start + g.src) ==> ByteAt(r.0, o) == ByteAt(dest, o)
    {
      assert ByteAt(r.0, o) == ByteAt(r.0, o) && ByteAt(d, o) == ByteAt(d, o);
    }
    if r.1 == SQLITE_OK {
      forall o: nat
        ensures iOff <= o < start + g.src ==> InHole(g, o) || InCount(o) || ByteAt(r.0, o) == data[o - start]
        ensures !(iOff <= o < start + g.src) ==> ByteAt(r.0, o) == ByteAt(dest, o)
      {
        assert ByteAt(d, o) == ByteAt(d, o);
      }
    }
  }

  lemma SkipThenRest(g: Geometry, k: nat, start: nat, iOff: nat, dest: seq<Byte>, data: seq<Byte>, r: (seq<Byte>, int))
    requires Fits(g) && k > 0 && |data| == g.src && start == PageOffset(k, g.src) <= iOff && Turn(g, start, iOff)
    requires Quot(iOff, g.dst) + 1 == PendingPage(g, g.dst)
    requires LoopDone(g, start, iOff + g.dst, dest, data, r)
    ensures LoopDone(g, start, iOff, dest, data, r)
  {
    forall o: nat | iOff <= o < Min(iOff + g.dst, start + g.src)
      ensures InHole(g, o)
    {
      TurnInOnePage(g, k, start, iOff, o);
      HoleIsPendingPage(g, o);
    }
  }

  lemma LoopOver(g: Geometry, start: nat, iOff: nat, dest: seq<Byte>, data: seq<Byte>, r: (seq<Byte>, int))
    requires |data| == g.src && start <= iOff && r.0 == dest
    requires iOff >= start + g.src || r.1 != SQLITE_OK
    ensures LoopDone(g, start, iOff, dest, data, r)
  {
  }

  lemma OffsetInPage(k: nat, s: nat, start: nat, iOff: nat)
    requires k > 0 && s > 0 && start == PageOffset(k, s) <= iOff < start + s
    ensures Rem(iOff, s) == iOff - start
  {
    PageOffsetIsProduct(k, s);
    Unique(iOff, s, k - 1, iOff - start);
  }

  lemma {:induction false} CopyLoopOk(g: Geometry, k: nat, start: nat, dest: seq<Byte>, data: seq<Byte>, bUpdate: bool,
                                      nSrcPage: nat, io: Pager, iOff: nat, r: (seq<Byte>, int))
    requires Fits(g) && k > 0 && |data| == g.src && start == PageOffset(k, g.src) <= iOff && Turn(g, start, iOff)
    requires r == CopyLoop(g, dest, start + g.src, data, bUpdate, nSrcPage, io, iOff)
    ensures LoopDone(g, start, iOff, dest, data, r)
    decreases start + g.src - iOff
  {
    if iOff < start + g.src {
      var iDest := Quot(iOff, g.dst) + 1;
      NextTurn(g, start, iOff);
      if iDest == PendingPage(g, g.dst) {
        CopyLoopOk(g, k, start, dest, data, bUpdate, nSrcPage, io, iOff + g.dst, r);
        SkipThenRest(g, k, start, iOff, dest, data, r);
      } else if io(iDest) == SQLITE_OK {
        var d := CopyChunk(g, dest, data, bUpdate, nSrcPage, iOff);
        OffsetInPage(k, g.src, start, iOff);
        CopyChunkOk(g, start, dest, data, bUpdate, nSrcPage, iOff, d);
        CopyLoopOk(g, k, start, d, data, bUpdate, nSrcPage, io, iOff + g.dst, r);
        TurnThenRest(g, start, iOff, dest, data, d, r);
      } else {
        LoopOver(g, start, iOff, dest, data, r);
      }
    } else {
      LoopOver(g, start, iOff, dest, data, r);
    }
  }

  lemma WholePage(g: Geometry, k: nat, start: nat, dest: seq<Byte>, dest': seq<Byte>, data: seq<Byte>)
    requires k > 0 && |data| == g.src && start == PageOffset(k, g.src)
    requires CopiedFrom(g, start, start, dest, dest', data)
    ensures PageCopied(g, dest', k, data)
  {
    assert forall o: nat {:trigger ByteAt(dest', o)} ::
        start <= o < start + g.src && !InHole(g, o) && !InCount(o) ==> ByteAt(dest', o) == data[o - start];
  }

  // backupOnePage(): on success the page is copied; in any case no byte outside
  // the page changes.
  lemma OnePageOk(g: Geometry, dest: seq<Byte>, destMemdb: bool, k: nat, data: seq<Byte>, bUpdate: bool, nSrcPage: nat,
                  io: Pager, r: (seq<Byte>, int))
    requires Fits(g) && k > 0 && |data| == g.src
    requires r == OnePage(g, dest, destMemdb, k, data, bUpdate, nSrcPage, io)
    ensures r.1 == SQLITE_OK ==>
              PageCopied(g, r.0, k, data) && Reaches(g, PageOffset(k, g.src), PageOffset(k, g.src), r.0)
    ensures SameOutside(g, PageOffset(k, g.src), dest, r.0) && |dest| <= |r.0|
  {
    var start := PageOffset(k, g.src);
    if g.src != g.dst && destMemdb {
      assert r == (dest, SQLITE_READONLY);
    } else {
      FirstTurn(g, start);
      CopyLoopOk(g, k, start, dest, data, bUpdate, nSrcPage, io, start, r);
      if r.1 == SQLITE_OK {
        WholePage(g, k, start, dest, r.0, data);
      }
    }
  }

  lemma {:induction false} PagesApart(k: nat, l: nat, pgsz: nat)
    requires 0 < k < l
    ensures PageOffset(k, pgsz) + pgsz <= PageOffset(l, pgsz)
  {
    if k < l - 1 {
      PagesApart(k, l - 1, pgsz);
    }
  }
}
