// The online backup as functions on values.  Both databases are byte images;
// the pagers are reduced to the result code they return for each page.
module BackupModel {
  import opened Division

  type Byte = b: nat | b < 256

  const SQLITE_OK: int := 0
  const SQLITE_BUSY: int := 5
  const SQLITE_LOCKED: int := 6
  const SQLITE_NOMEM: int := 7
  const SQLITE_READONLY: int := 8
  const SQLITE_DONE: int := 101

  // isFatalError()
  predicate IsFatal(rc: int) {
    rc != SQLITE_OK && rc != SQLITE_BUSY && rc != SQLITE_LOCKED
  }

  // ---- byte images ----------------------------------------------------------

  // A byte of an image that reads as zero past its end.
  function ByteAt(img: seq<Byte>, o: nat): Byte {
    if o < |img| then img[o] else 0
  }

  // data written at offset off of an image that holds at least size bytes then.
  function WriteAt(img: seq<Byte>, size: nat, off: nat, data: seq<Byte>): (r: seq<Byte>)
    ensures |r| == Max(|img|, Max(size, off + |data|))
    ensures forall o: nat {:trigger ByteAt(r, o)} ::
              ByteAt(r, o) == if off <= o < off + |data| then data[o - off] else ByteAt(img, o)
  {
    seq(Max(|img|, Max(size, off + |data|)), o requires 0 <= o =>
      if off <= o < off + |data| then data[o - off] else ByteAt(img, o))
  }

  // sqlite3Put4byte()
  function FourBytes(n: nat): (b: seq<Byte>)
    ensures |b| == 4
  {
    [n / 0x100_0000 % 256, n / 0x1_0000 % 256, n / 0x100 % 256, n % 256]
  }

  // sqlite3Get4byte(): a big-endian number at offset o.
  function Get4Byte(img: seq<Byte>, o: nat): (n: nat)
    ensures n < TWO32
  {
    0x100_0000 * ByteAt(img, o) + 0x1_0000 * ByteAt(img, o + 1) + 0x100 * ByteAt(img, o + 2) + ByteAt(img, o + 3)
  }

  lemma QuotientIs(n: nat, d: nat, q: nat, r: nat)
    requires r < d && n == d * q + r
    ensures n / d == q && n % d == r
  {
    Unique(n, d, q, r);
    IsDivision(n, d);
  }

  // The four digits of a number in base 256, the last of them without its carry.
  lemma Digits(n: nat, n1: nat, n2: nat, n3: nat, n4: nat, d0: nat, d1: nat, d2: nat, d3: nat)
    requires d0 < 256 && d1 < 256 && d2 < 256 && d3 < 256
    requires n == 256 * n1 + d0 && n1 == 256 * n2 + d1 && n2 == 256 * n3 + d2 && n3 == 256 * n4 + d3
    ensures FourBytes(n) == [d3, d2, d1, d0]
    ensures 0x100_0000 * d3 + 0x1_0000 * d2 + 0x100 * d1 + d0 == n % TWO32
  {
    QuotientIs(n, 0x100, n1, d0);
    QuotientIs(n1, 0x100, n2, d1);
    QuotientIs(n2, 0x100, n3, d2);
    QuotientIs(n3, 0x100, n4, d3);
    QuotientIs(n, 0x1_0000, n2, 0x100 * d1 + d0);
    QuotientIs(n, 0x100_0000, n3, 0x1_0000 * d2 + 0x100 * d1 + d0);
    QuotientIs(n, TWO32, n4, 0x100_0000 * d3 + 0x1_0000 * d2 + 0x100 * d1 + d0);
  }

  // What was put is got back, modulo 2 to the power of 32.
  lemma FourBytesValue(n: nat, img: seq<Byte>, o: nat)
    requires forall i: nat {:trigger FourBytes(n)[i]} :: i < 4 ==> ByteAt(img, o + i) == FourBytes(n)[i]
    ensures Get4Byte(img, o) == n % TWO32
  {
    var b := FourBytes(n);
    assert ByteAt(img, o + 0) == b[0] && ByteAt(img, o + 1) == b[1] && ByteAt(img, o + 2) == b[2];
    assert ByteAt(img, o + 3) == b[3];
    var n1, n2, n3 := n / 0x100, n / 0x100 / 0x100, n / 0x100 / 0x100 / 0x100;
    Digits(n, n1, n2, n3, n3 / 0x100, n % 0x100, n1 % 0x100, n2 % 0x100, n3 % 0x100);
  }

  // ---- page geometry ----------------------------------------------------------

  // Page sizes of the source and the destination, and the pending byte.
  datatype Geometry = Geometry(src: nat, dst: nat, pending: nat)

  // Sizes are powers of two between 512 and 65536: one divides the other, and
  // both divide the offset of the pending byte.
  ghost predicate Fits(g: Geometry) {
    && g.src >= 512 && g.dst >= 512 && g.pending > 0
    && (exists r: nat :: r > 0 && (g.src == r * g.dst || g.dst == r * g.src))
    && (exists p: nat :: p > 0 && g.pending == p * g.src)
    && (exists q: nat :: q > 0 && g.pending == q * g.dst)
  }

  // The offset of page k: (k - 1) * pgsz.
  function PageOffset(k: nat, pgsz: nat): nat {
    if k <= 1 then 0 else PageOffset(k - 1, pgsz) + pgsz
  }

  lemma {:induction false} PageOffsetIsProduct(k: nat, pgsz: nat)
    requires k > 0
    ensures PageOffset(k, pgsz) == (k - 1) * pgsz
  {
    if k > 1 {
      PageOffsetIsProduct(k - 1, pgsz);
      assert (k - 1) * pgsz == (k - 2) * pgsz + pgsz;
    }
  }

  // PENDING_BYTE_PAGE
  function PendingPage(g: Geometry, pgsz: nat): nat
    requires pgsz > 0
  {
    Quot(g.pending, pgsz) + 1
  }

  // ---- one page ------------------------------------------------------------------

  // The result codes of sqlite3PagerGet() and sqlite3PagerWrite(), page by page.
  type Pager = nat -> int

  // The part of the source page that goes to one destination page.
  function Chunk(g: Geometry, data: seq<Byte>, iOff: nat): (c: seq<Byte>)
    requires g.src > 0 && |data| == g.src
  {
    var from := Rem(iOff, g.src);
    data[from..Min(from + Min(g.src, g.dst), g.src)]
  }

  // memcpy() of that part, and the page count patched into page 1.
  function CopyChunk(g: Geometry, dest: seq<Byte>, data: seq<Byte>, bUpdate: bool, nSrcPage: nat, iOff: nat): seq<Byte>
    requires g.src > 0 && g.dst > 0 && |data| == g.src
  {
    var size := PageOffset(Quot(iOff, g.dst) + 2, g.dst);
    var copied := WriteAt(dest, size, iOff, Chunk(g, data, iOff));
    if iOff == 0 && !bUpdate then WriteAt(copied, size, 28, FourBytes(nSrcPage)) else copied
  }

  // The loop of backupOnePage(), one turn per destination page, from iOff on.
  function CopyLoop(g: Geometry, dest: seq<Byte>, iEnd: nat, data: seq<Byte>, bUpdate: bool, nSrcPage: nat,
                    io: Pager, iOff: nat): (seq<Byte>, int)
    requires g.src > 0 && g.dst > 0 && |data| == g.src
    decreases iEnd - iOff
  {
    if iOff >= iEnd then (dest, SQLITE_OK)
    else
      var iDest := Quot(iOff, g.dst) + 1;
      if iDest == PendingPage(g, g.dst) then
        CopyLoop(g, dest, iEnd, data, bUpdate, nSrcPage, io, iOff + g.dst)
      else if io(iDest) != SQLITE_OK then (dest, io(iDest))
      else
        CopyLoop(g, CopyChunk(g, dest, data, bUpdate, nSrcPage, iOff), iEnd, data, bUpdate, nSrcPage, io, iOff + g.dst)
  }

  // backupOnePage()
  function OnePage(g: Geometry, dest: seq<Byte>, destMemdb: bool, iSrcPg: nat, data: seq<Byte>, bUpdate: bool,
                   nSrcPage: nat, io: Pager): (seq<Byte>, int)
    requires g.src > 0 && g.dst > 0 && iSrcPg > 0 && |data| == g.src
  {
    if g.src != g.dst && destMemdb then (dest, SQLITE_READONLY)
    else
      var start := PageOffset(iSrcPg, g.src);
      CopyLoop(g, dest, start + g.src, data, bUpdate, nSrcPage, io, start)
  }
}
