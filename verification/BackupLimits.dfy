// The number of destination pages to keep, and the counters that report progress.
module BackupLimits {
  import opened Division
  import opened BackupModel
  import opened BackupCopy
  import opened BackupProtocol
  import opened BackupRun
  import opened BackupDone

  // ---- page sizes -----------------------------------------------------------------

  function Power(n: nat): nat {
    if n == 0 then 1 else 2 * Power(n - 1)
  }

  lemma {:induction false} PowerDivides(m: nat, n: nat)
    requires m <= n
    ensures Power(m) > 0 && Power(n - m) > 0 && Power(n) == Power(n - m) * Power(m)
    decreases n
  {
    if m < n {
      PowerDivides(m, n - 1);
      assert Power(n) == 2 * (Power(n - 1 - m) * Power(m)) == (2 * Power(n - 1 - m)) * Power(m);
    } else if m > 0 {
      PowerDivides(m - 1, n - 1);
    }
  }

  lemma {:induction false} PowerGrows(m: nat, n: nat)
    requires m <= n
    ensures Power(m) <= Power(n)
  {
    if m < n {
      PowerGrows(m, n - 1);
    }
  }

  // Every pair of page sizes from 512 to 65536 fits the pending byte at 2 to the
  // power of 30.
  lemma PageSizesFit(a: nat, b: nat)
    requires 9 <= a <= 16 && 9 <= b <= 16
    ensures Fits(Geometry(Power(a), Power(b), Power(30)))
  {
    PowerDivides(a, 30);
    PowerDivides(b, 30);
    PowerDivides(30, 30);
    PowerGrows(9, a);
    PowerGrows(9, b);
    assert Power(9) == 512 by { assert Power(3) == 8; assert Power(6) == 64; }
    if a <= b {
      PowerDivides(a, b);
    } else {
      PowerDivides(b, a);
    }
  }

  // ---- nDestTruncate ----------------------------------------------------------------

  // The pages kept hold the whole source, unless it ends within the
  // pending-byte page of the destination, which is left out; and one page fewer
  // would not.
  lemma DestTruncateCovers(g: Geometry, n: nat, size: nat, t: nat)
    requires Fits(g) && n > 0 && size == n * g.src && t == DestTruncate(g, n)
    ensures t > 0
    ensures t * g.dst >= size || (t == PendingPage(g, g.dst) - 1 && g.pending <= size <= g.pending + g.dst)
    ensures (t - 1) * g.dst < size
    ensures g.src >= g.dst ==> t * g.dst == size
  {
    if g.src < g.dst {
      var r, p, q := SmallerIs(g);
      SmallerTruncate(g, r, p, q, n, size, t);
    } else {
      var r, p := LargeSourceIs(g);
      Unique(g.src, g.dst, r, 0);
      assert (n * r) * g.dst == n * (r * g.dst);
      assert t > 0 by { MulOrder(1, n, r); }
      assert (t - 1) * g.dst == t * g.dst - g.dst;
    }
  }

  lemma SmallerTruncate(g: Geometry, r: nat, p: nat, q: nat, n: nat, size: nat, t: nat)
    requires Smaller(g, r, p, q) && n > 0 && size == n * g.src && t == DestTruncate(g, n)
    ensures t > 0
    ensures t * g.dst >= size || (t == PendingPage(g, g.dst) - 1 && g.pending <= size <= g.pending + g.dst)
    ensures (t - 1) * g.dst < size
  {
    Unique(g.dst, g.src, r, 0);
    Unique(g.pending, g.dst, q, 0);
    var c := Quot(n + r - 1, r);
    QuotRem(n + r - 1, r);
    RoundUp(n, r, c, g.src);
    if c == q + 1 {
      assert (q + 1) * g.dst == g.pending + g.dst;
      assert (q - 1) * g.dst == q * g.dst - g.dst;
    }
  }

  lemma RoundUp(n: nat, r: nat, c: nat, s: nat)
    requires n > 0 && r > 0 && s > 0 && n <= c * r < n + r
    ensures c > 0 && c * (r * s) >= n * s && (c - 1) * (r * s) < n * s
  {
    assert c == 0 ==> c * r == 0;
    MulOrder(n, c * r, s);
    assert (c * r) * s == c * (r * s);
    assert (c - 1) * r == c * r - r;
    MulOrder((c - 1) * r, n, s);
    assert ((c - 1) * r) * s == (c - 1) * (r * s);
  }

  // ---- progress ------------------------------------------------------------------------

  // A copy loop that does not fail stops after its budget or at the end.
  lemma {:induction false} CopyPagesCount(g: Geometry, bk: Backup, pages: seq<seq<Byte>>, budget: int, env: Env,
          c: (Backup, int))
    requires g.src > 0 && g.dst > 0 && bk.iNext > 0 && SourceOk(pages, g.src)
    requires c == CopyPages(g, bk, pages, budget, env) && c.1 == SQLITE_OK
    ensures if budget < 0 || bk.iNext + budget > |pages| + 1
            then c.0.iNext == Max(bk.iNext, |pages| + 1) else c.0.iNext == bk.iNext + budget
    decreases |pages| + 1 - bk.iNext
  {
    if budget != 0 && bk.iNext <= |pages| {
      CopyPagesCount(g, CopyNext(g, bk, pages, env).0, pages, budget - 1, env, c);
    }
  }

  // A step answers OK only while pages remain: it has then copied exactly nPage
  // of them, and the counters say how many are left.
  lemma OkStep(src: nat, pending: nat, bk: Backup, pages: seq<seq<Byte>>, nPage: int, env: Env, r: (Backup, int))
    requires src > 0 && bk.pgszDest > 0 && bk.iNext > 0 && SourceOk(pages, src)
    requires r == Step(src, pending, bk, pages, nPage, env) && r.1 == SQLITE_OK
    ensures nPage >= 0 && r.0.iNext == bk.iNext + nPage <= |pages|
    ensures r.0.nPagecount == |pages| && r.0.nRemaining + r.0.iNext - 1 == |pages|
    ensures r.0.isAttached && r.0.nRemaining > 0
  {
    var p := Prepare(src, bk, env);
    var c := Copied(src, pending, bk, pages, nPage, env);
    if p.1 == SQLITE_OK && c.1 == SQLITE_OK {
      CopyPagesCount(Geo(src, pending, p.0), p.0, pages, nPage, env, c);
    }
  }

  // Between two steps that answer OK the number of remaining pages falls by
  // nPage, if the source kept its size and was not restarted.
  lemma RemainingFalls(src: nat, pending: nat, bk: Backup, pages: seq<seq<Byte>>, nPage: int, env: Env,
          r: (Backup, int))
    requires src > 0 && bk.pgszDest > 0 && bk.iNext > 0 && SourceOk(pages, src)
    requires bk.nRemaining + bk.iNext - 1 == |pages|
    requires r == Step(src, pending, bk, pages, nPage, env) && r.1 == SQLITE_OK
    ensures r.0.nRemaining == bk.nRemaining - nPage
  {
    OkStep(src, pending, bk, pages, nPage, env, r);
  }

  // Consecutive steps on an unchanged source, all of which answer OK.
  ghost predicate AllOk(src: nat, pending: nat, bk: Backup, pages: seq<seq<Byte>>, steps: seq<(int, Env)>)
    requires src > 0 && bk.pgszDest > 0 && bk.iNext > 0 && SourceOk(pages, src)
    decreases |steps|
  {
    steps != [] ==>
      && steps[0].0 > 0
      && Step(src, pending, bk, pages, steps[0].0, steps[0].1).1 == SQLITE_OK
      && AllOk(src, pending, Step(src, pending, bk, pages, steps[0].0, steps[0].1).0, pages, steps[1..])
  }

  // There are fewer of them than pages.
  lemma {:induction false} OkStepsRunOut(src: nat, pending: nat, bk: Backup, pages: seq<seq<Byte>>,
          steps: seq<(int, Env)>)
    requires src > 0 && bk.pgszDest > 0 && bk.iNext > 0 && SourceOk(pages, src)
    requires AllOk(src, pending, bk, pages, steps)
    ensures steps != [] ==> |steps| <= |pages| - bk.iNext
    decreases |steps|
  {
    if steps != [] {
      var r := Step(src, pending, bk, pages, steps[0].0, steps[0].1);
      OkStep(src, pending, bk, pages, steps[0].0, steps[0].1, r);
      OkStepsRunOut(src, pending, r.0, pages, steps[1..]);
    }
  }

  // The assertion of sqlite3BtreeCopyFile(): its single step never answers OK.
  lemma CopyFileEnds(src: nat, pending: nat, bk: Backup, pages: seq<seq<Byte>>, env: Env)
    requires src > 0 && bk.pgszDest > 0 && SourceOk(pages, src) && |pages| <= 0x7FFF_FFFF
    requires Fresh(bk) && !bk.hasDestDb
    ensures Step(src, pending, bk, pages, 0x7FFF_FFFF, env).1 != SQLITE_OK
  {
    var r := Step(src, pending, bk, pages, 0x7FFF_FFFF, env);
    if r.1 == SQLITE_OK {
      OkStep(src, pending, bk, pages, 0x7FFF_FFFF, env, r);
    }
  }

  // A difference of page numbers that wraps around is off by 2^32 at least once.
  lemma {:induction false} WrapsUp(n: int)
    requires n < 0
    ensures Rem32(n) >= n + TWO32
    ensures n + TWO32 >= 0 ==> Rem32(n) == n + TWO32
    decreases -n
  {
    if n + TWO32 < 0 {
      WrapsUp(n + TWO32);
    }
  }

  // After a step that has copied what it should, the counters add up exactly if the
  // source has not shrunk below the pages already copied; if it has, the number of
  // remaining pages wraps around.
  lemma CountersAddUpIff(src: nat, pending: nat, bk: Backup, pages: seq<seq<Byte>>, nPage: int, env: Env,
          r: (Backup, int))
    requires src > 0 && bk.pgszDest > 0 && bk.iNext > 0 && SourceOk(pages, src) && !IsFatal(bk.rc)
    requires Copied(src, pending, bk, pages, nPage, env).1 == SQLITE_OK &&
             r == Step(src, pending, bk, pages, nPage, env)
    ensures r.0.nPagecount == |pages|
    ensures r.0.nRemaining + r.0.iNext - 1 == r.0.nPagecount <==> r.0.iNext <= |pages| + 1
    ensures |pages| + 1 < r.0.iNext <= TWO32 ==> r.0.nRemaining == TWO32 - (r.0.iNext - |pages| - 1)
  {
    var c := Copied(src, pending, bk, pages, nPage, env);
    if c.0.iNext > |pages| + 1 {
      WrapsUp(|pages| + 1 - c.0.iNext);
    }
  }

  // DONE and all errors but BUSY and LOCKED are absorbing.
  lemma {:induction false} FatalForever(src: nat, pending: nat, w: World, es: seq<Event>)
    requires Shaped(src, w) && CalmRun(src, pending, w, es)
    requires w.bk.rc !in {SQLITE_OK, SQLITE_BUSY, SQLITE_LOCKED}
    ensures Run(src, pending, w, es).bk == w.bk.(iNext := Run(src, pending, w, es).bk.iNext)
    decreases |es|
  {
    if es != [] {
      FatalForever(src, pending, Apply(src, pending, w, es[0]), es[1..]);
    }
  }
}
