// What every run of a backup keeps: as long as no page copy answers BUSY or
// LOCKED, every source page before iNext is in the destination, whatever the
// steps, the writes to the source and the restarts were.
module BackupRun {
  import opened Division
  import opened BackupModel
  import opened BackupCopy
  import opened BackupProtocol

  // What finishing a backup has rewritten of the header: the schema cookie, and
  // the file format versions in WAL mode.
  datatype Patch = Patch(cookie: bool, versions: bool)

  predicate InHeader(o: nat, patched: Patch) {
    (patched.versions && 18 <= o < 20) || (patched.cookie && 40 <= o < 44)
  }

  predicate Within(p: Patch, q: Patch) {
    (p.cookie ==> q.cookie) && (p.versions ==> q.versions)
  }

  // The header is rewritten once more.
  function Repatched(p: Patch, walMode: bool): (q: Patch)
    ensures Within(p, q)
  {
    Patch(true, p.versions || walMode)
  }

  // Source page k is in the destination; patched says what of the header has been
  // rewritten since.
  ghost predicate KeptAt(g: Geometry, dest: seq<Byte>, pages: seq<seq<Byte>>, k: nat, patched: Patch) {
    && 0 < k <= |pages| && |pages[k - 1]| == g.src
    && Reaches(g, PageOffset(k, g.src), PageOffset(k, g.src), dest)
    && KeptBytes(g, dest, PageOffset(k, g.src), pages[k - 1], patched)
  }

  ghost predicate KeptBytes(g: Geometry, dest: seq<Byte>, start: nat, data: seq<Byte>, patched: Patch)
    requires |data| == g.src
  {
    forall o: nat {:trigger ByteAt(dest, o)} ::
      start <= o < start + g.src && !InHole(g, o) && !InCount(o) && !InHeader(o, patched) ==>
        ByteAt(dest, o) == data[o - start]
  }

  // All pages before page n are.
  ghost predicate PagesKept(g: Geometry, dest: seq<Byte>, pages: seq<seq<Byte>>, n: nat, patched: Patch)
    requires g.src > 0
  {
    forall k: nat {:trigger KeptAt(g, dest, pages, k, patched)} ::
      0 < k < n && k <= |pages| && k != PendingPage(g, g.src) ==> KeptAt(g, dest, pages, k, patched)
  }

  // ---- the world of one backup ---------------------------------------------------

  datatype World = World(bk: Backup, pages: seq<seq<Byte>>, patched: Patch)

  datatype Event =
    | StepBy(nPage: int, env: Env)
    | Write(k: nat, data: seq<Byte>, io: Pager)   // the connection of the source writes a page, perhaps a new one
    | Skip(data: seq<Byte>)                       // it passes over its pending-byte page
    | Shrink(n: nat)                              // it truncates the source
    | Replace(pages: seq<seq<Byte>>)              // another connection has changed the source

  ghost predicate Allowed(src: nat, pending: nat, w: World, e: Event)
    requires src > 0
  {
    match e
    case StepBy(_, _) => true
    case Write(k, data, _) => 0 < k <= |w.pages| + 1 && |data| == src && k != Quot(pending, src) + 1
    case Skip(data) => |w.pages| + 1 == Quot(pending, src) + 1 && |data| == src
    case Shrink(n) => n <= |w.pages|
    case Replace(pages) => SourceOk(pages, src)
  }

  function Written(pages: seq<seq<Byte>>, k: nat, data: seq<Byte>): seq<seq<Byte>>
    requires 0 < k <= |pages| + 1
  {
    if k <= |pages| then pages[k - 1 := data] else pages + [data]
  }

  ghost predicate Shaped(src: nat, w: World) {
    src > 0 && w.bk.pgszDest > 0 && w.bk.iNext > 0 && SourceOk(w.pages, src)
  }

  // The callbacks reach a backup only while it is attached to the source pager.
  ghost function Apply(src: nat, pending: nat, w: World, e: Event): (w': World)
    requires Shaped(src, w) && Allowed(src, pending, w, e)
    ensures Shaped(src, w')
  {
    match e
    case StepBy(nPage, env) =>
      World(Step(src, pending, w.bk, w.pages, nPage, env).0, w.pages,
            if Finishes(src, pending, w.bk, w.pages, nPage, env) then Repatched(w.patched, env.walMode) else w.patched)
    case Write(k, data, io) =>
      var pages := Written(w.pages, k, data);
      World(if w.bk.isAttached then Update(src, pending, w.bk, k, data, |pages|, io) else w.bk, pages, w.patched)
    case Skip(data) => w.(pages := w.pages + [data])
    case Shrink(n) => w.(pages := w.pages[..n])
    case Replace(pages) =>
      if w.bk.isAttached then World(Restart(w.bk), pages, Patch(false, false)) else World(w.bk, pages, w.patched)
  }

  predicate Soft(rc: int) {
    rc == SQLITE_BUSY || rc == SQLITE_LOCKED
  }

  // The answers under which the protocol is safe: no page copy is told to try
  // again, and neither is the commit of a backup that is not attached.
  ghost predicate Calm(src: nat, pending: nat, w: World, e: Event)
    requires Shaped(src, w) && Allowed(src, pending, w, e)
  {
    match e
    case StepBy(nPage, env) =>
      && (!IsFatal(w.bk.rc) && Prepare(src, w.bk, env).1 == SQLITE_OK ==>
          !Soft(Copied(src, pending, w.bk, w.pages, nPage, env).1))
      && (Finishes(src, pending, w.bk, w.pages, nPage, env) && !w.bk.isAttached ==>
            !Soft(Step(src, pending, w.bk, w.pages, nPage, env).1))
    case Write(k, data, io) =>
      w.bk.isAttached && !IsFatal(w.bk.rc) && k < w.bk.iNext ==>
        !Soft(OnePage(Geo(src, pending, w.bk), w.bk.dest, w.bk.destMemdb, k, data, true, |Written(w.pages, k, data)|,
          io).1)
    case _ => true
  }

  ghost predicate CalmRun(src: nat, pending: nat, w: World, es: seq<Event>)
    requires Shaped(src, w)
    decreases |es|
  {
    es != [] ==>
      && Allowed(src, pending, w, es[0]) && Calm(src, pending, w, es[0])
      && CalmRun(src, pending, Apply(src, pending, w, es[0]), es[1..])
  }

  ghost function Run(src: nat, pending: nat, w: World, es: seq<Event>): (w': World)
    requires Shaped(src, w) && CalmRun(src, pending, w, es)
    ensures Shaped(src, w')
    decreases |es|
  {
    if es == [] then w else Run(src, pending, Apply(src, pending, w, es[0]), es[1..])
  }

  // ---- the invariant -----------------------------------------------------------------

  ghost predicate Inv(src: nat, pending: nat, w: World) {
    && Shaped(src, w) && Fits(Geo(src, pending, w.bk))
    && (!w.bk.bDestLocked ==> w.bk.iNext == 1)
    && (!w.bk.isAttached && !IsFatal(w.bk.rc) ==> w.bk.iNext == 1)
    && (!IsFatal(w.bk.rc) ==> PagesKept(Geo(src, pending, w.bk), w.bk.dest, w.pages, w.bk.iNext, w.patched))
  }

  // sqlite3_backup_init() and the memset() of sqlite3BtreeCopyFile().
  ghost predicate Fresh(bk: Backup) {
    bk.iNext == 1 && bk.rc == SQLITE_OK && !bk.isAttached && !bk.bDestLocked
  }

  // ---- copying keeps it -------------------------------------------------------------

  lemma CopiedIsKept(g: Geometry, dest: seq<Byte>, pages: seq<seq<Byte>>, k: nat, patched: Patch)
    requires 0 < k <= |pages| && |pages[k - 1]| == g.src
    requires PageCopied(g, dest, k, pages[k - 1]) && Reaches(g, PageOffset(k, g.src), PageOffset(k, g.src), dest)
    ensures KeptAt(g, dest, pages, k, patched)
  {
  }

  // A change to page k of the destination leaves the other pages kept; the
  // source may have changed on page k, too.
  lemma OthersKept(g: Geometry, dest: seq<Byte>, dest': seq<Byte>, pages: seq<seq<Byte>>, pages': seq<seq<Byte>>,
          k: nat, l: nat, patched: Patch)
    requires k > 0 && l != k && KeptAt(g, dest, pages, l, patched)
    requires l <= |pages'| && pages'[l - 1] == pages[l - 1]
    requires SameOutside(g, PageOffset(k, g.src), dest, dest') && |dest| <= |dest'|
    ensures KeptAt(g, dest', pages', l, patched)
  {
    if k < l {
      PagesApart(k, l, g.src);
    } else {
      PagesApart(l, k, g.src);
    }
  }

  // Page k is kept anew, so the pages before n are if those other than k were.
  lemma PageGained(g: Geometry, dest: seq<Byte>, dest': seq<Byte>, pages: seq<seq<Byte>>, pages': seq<seq<Byte>>,
          k: nat,
                   m: nat, n: nat, patched: Patch)
    requires g.src > 0 && k > 0 && PagesKept(g, dest, pages, m, patched)
    requires m == n || (k == m && n == m + 1)
    requires pages' == pages || (k <= |pages| + 1 && k <= |pages'| && pages' == Written(pages, k, pages'[k - 1]))
    requires SameOutside(g, PageOffset(k, g.src), dest, dest') && |dest| <= |dest'|
    requires KeptAt(g, dest', pages', k, patched)
    ensures PagesKept(g, dest', pages', n, patched)
  {
    forall l: nat | 0 < l < n && l <= |pages'| && l != PendingPage(g, g.src)
      ensures KeptAt(g, dest', pages', l, patched)
    {
      if l != k {
        OthersKept(g, dest, dest', pages, pages', k, l, patched);
      }
    }
  }

  lemma {:induction false} CopyPagesKeep(g: Geometry, bk: Backup, pages: seq<seq<Byte>>, budget: int, env: Env,
          patched: Patch, c: (Backup, int))
    requires Fits(g) && bk.iNext > 0 && SourceOk(pages, g.src)
    requires PagesKept(g, bk.dest, pages, bk.iNext, patched)
    requires c == CopyPages(g, bk, pages, budget, env) && c.1 == SQLITE_OK
    ensures PagesKept(g, c.0.dest, pages, c.0.iNext, patched)
    decreases |pages| + 1 - bk.iNext
  {
    if budget != 0 && bk.iNext <= |pages| {
      var r := CopyNext(g, bk, pages, env);
      CopyNextKeeps(g, bk, pages, env, patched, r);
      CopyPagesKeep(g, r.0, pages, budget - 1, env, patched, c);
    }
  }

  lemma CopyNextKeeps(g: Geometry, bk: Backup, pages: seq<seq<Byte>>, env: Env, patched: Patch, r: (Backup, int))
    requires Fits(g) && 0 < bk.iNext <= |pages| && SourceOk(pages, g.src)
    requires PagesKept(g, bk.dest, pages, bk.iNext, patched)
    requires r == CopyNext(g, bk, pages, env) && r.1 == SQLITE_OK
    ensures PagesKept(g, r.0.dest, pages, r.0.iNext, patched)
  {
    var k := bk.iNext;
    assert |pages[k - 1]| == g.src;
    if k != PendingPage(g, g.src) {
      var o := OnePage(g, bk.dest, bk.destMemdb, k, pages[k - 1], false, |pages|, env.io);
      OnePageOk(g, bk.dest, bk.destMemdb, k, pages[k - 1], false, |pages|, env.io, o);
      CopiedIsKept(g, o.0, pages, k, patched);
      PageGained(g, bk.dest, o.0, pages, pages, k, k, k + 1, patched);
    }
  }

  // ---- the events keep it ---------------------------------------------------------------

  lemma SameSizeFits(g: Geometry)
    requires Fits(g)
    ensures Fits(g.(dst := g.src))
  {
    assert g.src == 1 * g.src;
  }

  lemma PrepareKeeps(src: nat, pending: nat, w: World, env: Env, p: (Backup, int))
    requires Inv(src, pending, w) && !IsFatal(w.bk.rc) && p == Prepare(src, w.bk, env)
    ensures Fits(Geo(src, pending, p.0)) && PagesKept(Geo(src, pending, p.0), p.0.dest, w.pages, p.0.iNext, w.patched)
    ensures !p.0.bDestLocked ==> p.0.iNext == 1
  {
    SameSizeFits(Geo(src, pending, w.bk));
  }

  lemma HeaderKept(g: Geometry, dest: seq<Byte>, dest': seq<Byte>, pages: seq<seq<Byte>>, n: nat, patched: Patch,
          patched': Patch)
    requires g.src > 0 && PagesKept(g, dest, pages, n, patched) && |dest| <= |dest'| && Within(patched, patched')
    requires forall o: nat {:trigger ByteAt(dest', o)} :: !InHeader(o, patched') ==> ByteAt(dest', o) == ByteAt(dest, o)
    ensures PagesKept(g, dest', pages, n, patched')
  {
    forall k: nat | 0 < k < n && k <= |pages| && k != PendingPage(g, g.src)
      ensures KeptAt(g, dest', pages, k, patched')
    {
      assert KeptAt(g, dest, pages, k, patched);
    }
  }

  lemma CookieHeader(bk: Backup, d: seq<Byte>, patched: Patch)
    requires d == WithCookie(bk) && patched.cookie
    ensures |bk.dest| <= |d|
    ensures forall o: nat {:trigger ByteAt(d, o)} :: !InHeader(o, patched) ==> ByteAt(d, o) == ByteAt(bk.dest, o)
  {
  }

  lemma PatchedHeader(bk: Backup, env: Env, d: seq<Byte>, patched: Patch)
    requires d == Patched(bk, env) && Within(Patch(true, env.walMode), patched)
    ensures |bk.dest| <= |d|
    ensures forall o: nat {:trigger ByteAt(d, o)} :: !InHeader(o, patched) ==> ByteAt(d, o) == ByteAt(bk.dest, o)
  {
    var c := WithCookie(bk);
    CookieHeader(bk, c, patched);
    forall o: nat | !InHeader(o, patched)
      ensures ByteAt(d, o) == ByteAt(bk.dest, o)
    {
      assert ByteAt(c, o) == ByteAt(bk.dest, o);
    }
  }

  lemma FinishKeeps(g: Geometry, bk: Backup, pages: seq<seq<Byte>>, env: Env, patched: Patch, f: (Backup, int))
    requires g.src > 0 && g.dst > 0 && PagesKept(g, bk.dest, pages, bk.iNext, patched)
    requires f == Finish(g, bk, pages, env)
    ensures PagesKept(g, f.0.dest, pages, f.0.iNext, Repatched(patched, env.walMode))
  {
    var patched' := Repatched(patched, env.walMode);
    HeaderKept(g, bk.dest, bk.dest, pages, bk.iNext, patched, patched');
    CookieHeader(bk, WithCookie(bk), patched');
    HeaderKept(g, bk.dest, WithCookie(bk), pages, bk.iNext, patched, patched');
    PatchedHeader(bk, env, Patched(bk, env), patched');
    HeaderKept(g, bk.dest, Patched(bk, env), pages, bk.iNext, patched, patched');
    FinishDest(g, bk, pages, env, f);
  }

  lemma FinishDest(g: Geometry, bk: Backup, pages: seq<seq<Byte>>, env: Env, f: (Backup, int))
    requires g.src > 0 && g.dst > 0 && f == Finish(g, bk, pages, env)
    ensures f.0.dest == bk.dest || f.0.dest == WithCookie(bk) || f.0.dest == Patched(bk, env)
  {
  }

  // What the copying part of a calm step leaves.
  ghost predicate AfterCopy(src: nat, pending: nat, w: World, c: (Backup, int)) {
    && src > 0 && c.0.pgszDest > 0 && Fits(Geo(src, pending, c.0))
    && (!c.0.bDestLocked ==> c.0.iNext == 1)
    && (c.1 == SQLITE_OK || !IsFatal(c.1) ==>
          PagesKept(Geo(src, pending, c.0), c.0.dest, w.pages, c.0.iNext, w.patched))
    && (c.1 != SQLITE_OK && !IsFatal(c.1) ==> c.0.iNext == w.bk.iNext && c.0.isAttached == w.bk.isAttached)
  }

  lemma CopiedKeeps(src: nat, pending: nat, w: World, nPage: int, env: Env, c: (Backup, int))
    requires Inv(src, pending, w) && !IsFatal(w.bk.rc) && Calm(src, pending, w, StepBy(nPage, env))
    requires c == Copied(src, pending, w.bk, w.pages, nPage, env)
    ensures AfterCopy(src, pending, w, c)
  {
    var p := Prepare(src, w.bk, env);
    PrepareKeeps(src, pending, w, env, p);
    if p.1 == SQLITE_OK && c.1 == SQLITE_OK {
      CopyPagesKeep(Geo(src, pending, p.0), p.0, w.pages, nPage, env, w.patched, c);
    }
  }

  lemma StepKeeps(src: nat, pending: nat, w: World, nPage: int, env: Env, w': World)
    requires Inv(src, pending, w) && Calm(src, pending, w, StepBy(nPage, env))
    requires w' == Apply(src, pending, w, StepBy(nPage, env))
    ensures Inv(src, pending, w')
  {
    if !IsFatal(w.bk.rc) {
      var c := Copied(src, pending, w.bk, w.pages, nPage, env);
      CopiedKeeps(src, pending, w, nPage, env, c);
      var b := Counted(c.0, |w.pages|);
      if c.1 == SQLITE_OK && b.iNext > |w.pages| {
        var f := Finish(Geo(src, pending, b), b, w.pages, env);
        FinishKeeps(Geo(src, pending, b), b, w.pages, env, w.patched, f);
      }
    }
  }

  lemma WriteKeeps(src: nat, pending: nat, w: World, k: nat, data: seq<Byte>, io: Pager, w': World)
    requires Inv(src, pending, w) && Allowed(src, pending, w, Write(k, data, io)) &&
             Calm(src, pending, w, Write(k, data, io))
    requires w' == Apply(src, pending, w, Write(k, data, io))
    ensures Inv(src, pending, w')
    ensures k >= w.bk.iNext ==> w'.bk == w.bk
  {
    var bk, g, n := w.bk, Geo(src, pending, w.bk), w.bk.iNext;
    if bk.isAttached && !IsFatal(bk.rc) {
      if k < n {
        var r := OnePage(g, bk.dest, bk.destMemdb, k, data, true, |w'.pages|, io);
        OnePageOk(g, bk.dest, bk.destMemdb, k, data, true, |w'.pages|, io, r);
        if r.1 == SQLITE_OK {
          CopiedIsKept(g, r.0, w'.pages, k, w.patched);
          PageGained(g, bk.dest, r.0, w.pages, w'.pages, k, n, n, w.patched);
        }
      } else {
        forall l: nat | 0 < l < n && l <= |w'.pages| && l != PendingPage(g, g.src)
          ensures KeptAt(g, bk.dest, w'.pages, l, w.patched)
        {
          assert KeptAt(g, bk.dest, w.pages, l, w.patched);
        }
      }
    }
  }

  lemma OtherEventsKeep(src: nat, pending: nat, w: World, e: Event, w': World)
    requires Inv(src, pending, w) && (e.Skip? || e.Shrink? || e.Replace?) && Allowed(src, pending, w, e)
    requires w' == Apply(src, pending, w, e)
    ensures Inv(src, pending, w')
  {
    var bk, g := w.bk, Geo(src, pending, w.bk);
    if !e.Replace? && !IsFatal(bk.rc) {
      forall l: nat | 0 < l < bk.iNext && l <= |w'.pages| && l != PendingPage(g, g.src)
        ensures KeptAt(g, bk.dest, w'.pages, l, w.patched)
      {
        assert KeptAt(g, bk.dest, w.pages, l, w.patched);
      }
    }
  }

  lemma FreshInv(src: nat, pending: nat, w: World)
    requires Fits(Geo(src, pending, w.bk)) && SourceOk(w.pages, src) && Fresh(w.bk)
    ensures Inv(src, pending, w)
  {
  }

  // The prefix invariant over every calm run.
  lemma {:induction false} RunKeeps(src: nat, pending: nat, w: World, es: seq<Event>)
    requires Inv(src, pending, w) && CalmRun(src, pending, w, es)
    ensures Inv(src, pending, Run(src, pending, w, es))
    decreases |es|
  {
    if es != [] {
      var e := es[0];
      var w' := Apply(src, pending, w, e);
      match e {
        case StepBy(nPage, env) => StepKeeps(src, pending, w, nPage, env, w');
        case Write(k, data, io) => WriteKeeps(src, pending, w, k, data, io, w');
        case _ => OtherEventsKeep(src, pending, w, e, w');
      }
      RunKeeps(src, pending, w', es[1..]);
    }
  }
}
