// Backups that show two failures: the smallest worlds in which they occur.
module BackupWitness {
  import opened Division
  import opened BackupModel
  import opened BackupCopy
  import opened BackupProtocol
  import opened BackupRun
  import opened BackupLimits
  import opened BackupAnswers
  import opened BackupFailure

  const PAGE: nat := 512
  const PENDING: nat := 0x4000_0000

  // Every routine succeeds, except perhaps the second phase of the commit.
  function Answers(commitTwo: int): Env {
    Env(false, SQLITE_OK, SQLITE_OK, false, SQLITE_OK, 0, false, _ => SQLITE_OK, _ => SQLITE_OK,
        SQLITE_OK, SQLITE_OK, SQLITE_OK, SQLITE_OK, SQLITE_OK, _ => SQLITE_OK, SQLITE_OK, SQLITE_OK, commitTwo, [])
  }

  function ZeroPages(n: nat): (pages: seq<seq<Byte>>)
    ensures |pages| == n && forall k {:trigger pages[k]} :: 0 <= k < n ==> |pages[k]| == PAGE
  {
    seq(n, _ => seq(PAGE, _ => 0))
  }

  function FreshBackup(): Backup {
    Backup(1, SQLITE_OK, 0, 0, false, false, 0, true, false, PAGE, [], [])
  }

  lemma PageFits()
    ensures Fits(Geometry(PAGE, PAGE, PENDING)) && PendingPage(Geometry(PAGE, PAGE, PENDING), PAGE) == 0x20_0001
  {
    assert PAGE == 1 * PAGE && PENDING == 0x20_0000 * PAGE;
    Unique(PENDING, PAGE, 0x20_0000, 0);
  }

  // ---- copying goes well ---------------------------------------------------------------

  // What the copying part of a step leaves when every routine succeeds.
  lemma CopiedWell(bk: Backup, pages: seq<seq<Byte>>, nPage: int, commitTwo: int, c: (Backup, int))
    requires bk.pgszDest == PAGE && bk.iNext > 0 && SourceOk(pages, PAGE)
    requires c == Copied(PAGE, PENDING, bk, pages, nPage, Answers(commitTwo))
    ensures c.1 == SQLITE_OK && c.0.pgszDest == PAGE && c.0.isAttached == bk.isAttached && c.0.rc == bk.rc
    ensures if nPage < 0 || bk.iNext + nPage > |pages| + 1
            then c.0.iNext == Max(bk.iNext, |pages| + 1) else c.0.iNext == bk.iNext + nPage
  {
    var env := Answers(commitTwo);
    var p := Prepare(PAGE, bk, env);
    var g := Geo(PAGE, PENDING, p.0);
    PagesGoWell(g, p.0, pages, nPage, env);
    CopyPagesCount(g, p.0, pages, nPage, env, c);
  }

  // ---- a commit that is refused -----------------------------------------------------------

  // One page, copied by the first step, whose commit answers BUSY.
  lemma RefusedCommitOccurs(w: World, env: Env)
    requires w == World(FreshBackup(), ZeroPages(1), Patch(false, false)) && env == Answers(SQLITE_BUSY)
    ensures Inv(PAGE, PENDING, w) && CommitRefused(PAGE, PENDING, w, -1, env)
  {
    PageFits();
    FreshInv(PAGE, PENDING, w);
    CopiedWell(w.bk, w.pages, -1, SQLITE_BUSY, Copied(PAGE, PENDING, w.bk, w.pages, -1, env));
  }

  // ---- a source that shrinks -----------------------------------------------------------------

  function WrapWorld(): World {
    World(FreshBackup(), ZeroPages(3), Patch(false, false))
  }

  // Two of three pages are copied; then the source is truncated to nothing, and a
  // step asks for no page.
  function WrapRun(): seq<Event> {
    [StepBy(2, Answers(SQLITE_OK)), Shrink(0), StepBy(0, Answers(SQLITE_OK))]
  }

  lemma FirstStep(w': World)
    requires Shaped(PAGE, WrapWorld()) && w' == Apply(PAGE, PENDING, WrapWorld(), WrapRun()[0])
    ensures Calm(PAGE, PENDING, WrapWorld(), WrapRun()[0])
    ensures w'.bk.pgszDest == PAGE && w'.bk.iNext == 3 && w'.bk.rc == SQLITE_OK && w'.bk.isAttached && |w'.pages| == 3
  {
    var w := WrapWorld();
    CopiedWell(w.bk, w.pages, 2, SQLITE_OK, Copied(PAGE, PENDING, w.bk, w.pages, 2, Answers(SQLITE_OK)));
  }

  lemma LastStep(w: World, w': World)
    requires w.bk.pgszDest == PAGE && w.bk.iNext == 3 && w.bk.rc == SQLITE_OK && w.bk.isAttached && w.pages == []
    requires w' == Apply(PAGE, PENDING, w, StepBy(0, Answers(SQLITE_OK)))
    ensures Calm(PAGE, PENDING, w, StepBy(0, Answers(SQLITE_OK)))
    ensures w'.bk.nPagecount == 0 && w'.bk.iNext == 3 && w'.bk.nRemaining == TWO32 - 2
  {
    var env := Answers(SQLITE_OK);
    CopiedWell(w.bk, [], 0, SQLITE_OK, Copied(PAGE, PENDING, w.bk, [], 0, env));
    CountersAddUpIff(PAGE, PENDING, w.bk, [], 0, env, Step(PAGE, PENDING, w.bk, [], 0, env));
  }

  // A calm run at whose end the counters do not add up.
  lemma WrapOccurs() returns (w': World)
    ensures Fresh(WrapWorld().bk) && Shaped(PAGE, WrapWorld()) && CalmRun(PAGE, PENDING, WrapWorld(), WrapRun())
    ensures w' == Run(PAGE, PENDING, WrapWorld(), WrapRun())
    ensures w'.bk.nRemaining == TWO32 - 2 && w'.bk.nPagecount == 0
  {
    var es := WrapRun();
    var w1 := Apply(PAGE, PENDING, WrapWorld(), es[0]);
    FirstStep(w1);
    var w2 := Apply(PAGE, PENDING, w1, Shrink(0));
    w' := Apply(PAGE, PENDING, w2, es[2]);
    LastStep(w2, w');
    assert es[1..][0] == es[1] && es[1..][1..] == [es[2]] && [es[2]][1..] == [];
    assert CalmRun(PAGE, PENDING, w', []) && Run(PAGE, PENDING, w', []) == w';
    assert CalmRun(PAGE, PENDING, w2, [es[2]]) && Run(PAGE, PENDING, w2, [es[2]]) == w';
    assert CalmRun(PAGE, PENDING, w1, es[1..]) && Run(PAGE, PENDING, w1, es[1..]) == w';
  }
}
