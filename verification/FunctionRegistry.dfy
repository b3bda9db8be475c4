// The registry of SQL functions: the hash of built-in functions with its two
// kinds of links, and the search that also consults the functions of the
// application.
module FunctionRegistry {
  import opened Chars
  import opened FunctionMatch

  const SQLITE_FUNC_HASH_SZ: nat := 23

  // Names are compared without regard to case.
  function Folded(name: string): (r: string)
    ensures |r| == |name|
  {
    seq(|name|, i requires 0 <= i < |name| => LowerChar(name[i]))
  }

  // SQLITE_FUNC_HASH()
  function HashOf(name: string): (h: nat)
    ensures h < SQLITE_FUNC_HASH_SZ
  {
    (CharAt(name, 0) as nat + |name|) % SQLITE_FUNC_HASH_SZ
  }

  class FuncDef {
    const zName: string
    const nArg: int
    const funcFlags: nat
    var xSFunc: bool
    var pNext: FuncDef?
    var pHash: FuncDef?

    constructor (zName: string, nArg: int, funcFlags: nat, xSFunc: bool)
      ensures this.zName == zName && this.nArg == nArg && this.funcFlags == funcFlags && this.xSFunc == xSFunc
      ensures pNext == null && pHash == null
    {
      this.zName, this.nArg, this.funcFlags, this.xSFunc := zName, nArg, funcFlags, xSFunc;
      pNext, pHash := null, null;
    }

    // matchQuality()
    function Quality(nArg: int, enc: nat): nat
      reads `xSFunc
    {
      Score(this.nArg, funcFlags, xSFunc, nArg, enc)
    }
  }

  ghost function At(list: seq<FuncDef>, j: nat): FuncDef? {
    if j < |list| then list[j] else null
  }

  // The pNext links join the definitions in the order of the list.
  ghost predicate Linked(list: seq<FuncDef>)
    reads list`pNext
  {
    && (forall j {:trigger list[j].pNext} :: 0 <= j < |list| ==> list[j].pNext == At(list, j + 1))
    && (forall i, j {:trigger list[i], list[j]} :: 0 <= i < j < |list| ==> list[i] != list[j])
  }

  ghost function Qualities(list: seq<FuncDef>, nArg: int, enc: nat): (s: seq<nat>)
    reads list`xSFunc
    ensures |s| == |list| && forall j {:trigger s[j]} :: 0 <= j < |list| ==> s[j] == list[j].Quality(nArg, enc)
  {
    if list == [] then []
    else Qualities(list[..|list| - 1], nArg, enc) + [list[|list| - 1].Quality(nArg, enc)]
  }

  // The best of a list, or the one found before if none matches.
  ghost function BestOf(list: seq<FuncDef>, nArg: int, enc: nat, before: FuncDef?): FuncDef?
    reads list`xSFunc
  {
    var k := FirstBest(Qualities(list, nArg, enc));
    if k < |list| then list[k] else before
  }

  ghost function BestScore(list: seq<FuncDef>, nArg: int, enc: nat): nat
    reads list`xSFunc
  {
    var k := FirstBest(Qualities(list, nArg, enc));
    if k < |list| then list[k].Quality(nArg, enc) else 0
  }

  // The loop over the overloads of a name.
  method SearchBest(head: FuncDef?, ghost list: seq<FuncDef>, nArg: int, enc: nat, before: FuncDef?)
    returns (pBest: FuncDef?, bestScore: nat)
    requires Linked(list) && head == At(list, 0)
    ensures pBest == BestOf(list, nArg, enc, before) && bestScore == BestScore(list, nArg, enc)
  {
    hide Score, FirstBest;
    pBest, bestScore := before, 0;
    var p := head;
    ghost var n, s, k := 0, Qualities(list, nArg, enc), 0;
    while p != null
      invariant 0 <= n <= |list| && p == At(list, n) && k == FirstBest(s[..n])
      invariant if k == n then pBest == before && bestScore == 0 else k < n && pBest == list[k] && bestScore == s[k]
      decreases |list| - n
    {
      FirstBestNext(s, n);
      var score := p.Quality(nArg, enc);
      if score > bestScore {
        pBest, bestScore := p, score;
      }
      p := p.pNext;
      n := n + 1;
      k := FirstBest(s[..n]);
    }
    assert s[..n] == s;
  }

  // The list with one more definition, second if it is not the first.
  ghost function Second(list: seq<FuncDef>, d: FuncDef): (r: seq<FuncDef>)
    ensures |r| == |list| + 1 && d in r
    ensures list != [] ==> r[0] == list[0] && r[1] == d && r[2..] == list[1..]
  {
    if list == [] then [d] else [list[0], d] + list[1..]
  }

  // The place of a name in a chain, from entry i on, or the length of the chain.
  ghost function PlaceIn(chain: seq<seq<FuncDef>>, f: string, i: nat): (k: nat)
    requires i <= |chain|
    ensures i <= k <= |chain| && (k < |chain| ==> chain[k] != [] && Folded(chain[k][0].zName) == f)
    decreases |chain| - i
  {
    if i == |chain| then i
    else if chain[i] != [] && Folded(chain[i][0].zName) == f then i
    else PlaceIn(chain, f, i + 1)
  }

  // The overloads of a name in a table.
  ghost function OverloadsIn(chains: seq<seq<seq<FuncDef>>>, f: string): seq<FuncDef>
    requires |chains| == SQLITE_FUNC_HASH_SZ
  {
    var chain, k := chains[HashOf(f)], PlaceIn(chains[HashOf(f)], f, 0);
    if k < |chain| then chain[k] else []
  }

  lemma {:induction false} PlaceReaches(chain: seq<seq<FuncDef>>, f: string, i: nat, k: nat)
    requires i <= k < |chain| && chain[k] != [] && Folded(chain[k][0].zName) == f
    ensures PlaceIn(chain, f, i) <= k
    decreases k - i
  {
    if i < k {
      PlaceReaches(chain, f, i + 1, k);
    }
  }

  lemma {:induction false} PlaceOfSecond(chain: seq<seq<FuncDef>>, k: nat, d: FuncDef, f: string, i: nat)
    requires i <= |chain| && k < |chain| && chain[k] != []
    ensures PlaceIn(chain[k := Second(chain[k], d)], f, i) == PlaceIn(chain, f, i)
    decreases |chain| - i
  {
    if i < |chain| {
      PlaceOfSecond(chain, k, d, f, i + 1);
    }
  }

  lemma {:induction false} PlaceAfter(chain: seq<seq<FuncDef>>, e: seq<FuncDef>, f: string, i: nat)
    requires i <= |chain|
    ensures PlaceIn([e] + chain, f, i + 1) == PlaceIn(chain, f, i) + 1
    decreases |chain| - i
  {
    if i < |chain| {
      PlaceAfter(chain, e, f, i + 1);
    }
  }

  // What a new definition of an existing name changes,
  lemma SecondOverload(chains: seq<seq<seq<FuncDef>>>, h: nat, k: nat, d: FuncDef, f: string)
    requires |chains| == SQLITE_FUNC_HASH_SZ && h == HashOf(Folded(d.zName))
    requires k == PlaceIn(chains[h], Folded(d.zName), 0) && k < |chains[h]|
    ensures OverloadsIn(chains[h := chains[h][k := Second(chains[h][k], d)]], f)
            == if f == Folded(d.zName) then Second(OverloadsIn(chains, f), d) else OverloadsIn(chains, f)
  {
    PlaceOfSecond(chains[h], k, d, f, 0);
  }

  // and one of a new name.
  lemma FirstOverload(chains: seq<seq<seq<FuncDef>>>, d: FuncDef, f: string)
    requires |chains| == SQLITE_FUNC_HASH_SZ && OverloadsIn(chains, Folded(d.zName)) == []
    ensures OverloadsIn(chains[HashOf(Folded(d.zName)) := [[d]] + chains[HashOf(Folded(d.zName))]], f)
            == if f == Folded(d.zName) then Second(OverloadsIn(chains, f), d) else OverloadsIn(chains, f)
  {
    PlaceAfter(chains[HashOf(Folded(d.zName))], [d], f, 0);
  }

  // sqlite3BuiltinFunctions
  class FuncDefHash {
    const a: array<FuncDef?>
    ghost var chains: seq<seq<seq<FuncDef>>>
    ghost var nodes: set<FuncDef>

    // The head of entry k of chain h.
    ghost function HeadOf(h: nat, k: nat): FuncDef?
      reads this
    {
      if h < |chains| && k < |chains[h]| && chains[h][k] != [] then chains[h][k][0] else null
    }

    // Entry k of chain h: the overloads of one name, linked, and the link to the
    // next entry.
    ghost predicate EntryOk(h: nat, k: nat)
      requires h < |chains| && k < |chains[h]|
      reads this, nodes
    {
      var list := chains[h][k];
      && list != [] && (forall d <- list :: d in nodes)
      && Linked(list)
      && list[0].pHash == HeadOf(h, k + 1)
      && HashOf(Folded(list[0].zName)) == h
      && (forall j {:trigger list[j].zName} :: 0 <= j < |list| ==> Folded(list[j].zName) == Folded(list[0].zName))
    }

    // Different entries are for different names.
    ghost predicate Apart(h: nat, k: nat, l: nat)
      reads this
    {
      k != l && HeadOf(h, k) != null && HeadOf(h, l) != null ==>
          Folded(HeadOf(h, k).zName) != Folded(HeadOf(h, l).zName)
    }

    ghost predicate Valid()
      reads this, a, nodes
    {
      && a.Length == |chains| == SQLITE_FUNC_HASH_SZ
      && (forall h {:trigger a[h]} :: 0 <= h < a.Length ==> a[h] == HeadOf(h, 0))
      && (forall h, k {:trigger EntryOk(h, k)} :: 0 <= h < |chains| && 0 <= k < |chains[h]| ==> EntryOk(h, k))
      && (forall h, k, l {:trigger Apart(h, k, l)} ::
            0 <= h < |chains| && 0 <= k < |chains[h]| && 0 <= l < |chains[h]| ==> Apart(h, k, l))
      && (forall d {:trigger d in nodes} :: d in nodes ==>
          exists h, k :: 0 <= h < |chains| && 0 <= k < |chains[h]| && d in chains[h][k])
    }

    constructor ()
      ensures Valid() && fresh(a) && nodes == {}
    {
      a := new FuncDef?[SQLITE_FUNC_HASH_SZ](_ => null);
      chains := seq(SQLITE_FUNC_HASH_SZ, _ => []);
      nodes := {};
    }

    // The overloads of a name.
    ghost function Overloads(f: string): seq<FuncDef>
      requires |chains| == SQLITE_FUNC_HASH_SZ
      reads this
    {
      OverloadsIn(chains, f)
    }

    // sqlite3FunctionSearch(), for the hash of the folded name.
    method FunctionSearch(h: nat, zFunc: string) returns (p: FuncDef?)
      requires Valid() && h == HashOf(Folded(zFunc))
      ensures p == At(Overloads(Folded(zFunc)), 0)
    {
      p := a[h];
      ghost var k := 0;
      while p != null && Folded(p.zName) != Folded(zFunc)
        invariant 0 <= k <= |chains[h]| && p == HeadOf(h, k)
        invariant PlaceIn(chains[h], Folded(zFunc), 0) == PlaceIn(chains[h], Folded(zFunc), k)
        decreases |chains[h]| - k
      {
        assert EntryOk(h, k);
        p := p.pHash;
        k := k + 1;
      }
      if k < |chains[h]| {
        assert EntryOk(h, k);
      }
    }

    // A name has one entry at most, and that is where Overloads() finds it.
    lemma PlaceIs(f: string, k: nat)
      requires Valid() && k < |chains[HashOf(f)]| && HeadOf(HashOf(f), k) != null &&
               Folded(HeadOf(HashOf(f), k).zName) == f
      ensures PlaceIn(chains[HashOf(f)], f, 0) == k && Overloads(f) == chains[HashOf(f)][k]
    {
      var h, p := HashOf(f), PlaceIn(chains[HashOf(f)], f, 0);
      PlaceReaches(chains[h], f, 0, k);
      assert EntryOk(h, k) && EntryOk(h, p);
      assert Apart(h, k, p);
    }

    lemma OverloadsLinked(f: string)
      requires Valid()
      ensures Linked(Overloads(f))
    {
      var h, k := HashOf(f), PlaceIn(chains[HashOf(f)], f, 0);
      assert k < |chains[h]| ==> EntryOk(h, k);
    }

    // Each name heads one entry, and the list of the entry holds exactly the
    // definitions of that name.
    lemma OverloadsAre(f: string, d: FuncDef)
      requires Valid()
      ensures d in Overloads(f) <==> d in nodes && Folded(d.zName) == f
    {
      var h, k := HashOf(f), PlaceIn(chains[HashOf(f)], f, 0);
      if d in Overloads(f) {
        assert EntryOk(h, k);
      }
      if d in nodes && Folded(d.zName) == f {
        var h', k' :| 0 <= h' < |chains| && 0 <= k' < |chains[h']| && d in chains[h'][k'];
        assert EntryOk(h', k');
        PlaceIs(f, k');
      }
    }

    // Entries share no definition.
    lemma Elsewhere(h: nat, k: nat, i: nat, j: nat, x: FuncDef)
      requires Valid() && h < |chains| && k < |chains[h]| && i < |chains| && j < |chains[i]| && (h != i || k != j)
      requires x in chains[h][k]
      ensures x !in chains[i][j]
    {
      assert EntryOk(h, k) && EntryOk(i, j) && Apart(h, k, j);
      var p :| 0 <= p < |chains[h][k]| && chains[h][k][p] == x;
      assert Folded(chains[h][k][p].zName) == Folded(HeadOf(h, k).zName);
      forall q | 0 <= q < |chains[i][j]|
        ensures chains[i][j][q] != x
      {
        assert Folded(chains[i][j][q].zName) == Folded(HeadOf(i, j).zName);
      }
    }

    // ---- inserting ------------------------------------------------------------------

    // A new definition goes second in the list of its name,
    method InsertOverload(d: FuncDef, pOther: FuncDef, ghost h: nat, ghost k: nat)
      requires Valid() && d !in nodes && h < |chains| && k < |chains[h]| && chains[h][k] != [] &&
               pOther == chains[h][k][0]
      requires Folded(d.zName) == Folded(pOther.zName)
      modifies this`chains, this`nodes, pOther`pNext, d`pNext
      ensures Valid() && nodes == old(nodes) + {d}
      ensures chains == old(chains)[h := old(chains)[h][k := Second(old(chains)[h][k], d)]]
    {
      hide Folded, HashOf;
      assert EntryOk(h, k);
      ghost var list, all := chains[h][k], chains;
      forall i, j {:trigger all[i][j]} | 0 <= i < |all| && 0 <= j < |all[i]| && (i != h || j != k)
        ensures pOther !in all[i][j]
      {
        Elsewhere(h, k, i, j, pOther);
      }
      d.pNext := pOther.pNext;
      pOther.pNext := d;
      chains := chains[h := chains[h][k := Second(list, d)]];
      nodes := nodes + {d};
      assert Linked(Second(list, d)) by {
        assert forall j :: 1 < j < |Second(list, d)| ==> Second(list, d)[j] == list[j - 1];
      }
      assert forall i: nat, j: nat :: HeadOf(i, j) == old(HeadOf(i, j));
      forall i, j | 0 <= i < |chains| && 0 <= j < |chains[i]|
        ensures EntryOk(i, j)
      {
        assert old(EntryOk(i, j));
        if i != h || j != k {
          assert chains[i][j] == all[i][j];
        }
      }
      forall i, j, l | 0 <= i < |chains| && 0 <= j < |chains[i]| && 0 <= l < |chains[i]|
        ensures Apart(i, j, l)
      {
        assert old(Apart(i, j, l));
      }
      forall x | x in nodes
        ensures exists i, j :: 0 <= i < |chains| && 0 <= j < |chains[i]| && x in chains[i][j]
      {
        if x == d {
          assert Second(list, d)[1] == d && d in chains[h][k];
        } else {
          var i, j :| 0 <= i < |all| && 0 <= j < |all[i]| && x in all[i][j];
          assert x in chains[i][j];
        }
      }
    }

    // The other entries of the chain move up by one,
    twostate lemma NameEntries(d: FuncDef)
      requires old(Valid()) && d !in old(nodes) && nodes == old(nodes) + {d} && d.pNext == null
      requires chains == old(chains)[HashOf(Folded(d.zName)) := [[d]] + old(chains)[HashOf(Folded(d.zName))]]
      requires forall x {:trigger x.pNext} {:trigger x.pHash} :: x in old(nodes) ==>
                 x.pNext == old(x.pNext) && x.pHash == old(x.pHash)
      requires d.pHash == old(HeadOf(HashOf(Folded(d.zName)), 0))
      ensures forall i, j {:trigger EntryOk(i, j)} :: 0 <= i < |chains| && 0 <= j < |chains[i]| ==> EntryOk(i, j)
    {
      var h := HashOf(Folded(d.zName));
      forall i, j | 0 <= i < |chains| && 0 <= j < |chains[i]|
        ensures EntryOk(i, j)
      {
        if i != h || j > 0 {
          assert old(EntryOk(i, if i == h then j - 1 else j));
        }
      }
    }

    // and are for other names.
    twostate lemma NamesApart(d: FuncDef)
      requires old(Valid())
      requires chains == old(chains)[HashOf(Folded(d.zName)) := [[d]] + old(chains)[HashOf(Folded(d.zName))]]
      requires forall j {:trigger old(HeadOf(HashOf(Folded(d.zName)), j))} ::
                 0 <= j < |old(chains)[HashOf(Folded(d.zName))]| ==>
                 old(HeadOf(HashOf(Folded(d.zName)), j)) != null &&
                   Folded(old(HeadOf(HashOf(Folded(d.zName)), j)).zName) != Folded(d.zName)
      ensures forall i, j, l {:trigger Apart(i, j, l)} ::
                0 <= i < |chains| && 0 <= j < |chains[i]| && 0 <= l < |chains[i]| ==> Apart(i, j, l)
    {
      var h := HashOf(Folded(d.zName));
      forall i, j, l | 0 <= i < |chains| && 0 <= j < |chains[i]| && 0 <= l < |chains[i]|
        ensures Apart(i, j, l)
      {
        if i != h {
          assert old(Apart(i, j, l));
        } else if j > 0 && l > 0 {
          assert old(Apart(i, j - 1, l - 1));
        } else {
          assert j > 0 ==> HeadOf(h, j) == old(HeadOf(h, j - 1));
          assert l > 0 ==> HeadOf(h, l) == old(HeadOf(h, l - 1));
        }
      }
    }

    // and the definition of a new name starts an entry at the head of its chain.
    method InsertName(d: FuncDef, h: nat)
      requires Valid() && d !in nodes && h == HashOf(Folded(d.zName)) && Overloads(Folded(d.zName)) == []
      modifies this`chains, this`nodes, a, d`pNext, d`pHash
      ensures Valid() && nodes == old(nodes) + {d}
      ensures chains == old(chains)[h := [[d]] + old(chains)[h]]
    {
      ghost var all: seq<seq<seq<FuncDef>>> := chains;
      forall j {:trigger HeadOf(h, j)} | 0 <= j < |all[h]|
        ensures HeadOf(h, j) != null && Folded(HeadOf(h, j).zName) != Folded(d.zName)
      {
        NoPlace(Folded(d.zName), j);
      }
      d.pNext := null;
      d.pHash := a[h];
      a[h] := d;
      chains := chains[h := [[d]] + chains[h]];
      nodes := nodes + {d};
      NameEntries(d);
      NamesApart(d);
      forall x | x in nodes
        ensures exists i, j :: 0 <= i < |chains| && 0 <= j < |chains[i]| && x in chains[i][j]
      {
        if x == d {
          assert d in chains[h][0];
        } else {
          var i, j :| 0 <= i < |all| && 0 <= j < |all[i]| && x in all[i][j];
          assert x in chains[i][if i == h then j + 1 else j];
        }
      }
    }

    // A name without overloads has no entry.
    lemma NoPlace(f: string, j: nat)
      requires Valid() && Overloads(f) == [] && j < |chains[HashOf(f)]|
      ensures HeadOf(HashOf(f), j) != null && Folded(HeadOf(HashOf(f), j).zName) != f
    {
      assert EntryOk(HashOf(f), j);
      if Folded(HeadOf(HashOf(f), j).zName) == f {
        PlaceIs(f, j);
      }
    }

    // The body of the loop of sqlite3InsertBuiltinFuncs().
    method Insert(d: FuncDef)
      requires Valid() && d !in nodes && d.zName != "" && 'a' <= d.zName[0] <= 'z'
      modifies this`chains, this`nodes, a, nodes`pNext, d`pNext, d`pHash
      ensures Valid() && nodes == old(nodes) + {d}
      ensures forall f {:trigger Overloads(f)} ::
                Overloads(f) == if f == Folded(d.zName) then Second(old(Overloads(f)), d) else old(Overloads(f))
    {
      var h := (d.zName[0] as nat + |d.zName|) % SQLITE_FUNC_HASH_SZ;
      assert h == HashOf(Folded(d.zName));
      var pOther := FunctionSearch(h, d.zName);
      ghost var was, k := chains, PlaceIn(chains[h], Folded(d.zName), 0);
      if pOther != null {
        assert EntryOk(h, k);
        InsertOverload(d, pOther, h, k);
        forall f
          ensures Overloads(f) == if f == Folded(d.zName) then Second(OverloadsIn(was, f), d) else OverloadsIn(was, f)
        {
          SecondOverload(was, HashOf(Folded(d.zName)), k, d, f);
        }
      } else {
        InsertName(d, h);
        forall f
          ensures Overloads(f) == if f == Folded(d.zName) then Second(OverloadsIn(was, f), d) else OverloadsIn(was, f)
        {
          FirstOverload(was, d, f);
        }
      }
    }

    // sqlite3InsertBuiltinFuncs(): afterwards every name has one entry, whose list
    // holds the definitions it had and the new ones.
    method InsertBuiltinFuncs(aDef: seq<FuncDef>)
      requires Valid()
      requires forall i {:trigger aDef[i]} :: 0 <= i < |aDef| ==>
                 aDef[i] !in nodes && aDef[i].zName != "" && 'a' <= aDef[i].zName[0] <= 'z'
      requires forall i, j {:trigger aDef[i], aDef[j]} :: 0 <= i < j < |aDef| ==> aDef[i] != aDef[j]
      modifies this`chains, this`nodes, a, nodes`pNext, aDef`pNext, aDef`pHash
      ensures Valid() && nodes == old(nodes) + set d | d in aDef
      ensures forall f, d :: d in Overloads(f) <==> (d in old(nodes) || d in aDef) && Folded(d.zName) == f
    {
      var i := 0;
      while i < |aDef|
        invariant 0 <= i <= |aDef| && Valid()
        invariant nodes == old(nodes) + set d | d in aDef[..i]
      {
        Insert(aDef[i]);
        i := i + 1;
      }
      assert aDef[..i] == aDef;
      forall f, d
        ensures d in Overloads(f) <==> (d in old(nodes) || d in aDef) && Folded(d.zName) == f
      {
        OverloadsAre(f, d);
      }
    }
  }

  // Some definition of the list matches.
  ghost predicate Matches(list: seq<FuncDef>, nArg: int, enc: nat)
    reads list`xSFunc
  {
    exists d {:trigger d in list} :: d in list && d.Quality(nArg, enc) > 0
  }

  // Definition d is the first of those that match best.
  ghost predicate IsBest(list: seq<FuncDef>, nArg: int, enc: nat, d: FuncDef)
    reads list`xSFunc, d`xSFunc
  {
    exists k {:trigger list[k]} :: 0 <= k < |list| && list[k] == d && d.Quality(nArg, enc) > 0 &&
      forall j {:trigger list[j]} :: 0 <= j < |list| ==>
        list[j].Quality(nArg, enc) <= d.Quality(nArg, enc)
        && (j < k ==> list[j].Quality(nArg, enc) < d.Quality(nArg, enc))
  }

  lemma BestIs(list: seq<FuncDef>, nArg: int, enc: nat, before: FuncDef?, b: FuncDef?)
    requires b == BestOf(list, nArg, enc, before)
    ensures Matches(list, nArg, enc) ==> b != null && IsBest(list, nArg, enc, b)
    ensures !Matches(list, nArg, enc) ==> b == before
  {
    var s := Qualities(list, nArg, enc);
    var k := FirstBest(s);
    if k < |list| {
      assert list[k] in list && s[k] == list[k].Quality(nArg, enc) > 0;
      forall j {:trigger list[j]} | 0 <= j < |list|
        ensures list[j].Quality(nArg, enc) <= list[k].Quality(nArg, enc)
        ensures j < k ==> list[j].Quality(nArg, enc) < list[k].Quality(nArg, enc)
      {
        assert s[j] == list[j].Quality(nArg, enc);
      }
    } else {
      forall d | d in list
        ensures d.Quality(nArg, enc) == 0
      {
        var j :| 0 <= j < |list| && list[j] == d;
        assert s[j] == d.Quality(nArg, enc);
      }
    }
  }

  // A perfect match at the head of a list is the best.
  lemma PerfectHead(list: seq<FuncDef>, nArg: int, enc: nat, before: FuncDef?)
    requires list != [] && list[0].Quality(nArg, enc) == FUNC_PERFECT_MATCH
    ensures BestOf(list, nArg, enc, before) == list[0] && BestScore(list, nArg, enc) == FUNC_PERFECT_MATCH
  {
    var s := Qualities(list, nArg, enc);
    assert s[0] == FUNC_PERFECT_MATCH;
    forall j {:trigger s[j]} | 0 <= j < |s|
      ensures s[j] <= s[0]
    {
      assert s[j] == list[j].Quality(nArg, enc);
    }
    FirstBestUnique(s, 0);
  }

  // The definition that a search settles on: the application's, unless there is
  // none or built-in ones are preferred and one of them matches.
  ghost function Chosen(app: seq<FuncDef>, builtin: seq<FuncDef>, preferBuiltin: bool, nArg: int, enc: nat): FuncDef?
    reads app`xSFunc, builtin`xSFunc
  {
    var best := BestOf(app, nArg, enc, null);
    if best == null || preferBuiltin then BestOf(builtin, nArg, enc, best) else best
  }

  lemma ChosenIs(app: seq<FuncDef>, builtin: seq<FuncDef>, preferBuiltin: bool, nArg: int, enc: nat, p: FuncDef?,
          q: FuncDef?)
    requires p == BestOf(app, nArg, enc, null)
    requires q == if p == null || preferBuiltin then BestOf(builtin, nArg, enc, p) else p
    ensures Chosen(app, builtin, preferBuiltin, nArg, enc) == q
  {
  }

  // Built-in ones come first if they are preferred and match, and otherwise those of
  // the application, if they match.
  lemma ChosenMeans(app: seq<FuncDef>, builtin: seq<FuncDef>, prefer: bool, nArg: int, enc: nat, d: FuncDef?)
    requires d == Chosen(app, builtin, prefer, nArg, enc)
    ensures Matches(builtin, nArg, enc) && (prefer || !Matches(app, nArg, enc)) ==>
              d != null && IsBest(builtin, nArg, enc, d)
    ensures Matches(app, nArg, enc) && !(prefer && Matches(builtin, nArg, enc)) ==>
              d != null && IsBest(app, nArg, enc, d)
    ensures !Matches(app, nArg, enc) && !Matches(builtin, nArg, enc) ==> d == null
  {
    var best := BestOf(app, nArg, enc, null);
    BestIs(app, nArg, enc, null, best);
    BestIs(builtin, nArg, enc, best, BestOf(builtin, nArg, enc, best));
  }

  // The best of a list is in the list; if the number of arguments does not matter, it
  // can be called.
  lemma BestInList(list: seq<FuncDef>, nArg: int, enc: nat, d: FuncDef)
    requires IsBest(list, nArg, enc, d)
    ensures d in list && d.Quality(nArg, enc) > 0 && (nArg == -2 ==> d.xSFunc)
  {
  }

  // What sqlite3FindFunction() finds: the definition chosen, if it can be called.
  ghost predicate Finds(app: seq<FuncDef>, builtin: seq<FuncDef>, prefer: bool, nArg: int, enc: nat, r: FuncDef?)
    reads app`xSFunc, builtin`xSFunc, if r == null then {} else {r}
  {
    && (r != null ==>
          && r.xSFunc
          && (if Matches(builtin, nArg, enc) && (prefer || !Matches(app, nArg, enc)) then IsBest(builtin, nArg, enc, r)
              else IsBest(app, nArg, enc, r)))
    && (r == null ==>
          var list := if Matches(builtin, nArg, enc) && (prefer || !Matches(app, nArg, enc)) then builtin else app;
          forall d {:trigger d in list} :: d in list && IsBest(list, nArg, enc, d) ==> !d.xSFunc)
    && (nArg == -2 ==>
          (r != null <==> (exists d :: d in app && d.xSFunc) || (exists d :: d in builtin && d.xSFunc)))
  }

  lemma BestUnique(list: seq<FuncDef>, nArg: int, enc: nat, d: FuncDef, e: FuncDef)
    requires IsBest(list, nArg, enc, d) && IsBest(list, nArg, enc, e)
    ensures d == e
  {
  }

  lemma AnyMatches(list: seq<FuncDef>, enc: nat)
    ensures Matches(list, -2, enc) <==> exists d :: d in list && d.xSFunc
  {
    if d :| d in list && d.xSFunc {
      assert d.Quality(-2, enc) > 0;
    }
  }

  lemma CallableFinds(app: seq<FuncDef>, builtin: seq<FuncDef>, prefer: bool, nArg: int, enc: nat, c: FuncDef?,
          r: FuncDef?)
    requires c == Chosen(app, builtin, prefer, nArg, enc) && r == if c != null && c.xSFunc then c else null
    ensures Finds(app, builtin, prefer, nArg, enc, r)
  {
    ChosenMeans(app, builtin, prefer, nArg, enc, c);
    AnyMatches(app, enc);
    AnyMatches(builtin, enc);
    var list := if Matches(builtin, nArg, enc) && (prefer || !Matches(app, nArg, enc)) then builtin else app;
    if c != null {
      BestInList(list, nArg, enc, c);
    }
    forall d | d in list && IsBest(list, nArg, enc, d)
      ensures d == c
    {
      if c != null {
        BestUnique(list, nArg, enc, d, c);
      } else {
        BestInList(list, nArg, enc, d);
      }
    }
  }

  // A definition that links to the head of a list, in front of the list.
  lemma HeadLinked(r: FuncDef, list: seq<FuncDef>)
    requires Linked(list) && r !in list && r.pNext == At(list, 0)
    ensures Linked([r] + list)
  {
    var all := [r] + list;
    forall j | 0 <= j < |all|
      ensures all[j].pNext == At(all, j + 1)
    {
      if j > 0 {
        assert all[j] == list[j - 1] && list[j - 1].pNext == At(list, j);
      }
    }
  }

  // The functions of a connection: those of the application by name, and the
  // built-in ones.
  class Database {
    var aFunc: map<string, FuncDef>
    const builtins: FuncDefHash
    var preferBuiltin: bool
    ghost var lists: map<string, seq<FuncDef>>
    ghost var nodes: set<FuncDef>

    ghost predicate Valid()
      reads this, nodes`pNext, builtins, builtins.a, builtins.nodes
    {
      && builtins.Valid()
      && lists.Keys == aFunc.Keys
      && (forall f {:trigger ListOk(f)} {:trigger f in lists} :: f in lists ==> ListOk(f))
    }

    ghost predicate ListOk(f: string)
      reads this, nodes`pNext
      requires f in lists && f in aFunc
    {
      lists[f] != [] && aFunc[f] == lists[f][0] && (forall d <- lists[f] :: d in nodes) && Linked(lists[f])
    }

    // The application's definitions of a name, the latest first.
    ghost function App(f: string): seq<FuncDef>
      reads this
    {
      if f in lists then lists[f] else []
    }

    constructor (builtins: FuncDefHash, preferBuiltin: bool)
      requires builtins.Valid()
      ensures Valid() && this.builtins == builtins && this.preferBuiltin == preferBuiltin && forall f :: App(f) == []
    {
      this.builtins, this.preferBuiltin := builtins, preferBuiltin;
      aFunc, lists, nodes := map[], map[], {};
    }

    // sqlite3FindFunction() without createFlag: the chosen definition, if it can be
    // called.
    method FindFunction(zName: string, nArg: int, enc: nat) returns (r: FuncDef?)
      requires Valid() && nArg >= -2
      ensures Finds(App(Folded(zName)), builtins.Overloads(Folded(zName)), preferBuiltin, nArg, enc, r)
    {
      var pBest, bestScore := FindApp(zName, nArg, enc);
      ghost var app := pBest;
      if pBest == null || preferBuiltin {
        pBest := FindBuiltin(zName, nArg, enc, pBest);
      }
      ChosenIs(App(Folded(zName)), builtins.Overloads(Folded(zName)), preferBuiltin, nArg, enc, app, pBest);
      r := if pBest != null && pBest.xSFunc then pBest else null;
      CallableFinds(App(Folded(zName)), builtins.Overloads(Folded(zName)), preferBuiltin, nArg, enc, pBest, r);
    }

    // The search among the functions of the application.
    method FindApp(zName: string, nArg: int, enc: nat) returns (pBest: FuncDef?, bestScore: nat)
      requires Valid()
      ensures pBest == BestOf(App(Folded(zName)), nArg, enc, null) &&
              bestScore == BestScore(App(Folded(zName)), nArg, enc)
    {
      var f := Folded(zName);
      pBest, bestScore := SearchBest(if f in aFunc then aFunc[f] else null, App(f), nArg, enc, null);
    }

    // The search among the built-in functions.
    method FindBuiltin(zName: string, nArg: int, enc: nat, before: FuncDef?) returns (pBest: FuncDef?)
      requires builtins.Valid()
      ensures pBest == BestOf(builtins.Overloads(Folded(zName)), nArg, enc, before)
    {
      var f := Folded(zName);
      var p := builtins.FunctionSearch((CharAt(f, 0) as nat + |zName|) % SQLITE_FUNC_HASH_SZ, zName);
      builtins.OverloadsLinked(f);
      var score;
      pBest, score := SearchBest(p, builtins.Overloads(f), nArg, enc, before);
    }

    // sqlite3FindFunction() with createFlag: a perfect match of the application, or
    // else a new definition at the head of its list - unless memory runs out.
    method FindOrCreate(zName: string, nArg: int, enc: nat) returns (r: FuncDef?)
      requires Valid() && nArg >= -1
      modifies this
      ensures Valid()
      ensures r == null ==> lists == old(lists)
      ensures old(BestScore(App(Folded(zName)), nArg, enc)) == FUNC_PERFECT_MATCH ==>
                r == old(BestOf(App(Folded(zName)), nArg, enc, null)) && r != null && lists == old(lists)
      ensures old(BestScore(App(Folded(zName)), nArg, enc)) < FUNC_PERFECT_MATCH && r != null ==>
                && fresh(r) && r.nArg == AsI8(nArg) && r.funcFlags == enc && !r.xSFunc && r.zName == Folded(zName)
                && lists == old(lists)[Folded(zName) := [r] + old(App(Folded(zName)))]
                && (r.Quality(nArg, enc) == FUNC_PERFECT_MATCH <==> enc < 4 && nArg < 128)
      ensures r != null && enc < 4 && nArg < 128 ==> FoundAgain(r, zName, nArg, enc)
    {
      var f := Folded(zName);
      var pBest, bestScore := FindApp(zName, nArg, enc);
      r := pBest;
      if bestScore < FUNC_PERFECT_MATCH {
        var ok: bool := *;
        if !ok {
          return null;
        }
        r := Create(f, AsI8(nArg), enc);
        CreatedIsPerfect(nArg, enc, false);
        if enc < 4 && nArg < 128 {
          PerfectHead(App(f), nArg, enc, null);
        }
      }
    }

    // The next call for the same definition finds r, and creates none.
    ghost predicate FoundAgain(r: FuncDef, zName: string, nArg: int, enc: nat)
      reads this, App(Folded(zName))`xSFunc
    {
      && BestOf(App(Folded(zName)), nArg, enc, null) == r
      && BestScore(App(Folded(zName)), nArg, enc) == FUNC_PERFECT_MATCH
    }

    // The new definition, in front of those that its name had.
    method Create(f: string, nArg: int, enc: nat) returns (r: FuncDef)
      requires Valid()
      modifies this
      ensures Valid() && lists == old(lists)[f := [r] + old(App(f))]
      ensures fresh(r) && r.nArg == nArg && r.funcFlags == enc && !r.xSFunc && r.zName == f
    {
      ghost var app := App(f);
      r := new FuncDef(f, nArg, enc, false);
      r.pNext := if f in aFunc then aFunc[f] else null;
      lists := lists[f := [r] + app];
      aFunc := aFunc[f := r];
      nodes := nodes + {r};
      HeadLinked(r, app);
      forall g | g in lists
        ensures ListOk(g)
      {
        assert g != f ==> old(ListOk(g));
      }
    }
  }
}
