// The lists of rename tokens, and the buffer in which the statement is edited.
module RenameObjects {
  import opened Chars
  import opened RenameModel
  import opened Wrappers

  const SQLITE_OK: int := 0
  const SQLITE_NOMEM: int := 7

  // A token and the parse tree element that it created; 0 is no element.
  class RenameToken {
    var p: nat
    const t: Span
    var pNext: RenameToken?

    constructor (p: nat, t: Span, pNext: RenameToken?)
      ensures this.p == p && this.t == t && this.pNext == pNext
    {
      this.p, this.t, this.pNext := p, t, pNext;
    }
  }

  // The first token of a list for the element.
  ghost function Find(nodes: seq<RenameToken>, p: nat): (k: nat)
    reads nodes
    ensures k <= |nodes| && (k < |nodes| ==> nodes[k].p == p) && forall j :: 0 <= j < k ==> nodes[j].p != p
  {
    if nodes == [] then 0 else if nodes[0].p == p then 0 else 1 + Find(nodes[1..], p)
  }

  // No token starts further right than the k-th.
  ghost predicate Rightmost(nodes: seq<RenameToken>, k: nat) {
    k < |nodes| && forall j {:trigger nodes[j]} :: 0 <= j < |nodes| ==> nodes[j].t.z <= nodes[k].t.z
  }

  class RenameList {
    var pList: RenameToken?
    ghost var nodes: seq<RenameToken>

    ghost function From(i: nat): RenameToken?
      reads this
    {
      if i < |nodes| then nodes[i] else null
    }

    ghost predicate Valid()
      reads this, nodes`pNext
    {
      && pList == From(0)
      && (forall i {:trigger nodes[i].pNext} :: 0 <= i < |nodes| ==> nodes[i].pNext == From(i + 1))
      && (forall i, j {:trigger nodes[i], nodes[j]} :: 0 <= i < j < |nodes| ==> nodes[i] != nodes[j])
    }

    constructor ()
      ensures Valid() && nodes == []
    {
      pList, nodes := null, [];
    }

    // sqlite3RenameTokenMap()
    method Map(pPtr: nat, t: Span)
      requires Valid()
      modifies this
      ensures Valid() && |nodes| == |old(nodes)| + 1 && nodes[1..] == old(nodes)
      ensures fresh(nodes[0]) && nodes[0].p == pPtr && nodes[0].t == t
    {
      var pNew := new RenameToken(pPtr, t, pList);
      pList := pNew;
      nodes := [pNew] + nodes;
    }

    // The search along the list for the first token of an element.
    method Search(pPtr: nat) returns (q: RenameToken?, ghost n: nat)
      requires Valid()
      ensures n == Find(nodes, pPtr) && q == From(n)
    {
      q, n := pList, 0;
      while q != null && q.p != pPtr
        invariant 0 <= n <= |nodes| && q == From(n)
        invariant forall j :: 0 <= j < n ==> nodes[j].p != pPtr
        decreases |nodes| - n
      {
        q := q.pNext;
        n := n + 1;
      }
    }

    // sqlite3RenameTokenRemap(): the first token for pFrom becomes one for pTo.
    method Remap(pTo: nat, pFrom: nat)
      requires Valid()
      modifies nodes`p
      ensures forall j :: 0 <= j < |nodes| ==>
                nodes[j].p == if j == old(Find(nodes, pFrom)) then pTo else old(nodes[j].p)
    {
      var p, n := Search(pFrom);
      if p != null {
        p.p := pTo;
      }
    }

    // The node before the k-th, reached along the list.
    method Before(q: RenameToken, ghost k: nat) returns (r: RenameToken)
      requires Valid() && 0 < k < |nodes| && nodes[k] == q
      ensures r == nodes[k - 1]
    {
      r := pList;
      ghost var m := 0;
      while r.pNext != q
        invariant 0 <= m < k && r == nodes[m]
        decreases k - m
      {
        r := r.pNext;
        m := m + 1;
      }
    }

    method Splice(r: RenameToken, ghost k: nat)
      requires Valid() && 0 < k < |nodes| && nodes[k - 1] == r
      modifies this`nodes, r`pNext
      ensures Valid() && nodes == old(nodes)[..k] + old(nodes)[k + 1..]
    {
      ghost var all := nodes;
      r.pNext := r.pNext.pNext;
      nodes := nodes[..k] + nodes[k + 1..];
      assert forall i {:trigger nodes[i]} :: 0 <= i < |nodes| ==> nodes[i] == all[if i < k then i else i + 1];
    }

    // *pp = pBest->pNext, for the pp that points to the k-th node.
    method Unlink(q: RenameToken, ghost k: nat)
      requires Valid() && k < |nodes| && nodes[k] == q
      modifies this, nodes`pNext
      ensures Valid() && nodes == old(nodes)[..k] + old(nodes)[k + 1..]
    {
      if pList == q {
        pList := q.pNext;
        nodes := nodes[1..];
      } else {
        var r := Before(q, k);
        Splice(r, k);
      }
    }

    method Prepend(q: RenameToken)
      requires Valid() && q !in nodes
      modifies this, q`pNext
      ensures Valid() && nodes == [q] + old(nodes)
    {
      q.pNext := pList;
      pList := q;
      nodes := [q] + nodes;
    }
  }

  // The tokens that the rename concerns.
  class RenameCtx {
    const list: RenameList
    var nList: nat

    ghost predicate Valid()
      reads this, list, list.nodes`pNext
    {
      list.Valid() && nList == |list.nodes|
    }

    constructor ()
      ensures Valid() && fresh(list) && list.nodes == []
    {
      list := new RenameList();
      nList := 0;
    }

    // renameTokenFind(): the first token for pPtr moves here from the parser's list.
    method TokenFind(parse: RenameList, pPtr: nat) returns (ghost k: nat)
      requires Valid() && parse.Valid() && parse != list && forall q <- parse.nodes :: q !in list.nodes
      modifies this, list, parse, parse.nodes`pNext
      ensures Valid() && parse.Valid() && k == old(Find(parse.nodes, pPtr))
      ensures k == |old(parse.nodes)| ==> parse.nodes == old(parse.nodes) && list.nodes == old(list.nodes)
      ensures k < |old(parse.nodes)| ==>
                parse.nodes == old(parse.nodes)[..k] + old(parse.nodes)[k + 1..] &&
                  list.nodes == [old(parse.nodes)[k]] + old(list.nodes)
    {
      var q;
      q, k := parse.Search(pPtr);
      if q != null {
        Transfer(parse, q, k);
      }
    }

    method Transfer(parse: RenameList, q: RenameToken, ghost k: nat)
      requires Valid() && parse.Valid() && parse != list && forall r <- parse.nodes :: r !in list.nodes
      requires k < |parse.nodes| && parse.nodes[k] == q
      modifies this, list, parse, parse.nodes`pNext
      ensures Valid() && parse.Valid()
      ensures parse.nodes == old(parse.nodes)[..k] + old(parse.nodes)[k + 1..]
      ensures list.nodes == [q] + old(list.nodes)
    {
      assert forall i {:trigger list.nodes[i]} :: 0 <= i < |list.nodes| ==> list.nodes[i] !in parse.nodes;
      parse.Unlink(q, k);
      assert forall i {:trigger list.nodes[i]} :: 0 <= i < |list.nodes| ==>
               list.nodes[i].pNext == old(list.nodes[i].pNext);
      assert list.Valid();
      list.Prepend(q);
      assert forall i {:trigger parse.nodes[i]} :: 0 <= i < |parse.nodes| ==> parse.nodes[i] != q;
      nList := nList + 1;
    }

    // renameColumnTokenNext(): takes the rightmost token out of the list.
    method TokenNext() returns (pBest: RenameToken, ghost k: nat)
      requires list.Valid() && list.nodes != []
      modifies list, list.nodes`pNext
      ensures list.Valid() && k < |old(list.nodes)| && pBest == old(list.nodes)[k]
      ensures list.nodes == Without(old(list.nodes), k) && Rightmost(old(list.nodes), k)
    {
      pBest, k := list.pList, 0;
      var q := pBest.pNext;
      ghost var n := 1;
      while q != null
        invariant 1 <= n <= |list.nodes| && q == list.From(n)
        invariant k < n && pBest == list.nodes[k]
        invariant forall j :: 0 <= j < n ==> list.nodes[j].t.z <= pBest.t.z
        decreases |list.nodes| - n
      {
        if q.t.z > pBest.t.z {
          pBest, k := q, n;
        }
        q := q.pNext;
        n := n + 1;
      }
      list.Unlink(pBest, k);
    }
  }

  // memmove() within the buffer.
  method MemMove(a: array<char>, dst: nat, src: nat, len: nat)
    requires dst + len <= a.Length && src + len <= a.Length
    modifies a
    ensures a[dst..dst + len] == old(a[src..src + len])
    ensures forall i :: 0 <= i < a.Length && !(dst <= i < dst + len) ==> a[i] == old(a[i])
  {
    var copy := a[src..src + len];
    MemCpy(a, dst, copy);
  }

  method MemCpy(a: array<char>, dst: nat, s: string)
    requires dst + |s| <= a.Length
    modifies a
    ensures a[dst..dst + |s|] == s
    ensures forall i :: 0 <= i < a.Length && !(dst <= i < dst + |s|) ==> a[i] == old(a[i])
  {
    forall i | 0 <= i < |s| {
      a[dst + i] := s[i];
    }
  }

  // The text behind the token moves to where the replacement will end.
  method MoveRest(zOut: array<char>, nOut: nat, iOff: nat, n: nat, nReplace: nat) returns (nOut': nat)
    requires iOff + n <= nOut < zOut.Length && nOut - n + nReplace < zOut.Length && zOut[nOut] == NUL
    modifies zOut
    ensures nOut' == nOut - n + nReplace && zOut[nOut'] == NUL
    ensures zOut[..iOff] == old(zOut[..iOff]) && zOut[iOff + nReplace..nOut'] == old(zOut[iOff + n..nOut])
  {
    nOut' := nOut;
    if n != nReplace {
      MemMove(zOut, iOff + nReplace, iOff + n, nOut - (iOff + n));
      nOut' := nOut + nReplace - n;
      zOut[nOut'] := NUL;
    }
  }

  lemma Joined(a: string, i: nat, j: nat, b: string, c: string, d: string)
    requires i <= j <= |a| && b == a[..i] && c == a[i..j] && d == a[j..]
    ensures a == b + c + d
  {
  }

  // One turn of the loop of renameEditSql().
  method EditToken(zOut: array<char>, nOut: nat, iOff: nat, n: nat, zReplace: string) returns (nOut': nat)
    requires iOff + n <= nOut < zOut.Length && nOut - n + |zReplace| < zOut.Length && zOut[nOut] == NUL
    modifies zOut
    ensures nOut' == nOut - n + |zReplace| && zOut[nOut'] == NUL
    ensures zOut[..nOut'] == old(zOut[..iOff]) + zReplace + old(zOut[iOff + n..nOut])
  {
    nOut' := MoveRest(zOut, nOut, iOff, n, |zReplace|);
    ghost var head, tail := zOut[..iOff], zOut[iOff + |zReplace|..nOut'];
    MemCpy(zOut, iOff, zReplace);
    assert zOut[..iOff] == head && zOut[iOff + |zReplace|..nOut'] == tail;
    ghost var out := zOut[..nOut'];
    assert out[..iOff] == head && out[iOff..iOff + |zReplace|] == zReplace && out[iOff + |zReplace|..] == tail;
    Joined(out, iOff, iOff + |zReplace|, head, zReplace, tail);
  }

  // The places of the tokens of a list.
  ghost function Spans(nodes: seq<RenameToken>): set<Span> {
    set k | 0 <= k < |nodes| :: nodes[k].t
  }

  predicate Precedes(t: Span, u: Span) {
    t.z + t.n <= u.z
  }

  // The tokens of the list lie in the statement, are not empty and do not overlap.
  ghost predicate Disjoint(sql: string, nodes: seq<RenameToken>) {
    && (forall k {:trigger nodes[k]} :: 0 <= k < |nodes| ==> nodes[k].t.n > 0 && nodes[k].t.z + nodes[k].t.n <= |sql|)
    && (forall j, k {:trigger Precedes(nodes[j].t, nodes[k].t)} :: 0 <= j < |nodes| && 0 <= k < |nodes| && j != k ==>
          Precedes(nodes[j].t, nodes[k].t) || Precedes(nodes[k].t, nodes[j].t))
  }

  // The tokens still in the list lie left of those already replaced.
  ghost predicate Left(nodes: seq<RenameToken>, done: set<Span>) {
    forall k, u {:trigger Precedes(nodes[k].t, u)} :: 0 <= k < |nodes| && u in done ==> Precedes(nodes[k].t, u)
  }

  // Taking out the rightmost token.
  lemma RightmostOut(sql: string, nodes: seq<RenameToken>, k: nat, rest: seq<RenameToken>, done: set<Span>)
    requires Disjoint(sql, nodes) && Separate(sql, done) && Left(nodes, done) && Rightmost(nodes, k) &&
             rest == Without(nodes, k)
    ensures Disjoint(sql, rest) && Separate(sql, done + {nodes[k].t}) && Left(rest, done + {nodes[k].t})
    ensures nodes[k].t.n > 0 && nodes[k].t.z + nodes[k].t.n <= |sql|
    ensures forall u <- done :: nodes[k].t.z + nodes[k].t.n <= u.z
  {
    forall u | u in done
      ensures nodes[k].t.z + nodes[k].t.n <= u.z
    {
      assert Precedes(nodes[k].t, u);
    }
    forall i, j | 0 <= i < |rest| && 0 <= j < |rest| && i != j
      ensures Precedes(rest[i].t, rest[j].t) || Precedes(rest[j].t, rest[i].t)
    {
      var i', j' := if i < k then i else i + 1, if j < k then j else j + 1;
      assert Precedes(nodes[i'].t, nodes[j'].t) || Precedes(nodes[j'].t, nodes[i'].t);
    }
    forall i, u | 0 <= i < |rest| && u in done + {nodes[k].t}
      ensures Precedes(rest[i].t, u)
    {
      var i' := if i < k then i else i + 1;
      assert rest[i] == nodes[i'];
      assert Precedes(nodes[i'].t, nodes[k].t) || Precedes(nodes[k].t, nodes[i'].t);
      assert u in done ==> Precedes(nodes[i'].t, u);
    }
  }

  lemma SpansWithout(nodes: seq<RenameToken>, k: nat)
    requires k < |nodes|
    ensures Spans(nodes) == Spans(Without(nodes, k)) + {nodes[k].t} && Kept(Without(nodes, k), nodes)
  {
    var rest := Without(nodes, k);
    forall t | t in Spans(nodes)
      ensures t in Spans(rest) + {nodes[k].t}
    {
      var j :| 0 <= j < |nodes| && nodes[j].t == t;
      if j != k {
        assert rest[if j < k then j else j - 1].t == t;
      }
    }
  }

  // m times q.
  ghost function Room(m: nat, q: nat): nat {
    if m == 0 then 0 else Room(m - 1, q) + q
  }

  lemma {:induction false} RoomIsProduct(m: nat, q: nat)
    ensures Room(m, q) == m * q
  {
    if m > 0 {
      RoomIsProduct(m - 1, q);
    }
  }

  // The state of the loop of renameEditSql() when the tokens in done have been
  // replaced.
  ghost predicate Editing(zSql: string, nodes: seq<RenameToken>, done: set<Span>, zNew: string, bQuote: bool,
          out: string, size: nat) {
    && Disjoint(zSql, nodes) && Separate(zSql, done) && Left(nodes, done)
    && out == Replaced(zSql, done, zNew, bQuote, 0)
    && |out| + Room(|nodes|, |Quoted(zNew)|) < size
  }

  // The rightmost token can be edited,
  lemma TurnFits(zSql: string, nodes: seq<RenameToken>, k: nat, done: set<Span>, zNew: string, bQuote: bool,
          out: string, size: nat)
    requires Editing(zSql, nodes, done, zNew, bQuote, out, size) && Rightmost(nodes, k)
    ensures nodes[k].t.z + nodes[k].t.n <= |out|
    ensures |out| - nodes[k].t.n + |Replacement(zSql, nodes[k].t, zNew, bQuote)| < size
  {
    RightmostOut(zSql, nodes, k, Without(nodes, k), done);
    EditLeft(zSql, done, nodes[k].t, zNew, bQuote, out);
  }

  // and the edit leaves the text with one more token replaced.
  lemma TurnEdits(zSql: string, nodes: seq<RenameToken>, k: nat, rest: seq<RenameToken>, done: set<Span>,
          done': set<Span>,
                  zNew: string, bQuote: bool, out: string, size: nat, out': string)
    requires Editing(zSql, nodes, done, zNew, bQuote, out, size) && Rightmost(nodes, k) && rest == Without(nodes, k)
    requires nodes[k].t.z + nodes[k].t.n <= |out| && done' == done + {nodes[k].t}
    requires out' == out[..nodes[k].t.z] + Replacement(zSql, nodes[k].t, zNew, bQuote) +
             out[nodes[k].t.z + nodes[k].t.n..]
    ensures Editing(zSql, rest, done', zNew, bQuote, out', size)
  {
    RightmostOut(zSql, nodes, k, rest, done);
    EditLeft(zSql, done, nodes[k].t, zNew, bQuote, out);
  }

  // The nodes of one list are among those of another.
  ghost predicate Kept(nodes: seq<RenameToken>, all: seq<RenameToken>) {
    forall k {:trigger nodes[k]} :: 0 <= k < |nodes| ==> nodes[k] in all
  }

  // The edit of one turn: the replacement is plain or quoted.
  method ReplaceAt(zSql: string, zNew: string, zQuot: string, bQuote: bool, zOut: array<char>, nOut: nat, t: Span)
    returns (nOut': nat)
    requires zQuot == Quoted(zNew) && t.z + t.n <= nOut < zOut.Length && zOut[nOut] == NUL
    requires nOut - t.n + |Replacement(zSql, t, zNew, bQuote)| < zOut.Length
    modifies zOut
    ensures nOut' < zOut.Length && zOut[nOut'] == NUL
    ensures zOut[..nOut'] == old(zOut[..nOut])[..t.z] + Replacement(zSql, t, zNew, bQuote) +
            old(zOut[..nOut])[t.z + t.n..]
  {
    ghost var out := zOut[..nOut];
    var zReplace := if IsIdChar(CharAt(zSql, t.z)) then if bQuote then zQuot else zNew else zQuot;
    assert out[..t.z] == zOut[..t.z] && out[t.z + t.n..] == zOut[t.z + t.n..nOut];
    nOut' := EditToken(zOut, nOut, t.z, t.n, zReplace);
  }

  // One turn of the loop.
  method EditNext(ctx: RenameCtx, zSql: string, zNew: string, zQuot: string, bQuote: bool, zOut: array<char>,
          nOut: nat, ghost done: set<Span>)
    returns (nOut': nat, ghost t: Span)
    requires ctx.list.Valid() && ctx.list.nodes != [] && zQuot == Quoted(zNew) && nOut < zOut.Length &&
             zOut[nOut] == NUL
    requires Editing(zSql, ctx.list.nodes, done, zNew, bQuote, zOut[..nOut], zOut.Length)
    modifies ctx.list, ctx.list.nodes`pNext, zOut
    ensures ctx.list.Valid() && |ctx.list.nodes| == |old(ctx.list.nodes)| - 1
    ensures Kept(ctx.list.nodes, old(ctx.list.nodes))
    ensures Spans(old(ctx.list.nodes)) == Spans(ctx.list.nodes) + {t}
    ensures nOut' < zOut.Length && zOut[nOut'] == NUL
    ensures Editing(zSql, ctx.list.nodes, done + {t}, zNew, bQuote, zOut[..nOut'], zOut.Length)
  {
    ghost var nodes, out := ctx.list.nodes, zOut[..nOut];
    var pBest, k := ctx.TokenNext();
    t := pBest.t;
    SpansWithout(nodes, k);
    TurnFits(zSql, nodes, k, done, zNew, bQuote, out, zOut.Length);
    nOut' := ReplaceAt(zSql, zNew, zQuot, bQuote, zOut, nOut, pBest.t);
    TurnEdits(zSql, nodes, k, ctx.list.nodes, done, done + {t}, zNew, bQuote, out, zOut.Length, zOut[..nOut']);
  }

  // The loop.
  method EditAll(ctx: RenameCtx, zSql: string, zNew: string, zQuot: string, bQuote: bool, zOut: array<char>)
    returns (r: string)
    requires ctx.list.Valid() && zQuot == Quoted(zNew) && Disjoint(zSql, ctx.list.nodes)
    requires |zSql| + Room(|ctx.list.nodes|, |zQuot|) < zOut.Length && zOut[..|zSql|] == zSql && zOut[|zSql|] == NUL
    modifies ctx.list, ctx.list.nodes`pNext, zOut
    ensures ctx.list.nodes == [] && Separate(zSql, Spans(old(ctx.list.nodes)))
    ensures r == Replaced(zSql, Spans(old(ctx.list.nodes)), zNew, bQuote, 0)
  {
    var nOut: nat := |zSql|;
    ghost var done: set<Span> := {};
    ghost var all := Spans(ctx.list.nodes);
    NoTokens(zSql, zNew, bQuote);
    while ctx.list.pList != null
      invariant ctx.list.Valid() && Kept(ctx.list.nodes, old(ctx.list.nodes))
      invariant nOut < zOut.Length && zOut[nOut] == NUL
      invariant Editing(zSql, ctx.list.nodes, done, zNew, bQuote, zOut[..nOut], zOut.Length)
      invariant all == done + Spans(ctx.list.nodes)
      decreases |ctx.list.nodes|
    {
      ghost var t;
      nOut, t := EditNext(ctx, zSql, zNew, zQuot, bQuote, zOut, nOut, done);
      done := done + {t};
    }
    assert Spans(ctx.list.nodes) == {};
    assert all == done;
    r := zOut[..nOut];
  }

  // renameEditSql(): whatever the order of the list, all tokens are replaced at
  // once, within a buffer of nSql + nList * nQuot + 1 bytes.
  method EditSql(ctx: RenameCtx, zSql: string, zNew: string, bQuote: bool) returns (rc: int, r: string)
    requires ctx.Valid() && Disjoint(zSql, ctx.list.nodes)
    modifies ctx.list, ctx.list.nodes`pNext
    ensures rc == SQLITE_OK || rc == SQLITE_NOMEM
    ensures rc == SQLITE_OK ==> ctx.list.nodes == [] && Separate(zSql, Spans(old(ctx.list.nodes)))
    ensures rc == SQLITE_OK ==> r == Replaced(zSql, Spans(old(ctx.list.nodes)), zNew, bQuote, 0)
  {
    r := "";
    var ok: bool := *;
    if !ok {
      return SQLITE_NOMEM, r;
    }
    rc := SQLITE_OK;
    var zQuot := Quoted(zNew);
    var size := |zSql| + ctx.nList * |zQuot| + 1;
    RoomIsProduct(ctx.nList, |zQuot|);
    var zOut := new char[size](_ => NUL);
    MemCpy(zOut, 0, zSql);
    r := EditAll(ctx, zSql, zNew, zQuot, bQuote, zOut);
  }
}
