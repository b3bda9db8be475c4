// The rewriting of an SQL statement by ALTER TABLE RENAME: what it means to
// replace a set of tokens at once, and why replacing them one by one from the
// right does the same.
module RenameModel {
  import opened Chars

  // The place of a token in the statement.
  datatype Span = Span(z: nat, n: nat)

  predicate Apart(t: Span, u: Span) {
    t == u || t.z + t.n <= u.z || u.z + u.n <= t.z
  }

  // Tokens of the statement that do not overlap, none of them empty.
  ghost predicate Separate(sql: string, toks: set<Span>) {
    && (forall t {:trigger t in toks} :: t in toks ==> t.n > 0 && t.z + t.n <= |sql|)
    && (forall t, u {:trigger Apart(t, u)} :: t in toks && u in toks ==> Apart(t, u))
  }

  // "%w" in double quotes: the quotes inside are doubled.
  function Escaped(name: string): (r: string)
    ensures |r| >= |name|
  {
    if name == "" then "" else Escaped(name[..|name| - 1]) + if name[|name| - 1] == '"' then "\"\""
      else [name[|name| - 1]]
  }

  function Quoted(name: string): (r: string)
    ensures |r| >= |name|
  {
    "\"" + Escaped(name) + "\""
  }

  // The text that replaces a token.
  function Replacement(sql: string, t: Span, zNew: string, bQuote: bool): (r: string)
    ensures |r| <= |Quoted(zNew)|
  {
    if IsIdChar(CharAt(sql, t.z)) && !bQuote then zNew else Quoted(zNew)
  }

  // A token starts at position i.
  ghost predicate StartsAt(toks: set<Span>, i: nat) {
    exists t :: t in toks && t.z == i
  }

  ghost function TokenAt(toks: set<Span>, i: nat): (t: Span)
    requires StartsAt(toks, i)
    ensures t in toks && t.z == i
  {
    var t :| t in toks && t.z == i;
    t
  }

  // The statement from position i on, read from left to right, with every token
  // replaced.
  ghost function Replaced(sql: string, toks: set<Span>, zNew: string, bQuote: bool, i: nat): string
    requires Separate(sql, toks)
    decreases |sql| - i
  {
    if i >= |sql| then ""
    else if StartsAt(toks, i) then
      Replacement(sql, TokenAt(toks, i), zNew, bQuote) + Replaced(sql, toks, zNew, bQuote, i + TokenAt(toks, i).n)
    else [sql[i]] + Replaced(sql, toks, zNew, bQuote, i + 1)
  }

  lemma TokenIs(sql: string, toks: set<Span>, t: Span)
    requires Separate(sql, toks) && t in toks
    ensures t.n > 0 && t.z + t.n <= |sql| && StartsAt(toks, t.z) && TokenAt(toks, t.z) == t
  {
    assert t.n > 0 && Apart(TokenAt(toks, t.z), t);
  }

  lemma ReplacedToken(sql: string, toks: set<Span>, zNew: string, bQuote: bool, t: Span)
    requires Separate(sql, toks) && t in toks
    ensures Replaced(sql, toks, zNew, bQuote, t.z) ==
            Replacement(sql, t, zNew, bQuote) + Replaced(sql, toks, zNew, bQuote, t.z + t.n)
  {
    TokenIs(sql, toks, t);
  }

  lemma ReplacedChar(sql: string, toks: set<Span>, zNew: string, bQuote: bool, i: nat)
    requires Separate(sql, toks) && i < |sql| && !StartsAt(toks, i)
    ensures Replaced(sql, toks, zNew, bQuote, i) == [sql[i]] + Replaced(sql, toks, zNew, bQuote, i + 1)
  {
  }

  // One character, the text up to position m, and what follows.
  lemma OneMore(sql: string, i: nat, m: nat, rest: string, r: string, whole: string)
    requires i < m <= |sql| && r == sql[i + 1..m] + rest && whole == [sql[i]] + r
    ensures whole == sql[i..m] + rest
  {
    assert sql[i..m] == [sql[i]] + sql[i + 1..m];
  }

  // From position i on the text is copied up to position m.
  ghost predicate Copies(sql: string, toks: set<Span>, zNew: string, bQuote: bool, i: nat, m: nat)
    requires Separate(sql, toks) && i <= m <= |sql|
  {
    Replaced(sql, toks, zNew, bQuote, i) == sql[i..m] + Replaced(sql, toks, zNew, bQuote, m)
  }

  lemma CopiesNothing(sql: string, toks: set<Span>, zNew: string, bQuote: bool, m: nat)
    requires Separate(sql, toks) && m <= |sql|
    ensures Copies(sql, toks, zNew, bQuote, m, m)
  {
    assert sql[m..m] == "";
  }

  lemma CopiesOneMore(sql: string, toks: set<Span>, zNew: string, bQuote: bool, i: nat, m: nat)
    requires Separate(sql, toks) && i < m <= |sql| && !StartsAt(toks, i) && Copies(sql, toks, zNew, bQuote, i + 1, m)
    ensures Copies(sql, toks, zNew, bQuote, i, m)
  {
    ReplacedChar(sql, toks, zNew, bQuote, i);
    OneMore(sql, i, m, Replaced(sql, toks, zNew, bQuote, m), Replaced(sql, toks, zNew, bQuote, i + 1),
            Replaced(sql, toks, zNew, bQuote, i));
  }

  // Text before the next token is copied.
  lemma {:induction false} ReplacedCopies(sql: string, toks: set<Span>, zNew: string, bQuote: bool, i: nat, m: nat)
    requires Separate(sql, toks) && i <= m <= |sql| && forall t <- toks :: t.z < i || t.z >= m
    ensures Copies(sql, toks, zNew, bQuote, i, m)
    decreases m - i
  {
    if i < m {
      ReplacedCopies(sql, toks, zNew, bQuote, i + 1, m);
      CopiesOneMore(sql, toks, zNew, bQuote, i, m);
    } else {
      CopiesNothing(sql, toks, zNew, bQuote, m);
    }
  }

  // From position i on the token t makes no difference.
  ghost predicate NoDifference(sql: string, toks: set<Span>, t: Span, zNew: string, bQuote: bool, i: nat)
    requires Separate(sql, toks + {t}) && Separate(sql, toks)
  {
    Replaced(sql, toks + {t}, zNew, bQuote, i) == Replaced(sql, toks, zNew, bQuote, i)
  }

  lemma RestStep(sql: string, toks: set<Span>, t: Span, zNew: string, bQuote: bool, i: nat)
    requires Separate(sql, toks + {t}) && Separate(sql, toks) && t.z < i < |sql|
    requires forall j {:trigger NoDifference(sql, toks, t, zNew, bQuote, j)} :: i < j <= |sql| ==>
               NoDifference(sql, toks, t, zNew, bQuote, j)
    ensures NoDifference(sql, toks, t, zNew, bQuote, i)
  {
    if StartsAt(toks, i) {
      var u := TokenAt(toks, i);
      TokenIs(sql, toks, u);
      ReplacedToken(sql, toks, zNew, bQuote, u);
      ReplacedToken(sql, toks + {t}, zNew, bQuote, u);
      assert NoDifference(sql, toks, t, zNew, bQuote, u.z + u.n);
    } else {
      ReplacedChar(sql, toks, zNew, bQuote, i);
      ReplacedChar(sql, toks + {t}, zNew, bQuote, i);
      assert NoDifference(sql, toks, t, zNew, bQuote, i + 1);
    }
  }

  lemma NothingLeft(sql: string, toks: set<Span>, t: Span, zNew: string, bQuote: bool)
    requires Separate(sql, toks + {t}) && Separate(sql, toks)
    ensures NoDifference(sql, toks, t, zNew, bQuote, |sql|)
  {
  }

  // Tokens further left do not matter.
  lemma {:induction false} ReplacedRest(sql: string, toks: set<Span>, t: Span, zNew: string, bQuote: bool, i: nat)
    requires Separate(sql, toks + {t}) && Separate(sql, toks) && t.z < i <= |sql|
    ensures forall j {:trigger NoDifference(sql, toks, t, zNew, bQuote, j)} :: i <= j <= |sql| ==>
              NoDifference(sql, toks, t, zNew, bQuote, j)
    decreases |sql| - i
  {
    if i < |sql| {
      ReplacedRest(sql, toks, t, zNew, bQuote, i + 1);
      RestStep(sql, toks, t, zNew, bQuote, i);
    } else {
      NothingLeft(sql, toks, t, zNew, bQuote);
    }
  }

  // The text up to position n is replaced from position m on.
  lemma Edited(sql: string, m: nat, n: nat, rest: string, r: string, new_: string, r': string)
    requires m <= n <= |sql| && r == sql[0..n] + rest && r' == sql[0..m] + (new_ + rest)
    ensures n <= |r| && r' == r[..m] + new_ + r[n..]
  {
    assert r[..m] == sql[0..m] && r[n..] == rest;
  }

  // Replacing one more token, left of all that have been replaced, is one edit
  // of the text as it is then.
  lemma EditLeft(sql: string, toks: set<Span>, t: Span, zNew: string, bQuote: bool, r: string)
    requires Separate(sql, toks + {t}) && Separate(sql, toks) && (forall u <- toks :: t.z + t.n <= u.z) && t.n > 0
    requires r == Replaced(sql, toks, zNew, bQuote, 0)
    ensures t.z + t.n <= |r|
    ensures Replaced(sql, toks + {t}, zNew, bQuote, 0) == r[..t.z] + Replacement(sql, t, zNew, bQuote) + r[t.z + t.n..]
  {
    assert t in toks + {t};
    ReplacedCopies(sql, toks, zNew, bQuote, 0, t.z + t.n);
    ReplacedCopies(sql, toks + {t}, zNew, bQuote, 0, t.z);
    ReplacedToken(sql, toks + {t}, zNew, bQuote, t);
    ReplacedRest(sql, toks, t, zNew, bQuote, t.z + t.n);
    assert NoDifference(sql, toks, t, zNew, bQuote, t.z + t.n);
    Edited(sql, t.z, t.z + t.n, Replaced(sql, toks, zNew, bQuote, t.z + t.n), r, Replacement(sql, t, zNew, bQuote),
           Replaced(sql, toks + {t}, zNew, bQuote, 0));
  }

  lemma NoTokens(sql: string, zNew: string, bQuote: bool)
    ensures Separate(sql, {}) && Replaced(sql, {}, zNew, bQuote, 0) == sql
  {
    ReplacedCopies(sql, {}, zNew, bQuote, 0, |sql|);
    assert sql[0..|sql|] == sql;
  }

  predicate CarriesNew(sql: string, t: Span, zNew: string, bQuote: bool) {
    t.z + t.n <= |sql| && sql[t.z..t.z + t.n] == Replacement(sql, t, zNew, bQuote)
  }

  // From position i on nothing changes.
  ghost predicate SameFrom(sql: string, toks: set<Span>, zNew: string, bQuote: bool, i: nat)
    requires Separate(sql, toks)
  {
    i <= |sql| && Replaced(sql, toks, zNew, bQuote, i) == sql[i..]
  }

  lemma SameToken(sql: string, toks: set<Span>, zNew: string, bQuote: bool, t: Span)
    requires Separate(sql, toks) && t in toks && CarriesNew(sql, t, zNew, bQuote)
    requires SameFrom(sql, toks, zNew, bQuote, t.z + t.n)
    ensures SameFrom(sql, toks, zNew, bQuote, t.z)
  {
    ReplacedToken(sql, toks, zNew, bQuote, t);
    Halves(sql, t.z, t.z + t.n, Replacement(sql, t, zNew, bQuote), Replaced(sql, toks, zNew, bQuote, t.z + t.n));
  }

  lemma Halves(sql: string, i: nat, m: nat, a: string, b: string)
    requires i <= m <= |sql| && a == sql[i..m] && b == sql[m..]
    ensures a + b == sql[i..]
  {
  }

  lemma SameChar(sql: string, toks: set<Span>, zNew: string, bQuote: bool, i: nat)
    requires Separate(sql, toks) && i < |sql| && !StartsAt(toks, i)
    requires SameFrom(sql, toks, zNew, bQuote, i + 1)
    ensures SameFrom(sql, toks, zNew, bQuote, i)
  {
    ReplacedChar(sql, toks, zNew, bQuote, i);
  }

  lemma SameAtEnd(sql: string, toks: set<Span>, zNew: string, bQuote: bool)
    requires Separate(sql, toks)
    ensures SameFrom(sql, toks, zNew, bQuote, |sql|)
  {
  }

  lemma SameStep(sql: string, toks: set<Span>, zNew: string, bQuote: bool, i: nat)
    requires Separate(sql, toks) && i < |sql| && forall t {:trigger t in toks} :: t in toks ==>
               CarriesNew(sql, t, zNew, bQuote)
    requires forall j {:trigger SameFrom(sql, toks, zNew, bQuote, j)} :: i < j <= |sql| ==>
               SameFrom(sql, toks, zNew, bQuote, j)
    ensures SameFrom(sql, toks, zNew, bQuote, i)
  {
    if StartsAt(toks, i) {
      TokenIs(sql, toks, TokenAt(toks, i));
      SameToken(sql, toks, zNew, bQuote, TokenAt(toks, i));
    } else {
      SameChar(sql, toks, zNew, bQuote, i);
    }
  }

  lemma {:induction false} AllSame(sql: string, toks: set<Span>, zNew: string, bQuote: bool, i: nat)
    requires Separate(sql, toks) && i <= |sql| && forall t {:trigger t in toks} :: t in toks ==>
               CarriesNew(sql, t, zNew, bQuote)
    ensures forall j {:trigger SameFrom(sql, toks, zNew, bQuote, j)} :: i <= j <= |sql| ==>
              SameFrom(sql, toks, zNew, bQuote, j)
    decreases |sql| - i
  {
    if i < |sql| {
      AllSame(sql, toks, zNew, bQuote, i + 1);
      SameStep(sql, toks, zNew, bQuote, i);
    } else {
      SameAtEnd(sql, toks, zNew, bQuote);
    }
  }

  // Replacing tokens that already carry the new name changes nothing.
  lemma RenameToSame(sql: string, toks: set<Span>, zNew: string, bQuote: bool)
    requires Separate(sql, toks) && forall t {:trigger t in toks} :: t in toks ==> CarriesNew(sql, t, zNew, bQuote)
    ensures Replaced(sql, toks, zNew, bQuote, 0) == sql
  {
    AllSame(sql, toks, zNew, bQuote, 0);
    assert SameFrom(sql, toks, zNew, bQuote, 0);
  }
}
