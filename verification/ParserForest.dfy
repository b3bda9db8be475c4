// Parse trees, and the derivations of the grammar that they stand for.
module ParserForest {
  import opened ParserTables

  // A leaf is a token with the terminal for which it was taken.
  datatype Tree = Leaf(token: nat, text: string, sym: nat) | Node(rule: nat, kids: seq<Tree>)

  function Sym(g: Grammar, tree: Tree): nat {
    match tree
    case Leaf(_, _, sym) => sym
    case Node(rule, _) => if rule < |g.lhs| then g.lhs[rule] else 0
  }

  // The tokens at the leaves, and the terminals for which they were taken.
  function Tokens(tree: Tree): seq<(nat, string)> {
    match tree
    case Leaf(token, text, _) => [(token, text)]
    case Node(_, kids) => ForestTokens(kids)
  }

  function ForestTokens(trees: seq<Tree>): seq<(nat, string)> {
    if trees == [] then [] else ForestTokens(trees[..|trees| - 1]) + Tokens(trees[|trees| - 1])
  }

  function Word(tree: Tree): seq<nat> {
    match tree
    case Leaf(_, _, sym) => [sym]
    case Node(_, kids) => ForestWord(kids)
  }

  function ForestWord(trees: seq<Tree>): seq<nat> {
    if trees == [] then [] else ForestWord(trees[..|trees| - 1]) + Word(trees[|trees| - 1])
  }

  // Every node is an instance of its rule, and every leaf was taken for what it
  // may be taken for.
  ghost predicate TreeOk(t: Tables, g: Grammar, tree: Tree) {
    match tree
    case Leaf(token, _, sym) => TakenFor(t, token, sym)
    case Node(rule, kids) =>
      && rule < |g.lhs| && rule < |g.rhs| && |kids| == |g.rhs[rule]|
      && (forall j {:trigger kids[j]} :: 0 <= j < |kids| ==>
          TreeOk(t, g, kids[j]) && Fills(g, g.rhs[rule][j], Sym(g, kids[j])))
  }

  lemma {:induction false} TokensConcat(a: seq<Tree>, b: seq<Tree>)
    ensures ForestTokens(a + b) == ForestTokens(a) + ForestTokens(b)
  {
    if b == [] {
      assert a + b == a;
    } else {
      TokensConcat(a, b[..|b| - 1]);
      assert (a + b)[..|a + b| - 1] == a + b[..|b| - 1];
    }
  }

  // ---- derivations ----------------------------------------------------------------

  // A step of a derivation: the rule, the place, and the symbols chosen for the
  // right-hand side.
  datatype Rewrite = Rewrite(rule: nat, place: nat, word: seq<nat>)

  // One alternative for each place of the right-hand side of rule r.
  predicate Chosen(g: Grammar, r: nat, w: seq<nat>) {
    r < |g.rhs| && |w| == |g.rhs[r]| && forall k {:trigger w[k]} :: 0 <= k < |w| ==> w[k] in g.rhs[r][k]
  }

  predicate Applies(g: Grammar, a: seq<nat>, u: Rewrite) {
    u.rule < |g.lhs| && Chosen(g, u.rule, u.word) && u.place < |a| && a[u.place] == g.lhs[u.rule]
  }

  function Rewritten(a: seq<nat>, u: Rewrite): seq<nat>
    requires u.place < |a|
  {
    a[..u.place] + u.word + a[u.place + 1..]
  }

  // The steps lead from a to b.
  predicate DerivesBy(g: Grammar, a: seq<nat>, b: seq<nat>, steps: seq<Rewrite>)
    decreases |steps|
  {
    if steps == [] then a == b else Applies(g, a, steps[0]) && DerivesBy(g, Rewritten(a, steps[0]), b, steps[1..])
  }

  ghost predicate Derives(g: Grammar, a: seq<nat>, b: seq<nat>) {
    exists steps :: DerivesBy(g, a, b, steps)
  }

  lemma {:induction false} DerivesByTrans(g: Grammar, a: seq<nat>, b: seq<nat>, c: seq<nat>, s: seq<Rewrite>,
          s': seq<Rewrite>)
    requires DerivesBy(g, a, b, s) && DerivesBy(g, b, c, s')
    ensures DerivesBy(g, a, c, s + s')
    decreases |s|
  {
    if s == [] {
      assert s + s' == s';
    } else {
      DerivesByTrans(g, Rewritten(a, s[0]), b, c, s[1..], s');
      assert (s + s')[1..] == s[1..] + s';
    }
  }

  lemma DerivesTrans(g: Grammar, a: seq<nat>, b: seq<nat>, c: seq<nat>)
    requires Derives(g, a, b) && Derives(g, b, c)
    ensures Derives(g, a, c)
  {
    var s :| DerivesBy(g, a, b, s);
    var s' :| DerivesBy(g, b, c, s');
    DerivesByTrans(g, a, b, c, s, s');
  }

  lemma DerivesSame(g: Grammar, a: seq<nat>)
    ensures Derives(g, a, a)
  {
    assert DerivesBy(g, a, a, []);
  }

  // A derivation goes on inside any context.
  lemma {:induction false} DerivesInside(g: Grammar, l: seq<nat>, a: seq<nat>, b: seq<nat>, r: seq<nat>,
          s: seq<Rewrite>) returns (s': seq<Rewrite>)
    requires DerivesBy(g, a, b, s)
    ensures DerivesBy(g, l + a + r, l + b + r, s')
    decreases |s|
  {
    if s == [] {
      s' := [];
    } else {
      var u := s[0];
      var c := Rewritten(a, u);
      var rest := DerivesInside(g, l, c, b, r, s[1..]);
      var v := u.(place := |l| + u.place);
      s' := [v] + rest;
      assert Rewritten(l + a + r, v) == l + c + r;
    }
  }

  lemma DerivesInContext(g: Grammar, l: seq<nat>, a: seq<nat>, b: seq<nat>, r: seq<nat>)
    requires Derives(g, a, b)
    ensures Derives(g, l + a + r, l + b + r)
  {
    var s :| DerivesBy(g, a, b, s);
    var s' := DerivesInside(g, l, a, b, r, s);
  }

  lemma DerivesBoth(g: Grammar, a: seq<nat>, b: seq<nat>, a': seq<nat>, b': seq<nat>)
    requires Derives(g, a, a') && Derives(g, b, b')
    ensures Derives(g, a + b, a' + b')
  {
    DerivesInContext(g, [], a, a', b);
    assert [] + a + b == a + b && [] + a' + b == a' + b;
    DerivesInContext(g, a', b, b', []);
    assert a' + b + [] == a' + b && a' + b' + [] == a' + b';
    DerivesTrans(g, a + b, a' + b, a' + b');
  }

  lemma RuleDerives(g: Grammar, r: nat, w: seq<nat>, x: seq<nat>)
    requires r < |g.lhs| && Chosen(g, r, w) && Derives(g, w, x)
    ensures Derives(g, [g.lhs[r]], x)
  {
    var s :| DerivesBy(g, w, x, s);
    var u := Rewrite(r, 0, w);
    assert Rewritten([g.lhs[r]], u) == w;
    assert DerivesBy(g, [g.lhs[r]], x, [u] + s);
  }

  lemma {:induction false} StandsDerives(g: Grammar, a: nat, x: nat, n: nat)
    requires StandsIn(g, a, x, n)
    ensures Derives(g, [a], [x])
    decreases n
  {
    if n == 0 {
      DerivesSame(g, [a]);
    } else {
      var r, b :| r in g.units && Unit(g, r, a, b) && StandsIn(g, b, x, n - 1);
      StandsDerives(g, b, x, n - 1);
      RuleDerives(g, r, [b], [x]);
    }
  }

  lemma ExpectedDerives(t: Tables, g: Grammar, a: nat, tree: Tree)
    requires TreeOk(t, g, tree) && Stands(g, a, Sym(g, tree)) && Derives(g, [Sym(g, tree)], Word(tree))
    ensures Derives(g, [a], Word(tree))
  {
    var n: nat :| StandsIn(g, a, Sym(g, tree), n);
    StandsDerives(g, a, Sym(g, tree), n);
    DerivesTrans(g, [a], [Sym(g, tree)], Word(tree));
  }

  // A tree is a derivation of its word from its symbol.
  lemma {:induction false} TreeDerives(t: Tables, g: Grammar, tree: Tree)
    requires TreeOk(t, g, tree)
    ensures Derives(g, [Sym(g, tree)], Word(tree))
    decreases tree, if tree.Node? then |tree.kids| + 1 else 0
  {
    match tree {
      case Leaf(_, _, sym) => DerivesSame(g, [sym]);
      case Node(rule, kids) =>
        var w := KidsDerive(t, g, tree, |kids|);
        assert kids[..|kids|] == kids;
        RuleDerives(g, rule, w, ForestWord(kids));
    }
  }

  // Each kid stands for one of the alternatives at its place.
  lemma {:induction false} KidsDerive(t: Tables, g: Grammar, tree: Tree, n: nat) returns (w: seq<nat>)
    requires tree.Node? && TreeOk(t, g, tree) && n <= |tree.kids|
    ensures |w| == n && forall k {:trigger w[k]} :: 0 <= k < n ==> w[k] in g.rhs[tree.rule][k]
    ensures Derives(g, w, ForestWord(tree.kids[..n]))
    decreases tree, n
  {
    var kids := tree.kids;
    if n == 0 {
      w := [];
      DerivesSame(g, []);
    } else {
      var w0 := KidsDerive(t, g, tree, n - 1);
      TreeDerives(t, g, kids[n - 1]);
      var a :| a in g.rhs[tree.rule][n - 1] && Stands(g, a, Sym(g, kids[n - 1]));
      ExpectedDerives(t, g, a, kids[n - 1]);
      DerivesBoth(g, w0, [a], ForestWord(kids[..n - 1]), Word(kids[n - 1]));
      w := w0 + [a];
      assert kids[..n][..n - 1] == kids[..n - 1];
    }
  }

  // The word takes each of the tokens for something it may be taken for.
  ghost predicate Reading(t: Tables, tokens: seq<(nat, string)>, word: seq<nat>) {
    |tokens| == |word| && forall k {:trigger word[k]} :: 0 <= k < |word| ==> TakenFor(t, tokens[k].0, word[k])
  }

  lemma {:induction false} TreeReads(t: Tables, g: Grammar, tree: Tree)
    requires TreeOk(t, g, tree)
    ensures Reading(t, Tokens(tree), Word(tree))
    decreases tree, if tree.Node? then |tree.kids| + 1 else 0
  {
    match tree {
      case Leaf(_, _, _) =>
      case Node(_, kids) =>
        KidsRead(t, g, tree, |kids|);
        assert kids[..|kids|] == kids;
    }
  }

  lemma {:induction false} KidsRead(t: Tables, g: Grammar, tree: Tree, n: nat)
    requires tree.Node? && TreeOk(t, g, tree) && n <= |tree.kids|
    ensures Reading(t, ForestTokens(tree.kids[..n]), ForestWord(tree.kids[..n]))
    decreases tree, n
  {
    if n > 0 {
      KidsRead(t, g, tree, n - 1);
      TreeReads(t, g, tree.kids[n - 1]);
      assert tree.kids[..n][..n - 1] == tree.kids[..n - 1];
    }
  }
}
