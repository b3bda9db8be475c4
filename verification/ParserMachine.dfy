// The push-down automaton of sqlite3Parser() on values: what one call does to
// the stack.  The actions of the rules are reduced to building parse trees.
module ParserMachine {
  import opened ParserTables
  import opened ParserForest

  // A stack entry: a state, or an action still to be taken; the symbol; and in
  // place of its semantic value, the tree.
  datatype Entry = Entry(stateno: nat, major: nat, tree: Tree)

  // How a turn of the driver's loop, or a whole call, ends.  Fault stands for an
  // assertion that fails.
  datatype Outcome = Running | Shifted | Accepted(tree: Tree) | SyntaxError | Overflow | Fault

  const BOTTOM: Entry := Entry(0, 0, Leaf(0, "", 0))

  function Trees(s: seq<Entry>): seq<Tree> {
    if s == [] then [] else Trees(s[..|s| - 1]) + [s[|s| - 1].tree]
  }

  // yy_shift(); yyStackOverflow() pops all but the bottom of the stack.
  function Shift(stack: seq<Entry>, newState: nat, major: nat, text: string, sym: nat): (seq<Entry>, Outcome)
    requires stack != []
  {
    if |stack| >= YYSTACKDEPTH then (stack[..1], Overflow)
    else
      var stateno := if newState > YY_MAX_SHIFT then newState + (YY_MIN_REDUCE - YY_MIN_SHIFTREDUCE) else newState;
      (stack + [Entry(stateno, major, Leaf(major, text, sym))], Shifted)
  }

  // yy_reduce()
  function Reduce(t: Tables, stack: seq<Entry>, rule: nat): (seq<Entry>, Outcome)
    requires TablesOk(t) && stack != []
  {
    if rule >= |t.ruleNRhs| || t.ruleNRhs[rule] > 0 || -t.ruleNRhs[rule] >= |stack| then (stack, Fault)
    else if t.ruleNRhs[rule] == 0 && |stack| >= YYSTACKDEPTH then (stack[..1], Overflow)
    else
      var base := |stack| + t.ruleNRhs[rule];
      if !GotoDefined(t, stack[base - 1].stateno, t.ruleLhs[rule]) then (stack, Fault)
      else
        var act := Goto(t, stack[base - 1].stateno, t.ruleLhs[rule]);
        if YY_MAX_SHIFT < act <= YY_MAX_SHIFTREDUCE || act == YY_ERROR_ACTION then (stack, Fault)
        else (stack[..base] + [Entry(act, t.ruleLhs[rule], Node(rule, Trees(stack[base..])))], Running)
  }

  // One turn of the loop of sqlite3Parser().
  function Turn(t: Tables, stack: seq<Entry>, major: nat, text: string): (seq<Entry>, Outcome)
    requires TablesOk(t) && stack != [] && major < YYNTOKEN
  {
    var f := FindShift(t, major, stack[|stack| - 1].stateno);
    if f.act >= YY_MIN_REDUCE then Reduce(t, stack, f.act - YY_MIN_REDUCE)
    else if f.act <= YY_MAX_SHIFTREDUCE then Shift(stack, f.act, major, text, f.sym)
    else if f.act == YY_ACCEPT_ACTION then
      if |stack| == 2 then (stack[..1], Accepted(stack[1].tree)) else (stack, Fault)
    else if f.act == YY_ERROR_ACTION then (stack, SyntaxError)
    else (stack, Fault)
  }

  // n turns, or as many as it takes to get an outcome.
  function Drive(t: Tables, stack: seq<Entry>, major: nat, text: string, n: nat): (r: (seq<Entry>, Outcome))
    requires TablesOk(t) && stack != [] && major < YYNTOKEN
    ensures r.0 != []
    decreases n
  {
    if n == 0 then (stack, Running)
    else
      var u := Turn(t, stack, major, text);
      if u.1 == Running then Drive(t, u.0, major, text, n - 1) else u
  }

  // ---- the invariant of the stack ---------------------------------------------------

  // The entry was reached from the one below by a transition on its symbol.
  ghost predicate Linked(g: Grammar, below: Entry, e: Entry) {
    e.stateno <= YY_MAX_SHIFT && Moves(g, below.stateno, Sym(g, e.tree), e.stateno)
  }

  // The entry has completed a rule that is still to be reduced.
  ghost predicate Pending(g: Grammar, below: Entry, e: Entry) {
    YY_MIN_REDUCE <= e.stateno <= YY_MAX_REDUCE &&
      Completes(g, below.stateno, Sym(g, e.tree), e.stateno - YY_MIN_REDUCE)
  }

  ghost predicate Accepting(g: Grammar, e: Entry) {
    e.stateno == YY_ACCEPT_ACTION && Stands(g, g.start, Sym(g, e.tree))
  }

  // Entry k, which has top above it or is it.
  ghost predicate EntryOk(t: Tables, g: Grammar, stack: seq<Entry>, k: nat)
    requires 0 < k < |stack|
  {
    && TreeOk(t, g, stack[k].tree)
    && (Linked(g, stack[k - 1], stack[k])
        || (k == |stack| - 1 && Pending(g, stack[k - 1], stack[k]))
        || (k == 1 && |stack| == 2 && Accepting(g, stack[1])))
  }

  ghost predicate StackOk(t: Tables, g: Grammar, stack: seq<Entry>) {
    && 1 <= |stack| <= YYSTACKDEPTH
    && stack[0] == BOTTOM
    && forall k {:trigger EntryOk(t, g, stack, k)} :: 0 < k < |stack| ==> EntryOk(t, g, stack, k)
  }

  // The tokens that the stack stands for.
  function Yield(stack: seq<Entry>): seq<(nat, string)>
    requires stack != []
  {
    ForestTokens(Trees(stack[1..]))
  }

  // ---- handles ---------------------------------------------------------------------------

  // The symbols on top of entry k spell the first dot symbols of the item's rule.
  ghost predicate Spelled(g: Grammar, stack: seq<Entry>, k: nat, it: Item)
    requires k < |stack|
  {
    && it.rule < |g.rhs| && it.dot <= |g.rhs[it.rule]| && it.dot <= k
    && (forall j {:trigger g.rhs[it.rule][j]} :: 0 <= j < it.dot ==>
        Fills(g, g.rhs[it.rule][j], Sym(g, stack[k - it.dot + 1 + j].tree)))
    && stack[k - it.dot].stateno < |g.items| && Item(it.rule, 0) in g.items[stack[k - it.dot].stateno]
  }

  lemma BelowIsState(t: Tables, g: Grammar, stack: seq<Entry>, k: nat)
    requires StackOk(t, g, stack) && 0 < k < |stack|
    ensures stack[k - 1].stateno <= YY_MAX_SHIFT
    ensures stack[k].stateno <= YY_MAX_SHIFT ==> Moves(g, stack[k - 1].stateno, Sym(g, stack[k].tree), stack[k].stateno)
  {
    assert EntryOk(t, g, stack, k);
    assert k - 1 > 0 ==> EntryOk(t, g, stack, k - 1);
  }

  // The dot can be taken back over the symbol of entry k.
  lemma DotBack(t: Tables, g: Grammar, stack: seq<Entry>, k: nat, it: Item)
    requires |g.items| == YY_MAX_SHIFT + 1 && forall i0 {:trigger i0 in g.items[0]} :: i0 in g.items[0] ==> i0.dot == 0
    requires StackOk(t, g, stack) && k < |stack| && stack[k].stateno <= YY_MAX_SHIFT &&
             it in g.items[stack[k].stateno] && it.dot > 0
    ensures k > 0 && stack[k - 1].stateno <= YY_MAX_SHIFT && Item(it.rule, it.dot - 1) in g.items[stack[k - 1].stateno]
    ensures it.rule < |g.rhs| && it.dot <= |g.rhs[it.rule]| &&
            Fills(g, g.rhs[it.rule][it.dot - 1], Sym(g, stack[k].tree))
  {
    if k > 0 {
      BelowIsState(t, g, stack, k);
    }
  }

  lemma {:induction false} Handle(t: Tables, g: Grammar, stack: seq<Entry>, k: nat, it: Item)
    requires |g.items| == YY_MAX_SHIFT + 1 && forall i0 {:trigger i0 in g.items[0]} :: i0 in g.items[0] ==> i0.dot == 0
    requires StackOk(t, g, stack) && k < |stack| && stack[k].stateno <= YY_MAX_SHIFT && it in g.items[stack[k].stateno]
    requires it.rule < |g.rhs|
    ensures Spelled(g, stack, k, it)
    decreases it.dot
  {
    if it.dot > 0 {
      DotBack(t, g, stack, k, it);
      Handle(t, g, stack, k - 1, Item(it.rule, it.dot - 1));
      SpelledOn(g, stack, k, it);
    }
  }

  lemma SpelledOn(g: Grammar, stack: seq<Entry>, k: nat, it: Item)
    requires 0 < k < |stack| && it.rule < |g.rhs| && 0 < it.dot <= |g.rhs[it.rule]|
    requires Spelled(g, stack, k - 1, Item(it.rule, it.dot - 1))
    requires Fills(g, g.rhs[it.rule][it.dot - 1], Sym(g, stack[k].tree))
    ensures Spelled(g, stack, k, it)
  {
  }
}
