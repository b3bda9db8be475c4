// The lookups of the LR driver in its compressed tables, the grammar, and what
// makes a set of tables fit it.  The tables themselves are parameters.
module ParserTables {
  const YYNOCODE: nat := 278
  const YYWILDCARD: nat := 91
  const YYSTACKDEPTH: nat := 100
  const YYNTOKEN: nat := 155
  const YY_MAX_SHIFT: nat := 527
  const YY_MIN_SHIFTREDUCE: nat := 764
  const YY_MAX_SHIFTREDUCE: nat := 1132
  const YY_ERROR_ACTION: nat := 1133
  const YY_ACCEPT_ACTION: nat := 1134
  const YY_NO_ACTION: nat := 1135
  const YY_MIN_REDUCE: nat := 1136
  const YY_MAX_REDUCE: nat := 1504

  datatype Tables = Tables(
    action: seq<nat>, lookahead: seq<nat>, shiftOfst: seq<nat>, reduceOfst: seq<int>, deflt: seq<nat>,
    fallback: seq<nat>, ruleLhs: seq<nat>, ruleNRhs: seq<int>)

  // Table sizes, and the assertion that a fallback has no fallback.
  predicate TablesOk(t: Tables) {
    && |t.shiftOfst| == |t.deflt| == YY_MAX_SHIFT + 1
    && |t.ruleLhs| == |t.ruleNRhs| == YY_MAX_REDUCE - YY_MIN_REDUCE + 1
    && |t.action| <= |t.lookahead|
    && (forall i :: |t.action| <= i < |t.lookahead| ==> t.lookahead[i] == YYNOCODE)
    && (forall a :: 0 <= a < |t.fallback| && t.fallback[a] != 0 ==>
        a > 0 && t.fallback[a] < YYNTOKEN && NoFallback(t, t.fallback[a]))
  }

  predicate NoFallback(t: Tables, a: nat) {
    a >= |t.fallback| || t.fallback[a] == 0
  }

  // An action, and the terminal in whose column it was found.
  datatype Found = Found(act: nat, sym: nat)

  // yy_find_shift_action()
  function FindShift(t: Tables, iLookAhead: nat, stateno: nat): Found
    requires TablesOk(t) && iLookAhead < YYNTOKEN
    decreases !NoFallback(t, iLookAhead)
  {
    if stateno > YY_MAX_SHIFT then Found(stateno, iLookAhead)
    else
      var i := t.shiftOfst[stateno] + iLookAhead;
      if i >= |t.lookahead| || t.lookahead[i] != iLookAhead then
        if !NoFallback(t, iLookAhead) then FindShift(t, t.fallback[iLookAhead], stateno)
        else
          var j := t.shiftOfst[stateno] + YYWILDCARD;
          if j < |t.lookahead| && t.lookahead[j] == YYWILDCARD && iLookAhead > 0 then Found(t.action[j], YYWILDCARD)
          else Found(t.deflt[stateno], iLookAhead)
      else Found(t.action[i], iLookAhead)
  }

  // ---- what the arrays say ---------------------------------------------------------

  // State s has an entry for symbol x: the slot at its offset carries x.
  predicate HasEntry(t: Tables, s: nat, x: nat) {
    && s < |t.shiftOfst| && t.shiftOfst[s] + x < |t.action| <= |t.lookahead|
    && t.lookahead[t.shiftOfst[s] + x] == x
  }

  // The action found for a token in state s, read off the arrays: the entry for the
  // token itself; if there is none, the one for its fallback; failing that, the one
  // for the wildcard, unless this is the end of the input; and the default action
  // only if none of them exists.
  predicate Decides(t: Tables, s: nat, token: nat, f: Found)
    requires s < |t.shiftOfst| && s < |t.deflt|
  {
    var stand := if NoFallback(t, token) then token else t.fallback[token];
    && (HasEntry(t, s, token) ==> f == Found(t.action[t.shiftOfst[s] + token], token))
    && (!HasEntry(t, s, token) && HasEntry(t, s, stand) ==> f == Found(t.action[t.shiftOfst[s] + stand], stand))
    && (!HasEntry(t, s, token) && !HasEntry(t, s, stand) && token > 0 && HasEntry(t, s, YYWILDCARD) ==>
          f == Found(t.action[t.shiftOfst[s] + YYWILDCARD], YYWILDCARD))
    && (!HasEntry(t, s, token) && !HasEntry(t, s, stand) && (token == 0 || !HasEntry(t, s, YYWILDCARD)) ==>
          f == Found(t.deflt[s], stand))
  }

  // That is what yy_find_shift_action() finds, and nothing else.
  lemma FoundDecides(t: Tables, token: nat, s: nat, f: Found)
    requires TablesOk(t) && token < YYNTOKEN && s <= YY_MAX_SHIFT
    ensures Decides(t, s, token, f) <==> f == FindShift(t, token, s)
  {
    if !NoFallback(t, token) {
      assert NoFallback(t, t.fallback[token]);
    }
  }

  // The assertions of yy_find_reduce_action().
  predicate GotoDefined(t: Tables, stateno: nat, iLookAhead: nat) {
    && stateno < |t.reduceOfst|
    && 0 <= t.reduceOfst[stateno] + iLookAhead < |t.action| <= |t.lookahead|
    && t.lookahead[t.reduceOfst[stateno] + iLookAhead] == iLookAhead
  }

  // yy_find_reduce_action()
  function Goto(t: Tables, stateno: nat, iLookAhead: nat): nat
    requires GotoDefined(t, stateno, iLookAhead)
  {
    t.action[t.reduceOfst[stateno] + iLookAhead]
  }

  // The terminal for which a token may be taken.
  predicate TakenFor(t: Tables, token: nat, sym: nat) {
    || sym == token
    || (token < |t.fallback| && t.fallback[token] != 0 && sym == t.fallback[token])
    || (sym == YYWILDCARD && token > 0)
  }

  // The column of the action stands for the token: itself, its fallback or the
  // wildcard, which is never taken for the end of the input.
  lemma FoundFor(t: Tables, token: nat, stateno: nat)
    requires TablesOk(t) && token < YYNTOKEN
    ensures TakenFor(t, token, FindShift(t, token, stateno).sym)
  {
  }

  // ---- the grammar ----------------------------------------------------------------

  // Rule number dot symbols into its right-hand side.
  datatype Item = Item(rule: nat, dot: nat)

  // Left- and right-hand sides, where a place of a right-hand side may be filled
  // by one of several symbols; the unit rules that the generator has optimised
  // out; the start symbol; and the items of every state.
  datatype Grammar = Grammar(
    lhs: seq<nat>, rhs: seq<seq<set<nat>>>, units: set<nat>, start: nat, items: seq<set<Item>>)

  // Rule r leads from a to b alone.
  predicate Unit(g: Grammar, r: nat, a: nat, b: nat) {
    r < |g.lhs| && r < |g.rhs| && g.lhs[r] == a && |g.rhs[r]| == 1 && b in g.rhs[r][0]
  }

  // Symbol x stands where a is expected: n unit rules that were optimised out
  // lead from a to x.
  ghost predicate StandsIn(g: Grammar, a: nat, x: nat, n: nat)
    decreases n
  {
    if n == 0 then a == x
    else exists r, b {:trigger Unit(g, r, a, b)} :: r in g.units && Unit(g, r, a, b) && StandsIn(g, b, x, n - 1)
  }

  ghost predicate Stands(g: Grammar, a: nat, x: nat) {
    exists n: nat :: StandsIn(g, a, x, n)
  }

  // Symbol x stands at a place of a right-hand side that has these alternatives.
  ghost predicate Fills(g: Grammar, place: set<nat>, x: nat) {
    exists a :: a in place && Stands(g, a, x)
  }

  // Going from state s to state s' on symbol x takes the dot of every item over
  // a place where x stands.
  ghost predicate Moves(g: Grammar, s: nat, x: nat, s': nat) {
    && s < |g.items| && 0 < s' < |g.items|
    && forall it {:trigger it in g.items[s']} :: it in g.items[s'] && it.dot > 0 ==>
         && Item(it.rule, it.dot - 1) in g.items[s]
         && it.rule < |g.rhs| && it.dot <= |g.rhs[it.rule]| && Fills(g, g.rhs[it.rule][it.dot - 1], x)
  }

  // Symbol x completes rule r in state s.
  ghost predicate Completes(g: Grammar, s: nat, x: nat, r: nat) {
    && s < |g.items| && r < |g.rhs| && |g.rhs[r]| > 0
    && Item(r, |g.rhs[r]| - 1) in g.items[s] && Fills(g, g.rhs[r][|g.rhs[r]| - 1], x)
  }

  // The action is justified by the items of state s.
  ghost predicate ActionFits(g: Grammar, s: nat, f: Found)
    requires |g.items| == YY_MAX_SHIFT + 1 && s <= YY_MAX_SHIFT
  {
    if f.act <= YY_MAX_SHIFT then Moves(g, s, f.sym, f.act)
    else if f.act <= YY_MAX_SHIFTREDUCE then
      f.act >= YY_MIN_SHIFTREDUCE && Completes(g, s, f.sym, f.act - YY_MIN_SHIFTREDUCE)
    else f.act == YY_ERROR_ACTION || (YY_MIN_REDUCE <= f.act <= YY_MAX_REDUCE && Complete(g, s, f.act - YY_MIN_REDUCE))
  }

  ghost predicate ShiftsFit(t: Tables, g: Grammar, s: nat, a: nat)
    requires TablesOk(t) && a < YYNTOKEN && |g.items| == YY_MAX_SHIFT + 1 && s <= YY_MAX_SHIFT
  {
    forall f {:trigger Decides(t, s, a, f)} :: Decides(t, s, a, f) ==> ActionFits(g, s, f)
  }

  // Rule r has been recognised in state s.
  ghost predicate Complete(g: Grammar, s: nat, r: nat) {
    s < |g.items| && r < |g.rhs| && Item(r, |g.rhs[r]|) in g.items[s]
  }

  ghost predicate GotosFit(t: Tables, g: Grammar, s: nat, a: nat) {
    && GotoDefined(t, s, a)
    && var act := Goto(t, s, a);
       if act <= YY_MAX_SHIFT then Moves(g, s, a, act)
       else if act == YY_ACCEPT_ACTION then s == 0 && Stands(g, g.start, a)
       else YY_MIN_REDUCE <= act <= YY_MAX_REDUCE && Completes(g, s, a, act - YY_MIN_REDUCE)
  }

  // The tables implement the grammar, as a generator of LR tables ensures: every
  // action agrees with the items of the states involved.
  ghost predicate Fits(t: Tables, g: Grammar) {
    && TablesOk(t)
    && |g.rhs| == |t.ruleLhs| && g.lhs == t.ruleLhs
    && (forall r {:trigger g.rhs[r]} :: 0 <= r < |g.rhs| ==> t.ruleNRhs[r] == -|g.rhs[r]|)
    && |g.items| == YY_MAX_SHIFT + 1
    && (forall it {:trigger it in g.items[0]} :: it in g.items[0] ==> it.dot == 0)
    && (forall s, a: nat {:trigger ShiftsFit(t, g, s, a)} :: 0 <= s <= YY_MAX_SHIFT && a < YYNTOKEN ==>
        ShiftsFit(t, g, s, a))
    && (forall s, r: nat {:trigger Item(r, 0) in g.items[s]} ::
          0 <= s <= YY_MAX_SHIFT && r < |g.lhs| && Item(r, 0) in g.items[s] ==> GotosFit(t, g, s, g.lhs[r]))
  }
}
