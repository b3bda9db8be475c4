// Tables for a small grammar, in the compressed form.  The grammar has a place
// with two alternatives, an empty rule, a unit rule that is optimised out, a
// token with a fallback - and in one state with an entry of its own - and a
// wildcard; the tables fit it, and the parser accepts sentences that use all of
// these.
module ParserWitness {
  import opened ParserTables
  import opened ParserForest
  import opened ParserMachine
  import opened ParserSafety

  const SEMI: nat := 1
  const ID: nat := 2
  const EQ: nat := 3
  const NE: nat := 4
  const NOT: nat := 5
  const KEY: nat := 6      // falls back to ID
  const BEGIN: nat := 7

  const INPUT: nat := 155
  const CMD: nat := 156
  const EXPR: nat := 157
  const TRANS: nat := 158

  const NSMALL: nat := 9
  const NRULE: nat := YY_MAX_REDUCE - YY_MIN_REDUCE + 1

  //   0: input ::= cmd SEMI        5: trans ::=
  //   1: cmd ::= expr              6: trans ::= ID
  //   2: expr ::= ID EQ|NE ID      7: trans ::= KEY
  //   3: expr ::= NOT ANY          8: expr ::= NOT ID
  //   4: cmd ::= BEGIN trans
  function SmallRhs(r: nat): seq<set<nat>> {
    match r
    case 0 => [{CMD}, {SEMI}]
    case 1 => [{EXPR}]
    case 2 => [{ID}, {EQ, NE}, {ID}]
    case 3 => [{NOT}, {YYWILDCARD}]
    case 4 => [{BEGIN}, {TRANS}]
    case 6 => [{ID}]
    case 7 => [{KEY}]
    case 8 => [{NOT}, {ID}]
    case _ => []
  }

  function SmallLhs(r: nat): nat {
    match r
    case 0 => INPUT
    case 1 => CMD
    case 2 => EXPR
    case 3 => EXPR
    case 4 => CMD
    case 8 => EXPR
    case _ => TRANS
  }

  function SmallItems(s: nat): set<Item> {
    match s
    case 0 => {Item(0, 0), Item(1, 0), Item(2, 0), Item(3, 0), Item(4, 0), Item(8, 0)}
    case 1 => {Item(0, 1)}
    case 2 => {Item(2, 1)}
    case 3 => {Item(3, 1), Item(8, 1)}
    case 4 => {Item(4, 1), Item(5, 0), Item(6, 0), Item(7, 0)}
    case 5 => {Item(2, 2)}
    case _ => {}
  }

  function SmallGrammar(): Grammar {
    Grammar(
      seq(NRULE, r requires 0 <= r => SmallLhs(r)),
      seq(NRULE, r requires 0 <= r => SmallRhs(r)),
      {1},
      INPUT,
      seq(YY_MAX_SHIFT + 1, s requires 0 <= s => SmallItems(s)))
  }

  // The action of a state on a symbol, if there is one.
  function Cell(s: nat, x: nat): nat {
    match s
    case 0 =>
      if x == ID then 2
      else if x == NOT then 3
      else if x == BEGIN then 4
      else if x == CMD || x == EXPR then 1
      else if x == INPUT then YY_ACCEPT_ACTION
      else YY_NO_ACTION
    case 1 => if x == SEMI then YY_MIN_SHIFTREDUCE else YY_NO_ACTION
    case 2 => if x == EQ || x == NE then 5 else YY_NO_ACTION
    case 3 =>
      if x == YYWILDCARD then YY_MIN_SHIFTREDUCE + 3
      else if x == ID then YY_MIN_SHIFTREDUCE + 8
      else YY_NO_ACTION
    case 4 =>
      if x == ID then YY_MIN_SHIFTREDUCE + 6
      else if x == KEY then YY_MIN_SHIFTREDUCE + 7
      else if x == TRANS then YY_MIN_REDUCE + 4
      else YY_NO_ACTION
    case 5 => if x == ID then YY_MIN_SHIFTREDUCE + 2 else YY_NO_ACTION
    case _ => YY_NO_ACTION
  }

  const WIDTH: nat := 200
  const SIZE: nat := 6 * WIDTH

  function SmallTables(): Tables {
    Tables(
      seq(SIZE, i requires 0 <= i => Cell(i / WIDTH, i % WIDTH)),
      seq(SIZE, i requires 0 <= i => if Cell(i / WIDTH, i % WIDTH) == YY_NO_ACTION then YYNOCODE else i % WIDTH),
      seq(YY_MAX_SHIFT + 1, s => if s < 6 then s * WIDTH else SIZE),
      seq(YY_MAX_SHIFT + 1, s => s * WIDTH),
      seq(YY_MAX_SHIFT + 1, s => if s == 4 then YY_MIN_REDUCE + 5 else YY_ERROR_ACTION),
      [0, 0, 0, 0, 0, 0, ID],
      seq(NRULE, r requires 0 <= r => SmallLhs(r)),
      seq(NRULE, r requires 0 <= r => -|SmallRhs(r)|))
  }

  // The entry of the tables for a symbol in one of the six states.
  lemma CellIs(s: nat, x: nat)
    requires s < 6 && x < WIDTH
    ensures |SmallTables().action| == |SmallTables().lookahead| == SIZE && s * WIDTH + x < SIZE
    ensures SmallTables().action[s * WIDTH + x] == Cell(s, x)
    ensures SmallTables().lookahead[s * WIDTH + x] == if Cell(s, x) == YY_NO_ACTION then YYNOCODE else x
  {
    assert (s * WIDTH + x) / WIDTH == s && (s * WIDTH + x) % WIDTH == x;
  }

  // What yy_find_shift_action() finds there.
  function SmallShift(s: nat, a: nat): Found {
    if s >= 6 then Found(YY_ERROR_ACTION, if a == KEY then ID else a)
    else if Cell(s, a) != YY_NO_ACTION then Found(Cell(s, a), a)
    else if a == KEY && Cell(s, ID) != YY_NO_ACTION then Found(Cell(s, ID), ID)
    else if s == 3 && a > 0 then Found(YY_MIN_SHIFTREDUCE + 3, YYWILDCARD)
    else Found(if s == 4 then YY_MIN_REDUCE + 5 else YY_ERROR_ACTION, if a == KEY then ID else a)
  }

  lemma SmallTablesOk()
    ensures TablesOk(SmallTables())
  {
  }

  lemma ShiftOnSymbol(s: nat, a: nat)
    requires s <= YY_MAX_SHIFT && a < YYNTOKEN && a != KEY
    ensures TablesOk(SmallTables()) && FindShift(SmallTables(), a, s) == SmallShift(s, a)
  {
    SmallTablesOk();
    if s < 6 {
      CellIs(s, a);
      CellIs(s, YYWILDCARD);
    }
  }

  lemma ShiftIs(s: nat, a: nat)
    requires s <= YY_MAX_SHIFT && a < YYNTOKEN
    ensures TablesOk(SmallTables()) && FindShift(SmallTables(), a, s) == SmallShift(s, a)
  {
    if a == KEY {
      ShiftOnSymbol(s, ID);
      if s < 6 {
        CellIs(s, KEY);
      }
    } else {
      ShiftOnSymbol(s, a);
    }
  }

  // ---- the tables fit the grammar -----------------------------------------------------

  lemma StandsItself(g: Grammar, x: nat)
    ensures Stands(g, x, x)
  {
    assert StandsIn(g, x, x, 0);
  }

  // An expression stands where a command is expected.
  lemma ExprStands()
    ensures Stands(SmallGrammar(), CMD, EXPR)
  {
    var g := SmallGrammar();
    assert g.lhs[1] == SmallLhs(1) && g.rhs[1] == SmallRhs(1);
    assert StandsIn(g, EXPR, EXPR, 0);
    assert Unit(g, 1, CMD, EXPR) && 1 in g.units;
    assert StandsIn(g, CMD, EXPR, 1);
  }

  // Going from s to s' on x, where s' has the one item with the dot behind place k
  // of rule r.
  lemma SmallMove(s: nat, x: nat, s': nat, r: nat, k: nat, a: nat)
    requires s < 6 && 0 < s' < 6 && r < NSMALL && k < |SmallRhs(r)| && a in SmallRhs(r)[k]
    requires Item(r, k) in SmallItems(s) && forall it <- SmallItems(s') :: it.dot > 0 ==> it == Item(r, k + 1)
    requires Stands(SmallGrammar(), a, x)
    ensures Moves(SmallGrammar(), s, x, s')
  {
    var g := SmallGrammar();
    assert g.items[s] == SmallItems(s) && g.items[s'] == SmallItems(s') && g.rhs[r] == SmallRhs(r);
    assert Fills(g, g.rhs[r][k], x);
  }

  // Symbol x fills the last place of rule r in state s.
  lemma SmallCompletes(s: nat, x: nat, r: nat, a: nat)
    requires s < 6 && r < NSMALL && |SmallRhs(r)| > 0 && a in SmallRhs(r)[|SmallRhs(r)| - 1]
    requires Item(r, |SmallRhs(r)| - 1) in SmallItems(s) && Stands(SmallGrammar(), a, x)
    ensures Completes(SmallGrammar(), s, x, r)
  {
    var g := SmallGrammar();
    assert g.items[s] == SmallItems(s) && g.rhs[r] == SmallRhs(r);
    assert Fills(g, g.rhs[r][|g.rhs[r]| - 1], x);
  }

  // Two rules begin with NOT.
  lemma NotMoves()
    ensures Moves(SmallGrammar(), 0, NOT, 3)
  {
    var g := SmallGrammar();
    assert g.items[0] == SmallItems(0) && g.items[3] == SmallItems(3);
    assert g.rhs[3] == SmallRhs(3) && g.rhs[8] == SmallRhs(8);
    StandsItself(g, NOT);
    assert Fills(g, g.rhs[3][0], NOT) && Fills(g, g.rhs[8][0], NOT);
  }

  lemma FirstShiftsFit(a: nat)
    requires a < YYNTOKEN
    ensures ActionFits(SmallGrammar(), 0, SmallShift(0, a))
  {
    var f := SmallShift(0, a);
    StandsItself(SmallGrammar(), f.sym);
    if f.act == 2 {
      SmallMove(0, ID, 2, 2, 0, ID);
    } else if f.act == 3 {
      NotMoves();
    } else if f.act == 4 {
      SmallMove(0, BEGIN, 4, 4, 0, BEGIN);
    }
  }

  lemma LastShiftsFit(s: nat, a: nat)
    requires s in {1, 3, 5} && a < YYNTOKEN
    ensures ActionFits(SmallGrammar(), s, SmallShift(s, a))
  {
    var f := SmallShift(s, a);
    StandsItself(SmallGrammar(), f.sym);
    if f.act != YY_ERROR_ACTION {
      SmallCompletes(s, f.sym, f.act - YY_MIN_SHIFTREDUCE, f.sym);
    }
  }

  lemma TransShiftsFit(a: nat)
    requires a < YYNTOKEN
    ensures ActionFits(SmallGrammar(), 4, SmallShift(4, a))
  {
    var f := SmallShift(4, a);
    StandsItself(SmallGrammar(), f.sym);
    SmallEmptyRule();
    if f.act < YY_MIN_REDUCE {
      SmallCompletes(4, f.sym, f.act - YY_MIN_SHIFTREDUCE, f.sym);
    }
  }

  lemma SmallActionFits(s: nat, a: nat)
    requires s <= YY_MAX_SHIFT && a < YYNTOKEN
    ensures ActionFits(SmallGrammar(), s, SmallShift(s, a))
  {
    if s == 0 {
      FirstShiftsFit(a);
    } else if s in {1, 3, 5} {
      LastShiftsFit(s, a);
    } else if s == 4 {
      TransShiftsFit(a);
    } else {
      var f := SmallShift(s, a);
      StandsItself(SmallGrammar(), f.sym);
      if s == 2 && f.act == 5 {
        SmallMove(2, f.sym, 5, 2, 1, f.sym);
      }
    }
  }

  lemma SmallShiftsFit(s: nat, a: nat)
    requires s <= YY_MAX_SHIFT && a < YYNTOKEN
    ensures TablesOk(SmallTables()) && ShiftsFit(SmallTables(), SmallGrammar(), s, a)
  {
    hide SmallTables, SmallShift, ActionFits, Decides;
    ShiftIs(s, a);
    SmallActionFits(s, a);
    forall f | Decides(SmallTables(), s, a, f)
      ensures ActionFits(SmallGrammar(), s, f)
    {
      FoundDecides(SmallTables(), a, s, f);
    }
  }

  lemma SmallEmptyRule()
    ensures Complete(SmallGrammar(), 4, 5)
  {
    assert SmallGrammar().items[4] == SmallItems(4) && SmallGrammar().rhs[5] == SmallRhs(5);
  }

  lemma FirstGotosFit(x: nat)
    requires x in {INPUT, CMD, EXPR}
    ensures GotosFit(SmallTables(), SmallGrammar(), 0, x)
  {
    GotoCell(0, x);
    StandsItself(SmallGrammar(), x);
    if x == CMD {
      SmallMove(0, CMD, 1, 0, 0, CMD);
    } else if x == EXPR {
      ExprStands();
      SmallMove(0, EXPR, 1, 0, 0, CMD);
    }
  }

  lemma SmallGotosFit(s: nat, r: nat)
    requires s < 6 && r < NRULE && Item(r, 0) in SmallItems(s)
    ensures GotosFit(SmallTables(), SmallGrammar(), s, SmallLhs(r))
  {
    if s == 0 {
      FirstGotosFit(SmallLhs(r));
    } else {
      GotoCell(4, TRANS);
      StandsItself(SmallGrammar(), TRANS);
      SmallCompletes(4, TRANS, 4, TRANS);
    }
  }

  lemma GotoCell(s: nat, x: nat)
    requires s < 6 && YYNTOKEN <= x < WIDTH && Cell(s, x) != YY_NO_ACTION
    ensures GotoDefined(SmallTables(), s, x) && Goto(SmallTables(), s, x) == Cell(s, x)
  {
    CellIs(s, x);
    assert SmallTables().reduceOfst[s] == s * WIDTH;
  }

  lemma SmallFits()
    ensures Fits(SmallTables(), SmallGrammar())
  {
    var t, g := SmallTables(), SmallGrammar();
    SmallTablesOk();
    forall s, a: nat | 0 <= s <= YY_MAX_SHIFT && a < YYNTOKEN
      ensures ShiftsFit(t, g, s, a)
    {
      SmallShiftsFit(s, a);
    }
    forall s, r: nat | 0 <= s <= YY_MAX_SHIFT && r < |g.lhs| && Item(r, 0) in g.items[s]
      ensures GotosFit(t, g, s, g.lhs[r])
    {
      assert s < 6;
      SmallGotosFit(s, r);
    }
  }

  // ---- the parser at work --------------------------------------------------------------

  // What matters of the tables for the driver.
  ghost predicate Behaves(t: Tables) {
    && TablesOk(t)
    && (forall s, a {:trigger FindShift(t, a, s)} :: 0 <= s < 6 && 0 <= a < YYNTOKEN ==>
        FindShift(t, a, s) == SmallShift(s, a))
    && (forall s, x {:trigger GotoDefined(t, s, x)} ::
          0 <= s < 6 && YYNTOKEN <= x < WIDTH && Cell(s, x) != YY_NO_ACTION ==>
              GotoDefined(t, s, x) && Goto(t, s, x) == Cell(s, x))
    && (forall r {:trigger t.ruleNRhs[r]} :: 0 <= r < NSMALL ==>
        t.ruleNRhs[r] == -|SmallRhs(r)| && t.ruleLhs[r] == SmallLhs(r))
  }

  lemma SmallTablesBehave()
    ensures Behaves(SmallTables())
  {
    var t := SmallTables();
    SmallTablesOk();
    forall s, a | 0 <= s < 6 && 0 <= a < YYNTOKEN
      ensures FindShift(t, a, s) == SmallShift(s, a)
    {
      ShiftIs(s, a);
    }
    forall s, x | 0 <= s < 6 && YYNTOKEN <= x < WIDTH && Cell(s, x) != YY_NO_ACTION
      ensures GotoDefined(t, s, x) && Goto(t, s, x) == Cell(s, x)
    {
      GotoCell(s, x);
    }
  }

  function Pushed(f: Found, a: nat, text: string): Entry {
    Entry(if f.act > YY_MAX_SHIFT then f.act + (YY_MIN_REDUCE - YY_MIN_SHIFTREDUCE) else f.act, a, Leaf(a, text, f.sym))
  }

  lemma {:induction false} ShiftTurn(t: Tables, stack: seq<Entry>, s: nat, a: nat, text: string, n: nat)
    requires Behaves(t)
    requires 0 < |stack| < YYSTACKDEPTH && stack[|stack| - 1].stateno == s < 6 && a < YYNTOKEN && n > 0
    requires SmallShift(s, a).act <= YY_MAX_SHIFTREDUCE
    ensures Drive(t, stack, a, text, n) == (stack + [Pushed(SmallShift(s, a), a, text)], Shifted)
  {
    assert FindShift(t, a, s) == SmallShift(s, a);
  }

  // The rule r is reduced, because it is pending or by the action of the state.
  lemma {:induction false} ReduceTurn(t: Tables, stack: seq<Entry>, below: seq<Entry>, kids: seq<Entry>, s: nat, r: nat,
                                      a: nat, text: string, n: nat)
    requires Behaves(t)
    requires |stack| < YYSTACKDEPTH && stack == below + kids && below != [] && a < YYNTOKEN && n > 0
    requires r < NSMALL && |kids| == |SmallRhs(r)| && below[|below| - 1].stateno == s < 6
    requires stack[|stack| - 1].stateno == YY_MIN_REDUCE + r
             || (stack[|stack| - 1].stateno < 6 && SmallShift(stack[|stack| - 1].stateno, a).act == YY_MIN_REDUCE + r)
    requires Cell(s, SmallLhs(r)) in {1, YY_ACCEPT_ACTION, YY_MIN_REDUCE + 4}
    ensures Drive(t, stack, a, text, n)
         == Drive(t, below + [Entry(Cell(s, SmallLhs(r)), SmallLhs(r), Node(r, Trees(kids)))], a, text, n - 1)
  {
    assert GotoDefined(t, s, SmallLhs(r));
    assert t.ruleNRhs[r] == -|SmallRhs(r)| && t.ruleLhs[r] == SmallLhs(r);
    assert stack[..|below|] == below && stack[|below|..] == kids;
    assert Turn(t, stack, a, text) == Reduce(t, stack, r);
  }

  lemma {:induction false} FeedNext(t: Tables, tokens: seq<(nat, string)>, stack: seq<Entry>, a: nat, text: string,
          n: nat)
    requires Behaves(t) && a < YYNTOKEN && forall k {:trigger tokens[k]} :: 0 <= k < |tokens| ==> tokens[k].0 < YYNTOKEN
    requires stack != [] && Feed(t, tokens, n) == (stack, Shifted)
    ensures Feed(t, tokens + [(a, text)], n) == Drive(t, stack, a, text, n)
  {
    var all := tokens + [(a, text)];
    assert all[..|all| - 1] == tokens && all[|all| - 1] == (a, text);
  }

  lemma TreesOfTwo(a: Entry, b: Entry)
    ensures Trees([a, b]) == [a.tree, b.tree] && Trees([a]) == [a.tree]
  {
    TreesAre([a, b]);
    TreesAre([a]);
  }

  lemma TreesOfThree(a: Entry, b: Entry, c: Entry)
    ensures Trees([a, b, c]) == [a.tree, b.tree, c.tree]
  {
    TreesAre([a, b, c]);
  }

  // The parser accepts the tokens, and this is the tree that it has built.
  predicate AcceptsAs(t: Tables, tokens: seq<(nat, string)>, tree: Tree)
    requires TablesOk(t) && forall k {:trigger tokens[k]} :: 0 <= k < |tokens| ==> tokens[k].0 < YYNTOKEN
  {
    Feed(t, tokens, 3).1 == Shifted && Drive(t, Feed(t, tokens, 3).0, 0, "", 2).1 == Accepted(tree)
  }

  // A command and a semicolon, at the end of the input.
  lemma InputAccepted(t: Tables, cmd: Entry, semi: Entry)
    requires Behaves(t)
    requires cmd.stateno == 1 && semi.stateno == YY_MIN_REDUCE
    ensures Drive(t, [BOTTOM] + [cmd, semi], 0, "", 2).1 == Accepted(Node(0, [cmd.tree, semi.tree]))
  {
    TreesOfTwo(cmd, semi);
    ReduceTurn(t, [BOTTOM] + [cmd, semi], [BOTTOM], [cmd, semi], 0, 0, 0, "", 2);
    var e := Entry(YY_ACCEPT_ACTION, INPUT, Node(0, Trees([cmd, semi])));
    assert Turn(t, [BOTTOM] + [e], 0, "").1 == Accepted(e.tree);
  }

  // The tokens leave a command after one more turn, when a semicolon follows.
  lemma {:induction false} CommandAccepted(t: Tables, tokens: seq<(nat, string)>, stack: seq<Entry>, cmd: Entry, n: nat)
    requires Behaves(t) && forall k {:trigger tokens[k]} :: 0 <= k < |tokens| ==> tokens[k].0 < YYNTOKEN
    requires stack != [] && Feed(t, tokens, 3) == (stack, Shifted) && cmd.stateno == 1 && n > 0
    requires Drive(t, stack, SEMI, ";", 3) == Drive(t, [BOTTOM, cmd], SEMI, ";", n)
    ensures AcceptsAs(t, tokens + [(SEMI, ";")], Node(0, [cmd.tree, Leaf(SEMI, ";", SEMI)]))
  {
    FeedNext(t, tokens, stack, SEMI, ";", 3);
    ShiftTurn(t, [BOTTOM, cmd], 1, SEMI, ";", n);
    var semi := Pushed(SmallShift(1, SEMI), SEMI, ";");
    InputAccepted(t, cmd, semi);
    assert [BOTTOM, cmd] + [semi] == [BOTTOM] + [cmd, semi];
  }

  // One token shifted on top of a stack.
  lemma {:induction false} FeedShift(t: Tables, tokens: seq<(nat, string)>, stack: seq<Entry>, s: nat, a: nat,
          text: string)
    requires Behaves(t) && a < YYNTOKEN && forall k {:trigger tokens[k]} :: 0 <= k < |tokens| ==> tokens[k].0 < YYNTOKEN
    requires 0 < |stack| < YYSTACKDEPTH && stack[|stack| - 1].stateno == s < 6 &&
             SmallShift(s, a).act <= YY_MAX_SHIFTREDUCE
    requires Feed(t, tokens, 3) == (stack, Shifted)
    ensures Feed(t, tokens + [(a, text)], 3) == (stack + [Pushed(SmallShift(s, a), a, text)], Shifted)
  {
    FeedNext(t, tokens, stack, a, text, 3);
    ShiftTurn(t, stack, s, a, text, 3);
  }

  // A rule whose symbols are all there is above the bottom leaves a command.
  lemma {:induction false} CommandReduced(t: Tables, stack: seq<Entry>, kids: seq<Entry>, r: nat, n: nat)
    returns (cmd: Entry)
    requires Behaves(t)
    requires stack == [BOTTOM] + kids && |kids| == |SmallRhs(r)| && r in {2, 3, 4, 8} && n > 0
    requires kids[|kids| - 1].stateno == YY_MIN_REDUCE + r
    ensures cmd.stateno == 1 && cmd.tree == Node(r, Trees(kids))
    ensures Drive(t, stack, SEMI, ";", n) == Drive(t, [BOTTOM, cmd], SEMI, ";", n - 1)
  {
    cmd := Entry(1, SmallLhs(r), Node(r, Trees(kids)));
    ReduceTurn(t, stack, [BOTTOM], kids, 0, r, SEMI, ";", n);
    assert [BOTTOM] + [cmd] == [BOTTOM, cmd];
  }

  // The tree of a command, with its semicolon.
  function Command(tree: Tree): Tree {
    Node(0, [tree, Leaf(SEMI, ";", SEMI)])
  }

  // Two keywords taken for identifiers, the second alternative of a place, and the
  // unit rule that is never reduced.
  lemma ComparisonAccepted(t: Tables, x: string, y: string)
    requires Behaves(t)
    ensures AcceptsAs(t, [(KEY, x), (NE, "<>"), (KEY, y), (SEMI, ";")],
                      Command(Node(2, [Leaf(KEY, x, ID), Leaf(NE, "<>", NE), Leaf(KEY, y, ID)])))
  {
    var a, b, c := Pushed(SmallShift(0, KEY), KEY, x), Pushed(SmallShift(2, NE), NE, "<>"),
      Pushed(SmallShift(5, KEY), KEY, y);
    FeedShift(t, [], [BOTTOM], 0, KEY, x);
    assert [] + [(KEY, x)] == [(KEY, x)] && [BOTTOM] + [a] == [BOTTOM, a];
    FeedShift(t, [(KEY, x)], [BOTTOM, a], 2, NE, "<>");
    assert [(KEY, x)] + [(NE, "<>")] == [(KEY, x), (NE, "<>")] && [BOTTOM, a] + [b] == [BOTTOM, a, b];
    ComparisonEnds(t, x, y, a, b, c);
    TreesOfThree(a, b, c);
  }

  lemma {:induction false} ComparisonEnds(t: Tables, x: string, y: string, a: Entry, b: Entry, c: Entry)
    requires Behaves(t) && b.stateno == 5 && c == Pushed(SmallShift(5, KEY), KEY, y)
    requires Feed(t, [(KEY, x), (NE, "<>")], 3) == ([BOTTOM, a, b], Shifted)
    ensures AcceptsAs(t, [(KEY, x), (NE, "<>"), (KEY, y), (SEMI, ";")], Command(Node(2, Trees([a, b, c]))))
  {
    var ts := [(KEY, x), (NE, "<>"), (KEY, y)];
    FeedShift(t, [(KEY, x), (NE, "<>")], [BOTTOM, a, b], 5, KEY, y);
    assert [(KEY, x), (NE, "<>")] + [(KEY, y)] == ts;
    var stack := [BOTTOM] + [a, b, c];
    assert [BOTTOM, a, b] + [c] == stack;
    var e := CommandReduced(t, stack, [a, b, c], 2, 3);
    CommandAccepted(t, ts, stack, e, 2);
    assert ts + [(SEMI, ";")] == [(KEY, x), (NE, "<>"), (KEY, y), (SEMI, ";")];
  }

  // The tree of NOT and a token: in its state there is an entry for identifiers,
  // which a keyword takes, too; every other token but the end of the input is taken
  // for the wildcard.
  function Negation(token: nat, x: string): Tree {
    if token == ID || token == KEY then Node(8, [Leaf(NOT, "NOT", NOT), Leaf(token, x, ID)])
    else Node(3, [Leaf(NOT, "NOT", NOT), Leaf(token, x, YYWILDCARD)])
  }

  lemma {:induction false} WildcardAccepted(t: Tables, token: nat, x: string)
    requires Behaves(t)
    requires 0 < token < YYNTOKEN
    ensures AcceptsAs(t, [(NOT, "NOT"), (token, x), (SEMI, ";")], Command(Negation(token, x)))
  {
    var a, b := Pushed(SmallShift(0, NOT), NOT, "NOT"), Pushed(SmallShift(3, token), token, x);
    FeedShift(t, [], [BOTTOM], 0, NOT, "NOT");
    assert [] + [(NOT, "NOT")] == [(NOT, "NOT")] && [BOTTOM] + [a] == [BOTTOM, a];
    TwoTokens(t, NOT, "NOT", token, x, a, b, if token == ID || token == KEY then 8 else 3);
    TreesOfTwo(a, b);
  }

  // A first token, and a second one that completes rule r.
  lemma {:induction false} TwoTokens(t: Tables, first: nat, text: string, token: nat, x: string, a: Entry, b: Entry,
          r: nat)
    requires Behaves(t) && first < YYNTOKEN && token < YYNTOKEN && a.stateno == 3 && r in {3, 8}
    requires SmallShift(3, token).act <= YY_MAX_SHIFTREDUCE && b.stateno == YY_MIN_REDUCE + r
    requires Feed(t, [(first, text)], 3) == ([BOTTOM, a], Shifted) && b == Pushed(SmallShift(3, token), token, x)
    ensures AcceptsAs(t, [(first, text), (token, x), (SEMI, ";")], Command(Node(r, Trees([a, b]))))
  {
    var ts := [(first, text), (token, x)];
    FeedShift(t, [(first, text)], [BOTTOM, a], 3, token, x);
    var stack := [BOTTOM] + [a, b];
    assert [(first, text)] + [(token, x)] == ts && [BOTTOM, a] + [b] == stack;
    var e := CommandReduced(t, stack, [a, b], r, 3);
    CommandAccepted(t, ts, stack, e, 2);
    assert ts + [(SEMI, ";")] == [(first, text), (token, x), (SEMI, ";")];
  }

  lemma BeginShifted(t: Tables, a: Entry)
    requires Behaves(t) && a == Pushed(SmallShift(0, BEGIN), BEGIN, "BEGIN")
    ensures Feed(t, [(BEGIN, "BEGIN")], 3) == ([BOTTOM, a], Shifted)
    ensures a.stateno == 4 && a.tree == Leaf(BEGIN, "BEGIN", BEGIN)
  {
    FeedShift(t, [], [BOTTOM], 0, BEGIN, "BEGIN");
    assert [] + [(BEGIN, "BEGIN")] == [(BEGIN, "BEGIN")] && [BOTTOM] + [a] == [BOTTOM, a];
  }

  // Behind BEGIN a rule for the transaction type, whose entries are kids, is reduced
  // and then the command.
  lemma TransReduced(t: Tables, a: Entry, kids: seq<Entry>, r: nat) returns (c: Entry)
    requires Behaves(t) && a.stateno == 4 && r in {5, 7} && |kids| == |SmallRhs(r)|
    requires kids != [] ==> kids[|kids| - 1].stateno == YY_MIN_REDUCE + r
    ensures c.stateno == 1 && c.tree == Node(4, [a.tree, Node(r, Trees(kids))])
    ensures Drive(t, [BOTTOM, a] + kids, SEMI, ";", 3) == Drive(t, [BOTTOM, c], SEMI, ";", 1)
  {
    var e := Entry(YY_MIN_REDUCE + 4, TRANS, Node(r, Trees(kids)));
    ReduceTurn(t, [BOTTOM, a] + kids, [BOTTOM, a], kids, 4, r, SEMI, ";", 3);
    assert [BOTTOM] + [a, e] == [BOTTOM, a] + [e];
    c := CommandReduced(t, [BOTTOM] + [a, e], [a, e], 4, 2);
    TreesOfTwo(a, e);
  }

  // An empty rule, reduced by the default action of its state.
  lemma EmptyRuleAccepted(t: Tables)
    requires Behaves(t)
    ensures AcceptsAs(t, [(BEGIN, "BEGIN"), (SEMI, ";")],
                      Command(Node(4, [Leaf(BEGIN, "BEGIN", BEGIN), Node(5, [])])))
  {
    var a := Pushed(SmallShift(0, BEGIN), BEGIN, "BEGIN");
    BeginShifted(t, a);
    var c := TransReduced(t, a, [], 5);
    assert [BOTTOM, a] + [] == [BOTTOM, a];
    CommandAccepted(t, [(BEGIN, "BEGIN")], [BOTTOM, a], c, 1);
    assert [(BEGIN, "BEGIN")] + [(SEMI, ";")] == [(BEGIN, "BEGIN"), (SEMI, ";")];
  }

  // Behind BEGIN the keyword has an entry of its own, and its fallback is not tried.
  lemma OwnEntryAccepted(t: Tables, x: string)
    requires Behaves(t)
    ensures AcceptsAs(t, [(BEGIN, "BEGIN"), (KEY, x), (SEMI, ";")],
                      Command(Node(4, [Leaf(BEGIN, "BEGIN", BEGIN), Node(7, [Leaf(KEY, x, KEY)])])))
  {
    var a, b := Pushed(SmallShift(0, BEGIN), BEGIN, "BEGIN"), Pushed(SmallShift(4, KEY), KEY, x);
    BeginShifted(t, a);
    FeedShift(t, [(BEGIN, "BEGIN")], [BOTTOM, a], 4, KEY, x);
    assert [(BEGIN, "BEGIN")] + [(KEY, x)] == [(BEGIN, "BEGIN"), (KEY, x)];
    var c := TransReduced(t, a, [b], 7);
    TreesOfTwo(b, b);
    CommandAccepted(t, [(BEGIN, "BEGIN"), (KEY, x)], [BOTTOM, a] + [b], c, 1);
    assert [(BEGIN, "BEGIN"), (KEY, x)] + [(SEMI, ";")] == [(BEGIN, "BEGIN"), (KEY, x), (SEMI, ";")];
  }

  // The parser with these tables accepts a sentence of each kind, as it should.
  lemma SmallAccepts(x: string, y: string, token: nat)
    requires 0 < token < YYNTOKEN
    ensures TablesOk(SmallTables())
    ensures AcceptsAs(SmallTables(), [(KEY, x), (NE, "<>"), (KEY, y), (SEMI, ";")],
                      Command(Node(2, [Leaf(KEY, x, ID), Leaf(NE, "<>", NE), Leaf(KEY, y, ID)])))
    ensures AcceptsAs(SmallTables(), [(NOT, "NOT"), (token, x), (SEMI, ";")], Command(Negation(token, x)))
    ensures AcceptsAs(SmallTables(), [(BEGIN, "BEGIN"), (SEMI, ";")],
                      Command(Node(4, [Leaf(BEGIN, "BEGIN", BEGIN), Node(5, [])])))
    ensures AcceptsAs(SmallTables(), [(BEGIN, "BEGIN"), (KEY, x), (SEMI, ";")],
                      Command(Node(4, [Leaf(BEGIN, "BEGIN", BEGIN), Node(7, [Leaf(KEY, x, KEY)])])))
  {
    hide SmallTables, AcceptsAs;
    SmallTablesBehave();
    ComparisonAccepted(SmallTables(), x, y);
    WildcardAccepted(SmallTables(), token, x);
    EmptyRuleAccepted(SmallTables());
    OwnEntryAccepted(SmallTables(), x);
  }
}
