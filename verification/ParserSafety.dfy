// What every run of the parser keeps: no assertion of the driver fails, the
// stack stays within its bounds, the trees on it spell the tokens shifted so
// far, and a parse that is accepted is a derivation of its tokens.
module ParserSafety {
  import opened ParserTables
  import opened ParserForest
  import opened ParserMachine

  // ---- trees of a stack ---------------------------------------------------------------

  lemma {:induction false} TreesAre(s: seq<Entry>)
    ensures |Trees(s)| == |s|
    ensures forall j {:trigger Trees(s)[j]} {:trigger s[j]} :: 0 <= j < |s| ==> Trees(s)[j] == s[j].tree
  {
    if s != [] {
      TreesAre(s[..|s| - 1]);
    }
  }

  lemma TreesConcat(a: seq<Entry>, b: seq<Entry>)
    ensures Trees(a + b) == Trees(a) + Trees(b)
  {
    TreesAre(a);
    TreesAre(b);
    TreesAre(a + b);
  }

  lemma YieldSplit(stack: seq<Entry>, base: nat)
    requires 0 < base <= |stack|
    ensures Yield(stack) == Yield(stack[..base]) + ForestTokens(Trees(stack[base..]))
  {
    assert stack[1..] == stack[..base][1..] + stack[base..];
    TreesConcat(stack[..base][1..], stack[base..]);
    TokensConcat(Trees(stack[..base][1..]), Trees(stack[base..]));
  }

  lemma YieldPush(stack: seq<Entry>, e: Entry)
    requires stack != []
    ensures Yield(stack + [e]) == Yield(stack) + Tokens(e.tree)
  {
    YieldSplit(stack + [e], |stack|);
    assert (stack + [e])[..|stack|] == stack && (stack + [e])[|stack|..] == [e];
    assert Trees([e]) == [e.tree] by { TreesAre([e]); }
    assert ForestTokens([e.tree]) == Tokens(e.tree);
  }

  // ---- a rule that has been recognised ---------------------------------------------------

  ghost predicate Recognised(g: Grammar, stack: seq<Entry>, r: nat) {
    && r < |g.rhs| && |g.rhs[r]| < |stack|
    && Spelled(g, stack, |stack| - 1, Item(r, |g.rhs[r]|))
    && stack[|stack| - 1 - |g.rhs[r]|].stateno <= YY_MAX_SHIFT
  }

  lemma StateBelow(t: Tables, g: Grammar, stack: seq<Entry>, r: nat)
    requires StackOk(t, g, stack) && r < |g.rhs| && |g.items| == YY_MAX_SHIFT + 1
    requires Spelled(g, stack, |stack| - 1, Item(r, |g.rhs[r]|))
    ensures Recognised(g, stack, r)
  {
  }

  lemma RecognisedInState(t: Tables, g: Grammar, stack: seq<Entry>, r: nat)
    requires Fits(t, g) && StackOk(t, g, stack) && stack[|stack| - 1].stateno <= YY_MAX_SHIFT
    requires Complete(g, stack[|stack| - 1].stateno, r)
    ensures Recognised(g, stack, r)
  {
    Handle(t, g, stack, |stack| - 1, Item(r, |g.rhs[r]|));
    StateBelow(t, g, stack, r);
  }

  lemma RecognisedPending(t: Tables, g: Grammar, stack: seq<Entry>, r: nat)
    requires Fits(t, g) && StackOk(t, g, stack) && |stack| > 1
    requires Completes(g, stack[|stack| - 2].stateno, Sym(g, stack[|stack| - 1].tree), r)
    ensures Recognised(g, stack, r)
  {
    var k, it := |stack| - 1, Item(r, |g.rhs[r]|);
    BelowIsState(t, g, stack, k);
    Handle(t, g, stack, k - 1, Item(r, it.dot - 1));
    SpelledOn(g, stack, k, it);
    StateBelow(t, g, stack, r);
  }

  // ---- reducing ------------------------------------------------------------------------------

  lemma OnlyBottomIsZero(t: Tables, g: Grammar, stack: seq<Entry>, k: nat)
    requires StackOk(t, g, stack) && k < |stack| && stack[k].stateno == 0
    ensures k == 0
  {
    if k > 0 {
      BelowIsState(t, g, stack, k);
    }
  }

  lemma NodeOk(t: Tables, g: Grammar, stack: seq<Entry>, r: nat, node: Tree)
    requires StackOk(t, g, stack) && Recognised(g, stack, r) && |g.lhs| == |g.rhs|
    requires node == Node(r, Trees(stack[|stack| - |g.rhs[r]|..]))
    ensures TreeOk(t, g, node) && Sym(g, node) == g.lhs[r]
  {
    var n := |g.rhs[r]|;
    var base := |stack| - n;
    TreesAre(stack[base..]);
    forall j | 0 <= j < n
      ensures TreeOk(t, g, node.kids[j]) && Fills(g, g.rhs[r][j], Sym(g, node.kids[j]))
    {
      assert stack[base..][j] == stack[base + j];
      assert EntryOk(t, g, stack, base + j);
      assert stack[|stack| - 1 - n + 1 + j] == stack[base + j];
    }
  }

  // An entry that fits on top of a prefix of the stack.
  lemma PushOk(t: Tables, g: Grammar, stack: seq<Entry>, base: nat, e: Entry, s': seq<Entry>)
    requires StackOk(t, g, stack) && 0 < base <= |stack| && base < YYSTACKDEPTH && s' == stack[..base] + [e]
    requires stack[base - 1].stateno <= YY_MAX_SHIFT && TreeOk(t, g, e.tree)
    requires Linked(g, stack[base - 1], e) || Pending(g, stack[base - 1], e) || (base == 1 && Accepting(g, e))
    ensures StackOk(t, g, s')
  {
    forall k | 0 < k < |s'|
      ensures EntryOk(t, g, s', k)
    {
      if k < base {
        assert EntryOk(t, g, stack, k);
        assert k == base - 1 ==> Linked(g, stack[k - 1], stack[k]);
      }
    }
  }

  lemma GotoFits(t: Tables, g: Grammar, s: nat, r: nat)
    requires Fits(t, g) && s <= YY_MAX_SHIFT && r < |g.lhs| && Item(r, 0) in g.items[s]
    ensures GotosFit(t, g, s, g.lhs[r])
  {
  }

  lemma RuleSize(t: Tables, g: Grammar, r: nat)
    requires Fits(t, g) && r < |g.rhs|
    ensures r < |t.ruleNRhs| && t.ruleNRhs[r] == -|g.rhs[r]| && t.ruleLhs[r] == g.lhs[r] && |g.lhs| == |g.rhs|
  {
    assert t.ruleNRhs[r] == -|g.rhs[r]|;
  }

  // yy_reduce(): the trees of the handle become one, and the tokens stay.
  lemma ReduceOk(t: Tables, g: Grammar, stack: seq<Entry>, r: nat, u: (seq<Entry>, Outcome))
    requires Fits(t, g) && StackOk(t, g, stack) && Recognised(g, stack, r) && u == Reduce(t, stack, r)
    ensures if g.rhs[r] == [] && |stack| == YYSTACKDEPTH then u == ([BOTTOM], Overflow)
            else u.1 == Running && StackOk(t, g, u.0) && |u.0| == |stack| - |g.rhs[r]| + 1 && Yield(u.0) == Yield(stack)
  {
    RuleSize(t, g, r);
    if g.rhs[r] == [] && |stack| == YYSTACKDEPTH {
      assert stack[..1] == [BOTTOM];
    } else {
      var base := |stack| - |g.rhs[r]|;
      var s := stack[base - 1].stateno;
      GotoFits(t, g, s, r);
      var e := Entry(Goto(t, s, g.lhs[r]), g.lhs[r], Node(r, Trees(stack[base..])));
      NodeOk(t, g, stack, r, e.tree);
      if e.stateno == YY_ACCEPT_ACTION {
        OnlyBottomIsZero(t, g, stack, base - 1);
      }
      assert u == (stack[..base] + [e], Running);
      PushOk(t, g, stack, base, e, u.0);
      YieldSplit(stack, base);
      YieldPush(stack[..base], e);
    }
  }

  // ---- shifting --------------------------------------------------------------------------------

  lemma ShiftFits(t: Tables, g: Grammar, s: nat, a: nat)
    requires Fits(t, g) && s <= YY_MAX_SHIFT && a < YYNTOKEN
    ensures ActionFits(g, s, FindShift(t, a, s))
  {
    FoundDecides(t, a, s, FindShift(t, a, s));
    assert ShiftsFit(t, g, s, a);
  }

  // yy_shift(): the token joins the yield, unless the stack is full.
  lemma ShiftOk(t: Tables, g: Grammar, stack: seq<Entry>, major: nat, text: string, f: Found, u: (seq<Entry>, Outcome))
    requires Fits(t, g) && StackOk(t, g, stack) && major < YYNTOKEN && stack[|stack| - 1].stateno <= YY_MAX_SHIFT
    requires f == FindShift(t, major, stack[|stack| - 1].stateno) && f.act <= YY_MAX_SHIFTREDUCE
    requires u == Shift(stack, f.act, major, text, f.sym)
    ensures if |stack| == YYSTACKDEPTH then u == ([BOTTOM], Overflow)
            else u.1 == Shifted && StackOk(t, g, u.0) && Yield(u.0) == Yield(stack) + [(major, text)]
  {
    var s := stack[|stack| - 1].stateno;
    ShiftFits(t, g, s, major);
    FoundFor(t, major, s);
    if |stack| == YYSTACKDEPTH {
      assert stack[..1] == [BOTTOM];
    } else {
      var e := u.0[|stack|];
      assert stack[..|stack|] == stack;
      PushOk(t, g, stack, |stack|, e, u.0);
      YieldPush(stack, e);
    }
  }

  // ---- one turn, one call -------------------------------------------------------------------------

  // What the outcome says about the stack before and after, for a token.
  ghost predicate Keeps(t: Tables, g: Grammar, stack: seq<Entry>, token: (nat, string), u: (seq<Entry>, Outcome))
    requires stack != []
  {
    && StackOk(t, g, u.0)
    && match u.1
       case Running => |u.0| > 1 && Yield(u.0) == Yield(stack)
       case Shifted => Yield(u.0) == Yield(stack) + [token]
       case SyntaxError => Yield(u.0) == Yield(stack)
       case Overflow => u.0 == [BOTTOM]
       case Accepted(tree) => u.0 == [BOTTOM] && TreeOk(t, g, tree) && Stands(g, g.start, Sym(g, tree)) &&
         Tokens(tree) == Yield(stack)
       case Fault => false
  }

  lemma AcceptOk(t: Tables, g: Grammar, stack: seq<Entry>, major: nat, text: string)
    requires Fits(t, g) && StackOk(t, g, stack) && major < YYNTOKEN && |stack| == 2 && Accepting(g, stack[1]) &&
             TreeOk(t, g, stack[1].tree)
    ensures Keeps(t, g, stack, (major, text), Turn(t, stack, major, text)) && Turn(t, stack, major, text).1.Accepted?
  {
    assert stack[..1] == [BOTTOM];
    YieldPush([BOTTOM], stack[1]);
    assert [BOTTOM] + [stack[1]] == stack;
  }

  lemma PendingTurnOk(t: Tables, g: Grammar, stack: seq<Entry>, major: nat, text: string)
    requires Fits(t, g) && StackOk(t, g, stack) && major < YYNTOKEN && |stack| > 1 &&
             Pending(g, stack[|stack| - 2], stack[|stack| - 1])
    ensures Keeps(t, g, stack, (major, text), Turn(t, stack, major, text)) && Turn(t, stack, major, text).1 == Running
  {
    var r := stack[|stack| - 1].stateno - YY_MIN_REDUCE;
    RecognisedPending(t, g, stack, r);
    ReduceOk(t, g, stack, r, Reduce(t, stack, r));
  }

  lemma StateTurnOk(t: Tables, g: Grammar, stack: seq<Entry>, major: nat, text: string)
    requires Fits(t, g) && StackOk(t, g, stack) && major < YYNTOKEN && stack[|stack| - 1].stateno <= YY_MAX_SHIFT
    ensures Keeps(t, g, stack, (major, text), Turn(t, stack, major, text))
  {
    var s := stack[|stack| - 1].stateno;
    var f := FindShift(t, major, s);
    ShiftFits(t, g, s, major);
    if f.act <= YY_MAX_SHIFTREDUCE {
      ShiftOk(t, g, stack, major, text, f, Shift(stack, f.act, major, text, f.sym));
    } else if f.act >= YY_MIN_REDUCE {
      var r := f.act - YY_MIN_REDUCE;
      RecognisedInState(t, g, stack, r);
      ReduceOk(t, g, stack, r, Reduce(t, stack, r));
    }
  }

  // One turn of the loop: no assertion fails.
  lemma TurnOk(t: Tables, g: Grammar, stack: seq<Entry>, major: nat, text: string)
    requires Fits(t, g) && StackOk(t, g, stack) && major < YYNTOKEN
    ensures Keeps(t, g, stack, (major, text), Turn(t, stack, major, text))
  {
    var k := |stack| - 1;
    if stack[k].stateno <= YY_MAX_SHIFT {
      StateTurnOk(t, g, stack, major, text);
    } else {
      assert k > 0 && EntryOk(t, g, stack, k);
      if Pending(g, stack[k - 1], stack[k]) {
        PendingTurnOk(t, g, stack, major, text);
      } else {
        AcceptOk(t, g, stack, major, text);
      }
    }
  }

  // The loop ends on an overflow exactly when a full stack would have to grow.
  lemma OverflowIff(t: Tables, g: Grammar, stack: seq<Entry>, major: nat, text: string, act: nat)
    requires Fits(t, g) && StackOk(t, g, stack) && major < YYNTOKEN
    requires act == FindShift(t, major, stack[|stack| - 1].stateno).act
    ensures Turn(t, stack, major, text).1 == Overflow <==>
              |stack| == YYSTACKDEPTH
              && (act <= YY_MAX_SHIFTREDUCE ||
                (YY_MIN_REDUCE <= act <= YY_MAX_REDUCE && g.rhs[act - YY_MIN_REDUCE] == []))
  {
    TurnOk(t, g, stack, major, text);
    if YY_MIN_REDUCE <= act <= YY_MAX_REDUCE {
      RuleSize(t, g, act - YY_MIN_REDUCE);
    }
  }

  // How a turn in a state ends follows from the action that the arrays hold for the
  // token: an error exactly for the error action, a shift exactly for a shift.
  lemma TurnEnds(t: Tables, g: Grammar, stack: seq<Entry>, major: nat, text: string, f: Found,
          u: (seq<Entry>, Outcome))
    requires Fits(t, g) && StackOk(t, g, stack) && major < YYNTOKEN && stack[|stack| - 1].stateno <= YY_MAX_SHIFT
    requires Decides(t, stack[|stack| - 1].stateno, major, f) && u == Turn(t, stack, major, text)
    ensures u.1 == SyntaxError <==> f.act == YY_ERROR_ACTION
    ensures u.1 == Shifted <==> f.act <= YY_MAX_SHIFTREDUCE && |stack| < YYSTACKDEPTH
    ensures u.1 == Running <==>
              YY_MIN_REDUCE <= f.act <= YY_MAX_REDUCE
              && (|stack| < YYSTACKDEPTH || g.rhs[f.act - YY_MIN_REDUCE] != [])
  {
    FoundDecides(t, major, stack[|stack| - 1].stateno, f);
    TurnOk(t, g, stack, major, text);
    ShiftFits(t, g, stack[|stack| - 1].stateno, major);
    OverflowIff(t, g, stack, major, text, f.act);
  }

  // A whole call of sqlite3Parser().
  lemma {:induction false} DriveOk(t: Tables, g: Grammar, stack: seq<Entry>, major: nat, text: string, n: nat)
    requires Fits(t, g) && StackOk(t, g, stack) && major < YYNTOKEN && n > 0
    ensures Keeps(t, g, stack, (major, text), Drive(t, stack, major, text, n))
    decreases n
  {
    TurnOk(t, g, stack, major, text);
    var u := Turn(t, stack, major, text);
    if u.1 == Running && n > 1 {
      DriveOk(t, g, u.0, major, text, n - 1);
    }
  }

  // ---- whole runs ---------------------------------------------------------------------------------

  // One token after the other, each within n turns, as long as they are shifted.
  function Feed(t: Tables, tokens: seq<(nat, string)>, n: nat): (r: (seq<Entry>, Outcome))
    requires TablesOk(t) && forall k {:trigger tokens[k]} :: 0 <= k < |tokens| ==> tokens[k].0 < YYNTOKEN
    ensures r.0 != []
  {
    if tokens == [] then ([BOTTOM], Shifted)
    else
      var r := Feed(t, tokens[..|tokens| - 1], n);
      var token := tokens[|tokens| - 1];
      if r.1 == Shifted then Drive(t, r.0, token.0, token.1, n) else r
  }

  // Whatever the tokens are, no assertion fails, the stack keeps within its
  // bounds, and while tokens are shifted its trees spell them all.
  lemma {:induction false} FeedOk(t: Tables, g: Grammar, tokens: seq<(nat, string)>, n: nat)
    requires Fits(t, g) && n > 0 && forall k {:trigger tokens[k]} :: 0 <= k < |tokens| ==> tokens[k].0 < YYNTOKEN
    ensures StackOk(t, g, Feed(t, tokens, n).0) && Feed(t, tokens, n).1 != Fault
    ensures Feed(t, tokens, n).1 == Shifted ==> Yield(Feed(t, tokens, n).0) == tokens
    decreases |tokens|
  {
    if tokens == [] {
      BottomOk(t, g);
    } else {
      var front, token := tokens[..|tokens| - 1], tokens[|tokens| - 1];
      FeedOk(t, g, front, n);
      var r := Feed(t, front, n);
      if r.1 == Shifted {
        DriveOk(t, g, r.0, token.0, token.1, n);
        assert tokens == front + [token];
      }
    }
  }

  lemma BottomOk(t: Tables, g: Grammar)
    ensures StackOk(t, g, [BOTTOM]) && Yield([BOTTOM]) == []
  {
    assert [BOTTOM][1..] == [];
  }

  // The parser accepts only what the grammar derives: the tokens shifted, each
  // taken for itself, its fallback or the wildcard, derive from the start symbol.
  lemma AcceptedDerives(t: Tables, g: Grammar, tokens: seq<(nat, string)>, n: nat, last: (nat, string), m: nat)
    returns (word: seq<nat>)
    requires Fits(t, g) && n > 0 && m > 0 && last.0 < YYNTOKEN &&
             forall k {:trigger tokens[k]} :: 0 <= k < |tokens| ==> tokens[k].0 < YYNTOKEN
    requires Feed(t, tokens, n).1 == Shifted && Drive(t, Feed(t, tokens, n).0, last.0, last.1, m).1.Accepted?
    ensures Reading(t, tokens, word) && Derives(g, [g.start], word)
  {
    FeedOk(t, g, tokens, n);
    DriveOk(t, g, Feed(t, tokens, n).0, last.0, last.1, m);
    var tree := Drive(t, Feed(t, tokens, n).0, last.0, last.1, m).1.tree;
    TreeReads(t, g, tree);
    TreeDerives(t, g, tree);
    ExpectedDerives(t, g, g.start, tree);
    word := Word(tree);
  }

  // ---- the delayed reductions ----------------------------------------------------------------------

  // Reducing at once, k times, whatever is pending on top of the stack.
  ghost predicate Settles(t: Tables, stack: seq<Entry>, k: nat, stack': seq<Entry>)
    requires TablesOk(t) && stack != []
    decreases k
  {
    if k == 0 then stack' == stack
    else
      && stack[|stack| - 1].stateno >= YY_MIN_REDUCE
      && Reduce(t, stack, stack[|stack| - 1].stateno - YY_MIN_REDUCE).1 == Running
      && Settles(t, Reduce(t, stack, stack[|stack| - 1].stateno - YY_MIN_REDUCE).0, k - 1, stack')
  }

  // A shift with a pending reduction acts like a shift and a reduction: whichever
  // token comes next, the parser does the same from either stack.
  lemma {:induction false} DelayedIsPlain(t: Tables, stack: seq<Entry>, k: nat, stack': seq<Entry>, major: nat,
          text: string, n: nat)
    requires TablesOk(t) && stack != [] && stack' != [] && major < YYNTOKEN && Settles(t, stack, k, stack')
    ensures Drive(t, stack, major, text, n + k) == Drive(t, stack', major, text, n)
    decreases k
  {
    if k > 0 {
      var r := Reduce(t, stack, stack[|stack| - 1].stateno - YY_MIN_REDUCE);
      assert Turn(t, stack, major, text) == r;
      DelayedIsPlain(t, r.0, k - 1, stack', major, text, n);
    }
  }

  // Every pending reduction can be made at once.
  lemma PendingSettles(t: Tables, g: Grammar, stack: seq<Entry>) returns (stack': seq<Entry>)
    requires Fits(t, g) && StackOk(t, g, stack) && |stack| > 1 && Pending(g, stack[|stack| - 2], stack[|stack| - 1])
    ensures Settles(t, stack, 1, stack') && StackOk(t, g, stack') && Yield(stack') == Yield(stack)
  {
    var r := stack[|stack| - 1].stateno - YY_MIN_REDUCE;
    RecognisedPending(t, g, stack, r);
    var u := Reduce(t, stack, r);
    ReduceOk(t, g, stack, r, u);
    stack' := u.0;
    assert Settles(t, u.0, 0, stack');
  }

  // ---- the driver that reduces at once ---------------------------------------------------------------

  // All that is pending on top of the stack, within m reductions.
  function Settle(t: Tables, stack: seq<Entry>, m: nat): (r: (seq<Entry>, Outcome))
    requires TablesOk(t) && stack != []
    ensures r.0 != []
    decreases m
  {
    if stack[|stack| - 1].stateno < YY_MIN_REDUCE then (stack, Shifted)
    else if m == 0 then (stack, Running)
    else
      var r := Reduce(t, stack, stack[|stack| - 1].stateno - YY_MIN_REDUCE);
      if r.1 == Running then Settle(t, r.0, m - 1) else r
  }

  // The parser that makes the reduction of a shift-reduce action at once.
  function PlainFeed(t: Tables, tokens: seq<(nat, string)>, n: nat): (r: (seq<Entry>, Outcome))
    requires TablesOk(t) && forall k {:trigger tokens[k]} :: 0 <= k < |tokens| ==> tokens[k].0 < YYNTOKEN
    ensures r.0 != []
  {
    if tokens == [] then ([BOTTOM], Shifted)
    else
      var r := PlainFeed(t, tokens[..|tokens| - 1], n);
      var token := tokens[|tokens| - 1];
      if r.1 != Shifted then r
      else
        var u := Drive(t, r.0, token.0, token.1, n);
        if u.1 == Shifted then Settle(t, u.0, n) else u
  }

  lemma {:induction false} SettleSettles(t: Tables, stack: seq<Entry>, m: nat) returns (k: nat)
    requires TablesOk(t) && stack != [] && Settle(t, stack, m).1 == Shifted
    ensures k <= m && Settles(t, stack, k, Settle(t, stack, m).0)
    decreases m
  {
    k := 0;
    if stack[|stack| - 1].stateno >= YY_MIN_REDUCE {
      k := SettleSettles(t, Reduce(t, stack, stack[|stack| - 1].stateno - YY_MIN_REDUCE).0, m - 1);
      k := k + 1;
    }
  }

  // More turns than it takes to get an outcome change nothing.
  lemma {:induction false} DriveEnough(t: Tables, stack: seq<Entry>, major: nat, text: string, n: nat, m: nat)
    requires TablesOk(t) && stack != [] && major < YYNTOKEN && n <= m && Drive(t, stack, major, text, n).1 != Running
    ensures Drive(t, stack, major, text, m) == Drive(t, stack, major, text, n)
    decreases n
  {
    if n > 0 && Turn(t, stack, major, text).1 == Running {
      DriveEnough(t, Turn(t, stack, major, text).0, major, text, n - 1, m - 1);
    }
  }

  // One more token has the same outcome for both parsers.
  lemma {:induction false} DelayedToken(t: Tables, stack: seq<Entry>, k: nat, stack': seq<Entry>, major: nat,
          text: string, n: nat)
    requires TablesOk(t) && stack != [] && stack' != [] && major < YYNTOKEN && k <= n && Settles(t, stack, k, stack')
    requires Drive(t, stack', major, text, n).1 != Running
    ensures Drive(t, stack, major, text, 2 * n) == Drive(t, stack', major, text, n)
  {
    DelayedIsPlain(t, stack, k, stack', major, text, n);
    DriveEnough(t, stack, major, text, n + k, 2 * n);
  }

  // Over a whole stream of tokens the parser with pending reductions simulates the
  // plain one: whatever that one shifts, this one shifts, and its stack settles into
  // the other's,
  lemma {:induction false} DelayedRunIsPlain(t: Tables, tokens: seq<(nat, string)>, n: nat) returns (k: nat)
    requires TablesOk(t) && forall k {:trigger tokens[k]} :: 0 <= k < |tokens| ==> tokens[k].0 < YYNTOKEN
    requires PlainFeed(t, tokens, n).1 == Shifted
    ensures Feed(t, tokens, 2 * n).1 == Shifted
    ensures k <= n && Settles(t, Feed(t, tokens, 2 * n).0, k, PlainFeed(t, tokens, n).0)
    decreases |tokens|
  {
    k := 0;
    if tokens != [] {
      var front, token := tokens[..|tokens| - 1], tokens[|tokens| - 1];
      var k0 := DelayedRunIsPlain(t, front, n);
      var r := PlainFeed(t, front, n);
      var u := Drive(t, r.0, token.0, token.1, n);
      DelayedToken(t, Feed(t, front, 2 * n).0, k0, r.0, token.0, token.1, n);
      k := SettleSettles(t, u.0, n);
    }
  }

  // and the token that ends the run ends it in the same way.
  lemma {:induction false} DelayedOutcomeIsPlain(t: Tables, tokens: seq<(nat, string)>, n: nat, major: nat,
          text: string)
    requires TablesOk(t) && major < YYNTOKEN && forall k {:trigger tokens[k]} :: 0 <= k < |tokens| ==>
               tokens[k].0 < YYNTOKEN
    requires PlainFeed(t, tokens, n).1 == Shifted && Drive(t, PlainFeed(t, tokens, n).0, major, text, n).1 != Running
    ensures Drive(t, Feed(t, tokens, 2 * n).0, major, text, 2 * n) ==
            Drive(t, PlainFeed(t, tokens, n).0, major, text, n)
  {
    var k := DelayedRunIsPlain(t, tokens, n);
    DelayedToken(t, Feed(t, tokens, 2 * n).0, k, PlainFeed(t, tokens, n).0, major, text, n);
  }
}
