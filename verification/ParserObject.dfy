// yyParser as the object that sqlite3Parser() works on: a fixed array of stack
// entries and the index of the top one.
module ParserObjects {
  import opened ParserTables
  import opened ParserForest
  import opened ParserMachine

  // yy_find_shift_action(): the loop tries the fallback of a token, then the wildcard.
  method YyFindShiftAction(t: Tables, iLookAhead: nat, stateno: nat) returns (act: nat, sym: nat)
    requires TablesOk(t) && iLookAhead < YYNTOKEN
    ensures Found(act, sym) == FindShift(t, iLookAhead, stateno)
  {
    if stateno > YY_MAX_SHIFT {
      return stateno, iLookAhead;
    }
    sym := iLookAhead;
    var i := t.shiftOfst[stateno] + sym;
    while (i >= |t.lookahead| || t.lookahead[i] != sym) && !NoFallback(t, sym)
      invariant sym < YYNTOKEN && i == t.shiftOfst[stateno] + sym
      invariant FindShift(t, iLookAhead, stateno) == FindShift(t, sym, stateno)
      decreases !NoFallback(t, sym)
    {
      sym := t.fallback[sym];
      i := t.shiftOfst[stateno] + sym;
    }
    if i >= |t.lookahead| || t.lookahead[i] != sym {
      var j := i - sym + YYWILDCARD;
      if j < |t.lookahead| && t.lookahead[j] == YYWILDCARD && sym > 0 {
        return t.action[j], YYWILDCARD;
      }
      return t.deflt[stateno], sym;
    }
    return t.action[i], sym;
  }

  class YyParser {
    const yystack: array<Entry>
    var yytos: nat

    ghost predicate Valid()
      reads this
    {
      yystack.Length == YYSTACKDEPTH && yytos < yystack.Length
    }

    ghost function Stack(): (s: seq<Entry>)
      requires Valid()
      reads this, yystack
      ensures |s| == yytos + 1
    {
      yystack[..yytos + 1]
    }

    // sqlite3ParserInit()
    constructor ()
      ensures Valid() && fresh(yystack) && Stack() == [BOTTOM]
    {
      yystack := new Entry[YYSTACKDEPTH](_ => BOTTOM);
      yytos := 0;
    }

    // yyStackOverflow(): one entry after the other is popped.
    method YyStackOverflow()
      requires Valid()
      modifies `yytos
      ensures Valid() && Stack() == old(Stack())[..1]
    {
      while yytos > 0
        invariant yytos <= old(yytos)
      {
        yytos := yytos - 1;
      }
    }

    // yy_shift()
    method YyShift(newState: nat, major: nat, text: string, sym: nat) returns (r: Outcome)
      requires Valid()
      modifies `yytos, yystack
      ensures Valid() && (Stack(), r) == Shift(old(Stack()), newState, major, text, sym)
    {
      if yytos + 1 > yystack.Length - 1 {
        YyStackOverflow();
        return Overflow;
      }
      yytos := yytos + 1;
      var stateno := newState;
      if stateno > YY_MAX_SHIFT {
        stateno := stateno + (YY_MIN_REDUCE - YY_MIN_SHIFTREDUCE);
      }
      yystack[yytos] := Entry(stateno, major, Leaf(major, text, sym));
      assert Stack() == old(Stack()) + [Entry(stateno, major, Leaf(major, text, sym))];
      r := Shifted;
    }

    // yy_reduce(); the trees of the handle become one.
    method YyReduce(t: Tables, rule: nat) returns (r: Outcome)
      requires Valid() && TablesOk(t)
      modifies `yytos, yystack
      ensures Valid() && (Stack(), r) == Reduce(t, old(Stack()), rule)
    {
      if rule >= |t.ruleNRhs| || t.ruleNRhs[rule] > 0 || -t.ruleNRhs[rule] > yytos {
        return Fault;
      }
      var yysize := t.ruleNRhs[rule];
      if yysize == 0 && yytos >= yystack.Length - 1 {
        YyStackOverflow();
        return Overflow;
      }
      var base := yytos + 1 + yysize;
      if !GotoDefined(t, yystack[base - 1].stateno, t.ruleLhs[rule]) {
        return Fault;
      }
      var act := Goto(t, yystack[base - 1].stateno, t.ruleLhs[rule]);
      if YY_MAX_SHIFT < act <= YY_MAX_SHIFTREDUCE || act == YY_ERROR_ACTION {
        return Fault;
      }
      assert yystack[base..yytos + 1] == Stack()[base..];
      assert Stack()[base - 1] == yystack[base - 1];
      yystack[base] := Entry(act, t.ruleLhs[rule], Node(rule, Trees(yystack[base..yytos + 1])));
      yytos := base;
      assert Stack() == old(Stack())[..base] + [yystack[base]];
      r := Running;
    }

    method YyTurn(t: Tables, major: nat, text: string) returns (r: Outcome)
      requires Valid() && TablesOk(t) && major < YYNTOKEN
      modifies `yytos, yystack
      ensures Valid() && (Stack(), r) == Turn(t, old(Stack()), major, text)
    {
      var act, sym := YyFindShiftAction(t, major, yystack[yytos].stateno);
      assert Stack()[yytos] == yystack[yytos];
      if act >= YY_MIN_REDUCE {
        r := YyReduce(t, act - YY_MIN_REDUCE);
      } else if act <= YY_MAX_SHIFTREDUCE {
        r := YyShift(act, major, text, sym);
      } else if act == YY_ACCEPT_ACTION {
        if yytos - 1 == 0 {
          assert Stack()[1] == yystack[1];
          r := Accepted(yystack[1].tree);
          yytos := yytos - 1;
          assert Stack() == old(Stack())[..1];
        } else {
          r := Fault;
        }
      } else {
        r := if act == YY_ERROR_ACTION then SyntaxError else Fault;
      }
    }

    // sqlite3Parser(): turns until there is an outcome.  For tables of an arbitrary
    // grammar the loop need not end; n is a number of turns within which it does.
    method Parse(t: Tables, major: nat, text: string, ghost n: nat) returns (r: Outcome)
      requires Valid() && TablesOk(t) && major < YYNTOKEN
      requires Drive(t, Stack(), major, text, n).1 != Running
      modifies `yytos, yystack
      ensures Valid() && (Stack(), r) == Drive(t, old(Stack()), major, text, n)
    {
      ghost var left := n;
      r := Running;
      while r == Running
        invariant Valid()
        invariant Drive(t, old(Stack()), major, text, n) == if r == Running then Drive(t, Stack(), major, text, left)
                  else (Stack(), r)
        decreases left, r == Running
      {
        r := YyTurn(t, major, text);
        left := left - 1;
      }
    }
  }
}
