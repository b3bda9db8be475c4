// What sqlite3_complete() decides: statements can be judged one after the
// other, ordinary statements end at a semicolon, and a trigger ends only at
// the semicolon that follows END.
module CompleteLaws {
  import opened Chars
  import opened CompleteScan

  // ---- text after text ------------------------------------------------------------

  lemma {:induction false} FindIn(a: string, b: string, i: nat, c: char)
    requires i <= |a| && Find(a, i, c) < |a|
    ensures Find(a + b, i, c) == Find(a, i, c)
    decreases |a| - i
  {
    if a[i] != c {
      FindIn(a, b, i + 1, c);
    }
  }

  lemma {:induction false} FindCloseIn(a: string, b: string, i: nat)
    requires i <= |a| && FindClose(a, i) < |a|
    ensures FindClose(a + b, i) == FindClose(a, i)
    decreases |a| - i
  {
    if FindClose(a, i) != i {
      assert FindClose(a, i) == FindClose(a, i + 1);
      FindCloseIn(a, b, i + 1);
    }
  }

  lemma {:induction false} IdEndIn(a: string, b: string, i: nat)
    requires i <= |a| && IdEnd(a, i) < |a|
    ensures IdEnd(a + b, i) == IdEnd(a, i)
    decreases |a| - i
  {
    if IsIdChar(a[i]) {
      IdEndIn(a, b, i + 1);
    }
  }

  lemma MatchIn(a: string, b: string, i: nat, word: string)
    requires i + |word| <= |a|
    ensures Matches(a + b, i, word) == Matches(a, i, word)
  {
    forall k: nat {:trigger word[k]} | k < |word|
      ensures CharAt(a + b, i + k) == CharAt(a, i + k)
    {
    }
  }

  lemma KeywordIn(a: string, b: string, i: nat, nId: nat)
    requires i + nId <= |a|
    ensures Keyword(a + b, i, nId) == Keyword(a, i, nId)
  {
    if nId == 6 { MatchIn(a, b, i, "create"); }
    if nId == 7 { MatchIn(a, b, i, "trigger"); MatchIn(a, b, i, "explain"); }
    if nId == 4 { MatchIn(a, b, i, "temp"); }
    if nId == 9 { MatchIn(a, b, i, "temporary"); }
    if nId == 3 { MatchIn(a, b, i, "end"); }
  }

  // A token of a text is a token of any longer text, unless the longer text
  // could go on with it.
  lemma TokenIn(a: string, b: string, i: nat)
    requires i < |a| && NextToken(a, i).Token?
    requires NextToken(a, i).next < |a| || NextToken(a, i).tk == tkSEMI || NextToken(a, i).tk == tkWS
    ensures NextToken(a + b, i) == NextToken(a, i)
  {
    var c := a[i];
    assert (a + b)[i] == c;
    if c == '/' && CharAt(a, i + 1) == '*' {
      FindCloseIn(a, b, i + 2);
    } else if c == '-' && CharAt(a, i + 1) == '-' {
      FindIn(a, b, i, '\n');
    } else if c == '[' {
      FindIn(a, b, i + 1, ']');
    } else if IsQuote(c) {
      FindIn(a, b, i + 1, c);
    } else if IsIdChar(c) {
      IdEndIn(a, b, i + 1);
      KeywordIn(a, b, i, IdEnd(a, i + 1) - i);
    }
  }

  // START is entered only on a semicolon or kept on whitespace.
  lemma StartsOn(state: nat, tk: nat)
    requires state < 8 && tk < 8 && Trans(state, tk) == START
    ensures tk == tkSEMI || tk == tkWS
  {
  }

  // After a text that ends in START, the rest goes on from START.
  lemma {:induction false} EndsOn(a: string, b: string, i: nat, state: nat)
    requires i <= |a| && state < 8 && Ends(a, i, state) == At(START)
    ensures Ends(a + b, i, state) == Ends(a + b, |a|, START)
    decreases |a| - i
  {
    if i < |a| {
      var l := NextToken(a, i);
      if l.next == |a| {
        StartsOn(state, l.tk);
      }
      TokenIn(a, b, i);
      EndsOn(a, b, l.next, Trans(state, l.tk));
    }
  }

  // ---- text before text -------------------------------------------------------------

  lemma {:induction false} FindAfter(a: string, b: string, i: nat, c: char)
    requires i <= |b|
    ensures Find(a + b, |a| + i, c) == |a| + Find(b, i, c)
    decreases |b| - i
  {
    if i < |b| && b[i] != c {
      FindAfter(a, b, i + 1, c);
    }
  }

  lemma {:induction false} FindCloseAfter(a: string, b: string, i: nat)
    requires i <= |b|
    ensures FindClose(a + b, |a| + i) == |a| + FindClose(b, i)
    decreases |b| - i
  {
    if i < |b| {
      FindCloseAfter(a, b, i + 1);
      assert CharAt(a + b, |a| + i + 1) == CharAt(b, i + 1);
    }
  }

  lemma {:induction false} IdEndAfter(a: string, b: string, i: nat)
    requires i <= |b|
    ensures IdEnd(a + b, |a| + i) == |a| + IdEnd(b, i)
    decreases |b| - i
  {
    if i < |b| && IsIdChar(b[i]) {
      IdEndAfter(a, b, i + 1);
    }
  }

  lemma MatchAfter(a: string, b: string, i: nat, word: string)
    ensures Matches(a + b, |a| + i, word) == Matches(b, i, word)
  {
    forall k: nat {:trigger word[k]} | k < |word|
      ensures CharAt(a + b, |a| + i + k) == CharAt(b, i + k)
    {
    }
  }

  lemma KeywordAfter(a: string, b: string, i: nat, nId: nat)
    ensures Keyword(a + b, |a| + i, nId) == Keyword(b, i, nId)
  {
    MatchAfter(a, b, i, "create");
    MatchAfter(a, b, i, "trigger");
    MatchAfter(a, b, i, "temp");
    MatchAfter(a, b, i, "temporary");
    MatchAfter(a, b, i, "end");
    MatchAfter(a, b, i, "explain");
  }

  function Moved(l: Lexeme, n: nat): Lexeme {
    if l.Token? then Token(l.tk, l.next + n) else l
  }

  lemma TokenAfter(a: string, b: string, i: nat)
    requires i < |b|
    ensures NextToken(a + b, |a| + i) == Moved(NextToken(b, i), |a|)
  {
    var c := b[i];
    assert (a + b)[|a| + i] == c && CharAt(a + b, |a| + i + 1) == CharAt(b, i + 1);
    if c == '/' && CharAt(b, i + 1) == '*' {
      FindCloseAfter(a, b, i + 2);
    } else if c == '-' {
      FindAfter(a, b, i, '\n');
    } else if c == '[' {
      FindAfter(a, b, i + 1, ']');
    } else if IsQuote(c) {
      FindAfter(a, b, i + 1, c);
    } else if IsIdChar(c) {
      IdEndAfter(a, b, i + 1);
      KeywordAfter(a, b, i, IdEnd(b, i + 1) - i);
    }
  }

  lemma {:induction false} EndsAfter(a: string, b: string, i: nat, state: nat)
    requires i <= |b| && state < 8
    ensures Ends(a + b, |a| + i, state) == Ends(b, i, state)
    decreases |b| - i
  {
    if i < |b| {
      TokenAfter(a, b, i);
      var l := NextToken(b, i);
      if l.Token? {
        EndsAfter(a, b, l.next, Trans(state, l.tk));
      }
    }
  }

  // ---- blank text ---------------------------------------------------------------------

  // Only whitespace and comments.
  predicate Blank(s: string, i: nat)
    requires i <= |s|
    decreases |s| - i
  {
    i == |s| || match NextToken(s, i) {
                  case Token(tk, next) => tk == tkWS && Blank(s, next)
                  case Unclosed => false
                  case OpenLine => true
                }
  }

  // START differs from INVALID only in that nothing need follow.
  lemma {:induction false} StartOrInvalid(s: string, i: nat)
    requires i <= |s|
    ensures Finished(Ends(s, i, START)) <==> Finished(Ends(s, i, INVALID)) || Blank(s, i)
    decreases |s| - i
  {
    if i < |s| {
      var l := NextToken(s, i);
      if l.Token? {
        if l.tk == tkWS {
          StartOrInvalid(s, l.next);
        } else {
          assert Trans(START, l.tk) == Trans(INVALID, l.tk);
        }
      }
    }
  }

  // If a text is complete and does not end inside a comment to the end of the
  // line, then appending another makes a complete text exactly when that one is
  // complete or blank.
  lemma Concatenation(s1: string, s2: string)
    requires Ends(s1, 0, INVALID) == At(START)
    ensures Complete(s1 + s2) <==> Complete(s2) || Blank(s2, 0)
  {
    EndsOn(s1, s2, 0, INVALID);
    EndsAfter(s1, s2, 0, START);
    StartOrInvalid(s2, 0);
  }

  // A comment to the end of the line swallows what follows on the line.
  lemma OpenComment(s: string, i: nat, state: nat, b: string)
    requires i < |s| && state < 8 && NextToken(s, i) == OpenLine && '\n' !in b
    ensures Ends(s + b, i, state) == InLine(state)
  {
    NoNewline(s, b, i);
  }

  lemma {:induction false} NoNewline(a: string, b: string, i: nat)
    requires i <= |a| && Find(a, i, '\n') == |a| && '\n' !in b
    ensures Find(a + b, i, '\n') == |a + b|
    decreases |a| - i
  {
    if i < |a| {
      NoNewline(a, b, i + 1);
    } else {
      FindAfter(a, b, 0, '\n');
      NeverFound(b, 0);
    }
  }

  lemma {:induction false} NeverFound(b: string, i: nat)
    requires i <= |b| && '\n' !in b
    ensures Find(b, i, '\n') == |b|
    decreases |b| - i
  {
    if i < |b| {
      NeverFound(b, i + 1);
    }
  }

  // ---- the automaton on tokens --------------------------------------------------------------

  type Tokens = s: seq<nat> | forall k :: 0 <= k < |s| ==> s[k] < 8

  // The state after the tokens.
  function Fold(state: nat, ts: Tokens): (r: nat)
    requires state < 8
    ensures r < 8
  {
    if ts == [] then state else Trans(Fold(state, ts[..|ts| - 1]), ts[|ts| - 1])
  }

  // The last token that is not whitespace.
  function LastSignificant(ts: Tokens): nat {
    if ts == [] then tkWS
    else if ts[|ts| - 1] != tkWS then ts[|ts| - 1] else LastSignificant(ts[..|ts| - 1])
  }

  // Without the keyword CREATE, a text is complete if and only if its last token
  // is a semicolon.
  lemma {:induction false} OrdinaryStatements(ts: Tokens)
    requires tkCREATE !in ts
    ensures Fold(INVALID, ts) in {INVALID, START, NORMAL, EXPLAIN}
    ensures Fold(INVALID, ts) == START <==> LastSignificant(ts) == tkSEMI
  {
    if ts != [] {
      OrdinaryStatements(ts[..|ts| - 1]);
    }
  }

  // From TRIGGER on, the tokens have not left the definition of a trigger before
  // the last of them.
  ghost predicate Inside(ts: Tokens) {
    forall k {:trigger ts[..k]} :: 0 <= k < |ts| ==> Fold(TRIGGER, ts[..k]) in {TRIGGER, SEMI, END}
  }

  predicate SemiOrWs(tk: nat) {
    tk == tkSEMI || tk == tkWS
  }

  // A semicolon at place i, and then only semicolons and whitespace.
  predicate SemiAt(ts: Tokens, i: nat) {
    i < |ts| && ts[i] == tkSEMI && forall k :: i < k < |ts| ==> SemiOrWs(ts[k])
  }

  // END at place j after such a semicolon, and then only whitespace.
  predicate EndAt(ts: Tokens, i: nat, j: nat) {
    j < |ts| && ts[j] == tkEND && SemiAt(ts[..j], i) && forall k :: j < k < |ts| ==> ts[k] == tkWS
  }

  ghost predicate SemiTail(ts: Tokens) {
    exists i: nat :: SemiAt(ts, i)
  }

  ghost predicate EndTail(ts: Tokens) {
    exists i: nat, j: nat :: EndAt(ts, i, j)
  }

  lemma InsideFront(ts: Tokens, front: Tokens)
    requires ts != [] && Inside(ts) && front == ts[..|ts| - 1]
    ensures Inside(front) && Fold(TRIGGER, front) in {TRIGGER, SEMI, END}
  {
    forall k {:trigger front[..k]} | 0 <= k < |front|
      ensures Fold(TRIGGER, front[..k]) in {TRIGGER, SEMI, END}
    {
      assert front[..k] == ts[..k];
    }
  }

  // The two states that remember the tail of the definition.
  lemma {:induction false} TailStates(ts: Tokens)
    requires Inside(ts) && Fold(TRIGGER, ts) in {TRIGGER, SEMI, END}
    ensures Fold(TRIGGER, ts) == SEMI <==> SemiTail(ts)
    ensures Fold(TRIGGER, ts) == END <==> EndTail(ts)
  {
    if ts != [] {
      var front: Tokens := ts[..|ts| - 1];
      InsideFront(ts, front);
      TailStates(front);
      SemiTailGrows(ts, front);
      EndTailGrows(ts, front);
    }
  }

  lemma SemiTailGrows(ts: Tokens, front: Tokens)
    requires ts != [] && front == ts[..|ts| - 1]
    ensures SemiTail(ts) <==> ts[|ts| - 1] == tkSEMI || (ts[|ts| - 1] == tkWS && SemiTail(front))
  {
    if ts[|ts| - 1] == tkSEMI {
      assert SemiAt(ts, |ts| - 1);
    }
    if i: nat :| SemiAt(ts, i) && i < |ts| - 1 {
      assert SemiOrWs(ts[|ts| - 1]) && SemiAt(front, i);
    }
    if i: nat :| SemiAt(front, i) && ts[|ts| - 1] == tkWS {
      assert SemiAt(ts, i);
    }
  }

  lemma EndTailGrows(ts: Tokens, front: Tokens)
    requires ts != [] && front == ts[..|ts| - 1]
    ensures EndTail(ts) <==> (ts[|ts| - 1] == tkEND && SemiTail(front)) || (ts[|ts| - 1] == tkWS && EndTail(front))
  {
    if i: nat, j: nat :| EndAt(ts, i, j) {
      assert j < |ts| - 1 ==> front[..j] == ts[..j] && EndAt(front, i, j);
    }
    if i: nat :| SemiAt(front, i) && ts[|ts| - 1] == tkEND {
      assert EndAt(ts, i, |ts| - 1);
    }
    if i: nat, j: nat :| EndAt(front, i, j) && ts[|ts| - 1] == tkWS {
      assert front[..j] == ts[..j];
      assert EndAt(ts, i, j);
    }
  }

  lemma LeavesOnSemi(state: nat, tk: nat)
    requires state in {TRIGGER, SEMI, END} && tk < 8
    ensures Trans(state, tk) == START <==> state == END && tk == tkSEMI
    ensures Trans(state, tk) in {START, TRIGGER, SEMI, END}
  {
  }

  lemma LeavesFromEnd(ts: Tokens, front: Tokens)
    requires ts != [] && Inside(ts) && front == ts[..|ts| - 1]
    ensures Fold(TRIGGER, ts) == START <==> ts[|ts| - 1] == tkSEMI && Fold(TRIGGER, front) == END
    ensures Fold(TRIGGER, ts) in {START, TRIGGER, SEMI, END}
  {
    InsideFront(ts, front);
    LeavesOnSemi(Fold(TRIGGER, front), ts[|ts| - 1]);
  }

  lemma EndTailState(ts: Tokens, front: Tokens)
    requires ts != [] && Inside(ts) && front == ts[..|ts| - 1]
    ensures Fold(TRIGGER, front) == END <==> EndTail(front)
  {
    InsideFront(ts, front);
    TailStates(front);
  }

  // A trigger definition ends only with a semicolon, END and a semicolon, with
  // nothing but whitespace before the last and nothing but whitespace and
  // semicolons between the first and END.
  lemma TriggerEndsOnlyAfterEnd(ts: Tokens, front: Tokens) returns (i: nat, j: nat)
    requires ts != [] && Inside(ts) && front == ts[..|ts| - 1] && Fold(TRIGGER, ts) == START
    ensures ts[|ts| - 1] == tkSEMI && EndAt(front, i, j)
  {
    LeavesFromEnd(ts, front);
    EndTailState(ts, front);
    i, j :| EndAt(front, i, j);
  }

  // And it does end there.
  lemma TriggerEndsAfterEnd(ts: Tokens, front: Tokens, i: nat, j: nat)
    requires ts != [] && Inside(ts) && front == ts[..|ts| - 1]
    requires ts[|ts| - 1] == tkSEMI && EndAt(front, i, j)
    ensures Fold(TRIGGER, ts) == START
  {
    LeavesFromEnd(ts, front);
    EndTailState(ts, front);
  }

  // ---- the tokens of a text ---------------------------------------------------------------------

  // The text is cut into tokens, and the automaton runs over them.
  function TokensOf(s: string, i: nat): (ts: Tokens)
    requires i <= |s|
    decreases |s| - i
  {
    if i == |s| then []
    else
      match NextToken(s, i)
      case Token(tk, next) => [tk] + TokensOf(s, next)
      case Unclosed => []
      case OpenLine => []
  }

  lemma {:induction false} FoldFirst(state: nat, tk: nat, ts: Tokens)
    requires state < 8 && tk < 8
    ensures Fold(state, [tk] + ts) == Fold(Trans(state, tk), ts)
  {
    var all: Tokens := [tk] + ts;
    if ts == [] {
      assert all[..0] == [];
    } else {
      FoldFirst(state, tk, ts[..|ts| - 1]);
      assert all[..|all| - 1] == [tk] + ts[..|ts| - 1];
    }
  }

  lemma {:induction false} EndsIsFold(s: string, i: nat, state: nat)
    requires i <= |s| && state < 8
    ensures Ends(s, i, state) == InQuote || Ends(s, i, state) == At(Fold(state, TokensOf(s, i)))
            || Ends(s, i, state) == InLine(Fold(state, TokensOf(s, i)))
    decreases |s| - i
  {
    if i < |s| && NextToken(s, i).Token? {
      var l := NextToken(s, i);
      EndsIsFold(s, l.next, Trans(state, l.tk));
      FoldFirst(state, l.tk, TokensOf(s, l.next));
    }
  }

  // The texts without CREATE that are complete.
  lemma OrdinaryComplete(s: string)
    requires tkCREATE !in TokensOf(s, 0)
    ensures Complete(s) <==> Ends(s, 0, INVALID) != InQuote && LastSignificant(TokensOf(s, 0)) == tkSEMI
  {
    EndsIsFold(s, 0, INVALID);
    OrdinaryStatements(TokensOf(s, 0));
  }
}
