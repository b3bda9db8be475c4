// The grammar of what sqlite3_complete() accepts, without its automaton: a text is
// complete exactly if it closes what it opens and its tokens are a sequence of
// whole statements, where only the definition of a trigger may contain semicolons.
module CompleteStatements {
  import opened Wrappers
  import opened Chars
  import opened CompleteScan
  import opened CompleteLaws

  // ---- whole statements -------------------------------------------------------------

  // The tokens without whitespace and comments.
  function Significant(ts: Tokens): (u: Tokens)
    ensures tkWS !in u
  {
    if ts == [] then []
    else if ts[0] == tkWS then Significant(ts[1..])
    else [ts[0]] + Significant(ts[1..])
  }

  // What is left after all leading tokens tk.
  function Behind(ts: Tokens, tk: nat): Tokens {
    if ts != [] && ts[0] == tk then Behind(ts[1..], tk) else ts
  }

  // The rest of a statement that goes on with any TEMPs and TRIGGER.
  function BehindCreate(ts: Tokens): Option<Tokens> {
    var u := Behind(ts, tkTEMP);
    if u != [] && u[0] == tkTRIGGER then Some(u[1..]) else None
  }

  // The rest of a statement that goes on with any tokens that are no keyword, and
  // then the head of a trigger.
  function BehindExplain(ts: Tokens): Option<Tokens> {
    var u := Behind(ts, tkOTHER);
    if u != [] && u[0] == tkCREATE then BehindCreate(u[1..]) else None
  }

  // The part of the definition of a trigger behind its first keywords: CREATE, any
  // TEMPs and TRIGGER, perhaps explained.
  function Body(ts: Tokens): Option<Tokens> {
    if ts == [] then None
    else if ts[0] == tkCREATE then BehindCreate(ts[1..])
    else if ts[0] == tkEXPLAIN then BehindExplain(ts[1..])
    else None
  }

  // A semicolon, END and a semicolon come last.
  predicate EndsBody(b: Tokens) {
    |b| >= 3 && b[|b| - 3] == tkSEMI && b[|b| - 2] == tkEND && b[|b| - 1] == tkSEMI
  }

  // And they come for the first time.
  ghost predicate WholeBody(b: Tokens) {
    EndsBody(b) && forall k {:trigger b[..k]} :: 0 <= k < |b| ==> !EndsBody(b[..k])
  }

  // The first semicolon comes last.
  predicate Ordinary(ts: Tokens) {
    ts != [] && ts[|ts| - 1] == tkSEMI && tkSEMI !in ts[..|ts| - 1]
  }

  // One statement with its end.
  ghost predicate Whole(ts: Tokens) {
    match Body(ts)
    case Some(b) => WholeBody(b)
    case None => Ordinary(ts)
  }

  ghost predicate Statements(ts: Tokens)
    decreases |ts|
  {
    ts == [] || exists n {:trigger ts[..n]} :: 0 < n <= |ts| && Whole(ts[..n]) && Statements(ts[n..])
  }

  // ---- the automaton, one statement at a time ---------------------------------------

  // The tokens lead from the state to START, for the first time with the last one.
  ghost predicate Leaves(state: nat, ts: Tokens)
    requires state < 8
    decreases |ts|
  {
    ts != [] && if |ts| == 1 then Trans(state, ts[0]) == START
                else Trans(state, ts[0]) != START && Leaves(Trans(state, ts[0]), ts[1..])
  }

  lemma {:induction false} LeavesNormal(ts: Tokens)
    ensures Leaves(NORMAL, ts) <==> Ordinary(ts)
    decreases |ts|
  {
    if |ts| > 1 {
      LeavesNormal(ts[1..]);
      OrdinaryRest(ts);
    }
  }

  lemma OrdinaryRest(ts: Tokens)
    requires |ts| > 1
    ensures Ordinary(ts) <==> ts[0] != tkSEMI && Ordinary(ts[1..])
  {
    assert ts[..|ts| - 1] == [ts[0]] + ts[1..][..|ts| - 2];
  }

  // The state in the definition of a trigger, by its last two tokens.
  function InBody(b: Tokens): (r: nat)
    ensures r < 8
  {
    if b != [] && b[|b| - 1] == tkSEMI then SEMI
    else if |b| > 1 && b[|b| - 1] == tkEND && b[|b| - 2] == tkSEMI then END
    else TRIGGER
  }

  lemma InBodyNext(b: Tokens, tk: nat)
    requires tk < 8 && tk != tkWS && !EndsBody(b)
    ensures Trans(InBody(b), tk) == if EndsBody(b + [tk]) then START else InBody(b + [tk])
  {
  }

  // The first n tokens of a definition do not end it, and all of them do, for the
  // first time.
  ghost predicate EndsAfterOnly(all: Tokens, n: nat) {
    EndsBody(all) && forall k {:trigger all[..k]} :: n <= k < |all| ==> !EndsBody(all[..k])
  }

  lemma EndsLater(all: Tokens, n: nat)
    requires n < |all| && !EndsBody(all[..n])
    ensures EndsAfterOnly(all, n) <==> EndsAfterOnly(all, n + 1)
  {
  }

  lemma EndsNow(all: Tokens, n: nat)
    requires n < |all| && !EndsBody(all[..n]) && EndsBody(all[..n + 1])
    ensures EndsAfterOnly(all, n) <==> n + 1 == |all|
  {
    assert n + 1 == |all| ==> all[..n + 1] == all;
  }

  // With the first n tokens of the definition behind.
  lemma {:induction false} LeavesTrigger(all: Tokens, n: nat)
    requires tkWS !in all && n <= |all| && !EndsBody(all[..n])
    ensures Leaves(InBody(all[..n]), all[n..]) <==> EndsAfterOnly(all, n)
    decreases |all| - n
  {
    if n == |all| {
      assert all[..n] == all;
    } else {
      InBodyNext(all[..n], all[n]);
      assert all[..n] + [all[n]] == all[..n + 1] && all[n..][1..] == all[n + 1..];
      if EndsBody(all[..n + 1]) {
        EndsNow(all, n);
      } else {
        EndsLater(all, n);
        LeavesTrigger(all, n + 1);
        assert n + 1 == |all| ==> all[..n + 1] == all;
      }
    }
  }

  lemma LeavesBody(b: Tokens)
    requires tkWS !in b
    ensures Leaves(TRIGGER, b) <==> WholeBody(b)
  {
    LeavesTrigger(b, 0);
    assert b[0..] == b && InBody(b[..0]) == TRIGGER;
  }

  ghost predicate WholeRest(body: Option<Tokens>, ts: Tokens) {
    match body
    case Some(b) => WholeBody(b)
    case None => Ordinary(ts)
  }

  lemma {:induction false} LeavesCreate(ts: Tokens)
    requires tkWS !in ts
    ensures Leaves(CREATE, ts) <==> WholeRest(BehindCreate(ts), ts)
    decreases |ts|
  {
    assert |ts| == 1 ==> ts[1..] == [] && BehindCreate(ts[1..]).None?;
    if |ts| > 1 {
      OrdinaryRest(ts);
      if ts[0] == tkTEMP {
        LeavesCreate(ts[1..]);
      } else if ts[0] == tkTRIGGER {
        LeavesBody(ts[1..]);
      } else {
        LeavesNormal(ts[1..]);
      }
    }
  }

  lemma {:induction false} LeavesExplain(ts: Tokens)
    requires tkWS !in ts
    ensures Leaves(EXPLAIN, ts) <==> WholeRest(BehindExplain(ts), ts)
    decreases |ts|
  {
    assert |ts| == 1 ==> ts[1..] == [] && BehindCreate(ts[1..]).None? && BehindExplain(ts[1..]).None?;
    if |ts| > 1 {
      OrdinaryRest(ts);
      if ts[0] == tkOTHER {
        LeavesExplain(ts[1..]);
      } else if ts[0] == tkCREATE {
        LeavesCreate(ts[1..]);
      } else {
        LeavesNormal(ts[1..]);
      }
    }
  }

  // A statement is what leads from START to START again.
  lemma LeavesStart(ts: Tokens)
    requires tkWS !in ts
    ensures Leaves(START, ts) <==> Whole(ts)
  {
    if |ts| > 1 {
      OrdinaryRest(ts);
      if ts[0] == tkCREATE {
        LeavesCreate(ts[1..]);
      } else if ts[0] == tkEXPLAIN {
        LeavesExplain(ts[1..]);
      } else {
        LeavesNormal(ts[1..]);
      }
    }
  }

  // ---- one statement after the other -------------------------------------------------

  lemma {:induction false} FoldSignificant(state: nat, ts: Tokens)
    requires state < 8
    ensures Fold(state, ts) == Fold(state, Significant(ts))
    decreases |ts|
  {
    if ts != [] {
      var tk, rest: Tokens := ts[0], ts[1..];
      assert ts == [tk] + rest;
      FoldFirst(state, tk, rest);
      FoldSignificant(Trans(state, tk), rest);
      FoldFirst(state, tk, Significant(rest));
    }
  }

  lemma {:induction false} FoldLeaves(state: nat, ts: Tokens, n: nat)
    requires state < 8 && n <= |ts| && Leaves(state, ts[..n])
    ensures Fold(state, ts) == Fold(START, ts[n..])
    decreases n
  {
    hide Fold;
    var tk, rest: Tokens := ts[0], ts[1..];
    assert ts == [tk] + rest;
    FoldFirst(state, tk, rest);
    assert rest[n - 1..] == ts[n..] && ts[..n][1..] == rest[..n - 1];
    if n > 1 {
      FoldLeaves(Trans(state, tk), rest, n - 1);
    }
  }

  lemma {:induction false} FirstStatement(state: nat, ts: Tokens) returns (n: nat)
    requires state < 8 && ts != [] && Fold(state, ts) == START
    ensures 0 < n <= |ts| && Leaves(state, ts[..n])
    decreases |ts|
  {
    var tk, rest: Tokens := ts[0], ts[1..];
    assert ts == [tk] + rest;
    FoldFirst(state, tk, rest);
    if Trans(state, tk) == START {
      n := 1;
    } else {
      n := FirstStatement(Trans(state, tk), rest);
      assert ts[..n + 1][1..] == rest[..n];
      n := n + 1;
    }
  }

  lemma StatementThenRest(ts: Tokens, n: nat)
    requires tkWS !in ts && n <= |ts| && (Whole(ts[..n]) || Leaves(START, ts[..n]))
    ensures Whole(ts[..n]) && Fold(START, ts) == Fold(START, ts[n..]) && 0 < n
  {
    LeavesStart(ts[..n]);
    FoldLeaves(START, ts, n);
  }

  // The automaton is in START exactly after a sequence of whole statements.
  lemma {:induction false} StartIff(ts: Tokens)
    requires tkWS !in ts
    ensures Fold(START, ts) == START <==> Statements(ts)
    decreases |ts|
  {
    hide Whole, Fold, Leaves;
    if ts == [] {
      NothingFolded(START);
    } else if Fold(START, ts) == START {
      var n := FirstStatement(START, ts);
      StatementThenRest(ts, n);
      StartIff(ts[n..]);
    } else if Statements(ts) {
      var n :| 0 < n <= |ts| && Whole(ts[..n]) && Statements(ts[n..]);
      StatementThenRest(ts, n);
      StartIff(ts[n..]);
    }
  }

  lemma NothingFolded(state: nat)
    requires state < 8
    ensures Fold(state, []) == state
  {
  }

  lemma InvalidIsStart(ts: Tokens)
    requires tkWS !in ts
    ensures Fold(INVALID, ts) == if ts == [] then INVALID else Fold(START, ts)
  {
    if ts != [] {
      assert ts == [ts[0]] + ts[1..];
      FoldFirst(INVALID, ts[0], ts[1..]);
      FoldFirst(START, ts[0], ts[1..]);
    }
  }

  // Every text: complete exactly if it closes what it opens and consists of whole
  // statements, at least one.
  lemma CompleteIff(s: string, ts: Tokens)
    requires ts == Significant(TokensOf(s, 0))
    ensures Complete(s) <==> Ends(s, 0, INVALID) != InQuote && ts != [] && Statements(ts)
  {
    EndsIsFold(s, 0, INVALID);
    FoldSignificant(INVALID, TokensOf(s, 0));
    InvalidIsStart(ts);
    StartIff(ts);
  }

  // ---- the definition of a trigger ---------------------------------------------------

  lemma {:induction false} FoldCreate(ts: Tokens)
    requires BehindCreate(ts).Some?
    ensures Fold(CREATE, ts) == Fold(TRIGGER, BehindCreate(ts).value)
    decreases |ts|
  {
    assert ts == [ts[0]] + ts[1..];
    FoldFirst(CREATE, ts[0], ts[1..]);
    if ts[0] == tkTEMP {
      FoldCreate(ts[1..]);
    }
  }

  lemma {:induction false} FoldExplain(ts: Tokens)
    requires BehindExplain(ts).Some?
    ensures Fold(EXPLAIN, ts) == Fold(TRIGGER, BehindExplain(ts).value)
    decreases |ts|
  {
    assert ts == [ts[0]] + ts[1..];
    FoldFirst(EXPLAIN, ts[0], ts[1..]);
    if ts[0] == tkOTHER {
      FoldExplain(ts[1..]);
    } else {
      FoldCreate(ts[1..]);
    }
  }

  lemma {:induction false} BehindKeeps(ts: Tokens, tk: nat)
    requires tkWS !in ts
    ensures tkWS !in Behind(ts, tk)
    decreases |ts|
  {
    if ts != [] && ts[0] == tk {
      BehindKeeps(ts[1..], tk);
    }
  }

  lemma BodyKeeps(ts: Tokens)
    requires tkWS !in ts && Body(ts).Some?
    ensures tkWS !in Body(ts).value && Fold(START, ts) == Fold(TRIGGER, Body(ts).value)
  {
    var rest: Tokens := ts[1..];
    assert ts == [ts[0]] + rest;
    FoldFirst(START, ts[0], rest);
    if ts[0] == tkCREATE {
      FoldCreate(rest);
      BehindKeeps(rest, tkTEMP);
    } else {
      FoldExplain(rest);
      BehindKeeps(rest, tkOTHER);
      BehindKeeps(Behind(rest, tkOTHER)[1..], tkTEMP);
    }
  }

  lemma {:induction false} FoldBody(b: Tokens)
    requires tkWS !in b && forall k {:trigger b[..k]} :: 0 <= k < |b| ==> !EndsBody(b[..k])
    ensures Fold(TRIGGER, b) == if EndsBody(b) then START else InBody(b)
    decreases |b|
  {
    if b != [] {
      var front: Tokens := b[..|b| - 1];
      assert b == front + [b[|b| - 1]];
      assert forall k :: 0 <= k < |front| ==> front[..k] == b[..k];
      FoldBody(front);
      InBodyNext(front, b[|b| - 1]);
    }
  }

  // A text that begins with CREATE, any TEMPs and TRIGGER, perhaps explained, and in
  // which no trigger has ended yet: it is complete exactly if it closes what it opens
  // and ends with a semicolon, END and a semicolon.
  lemma TriggerComplete(s: string, ts: Tokens, b: Tokens)
    requires ts == Significant(TokensOf(s, 0)) && Body(ts) == Some(b)
    requires forall k {:trigger b[..k]} :: 0 <= k < |b| ==> !EndsBody(b[..k])
    ensures Complete(s) <==> Ends(s, 0, INVALID) != InQuote && EndsBody(b)
  {
    EndsIsFold(s, 0, INVALID);
    FoldSignificant(INVALID, TokensOf(s, 0));
    InvalidIsStart(ts);
    BodyKeeps(ts);
    FoldBody(b);
  }

  // ---- what the tokens are -----------------------------------------------------------

  // The letter, small or capital; capitals are 32 places before the small letters.
  predicate SameLetter(c: char, letter: char) {
    c == letter || ('a' <= letter <= 'z' && c as int + 32 == letter as int)
  }

  predicate InAnyCase(w: string, word: string) {
    |w| == |word| && forall k {:trigger w[k]} :: 0 <= k < |word| ==> SameLetter(w[k], word[k])
  }

  // A run of identifier characters.
  predicate IsWord(w: string) {
    w != "" && forall k {:trigger w[k]} :: 0 <= k < |w| ==> IsIdChar(w[k])
  }

  // A string, or an identifier in quotes or brackets.
  predicate IsQuoted(w: string) {
    |w| >= 2
    && (if w[0] == '[' then w[|w| - 1] == ']' && ']' !in w[1..|w| - 1]
        else w[0] in "`\"'" && w[|w| - 1] == w[0] && w[0] !in w[1..|w| - 1])
  }

  // A comment with its end.
  predicate IsComment(w: string) {
    || (|w| >= 4 && w[0] == '/' && w[1] == '*' && w[|w| - 2] == '*' && w[|w| - 1] == '/'
        && forall k {:trigger w[k]} :: 2 <= k < |w| - 2 ==> w[k] != '*' || w[k + 1] != '/')
    || (|w| >= 3 && w[0] == '-' && w[1] == '-' && w[|w| - 1] == '\n' && '\n' !in w[..|w| - 1])
  }

  predicate IsBlankChar(w: string) {
    |w| == 1 && w[0] in " \r\t\n\U{000C}"
  }

  // A semicolon, an operator or another special character.
  predicate IsSymbol(w: string) {
    |w| == 1 && !IsIdChar(w[0]) && w[0] !in "`\"'[" && w[0] !in " \r\t\n\U{000C}"
  }

  predicate IsItem(w: string) {
    IsWord(w) || IsQuoted(w) || IsComment(w) || IsBlankChar(w) || IsSymbol(w)
  }

  // What an item stands for.
  function ItemToken(w: string): (tk: nat)
    ensures tk < 8
  {
    if w == ";" then tkSEMI
    else if IsComment(w) || IsBlankChar(w) then tkWS
    else if InAnyCase(w, "explain") then tkEXPLAIN
    else if InAnyCase(w, "create") then tkCREATE
    else if InAnyCase(w, "temp") || InAnyCase(w, "temporary") then tkTEMP
    else if InAnyCase(w, "trigger") then tkTRIGGER
    else if InAnyCase(w, "end") then tkEND
    else tkOTHER
  }

  // The items with a blank after each.
  function Text(ws: seq<string>): string {
    if ws == [] then "" else ws[0] + " " + Text(ws[1..])
  }

  function ItemTokens(ws: seq<string>): (ts: Tokens)
    ensures |ts| == |ws| && forall k {:trigger ts[k]} :: 0 <= k < |ws| ==> ts[k] == ItemToken(ws[k])
  {
    seq(|ws|, k requires 0 <= k < |ws| => ItemToken(ws[k]))
  }

  // ---- how they are read ---------------------------------------------------------------

  lemma {:induction false} WordEnds(w: string, rest: string, i: nat)
    requires i <= |w| && forall k {:trigger w[k]} :: 0 <= k < |w| ==> IsIdChar(w[k])
    ensures IdEnd(w + " " + rest, i) == |w|
    decreases |w| - i
  {
    var s := w + " " + rest;
    assert s[|w|] == ' ' && forall k :: 0 <= k < |w| ==> s[k] == w[k];
    if i < |w| {
      WordEnds(w, rest, i + 1);
    }
  }

  lemma WordMatches(w: string, rest: string, word: string)
    requires |w| == |word| && forall k {:trigger word[k]} :: 0 <= k < |word| ==> 'a' <= word[k] <= 'z'
    ensures Matches(w + " " + rest, 0, word) <==> InAnyCase(w, word)
  {
    var s := w + " " + rest;
    forall k | 0 <= k < |word|
      ensures LowerChar(CharAt(s, 0 + k)) == word[k] <==> SameLetter(w[k], word[k])
    {
      assert CharAt(s, 0 + k) == w[k];
    }
    if Matches(s, 0, word) {
      forall k | 0 <= k < |word|
        ensures SameLetter(w[k], word[k])
      {
        assert LowerChar(CharAt(s, 0 + k)) == word[k];
      }
    }
  }

  lemma WordKeyword(w: string, rest: string)
    requires IsWord(w)
    ensures Keyword(w + " " + rest, 0, |w|) == ItemToken(w)
  {
    hide Matches, InAnyCase;
    assert IsIdChar(w[0]);
    if |w| == 6 { WordMatches(w, rest, "create"); }
    if |w| == 7 { WordMatches(w, rest, "trigger"); WordMatches(w, rest, "explain"); NotBoth(w); }
    if |w| == 4 { WordMatches(w, rest, "temp"); }
    if |w| == 9 { WordMatches(w, rest, "temporary"); }
    if |w| == 3 { WordMatches(w, rest, "end"); }
    SizesDiffer(w);
  }

  lemma NotBoth(w: string)
    ensures !(InAnyCase(w, "trigger") && InAnyCase(w, "explain"))
  {
    if |w| == 7 {
      assert "trigger"[0] == 't' && "explain"[0] == 'e';
      assert InAnyCase(w, "trigger") ==> SameLetter(w[0], "trigger"[0]);
      assert InAnyCase(w, "explain") ==> SameLetter(w[0], "explain"[0]);
    }
  }

  lemma SizesDiffer(w: string)
    ensures InAnyCase(w, "create") ==> |w| == 6
    ensures InAnyCase(w, "trigger") || InAnyCase(w, "explain") ==> |w| == 7
    ensures InAnyCase(w, "temp") ==> |w| == 4
    ensures InAnyCase(w, "temporary") ==> |w| == 9
    ensures InAnyCase(w, "end") ==> |w| == 3
  {
  }

  lemma {:induction false} FindIs(s: string, i: nat, c: char, j: nat)
    requires i <= j <= |s| && (j < |s| ==> s[j] == c) && forall k {:trigger s[k]} :: i <= k < j ==> s[k] != c
    ensures Find(s, i, c) == j
    decreases j - i
  {
    if i < j {
      FindIs(s, i + 1, c, j);
    }
  }

  lemma {:induction false} FindCloseIs(s: string, i: nat, j: nat)
    requires i <= j <= |s| && (j < |s| ==> s[j] == '*' && CharAt(s, j + 1) == '/')
    requires forall k {:trigger s[k]} :: i <= k < j ==> s[k] != '*' || CharAt(s, k + 1) != '/'
    ensures FindClose(s, i) == j
    decreases j - i
  {
    if i < j {
      FindCloseIs(s, i + 1, j);
    }
  }

  lemma QuotedRead(w: string, s: string)
    requires IsQuoted(w) && |w| <= |s| && forall k {:trigger s[k]} :: 0 <= k < |w| ==> s[k] == w[k]
    ensures NextToken(s, 0) == Token(tkOTHER, |w|)
  {
    var c := if w[0] == '[' then ']' else w[0];
    forall k {:trigger s[k]} | 1 <= k < |w| - 1
      ensures s[k] != c
    {
      assert s[k] == w[1..|w| - 1][k - 1];
    }
    FindIs(s, 1, c, |w| - 1);
  }

  lemma CommentRead(w: string, s: string)
    requires IsComment(w) && |w| <= |s| && forall k {:trigger s[k]} :: 0 <= k < |w| ==> s[k] == w[k]
    ensures NextToken(s, 0) == Token(tkWS, |w|)
  {
    assert s[0] == w[0] && s[1] == w[1];
    if w[0] == '/' {
      FindCloseIs(s, 2, |w| - 2);
    } else {
      forall k {:trigger s[k]} | 0 <= k < |w| - 1
        ensures s[k] != '\n'
      {
        assert s[k] == w[..|w| - 1][k];
      }
      FindIs(s, 0, '\n', |w| - 1);
    }
  }

  // A keyword has no other characters than letters.
  lemma NoKeyword(w: string)
    requires w != "" && !IsIdChar(w[0])
    ensures !InAnyCase(w, "explain") && !InAnyCase(w, "create") && !InAnyCase(w, "temp") && !InAnyCase(w, "temporary")
    ensures !InAnyCase(w, "trigger") && !InAnyCase(w, "end")
  {
    assert "explain"[0] == 'e' && "create"[0] == 'c' && "temp"[0] == 't' && "temporary"[0] == 't';
    assert "trigger"[0] == 't' && "end"[0] == 'e';
  }

  // The first item of a text is read as what it stands for.
  lemma ItemRead(w: string, rest: string)
    requires IsItem(w)
    ensures NextToken(w + " " + rest, 0) == Token(ItemToken(w), |w|)
    ensures NextToken(w + " " + rest, |w|) == Token(tkWS, |w| + 1)
  {
    hide InAnyCase;
    var s := w + " " + rest;
    assert s[|w|] == ' ' && s[0] == w[0] && forall k :: 0 <= k < |w| ==> s[k] == w[k];
    if IsWord(w) {
      WordEnds(w, rest, 1);
      WordKeyword(w, rest);
    } else if IsQuoted(w) {
      QuotedRead(w, s);
      NoKeyword(w);
    } else if IsComment(w) {
      CommentRead(w, s);
    } else {
      NoKeyword(w);
    }
  }

  lemma {:induction false} TokensAfter(a: string, b: string, i: nat)
    requires i <= |b|
    ensures TokensOf(a + b, |a| + i) == TokensOf(b, i)
    decreases |b| - i
  {
    if i < |b| {
      TokenAfter(a, b, i);
      var l := NextToken(b, i);
      if l.Token? {
        TokensAfter(a, b, l.next);
      }
    }
  }

  // An item and a blank are read, and then the rest.
  lemma ItemFirst(w: string, rest: string, state: nat)
    requires IsItem(w) && state < 8
    ensures TokensOf(w + " " + rest, 0) == [ItemToken(w)] + ([tkWS] + TokensOf(rest, 0))
    ensures Ends(w + " " + rest, 0, state) == Ends(rest, 0, Trans(Trans(state, ItemToken(w)), tkWS))
  {
    hide ItemToken, Trans;
    var a, s := w + " ", w + " " + rest;
    ItemRead(w, rest);
    TokensAfter(a, rest, 0);
    EndsAfter(a, rest, 0, Trans(Trans(state, ItemToken(w)), tkWS));
    assert TokensOf(s, |w|) == [tkWS] + TokensOf(s, |w| + 1);
    assert TokensOf(s, 0) == [ItemToken(w)] + TokensOf(s, |w|);
  }

  lemma StaysOnBlank(state: nat)
    requires state < 8
    ensures Trans(state, tkWS) == state
  {
  }

  // The items are read one after the other, and then what follows them.
  lemma {:induction false} ItemsRead(ws: seq<string>, open: string, state: nat)
    requires (forall k {:trigger ws[k]} :: 0 <= k < |ws| ==> IsItem(ws[k])) && state < 8
    ensures Significant(TokensOf(Text(ws), 0)) == Significant(ItemTokens(ws))
    ensures Ends(Text(ws) + open, 0, state) == Ends(open, 0, Fold(state, ItemTokens(ws)))
  {
    hide ItemToken, Trans, IsItem, Fold;
    if ws == [] {
      assert Text(ws) + open == open && ItemTokens(ws) == [];
      NothingFolded(state);
    } else {
      var w, rest, tk := ws[0], Text(ws[1..]), ItemToken(ws[0]);
      ItemFirst(w, rest, state);
      ItemFirst(w, rest + open, state);
      StaysOnBlank(Trans(state, tk));
      assert Text(ws) + open == w + " " + (rest + open);
      ItemsRead(ws[1..], open, Trans(state, tk));
      SignificantNext(tk, TokensOf(rest, 0), ItemTokens(ws[1..]));
      assert ItemTokens(ws) == [tk] + ItemTokens(ws[1..]);
      FoldFirst(state, tk, ItemTokens(ws[1..]));
    }
  }

  lemma SignificantNext(tk: nat, a: Tokens, b: Tokens)
    requires tk < 8 && Significant(a) == Significant(b)
    ensures Significant([tk] + ([tkWS] + a)) == Significant([tk] + b)
  {
    var u: Tokens := [tkWS] + a;
    assert u[1..] == a && ([tk] + u)[1..] == u && ([tk] + b)[1..] == b;
  }

  // A text of items: keywords count in any case, and not in quotes or comments.
  lemma ItemsComplete(ws: seq<string>, ts: Tokens)
    requires (forall k {:trigger ws[k]} :: 0 <= k < |ws| ==> IsItem(ws[k])) && ts == Significant(ItemTokens(ws))
    ensures Complete(Text(ws)) <==> ts != [] && Statements(ts)
  {
    ItemsRead(ws, "", INVALID);
    assert Text(ws) + "" == Text(ws);
    CompleteIff(Text(ws), ts);
  }

  // Quotes, brackets or a comment that the text does not close.
  predicate IsOpen(w: string) {
    && w != ""
    && if w[0] == '[' then ']' !in w[1..]
       else if w[0] == '/' then
         |w| > 1 && w[1] == '*' && forall k {:trigger w[k]} :: 2 <= k < |w| - 1 ==> w[k] != '*' || w[k + 1] != '/'
       else w[0] in "`\"'" && w[0] !in w[1..]
  }

  lemma OpenRead(w: string, state: nat)
    requires IsOpen(w) && state < 8
    ensures Ends(w, 0, state) == InQuote
  {
    if w[0] == '/' {
      FindCloseIs(w, 2, |w|);
    } else {
      var c := if w[0] == '[' then ']' else w[0];
      forall k {:trigger w[k]} | 1 <= k < |w|
        ensures w[k] != c
      {
        assert w[k] == w[1..][k - 1];
      }
      FindIs(w, 1, c, |w|);
    }
  }

  // With such an end no text is complete;
  lemma OpenIncomplete(ws: seq<string>, w: string)
    requires (forall k {:trigger ws[k]} :: 0 <= k < |ws| ==> IsItem(ws[k])) && IsOpen(w)
    ensures !Complete(Text(ws) + w)
  {
    hide Text, ItemTokens, IsItem, IsOpen, Fold, Ends;
    ItemsRead(ws, w, INVALID);
    OpenRead(w, Fold(INVALID, ItemTokens(ws)));
  }

  predicate IsOpenLine(w: string) {
    |w| >= 2 && w[0] == '-' && w[1] == '-' && '\n' !in w
  }

  lemma LineRead(w: string, state: nat)
    requires IsOpenLine(w) && state < 8
    ensures Ends(w, 0, state) == InLine(state)
  {
    FindIs(w, 0, '\n', |w|);
  }

  lemma NothingLeft(state: nat)
    requires state < 8
    ensures Ends("", 0, state) == At(state)
  {
  }

  // but a comment to the end of the line need not be closed.
  lemma LineComplete(ws: seq<string>, w: string)
    requires (forall k {:trigger ws[k]} :: 0 <= k < |ws| ==> IsItem(ws[k])) && IsOpenLine(w)
    ensures Complete(Text(ws) + w) <==> Complete(Text(ws))
  {
    hide Text, ItemTokens, IsItem, IsOpenLine, Fold, Ends;
    ItemsRead(ws, w, INVALID);
    ItemsRead(ws, "", INVALID);
    assert Text(ws) + "" == Text(ws);
    LineRead(w, Fold(INVALID, ItemTokens(ws)));
    NothingLeft(Fold(INVALID, ItemTokens(ws)));
  }
}
