// sqlite3_complete(): the scanner that cuts the text into tokens and the
// automaton that decides whether the last statement is finished.
module CompleteScan {
  import opened Chars

  const tkSEMI: nat := 0
  const tkWS: nat := 1
  const tkOTHER: nat := 2
  const tkEXPLAIN: nat := 3
  const tkCREATE: nat := 4
  const tkTEMP: nat := 5
  const tkTRIGGER: nat := 6
  const tkEND: nat := 7

  const INVALID: nat := 0
  const START: nat := 1
  const NORMAL: nat := 2
  const EXPLAIN: nat := 3
  const CREATE: nat := 4
  const TRIGGER: nat := 5
  const SEMI: nat := 6
  const END: nat := 7

  // The table trans.
  const TRANS: seq<seq<nat>> := [
    [1, 0, 2, 3, 4, 2, 2, 2],
    [1, 1, 2, 3, 4, 2, 2, 2],
    [1, 2, 2, 2, 2, 2, 2, 2],
    [1, 3, 3, 2, 4, 2, 2, 2],
    [1, 4, 2, 2, 2, 4, 5, 2],
    [6, 5, 5, 5, 5, 5, 5, 5],
    [6, 6, 5, 5, 5, 5, 5, 7],
    [1, 7, 5, 5, 5, 5, 5, 5]]

  function Trans(state: nat, token: nat): (r: nat)
    requires state < 8 && token < 8
    ensures r < 8
  {
    TRANS[state][token]
  }

  // ---- the scanner --------------------------------------------------------------

  // sqlite3StrNICmp() finds the first |word| characters at i equal to the word.
  predicate Matches(s: string, i: nat, word: string) {
    forall k {:trigger word[k]} :: 0 <= k < |word| ==> LowerChar(CharAt(s, i + k)) == word[k]
  }

  // The end of the run of identifier characters at i.
  function IdEnd(s: string, i: nat): (j: nat)
    requires i <= |s|
    ensures i <= j <= |s|
    decreases |s| - i
  {
    if i < |s| && IsIdChar(s[i]) then IdEnd(s, i + 1) else i
  }

  // The first place from i on where c stands, or the end.
  function Find(s: string, i: nat, c: char): (j: nat)
    requires i <= |s|
    ensures i <= j <= |s| && (j < |s| ==> s[j] == c)
    decreases |s| - i
  {
    if i < |s| && s[i] != c then Find(s, i + 1, c) else i
  }

  // The first place from i on where a comment closes, or the end.
  function FindClose(s: string, i: nat): (j: nat)
    requires i <= |s|
    ensures i <= j <= |s| && (j < |s| ==> j + 2 <= |s| && s[j] == '*' && s[j + 1] == '/')
    decreases |s| - i
  {
    if i < |s| && (s[i] != '*' || CharAt(s, i + 1) != '/') then FindClose(s, i + 1) else i
  }

  function Keyword(s: string, i: nat, nId: nat): (tk: nat)
    ensures tk < 8 && tk != tkSEMI && tk != tkWS
  {
    if nId == 6 && Matches(s, i, "create") then tkCREATE
    else if nId == 7 && Matches(s, i, "trigger") then tkTRIGGER
    else if nId == 4 && Matches(s, i, "temp") then tkTEMP
    else if nId == 9 && Matches(s, i, "temporary") then tkTEMP
    else if nId == 3 && Matches(s, i, "end") then tkEND
    else if nId == 7 && Matches(s, i, "explain") then tkEXPLAIN
    else tkOTHER
  }

  // A token and where the text goes on; or a construct that the text does not
  // close; or a comment that runs to the end of the text.
  datatype Lexeme = Token(tk: nat, next: nat) | Unclosed | OpenLine

  predicate IsSpace(c: char) {
    c == ' ' || c == '\r' || c == '\t' || c == '\n' || c == '\U{000C}'
  }

  predicate IsQuote(c: char) {
    c == '`' || c == '"' || c == '\''
  }

  function NextToken(s: string, i: nat): (l: Lexeme)
    requires i < |s|
    ensures l.Token? ==> l.tk < 8 && i < l.next <= |s|
  {
    var c := s[i];
    if c == ';' then Token(tkSEMI, i + 1)
    else if IsSpace(c) then Token(tkWS, i + 1)
    else if c == '/' then
      if CharAt(s, i + 1) != '*' then Token(tkOTHER, i + 1)
      else
        var j := FindClose(s, i + 2);
        if j == |s| then Unclosed else Token(tkWS, j + 2)
    else if c == '-' then
      if CharAt(s, i + 1) != '-' then Token(tkOTHER, i + 1)
      else
        var j := Find(s, i, '\n');
        if j == |s| then OpenLine else Token(tkWS, j + 1)
    else if c == '[' then
      var j := Find(s, i + 1, ']');
      if j == |s| then Unclosed else Token(tkOTHER, j + 1)
    else if IsQuote(c) then
      var j := Find(s, i + 1, c);
      if j == |s| then Unclosed else Token(tkOTHER, j + 1)
    else if IsIdChar(c) then Token(Keyword(s, i, IdEnd(s, i + 1) - i), IdEnd(s, i + 1))
    else Token(tkOTHER, i + 1)
  }

  // ---- the automaton -------------------------------------------------------------

  // How the text from i on ends, in which state.
  datatype Ending = At(state: nat) | InQuote | InLine(state: nat)

  function Ends(s: string, i: nat, state: nat): (e: Ending)
    requires i <= |s| && state < 8
    decreases |s| - i
  {
    if i == |s| then At(state)
    else
      match NextToken(s, i)
      case Token(tk, next) => Ends(s, next, Trans(state, tk))
      case Unclosed => InQuote
      case OpenLine => InLine(state)
  }

  predicate Finished(e: Ending) {
    e == At(START) || e == InLine(START)
  }

  predicate Complete(s: string) {
    Finished(Ends(s, 0, INVALID))
  }

  // sqlite3_complete()
  method SqliteComplete(zSql: string) returns (r: bool)
    ensures r == Complete(zSql)
  {
    var state, z := INVALID, 0;
    while z < |zSql|
      invariant z <= |zSql| && state < 8
      invariant Complete(zSql) == Finished(Ends(zSql, z, state))
      decreases |zSql| - z
    {
      var l := Scan(zSql, z);
      match l {
        case Token(tk, next) => state, z := Trans(state, tk), next;
        case Unclosed => return false;
        case OpenLine => return state == START;
      }
    }
    r := state == START;
  }

  // The switch on the character at z.
  method Scan(zSql: string, z: nat) returns (l: Lexeme)
    requires z < |zSql|
    ensures l == NextToken(zSql, z)
  {
    var c := zSql[z];
    if c == ';' {
      l := Token(tkSEMI, z + 1);
    } else if IsSpace(c) {
      l := Token(tkWS, z + 1);
    } else if c == '/' {
      l := ScanComment(zSql, z);
    } else if c == '-' {
      if CharAt(zSql, z + 1) != '-' {
        l := Token(tkOTHER, z + 1);
      } else {
        var j := SkipTo(zSql, z, '\n');
        l := if j == |zSql| then OpenLine else Token(tkWS, j + 1);
      }
    } else if c == '[' || IsQuote(c) {
      var j := SkipTo(zSql, z + 1, if c == '[' then ']' else c);
      l := if j == |zSql| then Unclosed else Token(tkOTHER, j + 1);
    } else if IsIdChar(c) {
      var j := SkipId(zSql, z + 1);
      l := Token(Keyword(zSql, z, j - z), j);
    } else {
      l := Token(tkOTHER, z + 1);
    }
  }

  method ScanComment(zSql: string, z: nat) returns (l: Lexeme)
    requires z < |zSql| && zSql[z] == '/'
    ensures l == NextToken(zSql, z)
  {
    if CharAt(zSql, z + 1) != '*' {
      return Token(tkOTHER, z + 1);
    }
    var j := z + 2;
    while j < |zSql| && (zSql[j] != '*' || CharAt(zSql, j + 1) != '/')
      invariant z + 2 <= j <= |zSql| && FindClose(zSql, z + 2) == FindClose(zSql, j)
    {
      j := j + 1;
    }
    l := if j == |zSql| then Unclosed else Token(tkWS, j + 2);
  }

  method SkipId(zSql: string, i: nat) returns (j: nat)
    requires i <= |zSql|
    ensures j == IdEnd(zSql, i)
  {
    j := i;
    while IsIdChar(CharAt(zSql, j))
      invariant i <= j <= |zSql| && IdEnd(zSql, i) == IdEnd(zSql, j)
      decreases |zSql| - j
    {
      j := j + 1;
    }
  }

  // The inner loops: the first place from i on where c stands, or the end.
  method SkipTo(zSql: string, i: nat, c: char) returns (z: nat)
    requires i <= |zSql|
    ensures z == Find(zSql, i, c)
  {
    z := i;
    while z < |zSql| && zSql[z] != c
      invariant i <= z <= |zSql| && Find(zSql, i, c) == Find(zSql, z, c)
    {
      z := z + 1;
    }
  }
}
