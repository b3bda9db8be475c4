// How well a function definition matches a call, and the best match in a list.
module FunctionMatch {
  const FUNC_PERFECT_MATCH: nat := 6

  // The second bit of an encoding: UTF-16 of either byte order.
  predicate IsUtf16(flags: nat) {
    flags / 2 % 2 == 1
  }

  // matchQuality(), for a definition of nArgDef arguments (-1 for any number).
  function Score(nArgDef: int, funcFlags: nat, callable: bool, nArg: int, enc: nat): (r: nat)
    ensures r <= FUNC_PERFECT_MATCH
  {
    if nArg == -2 then if callable then FUNC_PERFECT_MATCH else 0
    else if nArgDef != nArg && nArgDef >= 0 then 0
    else
      var match_ := if nArgDef == nArg then 4 else 1;
      if enc == funcFlags % 4 then match_ + 2
      else if IsUtf16(enc) && IsUtf16(funcFlags) then match_ + 1
      else match_
  }

  // What the scores mean.
  lemma ScoreMeans(nArgDef: int, funcFlags: nat, callable: bool, nArg: int, enc: nat)
    requires nArg >= -1 && nArgDef >= -1 && enc < 4
    ensures Score(nArgDef, funcFlags, callable, nArg, enc) > 0 <==> nArgDef == nArg || nArgDef == -1
    ensures Score(nArgDef, funcFlags, callable, nArg, enc) >= 4 <==> nArgDef == nArg
    ensures Score(nArgDef, funcFlags, callable, nArg, enc) == FUNC_PERFECT_MATCH <==>
              nArgDef == nArg && funcFlags % 4 == enc
  {
  }

  const SQLITE_UTF8: nat := 1
  const SQLITE_UTF16LE: nat := 2
  const SQLITE_UTF16BE: nat := 3

  // The table of scores, for the three encodings: 3 or 6 if they are the same, 2 or 5
  // if only the byte order differs, 1 or 4 if one is UTF-8 and the other is not.
  lemma ScoreTable(nArgDef: int, funcFlags: nat, callable: bool, nArg: int, enc: nat, e: nat, r: nat)
    requires nArgDef >= -1 && e == funcFlags % 4 && r == Score(nArgDef, funcFlags, callable, nArg, enc)
    requires {e, enc} <= {SQLITE_UTF8, SQLITE_UTF16LE, SQLITE_UTF16BE}
    ensures nArg == -2 ==> r == if callable then 6 else 0
    ensures nArg >= -1 ==>
              && (r == 0 <==> nArgDef != nArg && nArgDef != -1)
              && (r in {3, 6} <==> r > 0 && enc == e)
              && (r in {2, 5} <==> r > 0 && {enc, e} == {SQLITE_UTF16LE, SQLITE_UTF16BE})
              && (r in {1, 4} <==> r > 0 && enc != e && (enc == SQLITE_UTF8 || e == SQLITE_UTF8))
              && (r >= 4 <==> nArgDef == nArg)
  {
    var u := {enc, e};
    if enc != e && enc != SQLITE_UTF8 && e != SQLITE_UTF8 {
      assert u == {SQLITE_UTF16LE, SQLITE_UTF16BE};
    } else {
      assert SQLITE_UTF16LE !in u || SQLITE_UTF16BE !in u || SQLITE_UTF8 in u;
      assert SQLITE_UTF8 !in {SQLITE_UTF16LE, SQLITE_UTF16BE};
      assert SQLITE_UTF16LE in {SQLITE_UTF16LE, SQLITE_UTF16BE} && SQLITE_UTF16BE in {SQLITE_UTF16LE, SQLITE_UTF16BE};
    }
  }

  // Any definition that has the right number of arguments beats any that takes
  // an arbitrary number, whatever the encodings.
  lemma ExactCountWins(flags1: nat, flags2: nat, c1: bool, c2: bool, nArg: int, enc: nat)
    requires nArg >= 0
    ensures Score(nArg, flags1, c1, nArg, enc) > Score(-1, flags2, c2, nArg, enc) > 0
  {
  }

  // The value of an argument count stored in a signed byte.
  function AsI8(n: int): (r: int)
    ensures -128 <= r < 128
    ensures -128 <= n < 128 ==> r == n
  {
    if n % 256 >= 128 then n % 256 - 256 else n % 256
  }

  // A definition created for a request is a perfect match for the same request,
  // provided the encoding fits its two bits and the argument count its byte.
  lemma CreatedIsPerfect(nArg: int, enc: nat, callable: bool)
    requires nArg >= -1
    ensures Score(AsI8(nArg), enc, callable, nArg, enc) == FUNC_PERFECT_MATCH <==> enc < 4 && nArg < 128
  {
  }

  // Place k of a list of scores is the first with the highest score, above zero.
  predicate IsFirstBest(scores: seq<nat>, k: nat) {
    && k < |scores| && scores[k] > 0
    && (forall j {:trigger scores[j]} :: 0 <= j < |scores| ==>
        scores[j] <= scores[k] && (j < k ==> scores[j] < scores[k]))
  }

  // No place has a score above zero.
  predicate NoneMatches(scores: seq<nat>) {
    forall j {:trigger scores[j]} :: 0 <= j < |scores| ==> scores[j] == 0
  }

  // The place that the loop over a list settles on, or the length of the list.
  function FirstBest(scores: seq<nat>): (k: nat)
    ensures if k == |scores| then NoneMatches(scores) else IsFirstBest(scores, k)
  {
    if scores == [] then 0
    else
      var front := scores[..|scores| - 1];
      var last := scores[|scores| - 1];
      var k := FirstBest(front);
      if k < |front| then if last > scores[k] then |front| else k
      else if last > 0 then |front| else |scores|
  }

  lemma FirstBestUnique(scores: seq<nat>, k: nat)
    requires IsFirstBest(scores, k)
    ensures FirstBest(scores) == k
  {
    assert scores[k] > 0;
    assert FirstBest(scores) < |scores|;
  }

  // One more score.
  lemma FirstBestNext(scores: seq<nat>, n: nat)
    requires n < |scores|
    ensures FirstBest(scores[..n + 1]) ==
            if FirstBest(scores[..n]) < n then if scores[n] > scores[FirstBest(scores[..n])] then n
              else FirstBest(scores[..n])
            else if scores[n] > 0 then n else n + 1
  {
    assert scores[..n + 1][..n] == scores[..n];
  }
}
