// What stands in the edited statement at the place of a token: the new name, plain
// or in double quotes.  A quoted name is read back as it was given, unless a double
// quote follows it directly.
module RenameNames {
  import opened Wrappers
  import opened Chars
  import opened RenameModel

  // ---- reading a name -----------------------------------------------------------------

  function Prepend(c: char, r: Option<(string, string)>): Option<(string, string)> {
    match r
    case None => None
    case Some((name, rest)) => Some(([c] + name, rest))
  }

  // The name whose opening quote has been read, with doubled quotes undone, and what
  // follows its closing quote; nothing if it is not closed.
  function Dequoted(s: string): Option<(string, string)> {
    if s == "" then None
    else if s[0] != '"' then Prepend(s[0], Dequoted(s[1..]))
    else if |s| > 1 && s[1] == '"' then Prepend('"', Dequoted(s[2..]))
    else Some(("", s[1..]))
  }

  // The longest run of identifier characters, and what follows.
  function Plain(s: string): (string, string) {
    if s == "" || !IsIdChar(s[0]) then ("", s) else ([s[0]] + Plain(s[1..]).0, Plain(s[1..]).1)
  }

  // An identifier in double quotes or without.
  function ReadName(s: string): Option<(string, string)> {
    if s != "" && s[0] == '"' then Dequoted(s[1..]) else Some(Plain(s))
  }

  // ---- quoted names -------------------------------------------------------------------

  lemma {:induction false} EscapedFirst(c: char, name: string)
    ensures Escaped([c] + name) == (if c == '"' then "\"\"" else [c]) + Escaped(name)
  {
    var all := [c] + name;
    if name == "" {
      assert all == [c] && all[..0] == "" && Escaped("") == "";
    } else {
      EscapedFirst(c, name[..|name| - 1]);
      assert all[..|all| - 1] == [c] + name[..|name| - 1];
    }
  }

  function Before(name: string, r: Option<(string, string)>): Option<(string, string)> {
    match r
    case None => None
    case Some((more, rest)) => Some((name + more, rest))
  }

  // Reading undoes the doubling of the quotes.
  lemma {:induction false} EscapedRead(name: string, tail: string)
    ensures Dequoted(Escaped(name) + tail) == Before(name, Dequoted(tail))
  {
    if name == "" {
      assert Escaped(name) + tail == tail;
      assert forall more: string :: "" + more == more;
    } else {
      var c, rest := name[0], name[1..];
      assert name == [c] + rest;
      EscapedFirst(c, rest);
      EscapedRead(rest, tail);
      FirstRead(c, Escaped(rest) + tail, Escaped(name) + tail);
      PrependBefore(c, rest, Dequoted(tail));
    }
  }

  lemma FirstRead(c: char, rest: string, s: string)
    requires s == (if c == '"' then "\"\"" else [c]) + rest
    ensures Dequoted(s) == Prepend(c, Dequoted(rest))
  {
    if c == '"' {
      assert s[2..] == rest;
    } else {
      assert s[1..] == rest;
    }
  }

  lemma PrependBefore(c: char, rest: string, r: Option<(string, string)>)
    ensures Prepend(c, Before(rest, r)) == Before([c] + rest, r)
  {
    if r.Some? {
      assert [c] + (rest + r.value.0) == ([c] + rest) + r.value.0;
    }
  }

  // A quoted name reads as the name exactly if no double quote follows.
  lemma QuotedReads(name: string, rest: string)
    ensures ReadName(Quoted(name) + rest) == Some((name, rest)) <==> rest == "" || rest[0] != '"'
  {
    var tail := "\"" + rest;
    var s := Quoted(name) + rest;
    assert s[0] == '"' && s[1..] == Escaped(name) + tail;
    EscapedRead(name, tail);
    assert ReadName(s) == Before(name, Dequoted(tail));
    if rest != "" && rest[0] == '"' {
      RunsOn(name, tail);
    } else {
      assert tail[1..] == rest && name + "" == name;
      assert Dequoted(tail) == Some(("", rest));
    }
  }

  // After a doubled quote the name is longer.
  lemma RunsOn(name: string, tail: string)
    requires |tail| > 1 && tail[0] == '"' && tail[1] == '"'
    ensures Before(name, Dequoted(tail)).Some? ==> |Before(name, Dequoted(tail)).value.0| > |name|
  {
    assert Dequoted(tail) == Prepend('"', Dequoted(tail[2..]));
  }

  predicate IsPlain(name: string) {
    name != "" && forall k {:trigger name[k]} :: 0 <= k < |name| ==> IsIdChar(name[k])
  }

  lemma {:induction false} PlainRun(name: string, rest: string)
    requires forall k {:trigger name[k]} :: 0 <= k < |name| ==> IsIdChar(name[k])
    ensures Plain(name + rest) == (name + Plain(rest).0, Plain(rest).1)
  {
    if name == "" {
      assert name + rest == rest && "" + Plain(rest).0 == Plain(rest).0;
    } else {
      PlainRun(name[1..], rest);
      assert (name + rest)[1..] == name[1..] + rest && (name + rest)[0] == name[0] && IsIdChar(name[0]);
      assert [name[0]] + (name[1..] + Plain(rest).0) == name + Plain(rest).0;
    }
  }

  // A plain name reads as itself exactly if no identifier character follows.
  lemma PlainReads(name: string, rest: string)
    requires IsPlain(name)
    ensures ReadName(name + rest) == Some((name, rest)) <==> rest == "" || !IsIdChar(rest[0])
  {
    PlainRun(name, rest);
    assert (name + rest)[0] == name[0] && IsIdChar(name[0]);
    if rest != "" && IsIdChar(rest[0]) {
      assert |Plain(rest).0| > 0;
    } else {
      assert name + "" == name;
    }
  }

  // ---- places in the edited statement ---------------------------------------------------

  predicate EndsWith(s: string, tail: string) {
    |tail| <= |s| && s[|s| - |tail|..] == tail
  }

  lemma EndsWithMore(a: string, s: string, tail: string)
    requires EndsWith(s, tail)
    ensures EndsWith(a + s, tail)
  {
    assert (a + s)[|a + s| - |tail|..] == s[|s| - |tail|..];
  }

  // No token has begun before position i and goes on there.
  ghost predicate Between(toks: set<Span>, i: nat) {
    forall t {:trigger t in toks} :: t in toks ==> t.z >= i || t.z + t.n <= i
  }

  // The edited text from one position on ends with the edited text from a later one.
  lemma {:induction false} LaterEnds(sql: string, toks: set<Span>, zNew: string, bQuote: bool, i: nat, j: nat)
    requires Separate(sql, toks) && i <= j <= |sql| && Between(toks, j)
    ensures EndsWith(Replaced(sql, toks, zNew, bQuote, i), Replaced(sql, toks, zNew, bQuote, j))
    decreases j - i
  {
    hide Replaced, Replacement, EndsWith;
    if i == j {
      EndsWithItself(Replaced(sql, toks, zNew, bQuote, i));
    } else if StartsAt(toks, i) {
      var t := TokenAt(toks, i);
      TokenIs(sql, toks, t);
      ReplacedToken(sql, toks, zNew, bQuote, t);
      LaterEnds(sql, toks, zNew, bQuote, i + t.n, j);
      EndsWithMore(Replacement(sql, t, zNew, bQuote), Replaced(sql, toks, zNew, bQuote, i + t.n),
                   Replaced(sql, toks, zNew, bQuote, j));
    } else {
      ReplacedChar(sql, toks, zNew, bQuote, i);
      LaterEnds(sql, toks, zNew, bQuote, i + 1, j);
      EndsWithMore([sql[i]], Replaced(sql, toks, zNew, bQuote, i + 1), Replaced(sql, toks, zNew, bQuote, j));
    }
  }

  lemma EndsWithItself(s: string)
    ensures EndsWith(s, s)
  {
  }

  lemma TokenBetween(sql: string, toks: set<Span>, t: Span)
    requires Separate(sql, toks) && t in toks
    ensures Between(toks, t.z) && Between(toks, t.z + t.n) && t.z + t.n <= |sql| && t.z < |sql|
  {
    assert t.n > 0;
    forall u | u in toks
      ensures u.z >= t.z || u.z + u.n <= t.z
      ensures u.z >= t.z + t.n || u.z + u.n <= t.z + t.n
    {
      assert u.n > 0 && Apart(t, u);
    }
  }

  // The name is put in quotes.
  predicate IsQuotedAt(sql: string, i: nat, bQuote: bool) {
    bQuote || !IsIdChar(CharAt(sql, i))
  }

  // A double quote follows the token directly, in the edited statement: it was there,
  // or another token follows whose new name is put in quotes.
  ghost predicate QuoteBehind(sql: string, toks: set<Span>, bQuote: bool, t: Span) {
    if StartsAt(toks, t.z + t.n) then IsQuotedAt(sql, t.z + t.n, bQuote) else CharAt(sql, t.z + t.n) == '"'
  }

  lemma FirstBehind(sql: string, toks: set<Span>, zNew: string, bQuote: bool, i: nat, rest: string)
    requires Separate(sql, toks) && i <= |sql| && rest == Replaced(sql, toks, zNew, bQuote, i)
    requires zNew != "" && zNew[0] != '"'
    ensures rest != "" && rest[0] == '"' <==>
              if StartsAt(toks, i) then IsQuotedAt(sql, i, bQuote) else CharAt(sql, i) == '"'
  {
    if StartsAt(toks, i) {
      TokenIs(sql, toks, TokenAt(toks, i));
      ReplacedToken(sql, toks, zNew, bQuote, TokenAt(toks, i));
    } else if i < |sql| {
      ReplacedChar(sql, toks, zNew, bQuote, i);
    }
  }

  // What stands at the place of token t in the edited statement r, and what follows
  // it there.  With bQuote, or if the token does not begin with an identifier
  // character, a name in double quotes, which reads as the new name exactly if no
  // double quote follows; and the new name as it is at all other tokens, which reads
  // as itself, if it may stand without quotes, exactly if no identifier character
  // follows.
  lemma TokenReads(sql: string, toks: set<Span>, zNew: string, bQuote: bool, t: Span, r: string, here: string,
          rest: string)
    requires Separate(sql, toks) && t in toks && t.z < |sql|
    requires r == Replaced(sql, toks, zNew, bQuote, 0) && here == Replaced(sql, toks, zNew, bQuote, t.z)
    requires rest == Replaced(sql, toks, zNew, bQuote, t.z + t.n)
    ensures EndsWith(r, here) && EndsWith(here, rest)
    ensures bQuote || !IsIdChar(sql[t.z]) ==>
              && here != "" && here[0] == '"'
              && (ReadName(here) == Some((zNew, rest)) <==> rest == "" || rest[0] != '"')
    ensures !bQuote && IsIdChar(sql[t.z]) ==>
              && here == zNew + rest
              && (IsPlain(zNew) ==> (ReadName(here) == Some((zNew, rest)) <==> rest == "" || !IsIdChar(rest[0])))
  {
    hide Replaced, EndsWith, Separate, ReadName, Escaped;
    if IsPlain(zNew) {
      PlainReads(zNew, rest);
    }
    TokenBetween(sql, toks, t);
    LaterEnds(sql, toks, zNew, bQuote, 0, t.z);
    LaterEnds(sql, toks, zNew, bQuote, t.z, t.z + t.n);
    ReplacedToken(sql, toks, zNew, bQuote, t);
    QuotedReads(zNew, rest);
  }

  lemma OnlyQuote()
    ensures Dequoted("\"") == Some(("", ""))
  {
    assert "\""[1..] == "";
  }

  lemma QuoteAndB()
    ensures ReadName("\"x\"\"b\"") == Some(("x\"b", ""))
  {
    hide Dequoted;
    var b, qb, xqb := "b\"", "\"\"b\"", "x\"\"b\"";
    OnlyQuote();
    FirstRead('b', "\"", b);
    FirstRead('"', b, qb);
    FirstRead('x', qb, xqb);
    assert ['b'] + "" == "b" && ['"'] + "b" == "\"b" && ['x'] + "\"b" == "x\"b";
    assert "\"x\"\"b\""[1..] == xqb;
  }

  // Two names run together: column a of type "b", renamed to x with quotes, becomes a
  // column x"b without a type.
  lemma NamesRunTogether(sql: string, toks: set<Span>)
    requires sql == "a\"b\"" && toks == {Span(0, 1)}
    ensures Separate(sql, toks) && QuoteBehind(sql, toks, true, Span(0, 1))
    ensures Replaced(sql, toks, "x", true, 0) == "\"x\"\"b\""
    ensures ReadName(Replaced(sql, toks, "x", true, 0)) == Some(("x\"b", ""))
  {
    assert forall u <- toks :: u == Span(0, 1);
    var t := Span(0, 1);
    assert t in toks;
    ReplacedToken(sql, toks, "x", true, t);
    ReplacedCopies(sql, toks, "x", true, 1, 4);
    assert sql[1..4] == "\"b\"" && Replaced(sql, toks, "x", true, 4) == "";
    assert Escaped("x") == "x" by { assert "x"[..0] == ""; }
    assert "\"x\"" + "\"b\"" == "\"x\"\"b\"";
    QuoteAndB();
  }
}
