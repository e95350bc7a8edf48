/** Wildcard locations: splitting an expression into pieces, the greedy matcher and
    the "better match" comparison (srcs/format.cpp), and the fold that picks one
    entry of a map (includes/Host.hpp). */
module Wildcard {
  import opened Text

  /** A piece of an expression. The source keeps strings and compares them with "*",
      which no literal piece can spell. */
  datatype Token = Any | Chars(text: string)

  type Tokens = seq<Token>

  /** The string the source stores for a piece. */
  function Spell(t: Token): string {
    if t.Any? then "*" else t.text
  }

  lemma SpellAny(t: Token)
    requires t.Any?
    ensures Spell(t) == "*"
  {
  }

  lemma SpellChars(t: Token)
    requires t.Chars?
    ensures Spell(t) == t.text
  {
  }

  // ----- tokenize

  function LiteralLength(e: string, i: nat): (r: nat)
    requires i <= |e|
    ensures i <= r <= |e| && (forall k :: i <= k < r ==> e[k] != '*' && e[k] != '\0')
    ensures At(e, r) == '*' || At(e, r) == '\0'
    decreases |e| - i
  {
    if At(e, i) == '*' || At(e, i) == '\0' then i else LiteralLength(e, i + 1)
  }

  /** The pieces of `e` from index `i` on, up to its end or its first NUL. */
  function TokensFrom(e: string, i: nat): Tokens
    requires i <= |e|
    decreases |e| - i
  {
    if At(e, i) == '\0' then []
    else if e[i] == '*' then [Any] + TokensFrom(e, i + 1)
    else
      var j := LiteralLength(e, i + 1);
      [Chars(e[i..j])] + TokensFrom(e, j)
  }

  function TokensOf(e: string): Tokens { TokensFrom(e, 0) }

  lemma TokensStep(e: string, i: nat)
    requires i <= |e|
    ensures At(e, i) == '\0' ==> TokensFrom(e, i) == []
    ensures At(e, i) == '*' ==> i < |e| && TokensFrom(e, i) == [Any] + TokensFrom(e, i + 1)
    ensures At(e, i) != '\0' ==> i < |e|
    ensures At(e, i) != '\0' && At(e, i) != '*' ==>
      var j := LiteralLength(e, i + 1);
      TokensFrom(e, i) == [Chars(e[i..j])] + TokensFrom(e, j)
  {
  }

  method Tokenize(expression: string) returns (tokenVec: Tokens)
    ensures tokenVec == TokensOf(expression)
  {
    hide TokensFrom;
    tokenVec := [];
    var i := 0;
    while At(expression, i) != '\0'
      invariant 0 <= i <= |expression|
      invariant tokenVec + TokensFrom(expression, i) == TokensOf(expression)
      decreases |expression| - i
    {
      TokensStep(expression, i);
      if expression[i] == '*' {
        tokenVec := tokenVec + [Any];
        i := i + 1;
      } else {
        var begin := i;
        i := i + 1;
        while At(expression, i) != '\0' && expression[i] != '*'
          invariant begin < i <= |expression|
          invariant LiteralLength(expression, i) == LiteralLength(expression, begin + 1)
          decreases |expression| - i
        {
          i := i + 1;
        }
        tokenVec := tokenVec + [Chars(expression[begin..i])];
      }
    }
    TokensStep(expression, i);
  }

  function Concat(toks: Tokens): string {
    if toks == [] then "" else Spell(toks[0]) + Concat(toks[1..])
  }

  /** A literal piece is not empty and holds no star. */
  predicate IsLiteral(t: string) {
    t != "" && forall i :: 0 <= i < |t| ==> t[i] != '*'
  }

  /** What tokenize produces: stars and literals, never two literals in a row. */
  predicate WellFormed(toks: Tokens) {
    toks != [] ==>
      && (toks[0].Chars? ==> IsLiteral(toks[0].text))
      && (|toks| > 1 ==> toks[0].Any? || toks[1].Any?)
      && WellFormed(toks[1..])
  }

  lemma {:induction false} TokensFromPartition(e: string, i: nat)
    requires NoNul(e) && i <= |e|
    ensures Concat(TokensFrom(e, i)) == e[i..] && WellFormed(TokensFrom(e, i))
    ensures i < |e| && e[i] == '*' ==> TokensFrom(e, i) != [] && TokensFrom(e, i)[0].Any?
    decreases |e| - i
  {
    hide Concat, WellFormed;
    ConcatNone();
    if i < |e| {
      var j := if e[i] == '*' then i + 1 else LiteralLength(e, i + 1);
      TokensFromPartition(e, j);
      assert e[i..] == e[i..j] + e[j..];
      var tok := if e[i] == '*' then Any else Chars(e[i..j]);
      assert TokensFrom(e, i) == [tok] + TokensFrom(e, j);
      assert e[i] == '*' ==> e[i..j] == "*";
      PieceBefore(tok, TokensFrom(e, j));
    }
  }

  lemma ConcatNone()
    ensures Concat([]) == "" && WellFormed([])
  {
  }

  lemma PieceBefore(tok: Token, rest: Tokens)
    ensures Concat([tok] + rest) == Spell(tok) + Concat(rest)
    ensures WellFormed([tok] + rest) <==>
            (tok.Chars? ==> IsLiteral(tok.text)) && (rest != [] ==> tok.Any? || rest[0].Any?) && WellFormed(rest)
  {
    hide IsLiteral;
    assert ([tok] + rest)[1..] == rest;
  }

  /** The pieces are the expression, cut at its stars. */
  lemma TokensPartition(e: string)
    requires NoNul(e)
    ensures Concat(TokensOf(e)) == e && WellFormed(TokensOf(e))
  {
    TokensFromPartition(e, 0);
    assert e[0..] == e;
  }

  // ----- isMatch

  /** A lone star. */
  predicate IsStar(toks: Tokens) { |toks| == 1 && toks[0].Any? }

  /** The state of the matcher: pieces `toks` are still to be placed and the URI is
      consumed up to `i`. */
  predicate MatchFrom(uri: string, toks: Tokens, i: nat)
    decreases |toks|
  {
    if toks == [] then At(uri, i) == '\0'
    else if At(uri, i) == '\0' then IsStar(toks)
    else if toks[0].Any? then
      |toks| == 1 ||
      var f := Find(uri, Spell(toks[1]), i);
      f.Some? && MatchFrom(uri, toks[2..], f.value + |Spell(toks[1])|)
    else
      OccursAt(uri, toks[0].text, i) && MatchFrom(uri, toks[1..], i + |toks[0].text|)
  }

  /** One turn of the matcher. */
  lemma MatchTurn(uri: string, toks: Tokens, i: nat)
    requires toks != [] && At(uri, i) != '\0' && (|toks| > 1 || toks[0].Chars?)
    ensures toks[0].Any? ==>
      var f := Find(uri, Spell(toks[1]), i);
      MatchFrom(uri, toks, i) == (f.Some? && MatchFrom(uri, toks[2..], f.value + |Spell(toks[1])|))
    ensures toks[0].Chars? ==>
      MatchFrom(uri, toks, i) == (OccursAt(uri, toks[0].text, i) && MatchFrom(uri, toks[1..], i + |toks[0].text|))
  {
    hide OccursAt;
  }

  predicate Matches(uri: string, e: string) {
    TokensOf(e) != [] && MatchFrom(uri, TokensOf(e), 0)
  }

  method IsMatch(uri: string, tokenVec: Tokens) returns (r: bool)
    ensures r == (tokenVec != [] && MatchFrom(uri, tokenVec, 0))
  {
    hide Find, OccursAt;
    var i: nat := 0;
    var it := 0;
    if it == |tokenVec| { return false; }
    while At(uri, i) != '\0'
      invariant 0 <= it < |tokenVec|
      invariant MatchFrom(uri, tokenVec[it..], i) == MatchFrom(uri, tokenVec, 0)
      decreases |tokenVec| - it
    {
      ghost var toks := tokenVec[it..];
      if tokenVec[it].Any? {
        it := it + 1;
        if it == |tokenVec| { return true; }
        MatchTurn(uri, toks, i);
        assert toks[2..] == tokenVec[it + 1..] && toks[1] == tokenVec[it];
        var pos := Find(uri, Spell(tokenVec[it]), i);
        if pos.None? { return false; }
        i := pos.value + |Spell(tokenVec[it])|;
      } else {
        MatchTurn(uri, toks, i);
        assert toks[1..] == tokenVec[it + 1..];
        if !OccursAt(uri, tokenVec[it].text, i) { return false; }
        i := i + |tokenVec[it].text|;
      }
      it := it + 1;
      if it == |tokenVec| { return At(uri, i) == '\0'; }
    }
    return tokenVec[it].Any? && it + 1 == |tokenVec|;
  }

  // ----- glob semantics

  /** The declarative meaning of an expression: a star stands for any text. */
  ghost predicate Glob(e: string, u: string)
    decreases |e|
  {
    if e == "" then u == ""
    else if e[0] == '*' then exists k :: 0 <= k <= |u| && Glob(e[1..], u[k..])
    else u != "" && u[0] == e[0] && Glob(e[1..], u[1..])
  }

  lemma {:induction false} GlobLiteral(l: string, e: string, u: string)
    requires forall i :: 0 <= i < |l| ==> l[i] != '*'
    ensures Glob(l + e, u) <==> OccursAt(u, l, 0) && Glob(e, u[|l|..])
  {
    if l == "" {
      assert l + e == e && u[0..] == u && u[0..0] == l;
    } else {
      assert (l + e)[0] == l[0] && (l + e)[1..] == l[1..] + e;
      if u != "" && u[0] == l[0] {
        GlobLiteral(l[1..], e, u[1..]);
        OccursCons(u, l);
        if |l| <= |u| { assert u[1..][|l| - 1..] == u[|l|..]; }
      } else {
        OccursFirst(u, l, 0);
      }
    }
  }

  lemma GlobStar(e: string, u: string, k: nat)
    requires k <= |u| && Glob(e, u[k..])
    ensures Glob("*" + e, u)
  {
    assert ("*" + e)[1..] == e;
  }

  lemma ConcatCons(toks: Tokens)
    requires |toks| >= 2
    ensures Concat(toks) == Spell(toks[0]) + (Spell(toks[1]) + Concat(toks[2..]))
  {
    assert toks[1..][1..] == toks[2..];
  }

  lemma GlobAt(u: string, t: Token, i: nat, e: string)
    requires OccursAt(u, Spell(t), i) && (t.Chars? ==> IsLiteral(t.text)) && Glob(e, u[i + |Spell(t)|..])
    ensures Glob(Spell(t) + e, u[i..])
  {
    var l := Spell(t);
    assert u[i..][0..|l|] == l && u[i..][|l|..] == u[i + |l|..];
    if t.Any? {
      GlobStar(e, u[i..], 1);
    } else {
      GlobLiteral(l, e, u[i..]);
    }
  }

  /** Whatever the matcher accepts is a glob match, for every expression: a second
      star in a row is looked for as a character, which a star may stand for. */
  lemma {:induction false} MatchSound(uri: string, toks: Tokens, i: nat)
    requires NoNul(uri) && WellFormed(toks) && i <= |uri|
    requires MatchFrom(uri, toks, i)
    ensures Glob(Concat(toks), uri[i..])
    decreases |toks|
  {
    hide *;
    if toks == [] {
      SoundEmpty(uri, i);
    } else if At(uri, i) == '\0' || (|toks| == 1 && toks[0].Any?) {
      SoundLast(uri, toks, i);
    } else if toks[0].Any? {
      SoundStar(uri, toks, i);
    } else {
      SoundLiteral(uri, toks, i);
    }
  }

  lemma SoundEmpty(uri: string, i: nat)
    requires NoNul(uri) && i <= |uri| && MatchFrom(uri, [], i)
    ensures Glob(Concat([]), uri[i..])
  {
  }

  lemma SoundLast(uri: string, toks: Tokens, i: nat)
    requires NoNul(uri) && i <= |uri| && MatchFrom(uri, toks, i)
    requires toks != [] && (At(uri, i) == '\0' || (|toks| == 1 && toks[0].Any?))
    ensures Glob(Concat(toks), uri[i..])
  {
    assert Concat(toks) == "*" + "";
    GlobStar("", uri[i..], |uri| - i);
  }

  lemma {:induction false} SoundStar(uri: string, toks: Tokens, i: nat)
    requires NoNul(uri) && WellFormed(toks) && i <= |uri| && MatchFrom(uri, toks, i)
    requires At(uri, i) != '\0' && |toks| > 1 && toks[0].Any?
    ensures Glob(Concat(toks), uri[i..])
    decreases |toks|, 0
  {
    hide MatchFrom, OccursAt, Find, Glob, IsLiteral, At, NoNul;
    MatchTurn(uri, toks, i);
    var t := toks[1];
    var j := Find(uri, Spell(t), i).value;
    assert t == toks[1..][0] && toks[1..][1..] == toks[2..];
    OccursBound(uri, Spell(t), j);
    MatchSound(uri, toks[2..], j + |Spell(t)|);
    GlobAt(uri, t, j, Concat(toks[2..]));
    ConcatCons(toks);
    assert uri[i..][j - i..] == uri[j..];
    GlobStar(Spell(t) + Concat(toks[2..]), uri[i..], j - i);
  }

  lemma {:induction false} SoundLiteral(uri: string, toks: Tokens, i: nat)
    requires NoNul(uri) && WellFormed(toks) && i <= |uri| && MatchFrom(uri, toks, i)
    requires At(uri, i) != '\0' && toks != [] && toks[0].Chars?
    ensures Glob(Concat(toks), uri[i..])
    decreases |toks|, 0
  {
    hide MatchFrom, OccursAt, Find, Glob, IsLiteral, At, NoNul;
    MatchTurn(uri, toks, i);
    OccursBound(uri, toks[0].text, i);
    MatchSound(uri, toks[1..], i + |toks[0].text|);
    GlobAt(uri, toks[0], i, Concat(toks[1..]));
  }

  predicate NoDoubleStar(toks: Tokens) {
    |toks| > 1 ==> !(toks[0].Any? && toks[1].Any?) && NoDoubleStar(toks[1..])
  }

  predicate HasStar(toks: Tokens) { Any in toks }

  /** The expressions on which greedy leftmost placement never misses a match. */
  predicate Greedy(toks: Tokens) {
    && toks != []
    && NoDoubleStar(toks)
    && (HasStar(toks) ==> toks[|toks| - 1].Any?)
  }

  lemma GlobStarLiteral(l: string, rest: string, u: string) returns (m: nat)
    requires IsLiteral(l) && Glob("*" + (l + rest), u)
    ensures OccursAt(u, l, m) && Glob(rest, u[m + |l|..])
  {
    assert ("*" + (l + rest))[1..] == l + rest;
    m :| 0 <= m <= |u| && Glob(l + rest, u[m..]);
    GlobLiteral(l, rest, u[m..]);
    assert u[m..][..|l|] == u[m..m + |l|];
    assert u[m..][|l|..] == u[m + |l|..];
  }

  /** One turn of the exchange: the literal after a star has its leftmost place no
      later than any place the glob gives it. */
  lemma StarStep(uri: string, toks: Tokens, i: nat, j: nat) returns (f: nat, m: nat)
    requires NoNul(uri) && WellFormed(toks) && Greedy(toks) && |toks| > 1 && toks[0].Any?
    requires i <= j <= |uri| && Glob(Concat(toks), uri[j..])
    ensures f <= m && i < |uri| && At(uri, i) != '\0' && Find(uri, Spell(toks[1]), i) == Some(f) &&
      m + |Spell(toks[1])| <= |uri|
    ensures |toks| > 2 && toks[2].Any? && Glob(Concat(toks[2..]), uri[m + |Spell(toks[1])|..])
    ensures WellFormed(toks[2..]) && Greedy(toks[2..])
  {
    hide Find, OccursAt, Glob, NoNul, At;
    var l, rest := Spell(toks[1]), toks[2..];
    assert toks[1..][1..] == rest && toks[1..][0] == toks[1];
    ConcatCons(toks);
    var k := GlobStarLiteral(l, Concat(rest), uri[j..]);
    m := j + k;
    OccursShift(uri, l, j, k);
    assert uri[j..][k + |l|..] == uri[m + |l|..];
    FindLeast(uri, l, i, m);
    f := Find(uri, l, i).value;
    NoNulAt(uri, i);
    assert |toks| > 2 && toks[|toks| - 1] == rest[|rest| - 1];
    assert toks[1..][1] == rest[0];
    assert NoDoubleStar(toks[1..]) && NoDoubleStar(rest);
  }

  lemma LiteralStep(uri: string, toks: Tokens, j: nat)
    requires WellFormed(toks) && Greedy(toks) && toks[0].Chars? && NoNul(uri)
    requires j <= |uri| && Glob(Concat(toks), uri[j..])
    ensures At(uri, j) != '\0' && OccursAt(uri, toks[0].text, j) && j + |toks[0].text| <= |uri|
    ensures Glob(Concat(toks[1..]), uri[j + |toks[0].text|..])
    ensures toks[1..] != [] ==> WellFormed(toks[1..]) && Greedy(toks[1..]) && toks[1..][0].Any?
    ensures toks[1..] == [] ==> j + |toks[0].text| == |uri|
  {
    hide Find, OccursAt, Glob, NoNul, At;
    var l, rest := toks[0].text, toks[1..];
    GlobLiteral(l, Concat(rest), uri[j..]);
    OccursShift(uri, l, j, 0);
    assert uri[j..][|l|..] == uri[j + |l|..];
    NoNulAt(uri, j);
    if rest == [] { GlobEmpty(uri[j + |l|..]); }
  }

  lemma GlobEmpty(u: string)
    requires Glob("", u)
    ensures u == ""
  {
  }

  lemma MatchEnd(uri: string, toks: Tokens, i: nat)
    requires i == |uri| && toks == []
    ensures MatchFrom(uri, toks, i)
  {
  }

  /** The exchange argument: if the pieces fit somewhere at or after `j`, then the
      matcher, which may be further left at `i`, places them too. */
  lemma {:induction false} MatchComplete(uri: string, toks: Tokens, i: nat, j: nat)
    requires NoNul(uri) && WellFormed(toks) && Greedy(toks) && toks != []
    requires i <= j <= |uri| && (toks[0].Any? || i == j)
    requires Glob(Concat(toks), uri[j..])
    ensures MatchFrom(uri, toks, i)
    decreases |toks|
  {
    hide *;
    if |toks| == 1 && toks[0].Any? {
      MatchAny(uri, toks, i);
    } else if toks[0].Any? {
      CompleteStar(uri, toks, i, j);
    } else {
      CompleteLiteral(uri, toks, j);
    }
  }

  lemma MatchAny(uri: string, toks: Tokens, i: nat)
    requires |toks| == 1 && toks[0].Any?
    ensures MatchFrom(uri, toks, i)
  {
  }

  lemma {:induction false} CompleteStar(uri: string, toks: Tokens, i: nat, j: nat)
    requires NoNul(uri) && WellFormed(toks) && Greedy(toks) && |toks| > 1 && toks[0].Any?
    requires i <= j <= |uri| && Glob(Concat(toks), uri[j..])
    ensures MatchFrom(uri, toks, i)
    decreases |toks|, 0
  {
    hide *;
    var f, m := StarStep(uri, toks, i, j);
    MatchComplete(uri, toks[2..], f + |Spell(toks[1])|, m + |Spell(toks[1])|);
    MatchTurn(uri, toks, i);
  }

  lemma {:induction false} CompleteLiteral(uri: string, toks: Tokens, i: nat)
    requires NoNul(uri) && WellFormed(toks) && Greedy(toks) && toks != [] && toks[0].Chars?
    requires i <= |uri| && Glob(Concat(toks), uri[i..])
    ensures MatchFrom(uri, toks, i)
    decreases |toks|, 0
  {
    hide *;
    LiteralStep(uri, toks, i);
    var l, rest := toks[0].text, toks[1..];
    if rest != [] {
      MatchComplete(uri, rest, i + |l|, i + |l|);
    } else {
      MatchEnd(uri, rest, i + |l|);
    }
    MatchTurn(uri, toks, i);
  }

  // ----- where the greedy matcher misses

  function Literals(toks: Tokens): string {
    if toks == [] then "" else (if toks[0].Any? then "" else toks[0].text) + Literals(toks[1..])
  }

  lemma {:induction false} LiteralsPlain(toks: Tokens)
    requires WellFormed(toks)
    ensures forall i :: 0 <= i < |Literals(toks)| ==> Literals(toks)[i] != '*'
  {
    if toks != [] {
      LiteralsPlain(toks[1..]);
    }
  }

  /** Letting every star stand for nothing is a match. */
  lemma {:induction false} GlobLiterals(toks: Tokens)
    requires WellFormed(toks)
    ensures Glob(Concat(toks), Literals(toks))
  {
    if toks != [] {
      GlobLiterals(toks[1..]);
      var u := Literals(toks);
      if toks[0].Any? {
        assert u[0..] == Literals(toks[1..]);
        GlobStar(Concat(toks[1..]), u, 0);
      } else {
        assert u[|toks[0].text|..] == Literals(toks[1..]);
        GlobLiteral(toks[0].text, Concat(toks[1..]), u);
      }
    }
  }

  lemma NoStarFound(uri: string, i: nat)
    requires forall k :: 0 <= k < |uri| ==> uri[k] != '*'
    ensures Find(uri, "*", i).None?
  {
    var pos := Find(uri, "*", i);
    OccursFirst(uri, "*", if pos.Some? then pos.value else 0);
  }

  lemma NulMisses(uri: string, toks: Tokens, i: nat)
    requires At(uri, i) == '\0' && |toks| > 1
    ensures !MatchFrom(uri, toks, i)
  {
  }

  lemma DoubleStarTail(toks: Tokens)
    requires WellFormed(toks) && !NoDoubleStar(toks)
    ensures |toks| > 1
    ensures toks[0].Chars? ==> WellFormed(toks[1..]) && !NoDoubleStar(toks[1..])
    ensures toks[0].Any? && toks[1].Chars? ==> WellFormed(toks[2..]) && !NoDoubleStar(toks[2..])
  {
    assert toks[1..][1..] == toks[2..];
  }

  /** With `**` the matcher looks for a star character, so it rejects every URI
      without one. */
  lemma {:induction false} DoubleStarMisses(uri: string, toks: Tokens, i: nat)
    requires WellFormed(toks) && !NoDoubleStar(toks)
    requires forall k :: 0 <= k < |uri| ==> uri[k] != '*'
    ensures !MatchFrom(uri, toks, i)
    decreases |toks|
  {
    hide *;
    DoubleStarTail(toks);
    if At(uri, i) == '\0' {
      NulMisses(uri, toks, i);
    } else {
      MatchTurn(uri, toks, i);
      if toks[0].Chars? {
        DoubleStarMisses(uri, toks[1..], i + |toks[0].text|);
      } else if toks[1].Any? {
        SpellAny(toks[1]);
        NoStarFound(uri, i);
      } else {
        var pos := Find(uri, Spell(toks[1]), i);
        if pos.Some? { DoubleStarMisses(uri, toks[2..], pos.value + |Spell(toks[1])|); }
      }
    }
  }

  /** A starred expression that ends in a literal: the matcher takes the leftmost
      place for that literal and rejects the URI if anything follows. */
  lemma {:induction false} LastLiteralMisses(uri: string, toks: Tokens, i: nat, p: string, x: string)
    requires NoNul(uri) && WellFormed(toks) && NoDoubleStar(toks)
    requires |toks| >= 2 && toks[0].Any? && toks[|toks| - 1].Chars?
    requires uri == p + Literals(toks) + x && x != "" && i <= |p|
    ensures !MatchFrom(uri, toks, i)
    decreases |toks|
  {
    hide MatchFrom, Find, OccursAt, NoNul, At;
    var l := Spell(toks[1]);
    var rest := toks[2..];
    assert toks[1..][1..] == rest && toks[1..][0] == toks[1];
    assert Literals(toks) == l + Literals(rest);
    assert uri == p + l + (Literals(rest) + x);
    OccursMiddle(p, l, Literals(rest) + x);
    FindLeast(uri, l, i, |p|);
    var f := Find(uri, l, i).value;
    NoNulAt(uri, i);
    NoNulAt(uri, f + |l|);
    MatchTurn(uri, toks, i);
    if rest != [] {
      assert toks[1..][1] == rest[0] && rest[|rest| - 1] == toks[|toks| - 1];
      assert uri == (p + l) + Literals(rest) + x;
      LastLiteralMisses(uri, rest, f + |l|, p + l, x);
    } else {
      MatchNotAtEnd(uri, rest, f + |l|);
    }
  }

  lemma MatchNotAtEnd(uri: string, toks: Tokens, i: nat)
    requires toks == [] && At(uri, i) != '\0'
    ensures !MatchFrom(uri, toks, i)
  {
  }

  lemma {:induction false} GlobDoubledLast(toks: Tokens)
    requires WellFormed(toks) && HasStar(toks) && toks[|toks| - 1].Chars?
    ensures Glob(Concat(toks), Literals(toks) + toks[|toks| - 1].text)
  {
    var last := toks[|toks| - 1].text;
    var u := Literals(toks) + last;
    var rest := toks[1..];
    assert rest[|rest| - 1].text == last;
    if toks[0].Chars? {
      var l := toks[0].text;
      GlobDoubledLast(rest);
      assert u[|l|..] == Literals(rest) + last;
      assert u[..|l|] == l;
      GlobLiteral(l, Concat(rest), u);
    } else if HasStar(rest) {
      GlobDoubledLast(rest);
      assert u[0..] == Literals(rest) + last;
      GlobStar(Concat(rest), u, 0);
    } else {
      assert forall k :: 0 <= k < |rest| ==> rest[k] in rest;
      assert rest == [Chars(last)] && rest[1..] == [];
      assert Literals(rest) == last && Concat(rest) == last + "";
      assert u[|last|..] == last && u == last + last;
      assert last[..|last|] == last && last[|last|..] == "";
      GlobLiteral(last, "", last);
      GlobStar(last + "", u, |last|);
    }
  }

  lemma {:induction false} LiteralsNoNul(toks: Tokens)
    requires NoNul(Concat(toks))
    ensures NoNul(Literals(toks)) && forall t | t in toks :: NoNul(Spell(t))
  {
    if toks != [] {
      var c := Concat(toks);
      var first := Spell(toks[0]);
      assert forall k :: 0 <= k < |first| ==> first[k] == c[k];
      assert forall k :: 0 <= k < |Concat(toks[1..])| ==> Concat(toks[1..])[k] == c[|first| + k];
      LiteralsNoNul(toks[1..]);
      assert forall t | t in toks :: t == toks[0] || t in toks[1..];
    }
  }

  lemma {:induction false} PieceAt(toks: Tokens, k: nat)
    requires WellFormed(toks) && k < |toks|
    ensures toks[k].Chars? ==> IsLiteral(toks[k].text)
  {
    if k > 0 { PieceAt(toks[1..], k - 1); }
  }

  /** A starred expression that ends in a literal misses the URI in which the stars
      stand for nothing and the last literal is doubled. */
  lemma DoubledLastMisses(toks: Tokens, uri: string)
    requires WellFormed(toks) && NoDoubleStar(toks) && HasStar(toks) && toks[|toks| - 1].Chars?
    requires uri == Literals(toks) + toks[|toks| - 1].text && NoNul(uri)
    ensures !MatchFrom(uri, toks, 0)
  {
    hide MatchFrom, Find, OccursAt, NoNul;
    var last := toks[|toks| - 1].text;
    PieceAt(toks, |toks| - 1);
    if toks[0].Any? {
      assert uri == "" + Literals(toks) + last;
      LastLiteralMisses(uri, toks, 0, "", last);
    } else {
      var l, rest := toks[0].text, toks[1..];
      assert uri == l + Literals(rest) + last;
      assert rest[0].Any? && |rest| > 1 by { assert Any in toks; assert rest[|rest| - 1].text == last; }
      LastLiteralMisses(uri, rest, |l|, l, last);
      NoNulAt(uri, 0);
      MatchTurn(uri, toks, 0);
    }
  }

  /** A URI that the glob accepts and the matcher rejects. */
  lemma MissedUri(e: string) returns (uri: string)
    requires NoNul(e) && !Greedy(TokensOf(e))
    ensures NoNul(uri) && Glob(e, uri) && !Matches(uri, e)
  {
    hide MatchFrom, Glob, WellFormed, TokensOf, Concat, Literals, NoDoubleStar, IsLiteral;
    var toks := TokensOf(e);
    TokensPartition(e);
    LiteralsNoNul(toks);
    uri := Literals(toks);
    GlobLiterals(toks);
    if toks == [] {
    } else if !NoDoubleStar(toks) {
      LiteralsPlain(toks);
      DoubleStarMisses(uri, toks, 0);
    } else {
      GlobDoubledLast(toks);
      assert Chars(toks[|toks| - 1].text) in toks;
      uri := uri + toks[|toks| - 1].text;
      DoubledLastMisses(toks, uri);
    }
  }

  /** The greedy matcher is sound on every expression, and finds every glob match
      of an expression exactly when that expression is not empty, holds no `**`,
      and has no star or ends in one. */
  lemma GreedyMatchesGlob(e: string)
    requires NoNul(e)
    ensures forall uri :: NoNul(uri) && Matches(uri, e) ==> Glob(e, uri)
    ensures (forall uri :: NoNul(uri) && Glob(e, uri) ==> Matches(uri, e)) <==> Greedy(TokensOf(e))
  {
    var toks := TokensOf(e);
    TokensPartition(e);
    forall uri | NoNul(uri) && Matches(uri, e) ensures Glob(e, uri) {
      MatchSound(uri, toks, 0);
      assert uri[0..] == uri;
    }
    if Greedy(toks) {
      forall uri | NoNul(uri) && Glob(e, uri) ensures Matches(uri, e) {
        assert uri[0..] == uri;
        MatchComplete(uri, toks, 0, 0);
      }
    } else {
      var uri := MissedUri(e);
    }
  }

  // ----- isUriMatch: which of two matching expressions is closer

  /** What the comparison looks at, from the right: a star, or a literal with the
      place where its rightmost occurrence ends and its length. */
  datatype Piece = Star | Literal(end: int, length: int)

  /** Each literal is looked for to the left of the one before it. When rfind finds
      nothing its npos becomes -1 and the URI is left whole. */
  function Key(toks: Tokens, uri: string): seq<Piece>
    decreases |toks|
  {
    if toks == [] then []
    else
      var last := toks[|toks| - 1];
      var init := toks[..|toks| - 1];
      if last.Any? then [Star] + Key(init, uri)
      else match RFind(uri, last.text)
        case None => [Literal(|last.text| - 1, |last.text|)] + Key(init, uri)
        case Some(p) => [Literal(p + |last.text|, |last.text|)] + Key(init, uri[..p])
  }

  predicate PieceAbove(a: Piece, b: Piece) {
    a.Literal? && (b.Star? || a.end > b.end || (a.end == b.end && a.length > b.length))
  }

  predicate Above(a: seq<Piece>, b: seq<Piece>) {
    if a == [] then false
    else if b == [] then true
    else if a[0] == b[0] then Above(a[1..], b[1..])
    else PieceAbove(a[0], b[0])
  }

  /** Expression `a` is a closer match of `uri` than `b`. */
  predicate Closer(uri: string, a: string, b: string) {
    Above(Key(TokensOf(a), uri), Key(TokensOf(b), uri))
  }

  method IsUriMatch(uriRef: string, expression: string, previousMatch: Option<string>) returns (r: bool)
    requires previousMatch.Some? ==> Matches(uriRef, previousMatch.value)
    ensures r == (Matches(uriRef, expression) &&
                  (previousMatch.Some? ==> Closer(uriRef, expression, previousMatch.value)))
  {
    var tokensA := Tokenize(expression);
    var matches := IsMatch(uriRef, tokensA);
    if !matches { return false; }
    if previousMatch.None? { return true; }
    var tokensB := Tokenize(previousMatch.value);
    r := CompareTokens(uriRef, tokensA, tokensB);
  }

  /** The comparison loop of isUriMatch, from the last pieces backwards. */
  method CompareTokens(uriRef: string, tokensA: Tokens, tokensB: Tokens) returns (r: bool)
    ensures r == Above(Key(tokensA, uriRef), Key(tokensB, uriRef))
  {
    hide Key, Above, OccursAt, RFind;
    var uri := uriRef;
    var a, b := |tokensA|, |tokensB|;
    assert tokensA[..a] == tokensA && tokensB[..b] == tokensB;
    while a > 0 && b > 0
      invariant 0 <= a <= |tokensA| && 0 <= b <= |tokensB|
      invariant Above(Key(tokensA[..a], uri), Key(tokensB[..b], uri)) ==
                Above(Key(tokensA, uriRef), Key(tokensB, uriRef))
      decreases a
    {
      var itA, itB := tokensA[a - 1], tokensB[b - 1];
      KeyStep(tokensA, a, uri);
      KeyStep(tokensB, b, uri);
      ghost var keyA, keyB := Key(tokensA[..a], uri), Key(tokensB[..b], uri);
      AboveStep(keyA, keyB);
      if itA.Any? {
        if itB.Any? { a, b := a - 1, b - 1; } else { return false; }
      } else if itB.Any? {
        return true;
      } else {
        var foundA, foundB := RFind(uri, itA.text), RFind(uri, itB.text);
        var posA := if foundA.Some? then foundA.value else -1;
        var posB := if foundB.Some? then foundB.value else -1;
        var diff := (posA + |itA.text|) - (posB + |itB.text|);
        if diff > 0 { return true; }
        else if diff < 0 { return false; }
        else if |itA.text| > |itB.text| { return true; }
        else if |itA.text| < |itB.text| { return false; }
        if foundA.Some? {
          OccursBound(uri, itA.text, foundA.value);
          uri := uri[..posA];
        }
        a, b := a - 1, b - 1;
      }
    }
    KeyLength(tokensA[..a], uri);
    KeyLength(tokensB[..b], uri);
    AboveStep(Key(tokensA[..a], uri), Key(tokensB[..b], uri));
    return a != 0;
  }

  lemma {:induction false} KeyLength(toks: Tokens, uri: string)
    ensures |Key(toks, uri)| == |toks|
    decreases |toks|
  {
    if toks != [] {
      var t := toks[|toks| - 1];
      var p := if t.Any? then None else RFind(uri, t.text);
      KeyLength(toks[..|toks| - 1], if p.Some? then uri[..p.value] else uri);
    }
  }

  lemma AboveStep(a: seq<Piece>, b: seq<Piece>)
    ensures a == [] ==> !Above(a, b)
    ensures a != [] && b == [] ==> Above(a, b)
    ensures a != [] && b != [] ==> Above(a, b) == if a[0] == b[0] then Above(a[1..], b[1..]) else PieceAbove(a[0], b[0])
  {
  }

  lemma KeyStep(toks: Tokens, n: nat, uri: string)
    requires 0 < n <= |toks|
    ensures var l := toks[n - 1];
            var k := Key(toks[..n], uri);
            var init := toks[..n - 1];
            if l.Any? then k == [Star] + Key(init, uri)
            else match RFind(uri, l.text)
                 case None => k == [Literal(|l.text| - 1, |l.text|)] + Key(init, uri)
                 case Some(p) => k == [Literal(p + |l.text|, |l.text|)] + Key(init, uri[..p])
  {
    assert toks[..n][..n - 1] == toks[..n - 1];
  }

  // ----- the comparison is a strict total order on matching expressions

  lemma {:induction false} AboveIrreflexive(a: seq<Piece>)
    ensures !Above(a, a)
  {
    if a != [] { AboveIrreflexive(a[1..]); }
  }

  lemma {:induction false} AboveTransitive(a: seq<Piece>, b: seq<Piece>, c: seq<Piece>)
    requires Above(a, b) && Above(b, c)
    ensures Above(a, c)
  {
    if c != [] && a[0] == b[0] && b[0] == c[0] {
      AboveTransitive(a[1..], b[1..], c[1..]);
    }
  }

  lemma {:induction false} AboveTotal(a: seq<Piece>, b: seq<Piece>)
    requires a != b
    ensures Above(a, b) || Above(b, a)
  {
    if a != [] && b != [] && a[0] == b[0] {
      assert a == [a[0]] + a[1..] && b == [b[0]] + b[1..];
      AboveTotal(a[1..], b[1..]);
    }
  }

  /** Every rfind of the comparison succeeds on `uri`. */
  predicate Located(toks: Tokens, uri: string)
    decreases |toks|
  {
    toks == [] ||
    var last := toks[|toks| - 1];
    var init := toks[..|toks| - 1];
    if last.Any? then Located(init, uri)
    else RFind(uri, last.text).Some? && Located(init, uri[..RFind(uri, last.text).value])
  }

  lemma {:induction false} LocatedMonotone(toks: Tokens, u: string, v: string)
    requires u <= v && Located(toks, u)
    ensures Located(toks, v)
    decreases |toks|
  {
    if toks != [] {
      var last := toks[|toks| - 1];
      var init := toks[..|toks| - 1];
      if last.Any? {
        LocatedMonotone(init, u, v);
      } else {
        var l := last.text;
        var p := RFind(u, l).value;
        assert v[p..p + |l|] == u[p..p + |l|];
        RFindGreatest(v, l, |v|, p);
        var q := RFind(v, l).value;
        assert u[..p] <= v[..q] by { assert v[..q][..p] == u[..p]; }
        LocatedMonotone(init, u[..p], v[..q]);
      }
    }
  }

  lemma LocatedPiece(before: Tokens, t: Token, uri: string, f: nat)
    requires OccursAt(uri, Spell(t), f) && Located(before, uri[..f])
    ensures Located(before + [t], uri[..f + |Spell(t)|])
  {
    var l := Spell(t);
    var u := uri[..f + |l|];
    var toks := before + [t];
    assert toks[..|toks| - 1] == before;
    if t.Any? {
      LocatedMonotone(before, uri[..f], u);
    } else {
      assert u[f..f + |l|] == l;
      RFindGreatest(u, l, |u|, f);
      assert u[..f] == uri[..f];
    }
  }

  lemma LocatedStar(before: Tokens, u: string, v: string)
    requires u <= v && Located(before, u)
    ensures Located(before + [Any], v)
  {
    LocatedMonotone(before, u, v);
    assert (before + [Any])[..|before|] == before;
  }

  lemma LocatedStarPiece(before: Tokens, t: Token, uri: string, i: nat, f: nat)
    requires i <= f && OccursAt(uri, Spell(t), f) && Located(before, uri[..i])
    ensures Located(before + [Any] + [t], uri[..f + |Spell(t)|])
  {
    assert uri[..f][..i] == uri[..i];
    LocatedStar(before, uri[..i], uri[..f]);
    LocatedPiece(before + [Any], t, uri, f);
  }

  /** The greedy placement shows that every literal can be found from the right as
      well: the rightmost place is never left of the greedy one. */
  lemma {:induction false} MatchLocated(uri: string, toks: Tokens, i: nat, before: Tokens)
    requires MatchFrom(uri, toks, i) && i <= |uri| && Located(before, uri[..i])
    ensures Located(before + toks, uri)
    decreases |toks|
  {
    hide *;
    if toks == [] {
      assert before + toks == before && uri[..|uri|] == uri;
      LocatedMonotone(before, uri[..i], uri);
    } else if |toks| == 1 && toks[0].Any? {
      assert toks == [Any];
      LocatedStar(before, uri[..i], uri);
    } else if toks[0].Any? {
      LocatedAfterStar(uri, toks, i, before);
    } else {
      LocatedAfterLiteral(uri, toks, i, before);
    }
  }

  lemma {:induction false} LocatedAfterStar(uri: string, toks: Tokens, i: nat, before: Tokens)
    requires MatchFrom(uri, toks, i) && i <= |uri| && Located(before, uri[..i])
    requires |toks| > 1 && toks[0].Any?
    ensures Located(before + toks, uri)
    decreases |toks|, 0
  {
    hide *;
    AtEnd(uri, toks, i);
    MatchTurn(uri, toks, i);
    var t := toks[1];
    var f := Find(uri, Spell(t), i).value;
    OccursBound(uri, Spell(t), f);
    var placed := before + [Any] + [t];
    LocatedStarPiece(before, t, uri, i, f);
    assert placed + toks[2..] == before + toks;
    MatchLocated(uri, toks[2..], f + |Spell(t)|, placed);
  }

  lemma {:induction false} LocatedAfterLiteral(uri: string, toks: Tokens, i: nat, before: Tokens)
    requires MatchFrom(uri, toks, i) && i <= |uri| && Located(before, uri[..i])
    requires toks != [] && toks[0].Chars?
    ensures Located(before + toks, uri)
    decreases |toks|, 0
  {
    hide *;
    AtEnd(uri, toks, i);
    MatchTurn(uri, toks, i);
    var placed := before + [toks[0]];
    SpellChars(toks[0]);
    OccursBound(uri, toks[0].text, i);
    LocatedPiece(before, toks[0], uri, i);
    assert placed + toks[1..] == before + toks;
    MatchLocated(uri, toks[1..], i + |toks[0].text|, placed);
  }

  /** At the end of the URI only a lone star is left to place. */
  lemma AtEnd(uri: string, toks: Tokens, i: nat)
    requires MatchFrom(uri, toks, i) && toks != [] && (|toks| > 1 || toks[0].Chars?)
    ensures At(uri, i) != '\0'
  {
  }

  lemma {:induction false} KeyDeterminesTokens(a: Tokens, b: Tokens, uri: string)
    requires Located(a, uri) && Located(b, uri) && Key(a, uri) == Key(b, uri)
    ensures a == b
    decreases |a|
  {
    if a != [] && b != [] {
      var ka, kb := Key(a, uri), Key(b, uri);
      var la, lb, ia, ib := a[|a| - 1], b[|b| - 1], a[..|a| - 1], b[..|b| - 1];
      assert a == ia + [la] && b == ib + [lb];
      assert ka[0] == kb[0];
      if la.Any? {
        assert Key(ia, uri) == ka[1..] && Key(ib, uri) == kb[1..];
        KeyDeterminesTokens(ia, ib, uri);
      } else {
        var p := RFind(uri, la.text).value;
        assert la.text == uri[p..p + |la.text|] == lb.text;
        assert Key(ia, uri[..p]) == ka[1..] && Key(ib, uri[..p]) == kb[1..];
        KeyDeterminesTokens(ia, ib, uri[..p]);
      }
    }
  }

  /** On the expressions that match one URI the comparison is a strict total order:
      two different expressions are never tied. */
  lemma CloserIsStrictTotalOrder(uri: string, a: string, b: string, c: string)
    requires NoNul(a) && NoNul(b)
    requires Matches(uri, a) && Matches(uri, b) && Matches(uri, c)
    ensures !Closer(uri, a, a)
    ensures Closer(uri, a, b) && Closer(uri, b, c) ==> Closer(uri, a, c)
    ensures a != b ==> Closer(uri, a, b) != Closer(uri, b, a)
  {
    var ta, tb, tc := TokensOf(a), TokensOf(b), TokensOf(c);
    var ka, kb, kc := Key(ta, uri), Key(tb, uri), Key(tc, uri);
    AboveIrreflexive(ka);
    if Above(ka, kb) && Above(kb, kc) { AboveTransitive(ka, kb, kc); }
    if a != b {
      assert ka != kb by {
        if ka == kb {
          MatchLocated(uri, ta, 0, []);
          MatchLocated(uri, tb, 0, []);
          assert [] + ta == ta && [] + tb == tb;
          KeyDeterminesTokens(ta, tb, uri);
          TokensPartition(a);
          TokensPartition(b);
        }
      }
      AboveTotal(ka, kb);
      if Above(ka, kb) && Above(kb, ka) { AboveTransitive(ka, kb, ka); }
    }
  }

  // ----- getObjectMatch

  /** A std::map read in iteration order: every key once. */
  predicate IsMap<T>(entries: seq<(string, T)>) {
    && (forall i :: 0 <= i < |entries| ==> NoNul(entries[i].0))
    && forall i, j :: 0 <= i < j < |entries| ==> entries[i].0 != entries[j].0
  }

  /** Entry `best` matches and is closer than every other entry that matches. */
  ghost predicate IsClosest<T>(entries: seq<(string, T)>, uri: string, best: (string, T)) {
    && best in entries
    && Matches(uri, best.0)
    && forall e :: e in entries && e.0 != best.0 && Matches(uri, e.0) ==> Closer(uri, best.0, e.0)
  }

  method GetObjectMatch<T>(entries: seq<(string, T)>, uri: string) returns (r: Option<T>)
    requires IsMap(entries)
    ensures r.None? <==> forall e :: e in entries ==> !Matches(uri, e.0)
    ensures r.Some? ==> exists best :: IsClosest(entries, uri, best) && best.1 == r.value
  {
    var bestMatch: Option<(string, T)> := None;
    for k := 0 to |entries|
      invariant bestMatch.None? ==> forall e :: e in entries[..k] ==> !Matches(uri, e.0)
      invariant bestMatch.Some? ==> IsClosest(entries[..k], uri, bestMatch.value)
    {
      ghost var seen := entries[..k];
      var here := entries[k];
      var better := IsUriMatch(uri, here.0, if bestMatch.Some? then Some(bestMatch.value.0) else None);
      assert entries[..k + 1] == seen + [here];
      if bestMatch.Some? {
        BestStep(entries, k, uri, bestMatch.value, here);
      }
      if better {
        bestMatch := Some(here);
      }
    }
    assert entries[..|entries|] == entries;
    return if bestMatch.Some? then Some(bestMatch.value.1) else None;
  }

  lemma BestStep<T>(entries: seq<(string, T)>, k: nat, uri: string, best: (string, T), here: (string, T))
    requires IsMap(entries) && k < |entries| && here == entries[k]
    requires IsClosest(entries[..k], uri, best)
    ensures IsClosest(entries[..k] + [here], uri,
              if Matches(uri, here.0) && Closer(uri, here.0, best.0) then here else best)
  {
    var i :| 0 <= i < k && entries[i] == best;
    assert best.0 != here.0;
    forall e | e in entries[..k] && Matches(uri, e.0) && Matches(uri, here.0) && e.0 != best.0
      ensures Closer(uri, here.0, best.0) ==> Closer(uri, here.0, e.0)
    {
      CloserIsStrictTotalOrder(uri, here.0, best.0, e.0);
    }
    if Matches(uri, here.0) {
      CloserIsStrictTotalOrder(uri, here.0, best.0, best.0);
    }
  }

  /** The choice does not depend on the order in which the map is walked. */
  lemma ChoiceIgnoresOrder<T>(entries: seq<(string, T)>, others: seq<(string, T)>, uri: string,
                              a: (string, T), b: (string, T))
    requires IsMap(entries) && IsMap(others) && forall e :: e in entries <==> e in others
    requires IsClosest(entries, uri, a) && IsClosest(others, uri, b)
    ensures a == b
  {
    if a.0 != b.0 {
      var i :| 0 <= i < |entries| && entries[i] == a;
      var j :| 0 <= j < |others| && others[j] == b;
      CloserIsStrictTotalOrder(uri, a.0, b.0, a.0);
    } else {
      assert b in entries;
      var i :| 0 <= i < |entries| && entries[i] == a;
      var j :| 0 <= j < |entries| && entries[j] == b;
    }
  }
}
