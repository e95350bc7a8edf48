/** Which of two matching locations is the closer one (isUriMatch in srcs/format.cpp), said
    of the expressions themselves: their last literals, and where these occur in the URI. */
module Closeness {
  import opened Text
  import opened Wildcard

  /** What may stand in front of a literal: nothing, or an expression that ends in a star. */
  predicate Open(x: string) { NoNul(x) && (x == "" || x[|x| - 1] == '*') }

  /** A text that an expression takes literally. */
  predicate Literally(s: string) { NoNul(s) && IsLiteral(s) }

  /** The last occurrence. */
  ghost predicate LastAt(uri: string, s: string, i: nat) {
    OccursAt(uri, s, i) && forall j: nat :: i < j ==> !OccursAt(uri, s, j)
  }

  // ----- pieces of composed expressions

  lemma {:induction false} LiteralGrows(x: string, t: string, i: nat)
    requires i <= |x| && NoNul(x) && (exists k :: i <= k < |x| && x[k] == '*')
    ensures LiteralLength(x + t, i) == LiteralLength(x, i) < |x|
    decreases |x| - i
  {
    assert (x + t)[i] == x[i];
    if x[i] != '*' { LiteralGrows(x, t, i + 1); }
  }

  lemma {:induction false} LiteralEnds(x: string, i: nat)
    requires i <= |x| && NoNul(x) && forall k :: i <= k < |x| ==> x[k] != '*'
    ensures LiteralLength(x + "*", i) == LiteralLength(x, i) == |x|
    ensures LiteralLength(x, i) == |x|
    decreases |x| - i
  {
    if i < |x| {
      assert (x + "*")[i] == x[i];
      LiteralEnds(x, i + 1);
    }
  }

  lemma {:induction false} TokensStar(x: string, i: nat)
    requires NoNul(x) && i <= |x|
    ensures TokensFrom(x + "*", i) == TokensFrom(x, i) + [Any]
    decreases |x| - i
  {
    hide TokensFrom, LiteralLength;
    var e := x + "*";
    TokensStep(e, i);
    TokensStep(x, i);
    if i == |x| {
      TokensStep(e, i + 1);
      assert [Any] + [] == [] + [Any];
    } else if x[i] == '*' {
      TokensStar(x, i + 1);
      assert [Any] + (TokensFrom(x, i + 1) + [Any]) == [Any] + TokensFrom(x, i + 1) + [Any];
    } else {
      if exists k :: i + 1 <= k < |x| && x[k] == '*' { LiteralGrows(x, "*", i + 1); } else { LiteralEnds(x, i + 1); }
      var j := LiteralLength(x, i + 1);
      TokensStar(x, j);
      assert e[i..j] == x[i..j];
      assert [Chars(x[i..j])] + (TokensFrom(x, j) + [Any]) == [Chars(x[i..j])] + TokensFrom(x, j) + [Any];
    }
  }

  lemma {:induction false} TokensLiteral(x: string, s: string, i: nat)
    requires Open(x) && Literally(s) && i <= |x|
    ensures TokensFrom(x + s, i) == TokensFrom(x, i) + [Chars(s)]
    decreases |x| - i
  {
    hide TokensFrom, LiteralLength;
    var e := x + s;
    TokensStep(e, i);
    TokensStep(x, i);
    if i == |x| {
      LiteralTail(x, s, 1);
      TokensStep(e, |e|);
      assert e[i..|e|] == s && [Chars(s)] + [] == [] + [Chars(s)];
    } else if x[i] == '*' {
      TokensLiteral(x, s, i + 1);
      assert [Any] + (TokensFrom(x, i + 1) + [Chars(s)]) == [Any] + TokensFrom(x, i + 1) + [Chars(s)];
    } else {
      assert x[|x| - 1] == '*';
      LiteralGrows(x, s, i + 1);
      var j := LiteralLength(x, i + 1);
      TokensLiteral(x, s, j);
      assert e[i..j] == x[i..j];
      assert [Chars(x[i..j])] + (TokensFrom(x, j) + [Chars(s)]) == [Chars(x[i..j])] + TokensFrom(x, j) + [Chars(s)];
    }
  }

  lemma {:induction false} LiteralTail(x: string, s: string, i: nat)
    requires Literally(s) && i <= |s|
    ensures LiteralLength(x + s, |x| + i) == |x| + |s|
    decreases |s| - i
  {
    if i < |s| {
      assert (x + s)[|x| + i] == s[i];
      LiteralTail(x, s, i + 1);
    }
  }

  lemma Pieces(x: string)
    requires NoNul(x)
    ensures TokensOf(x) == [] <==> x == ""
    ensures TokensOf(x + "*") == TokensOf(x) + [Any]
    ensures Open(x) ==> forall s :: Literally(s) ==> TokensOf(x + s) == TokensOf(x) + [Chars(s)]
  {
    hide TokensFrom, Literally;
    TokensStep(x, 0);
    TokensStar(x, 0);
    if Open(x) {
      forall s | Literally(s) ensures TokensOf(x + s) == TokensOf(x) + [Chars(s)] { TokensLiteral(x, s, 0); }
    }
  }

  lemma KeyOf(toks: Tokens, t: Token, uri: string)
    ensures var k := Key(toks + [t], uri);
            if t.Any? then k == [Star] + Key(toks, uri)
            else match RFind(uri, t.text)
                 case None => k == [Literal(|t.text| - 1, |t.text|)] + Key(toks, uri)
                 case Some(p) => k == [Literal(p + |t.text|, |t.text|)] + Key(toks, uri[..p])
  {
    hide Key, RFind;
    KeyStep(toks + [t], |toks| + 1, uri);
    assert (toks + [t])[..|toks| + 1] == toks + [t] && (toks + [t])[..|toks|] == toks;
  }

  lemma LastFound(uri: string, s: string, i: nat)
    requires LastAt(uri, s, i)
    ensures RFind(uri, s) == Some(i) && i + |s| <= |uri|
  {
    RFindGreatest(uri, s, |uri|, i);
  }

  // ----- the order

  /** An expression is closer than the empty one, which is closer than none. */
  lemma NothingIsLast(uri: string, x: string)
    requires NoNul(x)
    ensures !Closer(uri, "", x) && (Closer(uri, x, "") <==> x != "")
  {
    hide Key, TokensFrom;
    Pieces(x);
    Pieces("");
    KeyLength(TokensOf(x), uri);
    KeyLength(TokensOf(""), uri);
  }

  /** A star at the end of both decides nothing. */
  lemma StarTails(uri: string, x: string, y: string)
    requires NoNul(x) && NoNul(y)
    ensures Closer(uri, x + "*", y + "*") <==> Closer(uri, x, y)
  {
    hide Key, TokensFrom, Open;
    Pieces(x);
    Pieces(y);
    KeyOf(TokensOf(x), Any, uri);
    KeyOf(TokensOf(y), Any, uri);
    AboveStep(Key(TokensOf(x + "*"), uri), Key(TokensOf(y + "*"), uri));
  }

  /** An expression that ends in a literal is closer than one that ends in a star. */
  lemma LiteralBeatsStar(uri: string, x: string, s: string, y: string)
    requires Open(x) && Literally(s) && NoNul(y)
    ensures Closer(uri, x + s, y + "*") && !Closer(uri, y + "*", x + s)
  {
    hide Key, TokensFrom, Literally, RFind;
    Pieces(x);
    Pieces(y);
    KeyOf(TokensOf(x), Chars(s), uri);
    KeyOf(TokensOf(y), Any, uri);
    AboveStep(Key(TokensOf(x + s), uri), Key(TokensOf(y + "*"), uri));
    AboveStep(Key(TokensOf(y + "*"), uri), Key(TokensOf(x + s), uri));
  }

  /** Of two that end in literals, the one whose last occurrence ends further to the right
      is closer; then the longer literal; and of two with the same literal, what stands in
      front of it decides, in what stands in front of its last occurrence. */
  lemma LiteralTails(uri: string, x: string, s: string, i: nat, y: string, t: string, j: nat)
    requires Open(x) && Literally(s) && LastAt(uri, s, i) && Open(y) && Literally(t) && LastAt(uri, t, j)
    ensures i + |s| > j + |t| ==> Closer(uri, x + s, y + t)
    ensures i + |s| < j + |t| ==> !Closer(uri, x + s, y + t)
    ensures i + |s| == j + |t| && |s| > |t| ==> Closer(uri, x + s, y + t)
    ensures i + |s| == j + |t| && |s| < |t| ==> !Closer(uri, x + s, y + t)
    ensures s == t ==> i == j && (Closer(uri, x + s, y + t) <==> Closer(uri[..i], x, y))
  {
    hide Key, TokensFrom, Literally, RFind, LastAt;
    Pieces(x);
    Pieces(y);
    LastFound(uri, s, i);
    LastFound(uri, t, j);
    KeyOf(TokensOf(x), Chars(s), uri);
    KeyOf(TokensOf(y), Chars(t), uri);
    AboveStep(Key(TokensOf(x + s), uri), Key(TokensOf(y + t), uri));
  }

  lemma HasLast(uri: string, s: string, k: nat) returns (i: nat)
    requires OccursAt(uri, s, k)
    ensures LastAt(uri, s, i) && k <= i
  {
    hide OccursAt;
    OccursBound(uri, s, k);
    RFindGreatest(uri, s, |uri|, k);
    i := RFind(uri, s).value;
    forall j: nat | i < j ensures !OccursAt(uri, s, j) {
      if OccursAt(uri, s, j) {
        OccursBound(uri, s, j);
        RFindGreatest(uri, s, |uri|, j);
      }
    }
  }

  // ----- prefixes

  /** Some occurrence of `p` ends behind every occurrence of `q`. */
  ghost predicate EndsBehind(uri: string, p: string, q: string) {
    p != "" && exists k: nat :: OccursAt(uri, p, k) && forall j: nat :: OccursAt(uri, q, j) ==> j + |q| < k + |p|
  }

  /** Of two prefixes of the URI with a star behind them the longer one is closer, unless
      the shorter one occurs again behind the last occurrence of the longer one. */
  lemma PrefixOrder(uri: string, p: string, q: string)
    requires Literally(q) && p < q && OccursAt(uri, q, 0)
    ensures Closer(uri, q + "*", p + "*") <==> !EndsBehind(uri, p, q)
  {
    hide Closer, OccursAt;
    assert forall k :: 0 <= k < |p| ==> p[k] == q[k];
    StarTails(uri, q, p);
    var j := HasLast(uri, q, 0);
    if p == "" {
      NothingIsLast(uri, q);
    } else {
      PrefixOccurs(uri, p, q, 0);
      var i := HasLast(uri, p, 0);
      assert "" + q == q && "" + p == p;
      LiteralTails(uri, "", q, j, "", p, i);
    }
  }

  lemma PrefixOccurs(uri: string, p: string, q: string, k: nat)
    requires p <= q && OccursAt(uri, q, k)
    ensures OccursAt(uri, p, k)
  {
    assert uri[k..k + |p|] == uri[k..k + |q|][..|p|];
  }

  /** A prefix and a star. */
  predicate IsPrefix(e: string) {
    e != "" && e[|e| - 1] == '*' && forall k :: 0 <= k < |e| - 1 ==> e[k] != '*'
  }

  function Stem(e: string): string
    requires e != ""
  {
    e[..|e| - 1]
  }

  lemma StemFirst(uri: string, e: string)
    requires IsPrefix(e) && NoNul(e) && Matches(uri, e)
    ensures Stem(e) <= uri && OccursAt(uri, Stem(e), 0) && e == Stem(e) + "*" && NoNul(Stem(e))
    ensures Stem(e) != "" ==> Literally(Stem(e))
  {
    hide TokensFrom;
    var p := Stem(e);
    if p == "" {
    } else {
      Pieces(p);
      Pieces("");
      assert e == p + "*" && TokensOf("" + p) == TokensOf("") + [Chars(p)];
      assert "" + p == p && [] + [Chars(p)] == [Chars(p)];
      assert TokensOf(e) == [Chars(p), Any];
      assert OccursAt(uri, p, 0);
      assert uri[0..|p|] == p;
    }
  }

  /** Among locations that are prefixes, the longest one that matches is chosen, if and
      only if no shorter one occurs again in the URI behind it. */
  lemma LongestPrefixChosen<T>(entries: seq<(string, T)>, uri: string, longest: (string, T))
    requires IsMap(entries) && longest in entries && Matches(uri, longest.0)
    requires forall e :: e in entries && Matches(uri, e.0) ==> IsPrefix(e.0) && |e.0| <= |longest.0|
    ensures IsClosest(entries, uri, longest) <==>
            forall e :: e in entries && e.0 != longest.0 && Matches(uri, e.0) ==>
              !EndsBehind(uri, Stem(e.0), Stem(longest.0))
  {
    hide Matches, Closer, EndsBehind;
    StemFirst(uri, longest.0);
    forall e | e in entries && e.0 != longest.0 && Matches(uri, e.0)
      ensures Closer(uri, longest.0, e.0) <==> !EndsBehind(uri, Stem(e.0), Stem(longest.0))
    {
      StemFirst(uri, e.0);
      var p, q := Stem(e.0), Stem(longest.0);
      assert p == uri[..|p|] && q == uri[..|q|];
      assert p < q;
      PrefixOrder(uri, p, q);
    }
  }

  /** A nested location is chosen for what is in it. */
  lemma NestedLocation()
    ensures Closer("img/icons/a.png", "img/icons/*", "img/*") && !Closer("img/icons/a.png", "img/*", "img/icons/*")
  {
    hide Closer, OccursAt;
    var uri, p, q := "img/icons/a.png", "img/", "img/icons/";
    assert OccursAt(uri, q, 0) && OccursAt(uri, p, 0) by { ConcreteOccurs(); }
    forall j: nat | 0 < j ensures !OccursAt(uri, p, j) && !OccursAt(uri, q, j) {
      OccursFirst(uri, p, j);
      OccursFirst(uri, q, j);
      if j == 4 && OccursAt(uri, p, j) { OccursSecond(uri, p, j); }
      if j == 4 && OccursAt(uri, q, j) { OccursSecond(uri, q, j); }
    }
    assert q + "*" == "img/icons/*" && p + "*" == "img/*" && "" + p == p && "" + q == q;
    StarTails(uri, q, p);
    StarTails(uri, p, q);
    LiteralTails(uri, "", q, 0, "", p, 0);
    LiteralTails(uri, "", p, 0, "", q, 0);
  }

  lemma ConcreteOccurs()
    ensures OccursAt("img/icons/a.png", "img/icons/", 0) && OccursAt("img/icons/a.png", "img/", 0)
    ensures OccursAt("ab/a", "a", 3) && OccursAt("ab/a", "ab", 0)
  {
  }

  lemma OccursSecond(s: string, pat: string, i: nat)
    requires |pat| > 1 && OccursAt(s, pat, i)
    ensures i + 1 < |s| && s[i + 1] == pat[1]
  {
    assert s[i..i + |pat|][1] == s[i + 1];
  }

  /** The longer prefix need not win: here the shorter one occurs again at the end. */
  lemma RepeatedPrefix()
    ensures Closer("ab/a", "a*", "ab*") && !Closer("ab/a", "ab*", "a*")
  {
    hide Closer, OccursAt;
    ConcreteOccurs();
    forall j: nat | 3 < j ensures !OccursAt("ab/a", "a", j) { OccursFirst("ab/a", "a", j); }
    forall j: nat | 0 < j ensures !OccursAt("ab/a", "ab", j) {
      OccursFirst("ab/a", "ab", j);
      if j == 3 && OccursAt("ab/a", "ab", j) { OccursSecond("ab/a", "ab", j); }
    }
    assert "a" + "*" == "a*" && "ab" + "*" == "ab*" && "" + "a" == "a" && "" + "ab" == "ab";
    StarTails("ab/a", "a", "ab");
    StarTails("ab/a", "ab", "a");
    LiteralTails("ab/a", "", "a", 3, "", "ab", 0);
    LiteralTails("ab/a", "", "ab", 0, "", "a", 3);
  }

  // ----- literals at the end

  /** A match ends in the last literal of its expression. */
  lemma {:induction false} MatchEnds(uri: string, toks: Tokens, i: nat)
    requires NoNul(uri) && toks != [] && toks[|toks| - 1].Chars? && i <= |uri| && MatchFrom(uri, toks, i)
    ensures var l := toks[|toks| - 1].text; i + |l| <= |uri| && uri[|uri| - |l|..] == l
    decreases |toks|
  {
    hide MatchFrom, OccursAt, Find, NoNul;
    AtEnd(uri, toks, i);
    MatchTurn(uri, toks, i);
    var n := if toks[0].Any? then 2 else 1;
    var t := toks[n - 1];
    SpellIs(t);
    var f := if n == 2 then Find(uri, Spell(t), i).value else i;
    OccursBound(uri, Spell(t), f);
    if |toks| == n {
      Exhausted(uri, f + |Spell(t)|);
      OccursLast(uri, t.text, f);
    } else {
      assert toks[n..][|toks| - n - 1] == toks[|toks| - 1];
      MatchEnds(uri, toks[n..], f + |Spell(t)|);
    }
  }

  lemma SpellIs(t: Token)
    ensures t.Chars? ==> Spell(t) == t.text
  {
  }

  lemma Exhausted(uri: string, i: nat)
    requires NoNul(uri) && MatchFrom(uri, [], i) && i <= |uri|
    ensures i == |uri|
  {
  }

  lemma OccursLast(uri: string, s: string, f: nat)
    requires OccursAt(uri, s, f) && f + |s| == |uri|
    ensures uri[|uri| - |s|..] == s
  {
    assert uri[f..f + |s|] == uri[f..];
  }

  lemma EndIsLast(uri: string, s: string)
    requires |s| <= |uri| && uri[|uri| - |s|..] == s
    ensures LastAt(uri, s, |uri| - |s|)
  {
    assert uri[|uri| - |s|..|uri|] == s;
  }

  lemma TailOf(uri: string, x: string, s: string)
    requires NoNul(uri) && Open(x) && Literally(s) && Matches(uri, x + s)
    ensures |s| <= |uri| && uri[|uri| - |s|..] == s
  {
    hide MatchFrom, TokensFrom, Literally;
    Pieces(x);
    MatchEnds(uri, TokensOf(x + s), 0);
  }

  /** Of two matching expressions that end in literals the one with the longer literal is
      closer. */
  lemma LongerTail(uri: string, x: string, s: string, y: string, t: string)
    requires NoNul(uri) && Open(x) && Literally(s) && Open(y) && Literally(t)
    requires Matches(uri, x + s) && Matches(uri, y + t) && |s| > |t|
    ensures Closer(uri, x + s, y + t)
  {
    hide Matches, Closer, Literally, Open, LastAt;
    TailOf(uri, x, s);
    TailOf(uri, y, t);
    EndIsLast(uri, s);
    EndIsLast(uri, t);
    LiteralTails(uri, x, s, |uri| - |s|, y, t, |uri| - |t|);
  }

  /** What stands behind the last star. */
  lemma LastLiteral(e: string) returns (x: string, s: string)
    requires NoNul(e) && e != "" && e[|e| - 1] != '*'
    ensures Open(x) && Literally(s) && e == x + s
  {
    var k := |e| - 1;
    while k > 0 && e[k - 1] != '*'
      invariant 0 <= k < |e| && forall i :: k <= i < |e| ==> e[i] != '*'
    {
      k := k - 1;
    }
    x, s := e[..k], e[k..];
  }

  /** A literal as long as the URI leaves room for one star only. */
  lemma OneStarLeft(uri: string, y: string)
    requires NoNul(uri) && Literally(uri) && Open(y) && y != "" && Matches(uri, y + uri)
    ensures y == "*"
  {
    hide MatchFrom, TokensFrom, OccursAt, Find;
    Pieces(y);
    TokensPartition(y);
    var before := TokensOf(y);
    var toks := TokensOf(y + uri);
    assert toks == before + [Chars(uri)];
    AtEnd(uri, toks, 0);
    MatchTurn(uri, toks, 0);
    if before[0].Chars? {
      OccursBound(uri, toks[0].text, 0);
      assert toks[1..][|toks| - 2] == Chars(uri);
      MatchEnds(uri, toks[1..], |toks[0].text|);
    } else if |before| > 1 {
      var f := Find(uri, Spell(toks[1]), 0).value;
      OccursBound(uri, Spell(toks[1]), f);
      assert toks[2..][|toks| - 3] == Chars(uri);
      SpelledOut(before, 1);
      MatchEnds(uri, toks[2..], f + |Spell(toks[1])|);
    } else {
      assert before == [Any];
      ConcatNone();
      assert Concat([Any]) == "*" + Concat([]);
    }
  }

  lemma SpelledOut(toks: Tokens, k: nat)
    requires WellFormed(toks) && k < |toks|
    ensures Spell(toks[k]) != ""
  {
    PieceAt(toks, k);
  }

  /** The URI itself is closer than every other expression that matches it, except the one
      that has a star in front of it. */
  lemma ItselfIsClosest(uri: string, e: string)
    requires Literally(uri) && NoNul(e) && e != uri && Matches(uri, e)
    ensures Closer(uri, uri, e) <==> e != "*" + uri
  {
    hide Matches, Closer, Literally, LastAt, Open;
    EmptyIsOpen();
    assert "" + uri == uri && uri[|uri| - |uri|..] == uri;
    EndIsLast(uri, uri);
    assert NoNul(uri) by { LiterallyIs(uri); }
    NotEmpty(uri, e);
    if e[|e| - 1] == '*' {
      assert e == e[..|e| - 1] + "*";
      LiteralBeatsStar(uri, "", uri, e[..|e| - 1]);
      assert e != "*" + uri by { if e == "*" + uri { LastStar(uri, e); } }
    } else {
      var y, t := LastLiteral(e);
      TailOf(uri, y, t);
      EndIsLast(uri, t);
      LiteralTails(uri, "", uri, 0, y, t, |uri| - |t|);
      if |t| == |uri| {
        assert t == uri[0..] == uri;
        NothingIsLast(uri[..0], y);
        OneStarLeft(uri, y);
      } else {
        if e == "*" + uri { TailIsUri(uri, y, t); }
      }
    }
  }

  lemma LiterallyIs(s: string)
    ensures Literally(s) <==> NoNul(s) && IsLiteral(s)
  {
  }

  lemma EmptyIsOpen()
    ensures Open("")
  {
  }

  lemma NotEmpty(uri: string, e: string)
    requires Matches(uri, e)
    ensures e != ""
  {
  }

  lemma LastStar(uri: string, e: string)
    requires Literally(uri) && e == "*" + uri
    ensures e[|e| - 1] != '*'
  {
    assert e[|e| - 1] == uri[|uri| - 1];
  }

  lemma TailIsUri(uri: string, y: string, t: string)
    requires Literally(uri) && Open(y) && y + t == "*" + uri
    ensures |t| >= |uri|
  {
    assert forall k :: 0 <= k < |uri| ==> ("*" + uri)[k + 1] == uri[k];
    assert y != "" ==> (y + t)[|y| - 1] == y[|y| - 1];
  }

  /** That one does match. */
  lemma StarredItself(uri: string)
    requires Literally(uri)
    ensures Matches(uri, "*" + uri) && Closer(uri, "*" + uri, uri)
  {
    hide Closer, OccursAt, TokensFrom, Find, LastAt;
    Pieces("");
    Pieces("*");
    assert "" + "*" == "*" && "" + uri == uri;
    assert uri[0..|uri|] == uri;
    assert uri[|uri| - |uri|..] == uri;
    EndIsLast(uri, uri);
    assert TokensOf("*" + uri) == [Any, Chars(uri)];
    assert OccursAt(uri, uri, 0) by { EndIsLast(uri, uri); LastFound(uri, uri, 0); }
    FindLeast(uri, uri, 0, 0);
    MatchTurn(uri, [Any, Chars(uri)], 0);
    LiteralTails(uri, "*", uri, 0, "", uri, 0);
    NothingIsLast(uri[..0], "*");
  }
}
