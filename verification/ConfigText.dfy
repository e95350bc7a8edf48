/** Configuration texts as they are written: words with and without quotes, blanks and
    comments between them, and what the two scanners (srcs/IParseConfig.cpp) make of them. */
module ConfigText {
  import opened Text
  import opened Config

  predicate AllSpace(s: string) { forall c :: c in s ==> IsSpace(c) }

  /** A word between quotes, `"` and `\` escaped. */
  function Escape(w: string): string {
    if w == "" then "" else (if w[0] == '"' || w[0] == '\\' then ['\\', w[0]] else [w[0]]) + Escape(w[1..])
  }

  function Quoted(w: string): string { "\"" + Escape(w) + "\"" }

  // ----- comments

  /** A text that fits on one line, without the byte that passes for the end. */
  predicate OnOneLine(c: string) { '\n' !in c && END_BYTE !in c }

  lemma {:induction false} LineDropped(c: string, s: string)
    requires OnOneLine(c)
    ensures DropLine(c + "\n" + s) == s
    decreases |c|
  {
    var text := c + "\n" + s;
    if c == "" {
      assert text[1..] == s;
    } else {
      assert text[0] == c[0] && c[0] in c;
      assert text[1..] == c[1..] + "\n" + s;
      LineDropped(c[1..], s);
    }
  }

  /** A comment, and the blanks behind it, is skipped wherever a word may begin. */
  lemma CommentSkipped(c: string, s: string)
    requires OnOneLine(c)
    ensures NextWord("#" + c + "\n" + s) == NextWord(s)
    ensures NextWord("//" + c + "\n" + s) == NextWord(s)
  {
    hide DropLine, DropSpaces;
    CommentRead("", c, s);
    CommentRead("", "/" + c, s);
    var hash, slashes := "#" + c + "\n" + s, "//" + c + "\n" + s;
    NoSpaceFirst(hash);
    NoSpaceFirst(slashes);
    LineDropped("/" + c, s);
    assert slashes[1..] == "/" + c + "\n" + s;
    assert ReadWord(slashes, "", false) == ReadWord(DropSpaces(DropComment(slashes[1..])), "", false);
  }

  lemma NoSpaceFirst(s: string)
    requires s != "" && !IsSpace(s[0])
    ensures DropSpaces(s) == s
  {
  }

  lemma CommentRead(word: string, c: string, s: string)
    requires OnOneLine(c)
    ensures ReadWord("#" + c + "\n" + s, word, false) == ReadWord(DropSpaces(s), word, false)
  {
    hide DropLine, DropSpaces;
    var text := "#" + c + "\n" + s;
    LineDropped(c, s);
    assert text[1..] == c + "\n" + s;
    assert Next(text[1..]) == if c == "" then '\n' else c[0];
    assert c != "" ==> c[0] in c;
  }

  // ----- words

  /** A word that needs no quotes. */
  predicate Bare(w: string) {
    && w != "" && BareChars(w) && !(|w| > 1 && w[0] == '/' && w[1] == '/')
  }

  predicate BareChars(w: string) {
    forall c :: c in w ==>
      c !in {' ', '\t', '\n', 11 as char, 12 as char, '\r', END_BYTE, ';', '{', '}', '"', '\\', '#'}
  }

  /** Where a word ends: at a blank, one of `;{}`, or the end. */
  predicate Ends(rest: string) {
    rest == "" || rest[0] in {' ', '\t', '\n', 11 as char, 12 as char, '\r', END_BYTE, ';', '{', '}'}
  }

  lemma {:induction false} BareRead(w: string, word: string, rest: string)
    requires BareChars(w) && Ends(rest) && (word == "" ==> w == "" || Bare(w))
    ensures ReadWord(w + rest, word, false) == Stop(word + w, rest)
    decreases |w|
  {
    if w == "" {
      assert w + rest == rest && word + w == word;
    } else {
      assert w[0] in w && forall c :: c in w[1..] ==> c in w;
      assert (w + rest)[1..] == w[1..] + rest;
      assert !StartsComment(w[0], word, (w + rest)[1..]);
      BareRead(w[1..], word + [w[0]], rest);
      assert word + [w[0]] + w[1..] == word + w;
    }
  }

  /** A word without quotes is read back. */
  lemma BareReadsBack(w: string, rest: string)
    requires Bare(w) && Ends(rest)
    ensures NextWord(w + rest) == Stop(w, rest)
  {
    hide ReadWord;
    assert w[0] in w && (w + rest)[0] == w[0];
    NoSpaceFirst(w + rest);
    BareRead(w, "", rest);
    assert "" + w == w;
  }

  /** A comment right behind a word does not end it: the word goes on behind the comment and
      the blanks that follow. */
  lemma CommentInWord(w: string, c: string, gap: string, v: string, rest: string)
    requires Bare(w) && OnOneLine(c) && AllSpace(gap) && v != "" && BareChars(v) && Ends(rest)
    ensures NextWord(w + ("#" + c + "\n" + (gap + (v + rest)))) == Stop(w + v, rest)
  {
    hide ReadWord, BareChars, DropLine;
    var tail := "#" + c + "\n" + (gap + (v + rest));
    assert w[0] in w && (w + tail)[0] == w[0];
    assert !IsSpace(w[0]) by { BareIs(w); }
    NoSpaceFirst(w + tail);
    BareThen(w, "", tail);
    assert "" + w == w;
    CommentRead(w, c, gap + (v + rest));
    GapDropped(gap, v + rest);
    assert v[0] in v && (v + rest)[0] == v[0];
    assert !IsSpace(v[0]) by { BareIs(v); }
    NoSpaceFirst(v + rest);
    BareRead(v, w, rest);
  }

  lemma BareIs(w: string)
    requires BareChars(w)
    ensures forall c :: c in w ==> !IsSpace(c)
  {
  }

  lemma {:induction false} BareThen(w: string, word: string, tail: string)
    requires BareChars(w) && (word == "" ==> w == "" || Bare(w)) && tail != "" && tail[0] == '#'
    ensures ReadWord(w + tail, word, false) == ReadWord(tail, word + w, false)
    decreases |w|
  {
    if w == "" {
      assert w + tail == tail && word + w == word;
    } else {
      assert w[0] in w && forall c :: c in w[1..] ==> c in w;
      assert (w + tail)[1..] == w[1..] + tail;
      assert !StartsComment(w[0], word, (w + tail)[1..]);
      BareThen(w[1..], word + [w[0]], tail);
      assert word + [w[0]] + w[1..] == word + w;
    }
  }

  lemma {:induction false} QuoteReadsBack(w: string, word: string, rest: string)
    ensures ReadQuote(Escape(w) + "\"" + rest, word, false) == Closed(word + w, rest)
    decreases |w|
  {
    hide ReadQuote;
    var s := Escape(w) + "\"" + rest;
    QuoteStep(s, word, false);
    if w == "" {
      assert s[1..] == rest && word + w == word;
    } else {
      var more := Escape(w[1..]) + "\"" + rest;
      QuoteReadsBack(w[1..], word + [w[0]], rest);
      assert word + [w[0]] + w[1..] == word + w;
      if w[0] == '"' || w[0] == '\\' {
        assert s == ['\\', w[0]] + more;
        assert s[1..] == [w[0]] + more && s[1..][1..] == more;
        QuoteStep(s[1..], word, true);
      } else {
        assert s == [w[0]] + more && s[1..] == more;
      }
    }
  }

  lemma QuoteStep(s: string, word: string, escaped: bool)
    requires s != ""
    ensures ReadQuote(s, word, escaped) ==
            if s[0] == '\n' then ReadQuote(s[1..], word + [s[0]], false)
            else if s[0] == '\\' && !escaped then ReadQuote(s[1..], word, true)
            else if s[0] == '"' && !escaped then Closed(word, s[1..])
            else ReadQuote(s[1..], word + [s[0]], false)
  {
  }

  lemma {:induction false} GapDropped(gap: string, s: string)
    requires AllSpace(gap)
    ensures DropSpaces(gap + s) == DropSpaces(s)
  {
    if gap == "" {
      assert gap + s == s;
    } else {
      GapDropped(gap[1..], s);
      assert (gap + s)[1..] == gap[1..] + s;
    }
  }

  /** A quoted word in front of a delimiter is read back, whatever is in it. */
  lemma QuotedReadsBack(w: string, rest: string)
    requires Ends(rest)
    ensures NextWord(Quoted(w) + rest) == Stop(w, rest)
  {
    hide Escape, ReadQuote;
    var s := Quoted(w) + rest;
    assert s[0] == '"' && s[1..] == Escape(w) + "\"" + rest;
    QuoteReadsBack(w, "", rest);
    assert "" + w == w;
    assert DropSpaces(s) == s;
    assert ReadWord(rest, w, false) == Stop(w, rest);
  }

  // ----- gaps

  /** What may stand between words. */
  datatype Bit = Blank(c: char) | Remark(slashes: bool, text: string)

  type Gap = seq<Bit>

  function BitText(b: Bit): string {
    match b
    case Blank(c) => [c]
    case Remark(slashes, text) => (if slashes then "//" else "#") + text + "\n"
  }

  function GapText(gap: Gap): string { if gap == [] then "" else BitText(gap[0]) + GapText(gap[1..]) }

  /** A comment must not hold what the brace counter takes for structure. */
  predicate BitOk(b: Bit) {
    match b
    case Blank(c) => c in {' ', '\t', '\n', 11 as char, 12 as char, '\r'}
    case Remark(_, text) => OnOneLine(text) && Unstructured(text)
  }

  predicate Unstructured(s: string) { forall c :: c in s ==> c !in {'"', '\\', '{', '}'} }

  predicate GapOk(gap: Gap) { forall b :: b in gap ==> BitOk(b) }

  /** A gap that ends the word in front of it. */
  predicate Parts(gap: Gap) { GapOk(gap) && gap != [] && gap[0].Blank? }

  lemma {:induction false} GapSkipped(gap: Gap, s: string)
    requires GapOk(gap)
    ensures NextWord(GapText(gap) + s) == NextWord(s)
    decreases |gap|
  {
    hide ReadWord, GapOk, NextWord;
    if gap == [] {
      assert GapText(gap) + s == s;
    } else {
      var more := GapText(gap[1..]) + s;
      GapParts(gap);
      GapSkipped(gap[1..], s);
      assert GapText(gap) + s == BitText(gap[0]) + more;
      BitSkipped(gap[0], more);
    }
  }

  lemma GapParts(gap: Gap)
    requires GapOk(gap) && gap != []
    ensures BitOk(gap[0]) && GapOk(gap[1..])
  {
  }

  lemma BitSkipped(b: Bit, s: string)
    requires BitOk(b)
    ensures NextWord(BitText(b) + s) == NextWord(s)
  {
    hide ReadWord, DropLine;
    match b
    case Blank(c) => assert ([c] + s)[1..] == s;
    case Remark(slashes, text) => CommentSkipped(text, s);
  }

  lemma NoWord(gap: Gap, rest: string)
    requires GapOk(gap) && Ends(rest) && !IsSpace(Next(rest))
    ensures NextWord(GapText(gap) + rest) == Stop("", rest)
  {
    GapSkipped(gap, rest);
  }

  // ----- words behind gaps

  /** A word, and how it is written: what stands in front of it, and whether in quotes. */
  datatype Spelling = Spelling(gap: Gap, word: string, bare: bool)

  function SpellingText(s: Spelling): string { GapText(s.gap) + if s.bare then s.word else Quoted(s.word) }

  predicate SpellingOk(s: Spelling) { GapOk(s.gap) && s.word != "" && (s.bare ==> Bare(s.word)) }

  function PrintWords(ws: seq<Spelling>): string {
    if ws == [] then "" else SpellingText(ws[0]) + PrintWords(ws[1..])
  }

  function WordsOf(ws: seq<Spelling>): seq<string> {
    if ws == [] then [] else [ws[0].word] + WordsOf(ws[1..])
  }

  /** Words that follow another one. */
  predicate ValuesOk(ws: seq<Spelling>) { forall s :: s in ws ==> SpellingOk(s) && Parts(s.gap) }

  /** A word is read back however it is written. */
  lemma WordReadsBack(s: Spelling, rest: string)
    requires SpellingOk(s) && Ends(rest)
    ensures NextWord(SpellingText(s) + rest) == Stop(s.word, rest)
  {
    hide NextWord, GapText, Quoted, Bare;
    var text := if s.bare then s.word else Quoted(s.word);
    assert SpellingText(s) + rest == GapText(s.gap) + (text + rest);
    GapSkipped(s.gap, text + rest);
    if s.bare { BareReadsBack(s.word, rest); } else { QuotedReadsBack(s.word, rest); }
  }

  lemma {:induction false} ValuesReadBack(ws: seq<Spelling>, end: Gap, rest: string)
    requires ValuesOk(ws) && GapOk(end) && (end != [] ==> end[0].Blank?) && Ends(rest) && !IsSpace(Next(rest))
    ensures ReadValues(PrintWords(ws) + (GapText(end) + rest)) == Values(WordsOf(ws), rest)
    decreases |ws|
  {
    hide NextWord, SpellingText, GapText, SpellingOk, Parts, GapOk, Ends;
    if ws == [] {
      assert PrintWords(ws) + (GapText(end) + rest) == GapText(end) + rest;
      NoWord(end, rest);
    } else {
      var more := PrintWords(ws[1..]) + (GapText(end) + rest);
      assert PrintWords(ws) + (GapText(end) + rest) == SpellingText(ws[0]) + more;
      assert ws[0] in ws && forall s :: s in ws[1..] ==> s in ws;
      WordEnds(ws[1..], end, rest);
      WordReadsBack(ws[0], more);
      ValuesReadBack(ws[1..], end, rest);
      assert [ws[0].word] + WordsOf(ws[1..]) == WordsOf(ws);
      SpelledWord(ws[0]);
    }
  }

  lemma SpelledWord(s: Spelling)
    requires SpellingOk(s)
    ensures s.word != ""
  {
  }

  /** What follows a word ends it. */
  lemma WordEnds(ws: seq<Spelling>, end: Gap, rest: string)
    requires ValuesOk(ws) && GapOk(end) && (end != [] ==> end[0].Blank?) && Ends(rest)
    ensures Ends(PrintWords(ws) + (GapText(end) + rest))
  {
    hide GapText, Ends, SpellingText, Parts, GapOk, SpellingOk;
    if ws == [] {
      assert PrintWords(ws) + (GapText(end) + rest) == GapText(end) + rest;
      NothingEnds(end, rest);
    } else {
      assert ws[0] in ws;
      var more := PrintWords(ws[1..]) + (GapText(end) + rest);
      assert PrintWords(ws) + (GapText(end) + rest) == SpellingText(ws[0]) + more;
      SpellingEnds(ws[0], more);
    }
  }

  lemma SpellingEnds(s: Spelling, rest: string)
    requires Parts(s.gap)
    ensures Ends(SpellingText(s) + rest)
  {
    hide GapText, Ends, Quoted, Parts;
    var word := if s.bare then s.word else Quoted(s.word);
    assert SpellingText(s) + rest == GapText(s.gap) + (word + rest);
    BlankFirst(s.gap, word + rest);
  }

  lemma NothingEnds(gap: Gap, rest: string)
    requires GapOk(gap) && (gap != [] ==> gap[0].Blank?) && Ends(rest)
    ensures Ends(GapText(gap) + rest)
  {
    hide Ends;
    if gap == [] { assert GapText(gap) + rest == rest; } else { BlankFirst(gap, rest); }
  }

  lemma BlankFirst(gap: Gap, rest: string)
    requires Parts(gap)
    ensures Ends(GapText(gap) + rest)
  {
    assert gap[0] in gap;
    assert (GapText(gap) + rest)[0] == gap[0].c;
  }

  // ----- under the brace counter

  /** In a block, `x` leaves the brace counter where it was and is part of the block. */
  ghost predicate Level(x: string) {
    forall y, n: nat, inner :: n > 0 ==>
      FindBlock(x + y, Depth(n, false, false), inner) == FindBlock(y, Depth(n, false, false), inner + x)
  }

  lemma LevelAppend(a: string, b: string)
    requires Level(a) && Level(b)
    ensures Level(a + b)
  {
    hide FindBlock;
    forall y, n: nat, inner | n > 0
      ensures FindBlock(a + b + y, Depth(n, false, false), inner) ==
              FindBlock(y, Depth(n, false, false), inner + (a + b))
    {
      assert a + b + y == a + (b + y) && inner + (a + b) == inner + a + b;
    }
  }

  /** A character that is no structure. */
  lemma LevelChar(c: char)
    requires c !in {'"', '\\', '{', '}'}
    ensures Level([c])
  {
    hide FindBlock;
    forall y, n: nat, inner | n > 0
      ensures FindBlock([c] + y, Depth(n, false, false), inner) == FindBlock(y, Depth(n, false, false), inner + [c])
    {
      FindStep([c] + y, Depth(n, false, false), inner);
      assert ([c] + y)[1..] == y;
    }
  }

  lemma LevelNothing()
    ensures Level("")
  {
    hide FindBlock;
    assert forall y: string :: "" + y == y;
    assert forall inner: string :: inner + "" == inner;
  }

  lemma {:induction false} LevelUnstructured(s: string)
    requires Unstructured(s)
    ensures Level(s)
  {
    hide Level;
    if s == "" {
      LevelNothing();
    } else {
      assert s[0] in s && forall c :: c in s[1..] ==> c in s;
      LevelChar(s[0]);
      LevelUnstructured(s[1..]);
      LevelAppend([s[0]], s[1..]);
      assert [s[0]] + s[1..] == s;
    }
  }

  /** The brace counter passes over such a text in front of a block. */
  lemma {:induction false} UnstructuredOutside(s: string, rest: string)
    requires Unstructured(s)
    ensures FindBlock(s + rest, OUTSIDE, "") == FindBlock(rest, OUTSIDE, "")
    decreases |s|
  {
    hide FindBlock;
    if s == "" {
      assert s + rest == rest;
    } else {
      assert (s + rest)[0] == s[0] && s[0] in s && forall c :: c in s[1..] ==> c in s;
      FindStep(s + rest, OUTSIDE, "");
      assert (s + rest)[1..] == s[1..] + rest;
      UnstructuredOutside(s[1..], rest);
    }
  }

  lemma {:induction false} GapUnstructured(gap: Gap)
    requires GapOk(gap)
    ensures Unstructured(GapText(gap))
  {
    hide OnOneLine;
    if gap != [] {
      assert BitOk(gap[0]) by { assert gap[0] in gap; }
      assert GapOk(gap[1..]);
      GapUnstructured(gap[1..]);
      assert Unstructured(BitText(gap[0]));
    }
  }

  lemma LevelGap(gap: Gap)
    requires GapOk(gap)
    ensures Level(GapText(gap))
  {
    hide Level;
    GapUnstructured(gap);
    LevelUnstructured(GapText(gap));
  }

  /** Quoted braces are not structure. */
  lemma {:induction false} EscapedIsQuoted(w: string, y: string, n: nat, inner: string)
    requires n > 0
    ensures FindBlock(Escape(w) + "\"" + y, Depth(n, true, false), inner) ==
            FindBlock(y, Depth(n, false, false), inner + (Escape(w) + "\""))
    decreases |w|
  {
    hide FindBlock;
    var s := Escape(w) + "\"" + y;
    FindStep(s, Depth(n, true, false), inner);
    if w == "" {
      assert s[1..] == y && Escape(w) + "\"" == "\"";
    } else {
      var more := Escape(w[1..]) + "\"" + y;
      if w[0] == '"' || w[0] == '\\' {
        assert s == ['\\', w[0]] + more;
        assert s[1..] == [w[0]] + more;
        FindStep(s[1..], Depth(n, true, true), inner + ['\\']);
        assert s[1..][1..] == more;
        EscapedIsQuoted(w[1..], y, n, inner + ['\\'] + [w[0]]);
        assert inner + ['\\'] + [w[0]] + (Escape(w[1..]) + "\"") == inner + (Escape(w) + "\"");
      } else {
        assert s == [w[0]] + more && s[1..] == more;
        EscapedIsQuoted(w[1..], y, n, inner + [w[0]]);
        assert inner + [w[0]] + (Escape(w[1..]) + "\"") == inner + (Escape(w) + "\"");
      }
    }
  }

  lemma LevelQuoted(w: string)
    ensures Level(Quoted(w))
  {
    hide FindBlock, Escape;
    forall y, n: nat, inner | n > 0
      ensures FindBlock(Quoted(w) + y, Depth(n, false, false), inner) ==
              FindBlock(y, Depth(n, false, false), inner + Quoted(w))
    {
      var s := Quoted(w) + y;
      FindStep(s, Depth(n, false, false), inner);
      assert s[1..] == Escape(w) + "\"" + y;
      EscapedIsQuoted(w, y, n, inner + ['"']);
      assert inner + ['"'] + (Escape(w) + "\"") == inner + Quoted(w);
    }
  }

  lemma LevelBare(w: string)
    requires Bare(w)
    ensures Level(w)
  {
    hide Level;
    LevelUnstructured(w);
  }

  lemma {:induction false} LevelWords(ws: seq<Spelling>)
    requires forall s :: s in ws ==> SpellingOk(s)
    ensures Level(PrintWords(ws))
    decreases |ws|
  {
    hide Level, Quoted, Bare, GapText;
    if ws == [] {
      LevelNothing();
    } else {
      var s := ws[0];
      assert s in ws && forall v :: v in ws[1..] ==> v in ws;
      LevelGap(s.gap);
      if s.bare { LevelBare(s.word); } else { LevelQuoted(s.word); }
      LevelWords(ws[1..]);
      LevelAppend(GapText(s.gap), if s.bare then s.word else Quoted(s.word));
      LevelAppend(SpellingText(s), PrintWords(ws[1..]));
    }
  }

  lemma LevelBraces(x: string)
    requires Level(x)
    ensures Level("{" + x + "}")
  {
    hide FindBlock;
    forall y, n: nat, inner | n > 0
      ensures FindBlock("{" + x + "}" + y, Depth(n, false, false), inner) ==
              FindBlock(y, Depth(n, false, false), inner + ("{" + x + "}"))
    {
      var s := "{" + x + "}" + y;
      FindStep(s, Depth(n, false, false), inner);
      assert s[1..] == x + ("}" + y);
      FindStep("}" + y, Depth(n + 1, false, false), inner + ['{'] + x);
      assert ("}" + y)[1..] == y;
      assert inner + ['{'] + x + ['}'] == inner + ("{" + x + "}");
    }
  }

  /** To the brace counter a brace in a comment is a brace: here it ends the block. */
  lemma BraceInComment(x: string, rest: string)
    requires Level(x)
    ensures NextBlock("{" + x + "#}" + rest) == Found(x + "#", rest)
  {
    hide FindBlock;
    var s := "{" + x + "#}" + rest;
    FindStep(s, OUTSIDE, "");
    assert s[1..] == x + ("#}" + rest) && "" + x == x;
    FindStep("#}" + rest, Depth(1, false, false), x);
    assert ("#}" + rest)[1..] == "}" + rest;
    FindStep("}" + rest, Depth(1, false, false), x + "#");
    assert ("}" + rest)[1..] == rest;
  }
}
