/** The two scanners of the configuration file (srcs/IParseConfig.cpp): getNextBlock,
    which counts braces line by line, and getNextWord, which reads words and quotes.
    Printed configurations show that they agree. */
module Config {
  import opened Text

  /** What get and peek return at the end, once it is put in a char. */
  const END_BYTE: char := 255 as char

  predicate IsSpace(c: char) {
    c == ' ' || c == '\t' || c == '\n' || c == 11 as char || c == 12 as char || c == '\r'
  }

  predicate IsDelimiter(c: char) { IsSpace(c) || c == END_BYTE || c == ';' || c == '{' || c == '}' }

  /** The next character, as peek sees it. */
  function Next(s: string): char { if s == "" then END_BYTE else s[0] }

  // ----- words

  function DropSpaces(s: string): (r: string)
    ensures |r| <= |s|
  {
    if s != "" && IsSpace(s[0]) then DropSpaces(s[1..]) else s
  }

  /** skipComment: past the next line feed; a byte 255 passes for the end. */
  function DropComment(s: string): (r: string)
    ensures |r| <= |s|
  {
    if Next(s) == END_BYTE then s else DropLine(s)
  }

  function DropLine(s: string): (r: string)
    ensures |r| <= |s|
  {
    if s == "" then "" else if s[0] == '\n' || s[0] == END_BYTE then s[1..] else DropLine(s[1..])
  }

  datatype QuoteRun = Closed(word: string, rest: string) | Unclosed

  /** parseQuote: what is between here and the closing quote joins the word. */
  function ReadQuote(s: string, word: string, escaped: bool): (r: QuoteRun)
    ensures r.Closed? ==> |r.rest| < |s|
  {
    if s == "" then Unclosed
    else if s[0] == '\n' then ReadQuote(s[1..], word + [s[0]], false)
    else if s[0] == '\\' && !escaped then ReadQuote(s[1..], word, true)
    else if s[0] == '"' && !escaped then Closed(word, s[1..])
    else ReadQuote(s[1..], word + [s[0]], false)
  }

  datatype WordRun = Stop(word: string, rest: string) | OpenQuote

  predicate StartsComment(cur: char, word: string, after: string) {
    (cur == '/' && word == "" && Next(after) == '/') || cur == '#'
  }

  /** The loop of getNextWord. */
  function ReadWord(s: string, word: string, escaped: bool): (r: WordRun)
    ensures r.Stop? ==> |r.rest| <= |s|
    ensures r.Stop? && !escaped && |r.rest| == |s| ==> r.word == word
    decreases |s|, escaped
  {
    if escaped && s == "" then Stop(word + [END_BYTE], "")
    else if !escaped && IsDelimiter(Next(s)) then Stop(word, s)
    else if escaped then ReadWord(s[1..], word + [s[0]], false)
    else if s[0] == '\\' then ReadWord(s[1..], word, true)
    else if s[0] == '"' then
      (match ReadQuote(s[1..], word, false)
       case Unclosed => OpenQuote
       case Closed(w, rest) => ReadWord(rest, w, false))
    else if StartsComment(s[0], word, s[1..]) then ReadWord(DropSpaces(DropComment(s[1..])), word, false)
    else ReadWord(s[1..], word + [s[0]], false)
  }

  /** getNextWord: a word, or no word in front of a delimiter. */
  function NextWord(s: string): (r: WordRun)
    ensures r.Stop? ==> |r.rest| <= |s| && (r.word != "" ==> |r.rest| < |s|)
  {
    ReadWord(DropSpaces(s), "", false)
  }

  // ----- blocks

  /** The state of getNextBlock between two characters. */
  datatype Depth = Depth(braces: int, quoted: bool, escaped: bool)

  const OUTSIDE: Depth := Depth(0, false, false)

  datatype BlockRun = Found(inner: string, rest: string) | UnexpectedBrace(rest: string) | UnclosedBlock | LastBlock

  /** One character that neither opens the first brace nor closes the last one. A line
      feed is not seen by the scanner, which works on lines. */
  function Walk(d: Depth, c: char): Depth {
    if c == '\n' then d
    else if d.escaped then d.(escaped := false)
    else if c == '\\' then d.(escaped := true)
    else if c == '"' then d.(quoted := !d.quoted)
    else if !d.quoted && c == '{' then d.(braces := d.braces + 1)
    else if !d.quoted && c == '}' then d.(braces := d.braces - 1)
    else d
  }

  predicate Structural(d: Depth, c: char) { !d.escaped && !d.quoted && (c == '{' || c == '}') }

  /** getNextBlock on the text: what is between the first brace and its match. */
  function FindBlock(s: string, d: Depth, inner: string): BlockRun {
    if s == "" then if d.braces > 0 then UnclosedBlock else LastBlock
    else if Structural(d, s[0]) && s[0] == '{' && d.braces == 0 then FindBlock(s[1..], Walk(d, s[0]), "")
    else if Structural(d, s[0]) && s[0] == '}' && d.braces == 1 then Found(inner, s[1..])
    else if Structural(d, s[0]) && s[0] == '}' && d.braces < 1 then UnexpectedBrace(s[1..])
    else FindBlock(s[1..], Walk(d, s[0]), if d.braces > 0 then inner + [s[0]] else inner)
  }

  lemma {:induction false} FoundIsShorter(s: string, d: Depth, inner: string)
    ensures match FindBlock(s, d, inner)
            case Found(i, rest) => |i| + |rest| < |inner| + |s| && |rest| < |s|
            case UnexpectedBrace(rest) => |rest| < |s|
            case _ => true
    decreases |s|
  {
    hide Walk;
    if s != "" {
      FoundIsShorter(s[1..], Walk(d, s[0]), if d.braces > 0 then inner + [s[0]] else inner);
      FoundIsShorter(s[1..], Walk(d, s[0]), "");
    }
  }

  function NextBlock(s: string): (r: BlockRun)
    ensures r.Found? ==> |r.inner| + |r.rest| < |s|
    ensures r.UnexpectedBrace? ==> |r.rest| < |s|
  {
    FoundIsShorter(s, OUTSIDE, "");
    FindBlock(s, OUTSIDE, "")
  }

  // ----- lines

  function FirstLine(s: string): (l: string)
    ensures |l| <= |s| && l == s[..|l|] && '\n' !in l && (|l| < |s| ==> s[|l|] == '\n')
  {
    if s == "" || s[0] == '\n' then "" else [s[0]] + FirstLine(s[1..])
  }

  /** The line around a position. */
  function LineAt(s: string, i: nat): (l: string)
    requires i <= |s|
    ensures |l| <= |s|
    decreases |s|
  {
    var l := FirstLine(s);
    if i <= |l| then l else LineAt(s[|l| + 1..], i - |l| - 1)
  }

  /** Where getNextBlock stops scanning. */
  function StopsAt(s: string): (i: nat)
    ensures i <= |s|
  {
    match NextBlock(s)
    case Found(_, rest) => |s| - |rest| - 1
    case UnexpectedBrace(rest) => |s| - |rest| - 1
    case _ => |s|
  }

  /** The line that getNextBlock leaves in the buffer. */
  function LastLine(s: string): (l: string)
    ensures |l| <= |s|
  {
    LineAt(s, StopsAt(s))
  }

  lemma {:induction false} FirstLineIs(l: string, tail: string)
    requires '\n' !in l && (tail != "" ==> tail[0] == '\n')
    ensures FirstLine(l + tail) == l
    decreases |l|
  {
    if l == "" {
      assert l + tail == tail;
    } else {
      FirstLineIs(l[1..], tail);
      assert (l + tail)[1..] == l[1..] + tail;
    }
  }

  lemma LineStep(s: string, i: nat)
    requires i <= |s|
    ensures var l := FirstLine(s); LineAt(s, i) == if i <= |l| then l else LineAt(s[|l| + 1..], i - |l| - 1)
  {
  }

  /** The lines of what follows a line are lines of the whole. */
  lemma LinesBehind(l: string, rest: string)
    requires '\n' !in l
    ensures var s := l + ("\n" + rest);
            && (forall k :: 0 <= k <= |rest| ==> LineAt(s, |s| - |rest| + k) == LineAt(rest, k))
            && (forall k :: 0 <= k <= |l| ==> LineAt(s, k) == l)
  {
    hide LineAt, FirstLine;
    var s := l + ("\n" + rest);
    FirstLineIs(l, "\n" + rest);
    assert s[|l| + 1..] == rest;
    forall k | 0 <= k <= |rest| ensures LineAt(s, |s| - |rest| + k) == LineAt(rest, k) {
      LineStep(s, |s| - |rest| + k);
    }
    forall k | 0 <= k <= |l| ensures LineAt(s, k) == l { LineStep(s, k); }
  }

  lemma OneLine(s: string)
    requires '\n' !in s
    ensures forall k :: 0 <= k <= |s| ==> LineAt(s, k) == s
  {
    assert s + "" == s;
    FirstLineIs(s, "");
  }

  // ----- endings

  ghost predicate EndsWith(s: string, t: string) { |t| <= |s| && s[|s| - |t|..] == t }

  /** The last `n` characters, or nothing if there are not that many. */
  function Ending(s: string, n: nat): (r: string)
    ensures |r| <= n && |r| <= |s|
  {
    if n <= |s| then s[|s| - n..] else ""
  }

  // ----- directives

  datatype Values = Values(words: seq<string>, rest: string) | BadValues

  /** parseValues: the words up to the next delimiter. */
  function ReadValues(s: string): (r: Values)
    ensures r.Values? ==> |r.rest| <= |s|
    decreases |s|
  {
    match NextWord(s)
    case OpenQuote => BadValues
    case Stop(word, rest) =>
      if word == "" then Values([], rest)
      else match ReadValues(rest)
        case BadValues => BadValues
        case Values(words, left) => Values([word] + words, left)
  }

  /** checkSemiColon */
  function AfterSemicolon(s: string): (r: Option<string>)
    ensures r.Some? ==> |r.value| < |s|
  {
    var t := DropSpaces(s);
    if t != "" && t[0] == ';' then Some(t[1..]) else None
  }

  // ----- the parser

  /** An input stream over a text; `eof` is its flag. */
  class Stream {
    const text: string
    var pos: nat
    var eof: bool

    constructor (text: string)
      ensures this.text == text && pos == 0 && !eof && Valid() && Rest() == text
    {
      this.text := text;
      pos, eof := 0, false;
    }

    ghost predicate Valid()
      reads this
    {
      pos <= |text| && (eof ==> pos == |text|)
    }

    /** What has not been read. */
    ghost function Rest(): string
      requires Valid()
      reads this
    {
      text[pos..]
    }

    method Peek() returns (c: char)
      requires Valid()
      modifies `eof
      ensures Valid() && c == Next(Rest()) && Rest() == old(Rest())
      ensures eof <==> Rest() == ""
    {
      if pos == |text| {
        eof := true;
        return END_BYTE;
      }
      return text[pos];
    }

    method Get() returns (c: char)
      requires Valid()
      modifies this
      ensures Valid() && c == Next(old(Rest()))
      ensures Rest() == if old(Rest()) == "" then "" else old(Rest())[1..]
      ensures eof <==> old(Rest()) == ""
    {
      if pos == |text| {
        eof := true;
        return END_BYTE;
      }
      c := text[pos];
      pos := pos + 1;
    }

    /** getline into a buffer that a stream at its end leaves as it is. */
    method GetLine(buffer: string) returns (line: string)
      requires Valid()
      modifies this
      ensures Valid() && (old(eof) || '\n' !in line)
      ensures old(eof) ==> line == buffer && unchanged(this)
      ensures !old(eof) ==> old(Rest()) == line + (if eof then "" else "\n" + Rest())
      ensures !old(eof) && eof ==> Rest() == ""
      ensures !old(eof) ==> pos == old(pos) + |line| + if eof then 0 else 1
    {
      if eof { return buffer; }
      var i := pos;
      while i < |text| && text[i] != '\n'
        invariant pos <= i <= |text| && '\n' !in text[pos..i]
      {
        i := i + 1;
      }
      line := text[pos..i];
      ghost var rest := Rest();
      if i == |text| {
        eof := true;
        pos := i;
        assert rest == line;
      } else {
        assert rest == line + ("\n" + text[i + 1..]);
        pos := i + 1;
      }
    }

    /** The seek of getNextBlock, behind a line of which `left` characters are not used: a
        stream at its end counts from there, another one from behind the line feed. Either
        way it leads to what is `behind` the last character used. */
    method StepBack(left: nat, ghost behind: string)
      requires Valid() && (!eof ==> left < pos)
      modifies `pos, `eof
      ensures Valid() && (old(eof) ==> Rest() == Ending(text, left))
      ensures EndsWith(text, behind) && |behind| == (if old(eof) then left else |text| - old(pos) + left + 1) ==>
        Rest() == behind
    {
      if !eof {
        pos := pos - left - 1;
      } else if left <= pos {
        pos, eof := pos - left, false;
      }
    }
  }

  /** skipSpace */
  method SkipSpace(stream: Stream)
    requires stream.Valid()
    modifies stream
    ensures stream.Valid() && stream.Rest() == DropSpaces(old(stream.Rest()))
  {
    var c := stream.Peek();
    while IsSpace(c)
      invariant stream.Valid() && c == Next(stream.Rest()) &&
        DropSpaces(stream.Rest()) == DropSpaces(old(stream.Rest()))
      decreases |stream.Rest()|
    {
      c := stream.Get();
      c := stream.Peek();
    }
  }

  method SkipComment(stream: Stream)
    requires stream.Valid()
    modifies stream
    ensures stream.Valid() && stream.Rest() == DropComment(old(stream.Rest()))
  {
    var c := stream.Peek();
    if c == END_BYTE { return; }
    while c != END_BYTE
      invariant stream.Valid() && (c != END_BYTE ==> DropLine(stream.Rest()) == DropLine(old(stream.Rest())))
      invariant c == END_BYTE ==> stream.Rest() == DropLine(old(stream.Rest()))
      decreases if c == END_BYTE then 0 else 1 + |stream.Rest()|
    {
      c := stream.Get();
      if c == '\n' { return; }
    }
  }

  /** parseQuote; `closed` is false when it throws. */
  method ParseQuote(stream: Stream, dest: string) returns (closed: bool, word: string)
    requires stream.Valid() && !stream.eof
    modifies stream
    ensures stream.Valid()
    ensures match ReadQuote(old(stream.Rest()), dest, false)
            case Closed(w, rest) => closed && word == w && stream.Rest() == rest && !stream.eof
            case Unclosed => !closed
  {
    var escaped := false;
    word := dest;
    while !stream.eof
      invariant stream.Valid() && (stream.eof ==> ReadQuote(old(stream.Rest()), dest, false).Unclosed?)
      invariant !stream.eof ==> ReadQuote(stream.Rest(), word, escaped) == ReadQuote(old(stream.Rest()), dest, false)
      decreases if stream.eof then 0 else 1 + |stream.Rest()|
    {
      var c := stream.Get();
      if c == '\n' {
      } else if c == '\\' && !escaped {
        escaped := true;
        continue;
      } else if c == '"' && !escaped {
        return true, word;
      }
      word := word + [c];
      escaped := false;
    }
    closed := false;
  }

  /** getNextWord: `ret` tells that the word is not empty; `open` that a quote is not
      closed. */
  method GetNextWord(stream: Stream) returns (ret: bool, open: bool, word: string)
    requires stream.Valid()
    modifies stream
    ensures stream.Valid()
    ensures match NextWord(old(stream.Rest()))
            case OpenQuote => open
            case Stop(w, rest) =>
              !open && word == w && stream.Rest() == rest && ret == (w != "") && (stream.eof <==> rest == "")
  {
    SkipSpace(stream);
    word := "";
    var escaped := false;
    var next := stream.Peek();
    while escaped || !IsDelimiter(next)
      invariant stream.Valid() && next == Next(stream.Rest()) && (stream.eof <==> stream.Rest() == "")
      invariant ReadWord(stream.Rest(), word, escaped) == NextWord(old(stream.Rest()))
      decreases |stream.Rest()|, escaped
    {
      var cur := stream.Get();
      if escaped {
        word := word + [cur];
        escaped := false;
      } else if cur == '\\' {
        escaped := true;
      } else if cur == '"' {
        var closed;
        closed, word := ParseQuote(stream, word);
        if !closed { return false, true, word; }
      } else {
        var after := stream.Peek();
        if (cur == '/' && word == "" && after == '/') || cur == '#' {
          SkipComment(stream);
          SkipSpace(stream);
        } else {
          word := word + [cur];
        }
      }
      next := stream.Peek();
    }
    return word != "", false, word;
  }

  method CheckSemiColon(stream: Stream) returns (found: bool)
    requires stream.Valid()
    modifies stream
    ensures stream.Valid()
    ensures match AfterSemicolon(old(stream.Rest()))
            case None => !found
            case Some(rest) => found && stream.Rest() == rest
  {
    SkipSpace(stream);
    var c := stream.Peek();
    if c != ';' { return false; }
    c := stream.Get();
    return true;
  }

  method ParseValues(stream: Stream) returns (open: bool, words: seq<string>)
    requires stream.Valid()
    modifies stream
    ensures stream.Valid()
    ensures match ReadValues(old(stream.Rest()))
            case BadValues => open
            case Values(ws, rest) => !open && words == ws && stream.Rest() == rest && (stream.eof <==> rest == "")
  {
    words := [];
    var ret, word := true, "";
    while ret
      invariant stream.Valid() && (!ret ==> (stream.eof <==> stream.Rest() == ""))
      invariant ReadValues(old(stream.Rest())) ==
                if ret then Ahead(words, ReadValues(stream.Rest())) else Values(words, stream.Rest())
      decreases if ret then 1 + |stream.Rest()| else 0
    {
      ret, open, word := GetNextWord(stream);
      if open { return; }
      if ret { words := words + [word]; }
    }
    open := false;
  }

  function Ahead(words: seq<string>, v: Values): Values {
    match v
    case BadValues => BadValues
    case Values(more, rest) => Values(words + more, rest)
  }

  /** What FindBlock has gathered when a scan stands in a line. */
  function Gathered(d: Depth, out: string, part: string): string {
    if d.braces > 0 then out + part else ""
  }

  /** The loop of getNextBlock over one line: it stops at `it`, on the brace that closes
      the block, on one that should not be there, or at the end. */
  method ScanLine(line: string, from_: Depth, out: string, ghost tail: string)
    returns (d: Depth, start: nat, it: nat, unexpected: bool)
    requires '\n' !in line && from_.braces >= 0 && (from_.braces == 0 ==> out == "")
    ensures start <= it <= |line| && (it < |line| && !unexpected ==> d.braces == 0) && (unexpected ==> it < |line|)
    ensures unexpected ==>
      FindBlock(line + tail, from_, Gathered(from_, out, "")) == UnexpectedBrace(line[it + 1..] + tail)
    ensures !unexpected && it < |line| ==>
      FindBlock(line + tail, from_, Gathered(from_, out, "")) ==
      Found((if start > 0 then "" else out) + line[start..it], line[it + 1..] + tail)
    ensures !unexpected && it == |line| ==>
      d.braces >= 0 && (start > 0 ==> out == "" && d.braces > 0) && (d.braces == 0 ==> out == "") &&
      FindBlock(line + tail, from_, Gathered(from_, out, "")) == FindBlock(tail, d, Gathered(d, out, line[start..]))
  {
    hide FindBlock;
    d, start, it := from_, 0, 0;
    assert line[0..0] == "" && line[0..] == line && out + "" == out;
    while it < |line|
      invariant start <= it <= |line| && d.braces >= 0 && (d.braces == 0 ==> out == "" && start == 0)
      invariant start > 0 ==> out == ""
      invariant FindBlock(line[it..] + tail, d, Gathered(d, out, line[start..it])) ==
                FindBlock(line + tail, from_, Gathered(from_, out, ""))
    {
      var c := line[it];
      FindStep(line[it..] + tail, d, Gathered(d, out, line[start..it]));
      assert (line[it..] + tail)[1..] == line[it + 1..] + tail;
      assert out + line[start..it + 1] == out + line[start..it] + [c];
      assert line[it + 1..it + 1] == "";
      if d.escaped {
        d := d.(escaped := false);
      } else if c == '\\' {
        d := d.(escaped := true);
      } else if c == '"' {
        d := d.(quoted := !d.quoted);
      } else if !d.quoted && c == '{' {
        if d.braces == 0 { start := it + 1; }
        d := d.(braces := d.braces + 1);
      } else if !d.quoted && c == '}' {
        if d.braces <= 1 {
          unexpected := d.braces < 1;
          d := d.(braces := d.braces - 1);
          return;
        }
        d := d.(braces := d.braces - 1);
      }
      it := it + 1;
    }
    unexpected := false;
    assert line[it..] + tail == tail && line[start..it] == line[start..];
  }

  /** One step of FindBlock. */
  lemma FindStep(s: string, d: Depth, inner: string)
    requires s != ""
    ensures FindBlock(s, d, inner) ==
            if Structural(d, s[0]) && s[0] == '{' && d.braces == 0 then FindBlock(s[1..], Walk(d, s[0]), "")
            else if Structural(d, s[0]) && s[0] == '}' && d.braces == 1 then Found(inner, s[1..])
            else if Structural(d, s[0]) && s[0] == '}' && d.braces < 1 then UnexpectedBrace(s[1..])
            else FindBlock(s[1..], Walk(d, s[0]), if d.braces > 0 then inner + [s[0]] else inner)
  {
  }

  lemma EndOfLine(tail: string, d: Depth, inner: string)
    ensures tail == "" ==> FindBlock(tail, d, inner) == if d.braces > 0 then UnclosedBlock else LastBlock
    ensures tail != "" && tail[0] == '\n' ==>
      FindBlock(tail, d, inner) == FindBlock(tail[1..], d, if d.braces > 0 then inner + "\n" else inner)
  {
  }
}
