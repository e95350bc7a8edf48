/** How a response becomes the pieces of the output queue (srcs/Response.cpp), and what
    a client that follows section 4.4 of RFC 2616 reads from them. */
module Responses {
  import opened Maps
  import opened Text
  import opened Numbers
  import opened HeaderNames
  import Body = BodyParsing

  const PIECE: nat := 4000

  // ----- pieces

  function Pieces(text: string): seq<string>
    decreases |text|
  {
    if text == "" then []
    else
      var n := if |text| > PIECE then PIECE else |text|;
      [text[..n]] + Pieces(text[n..])
  }

  /** Every piece has between 1 and 4000 bytes, and together they are the text. */
  lemma {:induction false} PiecesAreText(text: string)
    ensures Body.Concat(Pieces(text)) == text
    ensures forall p :: p in Pieces(text) ==> 1 <= |p| <= PIECE
    decreases |text|
  {
    if text != "" {
      var n := if |text| > PIECE then PIECE else |text|;
      PiecesAreText(text[n..]);
      assert text[..n] + text[n..] == text;
      assert Pieces(text)[1..] == Pieces(text[n..]);
    }
  }

  /** The 100 response. */
  class SingleLineResponse {
    const status: int
    var response: string

    constructor (status: int)
      ensures this.status == status && response == "HTTP/1.1 100 Continue\r\n"
    {
      this.status := status;
      response := "HTTP/1.1 100 Continue\r\n";
    }

    method WriteResponse(queue: seq<string>) returns (out: seq<string>)
      modifies this
      ensures response == "" && out == queue + Pieces(old(response))
    {
      out := queue;
      while response != ""
        invariant out + Pieces(response) == queue + Pieces(old(response))
        decreases |response|
      {
        var portion := response[..if |response| > PIECE then PIECE else |response|];
        out := out + [portion];
        response := response[|portion|..];
      }
    }
  }

  // ----- headers

  /** An entry of the header map, under its name as it was first spelled. */
  datatype Entry = Entry(name: string, value: string)

  type Headers = map<string, Entry>

  function SetHeader(h: Headers, name: string, value: string): Headers {
    var k := Fold(name);
    h[k := Entry(if k in h then h[k].name else name, value)]
  }

  /** The name as it was first spelled. */
  function Spelt(h: Headers, name: string): string { if Fold(name) in h then h[Fold(name)].name else name }

  function LineOf(e: Entry): string { e.name + ": " + e.value }

  /** The lines of the entries under `keys`, in the order of the map. */
  function LinesOf(h: Headers, keys: set<string>): seq<string>
    requires keys <= h.Keys
    decreases keys
  {
    match First(keys)
    case None => []
    case Some(k) => [LineOf(h[k])] + LinesOf(h, keys - {k})
  }

  function CookieLines(cookies: seq<string>): seq<string> {
    if cookies == [] then [] else ["Set-Cookie: " + cookies[0]] + CookieLines(cookies[1..])
  }

  /** Lines, each with its CRLF. */
  function Join(lines: seq<string>): string {
    if lines == [] then "" else lines[0] + CRLF + Join(lines[1..])
  }

  lemma {:induction false} JoinAppend(a: seq<string>, b: seq<string>)
    ensures Join(a + b) == Join(a) + Join(b)
    decreases |a|
  {
    if a == [] {
      assert a + b == b;
    } else {
      JoinAppend(a[1..], b);
      assert (a + b)[1..] == a[1..] + b;
    }
  }

  /** One more line behind what is formatted already. */
  lemma LineAdded(start: string, lines: seq<string>, a: string, b: string, c: string)
    ensures start + Join(lines) + a + b + c + CRLF == start + Join(lines + [a + b + c])
  {
    var line := a + b + c;
    JoinAppend(lines, [line]);
    assert [line][1..] == [];
    assert line + CRLF + "" == line + CRLF;
    assert start + Join(lines) + a + b + c + CRLF == start + (Join(lines) + (line + CRLF));
  }

  lemma OneLine(start: string, line: string)
    ensures start + Join([line]) == start + line + CRLF
  {
    assert [line][1..] == [];
    assert start + (line + CRLF + "") == start + line + CRLF;
  }

  function StatusLine(status: int, reason: string): string
    requires IsInt32(status)
  {
    "HTTP/1.1 " + IntToString(status, 10) + " " + reason
  }

  /** The lines of the header block. */
  function BlockLines(status: int, reason: string, h: Headers, cookies: seq<string>): seq<string>
    requires IsInt32(status)
  {
    [StatusLine(status, reason)] + LinesOf(h, h.Keys) + CookieLines(cookies)
  }

  /** The keys of the map that are left come behind the others. */
  ghost predicate LeftBehind(keys: set<string>, left: set<string>) {
    left <= keys && forall i, j :: i in left && j in keys - left ==> Before(j, i)
  }

  lemma BehindFirst(keys: set<string>, left: set<string>, k: string)
    requires LeftBehind(keys, left) && IsFirst(k, left)
    ensures Behind(keys, k) == left - {k} && LeftBehind(keys, left - {k})
  {
    hide Before;
    forall j | j in keys ensures j in Behind(keys, k) <==> j in left - {k} { BeforeIsTotal(j, k); }
    forall i, j | i in left - {k} && j in keys - (left - {k}) ensures Before(j, i) {
      if j != k { assert j in keys - left; }
    }
  }

  /** A response made in memory: its head from the hints of the request, and its body. */
  class DynamicResponse {
    const status: int
    const reason: string
    const cookies: seq<string>
    const isHead: bool
    var headers: Headers
    var formatted: string
    var body: string

    constructor (status: int, reason: string, headers: Headers, cookies: seq<string>, isHead: bool)
      ensures this.status == status && this.reason == reason && this.headers == headers && this.cookies == cookies
      ensures this.isHead == isHead && formatted == "" && body == ""
    {
      this.status, this.reason, this.headers, this.cookies, this.isHead := status, reason, headers, cookies, isHead;
      formatted, body := "", "";
    }

    /** The end of generateBody, for the text that the generators made. */
    method GenerateBody(text: string)
      modifies `headers, `body
      ensures body == text
      ensures headers ==
              SetHeader(SetHeader(old(headers), "Content-Length", Digits(|text|, 10)), "Content-Type", "text/html")
      ensures Fold("Content-Length") in headers &&
        headers[Fold("Content-Length")] == Entry(Spelt(old(headers), "Content-Length"), Digits(|text|, 10))
      ensures Fold("Content-Type") in headers &&
        headers[Fold("Content-Type")] == Entry(Spelt(old(headers), "Content-Type"), "text/html")
      ensures forall k :: k in headers && k !in {Fold("Content-Length"), Fold("Content-Type")} ==>
                k in old(headers) && headers[k] == old(headers)[k]
      ensures forall k :: k in old(headers) ==> k in headers
    {
      hide Fold;
      LengthAndType();
      body := text;
      headers := SetHeader(headers, "Content-Length", Digits(|body|, 10));
      headers := SetHeader(headers, "Content-Type", "text/html");
    }

    /** _formatHeaders */
    method FormatHeaders()
      requires IsInt32(status)
      modifies `formatted
      ensures formatted == old(formatted) + Join(BlockLines(status, reason, headers, cookies)) + CRLF
    {
      hide Before, Digits, Join, First, StatusLine;
      ghost var start := formatted;
      formatted := formatted + StatusLine(status, reason) + CRLF;
      ghost var left, lines := headers.Keys, [StatusLine(status, reason)];
      OneLine(start, StatusLine(status, reason));
      var it := First(headers.Keys);
      while it.Some?
        invariant LeftBehind(headers.Keys, left) && it == First(left)
        invariant formatted == start + Join(lines)
        invariant lines + LinesOf(headers, left) == [StatusLine(status, reason)] + LinesOf(headers, headers.Keys)
        decreases left
      {
        var k := it.value;
        formatted := formatted + headers[k].name + ": " + headers[k].value + CRLF;
        LineAdded(start, lines, headers[k].name, ": ", headers[k].value);
        lines := lines + [LineOf(headers[k])];
        BehindFirst(headers.Keys, left, k);
        left := left - {k};
        it := First(Behind(headers.Keys, k));
      }
      var i := 0;
      while i < |cookies|
        invariant 0 <= i <= |cookies| && formatted == start + Join(lines)
        invariant lines + CookieLines(cookies[i..]) == BlockLines(status, reason, headers, cookies)
      {
        formatted := formatted + "Set-Cookie: " + cookies[i] + CRLF;
        LineAdded(start, lines, "", "Set-Cookie: ", cookies[i]);
        assert start + Join(lines) + "" == start + Join(lines) && "" + "Set-Cookie: " == "Set-Cookie: ";
        lines := lines + ["Set-Cookie: " + cookies[i]];
        i := i + 1;
      }
      assert cookies[i..] == [] && lines + [] == lines;
      formatted := formatted + CRLF;
    }

    /** HeaderResponse::writeResponse */
    method WriteHeaders(queue: seq<string>) returns (out: seq<string>)
      requires IsInt32(status) && formatted == ""
      modifies `formatted
      ensures formatted == "" && out == queue + Pieces(Join(BlockLines(status, reason, headers, cookies)) + CRLF)
    {
      hide BlockLines, Join;
      FormatHeaders();
      ghost var block := formatted;
      assert block == Join(BlockLines(status, reason, headers, cookies)) + CRLF;
      out := queue;
      while formatted != ""
        invariant out + Pieces(formatted) == queue + Pieces(block)
        decreases |formatted|
      {
        var portion := formatted[..if |formatted| > PIECE then PIECE else |formatted|];
        out := out + [portion];
        formatted := formatted[|portion|..];
      }
    }

    /** writeResponse: a HEAD request gets no body. */
    method WriteResponse(queue: seq<string>) returns (out: seq<string>)
      requires IsInt32(status) && formatted == ""
      modifies `formatted, `body
      ensures out == queue + Pieces(Join(BlockLines(status, reason, headers, cookies)) + CRLF) +
                     Pieces(if isHead then "" else old(body))
    {
      hide BlockLines, Join;
      out := WriteHeaders(queue);
      ghost var before := out;
      while body != "" && !isHead
        invariant out + Pieces(if isHead then "" else body) == before + Pieces(if isHead then "" else old(body))
        decreases |body|
      {
        var portion := body[..if |body| > PIECE then PIECE else |body|];
        out := out + [portion];
        body := body[|portion|..];
      }
      assert out + [] == out;
    }
  }

  // ----- what a client reads

  datatype Received = Received(lines: seq<string>, body: string)

  /** The lines up to the first blank one, and the bytes behind it. */
  function ReadResponse(text: string): Option<Received>
    decreases |text|
  {
    match LineEnd(text)
    case None => None
    case Some(i) =>
      if i + 2 > |text| then None
      else if i == 0 then Some(Received([], text[2..]))
      else match ReadResponse(text[i + 2..])
        case None => None
        case Some(r) => Some(Received([text[..i]] + r.lines, r.body))
  }

  predicate IsLine(line: string) { line != "" && LineEnd(line).None? }

  lemma {:induction false} BlockReadsBack(lines: seq<string>, body: string)
    requires forall l :: l in lines ==> IsLine(l)
    ensures ReadResponse(Join(lines) + CRLF + body) == Some(Received(lines, body))
    decreases |lines|
  {
    hide LineEnd;
    var text := Join(lines) + CRLF + body;
    if lines == [] {
      NoLineEnd();
      LineEndOf("", body);
      assert text == "" + CRLF + body && text[2..] == body;
    } else {
      var line, more := lines[0], Join(lines[1..]) + CRLF + body;
      assert IsLine(line);
      assert text == line + CRLF + more;
      LineEndOf(line, more);
      assert text[..|line|] == line && text[|line| + 2..] == more;
      BlockReadsBack(lines[1..], body);
      assert [line] + lines[1..] == lines;
    }
  }

  /** The values of the lines with that name, letter case aside. */
  function ValuesOf(lines: seq<string>, name: string): seq<string> {
    if lines == [] then [] else ValueOf(lines[0], name) + ValuesOf(lines[1..], name)
  }

  function ValueOf(line: string, name: string): seq<string> {
    match Find(line, ": ", 0)
    case Some(i) => if Fold(line[..i]) == Fold(name) && i + 2 <= |line| then [line[i + 2..]] else []
    case None => []
  }

  /** The header map of a response: each entry is under its folded name, without a colon,
      and all its lines are lines. */
  predicate Clean(status: int, reason: string, h: Headers, cookies: seq<string>)
    requires IsInt32(status)
  {
    && (forall l :: l in BlockLines(status, reason, h, cookies) ==> IsLine(l))
    && (forall k :: k in h ==> Fold(h[k].name) == k && ':' !in h[k].name)
  }

  lemma {:induction false} ValuesAppend(a: seq<string>, b: seq<string>, name: string)
    ensures ValuesOf(a + b, name) == ValuesOf(a, name) + ValuesOf(b, name)
    decreases |a|
  {
    hide ValueOf;
    if a == [] {
      assert a + b == b;
    } else {
      ValuesAppend(a[1..], b, name);
      assert (a + b)[1..] == a[1..] + b;
    }
  }

  /** A line with a blank in front of its first colon has no name that is a token. */
  lemma NoToken(line: string, k: nat, name: string)
    requires k < |line| && line[k] == ' ' && NoNul(line[..k]) && ':' !in line[..k] && ' ' !in name
    ensures ValuesOf([line], name) == []
  {
    hide Find, Fold;
    var i := Find(line, ": ", 0);
    assert [line][1..] == [];
    if i.Some? {
      assert line[i.value..i.value + 2][0] == line[i.value] == ':';
      FoldKeeps(line[..i.value], k);
      FoldLacks(name);
    }
  }

  lemma {:induction false} FoldKeeps(s: string, k: nat)
    requires k < |s| && s[k] == ' ' && forall i :: 0 <= i < k ==> s[i] != '\0'
    ensures ' ' in Fold(s)
    decreases k
  {
    if k > 0 {
      assert s[1..][k - 1] == s[k];
      FoldKeeps(s[1..], k - 1);
    }
  }

  lemma {:induction false} FoldLacks(s: string)
    requires ' ' !in s
    ensures ' ' !in Fold(s)
  {
    if s != "" { FoldLacks(s[1..]); }
  }

  lemma {:induction false} CookieValues(cookies: seq<string>, name: string)
    ensures ValuesOf(CookieLines(cookies), name) == if Fold(name) == Fold("Set-Cookie") then cookies else []
    decreases |cookies|
  {
    hide ValuesOf, Fold, LineOf;
    if cookies == [] {
      ValuesOfNone(name);
    } else {
      var e := Entry("Set-Cookie", cookies[0]);
      EntryValue(e, name);
      CookieLine(cookies[0]);
      CookieValues(cookies[1..], name);
      ValuesAppend([LineOf(e)], CookieLines(cookies[1..]), name);
      assert [cookies[0]] + cookies[1..] == cookies;
    }
  }

  lemma CookieLine(c: string)
    ensures LineOf(Entry("Set-Cookie", c)) == "Set-Cookie: " + c
  {
    assert "Set-Cookie" + ": " == "Set-Cookie: ";
  }

  lemma ValuesOfNone(name: string)
    ensures ValuesOf([], name) == []
  {
  }

  lemma EntryValue(e: Entry, name: string)
    requires ':' !in e.name
    ensures ValuesOf([LineOf(e)], name) == if Fold(e.name) == Fold(name) then [e.value] else []
  {
    hide Find, Fold;
    var line: string := LineOf(e);
    var rest: seq<string> := [line][1..];
    assert rest == [];
    ColonAfter(e.name, e.value);
    assert line[..|e.name|] == e.name && line[|e.name| + 2..] == e.value;
  }

  lemma ColonAfter(name: string, value: string)
    requires ':' !in name
    ensures Find(name + ": " + value, ": ", 0) == Some(|name|)
  {
    hide Find;
    var s := name + ": " + value;
    assert s[|name|..|name| + 2] == ": ";
    FindLeast(s, ": ", 0, |name|);
    assert forall j :: 0 <= j < |name| ==> s[j] == name[j] && name[j] in name;
    var i := Find(s, ": ", 0).value;
    assert s[i..i + 2][0] == s[i] == ':';
  }

  lemma {:induction false} EntriesValue(h: Headers, keys: set<string>, name: string)
    requires keys <= h.Keys && forall k :: k in keys ==> Fold(h[k].name) == k && ':' !in h[k].name
    ensures ValuesOf(LinesOf(h, keys), name) == if Fold(name) in keys then [h[Fold(name)].value] else []
    decreases keys
  {
    hide Fold, ValuesOf, First, LineOf;
    if keys == {} {
      ValuesOfNone(name);
    } else {
      var k := First(keys).value;
      EntryValue(h[k], name);
      EntriesValue(h, keys - {k}, name);
      ValuesAppend([LineOf(h[k])], LinesOf(h, keys - {k}), name);
    }
  }

  /** The two names that generateBody sets are two entries. */
  lemma LengthAndType()
    ensures Fold("Content-Length") == Fold("content-length") != Fold("Content-Type")
    ensures Fold("content-length") != Fold("Set-Cookie")
  {
    hide Fold, SameLetter;
    var s, t := "Content-Length", "content-length";
    forall i | 0 <= i < |s| ensures SameLetter(s[i], t[i]) { LetterCase(s[i], t[i]); }
    FoldSameLetters("Content-Length", "content-length");
    FoldSameLetters("Content-Length", "Content-Type");
    FoldSameLetters("content-length", "Set-Cookie");
  }

  /** A client finds every header and every cookie in the head. */
  lemma ValuesReadBack(status: int, reason: string, h: Headers, cookies: seq<string>, name: string)
    requires IsInt32(status) && Clean(status, reason, h, cookies) && ' ' !in name
    ensures ValuesOf(BlockLines(status, reason, h, cookies), name) ==
            (if Fold(name) in h then [h[Fold(name)].value] else []) +
            (if Fold(name) == Fold("Set-Cookie") then cookies else [])
  {
    hide Fold, ValuesOf, LinesOf, CookieLines, IsLine, IntToString;
    var first := StatusLine(status, reason);
    assert first[..8] == "HTTP/1.1" && first[8] == ' ';
    NoToken(first, 8, name);
    EntriesValue(h, h.Keys, name);
    CookieValues(cookies, name);
    ValuesAppend([first], LinesOf(h, h.Keys), name);
    ValuesAppend([first] + LinesOf(h, h.Keys), CookieLines(cookies), name);
  }

  /** The status and the reason that a client reads from the first line. */
  function ReadStatus(line: string): Option<(int, string)> {
    match Find(line, " ", 0)
    case None => None
    case Some(i) =>
      if i + 1 > |line| || line[..i] != "HTTP/1.1" then None
      else match Find(line, " ", i + 1)
        case None => None
        case Some(j) =>
          if j + 1 > |line| then None
          else match ParseInt(line[i + 1..j], 10)
            case Number(n) => Some((n, line[j + 1..]))
            case _ => None
  }

  lemma StatusReadsBack(status: int, reason: string)
    requires IsInt32(status)
    ensures ReadStatus(StatusLine(status, reason)) == Some((status, reason))
  {
    hide Find, ParseInt, IntToString, OccursAt;
    var line, code := StatusLine(status, reason), IntToString(status, 10);
    RoundTrip(status, 10);
    NoBlankIn(status);
    BlankFound(line, 0, 8);
    BlankFound(line, 9, 9 + |code|);
    assert line[..8] == "HTTP/1.1" && line[9..9 + |code|] == code && line[9 + |code| + 1..] == reason;
  }

  lemma BlankFound(s: string, i: nat, j: nat)
    requires i <= j < |s| && s[j] == ' ' && ' ' !in s[i..j]
    ensures Find(s, " ", i) == Some(j)
  {
    hide Find;
    assert s[j..j + 1] == " ";
    FindLeast(s, " ", i, j);
    var k := Find(s, " ", i).value;
    assert s[k..k + 1][0] == s[k];
  }

  lemma {:induction false} DigitsOnly(n: nat)
    ensures ' ' !in Digits(n, 10)
  {
    if n >= 10 { DigitsOnly(n / 10); }
  }

  lemma NoBlankIn(x: int)
    requires IsInt32(x)
    ensures ' ' !in IntToString(x, 10)
  {
    hide Digits;
    DigitsOnly(if x < 0 then -x else x);
  }

  type Status = s: int | IsInt32(s) witness 200

  /** A response made in memory: what its head is made of, the text of its body, and
      whether it answers a HEAD request. */
  datatype Answer = Answer(
    status: Status, reason: string, headers: Headers, cookies: seq<string>, text: string, isHead: bool)

  /** The headers once generateBody has set its two. */
  function FinalHeaders(a: Answer): Headers {
    SetHeader(SetHeader(a.headers, "Content-Length", Digits(|a.text|, 10)), "Content-Type", "text/html")
  }

  predicate Framable(a: Answer) {
    |a.text| < 0x8000_0000 && Clean(a.status, a.reason, FinalHeaders(a), a.cookies)
  }

  function AnswerLines(a: Answer): seq<string>
  {
    BlockLines(a.status, a.reason, FinalHeaders(a), a.cookies)
  }

  function SentBody(a: Answer): string { if a.isHead then "" else a.text }

  /** The pieces of a response, as writeResponse queues them. */
  function AnswerPieces(a: Answer): seq<string>
  {
    Pieces(Join(AnswerLines(a)) + CRLF) + Pieces(SentBody(a))
  }

  lemma AnswerText(a: Answer)
    ensures Body.Concat(AnswerPieces(a)) == Join(AnswerLines(a)) + CRLF + SentBody(a)
    ensures forall p :: p in AnswerPieces(a) ==> 1 <= |p| <= PIECE
  {
    hide AnswerLines, Join, Pieces, Body.Concat;
    var block := Join(AnswerLines(a)) + CRLF;
    PiecesAreText(block);
    PiecesAreText(SentBody(a));
    Body.ConcatAppend(Pieces(block), Pieces(SentBody(a)));
  }

  /** The length that a head announces. */
  function AnnouncedLength(lines: seq<string>): Option<nat> {
    var values := ValuesOf(lines, "content-length");
    if |values| != 1 then None
    else match ParseInt(values[0], 10)
      case Number(n) => if n >= 0 then Some(n) else None
      case _ => None
  }

  lemma AnnouncesBody(a: Answer)
    requires Framable(a)
    ensures ValuesOf(AnswerLines(a), "content-length") == [Digits(|a.text|, 10)]
    ensures AnnouncedLength(AnswerLines(a)) == Some(|a.text|)
  {
    hide Fold, ValuesOf, Digits, ParseInt, BlockLines, IsLine;
    LengthAndType();
    ValuesReadBack(a.status, a.reason, FinalHeaders(a), a.cookies, "content-length");
    ExactWhenInt32(|a.text|);
  }

  /** The framing of a response made in memory: its pieces have 1 to 4000 bytes each and
      are read as the lines of its head, with one Content-Length, whose number is the
      number of bytes behind the blank line unless the request was HEAD. */
  lemma ResponseIsFramed(a: Answer)
    requires Framable(a)
    ensures forall p :: p in AnswerPieces(a) ==> 1 <= |p| <= PIECE
    ensures ReadResponse(Body.Concat(AnswerPieces(a))) == Some(Received(AnswerLines(a), SentBody(a)))
    ensures ValuesOf(AnswerLines(a), "content-length") == [Digits(|a.text|, 10)]
    ensures AnnouncedLength(AnswerLines(a)) == Some(|a.text|)
  {
    hide AnswerLines, AnswerPieces, Join, ReadResponse, ValuesOf, Digits, AnnouncedLength, Body.Concat, IsLine;
    AnswerText(a);
    AnnouncesBody(a);
    CleanLines(a);
    BlockReadsBack(AnswerLines(a), SentBody(a));
  }

  /** A client reads back the status and the reason, every header under any spelling of its
      name, and every cookie. */
  lemma HeadersReadBack(a: Answer)
    requires Framable(a)
    ensures ReadStatus(AnswerLines(a)[0]) == Some((a.status, a.reason))
    ensures forall name :: ' ' !in name ==>
              ValuesOf(AnswerLines(a), name) ==
              (if Fold(name) in FinalHeaders(a) then [FinalHeaders(a)[Fold(name)].value] else []) +
              (if Fold(name) == Fold("Set-Cookie") then a.cookies else [])
  {
    hide ReadStatus, StatusLine, ValuesOf, Fold, FinalHeaders, LinesOf, CookieLines, IsLine;
    StatusReadsBack(a.status, a.reason);
    forall name | ' ' !in name
      ensures ValuesOf(AnswerLines(a), name) ==
              (if Fold(name) in FinalHeaders(a) then [FinalHeaders(a)[Fold(name)].value] else []) +
              (if Fold(name) == Fold("Set-Cookie") then a.cookies else [])
    {
      ValuesReadBack(a.status, a.reason, FinalHeaders(a), a.cookies, name);
    }
  }

  lemma CleanLines(a: Answer)
    requires Framable(a)
    ensures forall l :: l in AnswerLines(a) ==> IsLine(l)
  {
    hide IsLine, BlockLines, FinalHeaders;
  }

  /** A client on one connection: it reads a head, and then as many bytes as the head
      announces, unless it has asked for the head only. `heads` tells that, request by
      request. */
  function ReadAnswers(text: string, heads: seq<bool>): Option<(seq<Received>, string)>
    decreases |heads|
  {
    if heads == [] then Some(([], text))
    else match ReadResponse(text)
      case None => None
      case Some(r) =>
        match if heads[0] then Some(0) else AnnouncedLength(r.lines)
        case None => None
        case Some(n) =>
          if n > |r.body| then None
          else match ReadAnswers(r.body[n..], heads[1..])
            case None => None
            case Some(more) => Some(([Received(r.lines, r.body[..n])] + more.0, more.1))
  }

  function Heads(answers: seq<Answer>): seq<bool> {
    if answers == [] then [] else [answers[0].isHead] + Heads(answers[1..])
  }

  function Contents(answers: seq<Answer>): seq<Received>
  {
    if answers == [] then []
    else [Received(AnswerLines(answers[0]), SentBody(answers[0]))] + Contents(answers[1..])
  }

  /** The bytes of any number of responses on one connection. */
  function WireText(answers: seq<Answer>): string
  {
    if answers == [] then "" else Body.Concat(AnswerPieces(answers[0])) + WireText(answers[1..])
  }

  /** The client gets exactly the responses, one by one, and what follows them. */
  lemma {:induction false} AnswersReadBack(answers: seq<Answer>, rest: string)
    requires forall a :: a in answers ==> Framable(a)
    ensures ReadAnswers(WireText(answers) + rest, Heads(answers)) == Some((Contents(answers), rest))
    decreases |answers|
  {
    hide *;
    if answers == [] {
      NoAnswers(rest);
    } else {
      var a, more := answers[0], WireText(answers[1..]) + rest;
      assert a in answers;
      FirstAnswer(a, more);
      BodyThenMore(a, more);
      AnswersReadBack(answers[1..], rest);
      AnswersCons(answers, rest);
      ReadOne(Join(AnswerLines(a)) + CRLF + (SentBody(a) + more), a.isHead, Heads(answers[1..]));
    }
  }

  lemma NoAnswers(rest: string)
    ensures ReadAnswers(WireText([]) + rest, Heads([])) == Some((Contents([]), rest))
  {
    assert "" + rest == rest;
  }

  /** What the client makes of the bytes when the next response starts there. */
  lemma FirstAnswer(a: Answer, more: string)
    requires Framable(a)
    ensures ReadResponse(Join(AnswerLines(a)) + CRLF + (SentBody(a) + more)) ==
            Some(Received(AnswerLines(a), SentBody(a) + more))
    ensures AnnouncedLength(AnswerLines(a)) == Some(|a.text|)
  {
    hide *;
    AnnouncesBody(a);
    CleanLines(a);
    BlockReadsBack(AnswerLines(a), SentBody(a) + more);
  }

  lemma ReadOne(text: string, head: bool, heads: seq<bool>)
    ensures match ReadResponse(text)
            case None => true
            case Some(r) =>
              match if head then Some(0) else AnnouncedLength(r.lines)
              case None => true
              case Some(n) =>
                n <= |r.body| && ReadAnswers(r.body[n..], heads).Some? ==>
                  var m := ReadAnswers(r.body[n..], heads).value;
                  ReadAnswers(text, [head] + heads) == Some(([Received(r.lines, r.body[..n])] + m.0, m.1))
  {
    hide ReadResponse, AnnouncedLength;
    assert ([head] + heads)[1..] == heads;
  }

  lemma AnswersCons(answers: seq<Answer>, rest: string)
    requires answers != []
    ensures var a := answers[0];
            && WireText(answers) + rest == Join(AnswerLines(a)) + CRLF + (SentBody(a) + (WireText(answers[1..]) + rest))
            && Heads(answers) == [a.isHead] + Heads(answers[1..])
            && Contents(answers) == [Received(AnswerLines(a), SentBody(a))] + Contents(answers[1..])
  {
    hide *;
    var a := answers[0];
    AnswerText(a);
    WireCons(answers);
    Regroup(Join(AnswerLines(a)), SentBody(a), WireText(answers[1..]), rest);
  }

  lemma WireCons(answers: seq<Answer>)
    requires answers != []
    ensures WireText(answers) == Body.Concat(AnswerPieces(answers[0])) + WireText(answers[1..])
    ensures Heads(answers) == [answers[0].isHead] + Heads(answers[1..])
    ensures Contents(answers) == [Received(AnswerLines(answers[0]), SentBody(answers[0]))] + Contents(answers[1..])
  {
    hide AnswerPieces, AnswerLines, SentBody, Body.Concat;
  }

  lemma Regroup(block: string, body: string, wire: string, rest: string)
    ensures block + CRLF + body + wire + rest == block + CRLF + (body + (wire + rest))
  {
    assert block + CRLF + body + wire + rest == block + CRLF + (body + wire + rest);
  }

  lemma BodyThenMore(a: Answer, more: string)
    ensures var n := if a.isHead then 0 else |a.text|;
            var body := SentBody(a) + more;
            n <= |body| && body[..n] == SentBody(a) && body[n..] == more
  {
  }
}
