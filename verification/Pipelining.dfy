/** Pipelined requests (section 8.1.2.2 of RFC 2616): what a client writes one after
    the other is what the parser reads. */
module Pipelining {
  import opened Text
  import opened Numbers
  import opened HeaderNames
  import opened HeadParsing
  import opened Messages
  import opened HeadChecks
  import Body = BodyParsing

  datatype Payload = Empty | Plain(data: string) | Chunks(chunks: seq<string>)

  datatype Request = Request(verb: nat, uri: string, version: string, fields: seq<Field>, payload: Payload)

  function HeadOf(r: Request): Head {
    Head(Term, r.verb, r.uri, AddAll(map[], r.fields))
  }

  function MessageOf(r: Request): Message {
    Message(HeadOf(r), match r.payload
                       case Empty => ""
                       case Plain(data) => data
                       case Chunks(chunks) => Body.Concat(chunks))
  }

  /** The CRLF that ends a chunked body stays behind the last chunk's line. */
  function Tail(r: Request): string {
    if r.payload.Chunks? then CRLF else ""
  }

  function BodyText(p: Payload): string {
    match p
    case Empty => ""
    case Plain(data) => data
    case Chunks(chunks) => Body.ChunksText(chunks) + CRLF
  }

  function RequestText(r: Request): string
    requires r.verb < |METHODS|
  {
    HeadText(r.verb, r.uri, r.version, r.fields) + BodyText(r.payload)
  }

  /** A request that the server serves, as its client writes it: a head that reads back and
      fits, a host, a URI and codings that are accepted, nothing expected, and a body that is
      announced as it is and within the limit of its host. */
  ghost predicate Writable(site: Site, r: Request) {
    && r.verb < |METHODS| && UriWritable(r.uri) && VersionWritable(r.version)
    && (forall f :: f in r.fields ==> FieldWritable(f))
    && |HeadText(r.verb, r.uri, r.version, r.fields)| <= 16000
    && ValuesOf(r.fields, "host") != [] && UriAccepted(r.uri) && Served(r.fields)
    && AllEmpty(ValuesOf(r.fields, "expect"))
    && Announces(r.fields, Announced(r.payload)) && LengthFits(site, r.fields)
    && match r.payload
       case Chunks(chunks) =>
         (forall c :: c in chunks ==> Body.ChunkWritable(c)) && |Body.ChunksText(chunks)| <= LimitFor(site, r.fields)
       case _ => true
  }

  /** How a body is to be announced. */
  function Announced(p: Payload): Framing {
    match p
    case Empty => NoBody
    case Plain(data) => if data == "" then NoBody else Sized(|data|)
    case Chunks(_) => Chunked
  }

  /** No length is given, or a number within the limit. */
  ghost predicate LengthFits(site: Site, fields: seq<Field>) {
    var lengths := ValuesOf(fields, "content-length");
    lengths == [] || exists n: nat :: n < 0x8000_0000 && n <= LimitFor(site, fields) && lengths == [Digits(n, 10)]
  }

  /** The same as the server sees it. */
  predicate Fits(site: Site, r: Request) {
    && r.verb < |METHODS| && UriWritable(r.uri) && VersionWritable(r.version)
    && (forall f :: f in r.fields ==> FieldWritable(f))
    && |HeadText(r.verb, r.uri, r.version, r.fields)| <= HEADER_MAX_BUFFER * BUFFER_SIZE
    && CheckHead(site, HeadOf(r)) == 0 && !Expects(HeadOf(r).headers)
    && FramingOf(HeadOf(r).headers) == Announced(r.payload)
    && match r.payload
       case Chunks(chunks) =>
         && (forall c :: c in chunks ==> Body.ChunkWritable(c))
         && |Body.ChunksText(chunks)| <= MaxSize(site, HeadOf(r).headers)
       case _ => true
  }

  lemma WritableFits(site: Site, r: Request)
    requires Writable(site, r)
    ensures Fits(site, r)
  {
    hide ValuesOf, UriAccepted, Served, AllEmpty, CheckHead, Expects, TooLong, LimitFor, MaxSize, AddAll, FramingOf,
      UriWritable, VersionWritable, FieldWritable, HeadText, Announces, Body.ChunkWritable, Body.ChunksText;
    HeadRefused(site, HeadOf(r), r.fields);
    Expectation(r.fields);
    HeadFraming(r.fields, Announced(r.payload));
    LengthChecked(site, r.fields);
  }

  function ScriptText(script: seq<Request>): string
    requires forall r :: r in script ==> r.verb < |METHODS|
  {
    if script == [] then "" else RequestText(script[0]) + ScriptText(script[1..])
  }

  function MessagesOf(script: seq<Request>): seq<Message> {
    if script == [] then [] else [MessageOf(script[0])] + MessagesOf(script[1..])
  }

  ghost predicate AllWritable(site: Site, script: seq<Request>) {
    forall r :: r in script ==> Writable(site, r)
  }

  predicate IsJunk(s: string) { SkipJunk(s) == "" }

  lemma JunkSkipped(site: Site, junk: string, x: string)
    requires IsJunk(junk)
    ensures Feed(site, START, junk + x) == Feed(site, START, x) && SkipJunk(junk + x) == SkipJunk(x)
  {
    hide RunHead, SkipJunk, StartBody, CheckHead;
    SkipJunkAppend(junk, x);
    assert "" + (junk + x) == junk + x && "" + x == x;
    RunNew(FRESH, junk + x);
    RunNew(FRESH, x);
  }

  /** After the head the stage depends on what follows it only. */
  lemma FeedHead(site: Site, r: Request, x: string)
    requires r.verb < |METHODS| && UriWritable(r.uri) && VersionWritable(r.version)
    requires forall f :: f in r.fields ==> FieldWritable(f)
    ensures Feed(site, START, HeadText(r.verb, r.uri, r.version, r.fields) + x) == StartBody(site, HeadOf(r), x)
  {
    hide RunHead, StartBody, HeadText, UriWritable, VersionWritable, FieldWritable;
    var data := HeadText(r.verb, r.uri, r.version, r.fields) + x;
    assert "" + data == data;
    HeadReadsBack(r.verb, r.uri, r.version, r.fields, x);
  }

  lemma BodyReadsBack(site: Site, r: Request, x: string)
    requires Fits(site, r)
    ensures StartBody(site, HeadOf(r), BodyText(r.payload) + x) == Ready(MessageOf(r), Tail(r) + x)
  {
    hide CheckHead, Expects, Body.RunChunks, Body.ChunkWritable, Body.ChunksText, UriWritable, FieldWritable,
      HeadText, FramingOf, MaxSize, AddAll;
    var data := BodyText(r.payload) + x;
    match r.payload
    case Empty =>
      assert data == x && Tail(r) + x == x;
    case Plain(text) =>
      assert data[..|text|] == text && data[|text|..] == x && Tail(r) + x == x;
    case Chunks(chunks) =>
      assert data == Body.ChunksText(chunks) + (CRLF + x);
      Body.ChunksReadBack(chunks, CRLF + x);
      assert [] + chunks == chunks;
  }

  /** One request, followed by anything, is read back whole: what is left is what
      follows it, with the last CRLF of a chunked body in front. */
  lemma RequestReadsBack(site: Site, r: Request, x: string)
    requires Writable(site, r)
    ensures Feed(site, START, RequestText(r) + x) == Ready(MessageOf(r), Tail(r) + x)
  {
    hide Feed, StartBody, CheckHead, Expects, UriWritable, VersionWritable, FieldWritable, HeadText, BodyText,
      FramingOf, MaxSize, Writable, Body.ChunkWritable, Body.ChunksText, MessageOf;
    WritableFits(site, r);
    assert RequestText(r) + x == HeadText(r.verb, r.uri, r.version, r.fields) + (BodyText(r.payload) + x);
    FeedHead(site, r, BodyText(r.payload) + x);
    BodyReadsBack(site, r, x);
  }

  function LastTail(junk: string, script: seq<Request>): string
    decreases |script|
  {
    if script == [] then junk else LastTail(Tail(script[0]), script[1..])
  }

  /** A stream that concatenates any number of requests is read as exactly those
      requests, in order, each with its head and body, whatever comes behind them. */
  lemma {:induction false} ScriptReadsBack(site: Site, script: seq<Request>, junk: string, x: string)
    requires AllWritable(site, script) && IsJunk(junk)
    ensures forall r :: r in script ==> r.verb < |METHODS|
    ensures ParsedAs(site, junk + ScriptText(script) + x, MessagesOf(script), LastTail(junk, script) + x)
    decreases |script|
  {
    hide Feed, Writable, RequestText, SkipJunk;
    forall r | r in script ensures r.verb < |METHODS| { WritableVerb(site, r); }
    if script == [] {
      assert junk + "" + x == junk + x;
    } else {
      var r, more := script[0], ScriptText(script[1..]) + x;
      assert junk + ScriptText(script) + x == junk + (RequestText(r) + more);
      JunkSkipped(site, junk, RequestText(r) + more);
      RequestReadsBack(site, r, more);
      TailIsJunk(r);
      ScriptReadsBack(site, script[1..], Tail(r), x);
      assert Tail(r) + more == Tail(r) + ScriptText(script[1..]) + x;
      assert MessagesOf(script)[1..] == MessagesOf(script[1..]);
    }
  }

  lemma WritableVerb(site: Site, r: Request)
    requires Writable(site, r)
    ensures r.verb < |METHODS|
  {
  }

  lemma TailIsJunk(r: Request)
    ensures IsJunk(Tail(r)) && |Tail(r)| <= 2
  {
    assert CRLF[1..][1..] == "";
  }

  // ----- requests within the limits never trip a size check

  /** A proper prefix of a request is waited for, or the body just starts. */
  lemma HeadInLimits(site: Site, r: Request, a: string, b: string, y: string)
    requires Fits(site, r) && a + b == RequestText(r) + y && RunHead(FRESH, a).More?
    ensures var run := RunHead(FRESH, a);
            run.head.status != New ==> !HeadTooLarge(run.head.status, |a|, run.partial)
  {
    hide RunHead, UriWritable, FieldWritable, HeadText, LinesFit, CheckHead, Expects, FramingOf, MaxSize, BodyText,
      RequestText, LineEnd;
    var head := HeadText(r.verb, r.uri, r.version, r.fields);
    var after := BodyText(r.payload) + y;
    RequestSplit(r, y);
    HeadReadsBack(r.verb, r.uri, r.version, r.fields, after);
    HeadLinesFit(r.verb, r.uri, r.version, r.fields, after);
    PartialFits(FRESH, a, b);
    var extra := Overlap(a, b, head, after);
    HeadReadsBack(r.verb, r.uri, r.version, r.fields, extra);
  }

  /** If `a` covers all of `head`, what it has beyond. */
  lemma Overlap(a: string, b: string, head: string, after: string) returns (extra: string)
    requires a + b == head + after
    ensures |a| >= |head| ==> a == head + extra
  {
    extra := if |a| >= |head| then a[|head|..] else "";
    assert (a + b)[..|a|] == a;
    if |a| >= |head| { assert (head + after)[..|a|] == head + extra; }
  }

  lemma ChunksInLimits(chunks: seq<string>, a: string, b: string, y: string, limit: int)
    requires forall c :: c in chunks ==> Body.ChunkWritable(c)
    requires |Body.ChunksText(chunks)| <= limit && a + b == Body.ChunksText(chunks) + y
    requires Body.RunChunks(Body.Size, a).More?
    ensures var run := Body.RunChunks(Body.Size, a); !ChunksTooLarge(run.want, run.partial, run.chunks, limit)
  {
    hide Body.RunChunks, Body.ChunkWritable, Body.ChunksText, Body.SizesFit;
    var text := Body.ChunksText(chunks);
    Body.ChunksReadBack(chunks, y);
    Body.ChunkSizesFit(chunks, y);
    Body.PartialSizeFits(Body.Size, a, b, 9);
    Body.BytesAccounted(Body.Size, a);
    var extra := Overlap(a, b, text, y);
    Body.ChunksReadBack(chunks, extra);
  }

  /** The chunks of a partly read body are within the limits. */
  lemma BodyInLimits(site: Site, r: Request, a: string, b: string, y: string)
    requires Fits(site, r) && a + b == BodyText(r.payload) + y
    ensures match StartBody(site, HeadOf(r), a)
            case InChunks(h, want, partial, chunks) => h == HeadOf(r) &&
              !ChunksTooLarge(want, partial, chunks, MaxSize(site, h.headers))
            case InHead(_, _) => false
            case _ => true
  {
    hide CheckHead, Expects, Body.RunChunks, Body.ChunkWritable, Body.ChunksText, UriWritable, FieldWritable,
      HeadText, FramingOf, MaxSize, AddAll, ChunksTooLarge;
    if r.payload.Chunks? {
      var run := Body.RunChunks(Body.Size, a);
      assert a + b == Body.ChunksText(r.payload.chunks) + (CRLF + y);
      if run.More? {
        ChunksInLimits(r.payload.chunks, a, b, CRLF + y, MaxSize(site, HeadOf(r).headers));
        assert [] + run.chunks == run.chunks;
      }
    }
  }

  lemma RequestInLimits(site: Site, r: Request, a: string, b: string, y: string)
    requires Fits(site, r) && a + b == RequestText(r) + y && a != ""
    ensures SkipJunk(a) == a && !Trips(site, a)
    ensures Feed(site, START, a).InHead? ==> Feed(site, START, a).head.status != New
  {
    hide RunHead, UriWritable, FieldWritable, HeadText, CheckHead, Expects, FramingOf, MaxSize, BodyText, StartBody,
      HeadTooLarge, ChunksTooLarge, SkipJunk, RequestText;
    var head := HeadText(r.verb, r.uri, r.version, r.fields);
    var after := BodyText(r.payload) + y;
    assert "" + a == a;
    RequestStarts(site, r, a, b, y);
    var run := RunHead(FRESH, a);
    RunHeadResumes(FRESH, a, b);
    HeadReadsBack(r.verb, r.uri, r.version, r.fields, after);
    RequestSplit(r, y);
    if run.More? {
      HeadInLimits(site, r, a, b, y);
      RunNew(FRESH, a);
    } else {
      assert run == Done(HeadOf(r), run.rest) && run.rest + b == after;
      BodyInLimits(site, r, run.rest, b, y);
    }
  }

  lemma RequestSplit(r: Request, y: string)
    requires r.verb < |METHODS|
    ensures RequestText(r) + y == HeadText(r.verb, r.uri, r.version, r.fields) + (BodyText(r.payload) + y)
  {
    hide HeadText, BodyText;
  }

  lemma RequestStarts(site: Site, r: Request, a: string, b: string, y: string)
    requires Fits(site, r) && a + b == RequestText(r) + y && a != ""
    ensures SkipJunk(a) == a && (RunHead(FRESH, a).More? ==> RunHead(FRESH, a).head.status != New)
  {
    hide RunHead, UriWritable, FieldWritable, CheckHead, Expects, FramingOf, MaxSize, BodyText, FieldsText, LineEnd;
    LineReadsBack(FRESH, r.verb, r.uri, r.version);
    var text := RequestText(r);
    assert text[0] == RequestLineText(r.verb, r.uri, r.version)[0];
    assert (a + b)[0] == a[0] && (text + y)[0] == text[0];
    RunNew(FRESH, a);
    var h := FRESH.(status := RLine);
    NotNewAgain(h, a);
  }

  /** Whatever part of a script has arrived, the parser neither refuses it nor finds
      it too large, and a request it completes is the next one of the script. */
  lemma ScriptInLimits(site: Site, script: seq<Request>, junk: string, fed: string, unseen: string)
    requires AllWritable(site, script) && IsJunk(junk) && |junk| <= 2
    requires forall r :: r in script ==> r.verb < |METHODS|
    requires fed + unseen == junk + ScriptText(script)
    ensures var s := Feed(site, START, fed);
            && !s.Broken? && !Trips(site, fed)
            && (s.Ready? ==>
                  script != [] && s.message == MessageOf(script[0]) &&
                  s.rest + unseen == Tail(script[0]) + ScriptText(script[1..]))
  {
    hide *;
    if |fed| <= |junk| {
      JunkInLimits(site, junk, fed, unseen, ScriptText(script));
    } else {
      ScriptGoesOn(script, junk, fed, unseen);
      var a := fed[|junk|..];
      assert fed == junk + a by { assert (junk + ScriptText(script))[..|fed|] == fed; }
      var r, y := script[0], ScriptText(script[1..]);
      assert r in script;
      AllWritableAt(site, script, r);
      assert a + unseen == RequestText(r) + y by { assert (fed + unseen)[|junk|..] == a + unseen; }
      NextInLimits(site, r, junk, a, unseen, y);
    }
  }

  lemma AllWritableAt(site: Site, script: seq<Request>, r: Request)
    requires AllWritable(site, script) && r in script
    ensures Writable(site, r)
  {
    hide Writable;
  }

  lemma ScriptGoesOn(script: seq<Request>, junk: string, fed: string, unseen: string)
    requires forall r :: r in script ==> r.verb < |METHODS|
    requires fed + unseen == junk + ScriptText(script) && |fed| > |junk|
    ensures script != [] && script[0].verb < |METHODS|
    ensures forall r :: r in script[1..] ==> r.verb < |METHODS|
    ensures ScriptText(script) == RequestText(script[0]) + ScriptText(script[1..])
    ensures fed[|junk|..] + unseen == ScriptText(script)
  {
    hide RequestText;
    var text := ScriptText(script);
    assert |fed + unseen| == |junk + text|;
    assert (fed + unseen)[|junk|..] == fed[|junk|..] + unseen;
    assert (junk + text)[|junk|..] == text;
  }

  lemma JunkInLimits(site: Site, junk: string, fed: string, unseen: string, y: string)
    requires IsJunk(junk) && |junk| <= 2 && |fed| <= |junk| && fed + unseen == junk + y
    ensures Feed(site, START, fed).InHead? && !Trips(site, fed)
  {
    hide SkipJunk, StartBody, RunHead;
    var more := junk[|fed|..];
    assert fed + more == junk by { assert (fed + unseen)[..|fed|] == fed; }
    SkipJunkAppend(fed, more);
    assert "" + fed == fed;
    RunNew(FRESH, fed);
  }

  lemma NextInLimits(site: Site, r: Request, junk: string, a: string, unseen: string, y: string)
    requires Writable(site, r) && IsJunk(junk) && a != "" && a + unseen == RequestText(r) + y
    ensures var s := Feed(site, START, junk + a);
            && !s.Broken? && !Trips(site, junk + a)
            && (s.Ready? ==> s.message == MessageOf(r) && s.rest + unseen == Tail(r) + y)
  {
    hide Writable, Fits, RequestText, SkipJunk, StartBody, RunHead, ChunksTooLarge, Feed, MessageOf, Tail;
    JunkSkipped(site, junk, a);
    WritableFits(site, r);
    RequestInLimits(site, r, a, unseen, y);
    RequestReadsBack(site, r, y);
    FeedResumes(site, START, a, unseen);
    TripsJunk(site, junk, a);
  }

  lemma TripsJunk(site: Site, junk: string, a: string)
    requires IsJunk(junk) && (Feed(site, START, a).InHead? ==> Feed(site, START, a).head.status != New)
    ensures Trips(site, junk + a) == Trips(site, a)
  {
    hide Feed, SkipJunk, HeadTooLarge, ChunksTooLarge;
    JunkSkipped(site, junk, a);
  }

  lemma WritableRest(site: Site, script: seq<Request>, k: nat)
    requires AllWritable(site, script) && k <= |script|
    ensures AllWritable(site, script[k..]) && forall r :: r in script[k..] ==> r.verb < |METHODS|
  {
    hide Writable;
    forall r | r in script[k..] ensures r.verb < |METHODS| { WritableVerb(site, r); }
  }

  /** Any requests read from a part of a script are its first ones, and what is left
      of that part, with what has not come yet, is the rest of the script behind at
      most one CRLF. */
  lemma {:induction false} LogFollows(site: Site, script: seq<Request>, junk: string, stream: string, log: seq<Message>,
      rest: string, unseen: string)
    requires AllWritable(site, script) && IsJunk(junk) && |junk| <= 2
    requires forall r :: r in script ==> r.verb < |METHODS|
    requires ParsedAs(site, stream, log, rest) && stream + unseen == junk + ScriptText(script)
    ensures |log| <= |script| && log == MessagesOf(script[..|log|])
    ensures forall r :: r in script[|log|..] ==> r.verb < |METHODS|
    ensures var tail := LastTail(junk, script[..|log|]);
            IsJunk(tail) && |tail| <= 2 && rest + unseen == tail + ScriptText(script[|log|..])
    decreases |log|
  {
    hide Feed, Writable, RequestText, SkipJunk, Trips, ParsedAs, MessageOf, Tail, LastTail, MessagesOf, ScriptText,
      AllWritable, IsJunk;
    ParsedAsStep(site, stream, log, rest);
    if log == [] {
      assert script[0..] == script && script[..0] == [];
      NothingRead(junk);
    } else {
      ScriptInLimits(site, script, junk, stream, unseen);
      var s := Feed(site, START, stream);
      TailIsJunk(script[0]);
      WritableRest(site, script, 1);
      LogFollows(site, script[1..], Tail(script[0]), s.rest, log[1..], rest, unseen);
      var n := |log|;
      assert script[1..][..n - 1] == script[..n][1..] && script[1..][n - 1..] == script[n..];
      assert log == [log[0]] + log[1..];
      FirstRead(junk, script[..n]);
    }
  }

  lemma NothingRead(junk: string)
    ensures MessagesOf([]) == [] && LastTail(junk, []) == junk
  {
  }

  lemma FirstRead(junk: string, script: seq<Request>)
    requires script != []
    ensures MessagesOf(script) == [MessageOf(script[0])] + MessagesOf(script[1..])
    ensures LastTail(junk, script) == LastTail(Tail(script[0]), script[1..])
  {
    hide MessageOf, Tail;
  }

  lemma NextIsReady(site: Site, script: seq<Request>, junk: string)
    requires AllWritable(site, script) && IsJunk(junk) && script != []
    requires forall r :: r in script ==> r.verb < |METHODS|
    ensures Feed(site, START, junk + ScriptText(script)).Ready?
  {
    hide Feed, Writable, RequestText, SkipJunk, MessageOf, Tail;
    var more := ScriptText(script[1..]);
    RequestReadsBack(site, script[0], more);
    JunkSkipped(site, junk, RequestText(script[0]) + more);
  }
}
