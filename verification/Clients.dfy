/** One connection: the Client object (srcs/Client.cpp) and the handlers that move it
    from event to event (srcs/IControl.cpp). Ghost fields record what went over the
    wire; the invariant ties the state to that record. */
module Clients {
  import opened Text
  import opened Numbers
  import opened HeaderNames
  import opened HeadParsing
  import opened Messages
  import opened Pipelining
  import Body = BodyParsing
  import R = Requests

  datatype HeaderStatus = HeaderOngoing | HeaderReady | HeaderDone
  datatype BodyStatus = BodyNone | BodyOngoing | BodyDone
  datatype Mode = Read | Write

  datatype Response = Response(status: int)

  const CONTINUE_LINE: string := "HTTP/1.1 100 Continue\r\n"

  /** What CGIProcess::parseHeaders makes of the output of a CGI; Colonless is its
      return on a header line without a colon. */
  datatype CgiOutcome = CgiError | Document(status: int) | LocalRedirect(uri: string) | Colonless

  datatype CgiPoll = Running | Died | Finished(outcome: CgiOutcome)

  /** What the world outside the connection answers while an event is handled: the
      result of Host::checkRequest and the kind of resource it matched, the status an
      upload will end with, whether the resource can be opened, the pieces of the
      response, whether a CGI can be forked and how it does. */
  datatype Env = Env(verdict: int, kind: R.Kind, pathSet: bool, saved: int, fails: bool, pieces: seq<string>,
                     spawned: bool, poll: CgiPoll)

  predicate EnvOk(env: Env) {
    (env.verdict == 0 || env.verdict >= 300) && env.saved > 0
  }

  datatype Input = Bytes(data: string) | Eof

  datatype Event =
    | Poll(hup: bool, input: Option<Input>, writable: bool, writeFails: bool, env: Env)
    | Timeout(env: Env)

  datatype Situation = StillWriting | Close | KeepAlive | Continued

  datatype Wire =
    Wire(response: Option<Response>, queue: seq<string>, mode: Mode, responses: seq<seq<string>>, overlaid: bool)

  /** The 100 line goes on the wire, whatever is there. */
  function GoAhead(w: Wire): Wire {
    Wire(Some(Response(100)), w.queue + [CONTINUE_LINE], Write, w.responses + [[CONTINUE_LINE]],
      w.overlaid || w.response.Some?)
  }

  /** A response goes on the wire, unless one is there already. */
  function Install(w: Wire, status: int, pieces: seq<string>): Wire {
    if w.response.Some? then w
    else Wire(Some(Response(status)), w.queue + pieces, Write, w.responses + [pieces], w.overlaid)
  }

  /** The status of a request that is complete: what an upload was found to end with, or 204
      if it brought nothing; 204 for a removal, and 200 for everything else. */
  function DoneStatus(kind: R.Kind, verb: int, saved: int, bodied: bool): int {
    if kind != R.Static then 200
    else if verb in {1, 2} then if bodied then saved else 204
    else if verb == 3 then 204
    else 200
  }

  /** What a body that has led to this stage is answered with; 0 while more is to come. A
      chunked upload counts as one that brought something if bytes follow it at hand. */
  function BodyVerdict(s: Stage, chunked: bool, kind: R.Kind, saved: int, limit: int): int {
    match s
    case Ready(m, rest) => DoneStatus(kind, m.head.verb, saved, m.body != "" || (chunked && rest != ""))
    case InChunks(_, want, partial, chunks) => ChunksRefusal(want, partial, chunks, limit)
    case Broken => 400
    case _ => 0
  }

  /** The same once more bytes have come. */
  function MoreBody(s: Stage, bytes: string, kind: R.Kind, saved: int, limit: int): int {
    if bytes == "" then 0 else BodyVerdict(FeedBody(s, bytes), s.InChunks?, kind, saved, limit)
  }

  /** The status of a request whose head has come, with `rest` behind it. */
  function FirstVerdict(site: Site, head: Head, rest: string, env: Env): int {
    if HeadVerdict(site, head, env.verdict) != 0 then HeadVerdict(site, head, env.verdict)
    else match FramingOf(head.headers)
      case NoBody => DoneStatus(env.kind, head.verb, env.saved, false)
      case Sized(n) => MoreBody(InSized(head, n, ""), rest, env.kind, env.saved, MaxSize(site, head.headers))
      case Chunked =>
        MoreBody(InChunks(head, Body.Size, "", []), rest, env.kind, env.saved, MaxSize(site, head.headers))
  }

  /** The status of a request of which these bytes have come, or 0. */
  function Verdict(site: Site, all: string, env: Env): int {
    match RunHead(FRESH, all)
    case More(h, partial) => if HeadTooLarge(h.status, HeaderSize(h.status, all), partial) then 431 else 0
    case Failed(_, code, _) => code
    case Done(head, rest) => FirstVerdict(site, head, rest, env)
  }

  /** The bytes of a request that the server serves, with anything behind them, get what the
      host says, or the status of a complete request; a chunked body always counts as one that
      brought something, because its last CRLF is at hand. */
  lemma RequestVerdict(site: Site, r: Request, x: string, env: Env)
    requires Writable(site, r)
    ensures Verdict(site, RequestText(r) + x, env) ==
            if env.verdict != 0 then env.verdict
            else DoneStatus(env.kind, r.verb, env.saved,
                            match r.payload
                            case Empty => false
                            case Plain(data) => data != ""
                            case Chunks(_) => true)
    ensures !Prompts(site, RequestText(r) + x, env)
  {
    hide *;
    WritableFits(site, r);
    FitsParts(site, r);
    RequestSplit(r, x);
    HeadReadsBack(r.verb, r.uri, r.version, r.fields, BodyText(r.payload) + x);
    HeadIs(r);
    VerdictIs(site, HeadOf(r), env.verdict);
    BodyReadsBack(site, r, x);
    BodyAtOnce(site, r, x, env);
    VerdictDone(site, RequestText(r) + x, env);
  }

  lemma FitsParts(site: Site, r: Request)
    requires Fits(site, r)
    ensures r.verb < |METHODS| && UriWritable(r.uri) && VersionWritable(r.version)
    ensures forall f :: f in r.fields ==> FieldWritable(f)
    ensures CheckHead(site, HeadOf(r)) == 0 && !Expects(HeadOf(r).headers)
    ensures FramingOf(HeadOf(r).headers) == Announced(r.payload)
  {
    hide UriWritable, VersionWritable, FieldWritable, CheckHead, Expects, FramingOf, HeadOf, HeadText;
  }

  lemma HeadIs(r: Request)
    ensures HeadOf(r) == Head(Term, r.verb, r.uri, AddAll(map[], r.fields))
  {
    hide AddAll;
  }

  lemma VerdictDone(site: Site, all: string, env: Env)
    requires RunHead(FRESH, all).Done?
    ensures var run := RunHead(FRESH, all);
            && Verdict(site, all, env) == FirstVerdict(site, run.head, run.rest, env)
            && (Prompts(site, all, env) <==>
                  HeadVerdict(site, run.head, env.verdict) == 0 && Expects(run.head.headers))
  {
    hide RunHead, FirstVerdict, HeadVerdict, Expects;
  }

  lemma BodyAtOnce(site: Site, r: Request, x: string, env: Env)
    requires CheckHead(site, HeadOf(r)) == 0 && !Expects(HeadOf(r).headers)
    requires FramingOf(HeadOf(r).headers) == Announced(r.payload)
    requires StartBody(site, HeadOf(r), BodyText(r.payload) + x) == Ready(MessageOf(r), Tail(r) + x)
    requires HeadVerdict(site, HeadOf(r), env.verdict) == env.verdict
    ensures FirstVerdict(site, HeadOf(r), BodyText(r.payload) + x, env) ==
            if env.verdict != 0 then env.verdict
            else DoneStatus(env.kind, r.verb, env.saved,
                            match r.payload
                            case Empty => false
                            case Plain(data) => data != ""
                            case Chunks(_) => true)
  {
    hide CheckHead, Expects, FramingOf, HeadVerdict, Body.RunChunks, Body.Concat, Body.ChunksText, MaxSize, DoneStatus,
      AddAll;
    var data := BodyText(r.payload) + x;
    assert "" + data == data;
    match r.payload
    case Empty =>
    case Plain(text) => assert text != "" ==> data[0] == text[0];
    case Chunks(chunks) =>
      assert |data| > 0;
      assert |Tail(r) + x| >= 2;
  }

  /** These bytes complete a head that is accepted and asks for the 100 line. */
  function Prompts(site: Site, all: string, env: Env): bool {
    match RunHead(FRESH, all)
    case Done(head, _) => HeadVerdict(site, head, env.verdict) == 0 && Expects(head.headers)
    case _ => false
  }

  /** The answer needs a file, or a directory to list; the others are made from memory. */
  predicate NeedsFile(status: int, kind: R.Kind, hasPath: bool) {
    || (status == 200 && kind == R.Dir)
    || 400 < status < 418 || status == 505
    || (hasPath && status !in {400, 500, 503})
  }

  /** The status that is sent: 500 when what the answer needs cannot be opened. */
  function SentStatus(status: int, kind: R.Kind, hasPath: bool, fails: bool): int {
    if fails && NeedsFile(status, kind, hasPath) then 500 else status
  }

  /** A CGI is at work beside what is on the wire. */
  function Beside(w: Wire): Wire {
    w.(mode := Write, overlaid := w.overlaid || w.response == Some(Response(100)))
  }

  /** The pieces sent and the queue are the responses in order; the queue is the unsent
      tail of the last one. */
  predicate WireOk(sent: seq<string>, w: Wire) {
    && (w.response.None? ==> w.queue == [])
    && sent + w.queue == Flatten(w.responses)
    && (w.response.Some? && !w.overlaid ==> w.responses != [] && IsSuffix(w.queue, w.responses[|w.responses| - 1]))
  }

  lemma WireGrows(sent: seq<string>, w: Wire, status: int, pieces: seq<string>)
    requires WireOk(sent, w)
    ensures WireOk(sent, Install(w, status, pieces)) && WireOk(sent, GoAhead(w)) && WireOk(sent, Beside(w))
  {
    hide Flatten;
    FlattenSnoc(w.responses, pieces);
    FlattenSnoc(w.responses, [CONTINUE_LINE]);
  }

  function Flatten(responses: seq<seq<string>>): seq<string> {
    if responses == [] then [] else Flatten(responses[..|responses| - 1]) + responses[|responses| - 1]
  }

  lemma FlattenSnoc(responses: seq<seq<string>>, r: seq<string>)
    ensures Flatten(responses + [r]) == Flatten(responses) + r
  {
    assert (responses + [r])[..|responses|] == responses;
  }

  predicate IsSuffix(s: seq<string>, t: seq<string>) {
    |s| <= |t| && t[|t| - |s|..] == s
  }

  class Client {
    const site: Site
    var buffer: string
    var headerStatus: HeaderStatus
    var bodyStatus: BodyStatus
    var mode: Mode
    var request: R.Request?
    var response: Option<Response>
    var cgi: bool
    var outBuffers: seq<string>
    var bodyStream: Option<string>
    var alive: bool

    /** All bytes read, the requests completed, and the bytes of the current request. */
    ghost var received: string
    ghost var log: seq<Message>
    ghost var fed: string
    /** The responses installed, each as its pieces, and the pieces written. */
    ghost var responses: seq<seq<string>>
    ghost var sent: seq<string>
    /** The plain path: nothing was refused, timed out or answered with 100. */
    ghost var plain: bool
    /** A 100 line got in the way of another answer to the same request. */
    ghost var overlaid: bool
    /** A CGI answered with a header line without a colon and nothing replaces it. */
    ghost var stuck: bool
    /** An answer carried `connection: close`. */
    ghost var closes: bool

    constructor (site: Site)
      ensures this.site == site && alive && Valid() && plain && received == "" && log == [] && mode == Read
      ensures responses == [] && sent == [] && !stuck && !closes
    {
      this.site := site;
      buffer, headerStatus, bodyStatus, mode := "", HeaderOngoing, BodyNone, Read;
      request, response, cgi, outBuffers, bodyStream, alive := null, None, false, [], None, true;
      received, log, fed, responses, sent := "", [], "", [], [];
      plain, overlaid, stuck, closes := true, false, false, false;
    }

    // ----- invariants

    /** The status that an upload will end with is known. */
    ghost predicate Saved()
      requires request != null
      reads `request, request`kind, request`verb, request`error
    {
      request.kind == R.Static && request.verb in {1, 2} ==> request.error > 0
    }

    lemma SavedIs()
      requires request != null
      ensures Saved() <==> (request.kind == R.Static && request.verb in {1, 2} ==> request.error > 0)
    {
    }

    /** The request object fits the header and body status. */
    ghost predicate RequestOk()
      reads `request, `headerStatus, `bodyStatus, `bodyStream, request
    {
      if request == null then headerStatus == HeaderOngoing && bodyStatus == BodyNone && bodyStream.None?
      else
        && (headerStatus == HeaderOngoing ==> request.status != Term && request.LineKept() && request.BodyFresh())
        && (headerStatus != HeaderOngoing ==> request.status == Term)
        && (headerStatus != HeaderDone ==> bodyStream.None? && !request.redirected)
        && (bodyStream.Some? ==> bodyStream.value == request.Written())
        && (headerStatus == HeaderDone && bodyStatus == BodyOngoing ==>
              (request.finalStatus > R.TRAILER || request.BodyKept()) && Saved())
    }

    /** Reading means nothing is being answered; writing means there is a response or a
        CGI at work; the queue holds the unsent tail of one response. */
    ghost predicate ModeOk()
      reads `mode, `response, `outBuffers, `cgi, `stuck, `request, `headerStatus, `bodyStatus, `sent, `responses,
        `overlaid
    {
      && WireOk(sent, Answering())
      && (mode == Read ==> response.None? && outBuffers == [])
      && (cgi && !overlaid ==> mode == Write && response != Some(Response(100)))
      && (mode == Write && !stuck ==> response.Some? || cgi)
      && (stuck ==> mode == Write && response.None? && !cgi)
      && (mode == Write ==> request != null)
      && (mode == Write && response.None? ==> headerStatus == HeaderDone && bodyStatus != BodyOngoing)
      && (cgi ==> headerStatus == HeaderDone && bodyStatus != BodyOngoing)
    }

    /** The parser stands where the bytes of the current request lead. */
    ghost predicate ParserAt(bytes: string)
      reads `request, `headerStatus, `bodyStatus, request
    {
      if request == null then bytes == ""
      else
        && Feed(site, START, bytes) == request.StageNow() && Waiting(request.StageNow())
        && (request.status != Term ==>
              headerStatus == HeaderOngoing && request.headerSize == HeaderSize(request.status, bytes))
        && (request.status == Term ==>
              headerStatus == HeaderDone && bodyStatus == BodyOngoing && request.BodyKept() &&
              request.bodyMaxSize == MaxSize(site, request.headers))
    }

    /** The request just completed is the last of the log. */
    ghost predicate Accepted()
      reads this, request
    {
      && log != [] && request != null && headerStatus == HeaderDone && bodyStatus != BodyOngoing
      && request.headers == log[|log| - 1].head.headers && !Expects(request.headers)
    }

    /** On the plain path the bytes received are the requests of the log, then what is
        still unread; every one but the last has its response. */
    ghost predicate PlainOk()
      reads this, request
    {
      && !overlaid
      && ParsedAs(site, received, log, if mode == Read then fed else buffer)
      && (mode == Read ==> buffer == "" && ParserAt(fed) && |responses| == |log|)
      && (mode == Write ==>
            Accepted() && (cgi ==> response.None?) && CloseTold() &&
            |responses| == (if response.Some? then |log| else |log| - 1))
    }

    /** An answer that closes the connection is known as such. */
    ghost predicate CloseTold()
      requires request != null
      reads `request, `response, `closes, request`connection
    {
      response.Some? && request.connection == "close" ==> closes
    }

    ghost predicate Valid()
      reads this, request
    {
      RequestOk() && ModeOk() && (plain ==> PlainOk())
    }

    /** What the client is answering. */
    ghost function Answering(): Wire
      reads `response, `outBuffers, `mode, `responses, `overlaid
    {
      Wire(response, outBuffers, mode, responses, overlaid)
    }

    // ----- responses

    /** Opening the resource of the response may fail: a file, or a directory to list.
        The other bodies are made from memory. */
    predicate CanFail()
      requires request != null
      reads this, request
    {
      (request.error == 200 && request.kind == R.Dir) || request.hasPath
    }

    /** fillErrorPage, fillAdditionnalHeaders and fillVerboseError. */
    method FillResponse()
      requires request != null
      modifies request`connection, request`hasPath
      ensures request.connection ==
        if 200 <= request.error < 300
        then
          if CheckHeader(request.headers, "connection") then GetHeader(request.headers, "connection") else "keep-alive"
        else "close"
      ensures request.hasPath ==
        if request.error in {500, 503, 400} then false
        else (400 < request.error < 418 || request.error == 505 || old(request.hasPath))
    {
      if (400 < request.error < 418) || request.error == 505 {
        request.hasPath := true;
      }
      if 200 <= request.error < 300 {
        if CheckHeader(request.headers, "connection") {
          request.connection := GetHeader(request.headers, "connection");
        } else {
          request.connection := "keep-alive";
        }
      } else {
        request.connection := "close";
      }
      if request.error == 500 || request.error == 503 || request.error == 400 {
        request.hasPath := false;
      }
    }

    /** generateResponse: unless one is pending, a response is installed, after at most
        one retry: a status 500 is answered from memory, which cannot fail. */
    method GenerateResponse(status: int, env: Env) returns (r: int)
      requires request != null
      modifies `response, `mode, `outBuffers, `responses, `closes, request`error, request`connection, request`hasPath
      ensures r == 0 && (old(response).None? ==> CloseTold())
      ensures Answering() == Install(old(Answering()), request.error, env.pieces)
      ensures old(response).Some? ==>
        request.error == old(request.error) && request.connection == old(request.connection)
      ensures old(response).None? ==>
        && request.error == SentStatus(if status != 0 then status else old(request.error), request.kind,
                              old(request.hasPath), env.fails)
        && (request.connection == "close" || 200 <= request.error < 300)
      decreases if status == 500 then 0 else 1
    {
      hide *;
      AnsweringFields();
      if response.Some? {
        InstallIs(Answering(), request.error, env.pieces);
        return 0;
      }
      if status != 0 { request.error := status; }
      ghost var had := request.hasPath;
      FillResponse();
      FailureIs(had);
      SentIs(request.error, request.kind, had, env.fails);
      NeverFails(request.kind);
      var throws := CanFail() && env.fails;
      if throws {
        if request.error == 500 {
          return -1;
        } else {
          r := GenerateResponse(500, env);
          return;
        }
      }
      Enqueue(env.pieces);
      return 0;
    }

    /** The pieces of a response join the queue. */
    method Enqueue(pieces: seq<string>)
      requires request != null && response.None?
      modifies `response, `mode, `outBuffers, `responses, `closes
      ensures CloseTold() && Answering() == Install(old(Answering()), request.error, pieces)
    {
      outBuffers := outBuffers + pieces;
      responses := responses + [pieces];
      closes := closes || request.connection == "close";
      response := Some(Response(request.error));
      mode := Write;
    }

    lemma FailureIs(had: bool)
      requires request != null
      requires request.hasPath ==
        if request.error in {500, 503, 400} then false else (400 < request.error < 418 || request.error == 505 || had)
      ensures CanFail() <==> NeedsFile(request.error, request.kind, had)
      ensures request.error == 500 ==> !CanFail()
    {
    }

    static lemma SentIs(status: int, kind: R.Kind, hasPath: bool, fails: bool)
      ensures SentStatus(status, kind, hasPath, fails) ==
              if fails && NeedsFile(status, kind, hasPath) then 500 else status
    {
      hide NeedsFile;
    }

    /** generateCGIProcess: 0, or 500 when no process could be forked. */
    method GenerateCgi(env: Env) returns (r: int)
      requires request != null
      modifies `cgi, `mode, `overlaid, request`hasPath
      ensures if env.spawned then r == 0 && cgi && request.hasPath && Answering() == Beside(old(Answering()))
              else r == 500 && !cgi && request.hasPath == old(request.hasPath) && Answering() == old(Answering())
    {
      cgi := true;
      if !env.spawned {
        cgi := false;
        return 500;
      }
      request.hasPath := true;
      overlaid := overlaid || response == Some(Response(100));
      mode := Write;
      return 0;
    }

    /** A CGI, or the answer 500 when there can be none. */
    method StartCgi(env: Env)
      requires request != null
      modifies `response, `mode, `outBuffers, `responses, `closes, `cgi, `overlaid,
        request`error, request`connection, request`hasPath
      ensures if env.spawned then
                cgi && Answering() == Beside(old(Answering())) && response == old(response) && closes == old(closes)
              else !cgi && Answering() == Install(old(Answering()), request.error, env.pieces)
      ensures old(response).None? ==> CloseTold() && (!env.spawned ==> request.error == 500)
      ensures request.error == old(request.error) || request.error == 500
    {
      hide Install, CloseTold, NeedsFile;
      NeverFails(request.kind);
      Closing();
      var failed := GenerateCgi(env);
      Closing();
      if failed != 0 {
        failed := GenerateResponse(500, env);
      }
    }

    /** The answers 500 and 503 are made from memory. */
    static lemma NeverFails(kind: R.Kind)
      ensures forall hasPath: bool, fails: bool ::
                SentStatus(500, kind, hasPath, fails) == 500 && SentStatus(503, kind, hasPath, fails) == 503
    {
    }

    /** generateContinueResponse: the 100 line goes out at once. */
    method GenerateContinue()
      modifies `response, `outBuffers, `mode, `responses, `overlaid
      ensures Answering() == GoAhead(old(Answering()))
    {
      overlaid := overlaid || response.Some?;
      response := Some(Response(100));
      outBuffers := outBuffers + [CONTINUE_LINE];
      responses := responses + [[CONTINUE_LINE]];
      mode := Write;
    }

    // ----- the head of a request

    /** The body is framed as the head says. */
    ghost predicate Framed()
      requires request != null
      reads `request, `bodyStatus, request`headers, request`chunked, request`contentLength, request`bodyMaxSize
    {
      && (bodyStatus == BodyNone <==> FramingOf(request.headers) == NoBody) && bodyStatus != BodyDone
      && request.chunked == IsChunked(request.headers)
      && (FramingOf(request.headers).Sized? ==> request.contentLength == FramingOf(request.headers).n)
      && (FramingOf(request.headers).NoBody? ==> request.contentLength < 0)
      && (bodyStatus == BodyOngoing ==> request.bodyMaxSize == MaxSize(site, request.headers))
    }

    lemma FramedFields()
      requires request != null
      ensures Framed() ==> (bodyStatus == BodyNone <==> FramingOf(request.headers) == NoBody) && bodyStatus != BodyDone
    {
      hide FramingOf, IsChunked, MaxSize;
    }

    /** checkBodyLength: 413, or 0 with the framing of the body set up. */
    method CheckBodyLength() returns (code: int)
      requires request != null && request.BodyFresh() && bodyStatus == BodyNone
      modifies `bodyStatus, request`error, request`contentLength, request`chunked, request`bodyMaxSize
      ensures code == if TooLong(site, request.headers) then 413 else 0
      ensures code != 0 ==> bodyStatus == BodyNone
      ensures code == 0 ==> Framed()
    {
      hide MaxSize, ParseInt, IsChunked, GetHeader, CheckHeader;
      var length := BodyLength(request.headers);
      if CheckHeader(request.headers, "content-length") {
        if length > MaxSize(site, request.headers) {
          request.error := 413;
          return 413;
        } else if length > 0 {
          request.contentLength := length;
        }
      }
      if length > 0 || IsChunked(request.headers) {
        if IsChunked(request.headers) {
          request.chunked := true;
        }
        bodyStatus := BodyOngoing;
        request.bodyMaxSize := MaxSize(site, request.headers);
      }
      return 0;
    }

    /** checkContinue: 0, 100 when the client waits for a go-ahead, or a refusal. */
    method CheckContinue() returns (code: int)
      requires request != null
      modifies request`error, request`headers
      ensures code == if AsksFirst(old(request.headers)) then (if bodyStatus == BodyNone then 400 else 100)
                      else if Expects(old(request.headers)) then 417 else 0
      ensures code == 0 || code == 100 ==>
        request.headers == old(request.headers) && request.error == old(request.error)
      ensures code >= 400 ==>
        request.error == code && request.headers == old(request.headers) - {Fold("expect")}
    {
      var expected := GetHeader(request.headers, "expect");
      if expected == "100-continue" {
        if bodyStatus == BodyNone {
          request.error := 400;
          request.headers := request.headers - {Fold("expect")};
          return 400;
        }
        return 100;
      } else if expected != "" {
        request.error := 417;
        request.headers := request.headers - {Fold("expect")};
        return 417;
      }
      return 0;
    }

    /** Where the body goes: to a stream for a CGI that gets one, and for an upload that may
        be written. */
    static function StreamFor(kind: R.Kind, verb: int, bodied: bool, saved: int, before: Option<string>): Option<string>
    {
      if kind == R.Cgi then if bodied then Some("") else None
      else if kind == R.Static && verb in {1, 2} then if saved == 403 then before else Some("")
      else None
    }

    /** The body has its place, and the status that an upload ends with is known. */
    ghost predicate Placed(env: Env, before: Option<string>)
      requires request != null
      reads `request, `bodyStatus, `bodyStream, request`kind, request`verb, request`error
    {
      && (request.kind == R.Static && request.verb in {1, 2} ==> request.error == env.saved)
      && bodyStream == StreamFor(request.kind, request.verb, bodyStatus != BodyNone, env.saved, before)
    }

    lemma PlacedIs(env: Env, before: Option<string>)
      requires request != null
      ensures Placed(env, before) <==>
              && (request.kind == R.Static && request.verb in {1, 2} ==> request.error == env.saved)
              && bodyStream == StreamFor(request.kind, request.verb, bodyStatus != BodyNone, env.saved, before)
      ensures Placed(env, before) && EnvOk(env) ==> Saved()
      ensures Placed(env, before) && before.None? && bodyStream.Some? ==> bodyStream.value == ""
    {
    }

    /** defineBodyParsing: where the body goes, and the status an upload ends with. */
    method DefineBodyParsing(env: Env)
      requires request != null
      modifies `bodyStream, request`error, request`hasPath
      ensures Placed(env, old(bodyStream))
      ensures request.hasPath ==
        (old(request.hasPath) || (request.kind == R.Static && request.verb in {1, 2} && env.saved != 403))
    {
      if request.kind == R.Cgi {
        bodyStream := if bodyStatus != BodyNone then Some("") else None;
      } else if request.kind == R.Static && (request.verb == 1 || request.verb == 2) {
        request.error := env.saved;
        if env.saved == 403 { return; }
        request.hasPath := true;
        bodyStream := Some("");
      } else {
        bodyStream := None;
      }
    }

    /** The checks of handleRequestHeaders before the host looks at the request. */
    method CheckRequestHead() returns (code: int)
      requires request != null && request.status == Term
      requires !request.redirected ==> request.BodyFresh() && bodyStatus == BodyNone
      modifies `bodyStatus, request`error, request`line, request`finalStatus,
        request`contentLength, request`chunked, request`bodyMaxSize
      ensures code == 0 || code >= 300
      ensures code != 0 ==> request.error == code && bodyStatus == old(bodyStatus)
      ensures request.redirected ==> code == CheckFields(request.HeadState())
      ensures code == 0 ==> request.line == old(request.line) && request.finalStatus == old(request.finalStatus)
      ensures request.redirected ==>
        bodyStatus == old(bodyStatus) && request.contentLength == old(request.contentLength) &&
        request.chunked == old(request.chunked) && request.bodyMaxSize == old(request.bodyMaxSize)
      ensures !request.redirected ==> code == CheckHead(site, request.HeadState())
      ensures !request.redirected && code == 0 ==> Framed()
    {
      hide Framed, CheckForbidden, CheckHeader, UriAccepted, TooLong, FramingOf, IsChunked;
      if !CheckHeader(request.headers, "host") {
        request.error := 400;
        return 400;
      }
      if !UriAccepted(request.uri) {
        code := request.FillError(400);
        return;
      }
      code := CheckForbidden(request.headers);
      ForbiddenIsStatus(request.headers);
      if code != 0 {
        request.error := code;
        return;
      }
      if !request.redirected {
        code := CheckBodyLength();
        if code != 0 { request.error := code; }
      }
    }

    static lemma Verdicts(env: Env)
      ensures EnvOk(env) ==> env.verdict == 0 || env.verdict >= 300
    {
    }

    /** What the checks of a head have put on the wire `w`: nothing, or the 100 line for a
        request that is accepted with an Expect header. */
    ghost predicate HeadAnswered(code: int, w: Wire, h: Headers)
      requires request != null
      reads `request, `response, `outBuffers, `mode, `responses, `overlaid, request`headers
    {
      && Answering() == (if code == 0 && Expects(h) then GoAhead(w) else w)
      && (code == 0 || !Expects(h) ==> request.headers == h)
    }

    lemma HeadAnsweredIs(code: int, w: Wire, h: Headers)
      requires request != null
      ensures HeadAnswered(code, w, h) <==>
        && Answering() == (if code == 0 && Expects(h) then GoAhead(w) else w)
        && (code == 0 || !Expects(h) ==> request.headers == h)
    {
      hide Expects, GoAhead, Answering;
    }

    lemma NothingAnswered()
      requires request != null
      ensures forall code :: code != 0 ==> HeadAnswered(code, Answering(), request.headers)
    {
      hide Expects, GoAhead, Answering;
    }

    /** handleRequestHeaders: 0 when the request is accepted, else the status that
        answers it. */
    method HandleRequestHeaders(env: Env) returns (code: int)
      requires request != null && request.status == Term && EnvOk(env)
      requires !request.redirected ==> request.BodyFresh() && bodyStatus == BodyNone
      modifies `headerStatus, `bodyStatus, `bodyStream, `response, `outBuffers, `mode, `responses, `overlaid,
        request`error, request`line, request`finalStatus, request`contentLength, request`chunked, request`bodyMaxSize,
        request`kind, request`hasPath, request`headers
      ensures code == 0 || code >= 300
      ensures code != 0 ==> headerStatus == old(headerStatus) && bodyStream == old(bodyStream)
      ensures code == 0 ==>
        headerStatus == HeaderDone && request.line == old(request.line) &&
        request.finalStatus == old(request.finalStatus) && request.kind == env.kind
      ensures HeadAnswered(code, old(Answering()), old(request.headers))
      ensures !request.redirected ==> code == HeadVerdict(site, old(request.HeadState()), env.verdict)
      ensures !request.redirected && code == 0 ==> Framed() && Placed(env, old(bodyStream))
      ensures request.redirected ==>
        bodyStatus == old(bodyStatus) && request.chunked == old(request.chunked) && bodyStream == old(bodyStream) &&
        (code == 0 ==> request.error == 0) &&
        code == AgainVerdict(old(request.HeadState()), env.verdict, old(bodyStatus) == BodyNone)
    {
      hide *;
      HeadFields();
      AnsweringFields();
      code := CheckRequestHead();
      HeadFields();
      NothingAnswered();
      assert Answering() == old(Answering()) && request.headers == old(request.headers);
      VerdictOf(code, old(request.HeadState()), env.verdict);
      if code != 0 { return; }
      if !request.redirected { FramedFields(); }
      code := CheckHost(env);
    }

    /** The rest of handleRequestHeaders, from what the host says on. */
    method CheckHost(env: Env) returns (code: int)
      requires request != null && EnvOk(env)
      modifies `headerStatus, `bodyStream, `response, `outBuffers, `mode, `responses, `overlaid,
        request`error, request`hasPath, request`headers, request`kind
      ensures code == (if env.verdict != 0 then env.verdict
                       else ExpectVerdict(old(request.headers), bodyStatus == BodyNone)) && (code == 0 || code >= 300)
      ensures code != 0 ==> headerStatus == old(headerStatus) && bodyStream == old(bodyStream)
      ensures code == 0 ==>
        headerStatus == HeaderDone && request.kind == env.kind && request.headers == old(request.headers)
      ensures HeadAnswered(code, old(Answering()), old(request.headers))
      ensures !request.redirected && code == 0 ==> Placed(env, old(bodyStream))
      ensures request.redirected ==> bodyStream == old(bodyStream) && (code == 0 ==> request.error == 0)
      ensures code == 0 ==> request.hasPath == (env.pathSet || Uploads(env))
    {
      hide *;
      Verdicts(env);
      NothingAnswered();
      request.kind := env.kind;
      request.hasPath := env.pathSet;
      request.error := env.verdict;
      AnsweringFields();
      assert Answering() == old(Answering()) && request.headers == old(request.headers);
      if env.verdict != 0 { return env.verdict; }
      code := AcceptHeaders(env);
    }

    /** The status that refuses a request that a CGI has redirected. */
    static function AgainVerdict(head: Head, verdict: int, bodyless: bool): int {
      if CheckFields(head) != 0 then CheckFields(head)
      else if verdict != 0 then verdict
      else ExpectVerdict(head.headers, bodyless)
    }

    lemma VerdictOf(code: int, head: Head, verdict: int)
      requires request != null
      ensures !request.redirected && code == CheckHead(site, head) ==>
              HeadVerdict(site, head, verdict) ==
              if code != 0 then code else if verdict != 0 then verdict
              else ExpectVerdict(head.headers, FramingOf(head.headers) == NoBody)
      ensures request.redirected && code == CheckFields(head) ==>
              forall bodyless: bool ::
                AgainVerdict(head, verdict, bodyless) ==
                if code != 0 then code else if verdict != 0 then verdict
                else ExpectVerdict(head.headers, bodyless)
    {
      hide CheckHead, CheckFields, ExpectVerdict, FramingOf;
    }

    lemma UploadsIs(env: Env)
      requires request != null
      ensures Uploads(env) ==
              (!request.redirected && request.kind == R.Static && request.verb in {1, 2} && env.saved != 403)
    {
    }

    static lemma ExpectIs(h: Headers)
      ensures forall bodyless: bool ::
                ExpectVerdict(h, bodyless) ==
                if AsksFirst(h) then if bodyless then 400 else 0 else if Expects(h) then 417 else 0
      ensures AsksFirst(h) ==> Expects(h)
    {
      hide AsksFirst, Expects;
      AsksExpects(h);
    }

    /** An upload that may be written. */
    ghost predicate Uploads(env: Env)
      requires request != null
      reads `request, request`redirected, request`kind, request`verb
    {
      !request.redirected && request.kind == R.Static && request.verb in {1, 2} && env.saved != 403
    }

    /** The end of handleRequestHeaders, once the host accepts the request. */
    method AcceptHeaders(env: Env) returns (code: int)
      requires request != null && EnvOk(env)
      modifies `headerStatus, `bodyStream, `response, `outBuffers, `mode, `responses, `overlaid,
        request`error, request`hasPath, request`headers
      ensures code == ExpectVerdict(old(request.headers), bodyStatus == BodyNone) && (code == 0 || code >= 400)
      ensures code != 0 ==> headerStatus == old(headerStatus) && bodyStream == old(bodyStream)
      ensures code == 0 ==> headerStatus == HeaderDone && request.headers == old(request.headers)
      ensures HeadAnswered(code, old(Answering()), old(request.headers))
      ensures !request.redirected && code == 0 ==> Placed(env, old(bodyStream))
      ensures request.redirected ==>
        bodyStream == old(bodyStream) && (code == 0 ==> request.error == old(request.error))
      ensures code == 0 ==> request.hasPath == (old(request.hasPath) || Uploads(env))
    {
      hide *;
      ExpectIs(request.headers);
      UploadsIs(env);
      AnsweringFields();
      PlacedIs(env, bodyStream);
      code := CheckContinue();
      HeadAnsweredIs(code, old(Answering()), old(request.headers));
      if code != 0 && code != 100 { return; }
      if !request.redirected {
        DefineBodyParsing(env);
      }
      headerStatus := HeaderDone;
      if code == 100 {
        GenerateContinue();
        code := 0;
      }
      HeadAnsweredIs(code, old(Answering()), old(request.headers));
    }

    /** handleRequestBodyDone: the status that answers a complete request. */
    method HandleRequestBodyDone() returns (status: int)
      requires request != null
      modifies request`hasPath
      ensures old(RequestOk()) ==> RequestOk()
      ensures request.HeadState() == old(request.HeadState())
      ensures request.hasPath == (old(request.hasPath) && !(request.kind == R.Static && request.verb == 3))
      ensures status == DoneStatus(request.kind, request.verb, request.error, request.BodySize() > 0)
    {
      if request.kind == R.Static {
        if request.verb == 1 || request.verb == 2 {
          if request.BodySize() > 0 { return request.error; }
          return 204;
        } else if request.verb == 3 {
          request.hasPath := false;
          return 204;
        }
      }
      return 200;
    }

    // ----- bytes arrive

    /** What a parser call reports about the bytes given to the current request: `all`
        of them wait for more, or they are refused or too large. */
    ghost predicate ParseOutcome(res: int, all: string)
      reads `request, `buffer, `headerStatus, `bodyStatus, request
    {
      && (res == 0 ==> buffer == "" && ParserAt(all))
      && (res > 0 || res == UNCAUGHT ==> Feed(site, START, all).Broken? || Trips(site, all))
    }

    /** parseRequest while the head is incomplete. */
    method ParseHead(ghost bytes: string) returns (res: int)
      requires request != null && headerStatus == HeaderOngoing && RequestOk()
      modifies `buffer, `headerStatus, request`headers, request`uri, request`status, request`headerSize, request`line,
        request`verb, request`error, request`finalStatus
      ensures res == UNCAUGHT || RequestOk()
      ensures res == -1 ==>
        headerStatus == HeaderReady && request.BodyFresh() && request.line == "" && request.finalStatus == R.HOST
      ensures res != -1 ==> headerStatus == HeaderOngoing
      ensures res in {UNCAUGHT, -1, 0} || res >= 400
      ensures old(ParserAt(bytes)) ==>
        ParseOutcome(res, bytes + old(buffer)) &&
        (res == -1 ==> Feed(site, START, bytes + old(buffer)) == StartBody(site, request.HeadState(), buffer))
      ensures old(ParserAt(bytes)) ==> HeadRead(res, bytes + old(buffer))
    {
      hide *;
      InHeader();
      HeadFields();
      ghost var leads, all, run := ParserAt(bytes), bytes + buffer, RunHead(request.HeadState(), request.line + buffer);
      if leads {
        HeadStage(bytes);
        StepInHead(site, bytes, request.HeadState(), request.line, buffer);
        RunFromHere(site, bytes, request.HeadState(), request.line, buffer);
      }
      RunHeadCodes(request.HeadState(), request.line + buffer);
      res, buffer := request.ParseHeaders(buffer);
      if res == -1 {
        headerStatus := HeaderReady;
      }
      HeadFields();
      HeaderOk();
      StillReady();
      if leads {
        HeadLeads(all, run, res);
        HeadCounted(all, run, request.headerSize);
        HeadDone(all, run, res);
      }
    }

    /** The head is complete exactly if its bytes hold all of it, and is refused for what
        stands in them. */
    ghost predicate HeadRead(res: int, all: string)
      reads `request, `buffer, request
    {
      request != null &&
      if res == -1 then RunHead(FRESH, all) == Done(request.HeadState(), buffer)
      else match RunHead(FRESH, all)
        case More(h, partial) => res == if HeadTooLarge(h.status, HeaderSize(h.status, all), partial) then 431 else 0
        case Failed(_, code, _) => res == code
        case Done(_, _) => false
    }

    lemma HeadDone(all: string, run: HeadRun, code: int)
      requires request != null && request.HeadLeft(run, code, buffer)
      requires run.Failed? ==> run.code == UNCAUGHT || run.code >= 400
      requires RunHead(FRESH, all) == run && (run.More? ==> HeaderSize(run.head.status, all) == request.headerSize)
      ensures HeadRead(code, all)
    {
      hide RunHead, HeadTooLarge, HeaderSize;
    }

    lemma HeadCounted(all: string, run: HeadRun, size: int)
      requires LeadsTo(site, all, run, size)
      ensures run.More? ==> HeaderSize(run.head.status, all) == size
    {
      hide Feed, StartBody, HeaderSize;
    }

    /** A request whose head is under way. */
    lemma InHeader()
      requires request != null && headerStatus == HeaderOngoing && RequestOk()
      ensures request.status != Term && request.LineKept() && request.BodyFresh() && bodyStream.None? &&
        !request.redirected
    {
    }

    lemma HeaderOk()
      requires request != null && request.BodyFresh() && bodyStream.None? && !request.redirected
      ensures headerStatus == HeaderOngoing && request.status != Term && (request.LineKept() || request.line == "") ==>
        RequestOk()
    {
      NoLineEnd();
    }

    lemma HeadStage(bytes: string)
      requires request != null && ParserAt(bytes) && request.status != Term
      ensures Feed(site, START, bytes) == InHead(request.HeadState(), request.line)
      ensures request.headerSize == HeaderSize(request.status, bytes)
    {
      hide Feed;
    }

    /** What parseHeaders reports about a head that the bytes of the request lead to. */
    lemma HeadLeads(all: string, run: HeadRun, code: int)
      requires request != null && headerStatus == if code == -1 then HeaderReady else HeaderOngoing
      requires (code == -1 <==> request.status == Term) && (code == 0 ==> request.LineKept())
      requires request.HeadLeft(run, code, buffer) && LeadsTo(site, all, run, request.headerSize)
      requires run.Failed? ==> run.code == UNCAUGHT || run.code >= 400
      ensures ParseOutcome(code, all)
      ensures code == -1 ==> Feed(site, START, all) == StartBody(site, request.HeadState(), buffer)
    {
      hide Feed, StartBody, HeadTooLarge, HeaderSize, LineEnd;
    }

    /** The body is under way, and what the buffer makes of it is what all the bytes of
        the request lead to. */
    ghost predicate BodyLeads(all: string)
      reads this, request
    {
      && request != null && headerStatus == HeaderDone && bodyStatus == BodyOngoing && request.BodyKept()
      && request.bodyMaxSize == MaxSize(site, request.headers)
      && Feed(site, START, all) == FeedBody(request.StageNow(), buffer)
    }

    /** parseRequest while the body is incomplete. */
    method ParseBody(ghost all: string) returns (res: int)
      requires request != null && headerStatus == HeaderDone && bodyStatus == BodyOngoing && RequestOk()
      modifies `buffer, `bodyStatus, `bodyStream, request`line, request`error, request`finalStatus,
        request`chunkedBodySize, request`len, request`chunkedStatus, request`bodyStatus, request`decoded, request`got
      ensures RequestOk() && (res in {-1, 0} || res >= 400)
      ensures bodyStatus == if res < 0 then BodyDone else BodyOngoing
      ensures res <= 0 ==> request.error == old(request.error)
      ensures bodyStream.Some? == old(bodyStream).Some?
      ensures old(BodyGoing()) ==>
        (res == -1 <==> old(FeedBody(request.StageNow(), buffer)).Ready?) &&
        Reports(res, res == -1,
                old(MoreBody(request.StageNow(), buffer, request.kind, request.error, request.bodyMaxSize)))
      ensures old(BodyLeads(all)) ==>
        ParseOutcome(res, all) &&
        (res == -1 ==> Feed(site, START, all) == Ready(Message(request.HeadState(), request.Written()), buffer))
    {
      hide *;
      InBody();
      HeadFields();
      ghost var leads, stage, head := BodyLeads(all), request.StageNow(), request.HeadState();
      if leads { BodyStage(all); }
      ghost var going := BodyGoing();
      BodyGoingIs();
      if going {
        NothingFed();
        StageIs();
      }
      var data;
      res, buffer, data := request.ParseInput(buffer);
      if bodyStream.Some? {
        bodyStream := Some(bodyStream.value + data);
      }
      if res < 0 {
        bodyStatus := BodyDone;
      }
      HeadFields();
      BodyOk();
      BodyReadIs(res, FeedBody(stage, old(buffer)), old(buffer) == "");
      if going { BodyReadDone(res, FeedBody(stage, old(buffer)), old(buffer) == ""); }
      if going { BodyReported(res, stage, old(buffer), request.kind, old(request.error), request.bodyMaxSize); }
      if leads { FedLeads(all, head, FeedBody(stage, old(buffer)), old(buffer), res); }
    }

    /** parseInput takes a body to a stage, unless there is nothing to take. */
    ghost predicate BodyRead(res: int, s: Stage, nothing: bool)
      reads `request, `buffer, request
    {
      request != null && if nothing then res == 0 else request.BodyFed(s, res, buffer)
    }

    lemma BodyReadIs(res: int, s: Stage, nothing: bool)
      requires request != null
      ensures BodyRead(res, s, nothing) <==> if nothing then res == 0 else request.BodyFed(s, res, buffer)
    {
    }

    /** The end of a body is reported exactly when it is there. */
    lemma BodyReadDone(res: int, s: Stage, nothing: bool)
      requires BodyRead(res, s, nothing)
      ensures (nothing ==> !s.Ready?) ==> (res == -1 <==> s.Ready?)
    {
      hide ChunksRefusal, Body.Concat;
    }

    /** A request whose body is under way. */
    lemma InBody()
      requires RequestOk() && headerStatus == HeaderDone && bodyStatus == BodyOngoing
      ensures request != null && request.status == Term && (request.finalStatus > R.TRAILER || request.BodyKept())
      ensures bodyStream.Some? ==> bodyStream.value == request.Written()
      ensures Saved()
    {
    }

    lemma BodyOk()
      requires request != null && headerStatus == HeaderDone && request.status == Term
      requires bodyStream.Some? ==> bodyStream.value == request.Written()
      requires bodyStatus == BodyOngoing ==>
        (request.finalStatus > R.TRAILER || request.BodyKept()) && Saved()
      ensures RequestOk()
    {
    }

    /** What parseInput reports about a body that the bytes of the request lead to. */
    lemma FedLeads(all: string, head: Head, s: Stage, before: string, code: int)
      requires request != null && headerStatus == HeaderDone && bodyStatus == if code < 0 then BodyDone else BodyOngoing
      requires request.status == Term && request.HeadState() == head &&
        request.bodyMaxSize == MaxSize(site, head.headers)
      requires Feed(site, START, all) == s && (s.Ready? ==> s.message.head == head)
      requires (s.InSized? ==> s.head == head) && (s.InChunks? ==> s.head == head)
      requires code == 0 ==> request.BodyKept()
      requires if before == "" then code == 0 && buffer == "" && request.StageNow() == s
               else request.BodyFed(s, code, buffer)
      ensures ParseOutcome(code, all)
      ensures code == -1 ==> Feed(site, START, all) == Ready(Message(request.HeadState(), request.Written()), buffer)
    {
      hide StartBody, Feed, FeedBody, ChunksRefusal, MaxSize, LineEnd, Body.Concat, Body.Framed, HeadTooLarge;
    }

    /** Where the bytes in the buffer take a request whose body is being read. */
    lemma BodyStage(all: string)
      requires BodyLeads(all)
      ensures var s := FeedBody(request.StageNow(), buffer);
              && Feed(site, START, all) == s && (s.Ready? ==> s.message.head == request.HeadState())
              && (s.InSized? ==> s.head == request.HeadState()) && (s.InChunks? ==> s.head == request.HeadState())
              && (buffer == "" ==> s == request.StageNow())
              && request.bodyMaxSize == MaxSize(site, request.headers) && request.finalStatus <= R.TRAILER
    {
      hide RunHead, StartBody, Feed, LineEnd, Body.RunChunks, Body.Framed, Body.Concat, MaxSize;
      NothingFed();
    }

    lemma NothingFed()
      requires request != null && request.BodyKept()
      ensures buffer == "" ==> FeedBody(request.StageNow(), buffer) == request.StageNow() && !request.StageNow().Ready?
      ensures request.finalStatus <= R.TRAILER
    {
      hide Body.RunChunks, Body.Concat, LineEnd;
      assert request.got + "" == request.got && request.line + "" == request.line;
      Body.RunChunkLine(request.Wanted(), request.line);
      assert request.decoded + [] == request.decoded;
    }

    /** Bytes that arrive in the body lead on from where the parser stands. */
    lemma BodyGoesOn(bytes: string)
      requires request != null && request.status == Term && ParserAt(bytes)
      ensures BodyLeads(bytes + buffer)
    {
      hide RunHead, StartBody, Feed, LineEnd, HeaderSize, Body.RunChunks, Body.Framed, Body.Concat, FeedBody, MaxSize;
      StepInBody(site, bytes, buffer);
    }

    /** getRequest: a request object, made when there is none. */
    method GetRequest()
      requires RequestOk()
      modifies `request
      ensures request != null && RequestOk()
      ensures if old(request) == null then fresh(request) else request == old(request)
      ensures old(request) == null && fed == "" ==> ParserAt(fed)
    {
      hide RunHead, StartBody, Feed, LineEnd;
      if request == null {
        FeedNothing(site);
        NoLineEnd();
        request := new R.Request();
      }
    }

    /** parseRequest: the bytes join the buffer; they are parsed unless a whole request
        is being answered, when they are kept for the next one. */
    method ParseRequest(data: string) returns (res: int)
      requires RequestOk()
      modifies `buffer, `headerStatus, `bodyStatus, `bodyStream, `request, `received, request
      ensures request != null && (request == old(request) || (old(request) == null && fresh(request)))
      ensures received == old(received) + data
      ensures res == UNCAUGHT || RequestOk()
      ensures res in {UNCAUGHT, -1, 0} || res >= 400
      ensures old(headerStatus) == HeaderOngoing ==> bodyStatus == old(bodyStatus)
      ensures old(headerStatus) == HeaderOngoing && res == -1 ==>
        headerStatus == HeaderReady && request.BodyFresh() && request.line == "" && request.finalStatus == R.HOST
      ensures old(headerStatus) == HeaderOngoing && res != -1 ==> headerStatus == HeaderOngoing
      ensures old(headerStatus) != HeaderOngoing ==> headerStatus == old(headerStatus) && res != UNCAUGHT
      ensures old(headerStatus) == HeaderDone && old(bodyStatus) == BodyOngoing ==>
        bodyStatus == (if res < 0 then BodyDone else BodyOngoing) &&
        (res <= 0 ==> request.error == old(request.error) && Saved()) &&
        request.HeadState() == old(request.HeadState()) && request.kind == old(request.kind)
      ensures old(headerStatus != HeaderOngoing && !(headerStatus == HeaderDone && bodyStatus == BodyOngoing)) ==>
        res == 0 && buffer == old(buffer) + data && bodyStatus == old(bodyStatus) && unchanged(request)
      ensures old(ParserAt(fed)) ==>
        var all := fed + (old(buffer) + data);
        ParseOutcome(res, all) &&
        (res == -1 ==>
          if headerStatus == HeaderReady then Feed(site, START, all) == StartBody(site, request.HeadState(), buffer)
                       else Feed(site, START, all) == Ready(Message(request.HeadState(), request.Written()), buffer))
      ensures old(headerStatus) == HeaderOngoing && old(ParserAt(fed)) ==> HeadRead(res, fed + (old(buffer) + data))
      ensures old(BodyGoing()) ==>
        Reports(res, res == -1, old(MoreBody(request.StageNow(), buffer + data,
                                             request.kind, request.error, request.bodyMaxSize)))
    {
      hide *;
      Uncaught();
      BodyGoingIs();
      if request == null { NoObject(fed); }
      GetRequest();
      UnderWay(fed);
      buffer := buffer + data;
      received := received + data;
      if headerStatus == HeaderOngoing {
        res := ParseHead(fed);
      } else if headerStatus == HeaderDone && bodyStatus == BodyOngoing {
        HeadFields();
        InBody();
        if ParserAt(fed) { BodyGoesOn(fed); }
        res := ParseBody(fed + buffer);
        HeadFields();
      } else {
        return 0;
      }
    }

    /** The body of a request is being read. */
    ghost predicate BodyGoing()
      reads `request, `headerStatus, `bodyStatus, request
    {
      request != null && headerStatus == HeaderDone && bodyStatus == BodyOngoing && request.BodyKept()
    }

    lemma StageIs()
      requires BodyGoing()
      ensures var s := request.StageNow();
              (s.InSized? || s.InChunks?) && s.head == request.HeadState() && request.chunked == s.InChunks?
    {
    }

    lemma BodyGoingIs()
      ensures BodyGoing() <==>
              request != null && headerStatus == HeaderDone && bodyStatus == BodyOngoing && request.BodyKept()
    {
    }

    lemma NoObject(bytes: string)
      requires RequestOk() && request == null
      ensures headerStatus == HeaderOngoing && (ParserAt(bytes) <==> bytes == "")
    {
    }

    /** A parser that waits for more is in a head or in a body. */
    lemma UnderWay(bytes: string)
      requires request != null && RequestOk()
      ensures ParserAt(bytes) ==>
        headerStatus == HeaderOngoing || (headerStatus == HeaderDone && bodyStatus == BodyOngoing)
      ensures headerStatus == HeaderDone ==> request.status == Term
    {
      hide Feed, LineEnd, HeaderSize, MaxSize, Body.Framed, Body.Concat;
    }

    // ----- a read event

    /** A request whose head has just been read. */
    lemma JustRead()
      requires request != null && headerStatus == HeaderReady && RequestOk() && request.BodyFresh()
      ensures request.status == Term && !request.redirected && bodyStream.None?
      ensures request.line == "" && request.finalStatus == R.HOST ==> Untouched()
    {
    }

    lemma GoAheadIs(w: Wire)
      ensures GoAhead(w).responses == w.responses + [[CONTINUE_LINE]] && GoAhead(w).response == Some(Response(100))
    {
    }

    lemma GoesAhead(w: Wire)
      ensures GoAhead(w).response.Some? && GoAhead(w).mode == Write
    {
    }

    lemma AnsweringFields()
      ensures Answering() == Wire(response, outBuffers, mode, responses, overlaid)
    {
    }

    lemma HeadFields()
      requires request != null
      ensures request.HeadState() == Head(request.status, request.verb, request.uri, request.headers)
    {
    }

    lemma StillReady()
      requires request != null && !request.redirected && bodyStream.None?
      ensures headerStatus == HeaderReady && request.status == Term ==> RequestOk()
    {
    }

    /** Nothing of the body has come. */
    ghost predicate Untouched()
      requires request != null
      reads `request, request`line, request`len, request`chunkedStatus, request`chunkedBodySize, request`decoded,
        request`got, request`bodyStatus, request`finalStatus
    {
      && request.line == "" && request.len == 0 && !request.chunkedStatus && request.chunkedBodySize == 0
      && request.decoded == [] && request.got == "" && request.bodyStatus == New && request.finalStatus == R.HOST
    }

    /** The bytes `all` end a head without a body, or lead into the body. */
    ghost predicate BodyFollows(all: string)
      reads this, request
    {
      if bodyStatus == BodyOngoing then BodyLeads(all)
      else request != null && Feed(site, START, all) == Ready(Message(request.HeadState(), request.Written()), buffer)
    }

    /** A body that is about to be read. */
    lemma BodyBegins(all: string)
      requires request != null && Untouched() && headerStatus == HeaderDone && request.status == Term && Framed()
      requires bodyStream.Some? ==> bodyStream.value == ""
      requires Saved()
      ensures RequestOk() && bodyStatus in {BodyNone, BodyOngoing}
      ensures CheckHead(site, request.HeadState()) == 0 && !Expects(request.headers) ==>
        (Feed(site, START, all) == StartBody(site, request.HeadState(), buffer) ==> BodyFollows(all))
    {
      hide Feed, CheckHead, Expects, IsChunked, BodyLength, MaxSize, Body.RunChunks;
      NoLineEnd();
      assert "" + buffer == buffer;
    }

    /** The request whose head has just been read is checked, and the bytes behind the
        head go to its body. */
    method AfterHead(env: Env, ghost all: string) returns (res: int)
      requires request != null && headerStatus == HeaderReady && RequestOk() && request.BodyFresh() && EnvOk(env)
      requires request.line == "" && request.finalStatus == R.HOST
      modifies `buffer, `headerStatus, `bodyStatus, `bodyStream, `response, `outBuffers, `mode, `responses, `overlaid,
        request
      ensures RequestOk() && (res in {-1, 0} || res >= 300)
      ensures HeadDealt(res, old(request.HeadState()), old(buffer), env, old(Answering()))
      ensures !Expects(old(request.headers)) ==> request.headers == old(request.headers)
      ensures headerStatus == HeaderDone ==>
        (bodyStream.Some? <==>
         StreamFor(env.kind, request.verb, FramingOf(old(request.headers)) != NoBody, env.saved, None).Some?)
      ensures res <= 0 ==> headerStatus == HeaderDone && (bodyStatus == BodyOngoing ==> res == 0)
      ensures res > 0 && headerStatus == HeaderDone ==> bodyStatus == BodyOngoing
      ensures res <= 0 && bodyStatus != BodyOngoing ==> Saved()
      ensures old(HeadLed(all)) ==> BodyOutcome(res, all, env.verdict)
      ensures old(HeadRead(-1, all)) && AskingHead(site, all).Some? && env.verdict == 0 ==> Asked(all, old(Answering()))
    {
      hide *;
      JustRead();
      HeadFields();
      StartRefused(request.HeadState(), buffer);
      Asks(all);
      VerdictIs(site, request.HeadState(), env.verdict);
      HeadLedIs(all);
      ghost var head, rest := request.HeadState(), buffer;
      bodyStatus := BodyNone;
      res := HandleRequestHeaders(env);
      FirstRefused(res, head, rest, env);
      HeadAnsweredIs(res, old(Answering()), old(request.headers));
      HeadFields();
      if res != 0 {
        StillReady();
        OutcomeRefused(res, all, env.verdict);
        HeadDealtIs(res, head, rest, env, old(Answering()));
        return;
      }
      assert Untouched();
      HeadLedIs(all);
      PlacedIs(env, None);
      FramedFields();
      res := FirstBody(env, all);
      AskedIs(all, old(Answering()));
      HeadDealtIs(res, head, rest, env, old(Answering()));
    }

    /** The head has been judged, and so has what is there of its body. */
    ghost predicate HeadDealt(res: int, head: Head, rest: string, env: Env, w: Wire)
      reads `request, request, `bodyStatus, `response, `outBuffers, `mode, `responses, `overlaid
    {
      && Reports(res, res <= 0 && bodyStatus != BodyOngoing, FirstVerdict(site, head, rest, env))
      && Answering() == if HeadVerdict(site, head, env.verdict) == 0 && Expects(head.headers) then GoAhead(w) else w
    }

    lemma HeadDealtIs(res: int, head: Head, rest: string, env: Env, w: Wire)
      ensures HeadDealt(res, head, rest, env, w) <==>
              && Reports(res, res <= 0 && bodyStatus != BodyOngoing, FirstVerdict(site, head, rest, env))
              && Answering() ==
                 if HeadVerdict(site, head, env.verdict) == 0 && Expects(head.headers) then GoAhead(w) else w
    {
      hide Reports, FirstVerdict, HeadVerdict, Expects;
    }

    /** The bytes `all` lead to this head and on into its body. */
    ghost predicate HeadStarts(all: string)
      reads `request, `buffer, request
    {
      request != null && Feed(site, START, all) == StartBody(site, request.HeadState(), buffer)
    }

    ghost predicate HeadLed(all: string)
      reads `request, `buffer, request
    {
      HeadStarts(all) && !Expects(request.headers)
    }

    lemma HeadLedIs(all: string)
      ensures HeadLed(all) <==> HeadStarts(all) && !Expects(request.headers)
      ensures HeadStarts(all) <==>
              request != null && Feed(site, START, all) == StartBody(site, request.HeadState(), buffer)
    {
      hide Feed, StartBody, Expects;
    }

    /** The bytes behind a head that has been accepted. */
    method FirstBody(env: Env, ghost all: string) returns (res: int)
      requires request != null && headerStatus == HeaderDone && request.status == Term && EnvOk(env)
      requires Untouched() && Framed() && Placed(env, None) && request.kind == env.kind
      requires HeadVerdict(site, request.HeadState(), env.verdict) == 0
      modifies `buffer, `bodyStatus, `bodyStream, request`line, request`error, request`finalStatus,
        request`chunkedBodySize, request`len, request`chunkedStatus, request`bodyStatus, request`decoded, request`got
      ensures RequestOk() && (res in {-1, 0} || res >= 400)
      ensures bodyStatus == BodyOngoing <==> old(bodyStatus) != BodyNone && res >= 0
      ensures old(bodyStatus) == BodyNone ==> res == 0
      ensures res <= 0 && bodyStatus != BodyOngoing ==> Saved()
      ensures bodyStatus == BodyDone <==> old(bodyStatus != BodyNone && WholeBody(request.headers, buffer))
      ensures bodyStatus == BodyNone <==> FramingOf(old(request.headers)) == NoBody
      ensures bodyStream.Some? == old(bodyStream).Some?
      ensures Reports(res, res <= 0 && bodyStatus != BodyOngoing,
                      FirstVerdict(site, old(request.HeadState()), old(buffer), env))
      ensures old(HeadLed(all)) ==> BodyOutcome(res, all, env.verdict)
    {
      hide *;
      HeadFields();
      HeadLedIs(all);
      VerdictIs(site, request.HeadState(), env.verdict);
      PlacedIs(env, None);
      SavedIs();
      BodyBegins(all);
      BodyAtHand();
      BodyGoingIs();
      FramedFields();
      OutcomeNoBody(all, env.verdict);
      FirstAccepted(request.HeadState(), buffer, env);
      res := 0;
      if bodyStatus != BodyNone {
        res := ParseBody(all);
        OutcomeParsed(res, all, env.verdict);
      }
    }

    /** What has been read so far is answered with the status `due`: that of a complete
        request, or the one reported. */
    ghost predicate Reports(res: int, done: bool, due: int)
      reads `request, request
    {
      if done then
        && request != null
        && due == DoneStatus(request.kind, request.verb, request.error, request.BodySize() > 0)
      else res == due
    }

    lemma ReportsIs(res: int, done: bool, due: int)
      ensures Reports(res, done, due) <==>
              if done then
                && request != null
                && due == DoneStatus(request.kind, request.verb, request.error, request.BodySize() > 0)
              else res == due
    {
      hide DoneStatus;
    }

    lemma FirstRefused(res: int, head: Head, rest: string, env: Env)
      ensures res != 0 && res == HeadVerdict(site, head, env.verdict) ==>
              Reports(res, false, FirstVerdict(site, head, rest, env))
    {
      hide HeadVerdict, FramingOf, MoreBody, DoneStatus;
    }

    /** The head has been accepted: with no body it is complete. */
    lemma FirstAccepted(head: Head, rest: string, env: Env)
      requires request != null && Framed() && Untouched() && request.status == Term && request.HeadState() == head
      requires HeadVerdict(site, head, env.verdict) == 0 && request.kind == env.kind
      requires request.kind == R.Static && request.verb in {1, 2} ==> request.error == env.saved
      ensures bodyStatus == BodyNone ==> Reports(0, true, FirstVerdict(site, head, rest, env))
      ensures bodyStatus == BodyOngoing ==>
              FirstVerdict(site, head, rest, env) ==
              MoreBody(request.StageNow(), rest, request.kind, request.error, request.bodyMaxSize)
    {
      hide HeadVerdict, IsChunked, BodyLength, MaxSize, MoreBody;
      if bodyStatus == BodyOngoing {
        StageFirst();
        SavedForUploads(request.StageNow(), rest, env.kind, env.saved, request.error, request.bodyMaxSize);
      }
    }

    lemma StageFirst()
      requires request != null && Framed() && Untouched() && request.status == Term && bodyStatus == BodyOngoing
      ensures var s := request.StageNow();
              (s.InSized? || s.InChunks?) && s.head == request.HeadState() &&
              s == match FramingOf(request.headers)
                   case Sized(n) => InSized(request.HeadState(), n, "")
                   case _ => InChunks(request.HeadState(), Body.Size, "", [])
      ensures request.bodyMaxSize == MaxSize(site, request.headers) && FramingOf(request.headers) != NoBody
    {
      hide IsChunked, BodyLength, MaxSize;
    }

    /** The status that is kept matters for uploads only. */
    static lemma SavedForUploads(s: Stage, bytes: string, kind: R.Kind, a: int, b: int, limit: int)
      requires s.InSized? || s.InChunks?
      requires a == b || kind != R.Static || s.head.verb !in {1, 2}
      ensures MoreBody(s, bytes, kind, a, limit) == MoreBody(s, bytes, kind, b, limit)
    {
      hide Body.RunChunks, Body.Concat, ChunksRefusal;
    }

    /** What parseInput reports about a body. */
    lemma BodyReported(res: int, stage: Stage, bytes: string, kind: R.Kind, saved: int, limit: int)
      requires BodyRead(res, FeedBody(stage, bytes), bytes == "") && (stage.InSized? || stage.InChunks?)
      requires request.HeadState() == stage.head && request.kind == kind && request.bodyMaxSize == limit
      requires request.chunked == stage.InChunks?
      requires res == -1 && kind == R.Static && request.verb in {1, 2} ==> request.error == saved
      ensures Reports(res, res == -1, MoreBody(stage, bytes, kind, saved, limit))
    {
      hide Body.RunChunks, Body.Concat, ChunksRefusal;
    }

    /** The head has been accepted and the 100 line is on the wire; the body is complete
        exactly if all of it came with the head. */
    ghost predicate Asked(all: string, w: Wire)
      reads `headerStatus, `bodyStatus, `response, `outBuffers, `mode, `responses, `overlaid
    {
      match AskingHead(site, all)
      case None => false
      case Some((head, rest)) =>
        && headerStatus == HeaderDone && Answering() == GoAhead(w) && bodyStatus != BodyNone
        && (bodyStatus == BodyDone <==> WholeBody(head.headers, rest))
    }

    lemma AskedIs(all: string, w: Wire)
      ensures Asked(all, w) <==>
              match AskingHead(site, all)
              case None => false
              case Some((head, rest)) =>
                && headerStatus == HeaderDone && Answering() == GoAhead(w) && bodyStatus != BodyNone
                && (bodyStatus == BodyDone <==> WholeBody(head.headers, rest))
    {
      hide AskingHead, GoAhead, WholeBody;
    }

    lemma Asks(all: string)
      requires request != null
      ensures HeadRead(-1, all) && AskingHead(site, all).Some? ==>
              var head := request.HeadState();
              && AskingHead(site, all) == Some((head, buffer)) && CheckHead(site, head) == 0
              && AsksFirst(request.headers) && FramingOf(request.headers) != NoBody && head.headers == request.headers
    {
      hide RunHead, CheckHead, AsksFirst, FramingOf;
    }

    /** A body of which nothing has been read yet. */
    lemma BodyAtHand()
      requires request != null && Untouched() && request.status == Term && Framed()
      ensures bodyStatus == BodyOngoing ==>
              request.BodyKept() &&
              (FeedBody(request.StageNow(), buffer).Ready? <==> WholeBody(request.headers, buffer))
    {
      hide IsChunked, BodyLength, MaxSize, Body.RunChunks;
      NoLineEnd();
      assert "" + buffer == buffer;
    }

    /** What AfterHead reports. */
    ghost predicate BodyOutcome(res: int, all: string, verdict: int)
      reads `request, `buffer, `headerStatus, `bodyStatus, request
    {
      var s := Feed(site, START, all);
      && (res <= 0 ==> request != null)
      && (res <= 0 && bodyStatus == BodyOngoing ==> res == 0 && buffer == "" && ParserAt(all))
      && (res <= 0 && bodyStatus != BodyOngoing ==> s == Ready(Message(request.HeadState(), request.Written()), buffer))
      && (res > 0 && verdict == 0 ==> s.Broken? || Trips(site, all))
    }

    lemma OutcomeRefused(res: int, all: string, verdict: int)
      requires res > 0
      ensures verdict != 0 || Feed(site, START, all) == Broken ==> BodyOutcome(res, all, verdict)
    {
      hide Feed, Trips, ParserAt;
    }

    lemma OutcomeParsed(res: int, all: string, verdict: int)
      requires request != null && (res <= 0 ==> (bodyStatus == BodyOngoing <==> res == 0)) && (res == -1 || res >= 0)
      ensures ParseOutcome(res, all) &&
              (res == -1 ==>
                Feed(site, START, all) == Ready(Message(request.HeadState(), request.Written()), buffer)) ==>
              BodyOutcome(res, all, verdict)
    {
      hide Feed, Trips, ParserAt;
    }

    lemma OutcomeNoBody(all: string, verdict: int)
      requires request != null && bodyStatus != BodyDone
      ensures BodyFollows(all) ==> if bodyStatus == BodyOngoing then BodyLeads(all) else BodyOutcome(0, all, verdict)
    {
      hide Feed, Trips, ParserAt;
    }

    lemma StartExpects(head: Head, rest: string)
      ensures Expects(head.headers) ==> StartBody(site, head, rest) == Broken
    {
      hide CheckHead;
    }

    lemma StartRefused(head: Head, rest: string)
      ensures CheckHead(site, head) != 0 ==> StartBody(site, head, rest) == Broken
    {
      hide CheckHead;
    }

    /** The plain path when bytes are about to be parsed: those kept in the buffer
        belong to the next request. */
    ghost predicate PlainIn()
      reads this, request
    {
      && !overlaid
      && (mode == Write ==> PlainOk())
      && (mode == Read ==> ParsedAs(site, received, log, fed + buffer) && ParserAt(fed) && |responses| == |log|)
    }

    /** A request has been completed and logged, and has no response yet. */
    ghost predicate ToAnswer()
      reads this, request
    {
      && !overlaid && mode == Read && ParsedAs(site, received, log, buffer) && Accepted() && |responses| == |log| - 1
    }

    /** The bytes of a request that the parser neither refuses nor finds too large. */
    ghost predicate Takes(all: string) {
      !Feed(site, START, all).Broken? && !Trips(site, all)
    }

    /** The log once the bytes `all` are parsed. */
    ghost function LogAfter(before: seq<Message>, all: string): seq<Message> {
      var s := Feed(site, START, all);
      if s.Ready? then before + [s.message] else before
    }

    /** What ReadRequest reports about the bytes of a request. */
    ghost predicate ReadOutcome(res: int, done: bool, quiet: bool, all: string, verdict: int)
      reads `request, `buffer, `headerStatus, `bodyStatus, request
    {
      && (quiet && done ==>
            request != null && !Expects(request.headers) &&
            Feed(site, START, all) == Ready(Message(request.HeadState(), request.Written()), buffer))
      && (quiet && res == 0 && !done ==> buffer == "" && ParserAt(all) && !Feed(site, START, all).Ready?)
      && (res > 0 || res == UNCAUGHT || !quiet ==> verdict == 0 ==> !Takes(all))
    }

    lemma Uncaught()
      ensures UNCAUGHT == -2
    {
    }

    /** Reading more of a request keeps the mode, unless the 100 line goes out. */
    twostate lemma ModeKept()
      requires old(ModeOk()) && request != null && cgi == old(cgi) && stuck == old(stuck) && sent == old(sent)
      requires Answering() == old(Answering()) ||
        (Answering() == GoAhead(old(Answering())) && old(headerStatus) != HeaderDone)
      requires old(headerStatus) == HeaderDone && old(bodyStatus) != BodyOngoing ==>
        headerStatus == HeaderDone && bodyStatus != BodyOngoing
      ensures ModeOk()
    {
      hide Flatten, WireOk;
      WireGrows(sent, old(Answering()), 0, []);
    }

    lemma ReadRefused(res: int, all: string, verdict: int)
      requires res > 0 || res == UNCAUGHT
      ensures ParseOutcome(res, all) ==> ReadOutcome(res, false, true, all, verdict)
    {
      hide Feed, Trips, ParserAt;
    }

    lemma ReadWaits(all: string, verdict: int)
      ensures ParseOutcome(0, all) ==> ReadOutcome(0, false, true, all, verdict)
    {
      hide Feed, Trips;
      FeedNothing(site);
    }

    lemma ReadBody(all: string, verdict: int)
      requires request != null
      ensures Feed(site, START, all) == Ready(Message(request.HeadState(), request.Written()), buffer) ==>
        ReadOutcome(-1, true, true, all, verdict)
    {
      hide Feed, Trips, Expects;
      FeedNothing(site);
      if Feed(site, START, all).Ready? { ReadyHead(site, all); }
    }

    lemma ReadHead(res: int, all: string, verdict: int)
      requires request != null && !Expects(request.headers)
      requires res >= -1 && (res <= 0 && bodyStatus == BodyOngoing ==> res == 0)
      ensures BodyOutcome(res, all, verdict) ==>
        ReadOutcome(res, res <= 0 && bodyStatus != BodyOngoing, true, all, verdict)
    {
      hide Feed, Trips, Expects;
    }

    lemma ReadExpect(res: int, all: string, verdict: int)
      ensures Feed(site, START, all) == Broken ==>
        ReadOutcome(res, true, false, all, verdict) && ReadOutcome(res, false, false, all, verdict)
    {
      hide Feed, Trips, Expects;
    }

    /** The first part of handleClientIn: parsing, and the checks on a head that has
        become complete. `done` tells that a whole request is there; `quiet` that no
        Expect header was met. */
    method ReadRequest(data: string, env: Env, ghost all: string) returns (res: int, done: bool, ghost quiet: bool)
      requires RequestOk() && ModeOk() && EnvOk(env) && all == fed + (buffer + data)
      requires mode == Read || bodyStatus != BodyOngoing
      modifies `buffer, `headerStatus, `bodyStatus, `bodyStream, `response, `outBuffers, `mode, `responses, `overlaid,
        `request, `received, request
      ensures request != null && (request == old(request) || fresh(request)) && received == old(received) + data
      ensures if res == UNCAUGHT then !done else WasRead(res, done)
      ensures quiet ==> Answering() == old(Answering())
      ensures old(headerStatus) == HeaderDone && old(bodyStatus) != BodyOngoing ==>
        res == 0 && !done && quiet && buffer == old(buffer) + data && request == old(request) && unchanged(request) &&
        headerStatus == HeaderDone && bodyStatus == old(bodyStatus)
      ensures old(mode == Read && ParserAt(fed)) ==> ReadOutcome(res, done, quiet, all, env.verdict)
      ensures old(Steady()) ==>
        Dealt(res, done, old(Due(data, env)), old(Prompted(data, env)), old(Answering()))
      ensures old(Asking(data)) && env.verdict == 0 ==>
        res != UNCAUGHT && Asked(all, old(Answering())) && (done <==> bodyStatus == BodyDone)
    {
      hide *;
      Uncaught();
      ModeFields();
      AnsweringFields();
      res, done, quiet := ReadBytes(data, env, all);
      if res != UNCAUGHT { ModeKept(); }
      AnsweringFields();
      GoesAhead(old(Answering()));
      ReadIs(res, done);
    }

    /** The same, without a look at what is being written. */
    method ReadBytes(data: string, env: Env, ghost all: string) returns (res: int, done: bool, ghost quiet: bool)
      requires RequestOk() && EnvOk(env) && all == fed + (buffer + data)
      modifies `buffer, `headerStatus, `bodyStatus, `bodyStream, `response, `outBuffers, `mode, `responses, `overlaid,
        `request, `received, request
      ensures request != null && (request == old(request) || fresh(request)) && received == old(received) + data
      ensures if res == UNCAUGHT then !done
              else RequestOk() && (res in {-1, 0} || res >= 300) && (!done ==> res >= 0)
      ensures done ==> res <= 0 && headerStatus == HeaderDone && bodyStatus != BodyOngoing && Saved()
      ensures Answering() == old(Answering()) ||
        (Answering() == GoAhead(old(Answering())) && !quiet && old(headerStatus) == HeaderOngoing)
      ensures old(headerStatus) == HeaderDone && old(bodyStatus) != BodyOngoing ==>
        res == 0 && !done && quiet && buffer == old(buffer) + data && request == old(request) && unchanged(request) &&
        headerStatus == HeaderDone && bodyStatus == old(bodyStatus)
      ensures old(headerStatus) == HeaderDone && done ==> old(bodyStatus) == BodyOngoing
      ensures old(ParserAt(fed)) ==> ReadOutcome(res, done, quiet, all, env.verdict)
      ensures old(Steady()) ==>
        Dealt(res, done, old(Due(data, env)), old(Prompted(data, env)), old(Answering()))
      ensures old(Asking(data)) && env.verdict == 0 ==>
        res != UNCAUGHT && Asked(all, old(Answering())) && (done <==> bodyStatus == BodyDone)
    {
      hide *;
      Uncaught();
      AnsweringFields();
      AskingIs(data);
      DueIs(data, env);
      res := ParseRequest(data);
      NotAsking(res, all);
      Unjudged(res, all, env);
      ReportsIs(res, false, res);
      quiet, done := true, false;
      if headerStatus == HeaderReady && res == -1 {
        HeadLedIs(all);
        res, done, quiet := Parsed(env, all);
        return;
      }
      if res == -1 {
        done := true;
        ReadBody(all, env.verdict);
      } else if res == 0 {
        ReadWaits(all, env.verdict);
      } else {
        ReadRefused(res, all, env.verdict);
      }
      AnsweringFields();
      DealtIs(res, done, old(Due(data, env)), old(Prompted(data, env)), old(Answering()));
    }

    /** A head has been read whole. */
    method Parsed(env: Env, ghost all: string) returns (res: int, done: bool, ghost quiet: bool)
      requires request != null && headerStatus == HeaderReady && RequestOk() && EnvOk(env)
      requires request.BodyFresh() && request.line == "" && request.finalStatus == R.HOST
      modifies `buffer, `headerStatus, `bodyStatus, `bodyStream, `response, `outBuffers, `mode, `responses, `overlaid,
        request
      ensures RequestOk() && (res in {-1, 0} || res >= 300) && (!done ==> res >= 0)
      ensures done ==>
        res <= 0 && headerStatus == HeaderDone && bodyStatus != BodyOngoing && Saved()
      ensures Answering() == old(Answering()) || (Answering() == GoAhead(old(Answering())) && !quiet)
      ensures old(HeadRead(-1, all)) ==>
        Dealt(res, done, Verdict(site, all, env), Prompts(site, all, env), old(Answering()))
      ensures old(HeadStarts(all)) ==> ReadOutcome(res, done, quiet, all, env.verdict)
      ensures old(HeadRead(-1, all)) ==>
        AskingHead(site, all).Some? && env.verdict == 0 ==>
        Asked(all, old(Answering())) && (done <==> bodyStatus == BodyDone)
    {
      hide *;
      HeadFields();
      quiet := !Expects(request.headers);
      HeadLedIs(all);
      StartExpects(request.HeadState(), buffer);
      Judged(all, env);
      ghost var head, rest := request.HeadState(), buffer;
      res := AfterHead(env, all);
      HeadDealtIs(res, head, rest, env, old(Answering()));
      if quiet { ReadHead(res, all, env.verdict); } else { ReadExpect(res, all, env.verdict); }
      done := res <= 0 && bodyStatus != BodyOngoing;
      AskedIs(all, old(Answering()));
      DealtIs(res, done, Verdict(site, all, env), Prompts(site, all, env), old(Answering()));
    }

    /** What has been read is answered with the status `due`, and nothing has gone on the
        wire but the 100 line for a head that prompts it. */
    ghost predicate Dealt(res: int, done: bool, due: int, prompts: bool, w: Wire)
      reads `request, request, `response, `outBuffers, `mode, `responses, `overlaid
    {
      Reports(res, done, due) && Answering() == if prompts then GoAhead(w) else w
    }

    lemma DealtIs(res: int, done: bool, due: int, prompts: bool, w: Wire)
      ensures Dealt(res, done, due, prompts, w) <==>
              Reports(res, done, due) && Answering() == if prompts then GoAhead(w) else w
    {
      hide Reports;
    }

    /** The verdict on the head that has just been read. */
    lemma Judged(all: string, env: Env)
      requires request != null
      ensures HeadRead(-1, all) ==>
              && Verdict(site, all, env) == FirstVerdict(site, request.HeadState(), buffer, env)
              && (Prompts(site, all, env) <==>
                    HeadVerdict(site, request.HeadState(), env.verdict) == 0 && Expects(request.headers))
    {
      hide RunHead, FirstVerdict, HeadVerdict, Expects;
    }

    /** The verdict on a head that is incomplete or refused. */
    lemma Unjudged(res: int, all: string, env: Env)
      ensures HeadRead(res, all) && res != -1 ==> res == Verdict(site, all, env) && !Prompts(site, all, env)
    {
      hide RunHead, FirstVerdict, HeadVerdict, Expects, HeadTooLarge;
    }

    /** What the parser is in, it knows how it got there. */
    ghost predicate Steady()
      reads `mode, `request, `headerStatus, `bodyStatus, `fed, request
    {
      && mode == Read && (headerStatus == HeaderOngoing ==> ParserAt(fed))
      && (headerStatus == HeaderDone && bodyStatus == BodyOngoing ==> BodyGoing())
    }

    /** The status that answers the current request once `data` has come, or 0. */
    ghost function Due(data: string, env: Env): int
      reads `request, `headerStatus, `bodyStatus, `fed, `buffer, request
    {
      if headerStatus == HeaderOngoing then Verdict(site, fed + (buffer + data), env)
      else if BodyGoing() then
        MoreBody(request.StageNow(), buffer + data, request.kind, request.error, request.bodyMaxSize)
      else 0
    }

    ghost function Prompted(data: string, env: Env): bool
      reads `headerStatus, `fed, `buffer
    {
      headerStatus == HeaderOngoing && Prompts(site, fed + (buffer + data), env)
    }

    lemma DueIs(data: string, env: Env)
      ensures headerStatus == HeaderOngoing ==>
              Due(data, env) == Verdict(site, fed + (buffer + data), env) &&
              (Prompted(data, env) <==> Prompts(site, fed + (buffer + data), env)) &&
              (Steady() ==> ParserAt(fed))
      ensures Steady() ==> mode == Read
      ensures headerStatus != HeaderOngoing ==> !Prompted(data, env)
      ensures headerStatus != HeaderOngoing && BodyGoing() ==>
              Due(data, env) ==
              MoreBody(request.StageNow(), buffer + data, request.kind, request.error, request.bodyMaxSize)
      ensures headerStatus == HeaderDone && bodyStatus == BodyOngoing && Steady() ==> BodyGoing()
      ensures headerStatus != HeaderOngoing && !(headerStatus == HeaderDone && bodyStatus == BodyOngoing) ==>
              Due(data, env) == 0
    {
      hide Verdict, Prompts, MoreBody, ParserAt;
    }

    /** The same once a body that is complete has been logged. */
    ghost predicate AskedHeard(all: string, w: Wire, logged: nat)
      reads `headerStatus, `bodyStatus, `response, `outBuffers, `mode, `responses, `overlaid, `alive, `log
    {
      alive && Asked(all, w) && |log| == logged + if bodyStatus == BodyDone then 1 else 0
    }

    lemma AskedHeardIs(all: string, w: Wire, logged: nat)
      ensures AskedHeard(all, w, logged) <==>
              alive && Asked(all, w) && |log| == logged + if bodyStatus == BodyDone then 1 else 0
    {
      hide Asked;
    }

    /** With these bytes the head is complete, and it asks for the 100 line. */
    ghost predicate Asking(data: string)
      reads `mode, `headerStatus, `bodyStatus, `fed, `buffer, `request, request
    {
      mode == Read && headerStatus == HeaderOngoing && ParserAt(fed) && AskingHead(site, fed + (buffer + data)).Some?
    }

    lemma AskingIs(data: string)
      ensures Asking(data) <==>
        mode == Read && headerStatus == HeaderOngoing && ParserAt(fed) && AskingHead(site, fed + (buffer + data)).Some?
    {
      hide ParserAt, AskingHead;
    }

    lemma NotAsking(res: int, all: string)
      ensures HeadRead(res, all) && res != -1 ==> AskingHead(site, all).None?
    {
      hide RunHead, CheckHead, AsksFirst, FramingOf;
    }

    /** What has been read is a whole request, a part of one, or refused. */
    ghost predicate WasRead(res: int, done: bool)
      reads `request, `headerStatus, `bodyStatus, `bodyStream, `mode, `response, `outBuffers, `cgi, `stuck, `sent,
        `responses, `overlaid, request
    {
      && request != null && RequestOk() && ModeOk() && (res in {-1, 0} || res >= 300) && (!done ==> res >= 0)
      && (res > 0 || done ==> mode == Read || response.Some?)
      && (done ==>
            res <= 0 && headerStatus == HeaderDone && bodyStatus != BodyOngoing && Saved())
    }

    lemma ReadIs(res: int, done: bool)
      ensures WasRead(res, done) <==>
        && request != null && RequestOk() && ModeOk() && (res in {-1, 0} || res >= 300) && (!done ==> res >= 0)
        && (res > 0 || done ==> mode == Read || response.Some?)
        && (done ==>
              res <= 0 && headerStatus == HeaderDone && bodyStatus != BodyOngoing && Saved())
    {
      hide RequestOk, ModeOk;
    }

    /** The bytes at hand when `data` arrives on the plain path. */
    lemma Arriving(data: string)
      requires PlainIn()
      ensures mode == Write ==> headerStatus == HeaderDone && bodyStatus != BodyOngoing
      ensures mode == Read ==>
        ParserAt(fed) && ParsedAs(site, received + data, log, fed + (buffer + data)) && |responses| == |log| &&
        !overlaid
    {
      hide Feed, Trips, ParserAt, ParsedAs;
      if mode == Read {
        ParsedAsGrows(site, received, log, fed + buffer, data);
        assert fed + buffer + data == fed + (buffer + data);
      }
    }

    /** The request still waits for more. */
    lemma Waits(all: string, verdict: int)
      requires ReadOutcome(0, false, true, all, verdict)
      ensures LogAfter(log, all) == log
      ensures mode == Read && !overlaid && |responses| == |log| && fed == all && ParsedAs(site, received, log, all) ==>
        PlainOk()
    {
      hide Feed, Trips, ParserAt, ParsedAs;
    }

    /** The request is complete. */
    lemma Completes(res: int, all: string, verdict: int)
      requires ReadOutcome(res, true, true, all, verdict)
      ensures request != null && !Expects(request.headers)
      ensures var m := Message(request.HeadState(), request.Written());
              && m.head.headers == request.headers && LogAfter(log, all) == log + [m]
              && (ParsedAs(site, received, log, all) ==> ParsedAs(site, received, log + [m], buffer))
    {
      hide Feed, Trips, ParserAt, ParsedAs, Expects;
      if ParsedAs(site, received, log, all) { ParsedAsSnoc(site, received, log, all); }
    }

    lemma Answerable(last: Message)
      requires log != [] && log[|log| - 1] == last && request != null && request.headers == last.head.headers
      requires headerStatus == HeaderDone && bodyStatus != BodyOngoing && !Expects(request.headers)
      requires mode == Read && !overlaid && |responses| == |log| - 1 && ParsedAs(site, received, log, buffer)
      ensures ToAnswer()
    {
      hide ParsedAs, Expects;
    }

    /** While an answer is being written, what arrives is kept for the next request. */
    twostate lemma Kept(data: string)
      requires old(PlainIn()) && old(mode) == Write && Answering() == old(Answering()) && log == old(log)
      requires request == old(request) && request != null && request.headers == old(request.headers)
      requires headerStatus == old(headerStatus) && bodyStatus == old(bodyStatus)
      requires received == old(received) + data && buffer == old(buffer) + data && cgi == old(cgi)
      requires request.connection == old(request.connection) && closes == old(closes)
      ensures PlainOk()
    {
      hide ParsedAs, Expects;
      ParsedAsGrows(site, old(received), log, old(buffer), data);
    }

    lemma Refuses(res: int, done: bool, quiet: bool, all: string, verdict: int)
      requires ReadOutcome(res, done, quiet, all, verdict) && (res > 0 || res == UNCAUGHT || !quiet)
      ensures verdict == 0 ==> !Takes(all)
    {
      hide Feed, Trips, ParserAt;
    }

    /** The last part of handleClientIn: a whole request is there. */
    method Complete(ghost res: int, ghost all: string, ghost verdict: int) returns (status: int)
      requires request != null && RequestOk() && ModeOk() && headerStatus == HeaderDone && bodyStatus != BodyOngoing
      requires Saved()
      requires plain ==> ReadOutcome(res, true, true, all, verdict) && ParsedAs(site, received, log, all)
      requires plain ==> mode == Read && !overlaid && |responses| == |log|
      modifies `log, request`hasPath
      ensures status > 0 && RequestOk() && ModeOk()
      ensures plain ==> ToAnswer() && log == LogAfter(old(log), all)
      ensures |log| == |old(log)| + 1
      ensures status == DoneStatus(request.kind, request.verb, request.error, request.BodySize() > 0)
    {
      hide *;
      ghost var m := Message(request.HeadState(), request.Written());
      HeadFields();
      if plain { Completes(res, all, verdict); }
      SavedIs();
      DonePositive(request.kind, request.verb, request.error, request.BodySize() > 0);
      status := HandleRequestBodyDone();
      HeadFields();
      log := log + [m];
      if plain { Answerable(m); }
    }

    static lemma DonePositive(kind: R.Kind, verb: int, saved: int, bodied: bool)
      ensures (kind == R.Static && verb in {1, 2} ==> saved > 0) ==> DoneStatus(kind, verb, saved, bodied) > 0
    {
    }

    /** The request that has been read, whole or not, as handleClientIn leaves it. */
    ghost predicate Heard(res: int)
      reads this, request
    {
      && res >= 0 && RequestOk() && ModeOk() && (plain ==> if res == 0 then PlainOk() else ToAnswer())
      && (res > 0 ==>
            request != null && (mode == Read || response.Some?) &&
            (res == 200 ==> headerStatus == HeaderDone && bodyStatus != BodyOngoing))
    }

    lemma HeardIs(res: int)
      ensures Heard(res) <==>
        && res >= 0 && RequestOk() && ModeOk() && (plain ==> if res == 0 then PlainOk() else ToAnswer())
        && (res > 0 ==>
              request != null && (mode == Read || response.Some?) &&
              (res == 200 ==> headerStatus == HeaderDone && bodyStatus != BodyOngoing))
    {
      hide RequestOk, ModeOk, PlainOk, ToAnswer;
    }

    /** The end of handleClientIn: what has been read is a whole request, or a part of one,
        or it is refused, or it is `kept` for later. */
    method Conclude(res: int, done: bool, ghost kept: bool, ghost all: string, ghost verdict: int, ghost w: Wire,
        ghost due: int)
      returns (status: int)
      requires request != null && WasRead(res, done) && Concludes(res, done, kept, all, verdict)
      modifies `log, request`hasPath
      ensures Heard(status)
      ensures plain ==> if kept then status == 0 && log == old(log) else log == LogAfter(old(log), all)
      ensures |log| == |old(log)| + if done then 1 else 0
      ensures alive && old(Asked(all, w)) && (done <==> bodyStatus == BodyDone) ==> AskedHeard(all, w, |old(log)|)
      ensures old(Reports(res, done, due)) ==> status == due
    {
      hide *;
      ReportsIs(res, done, due);
      ReadIs(res, done);
      ConcludesIs(res, done, kept, all, verdict);
      status := res;
      if done {
        status := Complete(res, all, verdict);
      } else if plain && !kept {
        Waits(all, verdict);
      }
      HeardIs(status);
      AskedHeardIs(all, w, |old(log)|);
    }

    /** On the plain path: what has been read leads on from the log, or is `kept` behind an
        answer that is being written. */
    ghost predicate Concludes(res: int, done: bool, kept: bool, all: string, verdict: int)
      reads this, request
    {
      plain ==>
        if kept then res == 0 && !done && PlainOk()
        else
          && res <= 0 && ReadOutcome(res, done, true, all, verdict) && ParsedAs(site, received, log, all)
          && mode == Read && !overlaid && |responses| == |log| && fed == all
    }

    lemma ConcludesIs(res: int, done: bool, kept: bool, all: string, verdict: int)
      ensures Concludes(res, done, kept, all, verdict) <==>
        (plain ==>
          if kept then res == 0 && !done && PlainOk()
          else
            && res <= 0 && ReadOutcome(res, done, true, all, verdict) && ParsedAs(site, received, log, all)
            && mode == Read && !overlaid && |responses| == |log| && fed == all)
    {
      hide PlainOk, ReadOutcome, ParsedAs;
    }

    /** The bytes of handleClientIn are read, and it is noted whether this leaves the plain
        path. */
    method ReadOn(data: string, env: Env) returns (res: int, done: bool)
      requires alive && RequestOk() && ModeOk() && EnvOk(env) && (plain ==> PlainIn())
      requires mode == Read || bodyStatus != BodyOngoing
      modifies `buffer, `headerStatus, `bodyStatus, `bodyStream, `response, `outBuffers, `mode, `responses, `overlaid,
        `request, `received, `fed, `plain, request
      ensures request != null && (request == old(request) || fresh(request)) && received == old(received) + data
      ensures if res == UNCAUGHT then !done else WasRead(res, done)
      ensures res != UNCAUGHT ==>
        Concludes(res, done, old(mode) == Write, old(fed + (buffer + data)), env.verdict)
      ensures old(plain) && old(mode) == Write ==>
        plain && res == 0 && !done && Answering() == old(Answering()) && buffer == old(buffer) + data
      ensures old(plain) && old(mode) == Read && env.verdict == 0 && Takes(old(fed + (buffer + data))) ==>
        plain && res != UNCAUGHT
      ensures old(Steady()) ==>
        Dealt(res, done, old(Due(data, env)), old(Prompted(data, env)), old(Answering()))
      ensures old(Asking(data)) && env.verdict == 0 ==>
        res != UNCAUGHT && Asked(old(fed + (buffer + data)), old(Answering())) && (done <==> bodyStatus == BodyDone)
    {
      hide *;
      ghost var all := fed + (buffer + data);
      Uncaught();
      if plain { Arriving(data); }
      AnsweringFields();
      ghost var quiet;
      res, done, quiet := ReadRequest(data, env, all);
      AnsweringFields();
      if plain && old(mode) == Read && (res > 0 || res == UNCAUGHT || !quiet) {
        Refuses(res, done, quiet, all, env.verdict);
      }
      plain := plain && quiet && res <= 0 && res != UNCAUGHT;
      fed := all;
      if plain && old(mode) == Write { Kept(data); }
      ConcludesIs(res, done, old(mode) == Write, all, env.verdict);
    }

    /** handleClientIn: what arrives is parsed; a positive result is the status of the
        answer to a request that is complete or refused. */
    method HandleClientIn(data: string, env: Env) returns (res: int)
      requires alive && RequestOk() && ModeOk() && EnvOk(env) && (plain ==> PlainIn())
      requires mode == Read || bodyStatus != BodyOngoing
      modifies `buffer, `headerStatus, `bodyStatus, `bodyStream, `response, `outBuffers, `mode, `responses, `overlaid,
        `request, `received, `log, `fed, `plain, `alive, request
      ensures request == old(request) || fresh(request)
      ensures !alive ==> res == 0 && !plain
      ensures alive ==> Heard(res)
      ensures received == old(received) + data
      ensures old(plain) && old(mode) == Write ==>
        alive && plain && res == 0 && log == old(log) && Answering() == old(Answering()) && buffer == old(buffer) + data
      ensures old(plain) && old(mode) == Read && env.verdict == 0 && Takes(old(fed + buffer) + data) ==>
        alive && plain && log == LogAfter(old(log), old(fed + buffer) + data)
      ensures old(Asking(data)) && env.verdict == 0 ==>
        AskedHeard(old(fed + (buffer + data)), old(Answering()), |old(log)|)
      ensures old(Steady()) ==> Answered(res, old(Due(data, env)), old(Prompted(data, env)), old(Answering()))
    {
      hide *;
      ghost var all := fed + (buffer + data);
      assert fed + buffer + data == all;
      Uncaught();
      var done;
      res, done := ReadOn(data, env);
      ghost var due, prompts := old(Due(data, env)), old(Prompted(data, env));
      DealtIs(res, done, due, prompts, old(Answering()));
      ReportsIs(res, done, due);
      AnsweringFields();
      if res == UNCAUGHT {
        alive, plain := false, false;
        AnsweredIs(0, due, prompts, old(Answering()));
        return 0;
      }
      res := Conclude(res, done, old(mode) == Write, all, env.verdict, old(Answering()), due);
      AnsweringFields();
      AnsweredIs(res, due, prompts, old(Answering()));
    }

    /** The status `due` is reported, and nothing is on the wire but the 100 line for a head
        that prompts it; an exception has ended the connection otherwise. */
    ghost predicate Answered(res: int, due: int, prompts: bool, w: Wire)
      reads `alive, `response, `outBuffers, `mode, `responses, `overlaid
    {
      if alive then res == due && Answering() == if prompts then GoAhead(w) else w else due == UNCAUGHT
    }

    lemma AnsweredIs(res: int, due: int, prompts: bool, w: Wire)
      ensures Answered(res, due, prompts, w) <==>
              if alive then res == due && Answering() == if prompts then GoAhead(w) else w else due == UNCAUGHT
    {
    }

    // ----- events

    /** The mode once a response or a CGI is at work, or nothing will ever be. */
    lemma Writing()
      requires mode == Write && request != null && WireOk(sent, Answering()) && stuck == (response.None? && !cgi)
      requires cgi || response.None? ==> headerStatus == HeaderDone && bodyStatus != BodyOngoing
      requires cgi && !overlaid ==> response != Some(Response(100))
      ensures ModeOk()
    {
      hide Flatten;
    }

    /** Unfolds ModeOk. */
    lemma ModeFields()
      requires ModeOk()
      ensures WireOk(sent, Answering()) && (mode == Read ==> response.None? && outBuffers == [] && !stuck)
      ensures cgi && !overlaid ==> mode == Write && response != Some(Response(100))
      ensures mode == Write ==>
        request != null && (stuck ==> response.None? && !cgi) && (!stuck ==> response.Some? || cgi)
      ensures cgi || (mode == Write && response.None?) ==> headerStatus == HeaderDone && bodyStatus != BodyOngoing
    {
      hide Flatten;
    }

    /** The request that was answered still fits its status. */
    twostate lemma RequestKept()
      requires old(RequestOk()) && request == old(request) && request != null && headerStatus == old(headerStatus)
      requires bodyStatus == old(bodyStatus) && bodyStream == old(bodyStream)
      requires unchanged(request`status, request`headerSize, request`line, request`bodyMaxSize,
                 request`len, request`contentLength, request`chunked, request`bodyStatus, request`chunkedBodySize,
                 request`chunkedStatus, request`finalStatus, request`verb, request`kind, request`redirected,
                 request`decoded, request`got)
      requires old(request.error) > 0 ==> request.error > 0
      ensures RequestOk()
    {
      hide LineEnd, Body.Concat, Body.Framed;
    }

    /** The answer to the last request of the log is on its way. */
    twostate lemma AnswerGoes(pieces: seq<string>)
      requires old(ToAnswer()) && request == old(request) && request != null && request.headers == old(request.headers)
      requires headerStatus == old(headerStatus) && bodyStatus == old(bodyStatus)
      requires log == old(log) && received == old(received) && buffer == old(buffer) && mode == Write
      requires old(ModeOk())
      requires old(response).None? && !old(cgi) ==> cgi ==> response.None?
      requires old(response).None? ==>
        CloseTold() && overlaid == old(overlaid) &&
        responses == if response.Some? then old(responses) + [pieces] else old(responses)
      ensures PlainOk()
    {
      hide ParsedAs, Expects;
    }

    /** A response for the status, or the CGI that will make it. */
    method Respond(status: int, env: Env)
      requires request != null && status > 0
      modifies `response, `mode, `outBuffers, `responses, `overlaid, `cgi, `closes, request`error, request`connection,
        request`hasPath
      ensures if request.kind == R.Cgi && status == 200 && env.spawned
              then cgi && Answering() == Beside(old(Answering()))
              else (cgi ==> old(cgi)) && Answering() == Install(old(Answering()), request.error, env.pieces)
      ensures (old(response).None? ==> CloseTold()) && (old(request.error) > 0 ==> request.error > 0)
      ensures old(response).None? && !(request.kind == R.Cgi && status == 200 && env.spawned) ==>
        request.error == RespondedStatus(status, request.kind, old(request.hasPath), env)
    {
      hide *;
      Responded(status, request.kind, request.hasPath, env);
      AnsweringFields();
      InstallIs(Answering(), request.error, env.pieces);
      if request.kind != R.Cgi || status != 200 {
        var _ := GenerateResponse(status, env);
      } else {
        StartCgi(env);
      }
    }

    /** The status sent for a request that has got this one: a CGI makes the answer to a
        status 200 if it can be started. */
    static function RespondedStatus(status: int, kind: R.Kind, hasPath: bool, env: Env): int {
      if kind == R.Cgi && status == 200 then 500 else SentStatus(status, kind, hasPath, env.fails)
    }

    static lemma Responded(status: int, kind: R.Kind, hasPath: bool, env: Env)
      requires status > 0
      ensures RespondedStatus(status, kind, hasPath, env) ==
              (if kind == R.Cgi && status == 200 then 500 else SentStatus(status, kind, hasPath, env.fails)) > 0
      ensures RespondedStatus(status, kind, hasPath, env) == status ||
        (RespondedStatus(status, kind, hasPath, env) == 500 && (env.fails || (kind == R.Cgi && status == 200)))
    {
    }

    /** handleClientResponse: answers a status, through a CGI if the request asks for
        one. */
    method HandleClientResponse(status: int, env: Env)
      requires request != null && status > 0 && RequestOk() && ModeOk() && (mode == Read || response.Some?)
      requires status == 200 ==> headerStatus == HeaderDone && bodyStatus != BodyOngoing
      requires plain ==> ToAnswer()
      modifies `response, `mode, `outBuffers, `responses, `overlaid, `cgi, `closes, request`error, request`connection,
        request`hasPath
      ensures RequestOk() && ModeOk() && mode == Write && (plain ==> PlainOk())
      ensures old(response).Some? ==>
        response == old(response) && responses == old(responses) && outBuffers == old(outBuffers)
      ensures old(response).None? ==>
        if request.kind == R.Cgi && status == 200 && env.spawned
        then cgi && response.None? && responses == old(responses)
        else Answering() ==
             Install(old(Answering()), RespondedStatus(status, request.kind, old(request.hasPath), env), env.pieces)
      ensures old(response).None? ==> AnsweredWith(status, env, old(responses))
    {
      hide *;
      ModeFields();
      AnsweringFields();
      BesideIs(Answering());
      Respond(status, env);
      AnsweringFields();
      InstallIs(old(Answering()), request.error, env.pieces);
      WireGrows(sent, old(Answering()), request.error, env.pieces);
      Writing();
      RequestKept();
      if plain { AnswerGoes(env.pieces); }
      AnsweredWithIs(status, env, old(responses));
      Responded(status, request.kind, old(request.hasPath), env);
    }

    /** The request is answered with this status, or 500 if what the answer needs cannot be
        opened or no CGI can be started; or the CGI is at work that makes the answer. */
    ghost predicate AnsweredWith(status: int, env: Env, before: seq<seq<string>>)
      reads `request, `cgi, `response, `responses, request
    {
      request != null &&
      if request.kind == R.Cgi && status == 200 && env.spawned
      then cgi && response.None? && responses == before
      else
        && response.Some? && responses == before + [env.pieces]
        && (response.value.status == status ||
            (response.value.status == 500 && (env.fails || (request.kind == R.Cgi && status == 200))))
    }

    lemma AnsweredWithIs(status: int, env: Env, before: seq<seq<string>>)
      ensures AnsweredWith(status, env, before) <==>
              request != null &&
              if request.kind == R.Cgi && status == 200 && env.spawned
              then cgi && response.None? && responses == before
              else
                && response.Some? && responses == before + [env.pieces]
                && (response.value.status == status ||
                    (response.value.status == 500 && (env.fails || (request.kind == R.Cgi && status == 200))))
    {
    }

    /** On the plain path a request being answered gets at most one response. */
    twostate lemma StillAnswering(pieces: seq<string>)
      requires old(PlainOk()) && old(mode) == Write && mode == Write && overlaid == old(overlaid)
      requires request == old(request) && request != null && request.headers == old(request.headers)
      requires headerStatus == old(headerStatus) && bodyStatus == old(bodyStatus)
      requires log == old(log) && received == old(received) && buffer == old(buffer)
      requires (cgi ==> response.None?) && CloseTold()
      requires old(response).None? && responses == old(responses) + (if response.Some? then [pieces] else [])
      ensures PlainOk()
    {
      hide ParsedAs, Expects;
    }

    lemma PlainExpectsNothing()
      requires PlainOk() && mode == Write
      ensures request != null && !Expects(request.headers) && (cgi ==> response.None?) && CloseTold()
    {
      hide Feed, ParsedAs, ParserAt;
    }

    lemma Closing()
      requires request != null
      ensures CloseTold() <==> (response.Some? && request.connection == "close" ==> closes)
    {
    }

    lemma HeadServed()
      requires RequestOk() && headerStatus == HeaderDone
      ensures request != null && request.status == Term && (bodyStream.Some? ==> bodyStream.value == request.Written())
    {
    }

    /** The local redirect of handleCGIProcess: the request starts over under its new
        URI. */
    method Redirect(uri: string, env: Env)
      requires request != null && request.status == Term && EnvOk(env) && mode == Write && !cgi &&
        WireOk(sent, Answering())
      requires headerStatus == HeaderDone && request.redirected
      modifies `headerStatus, `bodyStatus, `bodyStream, `response, `outBuffers, `mode, `responses, `overlaid, `cgi,
        `closes, request`uri, request`error, request`line, request`finalStatus, request`contentLength, request`chunked,
        request`bodyMaxSize, request`kind, request`hasPath, request`headers, request`connection
      ensures headerStatus == HeaderDone && bodyStatus == old(bodyStatus) && bodyStream == old(bodyStream)
      ensures request.chunked == old(request.chunked)
      ensures (response.Some? || cgi) && CgiOver(old(Answering()), old(request.headers), env.pieces)
      ensures old(response).None? && !Expects(old(request.headers)) ==>
        Redirected(old(request.HeadState()).(uri := uri), env)
    {
      hide *;
      AnsweringFields();
      HeadFields();
      request.uri := uri;
      HeadFields();
      ghost var head := request.HeadState();
      GoesAhead(Answering());
      var code := HandleRequestHeaders(env);
      HeadAnsweredIs(code, old(Answering()), old(request.headers));
      AnsweringFields();
      WireGrows(sent, old(Answering()), 0, []);
      ghost var wire, verdict := Answering(), code;
      AnswerRedirect(code, env);
      AnsweringFields();
      BesideIs(wire);
      InstallIs(wire, request.error, env.pieces);
      WireGrows(sent, wire, request.error, env.pieces);
      Over(old(Answering()), old(request.headers), env.pieces);
      RedirectedIs(head, verdict, env);
    }

    /** The end of a local redirect: a response, or another CGI. */
    method AnswerRedirect(verdict: int, env: Env)
      requires request != null && !cgi
      modifies `response, `mode, `outBuffers, `responses, `closes, `cgi, `overlaid,
        request`error, request`connection, request`hasPath
      ensures if verdict == 0 && request.kind == R.Cgi && env.spawned then
                cgi && Answering() == Beside(old(Answering())) && response == old(response)
              else !cgi && Answering() == Install(old(Answering()), request.error, env.pieces)
      ensures old(response).None? ==> CloseTold()
      ensures old(response).None? && !(verdict == 0 && request.kind == R.Cgi && env.spawned) ==>
        if verdict == 0 && request.kind == R.Cgi then response == Some(Response(500))
        else SentAs(if verdict != 0 then verdict else old(request.error), env)
    {
      hide *;
      AnsweringFields();
      SentOrFailed(request.kind, request.hasPath, env);
      CgiAnsweredIs(env, FRESH);
      if verdict != 0 {
        var _ := GenerateResponse(verdict, env);
      } else if request.kind != R.Cgi {
        var _ := GenerateResponse(0, env);
      } else {
        StartCgi(env);
      }
      AnsweringFields();
      CgiAnsweredIs(env, FRESH);
      InstallIs(old(Answering()), request.error, env.pieces);
    }

    /** handleCGIProcess: a CGI that has ended is replaced by a response, or by the CGI
        that a local redirect leads to. Only a colon-less header line leaves the client
        with neither. */
    method HandleCgi(env: Env)
      requires request != null && cgi && mode == Write && RequestOk() && ModeOk() && EnvOk(env) && (plain ==> PlainOk())
      modifies `headerStatus, `bodyStatus, `bodyStream, `response, `outBuffers, `mode, `responses, `overlaid, `cgi,
        `stuck, `closes, request
      ensures mode == Write && RequestOk() && ModeOk() && (plain ==> PlainOk())
      ensures stuck <==> env.poll == Finished(Colonless) && old(response).None?
      ensures old(response).None? && !Expects(old(request.headers)) && !env.poll.Running? ==>
        CgiAnswered(env, old(request.HeadState()))
      ensures env.poll.Running? ==> cgi && Answering() == old(Answering())
      ensures cgi ==> env.poll.Running? || (env.poll.Finished? && env.poll.outcome.LocalRedirect?)
    {
      hide *;
      ModeFields();
      if env.poll.Running? { return; }
      AnsweringFields();
      HeadServed();
      if plain { PlainExpectsNothing(); }
      CgiEnded(env);
      Over(old(Answering()), old(request.headers), env.pieces);
      Writing();
      BodyOk();
      if plain { StillAnswering(env.pieces); }
    }

    lemma InstallIs(w: Wire, status: int, pieces: seq<string>)
      ensures Install(w, status, pieces) ==
              if w.response.Some? then w
              else Wire(Some(Response(status)), w.queue + pieces, Write, w.responses + [pieces], w.overlaid)
    {
    }

    lemma BesideIs(w: Wire)
      ensures Beside(w) == w.(mode := Write, overlaid := w.overlaid || w.response == Some(Response(100)))
    {
    }

    /** What has become of the wire `w` when a CGI has ended: at most one more answer. */
    ghost predicate CgiOver(w: Wire, headers: Headers, pieces: seq<string>)
      requires request != null
      reads this, request
    {
      && mode == Write && WireOk(sent, Answering()) && (w.response.Some? ==> response.Some?)
      && (cgi && !overlaid ==> response != Some(Response(100)))
      && (!Expects(headers) && w.response.None? ==>
            request.headers == headers && overlaid == w.overlaid && (cgi ==> response.None?) && CloseTold() &&
            responses == w.responses + (if response.Some? then [pieces] else []))
    }

    lemma Over(w: Wire, headers: Headers, pieces: seq<string>)
      requires request != null
      ensures CgiOver(w, headers, pieces) <==>
        && mode == Write && WireOk(sent, Answering()) && (w.response.Some? ==> response.Some?)
        && (cgi && !overlaid ==> response != Some(Response(100)))
        && (!Expects(headers) && w.response.None? ==>
              request.headers == headers && overlaid == w.overlaid && (cgi ==> response.None?) && CloseTold() &&
              responses == w.responses + (if response.Some? then [pieces] else []))
    {
      hide WireOk, Expects;
    }

    /** The CGI is gone, and a response takes its place. */
    method EndCgi(status: int, env: Env)
      requires request != null && mode == Write && WireOk(sent, Answering())
      modifies `response, `outBuffers, `mode, `responses, `cgi, `closes, request`error, request`connection,
        request`hasPath
      ensures !cgi && response.Some? && CgiOver(old(Answering()), old(request.headers), env.pieces)
      ensures old(response).None? ==>
        response == Some(Response(SentStatus(if status != 0 then status else old(request.error), request.kind,
                                             old(request.hasPath), env.fails)))
    {
      hide *;
      AnsweringFields();
      cgi := false;
      var _ := GenerateResponse(status, env);
      AnsweringFields();
      InstallIs(old(Answering()), request.error, env.pieces);
      WireGrows(sent, old(Answering()), request.error, env.pieces);
      Over(old(Answering()), old(request.headers), env.pieces);
    }

    /** How the CGI ended decides what comes next. */
    method CgiEnded(env: Env)
      requires request != null && request.status == Term && EnvOk(env) && cgi && mode == Write && !stuck &&
        WireOk(sent, Answering())
      requires headerStatus == HeaderDone && !env.poll.Running?
      modifies `headerStatus, `bodyStatus, `bodyStream, `response, `outBuffers, `mode, `responses, `overlaid, `cgi,
        `stuck, `closes, request
      ensures headerStatus == HeaderDone && bodyStatus == old(bodyStatus) && bodyStream == old(bodyStream)
      ensures request.status == Term && request.Written() == old(request.Written())
      ensures stuck == (response.None? && !cgi) && (stuck <==> env.poll == Finished(Colonless) && old(response).None?)
      ensures CgiOver(old(Answering()), old(request.headers), env.pieces)
      ensures old(response).None? && !Expects(old(request.headers)) ==> CgiAnswered(env, old(request.HeadState()))
      ensures cgi ==> env.poll.Finished? && env.poll.outcome.LocalRedirect?
    {
      hide *;
      AnsweringFields();
      HeadFields();
      NeverFails(request.kind);
      SentOrFailed(request.kind, request.hasPath, env);
      match env.poll {
        case Died =>
          EndCgi(503, env);
        case Finished(CgiError) =>
          request.redirected := true;
          EndCgi(503, env);
        case Finished(Document(status)) =>
          request.redirected := true;
          request.error := status;
          EndCgi(0, env);
        case Finished(LocalRedirect(uri)) =>
          request.redirected := true;
          cgi := false;
          HeadFields();
          AnsweringFields();
          Redirect(uri, env);
        case Finished(Colonless) =>
          request.redirected := false;
          request.error := 500;
          cgi := false;
          stuck := response.None?;
          Closing();
          AnsweringFields();
          Over(old(Answering()), old(request.headers), env.pieces);
      }
      CgiAnsweredIs(env, old(request.HeadState()));
    }

    static lemma SentOrFailed(kind: R.Kind, hasPath: bool, env: Env)
      ensures forall status ::
                SentStatus(status, kind, hasPath, env.fails) == status ||
                (SentStatus(status, kind, hasPath, env.fails) == 500 && env.fails)
    {
    }

    /** The response has this status, or 500 if what it needs cannot be opened. */
    ghost predicate SentAs(status: int, env: Env)
      reads `response
    {
      response.Some? && (response.value.status == status || (response.value.status == 500 && env.fails))
    }

    /** What a CGI that has ended is answered with: 503 if it failed, its own status, or what
        the request for its new URI gets. A redirect to what is no CGI gets the status 0. */
    ghost predicate CgiAnswered(env: Env, head: Head)
      reads `response, `cgi
    {
      match env.poll
      case Died => response == Some(Response(503))
      case Finished(CgiError) => response == Some(Response(503))
      case Finished(Document(status)) => SentAs(status, env)
      case Finished(LocalRedirect(uri)) => Redirected(head.(uri := uri), env)
      case _ => response.None?
    }

    lemma CgiAnsweredIs(env: Env, head: Head)
      ensures CgiAnswered(env, head) <==>
              match env.poll
              case Died => response == Some(Response(503))
              case Finished(CgiError) => response == Some(Response(503))
              case Finished(Document(status)) => SentAs(status, env)
              case Finished(LocalRedirect(uri)) => Redirected(head.(uri := uri), env)
              case _ => response.None?
      ensures forall status :: SentAs(status, env) <==>
                response.Some? && (response.value.status == status || (response.value.status == 500 && env.fails))
    {
      hide Redirected;
    }

    ghost predicate Redirected(head: Head, env: Env)
      reads `response, `cgi
    {
      var code := if CheckFields(head) != 0 then CheckFields(head) else env.verdict;
      if code != 0 then SentAs(code, env)
      else if env.kind != R.Cgi then SentAs(0, env)
      else if env.spawned then cgi && response.None?
      else response == Some(Response(500))
    }

    lemma RedirectedIs(head: Head, code: int, env: Env)
      ensures !Expects(head.headers) && (code == AgainVerdict(head, env.verdict, true) ||
                                         code == AgainVerdict(head, env.verdict, false)) ==>
              (Redirected(head, env) <==>
               if code != 0 then SentAs(code, env)
               else if env.kind != R.Cgi then SentAs(0, env)
               else if env.spawned then cgi && response.None?
               else response == Some(Response(500)))
      ensures forall status :: SentAs(status, env) <==>
                response.Some? && (response.value.status == status || (response.value.status == 500 && env.fails))
    {
      hide CheckFields, GetHeader;
      AsksExpects(head.headers);
    }

    /** The bytes received that belong to no request of the log. */
    ghost function Unparsed(): string
      reads `mode, `fed, `buffer
    {
      if mode == Read then fed else buffer
    }

    lemma Unfolds()
      ensures Valid() <==> RequestOk() && ModeOk() && (plain ==> PlainOk())
      ensures Unparsed() == if mode == Read then fed else buffer
    {
      hide RequestOk, ModeOk, PlainOk;
    }

    lemma Enters()
      ensures PlainOk() ==> PlainIn() && (mode == Read ==> fed + buffer == fed)
    {
      hide ParsedAs, ParserAt, Accepted;
    }

    /** handleClientIn, and the answer to a request that it completes or spoils. */
    method TakeIn(data: string, env: Env)
      requires alive && RequestOk() && ModeOk() && EnvOk(env) && (plain ==> PlainIn())
      requires mode == Read || bodyStatus != BodyOngoing
      modifies this, request
      ensures request != null && request != old(request) ==> fresh(request)
      ensures alive ==> Valid()
      ensures received == old(received) + data && stuck == old(stuck) && sent == old(sent)
      ensures old(plain) && env.verdict == 0 && (old(mode) == Write || Takes(old(fed + buffer) + data)) ==>
        alive && plain
      ensures old(Asking(data)) && env.verdict == 0 ==>
        AskedOnly(old(fed + (buffer + data)), old(responses), |old(log)|)
      ensures old(Steady()) ==> Outcome(old(Due(data, env)), old(Prompted(data, env)), env, old(Answering()))
    {
      hide *;
      Unfolds();
      ModeFields();
      AnsweringFields();
      DueIs(data, env);
      var res := HandleClientIn(data, env);
      AnsweringFields();
      AskedTold(old(fed + (buffer + data)), old(Answering()), |old(log)|);
      AnsweredIs(res, old(Due(data, env)), old(Prompted(data, env)), old(Answering()));
      GoAheadIs(old(Answering()));
      HeardIs(res);
      if res > 0 {
        HandleClientResponse(res, env);
      }
      Unfolds();
      OutcomeIs(old(Due(data, env)), old(Prompted(data, env)), env, old(Answering()));
    }

    /** What has come of the bytes that arrived: the status that is due is answered, unless
        there is none yet, or the 100 line has gone out instead. */
    ghost predicate Outcome(due: int, prompts: bool, env: Env, w: Wire)
      reads this, request
    {
      if !alive then due == UNCAUGHT
      else if prompts then response == Some(Response(100)) && responses == w.responses + [[CONTINUE_LINE]]
      else if due == 0 then Answering() == w
      else AnsweredWith(due, env, w.responses)
    }

    lemma OutcomeIs(due: int, prompts: bool, env: Env, w: Wire)
      ensures Outcome(due, prompts, env, w) <==>
              if !alive then due == UNCAUGHT
              else if prompts then response == Some(Response(100)) && responses == w.responses + [[CONTINUE_LINE]]
              else if due == 0 then Answering() == w
              else AnsweredWith(due, env, w.responses)
    {
      hide AnsweredWith;
    }

    /** The 100 line is the only response, and the request is logged if its whole body came
        with its head. */
    ghost predicate AskedOnly(all: string, before: seq<seq<string>>, logged: nat)
      reads `responses, `log
    {
      match AskingHead(site, all)
      case None => false
      case Some((head, rest)) =>
        responses == before + [[CONTINUE_LINE]] && |log| == logged + if WholeBody(head.headers, rest) then 1 else 0
    }

    lemma AskedTold(all: string, w: Wire, logged: nat)
      ensures AskedHeard(all, w, logged) ==> response.Some? && AskedOnly(all, w.responses, logged)
    {
      hide AskingHead, WholeBody;
    }

    /** EPOLLIN: one read, and the answer to a request it completes or spoils. */
    method OnInput(input: Input, env: Env)
      requires alive && Valid() && EnvOk(env) && (mode == Read || bodyStatus != BodyOngoing)
      modifies this, request
      ensures request != null && request != old(request) ==> fresh(request)
      ensures alive ==> Valid()
      ensures input.Eof? ==> !alive && log == old(log)
      ensures received == old(received) + (if input.Eof? then "" else input.data)
      ensures stuck == old(stuck) && sent == old(sent)
      ensures old(plain) && input.Bytes? && env.verdict == 0 && Takes(old(Unparsed()) + input.data) ==> alive && plain
      ensures input.Bytes? && env.verdict == 0 && old(Asking(input.data)) ==>
        AskedOnly(old(fed + (buffer + input.data)), old(responses), |old(log)|)
      ensures input.Bytes? && old(Steady()) ==>
        Outcome(old(Due(input.data, env)), old(Prompted(input.data, env)), env, old(Answering()))
    {
      hide *;
      Unfolds();
      Enters();
      match input {
        case Eof =>
          alive := false;
        case Bytes(data) =>
          TakeIn(data, env);
      }
    }

    /** clear: everything about the request that was answered goes. */
    method Clear()
      modifies `bodyStream, `cgi, `request, `response, `bodyStatus, `headerStatus, `overlaid, `fed
      ensures request == null && response.None? && !cgi && bodyStream.None? && bodyStatus == BodyNone &&
        headerStatus == HeaderOngoing
      ensures fed == "" && !overlaid
    {
      bodyStream := None;
      cgi := false;
      request := null;
      response := None;
      bodyStatus := BodyNone;
      headerStatus := HeaderOngoing;
      overlaid, fed := false, "";
    }

    /** A response has been sent whole and the connection stays open. */
    twostate lemma NextRequest()
      requires old(Valid()) && old(mode) == Write && old(response).Some? && mode == Read
      requires request == null && response.None? && !cgi && bodyStream.None? && bodyStatus == BodyNone &&
        headerStatus == HeaderOngoing
      requires fed == "" && !overlaid && !stuck && outBuffers == [] && responses == old(responses) && log == old(log)
      requires plain == old(plain) && received == old(received) && buffer == old(buffer) && WireOk(sent, Answering())
      ensures RequestOk() && ModeOk() && (plain ==> PlainIn())
    {
      hide ParsedAs, Flatten;
      FeedNothing(site);
      assert "" + buffer == buffer;
    }

    /** Writing a piece keeps the queue the unsent tail. */
    lemma PieceSent(before: seq<string>, w: Wire)
      requires WireOk(before, w) && w.queue != []
      ensures WireOk(before + [w.queue[0]], w.(queue := w.queue[1..]))
    {
      hide Flatten;
      assert before + [w.queue[0]] + w.queue[1..] == before + w.queue;
    }

    lemma QueueEmpty(before: seq<string>, w: Wire)
      requires WireOk(before, w) && w.queue == []
      ensures WireOk(before, w.(mode := Read, response := None)) &&
        WireOk(before, w.(mode := Read, response := None, overlaid := false))
    {
      hide Flatten;
    }

    /** A piece has been written, and more is to come. */
    twostate lemma Wrote()
      requires old(Valid()) && old(mode) == Write && old(response).Some? && request == old(request) && request != null
      requires headerStatus == old(headerStatus) && bodyStatus == old(bodyStatus) && bodyStream == old(bodyStream)
      requires unchanged(request) && WireOk(sent, Answering())
      requires unchanged(`mode, `response, `cgi, `stuck, `responses, `overlaid, `log, `received, `buffer, `plain,
        `closes)
      ensures Valid()
    {
      hide ParsedAs, Flatten, RequestOk, Expects, WireOk;
      RequestKept();
    }

    /** A 100 line has been sent, and the body is waited for. */
    twostate lemma Resumed()
      requires old(ModeOk()) && old(mode) == Write && old(response) == Some(Response(100)) && request == old(request) &&
        request != null
      requires mode == Read && response.None? && outBuffers == [] && cgi == old(cgi) && stuck == old(stuck)
      requires overlaid == old(overlaid) && !plain && WireOk(sent, Answering())
      requires headerStatus == old(headerStatus) && bodyStatus == old(bodyStatus)
      ensures ModeOk()
    {
      hide Flatten, RequestOk, PlainOk, WireOk;
    }

    /** The response is out and the connection stays open: what has come meanwhile is
        parsed as the next request. */
    method StartNext(env: Env)
      requires alive && Valid() && EnvOk(env) && mode == Write && response.Some? && outBuffers == []
      modifies this, request
      ensures request != null && request != old(request) ==> fresh(request)
      ensures alive ==> Valid()
      ensures received == old(received) && sent == old(sent) && stuck == old(stuck)
      ensures old(plain) && env.verdict == 0 && Takes(old(buffer)) ==> alive && plain
      ensures Outcome(Verdict(site, old(buffer), env), Prompts(site, old(buffer), env), env,
                      Wire(None, [], Read, old(responses), false))
    {
      hide *;
      Unfolds();
      ModeFields();
      AnsweringFields();
      QueueEmpty(sent, Answering());
      Clear();
      mode := Read;
      AnsweringFields();
      NextRequest();
      assert received + "" == received && buffer + "" == buffer && fed + buffer == buffer;
      DueIs("", env);
      SteadyAgain();
      TakeIn("", env);
    }

    /** A client without a request stands at the start of one. */
    lemma SteadyAgain()
      ensures request == null && fed == "" && mode == Read && headerStatus == HeaderOngoing ==> Steady()
    {
      hide Feed;
    }

    /** handleClientOut: writes one piece; an empty queue ends the response. */
    method HandleClientOut(writeFails: bool) returns (s: Situation)
      requires Valid() && mode == Write && response.Some?
      modifies `outBuffers, `sent, request`headers
      ensures RequestOk() && ModeOk() && request != null && (s != Continued ==> Valid())
      ensures if old(outBuffers) != [] && writeFails
              then s == Close && outBuffers == old(outBuffers) && sent == old(sent)
              else if old(outBuffers) == [] then outBuffers == [] && sent == old(sent)
              else outBuffers == old(outBuffers)[1..] && sent == old(sent) + [old(outBuffers)[0]]
      ensures s ==
        if outBuffers != [] then if writeFails then Close else StillWriting
        else if AsksFirst(old(request.headers)) && response == Some(Response(100)) then Continued
        else if request.connection == "close" then Close
        else KeepAlive
      ensures s == Continued ==>
        Expects(old(request.headers)) && request.headers == old(request.headers) - {Fold("expect")}
      ensures s != Continued ==> request.headers == old(request.headers)
    {
      hide Valid, RequestOk, ModeOk, PlainOk, WireOk, GetHeader;
      Unfolds();
      ModeFields();
      if |outBuffers| >= 1 {
        if writeFails { return Close; }
        PieceSent(sent, Answering());
        sent := sent + [outBuffers[0]];
        outBuffers := outBuffers[1..];
      }
      Wrote();
      Unfolds();
      if outBuffers == [] {
        if GetHeader(request.headers, "expect") == "100-continue" && response.value.status == 100 {
          request.headers := request.headers - {Fold("expect")};
          RequestKept();
          return Continued;
        } else if request.connection == "close" {
          return Close;
        } else {
          return KeepAlive;
        }
      }
      return StillWriting;
    }

    /** EPOLLOUT with a response: one write, and what follows a response that is out. */
    method WriteOut(writeFails: bool, env: Env) returns (s: Situation)
      requires alive && Valid() && EnvOk(env) && mode == Write && response.Some?
      modifies this, request
      ensures request != null && request != old(request) ==> fresh(request)
      ensures alive ==> Valid()
      ensures received == old(received) && |sent| <= |old(sent)| + 1 && stuck == old(stuck)
      ensures old(plain) && env.verdict == 0 && Takes(old(Unparsed())) ==>
        if alive then plain else log == old(log) && (writeFails || closes)
      ensures s == old(if |outBuffers| > 1 || (|outBuffers| == 1 && writeFails) then
                         if writeFails then Close else StillWriting
                       else if AsksFirst(request.headers) && response == Some(Response(100)) then Continued
                       else if request.connection == "close" then Close
                       else KeepAlive)
      ensures Proceeded(s, env, old(buffer), old(responses))
    {
      hide *;
      Unfolds();
      if plain { PlainExpectsNothing(); }
      s := HandleClientOut(writeFails);
      Closing();
      Proceed(s, env);
      ProceededIs(s, env, old(buffer), old(responses));
    }

    /** What the situation leads to: the next request is started, the body is waited for, or
        the connection ends. */
    ghost predicate Proceeded(s: Situation, env: Env, unread: string, before: seq<seq<string>>)
      reads this, request
    {
      match s
      case StillWriting => alive && mode == Write && response.Some? && responses == before
      case Close => !alive
      case KeepAlive =>
        Outcome(Verdict(site, unread, env), Prompts(site, unread, env), env, Wire(None, [], Read, before, false))
      case Continued => alive && mode == Read && response.None? && responses == before && buffer == unread
    }

    lemma ProceededIs(s: Situation, env: Env, unread: string, before: seq<seq<string>>)
      ensures Proceeded(s, env, unread, before) <==>
              match s
              case StillWriting => alive && mode == Write && response.Some? && responses == before
              case Close => !alive
              case KeepAlive =>
                Outcome(Verdict(site, unread, env), Prompts(site, unread, env), env,
                        Wire(None, [], Read, before, false))
              case Continued => alive && mode == Read && response.None? && responses == before && buffer == unread
    {
      hide Outcome, Verdict, Prompts;
    }

    method Proceed(s: Situation, env: Env)
      requires alive && EnvOk(env) && mode == Write && response.Some? && request != null
      requires s != Continued ==> Valid()
      requires s == Continued ==> RequestOk() && ModeOk() && response == Some(Response(100))
      requires s == Continued || s == KeepAlive ==> outBuffers == []
      modifies this, request
      ensures request != null && request != old(request) ==> fresh(request)
      ensures alive ==> Valid()
      ensures received == old(received) && sent == old(sent) && stuck == old(stuck)
      ensures s == StillWriting ==> plain == old(plain)
      ensures s == Close ==> log == old(log) && closes == old(closes)
      ensures s == KeepAlive && old(plain) && env.verdict == 0 && Takes(old(buffer)) ==> alive && plain
      ensures Proceeded(s, env, old(buffer), old(responses))
    {
      hide *;
      Unfolds();
      ModeFields();
      if s == KeepAlive {
        StartNext(env);
      } else if s == Continued {
        AnsweringFields();
        QueueEmpty(sent, Answering());
        plain := false;
        response := None;
        mode := Read;
        AnsweringFields();
        Resumed();
        Unfolds();
      } else if s == Close {
        alive := false;
      }
      ProceededIs(s, env, old(buffer), old(responses));
    }

    /** EPOLLOUT: the CGI first, then one write of the response. */
    method OnWritable(writeFails: bool, env: Env)
      requires alive && Valid() && EnvOk(env) && mode == Write
      modifies this, request
      ensures request != null && request != old(request) ==> fresh(request)
      ensures alive ==> Valid()
      ensures received == old(received) && |sent| <= |old(sent)| + 1
      ensures old(stuck) ==> sent == old(sent)
      ensures stuck <==> old(stuck) || (old(cgi) && old(response).None? && env.poll == Finished(Colonless))
      ensures old(plain) && env.verdict == 0 && Takes(old(Unparsed())) ==>
        if alive then plain else log == old(log) && (writeFails || closes)
    {
      hide *;
      Unfolds();
      ModeFields();
      if cgi {
        HandleCgi(env);
        Unfolds();
      }
      if response.Some? {
        var _ := WriteOut(writeFails, env);
      }
    }

    twostate lemma TimedOut()
      requires old(RequestOk()) && request == old(request) && request != null && headerStatus == old(headerStatus)
      requires bodyStatus == old(bodyStatus) && bodyStream == old(bodyStream)
      requires unchanged(request`status, request`headerSize, request`bodyMaxSize, request`len, request`contentLength,
                 request`chunked, request`bodyStatus, request`chunkedBodySize, request`chunkedStatus, request`verb,
                 request`kind, request`redirected, request`decoded, request`got)
      requires request.line == "" && request.finalStatus == R.ERROR && request.error > 0
      ensures RequestOk()
    {
      hide Body.Concat, Body.Framed;
      NoLineEnd();
    }

    /** checkTO on a client that has been silent for too long. */
    method OnTimeout(env: Env)
      requires alive && Valid() && mode == Read
      modifies `alive, `plain, `response, `mode, `outBuffers, `responses, `closes, request
      ensures alive ==> Valid() && mode == Write && response.Some?
      ensures alive <==> request != null
      ensures alive ==> responses == old(responses) + [env.pieces] && SentAs(408, env)
    {
      hide RequestOk, ModeOk, PlainOk, WireOk, Valid;
      Unfolds();
      ModeFields();
      plain := false;
      if request == null {
        alive := false;
        return;
      }
      mode := Write;
      var code := request.FillError(408);
      code := GenerateResponse(408, env);
      WireGrows(sent, old(Answering()), request.error, env.pieces);
      TimedOut();
      Writing();
      Unfolds();
    }

    /** What an event may do on the plain path: nobody falls silent, and the host refuses
        nothing. */
    static predicate Served(ev: Event) { ev.Poll? && ev.env.verdict == 0 }

    /** Nobody hangs up, and no write fails. */
    static predicate Undisturbed(ev: Event) { ev.Poll? ==> !ev.hup && ev.input != Some(Eof) && !ev.writeFails }

    /** The event lets a CGI end with a header line without a colon, and there is no
        response that would be sent instead. */
    ghost predicate Stalls(ev: Event)
      reads `mode, `cgi, `response, `bodyStatus
    {
      && ev.Poll? && !ev.hup && (ev.input.Some? ==> mode == Write && bodyStatus == BodyOngoing)
      && ev.writable && mode == Write && cgi && response.None? && ev.env.poll == Finished(Colonless)
    }

    static predicate EventOk(ev: Event) { EnvOk(ev.env) }

    /** Bytes are read, if the client reads at all. */
    static predicate Brings(ev: Event) { ev.Poll? && !ev.hup && ev.input.Some? && ev.input.value.Bytes? }

    /** handleClientEvent and checkTO: one step of the client; `read` are the bytes it
        takes from the socket. */
    method HandleEvent(ev: Event) returns (ghost read: string)
      requires alive && Valid() && EventOk(ev)
      modifies this, request
      ensures request != null && request != old(request) ==> fresh(request)
      ensures alive ==> Valid()
      ensures received == old(received) + read
      ensures ev.Poll? && ev.hup ==> !alive
      ensures old(stuck) ==> sent == old(sent)
      ensures stuck <==> old(stuck) || old(Stalls(ev))
      ensures old(plain) && Served(ev) && Takes(old(Unparsed()) + read) ==>
        if alive then plain else log == old(log) && (Undisturbed(ev) ==> closes)
      ensures old(Steady()) && Brings(ev) ==>
        Outcome(old(Due(ev.input.value.data, ev.env)), old(Prompted(ev.input.value.data, ev.env)), ev.env,
                old(Answering()))
      ensures ev.Timeout? && old(mode) == Read && alive ==> SentAs(408, ev.env)
    {
      hide Valid, EnvOk, Unparsed, Takes, GoAhead, Steady, Due, Prompted, Outcome, SentAs;
      DueIs("", ev.env);
      read := "";
      assert received + "" == received && Unparsed() + "" == Unparsed();
      match ev {
        case Timeout(env) =>
          if mode == Read { OnTimeout(env); }
        case Poll(hup, input, writable, writeFails, env) =>
          if hup {
            alive := false;
          } else if input.Some? && (mode == Read || bodyStatus != BodyOngoing) {
            OnInput(input.value, env);
            read := if input.value.Eof? then "" else input.value.data;
          } else if writable && mode == Write {
            OnWritable(writeFails, env);
          }
      }
    }

    /** As long as what has been received is a beginning of the script, the bytes that
        are parsed are neither refused nor too large. */
    lemma OnScript(script: seq<Request>, before: string, taken: seq<Message>, rest: string, read: string)
      requires AllWritable(site, script) && forall r :: r in script ==> r.verb < |METHODS|
      requires ParsedAs(site, before, taken, rest) && before + read <= ScriptText(script)
      ensures Takes(rest + read) && |taken| <= |script| && taken == MessagesOf(script[..|taken|])
    {
      hide *;
      var unseen := ScriptText(script)[|before + read|..];
      ParsedAsGrows(site, before, taken, rest, read);
      NoJunk();
      assert before + read + unseen == "" + ScriptText(script);
      LogFollows(site, script, "", before + read, taken, rest + read, unseen);
      WritableRest(site, script, |taken|);
      ScriptInLimits(site, script[|taken|..], LastTail("", script[..|taken|]), rest + read, unseen);
      TakesIs(rest + read);
    }

    /** When all of the script has come, the next request can be read. */
    lemma NextIsThere(script: seq<Request>, taken: seq<Message>, rest: string)
      requires AllWritable(site, script) && forall r :: r in script ==> r.verb < |METHODS|
      requires ParsedAs(site, ScriptText(script), taken, rest) && |taken| < |script|
      ensures Feed(site, START, rest).Ready?
    {
      hide *;
      NoJunk();
      assert ScriptText(script) + "" == "" + ScriptText(script) && rest + "" == rest;
      LogFollows(site, script, "", ScriptText(script), taken, rest, "");
      WritableRest(site, script, |taken|);
      NextIsReady(site, script[|taken|..], LastTail("", script[..|taken|]));
    }

    lemma NoJunk()
      ensures IsJunk("")
    {
    }

    lemma TakesIs(all: string)
      ensures Takes(all) == (!Feed(site, START, all).Broken? && !Trips(site, all))
    {
      hide Feed, Trips;
    }

    /** The client is in step with a script: the requests it has read are the first of
        the script, each has had its response before the next was read, and when it
        waits for input after the whole script, it has read all of it. */
    ghost predicate InStep(script: seq<Request>)
      requires forall r :: r in script ==> r.verb < |METHODS|
      reads this
    {
      && |log| <= |script| && log == MessagesOf(script[..|log|]) && !overlaid
      && |responses| == (if mode == Read || response.Some? then |log| else |log| - 1)
      && (mode == Read && received == ScriptText(script) ==> |log| == |script|)
    }

    /** What goes out: the pieces sent and queued are whole responses in order, the
        queue being what is left of one of them unless a 100 line got in the way; a
        client that reads owes nothing, one that writes has an answer or a CGI. */
    ghost predicate Delivers()
      reads this
    {
      && sent + outBuffers == Flatten(responses)
      && (mode == Read ==> response.None? && outBuffers == [])
      && (mode == Write && !stuck ==> response.Some? || cgi)
      && (outBuffers != [] && !overlaid ==> responses != [] && IsSuffix(outBuffers, responses[|responses| - 1]))
    }

    lemma ValidDelivers()
      requires Valid()
      ensures Delivers()
    {
      hide Flatten, RequestOk, PlainOk;
    }

    lemma PlainSteps(script: seq<Request>)
      requires PlainOk() && AllWritable(site, script) && forall r :: r in script ==> r.verb < |METHODS|
      requires received <= ScriptText(script)
      ensures InStep(script) && |log| <= |script| && log == MessagesOf(script[..|log|])
    {
      hide Feed, ParsedAs, Accepted, AllWritable, MessagesOf, ScriptText, Takes;
      assert received + "" == received;
      OnScript(script, received, log, Unparsed(), "");
      if mode == Read && received == ScriptText(script) {
        FeedNothing(site);
        if |log| < |script| { NextIsThere(script, log, fed); }
      }
    }

    /** On the plain path a client that reads always knows where it stands. */
    lemma PlainSteady()
      requires Valid() && plain && mode == Read
      ensures Steady()
    {
      hide Feed, ParsedAs, Accepted, HeaderSize, MaxSize, ModeOk;
    }

    lemma PlainParsed()
      requires PlainOk()
      ensures ParsedAs(site, received, log, Unparsed())
    {
      hide Feed, ParsedAs, Accepted, ParserAt;
    }

    /** Every run: what holds between two events, whatever the events were; and when the
        bytes received begin the text of a script of requests that the host accepts,
        the client is in step with it, however the bytes were cut and however reading
        and writing alternated. */
    method Run(events: seq<Event>, ghost script: seq<Request>)
      requires alive && Valid() && plain && received == "" && !stuck
      requires AllWritable(site, script) && forall r :: r in script ==> r.verb < |METHODS|
      requires forall e :: e in events ==> EventOk(e)
      modifies this, request
      ensures alive ==> Valid() && Delivers()
      ensures (forall e :: e in events ==> Served(e)) && received <= ScriptText(script) ==>
        && (alive ==> InStep(script)) && |log| <= |script| && log == MessagesOf(script[..|log|])
        && ((forall e :: e in events ==> Undisturbed(e)) && !closes ==> alive)
      ensures stuck ==> exists e :: e in events && e.env.poll == Finished(Colonless)
    {
      hide Valid, Delivers, AllWritable, ScriptText, InStep, MessagesOf, Takes, PlainOk, ParsedAs;
      var i := 0;
      while i < |events| && alive
        invariant 0 <= i <= |events|
        invariant request != null && request != old(request) ==> fresh(request)
        invariant alive ==> Valid()
        invariant (forall e :: e in events[..i] ==> Served(e)) && received <= ScriptText(script) ==>
          if alive then plain
          else
            && |log| <= |script| && log == MessagesOf(script[..|log|])
            && ((forall e :: e in events[..i] ==> Undisturbed(e)) ==> closes)
        invariant stuck ==> exists e :: e in events[..i] && e.env.poll == Finished(Colonless)
      {
        Unfolds();
        ghost var before, taken, rest, was := received, log, Unparsed(), plain;
        if plain { PlainParsed(); }
        ghost var read := HandleEvent(events[i]);
        if was && before + read <= ScriptText(script) { OnScript(script, before, taken, rest, read); }
        assert events[..i + 1] == events[..i] + [events[i]];
        i := i + 1;
      }
      if alive { ValidDelivers(); }
      if alive && (forall e :: e in events ==> Served(e)) && received <= ScriptText(script) {
        Unfolds();
        PlainSteps(script);
      }
    }
  }
}
