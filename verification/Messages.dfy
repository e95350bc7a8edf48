/** Whole requests as a function of the bytes of a connection: what the head decides
    about the body (srcs/IControl.cpp), and the stages through which parseRequest
    (srcs/Client.cpp) goes as bytes arrive. */
module Messages {
  import opened Text
  import opened Numbers
  import opened HeaderNames
  import opened HeadParsing
  import Paths
  import Body = BodyParsing

  // ----- decisions taken on the head

  /** The hosts of a listener, as far as a request sees them: the body limit of the
      host of each name, and of the host taken when the name is unknown. */
  datatype Site = Site(limits: map<string, int>, fallback: int)

  function MaxSize(site: Site, h: Headers): int {
    var name := GetHeader(h, "host");
    if name in site.limits then site.limits[name] else site.fallback
  }

  function PruneScheme(uri: string): Option<string> {
    match Find(uri, "://", 0)
    case None => Some(uri)
    case Some(n) => if uri[..n + 3] != "http://" then None else Some(uri[n + 3..])
  }

  function PruneDelim(uri: string, delim: string): string
    requires |delim| == 1
  {
    match Find(uri, delim, 0)
    case None => uri
    case Some(i) => if i + 1 != |uri| then uri[i + 1..] else uri
  }

  function ExtractPath(uri: string): string {
    match Find(uri, "?", 0)
    case None => uri
    case Some(i) => uri[..i]
  }

  /** parseURI succeeds: a known scheme, and a path that does not climb. */
  predicate UriAccepted(uri: string) {
    match PruneScheme(uri)
    case None => false
    case Some(u) =>
      var path := ExtractPath(PruneDelim(PruneDelim(u, "@"), "/"));
      Paths.Reduce([], Paths.Segments(Paths.Cleaned(path))).Reduced?
  }

  /** checkForbiddenHeaders: 0 or the status of the refusal. */
  function CheckForbidden(h: Headers): int {
    if GetHeader(h, "accept-ranges") != "" then 501
    else if CheckHeader(h, "content-encoding") && GetHeader(h, "content-encoding") != "identity" then 415
    else if CheckHeader(h, "transfer-encoding") && GetHeader(h, "transfer-encoding") != "chunked" then 501
    else 0
  }

  /** The number checkBodyLength takes from the header; getInt's failure is ignored. */
  function BodyLength(h: Headers): int {
    if !CheckHeader(h, "content-length") then -1
    else match ParseInt(GetHeader(h, "content-length"), 10)
      case Invalid => -1
      case OutOfRange(stored) => stored
      case Number(n) => n
  }

  predicate IsChunked(h: Headers) { GetHeader(h, "transfer-encoding") == "chunked" }

  /** checkBodyLength refuses the request. */
  predicate TooLong(site: Site, h: Headers) {
    CheckHeader(h, "content-length") && BodyLength(h) > MaxSize(site, h)
  }

  /** The checks of handleRequestHeaders that are made again after a redirect. */
  function CheckFields(head: Head): int {
    if !CheckHeader(head.headers, "host") then 400
    else if !UriAccepted(head.uri) then 400
    else CheckForbidden(head.headers)
  }

  /** The checks of handleRequestHeaders that depend on the head alone. */
  function CheckHead(site: Site, head: Head): int {
    if CheckFields(head) != 0 then CheckFields(head)
    else if TooLong(site, head.headers) then 413
    else 0
  }

  lemma ForbiddenIsStatus(h: Headers)
    ensures CheckForbidden(h) in {0, 415, 501}
  {
    hide GetHeader, CheckHeader;
  }

  predicate Expects(h: Headers) { GetHeader(h, "expect") != "" }

  datatype Framing = NoBody | Sized(n: nat) | Chunked

  function FramingOf(h: Headers): Framing {
    if IsChunked(h) then Chunked
    else if BodyLength(h) > 0 then Sized(BodyLength(h))
    else NoBody
  }

  /** The client waits for a 100 line before it sends the body, or should. */
  predicate AsksFirst(h: Headers) { GetHeader(h, "expect") == "100-continue" }

  lemma AsksExpects(h: Headers)
    ensures AsksFirst(h) ==> Expects(h)
  {
    hide GetHeader;
  }

  /** The status that refuses a head, or 0: the first check that fails, what the host says,
      and an Expect header that is not met. */
  function HeadVerdict(site: Site, head: Head, verdict: int): int {
    if CheckHead(site, head) != 0 then CheckHead(site, head)
    else if verdict != 0 then verdict
    else ExpectVerdict(head.headers, FramingOf(head.headers) == NoBody)
  }

  function ExpectVerdict(h: Headers, bodyless: bool): int {
    if AsksFirst(h) then if bodyless then 400 else 0
    else if Expects(h) then 417
    else 0
  }

  lemma VerdictIs(site: Site, head: Head, verdict: int)
    ensures var code := HeadVerdict(site, head, verdict);
            && (code == 0 ==> CheckHead(site, head) == 0 && verdict == 0)
            && (code == 0 && Expects(head.headers) <==>
                  CheckHead(site, head) == 0 && verdict == 0 && AsksFirst(head.headers) &&
                  FramingOf(head.headers) != NoBody)
            && (!Expects(head.headers) ==>
                  code == if CheckHead(site, head) != 0 then CheckHead(site, head) else verdict)
  {
    hide CheckHead, FramingOf, AsksFirst, Expects;
    AsksExpects(head.headers);
  }

  /** The bytes hold all of the body. */
  predicate WholeBody(h: Headers, bytes: string) {
    match FramingOf(h)
    case NoBody => true
    case Sized(n) => n <= |bytes|
    case Chunked => Body.RunChunks(Body.Size, bytes).Done?
  }

  /** The head that the bytes of a request begin with, and the bytes behind it, if the head
      is accepted, announces a body and asks for the 100 line. */
  function AskingHead(site: Site, bytes: string): Option<(Head, string)> {
    match RunHead(FRESH, bytes)
    case Done(head, rest) =>
      if CheckHead(site, head) == 0 && AsksFirst(head.headers) && FramingOf(head.headers) != NoBody
      then Some((head, rest)) else None
    case _ => None
  }

  // ----- stages

  datatype Message = Message(head: Head, body: string)

  datatype Stage =
    | InHead(head: Head, partial: string)
    | InSized(head: Head, length: nat, got: string)
    | InChunks(head: Head, want: Body.Want, partial: string, chunks: seq<string>)
    | Ready(message: Message, rest: string)
    | Broken

  const START: Stage := InHead(FRESH, "")

  predicate Waiting(s: Stage) {
    (s.InHead? && s.head.status != Term) || s.InSized? || s.InChunks?
  }

  /** The head is complete and `rest` is what follows it. A request with an Expect
      header leaves the plain path and is not followed further. */
  function StartBody(site: Site, head: Head, rest: string): Stage {
    if CheckHead(site, head) != 0 || Expects(head.headers) then Broken else BeginBody(head, rest)
  }

  function BeginBody(head: Head, rest: string): Stage {
    match FramingOf(head.headers)
    case NoBody => Ready(Message(head, ""), rest)
    case Sized(n) => FeedSized(head, n, rest)
    case Chunked => FeedChunks(head, [], Body.RunChunks(Body.Size, rest))
  }

  function FeedSized(head: Head, length: nat, data: string): Stage {
    if |data| >= length then Ready(Message(head, data[..length]), data[length..])
    else InSized(head, length, data)
  }

  function FeedChunks(head: Head, before: seq<string>, r: Body.ChunkRun): Stage {
    match r
    case More(want, partial, chunks, _) => InChunks(head, want, partial, before + chunks)
    case Done(rest, chunks, _) => Ready(Message(head, Body.Concat(before + chunks)), rest)
    case Failed(_, _, _) => Broken
  }

  function Feed(site: Site, s: Stage, bytes: string): Stage
    requires Waiting(s)
  {
    match s
    case InHead(head, partial) =>
      (match RunHead(head, partial + bytes)
       case More(h, p) => InHead(h, p)
       case Done(h, rest) => StartBody(site, h, rest)
       case Failed(_, _, _) => Broken)
    case _ => FeedBody(s, bytes)
  }

  /** Feeding a request whose head is complete. */
  function FeedBody(s: Stage, bytes: string): Stage {
    match s
    case InSized(head, length, got) => FeedSized(head, length, got + bytes)
    case InChunks(head, want, partial, chunks) =>
      FeedChunks(head, chunks, Body.RunChunks(want, partial + bytes))
    case _ => s
  }

  lemma FeedWaits(site: Site, s: Stage, bytes: string)
    requires Waiting(s)
    ensures var t := Feed(site, s, bytes); Waiting(t) || t.Ready? || t.Broken?
  {
    hide RunHead, CheckHead, Body.RunChunks, FramingOf;
  }

  /** Feeding on from the stage that earlier bytes led to. */
  function Continue(site: Site, s: Stage, b: string): Stage
    requires Waiting(s) || s.Ready? || s.Broken?
  {
    match s
    case Ready(m, rest) => Ready(m, rest + b)
    case Broken => Broken
    case _ => Feed(site, s, b)
  }

  lemma SizedResumes(site: Site, head: Head, length: nat, a: string, b: string)
    ensures FeedSized(head, length, a + b) == Continue(site, FeedSized(head, length, a), b)
  {
    hide RunHead, Body.RunChunks, StartBody, FeedChunks;
    if |a| >= length {
      assert (a + b)[..length] == a[..length] && (a + b)[length..] == a[length..] + b;
    }
  }

  lemma ChunksResume(site: Site, head: Head, before: seq<string>, want: Body.Want, a: string, b: string)
    ensures FeedChunks(head, before, Body.RunChunks(want, a + b)) ==
            Continue(site, FeedChunks(head, before, Body.RunChunks(want, a)), b)
  {
    hide RunHead, Body.RunChunks, StartBody, FeedSized, Body.Concat;
    Body.RunChunksResumes(want, a, b);
    var r := Body.RunChunks(want, a);
    if r.More? {
      var next := Body.RunChunks(r.want, r.partial + b);
      assert before + (r.chunks + next.chunks) == before + r.chunks + next.chunks;
    }
  }

  lemma BodyResumes(site: Site, head: Head, a: string, b: string)
    ensures Waiting(StartBody(site, head, a)) || StartBody(site, head, a).Ready? || StartBody(site, head, a).Broken?
    ensures StartBody(site, head, a + b) == Continue(site, StartBody(site, head, a), b)
  {
    hide Body.RunChunks, CheckHead, Expects, FeedSized, FeedChunks, Feed;
    if CheckHead(site, head) == 0 && !Expects(head.headers) {
      match FramingOf(head.headers)
      case NoBody =>
      case Sized(n) => SizedResumes(site, head, n, a, b); SizedWaits(head, n, a);
      case Chunked => ChunksResume(site, head, [], Body.Size, a, b); ChunksWait(head, [], Body.RunChunks(Body.Size, a));
    }
  }

  lemma SizedWaits(head: Head, n: nat, a: string)
    ensures var t := FeedSized(head, n, a); Waiting(t) || t.Ready?
  {
  }

  lemma ChunksWait(head: Head, before: seq<string>, r: Body.ChunkRun)
    ensures var t := FeedChunks(head, before, r); Waiting(t) || t.Ready? || t.Broken?
  {
  }

  /** Fragmentation is invisible: the bytes of a connection may be cut anywhere, in the
      head, between head and body or in the body, and lead to the same stage. */
  lemma FeedResumes(site: Site, s: Stage, a: string, b: string)
    requires Waiting(s)
    ensures Waiting(Feed(site, s, a)) || Feed(site, s, a).Ready? || Feed(site, s, a).Broken?
    ensures Feed(site, s, a + b) == Continue(site, Feed(site, s, a), b)
  {
    hide RunHead, Body.RunChunks, StartBody, FeedSized, FeedChunks;
    FeedWaits(site, s, a);
    match s
    case InHead(head, partial) =>
      assert partial + (a + b) == (partial + a) + b;
      RunHeadResumes(head, partial + a, b);
      var r := RunHead(head, partial + a);
      if r.Done? { BodyResumes(site, r.head, r.rest, b); }
    case InSized(head, length, got) =>
      assert got + (a + b) == (got + a) + b;
      SizedResumes(site, head, length, got + a, b);
    case InChunks(head, want, partial, chunks) =>
      assert partial + (a + b) == (partial + a) + b;
      ChunksResume(site, head, chunks, want, partial + a, b);
  }

  /** A request that is read whole passed the checks on its head and expects nothing. */
  lemma ReadyHead(site: Site, bytes: string)
    requires Feed(site, START, bytes).Ready?
    ensures var h := Feed(site, START, bytes).message.head; CheckHead(site, h) == 0 && !Expects(h.headers)
  {
    hide RunHead, Body.RunChunks, CheckHead, Expects, FramingOf, Body.Concat;
  }

  // ----- a connection as a list of requests

  /** The stream starts with the messages of `log`; `rest` is what is left. */
  predicate ParsedAs(site: Site, stream: string, log: seq<Message>, rest: string)
    decreases |log|
  {
    if log == [] then rest == stream
    else
      var s := Feed(site, START, stream);
      s.Ready? && s.message == log[0] && ParsedAs(site, s.rest, log[1..], rest)
  }

  lemma {:induction false} ParsedAsGrows(site: Site, stream: string, log: seq<Message>, rest: string, b: string)
    requires ParsedAs(site, stream, log, rest)
    ensures ParsedAs(site, stream + b, log, rest + b)
    decreases |log|
  {
    hide Feed;
    if log != [] {
      FeedResumes(site, START, stream, b);
      ParsedAsGrows(site, Feed(site, START, stream).rest, log[1..], rest, b);
    }
  }

  lemma {:induction false} ParsedAsSnoc(site: Site, stream: string, log: seq<Message>, rest: string)
    requires ParsedAs(site, stream, log, rest) && Feed(site, START, rest).Ready?
    ensures var s := Feed(site, START, rest); ParsedAs(site, stream, log + [s.message], s.rest)
    decreases |log|
  {
    hide Feed;
    var s := Feed(site, START, rest);
    if log == [] {
      assert (log + [s.message])[1..] == [];
    } else {
      ParsedAsSnoc(site, Feed(site, START, stream).rest, log[1..], rest);
      assert (log + [s.message])[1..] == log[1..] + [s.message];
    }
  }

  /** The requests of a stream are determined by the stream: of two lists read from
      it, one continues the other, and equally long ones leave the same rest. */
  lemma {:induction false} ParsedAsUnique(site: Site, stream: string, log: seq<Message>, rest: string,
      other: seq<Message>, rest': string)
    requires ParsedAs(site, stream, log, rest) && ParsedAs(site, stream, other, rest') && |log| <= |other|
    ensures log <= other && (|log| == |other| ==> rest == rest')
    decreases |log|
  {
    hide Feed, ParsedAs;
    ParsedAsStep(site, stream, log, rest);
    ParsedAsStep(site, stream, other, rest');
    if log != [] {
      ParsedAsUnique(site, Feed(site, START, stream).rest, log[1..], rest, other[1..], rest');
      assert log == [log[0]] + log[1..] && other == [other[0]] + other[1..];
    }
  }

  lemma ParsedAsStep(site: Site, stream: string, log: seq<Message>, rest: string)
    requires ParsedAs(site, stream, log, rest)
    ensures log == [] ==> rest == stream
    ensures log != [] ==>
      var s := Feed(site, START, stream);
      s.Ready? && s.message == log[0] && ParsedAs(site, s.rest, log[1..], rest)
  {
    hide Feed;
  }

  // ----- size checks

  /** The head part of _checkSizes: only a request that is new or in its header lines
      can be too large. */
  predicate HeadTooLarge(status: Status, headerSize: int, line: string) {
    (status == Ongoing || status == New) &&
    (headerSize > HEADER_MAX_BUFFER * BUFFER_SIZE || |line| > BUFFER_SIZE)
  }

  /** What `_header_size` counts of the bytes fed to a request: junk in front of the
      request line is forgotten once the line starts. */
  function HeaderSize(status: Status, fed: string): nat {
    if status == New then |fed| else |SkipJunk(fed)|
  }

  predicate ChunksTooLarge(want: Body.Want, partial: string, chunks: seq<string>, limit: int) {
    ChunksRefusal(want, partial, chunks, limit) != 0
  }

  /** The status for a size line that does not end, or for more than the host allows. */
  function ChunksRefusal(want: Body.Want, partial: string, chunks: seq<string>, limit: int): (code: int)
    ensures code == 0 || code >= 400
  {
    if want.Size? && |partial| > 4000 then 400
    else if Body.Framed(chunks) + |partial| > limit then 413
    else 0
  }

  /** A call that fed a request up to here and left it incomplete reports that it is
      too large. This alone depends on where the bytes were cut. */
  predicate Trips(site: Site, fed: string) {
    match Feed(site, START, fed)
    case InHead(h, partial) => HeadTooLarge(h.status, HeaderSize(h.status, fed), partial)
    case InChunks(h, want, partial, chunks) => ChunksTooLarge(want, partial, chunks, MaxSize(site, h.headers))
    case _ => false
  }

  // ----- one more fragment

  /** All the bytes of a request lead where this run does; `size` of them count as head
      if it is still incomplete. */
  predicate LeadsTo(site: Site, all: string, run: HeadRun, size: int) {
    match run
    case More(h, partial) => Feed(site, START, all) == InHead(h, partial) && HeaderSize(h.status, all) == size
    case Done(h, rest) => Feed(site, START, all) == StartBody(site, h, rest)
    case Failed(_, _, _) => Feed(site, START, all) == Broken
  }

  /** In the head: the run goes on from the kept line, and the count of head bytes is
      brought up to date as parseHeaders does it. */
  lemma StepInHead(site: Site, fed: string, h: Head, line: string, bytes: string)
    requires h.status != Term && Feed(site, START, fed) == InHead(h, line)
    ensures var size := if h.status == New && SkipJunk(bytes) != "" then |SkipJunk(bytes)|
                        else HeaderSize(h.status, fed) + |bytes|;
            LeadsTo(site, fed + bytes, RunHead(h, line + bytes), size)
  {
    hide RunHead, StartBody, SkipJunk;
    FeedResumes(site, START, fed, bytes);
    if RunHead(h, line + bytes).More? {
      JunkWhileNew(site, fed, bytes);
    }
  }

  /** The run over all the bytes of a head, seen from where the parser stands in it. */
  lemma RunFromHere(site: Site, fed: string, h: Head, line: string, bytes: string)
    requires h.status != Term && Feed(site, START, fed) == InHead(h, line)
    ensures RunHead(FRESH, fed + bytes) == RunHead(h, line + bytes)
  {
    hide RunHead, StartBody;
    assert "" + fed == fed;
    StartBodyLeaves(site, RunHead(FRESH, fed));
    RunHeadResumes(FRESH, fed, bytes);
  }

  /** A request is new exactly as long as only junk has come. */
  lemma NewWhileJunk(site: Site, fed: string)
    requires Feed(site, START, fed).InHead?
    ensures Feed(site, START, fed).head.status == New <==> SkipJunk(fed) == ""
  {
    hide RunHead, StartBody, SkipJunk;
    assert "" + fed == fed;
    RunNew(FRESH, fed);
    StartBodyLeaves(site, RunHead(FRESH, fed));
    NotNewAgain(FRESH.(status := RLine), SkipJunk(fed));
  }

  lemma StartBodyLeaves(site: Site, r: HeadRun)
    ensures r.Done? ==> !StartBody(site, r.head, r.rest).InHead?
  {
    hide CheckHead, FramingOf, Body.RunChunks, Body.Concat;
  }

  lemma {:induction false} NotNewAgain(h: Head, data: string)
    requires h.status == RLine || h.status == Ongoing
    ensures RunHead(h, data).More? ==> RunHead(h, data).head.status != New
    decreases |data|
  {
    hide RunHead, LineEnd, LineEffectOf;
    RunLine(h, data);
    if LineEnd(data).Some? {
      var e := LineEffectOf(h, data[..LineEnd(data).value]);
      if e.Next? { NotNewAgain(e.head, data[LineEnd(data).value + 2..]); }
    }
  }

  lemma JunkWhileNew(site: Site, fed: string, bytes: string)
    requires Feed(site, START, fed).InHead? && Feed(site, START, fed + bytes).InHead?
    ensures var old_, new_ := Feed(site, START, fed).head.status, Feed(site, START, fed + bytes).head.status;
            HeaderSize(new_, fed + bytes) ==
            if old_ == New && SkipJunk(bytes) != "" then |SkipJunk(bytes)| else HeaderSize(old_, fed) + |bytes|
  {
    hide Feed, SkipJunk;
    NewWhileJunk(site, fed);
    NewWhileJunk(site, fed + bytes);
    SkipJunkAppend(fed, bytes);
  }

  /** In the body. */
  lemma StepInBody(site: Site, fed: string, bytes: string)
    requires Feed(site, START, fed).InSized? || Feed(site, START, fed).InChunks?
    ensures Feed(site, START, fed + bytes) == FeedBody(Feed(site, START, fed), bytes)
  {
    hide RunHead, StartBody, FeedSized, FeedChunks;
    FeedResumes(site, START, fed, bytes);
  }

  lemma FeedNothing(site: Site)
    ensures Feed(site, START, "") == START && SkipJunk("") == ""
  {
    assert "" + "" == "";
  }
}
