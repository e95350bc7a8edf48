/** The Request object: the resumable head and body parsers (srcs/Request.cpp). */
module Requests {
  import opened Text
  import opened Numbers
  import opened HeaderNames
  import opened HeadParsing
  import opened Messages
  import Body = BodyParsing

  const HOST := 1
  const TRAILER := 3
  const COMPLETE := 5
  const ERROR := 6

  /** The kind of resource a request was matched to. */
  datatype Kind = NoMatch | Cgi | Static | Dir

  class Request {
    var headers: Headers
    var uri: string
    var status: Status
    var headerSize: int
    var line: string
    var bodyMaxSize: int
    var len: int
    var contentLength: int
    var chunked: bool
    var bodyStatus: Status
    var chunkedBodySize: int
    var chunkedStatus: bool
    var finalStatus: int
    var verb: int
    var kind: Kind
    /** resHints.status, whether resHints.path is set, and its connection header */
    var error: int
    var hasPath: bool
    var connection: string
    /** resHints.cgiRedir: a CGI has already answered for this request */
    var redirected: bool
    /** The chunks decoded so far, and the bytes of a measured body so far. */
    ghost var decoded: seq<string>
    ghost var got: string

    constructor ()
      ensures HeadState() == FRESH && headerSize == 0 && line == "" && bodyMaxSize == 0 && len == 0
      ensures contentLength == -1 && !chunked && bodyStatus == New && chunkedBodySize == 0 && !chunkedStatus
      ensures finalStatus == HOST && kind == NoMatch && error == 0 && !hasPath && connection == "" && decoded == [] &&
        got == "" && !redirected
    {
      headers, uri, status, headerSize, line := map[], "", New, 0, "";
      bodyMaxSize, len, contentLength, chunked := 0, 0, -1, false;
      bodyStatus, chunkedBodySize, chunkedStatus := New, 0, false;
      finalStatus, verb, kind, error, hasPath, connection := HOST, -1, NoMatch, 0, false, "";
      decoded, got, redirected := [], "", false;
    }

    ghost function HeadState(): Head
      reads this
    {
      Head(status, verb, uri, headers)
    }

    /** Between two calls the kept line holds no whole line. */
    ghost predicate LineKept()
      reads this
    {
      LineEnd(line).None? && (status == New ==> line == "")
    }

    method FillError(code: int) returns (r: int)
      modifies `error, `line, `finalStatus
      ensures r == code && error == code && line == "" && finalStatus == ERROR
    {
      error := code;
      line := "";
      finalStatus := ERROR;
      return code;
    }

    /** getLine: the kept line and the buffer are one text; its first line moves into
        `line`, or all of it does and the code is 1. */
    method GetLine(buffer: string) returns (code: int, rest: string)
      modifies `line
      ensures match LineEnd(old(line) + buffer)
              case None => code == 1 && line == old(line) + buffer && rest == ""
              case Some(i) =>
                code == 0 && i + 2 <= |old(line) + buffer| && line == (old(line) + buffer)[..i] &&
                rest == (old(line) + buffer)[i + 2..]
    {
      hide OccursAt;
      rest := line + buffer;
      LineEndBound(rest);
      var idx := Find(rest, CRLF, 0);
      if idx.None? {
        line := rest;
        rest := "";
        return 1, rest;
      }
      line := rest[..idx.value];
      rest := rest[idx.value + 2..];
      return 0, rest;
    }

    method CheckSizes() returns (code: int)
      modifies `error, `line, `finalStatus
      ensures var large := if status == Ongoing || status == New then headerSize > 16000 || |old(line)| > 4000
                           else status == Term && bodyStatus == Ongoing && chunked && chunkedBodySize > bodyMaxSize;
              if large then
                code == (if status == Term then 413 else 431) && error == code && line == "" && finalStatus == ERROR
              else (code == 0 && error == old(error) && line == old(line) && finalStatus == old(finalStatus))
    {
      if status == Ongoing || status == New {
        if headerSize > HEADER_MAX_BUFFER * BUFFER_SIZE || |line| > BUFFER_SIZE {
          code := FillError(431);
          return;
        }
        return 0;
      }
      if status == Term && bodyStatus == Ongoing {
        if chunked && chunkedBodySize > bodyMaxSize {
          code := FillError(413);
          return;
        }
        return 0;
      }
      return 0;
    }

    /** Reads the request line in `line`; leaves by an exception when nothing follows
        the URI. */
    method ParseRequestLine() returns (code: int)
      modifies `verb, `uri, `error, `line, `finalStatus
      ensures HeadState() == ApplyLine(old(HeadState()), old(line)).0
      ensures code == ApplyLine(old(HeadState()), old(line)).1
      ensures code > 0 ==> error == code && line == "" && finalStatus == ERROR
      ensures code <= 0 ==> error == old(error) && line == old(line) && finalStatus == old(finalStatus)
    {
      hide MethodIndex, NextBlank, SkipBlanks, VersionAccepted;
      var idx := NextBlank(line, 0);
      verb := MethodIndex(line[..idx]);
      if verb < 0 {
        code := FillError(501);
        return;
      }
      idx := SkipBlanks(line, idx);
      var r := NextBlank(line, idx);
      uri := line[idx..r];
      if r + 1 > |line| { return UNCAUGHT; }
      if !VersionAccepted(line[r + 1..]) {
        code := FillError(505);
        return;
      }
      return 0;
    }

    /** Where a run over the bytes of the head leaves the request. */
    ghost predicate HeadLeft(run: HeadRun, code: int, rest: string)
      reads this
    {
      match run
      case More(h, partial) =>
        HeadState() == h && rest == "" &&
        (if HeadTooLarge(h.status, headerSize, partial) then code == 431 else code == 0 && line == partial)
      case Done(h, left) => code == -1 && HeadState() == h && rest == left && line == "" && finalStatus == HOST
      case Failed(h, c, left) => code == c && HeadState() == h && rest == left
    }

    /** What parseHeaders promises for a run over the bytes it was given. */
    twostate predicate HeadParsed(run: HeadRun, code: int, rest: string)
      reads this
    {
      && HeadLeft(run, code, rest)
      && (code > 0 ==> error == code && line == "" && finalStatus == ERROR)
      && (code in {0, -1} && !run.Failed? ==> error == old(error))
      && (code == 0 && !run.Failed? ==> finalStatus == old(finalStatus))
    }

    /** parseHeaders: resumes where the last call stopped. -1 reports the blank line;
        the size checks are made when a call leaves the head incomplete. A head that is
        finished takes no bytes. */
    method ParseHeaders(buffer: string) returns (code: int, rest: string)
      requires status != Term ==> LineKept()
      modifies `headers, `uri, `status, `headerSize, `line, `verb, `error, `finalStatus
      ensures old(status) == Term ==> code == 0 && rest == buffer && unchanged(this)
      ensures old(status) != Term ==>
        headerSize ==
        (if old(status) == New && SkipJunk(buffer) != "" then |SkipJunk(buffer)| else old(headerSize) + |buffer|)
      ensures old(status) != Term ==> HeadParsed(RunHead(old(HeadState()), old(line) + buffer), code, rest)
      ensures old(status) != Term ==> HeadLeft(RunHead(old(HeadState()), old(line) + buffer), code, rest)
      ensures code in {UNCAUGHT, -1, 0} || (code >= 400 && line == "")
      ensures old(status) != Term ==> (code == -1 <==> status == Term) && (code == 0 ==> LineKept())
      ensures code == -1 ==> line == "" && finalStatus == HOST
    {
      hide RunHead, ApplyLine, ParseField, LineEnd, AddHeader, SkipJunk;
      if status == Term { return 0, buffer; }
      RunHeadCodes(HeadState(), line + buffer);
      rest := buffer;
      headerSize := headerSize + |rest|;
      if status == New {
        RunNew(HeadState(), line + buffer);
        assert line + buffer == buffer;
        while rest != "" && !IsAlpha(rest[0])
          invariant SkipJunk(rest) == SkipJunk(buffer)
          decreases |rest|
          modifies {}
        {
          SkipJunkStep(rest);
          rest := rest[1..];
        }
        SkipJunkStep(rest);
        if rest == "" {
          code := CheckSizes();
          return;
        }
        status := RLine;
        headerSize := |rest|;
        assert line + rest == rest;
        NoLineEnd();
      }
      if status == RLine {
        var go;
        go, code, rest := ParseFirstLine(rest);
        if !go { return; }
        NoLineEnd();
        assert line + rest == rest;
      }
      code, rest := ParseFields(rest);
    }

    /** The request line, once it is whole; `go` tells that it was accepted. */
    method ParseFirstLine(buffer: string) returns (go: bool, code: int, rest: string)
      requires status == RLine && LineEnd(line).None?
      modifies `uri, `status, `line, `verb, `error, `finalStatus
      ensures var run := RunHead(old(HeadState()), old(line) + buffer);
              if go
              then status == Ongoing && line == "" && run == RunHead(HeadState(), rest) && headerSize == old(headerSize)
                   && error == old(error) && finalStatus == old(finalStatus)
              else HeadParsed(run, code, rest)
    {
      hide RunHead, ApplyLine, ParseField, LineEnd, AddHeader;
      RunLine(HeadState(), line + buffer);
      code, rest := GetLine(buffer);
      if code != 0 {
        code := CheckSizes();
        return false, code, rest;
      }
      if |line| > BUFFER_SIZE {
        code := FillError(414);
        return false, code, rest;
      }
      code := ParseRequestLine();
      if code != 0 { return false, code, rest; }
      line := "";
      status := Ongoing;
      return true, 0, rest;
    }

    /** The loop of parseHeaders over the header lines. */
    method ParseFields(buffer: string) returns (code: int, rest: string)
      requires status == Ongoing && LineEnd(line).None?
      modifies `headers, `status, `line, `error, `finalStatus
      ensures HeadParsed(RunHead(old(HeadState()), old(line) + buffer), code, rest)
    {
      hide RunHead, ParseField, LineEnd, AddHeader;
      rest := buffer;
      while rest != ""
        invariant status == Ongoing && LineEnd(line).None? && error == old(error) && finalStatus == old(finalStatus)
        invariant RunHead(HeadState(), line + rest) == RunHead(old(HeadState()), old(line) + buffer)
        decreases |line| + |rest|
      {
        RunLine(HeadState(), line + rest);
        code, rest := GetLine(rest);
        if code != 0 {
          code := CheckSizes();
          return;
        }
        if line == "" {
          status := Term;
          finalStatus := HOST;
          return -1, rest;
        }
        var field := ParseField(line);
        if field.Refused? {
          code := FillError(field.code);
          return;
        }
        headers := AddHeader(headers, field.name, field.value);
        line := "";
        NoLineEnd();
        assert line + rest == rest;
      }
      assert line + rest == line;
      RunLine(HeadState(), line);
      code := CheckSizes();
    }

    // ----- bodies

    /** What the next line of a chunked body is. */
    ghost function Wanted(): Body.Want
      reads this
    {
      if chunkedStatus && len >= 0 then Body.Data(len) else Body.Size
    }

    /** A chunked body is being read: `_chunked_body_size` is what the decoded chunks
        weigh plus the kept partial line. */
    ghost predicate ChunksKept()
      reads this
    {
      && LineEnd(line).None?
      && (chunkedStatus ==> len > 0)
      && chunkedBodySize == Body.Framed(decoded) + |line|
      && NoneEmpty(decoded)
    }

    /** getBodySize */
    function BodySize(): int
      reads `chunked, `chunkedBodySize, `contentLength
    {
      if chunked then chunkedBodySize else contentLength
    }

    /** getChunkedSize: 0, or the error that was filled in. */
    method GetChunkedSize(buffer: string) returns (code: int, rest: string)
      requires chunkedStatus ==> len > 0
      modifies `line, `error, `finalStatus, `chunkedBodySize, `len, `chunkedStatus
      ensures old(chunkedStatus) ==>
        code == 0 && rest == buffer && line == old(line) && error == old(error) && finalStatus == old(finalStatus) &&
        chunkedBodySize == old(chunkedBodySize) && len == old(len) && chunkedStatus
      ensures !old(chunkedStatus) && LineEnd(old(line) + buffer).None? ==>
        rest == "" && chunkedBodySize == old(chunkedBodySize) && len == old(len) && !chunkedStatus &&
        (if |old(line) + buffer| > BUFFER_SIZE then code == 400 && error == 400 && line == "" && finalStatus == ERROR
         else code == 0 && line == old(line) + buffer && error == old(error) && finalStatus == old(finalStatus))
      ensures !old(chunkedStatus) && LineEnd(old(line) + buffer).Some? ==>
        var data := old(line) + buffer;
        var i := LineEnd(data).value;
        i + 2 <= |data| && rest == data[i + 2..] && line == "" &&
        match Body.ParseSize(data[..i])
        case Bad =>
          && code == 400 && error == 400 && finalStatus == ERROR
          && chunkedBodySize == old(chunkedBodySize) && !chunkedStatus
        case Length(n) =>
          code == 0 && len == n && chunkedStatus && error == old(error) && finalStatus == old(finalStatus) &&
          chunkedBodySize == old(chunkedBodySize) - (i + 2)
    {
      hide LineEnd, ParseInt, Narrow;
      rest := buffer;
      if chunkedStatus { return 0, rest; }
      code, rest := GetLine(rest);
      if code != 0 {
        if |line| > BUFFER_SIZE {
          code := FillError(400);
        } else {
          code := 0;
        }
        return;
      }
      var n;
      code, n := GetInt(line, 16, 0);
      if code != 0 || n < 0 {
        code := FillError(400);
        return;
      }
      chunkedBodySize := chunkedBodySize - (|line| + 2);
      len := n;
      line := "";
      chunkedStatus := true;
    }

    /** How _parseChunked leaves the request when a run ends. */
    twostate predicate ChunksEnded(run: Body.ChunkRun, code: int, rest: string)
      reads this
    {
      match run
      case More(want, partial, _, _) =>
        rest == "" && Wanted() == want && (chunkedStatus ==> len > 0) && bodyStatus == old(bodyStatus) &&
        (if want.Size? && |partial| > BUFFER_SIZE then code == 400 && error == 400 && line == "" && finalStatus == ERROR
         else if chunkedBodySize > bodyMaxSize then code == 413 && error == 413 && line == "" && finalStatus == ERROR
         else code == 0 && line == partial && error == old(error) && finalStatus == old(finalStatus))
      case Done(left, _, _) =>
        code == -1 && rest == left && line == "" && bodyStatus == Term && finalStatus == TRAILER && error == old(error)
      case Failed(left, _, _) =>
        code == 400 && rest == left && error == 400 && line == "" && finalStatus == ERROR &&
        bodyStatus == old(bodyStatus)
    }

    /** One turn of the loop of _parseChunked: a size line, unless it was read before,
        and the chunk it announces. `go` tells that the chunk was read whole. */
    method ReadChunk(buffer: string) returns (go: bool, code: int, rest: string, chunk: string, ghost sizes: nat)
      requires status == Term && bodyStatus == Ongoing && chunked && (chunkedStatus ==> len > 0)
      modifies `line, `error, `finalStatus, `chunkedBodySize, `len, `chunkedStatus, `bodyStatus
      ensures var run := Body.RunChunks(old(Wanted()), old(line) + buffer);
              && chunkedBodySize == old(chunkedBodySize) - (if go then sizes else run.sizeBytes)
              && (go ==>
                   && run == Joined(sizes, [chunk], Body.RunChunks(Body.Size, rest))
                   && |old(line) + buffer| == sizes + |chunk| + 2 + |rest|
                   && line == "" && !chunkedStatus && bodyStatus == Ongoing
                   && error == old(error) && finalStatus == old(finalStatus))
              && (!go ==> run.chunks == [] && ChunksEnded(run, code, rest))
    {
      hide LineEnd, Body.RunChunks, Body.ParseSize;
      ghost var want, text := Wanted(), line + buffer;
      Body.RunChunkLine(want, text);
      chunk, sizes := "", 0;
      code, rest := GetChunkedSize(buffer);
      if code != 0 { return false, code, rest, chunk, 0; }
      if want.Size? && LineEnd(text).Some? {
        sizes := LineEnd(text).value + 2;
        assert line + rest == rest;
      }
      if chunkedStatus && len == 0 {
        bodyStatus := Term;
        finalStatus := TRAILER;
        line := "";
        return false, -1, rest, chunk, sizes;
      }
      go, code, rest, chunk := ReadData(rest);
    }

    /** The second half of the turn: the data line, if a size is known. */
    method ReadData(buffer: string) returns (go: bool, code: int, rest: string, chunk: string)
      requires status == Term && bodyStatus == Ongoing && chunked
      requires if chunkedStatus then len > 0 else buffer == "" && LineEnd(line).None? && |line| <= BUFFER_SIZE
      modifies `line, `error, `finalStatus, `len, `chunkedStatus
      ensures var run := if old(chunkedStatus) then Body.RunChunks(Body.Data(old(len)), old(line) + buffer)
                         else Body.More(Body.Size, old(line), [], 0);
              && (go ==>
                   && run == Joined(0, [chunk], Body.RunChunks(Body.Size, rest))
                   && |old(line) + buffer| == |chunk| + 2 + |rest|
                   && line == "" && !chunkedStatus && error == old(error) && finalStatus == old(finalStatus))
              && (!go ==> run.chunks == [] && run.sizeBytes == 0 && ChunksEnded(run, code, rest))
    {
      hide LineEnd, Body.RunChunks, Body.ParseSize;
      Body.RunChunkLine(Body.Data(if chunkedStatus then len else 0), line + buffer);
      assert buffer == "" ==> line + buffer == line;
      code, rest := GetLine(buffer);
      chunk := "";
      if code != 0 {
        code := CheckSizes();
        return false, code, rest, chunk;
      }
      if |line| != len {
        code := FillError(400);
        return false, code, rest, chunk;
      }
      chunk := line;
      line := "";
      len := -1;
      chunkedStatus := false;
      return true, 0, rest, chunk;
    }

    /** _parseChunked: `data` are the bytes it writes. At the head of its loop the
        accounting of ChunksKept holds with the unread buffer added; so what has been
        written is within the limit whenever a call returns 0, and never exceeds it by
        more than the last buffer. */
    method ParseChunked(buffer: string) returns (code: int, rest: string, data: string)
      requires status == Term && bodyStatus == Ongoing && chunked && ChunksKept() && buffer != ""
      modifies `line, `error, `finalStatus, `chunkedBodySize, `len, `chunkedStatus, `bodyStatus, `decoded
      ensures var run := Body.RunChunks(old(Wanted()), old(line) + buffer);
              && ChunksEnded(run, code, rest)
              && data == Body.Concat(run.chunks) && decoded == old(decoded) + run.chunks
              && chunkedBodySize == old(chunkedBodySize) + |buffer| - run.sizeBytes
      ensures NoneEmpty(decoded) && (code == 0 ==> ChunksKept() && |Body.Concat(decoded)| <= bodyMaxSize)
      ensures old(chunkedBodySize) <= bodyMaxSize ==> |Body.Concat(decoded)| <= bodyMaxSize + |buffer|
    {
      hide LineEnd, Body.RunChunks, Body.ParseSize, Body.Concat, Body.Framed, Joined, NoneEmpty;
      rest := buffer;
      data := "";
      ghost var run := Body.RunChunks(Wanted(), line + buffer);
      ghost var sizes: nat := 0;
      ghost var newChunks: seq<string> := [];
      chunkedBodySize := chunkedBodySize + |rest|;
      BodyStart(run, decoded);
      NoneEmptyRun(decoded, Wanted(), line + buffer);
      while rest != ""
        invariant status == Term && bodyStatus == Ongoing && chunked && error == old(error) &&
          finalStatus == old(finalStatus)
        invariant LineEnd(line).None? && (chunkedStatus ==> len > 0) && (rest == "" ==> line == "")
        invariant chunkedBodySize == Body.Framed(decoded) + |line| + |rest|
        invariant chunkedBodySize == old(chunkedBodySize) + |buffer| - sizes
        invariant decoded == old(decoded) + newChunks && data == Body.Concat(newChunks)
        invariant Joined(sizes, newChunks, Body.RunChunks(Wanted(), line + rest)) == run
        decreases |line| + |rest|
      {
        ghost var turn := Body.RunChunks(Wanted(), line + rest);
        Body.BytesAccounted(Wanted(), line + rest);
        KeptLine(Wanted(), line + rest);
        WrittenBound(decoded);
        JoinedNone(sizes, newChunks, turn);
        var go, chunk;
        ghost var read;
        go, code, rest, chunk, read := ReadChunk(rest);
        if !go { return; }
        data := data + chunk;
        ChunkAdded(decoded, newChunks, chunk, sizes, read, Body.RunChunks(Body.Size, rest));
        decoded := decoded + [chunk];
        newChunks := newChunks + [chunk];
        sizes := sizes + read;
        NoLineEnd();
        assert line + rest == rest;
      }
      Body.RunChunkLine(Wanted(), line);
      assert line + rest == line;
      JoinedNone(sizes, newChunks, Body.RunChunks(Wanted(), line));
      WrittenBound(decoded);
      if chunkedBodySize > bodyMaxSize {
        code := FillError(413);
        return;
      }
      return 0, rest, data;
    }

    /** _parseMesured. */
    method ParseMeasured(buffer: string) returns (code: int, rest: string, data: string)
      requires 0 <= len < contentLength && |got| == len
      modifies `len, `bodyStatus, `finalStatus, `got
      ensures got == old(got) + data && len == |got| && data + rest == buffer
      ensures match FeedSized(old(HeadState()), contentLength, old(got) + buffer)
              case Ready(m, left) =>
                code == -1 && got == m.body && rest == left && bodyStatus == Term && finalStatus == COMPLETE
              case _ =>
                code == 0 && rest == "" && len < contentLength && bodyStatus == old(bodyStatus) &&
                finalStatus == old(finalStatus)
    {
      var left := contentLength - len;
      var cut := if left > |buffer| then |buffer| else left;
      data := buffer[..cut];
      len := len + |data|;
      rest := buffer[cut..];
      got := got + data;
      ghost var all := old(got) + buffer;
      assert all[..|old(got)| + cut] == got && all[|old(got)| + cut..] == rest;
      if len == contentLength {
        bodyStatus := Term;
        finalStatus := COMPLETE;
        return -1, rest, data;
      }
      return 0, rest, data;
    }

    /** The stage of the request. */
    ghost function StageNow(): Stage
      reads this
    {
      if status != Term then InHead(HeadState(), line)
      else if chunked then InChunks(HeadState(), Wanted(), line, decoded)
      else if contentLength >= 0 then InSized(HeadState(), contentLength, got)
      else Broken
    }

    /** Nothing has been decided about the body yet. */
    ghost predicate BodyFresh()
      reads `bodyMaxSize, `len, `contentLength, `chunked, `bodyStatus, `chunkedBodySize, `chunkedStatus, `decoded, `got
    {
      && bodyMaxSize == 0 && len == 0 && contentLength == -1 && !chunked && bodyStatus == New
      && chunkedBodySize == 0 && !chunkedStatus && decoded == [] && got == ""
    }

    /** A body can be read: nothing was refused, and the accounts are in order. */
    ghost predicate BodyKept()
      reads this
    {
      && status == Term && finalStatus <= TRAILER && bodyStatus != Term
      && (chunked ==> ChunksKept())
      && (!chunked ==> 0 <= len < contentLength && |got| == len)
    }

    /** The body written so far. */
    ghost function Written(): string
      reads `chunked, `decoded, `got
    {
      if chunked then Body.Concat(decoded) else got
    }

    /** How parseInput leaves the request at a stage. */
    ghost predicate BodyFed(s: Stage, code: int, rest: string)
      reads this
    {
      match s
      case Ready(m, left) =>
        code == -1 && rest == left && Written() == m.body &&
        (BodySize() > 0 <==> m.body != "" || (chunked && rest != ""))
      case Broken => code == 400
      case InHead(_, _) => false
      case InSized(_, _, _) => code == 0 && rest == "" && StageNow() == s
      case InChunks(_, want, partial, chunks) =>
        rest == "" && code == ChunksRefusal(want, partial, chunks, bodyMaxSize) && (code == 0 ==> StageNow() == s)
    }

    /** parseInput on a request whose body is not complete: it goes on from the stage
        of the last call. Trailers are not reached, because parseBody reports the end
        of the body first. */
    method ParseInput(buffer: string) returns (code: int, rest: string, data: string)
      requires finalStatus > TRAILER || BodyKept()
      modifies `line, `error, `finalStatus, `chunkedBodySize, `len, `chunkedStatus, `bodyStatus, `decoded, `got
      ensures old(finalStatus) > TRAILER || buffer == "" ==>
        code == 0 && rest == buffer && data == "" && unchanged(this)
      ensures old(finalStatus) <= TRAILER && buffer != "" ==>
        Written() == old(Written()) + data && BodyFed(FeedBody(old(StageNow()), buffer), code, rest)
      ensures code in {-1, 0} || code >= 400
      ensures if code <= 0 then error == old(error) else error == code && finalStatus > TRAILER
      ensures code == 0 && old(finalStatus) <= TRAILER ==> BodyKept()
    {
      hide LineEnd, Body.RunChunks, Body.Concat, Body.Framed;
      if finalStatus > TRAILER || buffer == "" { return 0, buffer, ""; }
      bodyStatus := Ongoing;
      if chunked {
        ghost var want, text, before := Wanted(), line + buffer, decoded;
        Body.BytesAccounted(want, text);
        KeptLine(want, text);
        Body.ConcatAppend(before, Body.RunChunks(want, text).chunks);
        Body.FramedAppend(before, Body.RunChunks(want, text).chunks);
        code, rest, data := ParseChunked(buffer);
        NoneEmptyText(decoded);
      } else {
        code, rest, data := ParseMeasured(buffer);
      }
    }
  }

  predicate NoneEmpty(chunks: seq<string>) { forall c :: c in chunks ==> c != "" }

  /** No chunk that is read is empty. */
  lemma NoneEmptyRun(decoded: seq<string>, want: Body.Want, text: string)
    requires NoneEmpty(decoded) && want != Body.Data(0)
    ensures NoneEmpty(decoded + Body.RunChunks(want, text).chunks)
  {
    hide Body.RunChunks;
    Body.ChunksNotEmpty(want, text);
  }

  lemma NoneEmptyText(chunks: seq<string>)
    requires NoneEmpty(chunks)
    ensures (Body.Concat(chunks) == "" <==> chunks == []) && (Body.Framed(chunks) == 0 <==> chunks == [])
  {
    Body.OnlyEmpty(chunks);
  }

  /** A run with the chunks and size lines in front of it. */
  function Joined(sizes: nat, chunks: seq<string>, r: Body.ChunkRun): Body.ChunkRun {
    r.(sizeBytes := sizes + r.sizeBytes, chunks := chunks + r.chunks)
  }

  lemma BodyStart(run: Body.ChunkRun, decoded: seq<string>)
    ensures Joined(0, [], run) == run && Body.Concat([]) == "" && decoded + [] == decoded
  {
  }

  lemma JoinedNone(sizes: nat, chunks: seq<string>, r: Body.ChunkRun)
    ensures r.chunks == [] ==>
      Body.Framed(r.chunks) == 0 &&
      Joined(sizes, chunks, r) == match r
                                  case More(want, partial, _, bytes) => Body.More(want, partial, chunks, sizes + bytes)
                                  case Done(rest, _, bytes) => Body.Done(rest, chunks, sizes + bytes)
                                  case Failed(rest, _, bytes) => Body.Failed(rest, chunks, sizes + bytes)
  {
  }

  /** The line that a run keeps for the next call holds no whole line. */
  lemma KeptLine(want: Body.Want, text: string)
    requires want != Body.Data(0)
    ensures Body.RunChunks(want, text).More? ==>
      LineEnd(Body.RunChunks(want, text).partial).None? && Body.RunChunks(want, text).want != Body.Data(0)
  {
    Body.MorePartial(want, text);
  }

  /** One more chunk: the accounting, the written bytes and the rest of the run. */
  lemma ChunkAdded(decoded: seq<string>, newChunks: seq<string>, chunk: string, sizes: nat, read: nat, r: Body.ChunkRun)
    ensures Body.Framed(decoded + [chunk]) == Body.Framed(decoded) + |chunk| + 2
    ensures Body.Concat(newChunks + [chunk]) == Body.Concat(newChunks) + chunk
    ensures Joined(sizes, newChunks, Joined(read, [chunk], r)) == Joined(sizes + read, newChunks + [chunk], r)
  {
    Body.FramedAppend(decoded, [chunk]);
    Body.ConcatAppend(newChunks, [chunk]);
    assert [chunk][1..] == [];
    assert chunk + "" == chunk;
    assert newChunks + ([chunk] + r.chunks) == newChunks + [chunk] + r.chunks;
  }

  lemma WrittenBound(decoded: seq<string>)
    ensures |Body.Concat(decoded)| <= Body.Framed(decoded)
  {
    Body.ConcatBound(decoded);
  }

  lemma SkipJunkStep(s: string)
    ensures s == "" || IsAlpha(s[0]) ==> SkipJunk(s) == s
    ensures s != "" && !IsAlpha(s[0]) ==> SkipJunk(s) == SkipJunk(s[1..])
  {
  }
}
