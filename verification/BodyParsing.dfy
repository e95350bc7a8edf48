/** What _parseChunked makes of the bytes of a chunked body (srcs/Request.cpp), as a
    function of all the bytes, however they were cut. */
module BodyParsing {
  import opened Text
  import opened Numbers

  /** What the next line is: a chunk size, or the data of a chunk of known size. */
  datatype Want = Size | Data(len: nat)

  /** `chunks` are the chunks written by this run; `sizeBytes` counts the bytes of the
      size lines, which the accounting takes off again. */
  datatype ChunkRun =
    | More(want: Want, partial: string, chunks: seq<string>, sizeBytes: nat)
    | Done(rest: string, chunks: seq<string>, sizeBytes: nat)
    | Failed(rest: string, chunks: seq<string>, sizeBytes: nat)

  datatype SizeLine = Length(n: nat) | Bad

  function ParseSize(line: string): SizeLine {
    match ParseInt(line, 16)
    case Number(n) => if n < 0 then Bad else Length(n)
    case _ => Bad
  }

  function RunChunks(want: Want, data: string): ChunkRun
    decreases |data|
  {
    match LineEnd(data)
    case None => More(want, data, [], 0)
    case Some(i) =>
      var line, rest := data[..i], data[i + 2..];
      match want
      case Size =>
        (match ParseSize(line)
         case Bad => Failed(rest, [], 0)
         case Length(n) =>
           if n == 0 then Done(rest, [], i + 2) else AddSize(i + 2, RunChunks(Data(n), rest)))
      case Data(n) =>
        if i != n then Failed(rest, [], 0) else AddChunk(line, RunChunks(Size, rest))
  }

  function AddSize(bytes: nat, r: ChunkRun): ChunkRun {
    r.(sizeBytes := bytes + r.sizeBytes)
  }

  function AddChunk(chunk: string, r: ChunkRun): ChunkRun {
    r.(chunks := [chunk] + r.chunks)
  }

  lemma RunChunkLine(want: Want, data: string)
    ensures match LineEnd(data)
            case None => RunChunks(want, data) == More(want, data, [], 0)
            case Some(i) => i + 2 <= |data| && RunChunks(want, data) == AfterLine(want, data[..i], data[i + 2..])
  {
    hide ParseSize, Find, AddSize, AddChunk;
  }

  function AfterLine(want: Want, line: string, rest: string): ChunkRun {
    match want
    case Size =>
      (match ParseSize(line)
       case Bad => Failed(rest, [], 0)
       case Length(n) =>
         if n == 0 then Done(rest, [], |line| + 2) else AddSize(|line| + 2, RunChunks(Data(n), rest)))
    case Data(n) =>
      if |line| != n then Failed(rest, [], 0) else AddChunk(line, RunChunks(Size, rest))
  }

  /** The run on more bytes, seen from the run on the first ones. */
  function Then(r: ChunkRun, b: string): ChunkRun {
    match r
    case More(want, partial, chunks, bytes) =>
      var next := RunChunks(want, partial + b);
      next.(chunks := chunks + next.chunks, sizeBytes := bytes + next.sizeBytes)
    case Done(rest, chunks, bytes) => Done(rest + b, chunks, bytes)
    case Failed(rest, chunks, bytes) => Failed(rest + b, chunks, bytes)
  }

  lemma ThenAdds(r: ChunkRun, b: string, chunk: string, bytes: nat)
    ensures Then(AddSize(bytes, r), b) == AddSize(bytes, Then(r, b))
    ensures Then(AddChunk(chunk, r), b) == AddChunk(chunk, Then(r, b))
  {
    hide RunChunks;
    if r.More? {
      var next := RunChunks(r.want, r.partial + b);
      assert [chunk] + r.chunks + next.chunks == [chunk] + (r.chunks + next.chunks);
    }
  }

  /** A chunked body may be cut anywhere, even between CR and LF. */
  lemma {:induction false} RunChunksResumes(want: Want, a: string, b: string)
    ensures RunChunks(want, a + b) == Then(RunChunks(want, a), b)
    decreases |a|
  {
    hide RunChunks, LineEnd, ParseSize, Then;
    RunChunkLine(want, a);
    RunChunkLine(want, a + b);
    match LineEnd(a)
    case None => ThenMore(want, a, b);
    case Some(i) =>
      var line, rest := a[..i], a[i + 2..];
      LineEndStable(a, b);
      assert (a + b)[..i] == line && (a + b)[i + 2..] == rest + b;
      match want
      case Size =>
        match ParseSize(line) {
          case Bad => ThenEnds(rest, b, 0);
          case Length(n) =>
            if n == 0 {
              ThenEnds(rest, b, i + 2);
            } else {
              RunChunksResumes(Data(n), rest, b);
              ThenAdds(RunChunks(Data(n), rest), b, "", i + 2);
            }
        }
      case Data(n) =>
        ThenEnds(rest, b, 0);
        RunChunksResumes(Size, rest, b);
        ThenAdds(RunChunks(Size, rest), b, line, 0);
  }

  /** No chunk that is read is empty. */
  lemma {:induction false} ChunksNotEmpty(want: Want, data: string)
    requires want != Data(0)
    ensures forall c :: c in RunChunks(want, data).chunks ==> c != ""
    decreases |data|
  {
    hide RunChunks, LineEnd, ParseSize;
    RunChunkLine(want, data);
    if LineEnd(data).Some? {
      var line, rest := data[..LineEnd(data).value], data[LineEnd(data).value + 2..];
      match want
      case Size =>
        var size := ParseSize(line);
        if size.Length? && size.n != 0 { ChunksNotEmpty(Data(size.n), rest); }
      case Data(_) => ChunksNotEmpty(Size, rest);
    }
  }

  lemma OnlyEmpty(chunks: seq<string>)
    requires forall c :: c in chunks ==> c != ""
    ensures (Concat(chunks) == "" <==> chunks == []) && (Framed(chunks) == 0 <==> chunks == []) && Framed(chunks) >= 0
  {
    if chunks != [] { assert chunks[0] in chunks; }
  }

  lemma ThenMore(want: Want, a: string, b: string)
    ensures Then(More(want, a, [], 0), b) == RunChunks(want, a + b)
  {
    hide RunChunks;
    var next := RunChunks(want, a + b);
    assert [] + next.chunks == next.chunks;
  }

  lemma ThenEnds(rest: string, b: string, bytes: nat)
    ensures Then(Failed(rest, [], bytes), b) == Failed(rest + b, [], bytes)
    ensures Then(Done(rest, [], bytes), b) == Done(rest + b, [], bytes)
  {
  }

  // ----- accounting

  function Concat(chunks: seq<string>): string {
    if chunks == [] then "" else chunks[0] + Concat(chunks[1..])
  }

  /** What the decoded chunks weigh in `_chunked_body_size`: their data and a CRLF. */
  function Framed(chunks: seq<string>): nat {
    if chunks == [] then 0 else |chunks[0]| + 2 + Framed(chunks[1..])
  }

  lemma {:induction false} FramedAppend(a: seq<string>, b: seq<string>)
    ensures Framed(a + b) == Framed(a) + Framed(b)
  {
    if a == [] {
      assert a + b == b;
    } else {
      FramedAppend(a[1..], b);
      assert (a + b)[1..] == a[1..] + b;
    }
  }

  lemma {:induction false} ConcatAppend(a: seq<string>, b: seq<string>)
    ensures Concat(a + b) == Concat(a) + Concat(b)
  {
    if a == [] {
      assert a + b == b;
    } else {
      ConcatAppend(a[1..], b);
      assert (a + b)[0] == a[0] && (a + b)[1..] == a[1..] + b;
      Regroup(a[0], Concat(a[1..]), Concat(b));
    }
  }

  lemma Regroup(x: string, y: string, z: string)
    ensures x + (y + z) == x + y + z
  {
  }

  lemma {:induction false} ConcatBound(chunks: seq<string>)
    ensures |Concat(chunks)| + 2 * |chunks| == Framed(chunks)
  {
    if chunks != [] { ConcatBound(chunks[1..]); }
  }

  /** Every byte is in a size line, in a chunk with its CRLF, or still unread. */
  lemma {:induction false} BytesAccounted(want: Want, data: string)
    ensures match RunChunks(want, data)
            case More(_, partial, chunks, bytes) => |data| == bytes + Framed(chunks) + |partial|
            case Done(rest, chunks, bytes) => |data| == bytes + Framed(chunks) + |rest|
            case Failed(rest, chunks, bytes) => |data| >= bytes + Framed(chunks) + |rest|
    decreases |data|
  {
    hide RunChunks, LineEnd, ParseSize;
    RunChunkLine(want, data);
    if LineEnd(data).Some? {
      var i := LineEnd(data).value;
      var line, rest := data[..i], data[i + 2..];
      match want
      case Size =>
        var s := ParseSize(line);
        if s.Length? && s.n > 0 { BytesAccounted(Data(s.n), rest); }
      case Data(n) =>
        if i == n {
          BytesAccounted(Size, rest);
          var r := RunChunks(Size, rest);
          assert ([line] + r.chunks)[1..] == r.chunks;
        }
    }
  }

  lemma {:induction false} MorePartial(want: Want, data: string)
    requires want != Data(0)
    ensures RunChunks(want, data).More? ==>
      LineEnd(RunChunks(want, data).partial).None? && RunChunks(want, data).want != Data(0)
    decreases |data|
  {
    hide RunChunks, LineEnd, ParseSize;
    RunChunkLine(want, data);
    if LineEnd(data).Some? {
      var i := LineEnd(data).value;
      var line, rest := data[..i], data[i + 2..];
      match want
      case Size =>
        var s := ParseSize(line);
        if s.Length? && s.n > 0 { MorePartial(Data(s.n), rest); }
      case Data(n) =>
        if i == n { MorePartial(Size, rest); }
    }
  }

  // ----- chunked bodies as a client writes them (section 3.6.1 of RFC 2616)

  function ChunkText(chunk: string): string {
    Digits(|chunk|, 16) + CRLF + chunk + CRLF
  }

  function ChunksText(chunks: seq<string>): string {
    if chunks == [] then "0" + CRLF else ChunkText(chunks[0]) + ChunksText(chunks[1..])
  }

  /** The server reads a chunk as one line. */
  predicate ChunkWritable(chunk: string) {
    0 < |chunk| < 0x8000_0000 && LineEnd(chunk).None?
  }

  lemma SizeReadsBack(n: nat)
    requires n < 0x8000_0000
    ensures ParseSize(Digits(n, 16)) == Length(n) && LineEnd(Digits(n, 16)).None?
  {
    hide ParseInt, Digits, OccursAt;
    RoundTripDigits(n, 16, n);
    var d := Digits(n, 16);
    var f := LineEnd(d);
    CrlfAt(d, if f.Some? then f.value else 0);
    assert forall k :: 0 <= k < |d| ==> IsDigit(d[k], 16);
  }

  lemma ZeroLine()
    ensures ParseSize("0") == Length(0) && LineEnd("0").None?
  {
    assert Digits(0, 16) == "0";
    SizeReadsBack(0);
  }

  /** The chunks in front of the first one with a CRLF in it. */
  function Unbroken(chunks: seq<string>): seq<string> {
    if chunks == [] || LineEnd(chunks[0]).Some? then [] else [chunks[0]] + Unbroken(chunks[1..])
  }

  lemma {:induction false} UnbrokenAll(chunks: seq<string>)
    ensures |Unbroken(chunks)| <= |chunks|
    ensures Unbroken(chunks) == chunks <==> forall c :: c in chunks ==> LineEnd(c).None?
    decreases |chunks|
  {
    hide LineEnd;
    if chunks != [] {
      UnbrokenAll(chunks[1..]);
      assert chunks == [chunks[0]] + chunks[1..];
    }
  }

  lemma {:induction false} UnbrokenReadBack(chunks: seq<string>, rest: string)
    requires forall c :: c in chunks ==> 0 < |c| < 0x8000_0000
    ensures var r := RunChunks(Size, ChunksText(chunks) + rest);
            && r.chunks == Unbroken(chunks)
            && if Unbroken(chunks) == chunks then r.Done? && r.rest == rest else r.Failed?
    decreases |chunks|
  {
    hide RunChunks, LineEnd, ParseSize, Digits;
    var data := ChunksText(chunks) + rest;
    RunChunkLine(Size, data);
    if chunks == [] {
      ZeroLine();
      assert data == "0" + CRLF + rest;
      LineEndOf("0", rest);
      assert data[..1] == "0" && data[3..] == rest;
    } else {
      var c, tail := chunks[0], ChunksText(chunks[1..]) + rest;
      assert c in chunks && chunks == [c] + chunks[1..];
      SizeThenChunk(c, tail);
      assert data == ChunkText(c) + tail;
      ChunkLine(c, tail);
      if LineEnd(c).None? { UnbrokenReadBack(chunks[1..], rest); }
    }
  }

  lemma SizeThenChunk(c: string, tail: string)
    requires 0 < |c| < 0x8000_0000
    ensures RunChunks(Size, ChunkText(c) + tail) ==
            AddSize(|Digits(|c|, 16)| + 2, RunChunks(Data(|c|), c + CRLF + tail))
  {
    hide RunChunks, LineEnd, ParseSize, Digits;
    var d, after := Digits(|c|, 16), c + CRLF + tail;
    var data := ChunkText(c) + tail;
    SizeReadsBack(|c|);
    assert data == d + CRLF + after;
    LineEndOf(d, after);
    assert data[..|d|] == d && data[|d| + 2..] == after;
    RunChunkLine(Size, data);
  }

  /** A chunk is read as one line: whole, or not at all. */
  lemma ChunkLine(c: string, tail: string)
    ensures RunChunks(Data(|c|), c + CRLF + tail) ==
            if LineEnd(c).None? then AddChunk(c, RunChunks(Size, tail))
            else Failed((c + CRLF + tail)[LineEnd(c).value + 2..], [], 0)
  {
    hide RunChunks, LineEnd;
    var after := c + CRLF + tail;
    RunChunkLine(Data(|c|), after);
    if LineEnd(c).Some? {
      assert after == c + (CRLF + tail);
      LineEndStable(c, CRLF + tail);
      LineEndBound(c);
    } else {
      LineEndOf(c, tail);
      assert after[..|c|] == c && after[|c| + 2..] == tail;
    }
  }

  /** Section 3.6.1 of RFC 2616 allows any bytes in a chunk. The body is read back, and
      what is left are exactly the bytes behind the line of the last chunk, if and only if
      no chunk holds a CRLF; otherwise it is refused at the first chunk that does. */
  lemma ChunksExactly(chunks: seq<string>, rest: string)
    requires forall c :: c in chunks ==> 0 < |c| < 0x8000_0000
    ensures var r := RunChunks(Size, ChunksText(chunks) + rest);
            && ((r.Done? && r.rest == rest && r.chunks == chunks) <==> forall c :: c in chunks ==> LineEnd(c).None?)
            && (r.Failed? <==> exists c :: c in chunks && LineEnd(c).Some?)
            && r.chunks == Unbroken(chunks)
  {
    hide RunChunks, LineEnd, ChunksText;
    UnbrokenAll(chunks);
    UnbrokenReadBack(chunks, rest);
  }

  lemma ChunksReadBack(chunks: seq<string>, rest: string)
    requires forall c :: c in chunks ==> ChunkWritable(c)
    ensures var r := RunChunks(Size, ChunksText(chunks) + rest);
            r.Done? && r.rest == rest && r.chunks == chunks
  {
    hide RunChunks, ChunksText, LineEnd;
    ChunksExactly(chunks, rest);
  }

  lemma WritableChunk(c: string)
    requires ChunkWritable(c)
    ensures 0 < |c| < 0x8000_0000 && LineEnd(c).None?
  {
  }

  // ----- size lines stay short

  /** Every size line is shorter than `bound`. */
  predicate SizesFit(want: Want, data: string, bound: nat)
    decreases |data|
  {
    match LineEnd(data)
    case None => true
    case Some(i) =>
      var line, rest := data[..i], data[i + 2..];
      match want
      case Size =>
        i < bound &&
        (ParseSize(line).Length? && ParseSize(line).n > 0 ==> SizesFit(Data(ParseSize(line).n), rest, bound))
      case Data(n) => i == n ==> SizesFit(Size, rest, bound)
  }

  lemma SizesFitStep(want: Want, data: string, bound: nat)
    ensures match LineEnd(data)
            case None => SizesFit(want, data, bound)
            case Some(i) =>
              i + 2 <= |data| && SizesFit(want, data, bound) == SizesFitAfter(want, data[..i], data[i + 2..], bound)
  {
    hide ParseSize, Find;
  }

  predicate SizesFitAfter(want: Want, line: string, rest: string, bound: nat) {
    match want
    case Size =>
      |line| < bound &&
      (ParseSize(line).Length? && ParseSize(line).n > 0 ==> SizesFit(Data(ParseSize(line).n), rest, bound))
    case Data(n) => |line| == n ==> SizesFit(Size, rest, bound)
  }

  /** If the size lines of the whole body are short, so is a partial one. */
  lemma {:induction false} PartialSizeFits(want: Want, a: string, b: string, bound: nat)
    requires RunChunks(want, a).More? && RunChunks(want, a + b).Done? && SizesFit(want, a + b, bound)
    ensures RunChunks(want, a).want.Size? ==> |RunChunks(want, a).partial| <= bound
    decreases |a|
  {
    hide RunChunks, LineEnd, ParseSize, SizesFit;
    RunChunkLine(want, a);
    RunChunkLine(want, a + b);
    SizesFitStep(want, a + b, bound);
    if LineEnd(a).Some? {
      var i := LineEnd(a).value;
      LineEndStable(a, b);
      var line, rest := a[..i], a[i + 2..];
      assert (a + b)[..i] == line && (a + b)[i + 2..] == rest + b;
      match want
      case Size =>
        var size := ParseSize(line);
        if size.Length? && size.n > 0 { PartialSizeFits(Data(size.n), rest, b, bound); }
      case Data(n) =>
        if i == n { PartialSizeFits(Size, rest, b, bound); }
    } else if LineEnd(a + b).Some? {
      LineEndLate(a, b);
    }
  }

  function Pow16(k: nat): nat { if k == 0 then 1 else 16 * Pow16(k - 1) }

  lemma {:induction false} DigitsShort(n: nat, k: nat)
    requires k > 0 && n < Pow16(k)
    ensures |Digits(n, 16)| <= k
  {
    if n >= 16 { DigitsShort(n / 16, k - 1); }
  }

  lemma SizeLineShort(n: nat)
    requires n < 0x8000_0000
    ensures |Digits(n, 16)| <= 8
  {
    assert Pow16(4) == 0x1_0000;
    assert Pow16(8) == 0x1_0000_0000;
    DigitsShort(n, 8);
  }

  lemma {:induction false} ChunkSizesFit(chunks: seq<string>, rest: string)
    requires forall c :: c in chunks ==> ChunkWritable(c)
    ensures SizesFit(Size, ChunksText(chunks) + rest, 9)
    decreases |chunks|
  {
    hide SizesFit, LineEnd, ParseSize, ChunkWritable, Digits;
    var data := ChunksText(chunks) + rest;
    SizesFitStep(Size, data, 9);
    if chunks == [] {
      ZeroLine();
      assert data == "0" + CRLF + rest;
      LineEndOf("0", rest);
      assert data[..1] == "0";
    } else {
      var c, tail := chunks[0], ChunksText(chunks[1..]) + rest;
      assert c in chunks;
      WritableChunk(c);
      var d := Digits(|c|, 16);
      SizeReadsBack(|c|);
      SizeLineShort(|c|);
      var after := c + CRLF + tail;
      assert data == d + CRLF + after;
      LineEndOf(d, after);
      assert data[..|d|] == d && data[|d| + 2..] == after;
      SizesFitStep(Data(|c|), after, 9);
      LineEndOf(c, tail);
      assert after[..|c|] == c && after[|c| + 2..] == tail;
      ChunkSizesFit(chunks[1..], rest);
    }
  }
}
