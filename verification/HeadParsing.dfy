/** What parseHeaders makes of the bytes of a request head (srcs/Request.cpp), as a
    function of all the bytes, however they were cut. */
module HeadParsing {
  import opened Text
  import opened Numbers
  import opened HeaderNames

  const BUFFER_SIZE := 4000
  const HEADER_MAX_BUFFER := 4

  /** The code of a call that leaves by an uncaught std::out_of_range. */
  const UNCAUGHT := -2

  datatype Status = Term | Ongoing | RLine | New

  datatype Head = Head(status: Status, verb: int, uri: string, headers: Headers)

  const FRESH: Head := Head(New, -1, "", map[])

  const METHODS: seq<string> := ["GET", "POST", "PUT", "DELETE", "HEAD"]

  function MethodIndex(name: string): (r: int)
    ensures -1 <= r < |METHODS| && (r >= 0 ==> METHODS[r] == name)
  {
    if name == "GET" then 0 else if name == "POST" then 1 else if name == "PUT" then 2
    else if name == "DELETE" then 3 else if name == "HEAD" then 4 else -1
  }

  /** nextSpace: the first blank at or after `i`. */
  function NextBlank(s: string, i: nat): (r: nat)
    requires i <= |s|
    ensures i <= r <= |s| && (r < |s| ==> IsBlank(s[r])) && forall k :: i <= k < r ==> !IsBlank(s[k])
    decreases |s| - i
  {
    if i < |s| && !IsBlank(s[i]) then NextBlank(s, i + 1) else i
  }

  /** checkVersion */
  predicate VersionAccepted(v: string) {
    |v| >= 8 && Find(v, "HTTP/", 0) == Some(0) && (v[5..] == "1.1" || v[5..] == "1.0")
  }

  /** parseRequestLine: the head after the line, and 0 or the reason it is refused. */
  function ApplyLine(h: Head, line: string): (Head, int) {
    var idx := NextBlank(line, 0);
    var m := MethodIndex(line[..idx]);
    if m < 0 then (h.(verb := m), 501)
    else
      var i := SkipBlanks(line, idx);
      var r := NextBlank(line, i);
      var named := h.(verb := m, uri := line[i..r]);
      if r == |line| then (named, UNCAUGHT)
      else if !VersionAccepted(line[r + 1..]) then (named, 505)
      else (named, 0)
  }

  datatype FieldLine = Accepted(name: string, value: string) | Refused(code: int)

  function Trim(s: string): string { s[SkipBlanks(s, 0)..] }

  function ParseField(line: string): FieldLine {
    var t := Trim(line);
    match Find(t, ":", 0)
    case None => Refused(400)
    case Some(i) =>
      if |t[i + 1..]| > BUFFER_SIZE then Refused(431) else Accepted(t[..i], Trim(t[i + 1..]))
  }

  predicate IsAlpha(c: char) { 'a' <= c <= 'z' || 'A' <= c <= 'Z' }

  function SkipJunk(s: string): (r: string)
    ensures |r| <= |s| && (r != "" ==> IsAlpha(r[0]))
  {
    if s != "" && !IsAlpha(s[0]) then SkipJunk(s[1..]) else s
  }

  /** What is skipped in front of a request holds none of the 52 letters. */
  lemma {:induction false} JunkHasNoLetters(s: string)
    ensures SkipJunk(s) == "" <==> forall c :: c in s ==> c !in UPPER && c !in LOWER
    decreases |s|
  {
    hide UPPER, LOWER;
    if s != "" {
      LetterIs(s[0]);
      JunkHasNoLetters(s[1..]);
      assert s == [s[0]] + s[1..];
    }
  }

  lemma LetterIs(c: char)
    ensures IsAlpha(c) <==> c in UPPER || c in LOWER
  {
    hide UPPER, LOWER;
    Alphabet(0);
    forall k: nat | k < 26 ensures UPPER[k] as int == 65 + k && LOWER[k] as int == 97 + k { Alphabet(k); }
    if 'A' <= c <= 'Z' { Alphabet(c as int - 65); }
    if 'a' <= c <= 'z' { Alphabet(c as int - 97); }
  }

  /** More: every whole line is used up and `partial` is kept for the next call. Done:
      the blank line was read. Failed: a line was refused. */
  datatype HeadRun =
    | More(head: Head, partial: string)
    | Done(head: Head, rest: string)
    | Failed(head: Head, code: int, rest: string)

  function RunHead(h: Head, data: string): (r: HeadRun)
    requires h.status != Term
    ensures r.More? ==> r.head.status != Term && LineEnd(r.partial).None? && (r.head.status == New ==> r.partial == "")
    ensures r.Done? ==> |r.rest| < |data|
    decreases |data|, h.status == New
  {
    if h.status == New then
      var d := SkipJunk(data);
      if d == "" then More(h, "") else RunHead(h.(status := RLine), d)
    else match LineEnd(data)
      case None => More(h, data)
      case Some(i) =>
        var line, rest := data[..i], data[i + 2..];
        if h.status == RLine then
          if |line| > BUFFER_SIZE then Failed(h, 414, rest)
          else
            var (named, code) := ApplyLine(h, line);
            if code != 0 then Failed(named, code, rest) else RunHead(named.(status := Ongoing), rest)
        else if i == 0 then Done(h.(status := Term), rest)
        else match ParseField(line)
          case Refused(code) => Failed(h, code, rest)
          case Accepted(name, value) => RunHead(h.(headers := AddHeader(h.headers, name, value)), rest)
  }

  lemma RunNew(h: Head, data: string)
    requires h.status == New
    ensures RunHead(h, data) ==
      if SkipJunk(data) == "" then More(h, "") else RunHead(h.(status := RLine), SkipJunk(data))
  {
    hide SkipJunk, LineEnd, ApplyLine, ParseField, AddHeader;
  }

  /** What one whole line does. */
  datatype LineEffect = Next(head: Head) | Stop(head: Head) | Refuse(head: Head, code: int)

  function LineEffectOf(h: Head, line: string): (e: LineEffect)
    requires h.status == RLine || h.status == Ongoing
    ensures e.Next? ==> e.head.status == Ongoing
  {
    if h.status == RLine then
      if |line| > BUFFER_SIZE then Refuse(h, 414)
      else
        var (named, code) := ApplyLine(h, line);
        if code != 0 then Refuse(named, code) else Next(named.(status := Ongoing))
    else if line == "" then Stop(h.(status := Term))
    else match ParseField(line)
      case Refused(code) => Refuse(h, code)
      case Accepted(name, value) => Next(h.(headers := AddHeader(h.headers, name, value)))
  }

  function AfterLine(e: LineEffect, rest: string): HeadRun
    requires e.Next? ==> e.head.status != Term
  {
    match e
    case Next(h) => RunHead(h, rest)
    case Stop(h) => Done(h, rest)
    case Refuse(h, code) => Failed(h, code, rest)
  }

  lemma RunLine(h: Head, data: string)
    requires h.status == RLine || h.status == Ongoing
    ensures match LineEnd(data)
            case None => RunHead(h, data) == More(h, data)
            case Some(i) => i + 2 <= |data| && RunHead(h, data) == AfterLine(LineEffectOf(h, data[..i]), data[i + 2..])
  {
    hide ApplyLine, ParseField, AddHeader, Find;
  }

  lemma LineEndPrefix(a: string, b: string)
    requires LineEnd(a).Some?
    ensures var i := LineEnd(a).value;
            i + 2 <= |a| && LineEnd(a + b) == Some(i) && (a + b)[..i] == a[..i] && (a + b)[i + 2..] == a[i + 2..] + b
  {
    LineEndStable(a, b);
  }

  lemma {:induction false} SkipJunkAppend(a: string, b: string)
    ensures SkipJunk(a + b) == if SkipJunk(a) == "" then SkipJunk(b) else SkipJunk(a) + b
  {
    if a == "" {
      assert a + b == b;
    } else {
      assert (a + b)[1..] == a[1..] + b;
      SkipJunkAppend(a[1..], b);
    }
  }

  /** Parsing may stop after any byte and go on later: nothing is lost or read twice. */
  lemma {:induction false} RunHeadResumes(h: Head, a: string, b: string)
    requires h.status != Term
    ensures match RunHead(h, a)
            case More(h', partial) => RunHead(h, a + b) == RunHead(h', partial + b)
            case Done(h', rest) => RunHead(h, a + b) == Done(h', rest + b)
            case Failed(h', code, rest) => RunHead(h, a + b) == Failed(h', code, rest + b)
    decreases |a|, h.status == New
  {
    hide RunHead, SkipJunk, LineEnd, LineEffectOf;
    if h.status == New {
      RunNew(h, a);
      RunNew(h, a + b);
      SkipJunkAppend(a, b);
      if SkipJunk(a) == "" {
        assert "" + b == b;
        RunNew(h, b);
      } else {
        RunHeadResumes(h.(status := RLine), SkipJunk(a), b);
      }
    } else {
      RunLine(h, a);
      RunLine(h, a + b);
      if LineEnd(a).Some? {
        var i := LineEnd(a).value;
        LineEndPrefix(a, b);
        var effect := LineEffectOf(h, a[..i]);
        if effect.Next? { RunHeadResumes(effect.head, a[i + 2..], b); }
      }
    }
  }

  /** A refusal carries a status, or is the uncaught exception. */
  lemma {:induction false} RunHeadCodes(h: Head, data: string)
    requires h.status != Term
    ensures RunHead(h, data).Failed? ==>
      RunHead(h, data).head.status != Term && (RunHead(h, data).code >= 400 || RunHead(h, data).code == UNCAUGHT)
    ensures RunHead(h, data).Done? ==> RunHead(h, data).head.status == Term
    decreases |data|, h.status == New
  {
    hide RunHead, LineEnd, LineEffectOf, SkipJunk;
    if h.status == New {
      RunNew(h, data);
      if SkipJunk(data) != "" { RunHeadCodes(h.(status := RLine), SkipJunk(data)); }
    } else {
      RunLine(h, data);
      if LineEnd(data).Some? {
        var line, rest := data[..LineEnd(data).value], data[LineEnd(data).value + 2..];
        EffectCodes(h, line);
        var e := LineEffectOf(h, line);
        if e.Next? { RunHeadCodes(e.head, rest); }
      }
    }
  }

  /** A known method with nothing but a URI behind it. */
  ghost predicate NoVersion(line: string) {
    exists m, gap, uri :: NoVersionParts(line, m, gap, uri)
  }

  predicate NoVersionParts(line: string, m: string, gap: string, uri: string) {
    && line == m + gap + uri && m in METHODS
    && (forall c :: c in gap ==> IsBlank(c)) && (forall c :: c in uri ==> !IsBlank(c)) && (gap == "" ==> uri == "")
  }

  /** The request line is read with an uncaught exception exactly if no blank follows its
      URI. */
  lemma LineUncaught(h: Head, line: string)
    ensures ApplyLine(h, line).1 == UNCAUGHT <==> NoVersion(line)
  {
    hide ApplyLine, NoVersionParts;
    UncaughtShape(h, line);
    if NoVersion(line) {
      var m, gap, uri :| NoVersionParts(line, m, gap, uri);
      NoVersionThrows(h, line, m, gap, uri);
    }
  }

  lemma UncaughtShape(h: Head, line: string)
    ensures ApplyLine(h, line).1 == UNCAUGHT ==> NoVersion(line)
  {
    hide VersionAccepted, MethodIndex, SkipBlanks, NextBlank, NoVersionParts, IsBlank;
    if ApplyLine(h, line).1 == UNCAUGHT {
      var idx := NextBlank(line, 0);
      var i := SkipBlanks(line, idx);
      NoVersionIs(line, idx, i);
    }
  }

  lemma NoVersionIs(line: string, idx: nat, i: nat)
    requires idx <= i <= |line| && line[..idx] in METHODS && (idx == i ==> i == |line|)
    requires (forall k :: idx <= k < i ==> IsBlank(line[k])) && forall k :: i <= k < |line| ==> !IsBlank(line[k])
    ensures NoVersionParts(line, line[..idx], line[idx..i], line[i..])
  {
    hide IsBlank;
    assert line == line[..idx] + line[idx..i] + line[i..];
  }

  lemma NoVersionThrows(h: Head, line: string, m: string, gap: string, uri: string)
    requires NoVersionParts(line, m, gap, uri)
    ensures ApplyLine(h, line).1 == UNCAUGHT
  {
    hide NextBlank, SkipBlanks, IsBlank;
    var a, b := |m|, |m| + |gap|;
    MethodHasNoBlank(m);
    PartsOf(line, m, gap, uri);
    NextBlankIs(line, 0, a);
    SkipBlanksIs(line, a, b);
    NextBlankIs(line, b, |line|);
  }

  lemma MethodHasNoBlank(m: string)
    requires m in METHODS
    ensures MethodIndex(m) >= 0 && forall c :: c in m ==> !IsBlank(c)
  {
    assert m == METHODS[0] || m == METHODS[1] || m == METHODS[2] || m == METHODS[3] || m == METHODS[4];
  }

  lemma PartsOf(line: string, m: string, gap: string, uri: string)
    requires NoVersionParts(line, m, gap, uri) && forall c :: c in m ==> !IsBlank(c)
    ensures line[..|m|] == m && |line| == |m| + |gap| + |uri|
    ensures forall k :: 0 <= k < |m| ==> !IsBlank(line[k])
    ensures forall k :: |m| <= k < |m| + |gap| ==> IsBlank(line[k])
    ensures forall k :: |m| + |gap| <= k < |line| ==> !IsBlank(line[k])
    ensures |m| < |line| ==> |gap| > 0
  {
    hide IsBlank;
    forall k | 0 <= k < |m| ensures !IsBlank(line[k]) { assert line[k] == m[k]; }
    forall k | |m| <= k < |m| + |gap| ensures IsBlank(line[k]) { assert line[k] == gap[k - |m|]; }
    forall k | |m| + |gap| <= k < |line| ensures !IsBlank(line[k]) { assert line[k] == uri[k - |m| - |gap|]; }
  }

  lemma {:induction false} NextBlankIs(s: string, i: nat, r: nat)
    requires i <= r <= |s| && (forall k :: i <= k < r ==> !IsBlank(s[k])) && (r < |s| ==> IsBlank(s[r]))
    ensures NextBlank(s, i) == r
    decreases r - i
  {
    if i < r { NextBlankIs(s, i + 1, r); }
  }

  lemma {:induction false} SkipBlanksIs(s: string, i: nat, r: nat)
    requires i <= r <= |s| && (forall k :: i <= k < r ==> IsBlank(s[k])) && (r < |s| ==> !IsBlank(s[r]))
    ensures SkipBlanks(s, i) == r
    decreases r - i
  {
    if i < r { SkipBlanksIs(s, i + 1, r); }
  }

  /** The same over a run: the uncaught exception comes from the request line, in front of
      everything else, and only from there. */
  lemma {:induction false} RunUncaught(h: Head, data: string)
    requires h.status != Term
    ensures RunHead(h, data).Failed? && RunHead(h, data).code == UNCAUGHT <==>
            var text := if h.status == New then SkipJunk(data) else data;
            h.status != Ongoing && LineEnd(text).Some? && LineEnd(text).value <= BUFFER_SIZE &&
            LineEnd(text).value <= |text| &&
            NoVersion(text[..LineEnd(text).value])
    decreases |data|, h.status == New
  {
    hide RunHead, LineEnd, SkipJunk, ApplyLine, ParseField, AddHeader, NoVersion;
    LineEndBound(data);
    if h.status == New {
      RunNew(h, data);
      NoLineEnd();
      if SkipJunk(data) != "" { RunUncaught(h.(status := RLine), SkipJunk(data)); }
    } else {
      RunLine(h, data);
      if LineEnd(data).Some? {
        var line, rest := data[..LineEnd(data).value], data[LineEnd(data).value + 2..];
        LineUncaught(h, line);
        EffectCodes(h, line);
        if h.status == Ongoing { FieldCodes(line); }
        var e := LineEffectOf(h, line);
        if e.Next? { RunUncaught(e.head, rest); }
      }
    }
  }

  lemma FieldCodes(line: string)
    ensures ParseField(line).Refused? ==> ParseField(line).code != UNCAUGHT
  {
  }

  lemma EffectCodes(h: Head, line: string)
    requires h.status == RLine || h.status == Ongoing
    ensures var e := LineEffectOf(h, line);
            && (e.Refuse? ==> e.head.status != Term && (e.code >= 400 || e.code == UNCAUGHT))
            && (e.Stop? ==> e.head.status == Term)
  {
    hide AddHeader, Find, SkipBlanks, NextBlank, MethodIndex, VersionAccepted;
  }

  /** Every header line, without its CRLF, is shorter than BUFFER_SIZE. */
  predicate LinesFit(h: Head, data: string)
    requires h.status != Term
    decreases |data|, h.status == New
  {
    if h.status == New then SkipJunk(data) == "" || LinesFit(h.(status := RLine), SkipJunk(data))
    else match LineEnd(data)
      case None => true
      case Some(i) =>
        (h.status == Ongoing ==> i < BUFFER_SIZE) &&
        var e := LineEffectOf(h, data[..i]);
        e.Next? ==> LinesFit(e.head, data[i + 2..])
  }

  lemma LinesFitStep(h: Head, data: string)
    requires h.status != Term && LinesFit(h, data)
    ensures h.status == New ==> SkipJunk(data) == "" || LinesFit(h.(status := RLine), SkipJunk(data))
    ensures h.status != New && LineEnd(data).Some? ==>
      var i := LineEnd(data).value;
      i + 2 <= |data| && (h.status == Ongoing ==> i < BUFFER_SIZE) &&
      (LineEffectOf(h, data[..i]).Next? ==> LinesFit(LineEffectOf(h, data[..i]).head, data[i + 2..]))
  {
    hide SkipJunk, LineEffectOf, Find;
  }

  /** If the lines of the whole head fit, the partial line never outgrows the buffer. */
  lemma {:induction false} PartialFits(h: Head, a: string, b: string)
    requires h.status != Term && RunHead(h, a).More? && RunHead(h, a + b).Done? && LinesFit(h, a + b)
    ensures RunHead(h, a).head.status == Ongoing ==> |RunHead(h, a).partial| <= BUFFER_SIZE
    decreases |a|, h.status == New
  {
    hide RunHead, SkipJunk, LineEnd, LineEffectOf, LinesFit;
    LinesFitStep(h, a + b);
    if h.status == New {
      RunNew(h, a);
      RunNew(h, a + b);
      SkipJunkAppend(a, b);
      if SkipJunk(a) != "" { PartialFits(h.(status := RLine), SkipJunk(a), b); }
    } else {
      RunLine(h, a);
      RunLine(h, a + b);
      if LineEnd(a).Some? {
        var i := LineEnd(a).value;
        LineEndPrefix(a, b);
        PartialFits(LineEffectOf(h, a[..i]).head, a[i + 2..], b);
      } else if LineEnd(a + b).Some? {
        LineEndLate(a, b);
      }
    }
  }

  // ----- heads as a client writes them

  function FieldText(f: Field): string { f.0 + ": " + f.1 + CRLF }

  function FieldsText(fields: seq<Field>): string {
    if fields == [] then CRLF else FieldText(fields[0]) + FieldsText(fields[1..])
  }

  function RequestLineText(verb: nat, uri: string, version: string): string
    requires verb < |METHODS|
  {
    METHODS[verb] + " " + uri + " " + version
  }

  function HeadText(verb: nat, uri: string, version: string, fields: seq<Field>): string
    requires verb < |METHODS|
  {
    RequestLineText(verb, uri, version) + CRLF + FieldsText(fields)
  }

  /** A header line that reads back as it was written. */
  predicate FieldWritable(f: Field) {
    && (f.0 != "" ==> f.0[0] !in {' ', '\t'}) && ':' !in f.0
    && (f.1 != "" ==> f.1[0] !in {' ', '\t'})
    && |f.0 + ": " + f.1| < BUFFER_SIZE
    && LineEnd(f.0 + ": " + f.1).None?
  }

  predicate UriWritable(uri: string) {
    && uri != "" && |uri| <= BUFFER_SIZE - 20
    && (forall i :: 0 <= i < |uri| ==> uri[i] !in {' ', '\t', '\r'})
  }

  predicate VersionWritable(version: string) { version == "HTTP/1.0" || version == "HTTP/1.1" }

  /** A header line: its name is what stands between leading blanks and the first colon,
      its value what follows the blanks behind the colon. It is refused without a colon, and
      with more than 4000 bytes behind it. */
  lemma FieldLineRead(pad: string, name: string, gap: string, value: string)
    requires (forall c :: c in pad ==> c in {' ', '\t'}) && forall c :: c in gap ==> c in {' ', '\t'}
    requires (name != "" ==> name[0] !in {' ', '\t'}) && (value != "" ==> value[0] !in {' ', '\t'})
    requires ':' !in name
    ensures ParseField(pad + name + ":" + gap + value) ==
            if |gap| + |value| > 4000 then Refused(431) else Accepted(name, value)
    ensures ParseField(pad + name) == Refused(400)
  {
    hide *;
    var line, raw := pad + name + ":" + gap + value, gap + value;
    Trimmed(pad, name + ":" + raw);
    Trimmed(pad, name);
    Trimmed(gap, value);
    assert line == pad + (name + ":" + raw);
    ColonFound(name, raw);
    NoColon(name);
    FieldIs(line, name, raw);
    FieldIsNot(pad + name);
  }

  lemma FieldIs(line: string, name: string, raw: string)
    requires Trim(line) == name + ":" + raw && Find(name + ":" + raw, ":", 0) == Some(|name|)
    ensures ParseField(line) == if |raw| > 4000 then Refused(431) else Accepted(name, Trim(raw))
  {
    hide Find, Trim;
    var t := name + ":" + raw;
    assert t[..|name|] == name && t[|name| + 1..] == raw;
  }

  lemma FieldIsNot(line: string)
    requires Find(Trim(line), ":", 0).None?
    ensures ParseField(line) == Refused(400)
  {
    hide Find, Trim;
  }

  lemma Trimmed(pad: string, s: string)
    requires (forall c :: c in pad ==> c in {' ', '\t'}) && (s != "" ==> s[0] !in {' ', '\t'})
    ensures Trim(pad + s) == s
  {
    hide SkipBlanks;
    var text := pad + s;
    forall k | 0 <= k < |pad| ensures IsBlank(text[k]) { assert text[k] == pad[k] && pad[k] in pad; }
    SkipBlanksIs(text, 0, |pad|);
  }

  lemma NoColon(s: string)
    requires ':' !in s
    ensures Find(s, ":", 0).None?
  {
    hide Find, OccursAt;
    FoundColon(s);
  }

  lemma FieldReadsBack(f: Field)
    requires FieldWritable(f)
    ensures ParseField(f.0 + ": " + f.1) == Accepted(f.0, f.1)
  {
    hide LineEnd, ParseField;
    FieldLineRead("", f.0, " ", f.1);
    assert "" + f.0 + ":" + " " + f.1 == f.0 + ": " + f.1;
  }

  lemma ColonFound(name: string, tail: string)
    requires ':' !in name
    ensures Find(name + ":" + tail, ":", 0) == Some(|name|)
  {
    hide OccursAt, Find;
    var line := name + ":" + tail;
    OccursMiddle(name, ":", tail);
    FindLeast(line, ":", 0, |name|);
    var i := Find(line, ":", 0).value;
    FoundColon(line);
    assert forall k :: 0 <= k < |name| ==> line[k] == name[k];
  }

  lemma FoundColon(s: string)
    ensures Find(s, ":", 0).Some? ==> Find(s, ":", 0).value < |s| && s[Find(s, ":", 0).value] == ':'
  {
    hide OccursAt, Find;
    var f := Find(s, ":", 0);
    if f.Some? { OccursFirst(s, ":", f.value); }
  }

  lemma LineReadsBack(h: Head, verb: nat, uri: string, version: string)
    requires verb < |METHODS| && UriWritable(uri) && VersionWritable(version)
    ensures var line := RequestLineText(verb, uri, version);
            && ApplyLine(h, line) == (h.(verb := verb, uri := uri), 0)
            && |line| <= BUFFER_SIZE && LineEnd(line).None? && IsAlpha(line[0])
  {
    hide LineEnd, ApplyLine, VersionAccepted;
    var name := METHODS[verb];
    VerbText(verb);
    var line := RequestLineText(verb, uri, version);
    assert line == name + " " + uri + " " + version;
    LineCodes(h, name, " ", uri, version);
    assert line[0] == name[0];
    forall k | 0 <= k < |line| ensures line[k] != '\r' {
      if k < |name| { assert line[k] == name[k]; }
      else if |name| < k <= |name| + |uri| { assert line[k] == uri[k - |name| - 1]; }
      else if k > |name| + |uri| + 1 { assert line[k] == version[k - |name| - |uri| - 2]; }
    }
    NoCr(line);
  }

  /** What a request line is refused for: a method that is not one of the five, and then a
      version that is not one of two. */
  lemma LineCodes(h: Head, m: string, gap: string, uri: string, v: string)
    requires forall c :: c in m + uri ==> c !in {' ', '\t'}
    requires uri != "" && gap != "" && forall c :: c in gap ==> c in {' ', '\t'}
    ensures var (named, code) := ApplyLine(h, m + gap + uri + " " + v);
            && code == (if m !in ["GET", "POST", "PUT", "DELETE", "HEAD"] then 501
                        else if v in ["HTTP/1.0", "HTTP/1.1"] then 0 else 505)
            && (code != 501 ==>
                  && 0 <= named.verb < 5 && m == ["GET", "POST", "PUT", "DELETE", "HEAD"][named.verb]
                  && named == h.(verb := named.verb, uri := uri))
  {
    hide SkipBlanks, NextBlank, MethodIndex, VersionAccepted;
    LineShape(m, gap, uri, v);
    MethodKnown(m);
    VersionKnown(v);
  }

  /** A request line of more than 4000 bytes is refused whatever it says. */
  lemma LongLine(h: Head, line: string, rest: string)
    requires h.status == RLine && LineEnd(line).None? && |line| > 4000
    ensures RunHead(h, line + CRLF + rest) == Failed(h, 414, rest)
  {
    hide RunHead, LineEnd, ApplyLine;
    var data := line + CRLF + rest;
    LineEndOf(line, rest);
    RunLine(h, data);
    assert data[..|line|] == line && data[|line| + 2..] == rest;
  }

  lemma MethodKnown(m: string)
    ensures MethodIndex(m) >= 0 <==> m in ["GET", "POST", "PUT", "DELETE", "HEAD"]
    ensures MethodIndex(m) >= 0 ==> ["GET", "POST", "PUT", "DELETE", "HEAD"][MethodIndex(m)] == m
  {
  }

  lemma VersionKnown(v: string)
    ensures VersionAccepted(v) <==> v in ["HTTP/1.0", "HTTP/1.1"]
  {
    hide OccursAt, Find;
    var f := Find(v, "HTTP/", 0);
    if |v| >= 8 && f == Some(0) {
      assert v == v[0..5] + v[5..];
      HttpFirst(v);
    }
    if v == "HTTP/1.0" || v == "HTTP/1.1" { HttpFound(v); }
  }

  lemma HttpFirst(v: string)
    ensures OccursAt(v, "HTTP/", 0) ==> |v| >= 5 && v[0..5] == "HTTP/"
  {
  }

  lemma HttpFound(v: string)
    requires v == "HTTP/1.0" || v == "HTTP/1.1"
    ensures Find(v, "HTTP/", 0) == Some(0) && |v| == 8 && v[5..] == v[5..8]
  {
    assert v[0..5] == "HTTP/";
  }

  lemma LineShape(m: string, gap: string, uri: string, v: string)
    requires forall c :: c in m + uri ==> c !in {' ', '\t'}
    requires uri != "" && gap != "" && forall c :: c in gap ==> c in {' ', '\t'}
    ensures var line := m + gap + uri + " " + v;
            var i := |m| + |gap|;
            var r := i + |uri|;
            && NextBlank(line, 0) == |m| && line[..|m|] == m
            && SkipBlanks(line, |m|) == i
            && NextBlank(line, i) == r < |line| && line[i..r] == uri && line[r + 1..] == v
  {
    hide SkipBlanks, NextBlank;
    var line := m + gap + uri + " " + v;
    var i := |m| + |gap|;
    var r := i + |uri|;
    forall k | 0 <= k < |m| ensures !IsBlank(line[k]) { assert line[k] == m[k] && m[k] in m + uri; }
    forall k | |m| <= k < i ensures IsBlank(line[k]) { assert line[k] == gap[k - |m|] && gap[k - |m|] in gap; }
    forall k | i <= k < r ensures !IsBlank(line[k]) { assert line[k] == uri[k - i] && uri[k - i] in m + uri; }
    assert IsBlank(line[r]);
    NextBlankIs(line, 0, |m|);
    SkipBlanksIs(line, |m|, i);
    NextBlankIs(line, i, r);
  }

  lemma VerbText(verb: nat)
    requires verb < |METHODS|
    ensures MethodIndex(METHODS[verb]) == verb && 0 < |METHODS[verb]| < 8 && IsAlpha(METHODS[verb][0])
    ensures forall k :: 0 <= k < |METHODS[verb]| ==> !IsBlank(METHODS[verb][k]) && METHODS[verb][k] != '\r'
  {
  }

  lemma NoCr(s: string)
    requires forall k :: 0 <= k < |s| ==> s[k] != '\r'
    ensures LineEnd(s).None?
  {
    hide OccursAt;
    var f := LineEnd(s);
    CrlfAt(s, if f.Some? then f.value else 0);
  }

  lemma {:induction false} FieldsReadBack(h: Head, fields: seq<Field>, rest: string)
    requires h.status == Ongoing && forall f :: f in fields ==> FieldWritable(f)
    ensures RunHead(h, FieldsText(fields) + rest) ==
            Done(h.(status := Term, headers := AddAll(h.headers, fields)), rest)
    decreases |fields|
  {
    hide RunHead, LineEnd, ParseField, FieldWritable, AddHeader;
    var data := FieldsText(fields) + rest;
    RunLine(h, data);
    if fields == [] {
      assert data == "" + CRLF + rest;
      NoCr("");
      LineEndOf("", rest);
      assert data[..0] == "" && data[2..] == rest;
    } else {
      var f, tail := fields[0], FieldsText(fields[1..]) + rest;
      var line := f.0 + ": " + f.1;
      assert f in fields;
      WritableLine(f);
      assert data == line + CRLF + tail;
      LineEndOf(line, tail);
      assert data[..|line|] == line && data[|line| + 2..] == tail;
      FieldReadsBack(f);
      var h' := h.(headers := AddHeader(h.headers, f.0, f.1));
      FieldsReadBack(h', fields[1..], rest);
      AddAllFront(h.headers, fields);
    }
  }

  lemma WritableLine(f: Field)
    requires FieldWritable(f)
    ensures LineEnd(f.0 + ": " + f.1).None?
  {
  }

  lemma {:induction false} AddAllFront(h: Headers, fields: seq<Field>)
    requires fields != []
    ensures AddAll(h, fields) == AddAll(AddHeader(h, fields[0].0, fields[0].1), fields[1..])
  {
    hide AddHeader;
    var init := fields[..|fields| - 1];
    if |fields| == 1 {
      assert init == [] && fields[1..] == [];
    } else {
      AddAllFront(h, init);
      var rest, last := fields[1..], fields[|fields| - 1];
      assert rest == init[1..] + [last];
      assert rest[..|rest| - 1] == init[1..];
    }
  }

  /** A head written by a client is read back: same method, URI and header values, and
      exactly the bytes behind its blank line are left. */
  lemma HeadReadsBack(verb: nat, uri: string, version: string, fields: seq<Field>, rest: string)
    requires verb < |METHODS| && UriWritable(uri) && VersionWritable(version)
    requires forall f :: f in fields ==> FieldWritable(f)
    ensures RunHead(FRESH, HeadText(verb, uri, version, fields) + rest) ==
            Done(Head(Term, verb, uri, AddAll(map[], fields)), rest)
  {
    hide RunHead, LineEnd, ApplyLine, FieldWritable, UriWritable, VersionWritable, FieldsText, AddAll;
    var line := RequestLineText(verb, uri, version);
    var tail := FieldsText(fields) + rest;
    var data := HeadText(verb, uri, version, fields) + rest;
    assert data == line + CRLF + tail;
    var h := FRESH.(status := RLine);
    LineReadsBack(h, verb, uri, version);
    assert data[0] == line[0];
    RunNew(FRESH, data);
    RunLine(h, data);
    LineEndOf(line, tail);
    assert data[..|line|] == line && data[|line| + 2..] == tail;
    FieldsReadBack(h.(status := Ongoing, verb := verb, uri := uri), fields, rest);
  }

  lemma {:induction false} FieldLinesFit(h: Head, fields: seq<Field>, rest: string)
    requires h.status == Ongoing && forall f :: f in fields ==> FieldWritable(f)
    ensures LinesFit(h, FieldsText(fields) + rest)
    decreases |fields|
  {
    hide LineEnd, LineEffectOf, LinesFit, FieldWritable;
    var data := FieldsText(fields) + rest;
    if fields == [] {
      assert data == "" + CRLF + rest;
      NoCr("");
      LineEndOf("", rest);
      assert data[..0] == "" && data[2..] == rest;
      LinesFitLast(h, data);
    } else {
      var f, tail := fields[0], FieldsText(fields[1..]) + rest;
      var line := f.0 + ": " + f.1;
      assert f in fields;
      WritableLine(f);
      assert data == line + CRLF + tail;
      LineEndOf(line, tail);
      assert data[..|line|] == line && data[|line| + 2..] == tail;
      FieldEffect(h, f);
      FieldLinesFit(h.(headers := AddHeader(h.headers, f.0, f.1)), fields[1..], rest);
      LinesFitNext(h, data);
    }
  }

  lemma LinesFitLast(h: Head, data: string)
    requires h.status == Ongoing && LineEnd(data) == Some(0) && |data| >= 2
    ensures LinesFit(h, data)
  {
  }

  lemma LinesFitNext(h: Head, data: string)
    requires h.status == RLine || h.status == Ongoing
    requires LineEnd(data).Some? && LineEnd(data).value + 2 <= |data|
    requires h.status == Ongoing ==> LineEnd(data).value < BUFFER_SIZE
    requires var e := LineEffectOf(h, data[..LineEnd(data).value]);
             e.Next? ==> LinesFit(e.head, data[LineEnd(data).value + 2..])
    ensures LinesFit(h, data)
  {
    hide LineEffectOf, Find;
  }

  lemma FieldEffect(h: Head, f: Field)
    requires h.status == Ongoing && FieldWritable(f)
    ensures LineEffectOf(h, f.0 + ": " + f.1) == Next(h.(headers := AddHeader(h.headers, f.0, f.1)))
    ensures |f.0 + ": " + f.1| < BUFFER_SIZE
  {
    hide ParseField, AddHeader;
    FieldReadsBack(f);
    assert (f.0 + ": " + f.1)[|f.0|] == ':';
  }

  lemma HeadLinesFit(verb: nat, uri: string, version: string, fields: seq<Field>, rest: string)
    requires verb < |METHODS| && UriWritable(uri) && VersionWritable(version)
    requires forall f :: f in fields ==> FieldWritable(f)
    ensures LinesFit(FRESH, HeadText(verb, uri, version, fields) + rest)
    ensures SkipJunk(HeadText(verb, uri, version, fields) + rest) == HeadText(verb, uri, version, fields) + rest
  {
    hide LineEnd, ApplyLine, FieldWritable, UriWritable, VersionWritable, FieldsText, LinesFit;
    var line := RequestLineText(verb, uri, version);
    var tail := FieldsText(fields) + rest;
    var data := HeadText(verb, uri, version, fields) + rest;
    assert data == line + CRLF + tail;
    var h := FRESH.(status := RLine);
    LineReadsBack(h, verb, uri, version);
    assert data[0] == line[0];
    LineEndOf(line, tail);
    assert data[..|line|] == line && data[|line| + 2..] == tail;
    FieldLinesFit(h.(status := Ongoing, verb := verb, uri := uri), fields, rest);
    LinesFitNext(h, data);
    LinesFitFresh(FRESH, data);
  }

  lemma LinesFitFresh(h: Head, data: string)
    requires h.status == New && data != "" && IsAlpha(data[0]) && LinesFit(h.(status := RLine), data)
    ensures LinesFit(h, data) && SkipJunk(data) == data
  {
  }
}
