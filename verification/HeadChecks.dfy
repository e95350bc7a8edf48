/** What the checks on a head (srcs/IControl.cpp, srcs/Request.cpp) mean for the header
    lines and the URI as a client writes them. */
module HeadChecks {
  import opened Text
  import opened Numbers
  import opened HeaderNames
  import opened HeadParsing
  import opened Messages
  import Paths

  // ----- values

  /** `v` is the value of a name, but for empty values in front of it. */
  predicate Only(values: seq<string>, v: string) {
    values != [] && values[|values| - 1] == v && forall i :: 0 <= i < |values| - 1 ==> values[i] == ""
  }

  predicate AllEmpty(values: seq<string>) { forall v :: v in values ==> v == "" }

  lemma JoinedIs(values: seq<string>, v: string)
    requires v != "" && ',' !in v
    ensures CommaJoin(DropEmpty(values)) == v <==> Only(values, v)
    ensures CommaJoin(DropEmpty(values)) == "" <==> AllEmpty(values)
  {
    hide DropEmpty, CommaJoin;
    var n := DropShape(values);
    var d := values[n..];
    ShortJoin(d);
    if |d| > 1 {
      JoinFront(d);
      var joined := d[0] + ", " + CommaJoin(d[1..]);
      assert joined[|d[0]|] == ',' && ',' in joined;
      assert values[|values| - 1] == d[|d| - 1] && values[n] in values;
    } else if |d| == 1 {
      assert n == |values| - 1 && values[n] in values;
    }
  }

  lemma ShortJoin(d: seq<string>)
    ensures |d| < 2 ==> CommaJoin(d) == if d == [] then "" else d[0]
  {
  }

  lemma GivenIs(fields: seq<Field>, key: string, v: string)
    requires v != "" && ',' !in v
    ensures var h := AddAll(map[], fields);
            && (GetHeader(h, key) == v <==> Only(ValuesOf(fields, key), v))
            && (GetHeader(h, key) == "" <==> AllEmpty(ValuesOf(fields, key)))
            && (CheckHeader(h, key) <==> ValuesOf(fields, key) != [])
  {
    hide *;
    CollectedValue(fields, key);
    JoinedIs(ValuesOf(fields, key), v);
  }

  lemma GivenOnce(fields: seq<Field>, key: string, v: string)
    requires ValuesOf(fields, key) == [v]
    ensures GetHeader(AddAll(map[], fields), key) == v && CheckHeader(AddAll(map[], fields), key)
  {
    hide AddAll, ValuesOf, GetHeader, CheckHeader;
    CollectedValue(fields, key);
  }

  // ----- framing

  /** The lines announce no body, one of this many bytes, or a chunked one. */
  predicate Announces(fields: seq<Field>, framing: Framing) {
    var lengths, codings := ValuesOf(fields, "content-length"), ValuesOf(fields, "transfer-encoding");
    match framing
    case NoBody => codings == [] && (lengths == [] || lengths == ["0"])
    case Sized(n) => codings == [] && 0 < n < 0x8000_0000 && lengths == [Digits(n, 10)]
    case Chunked => Only(codings, "chunked")
  }

  /** What the lines announce is how the body is framed: Transfer-Encoding first, whatever
      Content-Length says. */
  lemma HeadFraming(fields: seq<Field>, framing: Framing)
    requires Announces(fields, framing)
    ensures FramingOf(AddAll(map[], fields)) == framing
  {
    hide ValuesOf, AddAll, GetHeader, CheckHeader, ParseInt, Digits;
    GivenIs(fields, "transfer-encoding", "chunked");
    GivenIs(fields, "content-length", "0");
    if framing != Chunked && ValuesOf(fields, "content-length") != [] {
      var n := if framing.Sized? then framing.n else 0;
      ZeroDigits();
      LengthRead(fields, n);
    }
  }

  lemma ZeroDigits()
    ensures Digits(0, 10) == "0"
  {
  }

  lemma LengthRead(fields: seq<Field>, n: nat)
    requires n < 0x8000_0000 && ValuesOf(fields, "content-length") == [Digits(n, 10)]
    ensures BodyLength(AddAll(map[], fields)) == n && CheckHeader(AddAll(map[], fields), "content-length")
  {
    hide ValuesOf, AddAll, GetHeader, CheckHeader, ParseInt, Digits;
    GivenOnce(fields, "content-length", Digits(n, 10));
    ExactWhenInt32(n);
  }

  /** A length that is no number, such as that of two lines, is taken for none. */
  lemma LengthIgnored(fields: seq<Field>)
    requires ValuesOf(fields, "transfer-encoding") == []
    requires exists i :: 0 <= i < |ValuesOf(fields, "content-length")| - 1 &&
               ValuesOf(fields, "content-length")[i] != ""
    ensures BodyLength(AddAll(map[], fields)) == -1 && FramingOf(AddAll(map[], fields)) == NoBody
  {
    hide ValuesOf, AddAll, GetHeader, CheckHeader, ParseInt, DropEmpty, CommaJoin;
    var values := ValuesOf(fields, "content-length");
    CollectedValue(fields, "content-length");
    GivenIs(fields, "transfer-encoding", "chunked");
    var n := DropShape(values);
    var d := values[n..];
    assert |d| > 1;
    JoinFront(d);
    var joined := d[0] + ", " + CommaJoin(d[1..]);
    assert joined[|d[0]|] == ',';
    CommaIsNoDigit(joined, |d[0]|);
  }

  lemma CommaIsNoDigit(s: string, k: nat)
    requires k < |s| && s[k] == ','
    ensures ParseInt(s, 10) == Invalid
  {
    var i := SkipBlanks(s, 0);
    assert i <= k;
    var signed := i < |s| && (s[i] == '+' || s[i] == '-');
    var digits := if signed then s[i + 1..] else s[i..];
    assert digits[if signed then k - i - 1 else k - i] == ',';
  }

  // ----- refusals

  /** The body limit of the host that the lines name, or of the host taken instead. */
  function LimitFor(site: Site, fields: seq<Field>): int {
    var name := CommaJoin(DropEmpty(ValuesOf(fields, "host")));
    if name in site.limits then site.limits[name] else site.fallback
  }

  /** A body is too long if its length is announced and is above the limit of the host. */
  lemma LengthChecked(site: Site, fields: seq<Field>)
    ensures MaxSize(site, AddAll(map[], fields)) == LimitFor(site, fields)
    ensures ValuesOf(fields, "content-length") == [] ==> !TooLong(site, AddAll(map[], fields))
    ensures forall n: nat :: n < 0x8000_0000 && ValuesOf(fields, "content-length") == [Digits(n, 10)] ==>
              (TooLong(site, AddAll(map[], fields)) <==> n > LimitFor(site, fields))
  {
    hide ValuesOf, AddAll, GetHeader, CheckHeader, BodyLength, Digits, CommaJoin, DropEmpty;
    CollectedValue(fields, "host");
    CollectedValue(fields, "content-length");
    forall n: nat | n < 0x8000_0000 && ValuesOf(fields, "content-length") == [Digits(n, 10)]
      ensures TooLong(site, AddAll(map[], fields)) <==> n > LimitFor(site, fields)
    {
      LengthRead(fields, n);
    }
  }

  /** Codings and ranges that the server serves. */
  predicate Served(fields: seq<Field>) {
    && AllEmpty(ValuesOf(fields, "accept-ranges"))
    && var content, transfer := ValuesOf(fields, "content-encoding"), ValuesOf(fields, "transfer-encoding");
       && (content == [] || Only(content, "identity"))
       && (transfer == [] || Only(transfer, "chunked"))
  }

  /** The status that refuses a head, in the order in which the checks are made. */
  lemma HeadRefused(site: Site, head: Head, fields: seq<Field>)
    requires head.headers == AddAll(map[], fields)
    ensures CheckFields(head) ==
            if ValuesOf(fields, "host") == [] then 400
            else if !UriAccepted(head.uri) then 400
            else if !AllEmpty(ValuesOf(fields, "accept-ranges")) then 501
            else if !(ValuesOf(fields, "content-encoding") == [] ||
                      Only(ValuesOf(fields, "content-encoding"), "identity")) then 415
            else if !(ValuesOf(fields, "transfer-encoding") == [] ||
                      Only(ValuesOf(fields, "transfer-encoding"), "chunked")) then 501
            else 0
    ensures CheckHead(site, head) == 0 <==>
            ValuesOf(fields, "host") != [] && UriAccepted(head.uri) && Served(fields) && !TooLong(site, head.headers)
    ensures CheckHead(site, head) == 413 <==>
            ValuesOf(fields, "host") != [] && UriAccepted(head.uri) && Served(fields) && TooLong(site, head.headers)
  {
    hide ValuesOf, AddAll, GetHeader, CheckHeader, UriAccepted, TooLong, Only, AllEmpty;
    GivenIs(fields, "host", "x");
    GivenIs(fields, "accept-ranges", "x");
    GivenIs(fields, "content-encoding", "identity");
    GivenIs(fields, "transfer-encoding", "chunked");
  }

  /** A client waits for the 100 line if Expect says so and nothing else. */
  lemma Expectation(fields: seq<Field>)
    ensures Expects(AddAll(map[], fields)) <==> !AllEmpty(ValuesOf(fields, "expect"))
    ensures AsksFirst(AddAll(map[], fields)) <==> Only(ValuesOf(fields, "expect"), "100-continue")
  {
    hide ValuesOf, AddAll, GetHeader, CheckHeader, Only, AllEmpty;
    GivenIs(fields, "expect", "100-continue");
  }

  // ----- the URI

  lemma FirstAt(a: string, c: char, b: string)
    requires c !in a
    ensures Find(a + [c] + b, [c], 0) == Some(|a|)
  {
    hide OccursAt, Find;
    var s := a + [c] + b;
    OccursMiddle(a, [c], b);
    FindLeast(s, [c], 0, |a|);
    var i := Find(s, [c], 0).value;
    OccursFirst(s, [c], i);
  }

  lemma NotThere(s: string, c: char)
    requires c !in s
    ensures Find(s, [c], 0).None?
  {
    hide OccursAt, Find;
    var f := Find(s, [c], 0);
    if f.Some? { OccursFirst(s, [c], f.value); }
  }

  /** The path is what stands between the first slash behind the authority and the query. */
  lemma PathPart(user: Option<string>, authority: string, path: string, tail: string)
    requires UriParts(user, authority, path, tail)
    ensures ExtractPath(PruneDelim(PruneDelim(UriText(user, authority, path, tail), "@"), "/")) == path
  {
    hide Find;
    var u := authority + "/" + (path + tail);
    UserPruned(user, authority, path, tail);
    FirstAt(authority, '/', path + tail);
    assert authority + ['/'] + (path + tail) == u && u[|authority| + 1..] == path + tail;
    if tail == "" {
      assert path + tail == path;
      NotThere(path, '?');
    } else {
      FirstAt(path, '?', tail[1..]);
      assert path + ['?'] + tail[1..] == path + tail;
      assert (path + tail)[..|path|] == path;
    }
  }

  /** Everything up to the first `@` is dropped, wherever it stands. */
  lemma UserPruned(user: Option<string>, authority: string, path: string, tail: string)
    requires UriParts(user, authority, path, tail)
    ensures PruneDelim(UriText(user, authority, path, tail), "@") == authority + "/" + (path + tail)
  {
    hide Find;
    var u := authority + "/" + (path + tail);
    match user
    case None =>
      assert forall c :: c in u ==> c == '/' || c in authority + path + tail;
      assert "" + u == u;
      NotThere(u, '@');
    case Some(name) =>
      FirstAt(name, '@', u);
      assert name + ['@'] + u == name + "@" + u && (name + "@" + u)[|name| + 1..] == u;
  }

  /** The parts of a URI behind its scheme. */
  predicate UriParts(user: Option<string>, authority: string, path: string, tail: string) {
    && '/' !in authority && '?' !in path && path + tail != "" && (tail == "" || tail[0] == '?')
    && (if user.Some? then '@' !in user.value else '@' !in authority + path + tail)
  }

  function UriText(user: Option<string>, authority: string, path: string, tail: string): string {
    (if user.Some? then user.value + "@" else "") + (authority + "/" + (path + tail))
  }

  /** A path or a whole http URI, with or without a query, is accepted if and only if no
      prefix of its directory part has more `..` than ordinary segments. */
  lemma UriForms(prefix: string, user: Option<string>, authority: string, path: string, tail: string)
    requires (prefix == "" || prefix == "http://") && UriParts(user, authority, path, tail)
    requires prefix == "" ==> forall k: nat :: !OccursAt(UriText(user, authority, path, tail), "://", k)
    ensures var segs := Paths.Segments(Paths.Cleaned(path));
            UriAccepted(prefix + UriText(user, authority, path, tail)) <==>
            forall k :: 0 <= k < |segs| ==> Paths.StaysBelow(segs, k)
  {
    hide *;
    var u := UriText(user, authority, path, tail);
    PathPart(user, authority, path, tail);
    Paths.PathReduction(path);
    if prefix == "" {
      assert prefix + u == u;
      NoScheme(u);
    } else {
      HttpScheme(u);
    }
    AcceptedIs(prefix + u);
  }

  lemma AcceptedIs(uri: string)
    ensures UriAccepted(uri) ==
            match PruneScheme(uri)
            case None => false
            case Some(u) =>
              var path := ExtractPath(PruneDelim(PruneDelim(u, "@"), "/"));
              Paths.Reduce([], Paths.Segments(Paths.Cleaned(path))).Reduced?
  {
    hide PruneScheme, ExtractPath, PruneDelim, Paths.Reduce, Paths.Segments, Paths.Cleaned;
  }

  lemma NoScheme(u: string)
    requires forall k: nat :: !OccursAt(u, "://", k)
    ensures PruneScheme(u) == Some(u)
  {
    hide OccursAt, Find;
  }

  lemma HttpScheme(u: string)
    ensures PruneScheme("http://" + u) == Some(u)
  {
    hide OccursAt, Find;
    SchemeAt("http", u);
    assert "http" + "://" + u == "http://" + u;
    assert ("http://" + u)[..7] == "http://" && ("http://" + u)[7..] == u;
  }

  lemma SchemeAt(scheme: string, rest: string)
    requires ':' !in scheme
    ensures Find(scheme + "://" + rest, "://", 0) == Some(|scheme|)
  {
    hide OccursAt, Find;
    var s := scheme + "://" + rest;
    OccursMiddle(scheme, "://", rest);
    FindLeast(s, "://", 0, |scheme|);
    var i := Find(s, "://", 0).value;
    OccursFirst(s, "://", i);
  }

  /** Any other text in front of the first `://` is refused, also where it is in a query. */
  lemma OtherScheme(scheme: string, rest: string)
    requires ':' !in scheme
    ensures scheme != "http" ==> !UriAccepted(scheme + "://" + rest)
  {
    hide OccursAt, Find, Paths.Reduce, Paths.Segments, Paths.Cleaned, ExtractPath, PruneDelim;
    SchemeAt(scheme, rest);
    var uri := scheme + "://" + rest;
    assert uri[..|scheme|] == scheme && "http://"[..4] == "http";
    if uri[..|scheme| + 3] == "http://" { assert |scheme| == 4 && uri[..|scheme| + 3][..4] == scheme; }
  }

  /** The root is a path. */
  lemma RootAccepted()
    ensures UriAccepted("/")
  {
    hide OccursAt, Find, Paths.Segments;
    NotThere("/", ':');
    NotThere("/", '@');
    NotThere("/", '?');
    FirstAt("", '/', "");
    assert "" + ['/'] + "" == "/";
    forall k: nat ensures !OccursAt("/", "://", k) { OccursFirst("/", "://", k); }
    NoScheme("/");
    SlashIsClean();
    Paths.SegmentsJoin(["", ""]);
    assert Paths.Join(["", ""]) == "/";
  }

  lemma SlashIsClean()
    ensures Paths.Cleaned("/") == "/"
  {
    assert "/"[1..] == "";
    assert Paths.Collapse("/") == ['/'] + Paths.Collapse("") == "/";
    assert Paths.DropDots("/") == ['/'] + Paths.DropDots("");
  }
}
