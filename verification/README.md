# A model of the web server

A Dafny model of an HTTP/1.1 server and proofs about it. Each module follows one part
of the program.

- `Text`, `Numbers`: the searches of `std::string` that the server uses, and its number
  reader and printer.
- `Wildcard`: the matcher for locations with stars and the choice of the best match.
  `Closeness` says of the expressions themselves which of two is the closer one.
- `Paths`, `Percent`: reduction of dot segments and percent decoding, both in place.
- `HeaderNames`: the order of header names and the collection of their values.
- `HeadParsing`, `BodyParsing`, `Messages`, `Pipelining`: what the request parser makes
  of a stream of bytes, as functions of the whole stream. `Requests` holds the resumable
  parser itself, proved against them. `HeadChecks` says what the checks on a head mean
  for the header lines and the URI as a client writes them.
- `Clients`: one connection with the handlers of its events. Ghost fields record the
  bytes received, the requests completed, the responses installed and the pieces sent;
  the invariant ties the state to that record, and `Run` states what holds over any run.
  `Verdict` is the status that is due for the bytes of a request, and `Due` the same from
  the middle of a request on.
- `Maps`, `Registry`: sorted maps with the iterator over distinct values, and the lists
  of servers, hosts and clients.
- `Config`, `ConfigText`, `ConfigBlocks`: the two scanners of the configuration file;
  texts with comments and quotes as they are written; the reading of nested blocks, when
  it ends, and a printer.
- `Responses`: the pieces of the output queue and what a client reads from them;
  `Exchanges` puts them on the wire of a connection.

Strings are sequences of characters that stand for bytes. What the program asks of its
surroundings is a parameter: the verdict of the host on a request, the pieces of a
response, the outcome of a CGI, whether a socket, a file or a process could be had. A
body stream is the sequence of bytes written to it. A socket write is complete, because
the piece is dropped whatever the result of the write is.

Where the code differs from its documentation or from a standard, the model follows the
code, and a lemma says exactly when they agree:

- the greedy matcher against the glob meaning: `Wildcard.GreedyMatchesGlob`;
- the choice of a location: the longest prefix that matches is not always the one chosen
  (`Closeness.LongestPrefixChosen`, `Closeness.RepeatedPrefix`), and a star in front of
  the URI itself beats the URI (`Closeness.ItselfIsClosest`);
- the percent decoder against section 2.1 of RFC 3986: `Percent.LaxEscapesDiffer`;
- the path reduction against section 5.2.4 of RFC 3986: a last `.` or `..` is kept as it
  is, and of a leading `././` only one half is dropped (`Paths.AgreesWithStandard`);
- URIs: one is refused for a `://` in its query, and cut at its first `@`
  (`HeadChecks.OtherScheme`, `HeadChecks.UriForms`);
- several Content-Length values are taken for none (`HeadChecks.LengthIgnored`);
- the chunk reader, which takes a chunk for one line, against section 3.6.1 of RFC 2616:
  `BodyParsing.ChunksExactly`;
- when the body of a request that asks for the 100 line comes with its head, the 100 line
  is all the client gets for it (`Clients.Client.OnInput`);
- a local redirect of a CGI to what is no CGI is answered with the status 0
  (`Clients.Client.Redirect`), and a header line without a colon in the output of a CGI
  leaves a client that writes with nothing to write (`Clients.Client.CgiEnded`);
- the brace counter of the configuration takes no notice of comments
  (`ConfigText.BraceInComment`), and a comment right behind a word joins it to the next
  one (`ConfigText.CommentInWord`);
- a keyword that is the last thing in a block makes the configuration reader scan an old
  line again, and it may never end: `ConfigBlocks.EndsOrRunsOn` says exactly when it does,
  `ConfigBlocks.RescanComesBack` when one such scan leads back to itself, and
  `ConfigBlocks.NeverEnds` which texts of a host are affected;
  `ConfigBlocks.TwoEndlessTexts` shows two of them.

The class `Client` of the program appears twice: `Clients.Client` follows one connection,
`Registry.Client` is the same object seen from the lists of servers and hosts. The table
of body limits by host name in `Clients.Client` and the host that
`Registry.Client.SetHost` looks up by the same name are not connected.

A client is on the plain path until a request is refused, times out, or asks for a 100
line. The theorems about whole streams are stated for the plain path; the invariants of
`Clients.Client.Valid` hold on every path.

## Model

| member | source | states |
|---|---|---|
| Numbers.GetInt | srcs/format.cpp:20-48 | succeeds exactly when the text, after blanks and one optional sign, is a non-empty run of digits of the base whose value fits a 64-bit long; the result is that value narrowed to 32 bits, is stored even when the range is exceeded and is untouched on a syntax error |
| Numbers.DigitsValue | srcs/format.cpp:51-58 | the digits printed for a number have that number as their value |
| Numbers.RoundTrip | srcs/format.cpp:20-58 | reading back what IntToString prints gives the number, for every 32-bit integer in base 10 and 16, also negative ones in base 16, which print as unsigned and wrap back when they are narrowed |
| Numbers.ExactWhenInt32 | srcs/format.cpp:44-47 | a decimal number is read as itself exactly if it is below 2^31; larger ones are narrowed without an error |
| Wildcard.Tokenize | srcs/format.cpp:89-105 | the loop over indices computes the pieces of the expression up to its first NUL |
| Wildcard.TokensPartition | srcs/format.cpp:89-105 | the pieces concatenate to the expression, none is empty, and no two literals are adjacent |
| Wildcard.IsMatch | srcs/format.cpp:107-138 | the loop with its shared position and iterator decides the recursive matcher, an empty list of pieces never matches |
| Wildcard.MatchSound | srcs/format.cpp:107-138 | from any position, whatever the matcher accepts is a match of the glob meaning of the expression (a star stands for any text), for every expression |
| Wildcard.MatchComplete | srcs/format.cpp:107-138 | leftmost placement misses no match of an expression without `**` that has no star or ends in one: if the pieces fit anywhere at or after a position, the matcher started at or before it succeeds |
| Wildcard.MissedUri | srcs/format.cpp:107-138 | every other expression has a URI that is a glob match and is rejected; the lemma computes one |
| Wildcard.GreedyMatchesGlob | srcs/format.cpp:107-138 | the matcher is sound for every expression, and complete if and only if the expression is non-empty, has no `**`, and has no star or ends in one |
| Wildcard.IsUriMatch | srcs/format.cpp:146-185 | true exactly if the expression matches and, when a previous match is given, is closer than that |
| Wildcard.CompareTokens | srcs/format.cpp:157-184 | the loop from the last pieces backwards, with its shrinking copy of the URI, computes the comparison whose meaning the lemmas of Closeness give |
| Wildcard.MatchLocated | srcs/format.cpp:168-178 | for an expression that matches, every rfind on the shortened URI succeeds, so no npos is ever narrowed or passed on |
| Wildcard.KeyDeterminesTokens | srcs/format.cpp:157-184 | two expressions with equal keys for one URI have the same pieces |
| Wildcard.CloserIsStrictTotalOrder | srcs/format.cpp:146-185 | among the expressions that match one URI the comparison is irreflexive, transitive and total |
| Wildcard.GetObjectMatch | includes/Host.hpp:163-176 | the fold over the map gives no object exactly if no expression matches, else the object of the one expression that is closer than every other match; for locations that are prefixes Closeness.LongestPrefixChosen says which one that is |
| Wildcard.ChoiceIgnoresOrder | includes/Host.hpp:163-176 | two orders of walking the same map choose the same entry |
| Closeness.LiteralTails | srcs/format.cpp:157-184 | of two expressions that end in literals the one whose last occurrence in the URI ends further to the right is closer, then the one with the longer literal; with the same literal, what stands in front of it decides, in what stands in front of its last occurrence |
| Closeness.LiteralBeatsStar | srcs/format.cpp:157-184 | an expression that ends in a literal is closer than one that ends in a star |
| Closeness.StarTails | srcs/format.cpp:157-184 | a star at the end of both decides nothing; with the two rows above and the next this determines the comparison |
| Closeness.NothingIsLast | srcs/format.cpp:157-184 | an expression is closer than the empty one, and the empty one is never closer |
| Closeness.PrefixOrder | srcs/format.cpp:157-184 | of two prefixes of the URI, each with a star behind it, the longer one is closer if and only if the shorter one does not occur again in the URI so as to end behind the last occurrence of the longer one |
| Closeness.LongestPrefixChosen | includes/Host.hpp:163-176 | among locations that are prefixes, the longest one that matches is the closest, the one that getObjectMatch returns, if and only if none of the shorter ones occurs again behind it |
| Closeness.NestedLocation | srcs/format.cpp:169-172 | `img/icons/*` is closer than `img/*` for `img/icons/a.png` |
| Closeness.RepeatedPrefix | srcs/format.cpp:168-172 | the longer prefix need not win: for `ab/a` the location `a*` is closer than `ab*`, because rfind finds the last `a` |
| Closeness.LongerTail | srcs/format.cpp:157-184 | of two matching expressions that end in literals the one with the longer last literal is closer |
| Closeness.ItselfIsClosest | srcs/format.cpp:157-184 | the URI itself, taken as an expression, is closer than any other match if and only if that is not the URI with one star in front |
| Closeness.StarredItself | srcs/format.cpp:157-184 | and that one does match and is closer |
| Paths.ParsedUri.CheckPath | srcs/Request.cpp:528-559 | 1 and no path built if the reduction climbs above the root, else 0 and the path is the reduced segments joined by slashes; all loops end |
| Paths.ParsedUri.EraseRuns | srcs/Request.cpp:536-537 | erasing one slash of the leftmost `//` until none is left collapses every run of slashes |
| Paths.ParsedUri.EraseDots | srcs/Request.cpp:538-539 | erasing the leftmost `/./` until none is left drops every inner `.` segment |
| Paths.ParsedUri.ReduceSegments | srcs/Request.cpp:540-554 | the loop that cuts segments off the path computes the stack reduction of its segments |
| Paths.ReduceSucceeds | srcs/Request.cpp:541-552 | the reduction succeeds exactly if no prefix of the segments before the last has more `..` than the ordinary segments and the stack so far |
| Paths.ReduceFromRight | srcs/Request.cpp:541-559 | the stack reduction equals an independent reading from the right in which every `..` cancels the next ordinary segment |
| Paths.PathReduction | srcs/Request.cpp:528-559 | success exactly if no prefix of the directory part climbs; then the result is the reading from the right followed by the last segment as it is, splits back into the same segments, holds no `//` and no `/./`, and holds `..` at most as its last segment |
| Paths.AgreesWithStandard | srcs/Request.cpp:534-559 | for a path that does not climb and has no empty segment but the last, the result is that of remove_dot_segments (section 5.2.4 of RFC 3986) if and only if the last segment is neither `.` nor `..` and the path does not start with `././` |
| Percent.TranslatePercent | srcs/Request.cpp:627-645 | the in-place loop, with its wrapping `len - 2`, computes one left-to-right pass that never looks at its own output again, never lengthens the text, and ends |
| Percent.DecodeEncode | srcs/Request.cpp:627-645 | decoding undoes encoding for any text when every `%` and any further chosen bytes are written as `%HH` in either letter case |
| Percent.DecodeIsStrict | srcs/Request.cpp:637-641 | against a decoder that follows section 2.1 of RFC 3986: never longer, equal when no percent sign is followed by a blank or a sign and one hex digit, which getInt accepts, and strictly shorter when one is |
| Percent.LaxEscapesDiffer | srcs/Request.cpp:637-641 | a text decodes as the standard says if and only if no position holds such a lax escape |
| HeaderNames.Stricmp | includes/Request.hpp:63-70 | the sign of the first difference of the two C strings, letter case folded |
| HeaderNames.NameOrder | includes/Request.hpp:57-74 | i_less is a strict weak order, and NUL-free names are equivalent exactly if they are of equal length and at each position hold the same character or the two cases of one of the 26 letters |
| HeaderNames.CollectedValue | srcs/Request.cpp:189-213 | after any sequence of header lines in any letter case the value under a name is the arrival-order list of its values joined by `, `, leading empty ones dropped; the name is present exactly if a line gave it |
| HeaderNames.DropShape | srcs/Request.cpp:205-213 | the values without a trace are exactly the empty ones in front of the first that is not empty |
| HeaderNames.JoinFront | srcs/Request.cpp:210-213 | joining from the front gives the same text |
| HeadParsing.RunHeadResumes | srcs/Request.cpp:158-216 | cutting the bytes of a head anywhere, also between CR and LF, changes neither the lines read nor what is left |
| HeadParsing.RunHeadCodes | srcs/Request.cpp:138-204 | a refused head has a status of 400 or more, or is the std::out_of_range that substr throws |
| HeadParsing.LineCodes | srcs/Request.cpp:113-156 | the line of a word, blanks, a URI, a blank and any text: 501 if and only if the word is none of the five methods, else 0 if and only if the text is HTTP/1.0 or HTTP/1.1, else 505; the method is numbered in the order GET, POST, PUT, DELETE, HEAD |
| HeadParsing.LongLine | srcs/Request.cpp:178-183 | a request line of more than 4000 bytes is refused with 414 whatever it says |
| HeadParsing.FieldLineRead | srcs/Request.cpp:200-209 | a header line between blanks and tabs: the name up to its first colon, the value behind it without leading blanks; 431 if and only if more than 4000 bytes follow the colon, 400 without a colon |
| HeadParsing.JunkHasNoLetters | srcs/Request.cpp:166-176 | what is skipped in front of a request is whatever holds none of the 52 letters |
| HeadParsing.LineUncaught | srcs/Request.cpp:144-152 | a request line is read with that exception if and only if it is a known method, blanks and a URI with no blank behind it |
| HeadParsing.RunUncaught | srcs/Request.cpp:158-187 | over all the bytes of a head, that exception is thrown if and only if the first line, behind any junk, is whole, not over the limit and of that form; no header line throws it |
| HeadParsing.HeadReadsBack | srcs/Request.cpp:158-216 | a head as a client writes it, in either version, is read back: method, URI, collected header values, and exactly the bytes behind the blank line are left |
| HeadParsing.HeadLinesFit | srcs/Request.cpp:433-441 | no line of such a head trips the line limit, however much of it has come |
| BodyParsing.RunChunksResumes | srcs/Request.cpp:295-327 | cutting a chunked body anywhere changes neither the chunks nor what is left |
| BodyParsing.BytesAccounted | srcs/Request.cpp:288-327 | every byte of a chunked body is in a size line, in a chunk with its CRLF, in the kept partial line, or unread |
| BodyParsing.UnbrokenReadBack | srcs/Request.cpp:274-327 | any list of non-empty chunks written as in section 3.6.1 of RFC 2616 is read back up to its first chunk with a CRLF in it: the whole list and nothing of what follows if there is none, else the body is refused |
| BodyParsing.ChunksExactly | srcs/Request.cpp:274-327 | such a body is read back chunk by chunk, with exactly what follows the line of the last chunk left over, if and only if no chunk holds a CRLF; it is refused if and only if one does, and the chunks in front of the first such chunk are what has been written |
| Messages.FeedResumes | srcs/Client.cpp:174-198 | fragmentation is invisible: for every list of bytes and every cut, in the head, between head and body or in the body, feeding the parts one after the other leads to the same stage as feeding the whole |
| Messages.ReadyHead | srcs/IControl.cpp:391-414 | a request that is read whole has passed the checks on its head and has no Expect header |
| Messages.ParsedAsUnique | srcs/Client.cpp:174-198 | a stream determines its requests: of two lists read from it one continues the other, and lists of equal length leave the same rest |
| Pipelining.WritableFits | srcs/IControl.cpp:391-414 | a request that its header lines and its body make writable passes every check on its head, expects nothing and is framed as it was announced |
| HeadChecks.HeadFraming | srcs/IControl.cpp:350-370 | from the header lines alone: one Content-Length `n` and no Transfer-Encoding frames a body of `n` bytes, none for 0; a Transfer-Encoding of chunked frames a chunked body whatever Content-Length says; neither frames none |
| HeadChecks.LengthIgnored | srcs/IControl.cpp:352-355 | several Content-Length values, which are joined by commas, are taken for none: the body is not framed |
| HeadChecks.LengthChecked | srcs/IControl.cpp:350-361 | without a Content-Length a body is never too long; with one it is if and only if the number is above the limit of the host that the Host lines name, or of the host taken instead |
| HeadChecks.HeadRefused | srcs/IControl.cpp:315-361 | in this order: 400 without Host, 400 for the URI, 501 for Accept-Ranges, 415 for a Content-Encoding other than identity, 501 for a Transfer-Encoding other than chunked; 413 if and only if the rest is in order and the body too long, 0 if and only if all is in order |
| HeadChecks.Expectation | srcs/IControl.cpp:371-389 | a head expects something if and only if a line gives Expect a value, and waits for the 100 line if and only if that is 100-continue and nothing else |
| HeadChecks.UriForms | srcs/Request.cpp:492-600 | a path, or an http URI with authority and user, with or without a query, is accepted if and only if no prefix of the directory part of its path has more `..` than ordinary segments; everything up to the first `@` is dropped wherever it stands |
| HeadChecks.OtherScheme | srcs/Request.cpp:492-502 | a URI with anything but http in front of its first `://` is refused, also if that stands in its query |
| HeadChecks.RootAccepted | srcs/Request.cpp:504-510 | `/` is accepted |
| Pipelining.RequestReadsBack | srcs/Client.cpp:174-198 | one written request, followed by anything, is read back with its head and body, and what is left is what follows it, behind the last CRLF of a chunked body |
| Pipelining.JunkSkipped | srcs/Request.cpp:166-177 | a CRLF left in front of a request changes nothing: the leading skip absorbs it |
| Pipelining.ScriptReadsBack | srcs/Client.cpp:174-198 | a stream that concatenates any number of written requests is read as exactly those requests in order (section 8.1.2.2 of RFC 2616), whatever follows |
| Pipelining.ScriptInLimits | srcs/Request.cpp:433-448 | whatever beginning of such a stream has come, it is neither refused nor found too large, and a request that completes is the first one, with exactly its bytes consumed |
| Pipelining.LogFollows | srcs/Client.cpp:361-372 | any requests read from a part of such a stream are its first ones, and what is unread, with what has not come, is the rest of the stream behind at most one CRLF |
| Requests.Request.GetLine | srcs/Request.cpp:83-99 | the kept line and the buffer are one text: its first line moves into the line field and the rest stays, or all of it is kept |
| Requests.Request.CheckSizes | srcs/Request.cpp:433-455 | 431 or 413 with the request marked as an error exactly if the head or the chunked body is too large, else nothing changes |
| Requests.Request.ParseRequestLine | srcs/Request.cpp:138-156 | method, URI and version of the line, 501 or 505, or the uncaught exception |
| Requests.Request.ParseHeaders | srcs/Request.cpp:158-216 | resumes where the last call stopped and refines the run over all bytes: same head, same kept line, same rest; the byte count forgets junk in front of the request line; the size checks are made when the head stays incomplete; a finished head takes nothing and changes nothing |
| Requests.Request.FillError | srcs/Request.cpp:62-69 | the status is set, the kept line is dropped and the request is marked as an error |
| Requests.Request.ParseFirstLine | srcs/Request.cpp:178-188 | the part of parseHeaders on the request line: once the line is whole and accepted, the run goes on behind it, else it ends as the run over all bytes does |
| Requests.Request.ParseFields | srcs/Request.cpp:189-215 | the loop over the header lines ends as the run over all bytes does |
| Requests.Request.ReadChunk | srcs/Request.cpp:300-323 | one turn of the loop: a whole chunk is the first one of the run and the rest is the run over what is left, or the call ends as the run does |
| Requests.Request.ReadData | srcs/Request.cpp:314-322 | the data line of a turn: a line of exactly the announced length is the chunk, another is refused, a part is kept |
| Requests.Request.GetChunkedSize | srcs/Request.cpp:274-293 | reads one size line, or keeps its part, and takes its bytes off the count; 400 for a bad or overlong one |
| Requests.Request.ParseChunked | srcs/Request.cpp:295-327 | refines the run over all bytes; between calls and at every loop head the count is the decoded chunks with their CRLF plus the kept line plus the unread buffer; after a call that returns 0 the bytes written are within the limit, and they never exceed it by more than the last buffer |
| Requests.Request.ParseMeasured | srcs/Request.cpp:218-245 | bytes written and bytes left are the buffer, in order; -1 exactly when Content-Length bytes have been written |
| Requests.Request.ParseInput | srcs/Request.cpp:467-477 | goes on from the stage of the last call; the bytes written grow by what is returned; completion, refusal and waiting are those of the stage |
| Clients.Client.FillResponse | srcs/IControl.cpp:502-575 | the connection header is kept or set by the status class, and the path is forced empty for 400, 500 and 503 and set for the other error pages |
| Clients.Client.GenerateResponse | srcs/IControl.cpp:589-620 | unless a response is pending, one is installed with its pieces queued and the status asked for, or the one the request has; it falls to 500 if and only if the answer needs a file or a directory that cannot be opened, which 400, 500 and 503 never do |
| Clients.Client.GenerateCgi | srcs/IControl.cpp:622-630 | a CGI at work in write mode, or 500 and nothing changed |
| Clients.Client.GenerateContinue | srcs/IControl.cpp:577-582 | the 100 line is queued over whatever is pending |
| Clients.Client.CheckBodyLength | srcs/IControl.cpp:350-370 | 413 exactly if Content-Length is above the limit of the host, else the body is framed as the head says: chunked first, else a positive length, else none |
| Clients.Client.CheckContinue | srcs/IControl.cpp:371-389 | 100 exactly for an Expect of 100-continue with a body, 400 without one, 417 for another Expect, 0 exactly without; a refusal removes that header and no other |
| Clients.Client.DefineBodyParsing | srcs/IControl.cpp:427-472 | a stream is opened for a CGI exactly if there is a body, and for an upload unless the file must not be written; an upload knows the status it will end with |
| Clients.Client.AcceptHeaders | srcs/IControl.cpp:404-413 | 0, or 400 or 417 for what is expected; accepted with an Expect header exactly when the 100 line goes out |
| Clients.Client.CheckRequestHead | srcs/IControl.cpp:391-401 | on a fresh request, the first failing check on host, URI, refused headers and length decides the status |
| Clients.Client.CheckHost | srcs/IControl.cpp:402-413 | what the host says comes before what is expected; a request that goes on has the kind that was matched |
| Clients.Client.HandleRequestHeaders | srcs/IControl.cpp:391-414 | the status that refuses a fresh request is that of the first check that fails, then that of the host, then that of an Expect header that is not met; after a CGI redirect the same without the check on the length, and the body is left alone |
| Clients.Client.HandleRequestBodyDone | srcs/IControl.cpp:479-494 | the status that answers a complete request, by kind, method and whether an upload brought something |
| Clients.RequestVerdict | srcs/IControl.cpp:212-232 | a written request that the server serves, followed by anything, gets what the host says, or else the status of a complete request: 200, 204 for DELETE and an empty upload, the status an upload was found to end with; a chunked upload is never taken for empty, because its last CRLF is at hand |
| Clients.Client.ParseRequest | srcs/Client.cpp:174-198 | the bytes join the buffer and are parsed as a continuation of the current request; behind a complete request they are kept untouched |
| Clients.Client.GetRequest | srcs/Client.cpp:146-154 | there is a request object, a new one standing at the start |
| Clients.Client.ParseHead | srcs/Client.cpp:180-186 | while the head is incomplete, the result and the rest are those of all bytes of the request so far, with the status that refuses them, or 431 |
| Clients.Client.ParseBody | srcs/Client.cpp:187-193 | while the body is incomplete, the result and the rest are those of all bytes of the request so far, with the status that refuses them; what is written to the stream is the body so far |
| Clients.Client.ReadRequest | srcs/IControl.cpp:212-232 | a whole request is reported exactly with its head and body read from all its bytes, a wait exactly when they are incomplete; a positive result means that they are refused or too large, or that the host refuses |
| Clients.Client.ReadBytes | srcs/IControl.cpp:222-231 | what is reported is the status that is due for all the bytes so far, 0 while more is to come, and only a head that asks for the 100 line puts it on the wire |
| Clients.Client.Complete | srcs/IControl.cpp:233-236 | the request is logged once, with nothing lost behind it, and a positive status answers it |
| Clients.Client.Respond | srcs/IControl.cpp:158-165 | the status given is the status sent, but 500 if the file it needs cannot be opened or no CGI can be started; a CGI is started for 200 only |
| Clients.Client.AfterHead | srcs/IControl.cpp:226-232 | the bytes behind a head lead into its body as if all had come at once; the status reported is due for the head and what is behind it; a body is kept exactly for a CGI and for an upload that may be written; with an Expect of 100-continue the 100 line is queued |
| Clients.Client.FirstBody | srcs/IControl.cpp:226-231 | the bytes behind a head that is accepted are taken as its body, which is complete exactly if all of it is there |
| Clients.Client.Parsed | srcs/IControl.cpp:223-235 | what a head that has been read whole leads to; with an Expect of 100-continue the request is done exactly if its body came with the head |
| Clients.Client.ReadOn | srcs/IControl.cpp:212-237 | nothing of what arrives is lost: behind an answer it is kept, else it is read on from the log as all the bytes of the request would be; and the same for a head that asks for the 100 line |
| Clients.Client.Conclude | srcs/IControl.cpp:233-237 | the status that is due is the result; the log grows by exactly the request that is whole, and what is kept or incomplete leaves it alone |
| Clients.Client.HandleClientIn | srcs/IControl.cpp:212-237 | keeps the invariants; the result is the status that is due for the bytes so far, 0 while more is to come; on the plain path what arrives while writing is kept in order, and what arrives while reading completes the next request exactly when its bytes are there, which is logged once with nothing lost behind it; a head that asks for the 100 line gets it queued, and the request is logged if and only if its whole body came with the head |
| Clients.Client.HandleClientResponse | srcs/IControl.cpp:158-165 | the client is in write mode with a response of the given status (500 if what it needs cannot be opened, or no CGI can be started) or with a CGI, a pending response is left alone, and the logged request gets at most one response |
| Clients.Client.TakeIn | srcs/IControl.cpp:177-184 | the status that is due for the bytes so far is answered, unless there is none yet or the 100 line goes out instead; the connection ends exactly if they throw the exception |
| Clients.Client.HandleClientOut | srcs/IControl.cpp:243-266 | one piece moves from the queue to the wire; the situation is exactly: closed by a failed write or, with an empty queue, by `connection: close`; continued behind a 100 line that was asked for; kept alive else |
| Clients.Client.HandleCgi | srcs/IControl.cpp:277-310 | keeps every invariant for each way a CGI ends, and answers 503 or its status or what its redirect gets; nothing changes while it runs; the client is stuck if and only if the CGI ended with a header line without a colon and no response was there |
| Clients.Client.CgiEnded | srcs/IControl.cpp:281-308 | 503 for a CGI that failed, its own status for a document (500 if that cannot be opened), what the new URI gets for a local redirect, nothing exactly for a line without a colon; without an Expect header at most one response is added and nothing gets in its way |
| Clients.Client.Redirect | srcs/IControl.cpp:294-305 | a local redirect ends with the status that refuses the new URI, with a new CGI or 500, or, for what is no CGI, with a response of status 0 |
| Clients.Client.Clear | srcs/Client.cpp:361-372 | request, response, CGI and stream are dropped and the unread bytes stay |
| Clients.Client.StartNext | srcs/IControl.cpp:190-196 | after a response is out, the bytes that came meanwhile are parsed as the next request, and what is due for them is answered |
| Clients.Client.OnInput | srcs/IControl.cpp:176-184 | one read keeps the invariants, sends nothing, and answers the status that is due; when it completes an accepted head that announces a body and has an Expect of 100-continue, the only response added is the 100 line, whether or not the request is complete too, and it is complete if and only if the whole body came with the head: exactly then its own answer is dropped |
| Clients.Client.WriteOut | srcs/IControl.cpp:188-203 | one write keeps the invariants, sends at most one piece, and what follows depends on the queue, the 100 line and `connection: close` exactly |
| Clients.Client.Proceed | srcs/IControl.cpp:188-203 | each situation leads where it should: the next request is started, the body is waited for, or the connection ends |
| Clients.Client.OnWritable | srcs/IControl.cpp:185-206 | a CGI is looked after first; the invariants hold; a client is stuck afterwards if and only if it was, or its CGI without a response ended colon-less; on the plain path it is closed only by a failed write or an answer that carried `connection: close`, and its log stays as it was |
| Clients.Client.OnTimeout | srcs/Client.cpp:322-340 | a silent client with a request gets a response of status 408 (500 if its page cannot be opened), one without is terminated |
| Clients.Client.HandleEvent | srcs/IControl.cpp:170-207 | every event keeps the invariants; a read answers the status that is due and a timeout 408; a client is stuck afterwards if and only if it was, or the event let a CGI without a response end colon-less, and a stuck client sends nothing; the plain path is left only by an event that is not served or by bytes that are refused or too large, and a client that is closed keeps its log |
| Clients.Client.OnScript | srcs/Client.cpp:174-198 | while what has been received begins a stream of written requests, the bytes to be parsed are neither refused nor too large, and the log is a beginning of the stream's requests |
| Clients.Client.NextIsThere | srcs/Client.cpp:361-372 | when a whole stream of written requests has come and not all are logged, the unread bytes hold the next one |
| Clients.Client.PlainSteady | srcs/IControl.cpp:170-207 | on the plain path a client that reads always stands where its bytes lead, so that what is due is known |
| Clients.Client.PlainSteps | srcs/IControl.cpp:170-309 | on the plain path the client is in step with the stream |
| Clients.Client.Run | srcs/IControl.cpp:170-309 | over every run of events: reading means no response and an empty queue, writing means a response or a CGI unless stuck, the pieces sent and queued are whole responses in order, and the queue is the unsent tail of one of them; over every run whose bytes, cut and interleaved with writing in any way, begin a stream of written requests, the requests logged are exactly the first ones of the stream, also when the client has been closed, each answered once before the next is read, and all of them when the client waits behind the last byte; the client stays alive unless someone hangs up, a write fails or an answer carries `connection: close` |
| Maps.UniqueValues.SafePreIncrement | includes/UniqueValuesMapIterator.tpp:142-148 | the value left is remembered; the iterator moves to the next key whose value is new, with only seen values between, or to the end |
| Maps.UniqueValues.SafePostIncrement | includes/UniqueValuesMapIterator.tpp:149-153 | the same, returning the value at the old position |
| Maps.First | includes/UniqueValuesMapIterator.tpp:142-148 | begin() of a sorted map: its least key, none exactly if the map is empty |
| Maps.BeforeMeans | includes/UniqueValuesMapIterator.tpp:142-148 | the order of the keys: a text is before another if it is a beginning of it, or has the lower byte where they first differ |
| Registry.Client.SetHost | srcs/Client.cpp:130-137 | the host is the one of that name, or that of the first map entry; the client stays where it is or leaves its old place and is appended at its host, and leaves the orphans |
| Registry.Listener.BindClient | srcs/ListenServer.cpp:383-393 | the client is appended at the host of that name, or at that of the least name of the map if there is none, and leaves the orphans; no other host changes |
| Registry.Listener.AssignHost | srcs/ListenServer.cpp:24-33 | exactly the free names of the host come to lead to it and no entry changes; every host of the map is there under all its names and the kept number of hosts is right, if and only if all the names were free |
| Registry.Listener.UnassignHost | srcs/ListenServer.cpp:238-256 | exactly the entries of the host go, the kept number of hosts stays right, its clients leave the connected list, and the host no longer lists the server |
| Registry.JoinsOk | srcs/ListenServer.cpp:24-33 | a host with free names adds exactly one distinct value, and every host still has exactly its own names in the map |
| Registry.LeavesOk | srcs/ListenServer.cpp:246-253 | erasing the names of a host removes exactly one distinct value and no entry of another host |
| Registry.Stands | includes/UniqueValuesMapIterator.tpp:142-153 | after the host that the iterator has left is erased, the iterator stands on a live entry before all others, or the map is empty |
| Registry.Directory.AcceptConnection | srcs/ListenServer.cpp:350-374 | a new client is once among the connected clients and the orphans; none beyond the maximum or without a socket |
| Registry.Directory.Rebind | srcs/Client.cpp:130-137 | setHost on a live client keeps the registry invariant and always agrees with a fresh lookup, also when it returns early |
| Registry.Directory.Terminate | srcs/Client.cpp:374-387 | the client leaves every list, and every other client keeps its place |
| Registry.Directory.FindServer | srcs/ListenServer.cpp:79-89 | the server at that address and port, or none exactly if there is none |
| Registry.Directory.CheckServerNames | srcs/ListenServer.cpp:216-227 | true exactly if none of the names is taken at any of the places, in any order of the ports |
| Registry.Directory.RegisterAt | srcs/ListenServer.cpp:55-70 | the host joins the server of the port, made if there is none; fails exactly if a new socket was needed and could not be had; the invariants hold and other ports are untouched |
| Registry.Directory.AddServer | srcs/ListenServer.cpp:92-123 | a server without hosts or clients at a place where there was none disturbs nothing |
| Registry.Directory.Assign | srcs/ListenServer.cpp:57-68 | map of the server and list of the host stay in step |
| Registry.Directory.AddHost | srcs/Host.cpp:81-86 | an admitted host is listed and listens on all its ports unless a socket failed; no two servers share address and port, a host lists a server exactly if the map of the server leads to it |
| Registry.Directory.TerminateOrphans | srcs/ListenServer.cpp:138-142 | the list is edited under the loop, yet every orphan of the server goes and no other server loses a client |
| Registry.Directory.TerminateConnected | srcs/ListenServer.cpp:143-147 | the same for the connected clients |
| Registry.Directory.UnassignNext | srcs/ListenServer.cpp:148-151 | one turn: one host goes from the map and from no other, and the iterator stands on no erased entry |
| Registry.Directory.UnassignAll | srcs/ListenServer.cpp:148-151 | every distinct host is unassigned exactly once, the map ends empty, and no host lists the server |
| Registry.Directory.RemoveServer | srcs/ListenServer.cpp:132-153 | the invariants hold, the server, its clients and its entries are gone, no host lists it, and every client and server of another place is still there |
| Registry.Directory.Unassign | srcs/ListenServer.cpp:238-256 | unassigning a host at one server keeps map and list in step always, and the places of the clients if and only if no live client of that server is bound to the host |
| Registry.Directory.UnregisterAt | srcs/ListenServer.cpp:202-210 | with no client bound there, the invariants hold again: the entries of the host go, the server goes exactly if this was its only host, the host exactly if this was its only server, and of the clients only those of a removed server |
| Registry.Directory.UnregisterHost | srcs/ListenServer.cpp:177-187 | the host leaves every server though its list is edited meanwhile; exactly the servers that had no other host are gone, with exactly their clients, and the host unless it had no server at all |
| Registry.Directory.RemoveHost | srcs/Host.cpp:88-95 | a host without servers has no clients to shut down, and leaves the list without disturbing anything |
| Config.Stream.GetLine | srcs/IParseConfig.cpp:38-38 | the next line without its line feed; at the end the buffer keeps its old content |
| Config.ParseQuote | srcs/IParseConfig.cpp:92-113 | the word grows up to the closing quote, escapes undone; no closing quote is reported |
| Config.GetNextWord | srcs/IParseConfig.cpp:175-206 | refines the word reader: quotes, escapes and comments, in front of a delimiter |
| Config.SkipSpace | srcs/IParseConfig.cpp:139-149 | the stream stands at the first character that is no space |
| Config.SkipComment | srcs/IParseConfig.cpp:119-133 | up to and including the next line feed |
| Config.CheckSemiColon | srcs/IParseConfig.cpp:155-164 | a semicolon behind blanks is taken, anything else stays |
| Config.ParseValues | includes/IParseConfig.hpp:251-264 | the words up to the next delimiter, which stays |
| Config.ScanLine | srcs/IParseConfig.cpp:40-59 | one line of the brace counter, from and to any depth, quote and escape state |
| ConfigText.QuoteReadsBack | srcs/IParseConfig.cpp:92-113 | a word printed between quotes with `"` and `\` escaped is read back, whatever it holds |
| ConfigText.WordReadsBack | srcs/IParseConfig.cpp:175-206 | a word is read back, in quotes or without, behind any blanks and comments and in front of any delimiter |
| ConfigText.EscapedIsQuoted | srcs/IParseConfig.cpp:44-52 | the brace counter takes nothing between such quotes for structure |
| ConfigText.CommentSkipped | srcs/IParseConfig.cpp:192-196 | a comment, from `#` or `//` to the end of its line, changes nothing where a word may begin |
| ConfigText.CommentInWord | srcs/IParseConfig.cpp:192-196 | right behind a word a comment does not end it: the word goes on with the next one behind the comment |
| ConfigText.BareReadsBack | srcs/IParseConfig.cpp:175-206 | a word without delimiters, quotes, backslashes and `#` that does not begin with `//` is read back without quotes |
| ConfigText.ValuesReadBack | includes/IParseConfig.hpp:251-264 | any words, each written in either way, with any blanks and comments between them, are the values read |
| ConfigText.BraceInComment | srcs/IParseConfig.cpp:40-59 | the brace counter knows no comments: the first brace in a comment closes the block |
| Config.Stream.StepBack | srcs/IParseConfig.cpp:60-70 | both seeks lead to what is behind the last character used, or as far from the end of a stream that is at its end |
| ConfigBlocks.Parser.GetNextBlock | srcs/IParseConfig.cpp:30-85 | the line-wise scan with its two seeks returns exactly the text between the first brace and its match and leaves the stream just behind it, or throws; on a stream already at its end it scans the line kept in the buffer and steps back from the end by what follows the block there; the buffer keeps the line in which the scan stopped |
| ConfigBlocks.Parser.NextStep | srcs/IParseConfig.cpp:208-226 | a word and its values, and the block of a keyword, equal one step of the recursive reading, with the stream and the buffer where that step says |
| ConfigBlocks.Parser.ParseItem | srcs/IParseConfig.cpp:208-226 | one turn: a section whose block is in error or fails its checks is dropped and flagged, and reading goes on behind its semicolon |
| ConfigBlocks.Parser.ParseBlock | srcs/IParseConfig.cpp:208-226 | the loop with the nested handlers, and with any number of scans of old lines, equals the recursive reading: same items, error flag, error and buffer |
| ConfigBlocks.LimitOnlyCuts | srcs/IParseConfig.cpp:208-226 | a limit on the scans of old lines only cuts a reading off, and a reading that ends is not cut off by a limit as large as the text, the buffer and the depth |
| ConfigBlocks.RunsOn | srcs/IParseConfig.cpp:60-70 | if a line is to be scanned again with no line read since its last scan, reading goes on beyond every limit |
| ConfigBlocks.EndsOrRunsOn | srcs/IParseConfig.cpp:208-226 | for every text and buffer: reading a block never ends if and only if it comes to scan the line that it scanned last, with no line read in between; otherwise it ends within a stated number of scans of old lines |
| ConfigBlocks.RescanComesBack | srcs/IParseConfig.cpp:60-70 | a stream at its end comes back to its end with the same line in the buffer if and only if that line holds a block, what follows the block there is not longer than the text, the block reads no line, and the end of the text of that length is a semicolon, directives and a keyword with nothing behind it; else the next line scanned again is shorter |
| ConfigBlocks.NeverEnds | srcs/IParseConfig.cpp:60-70 | for every text whose sections hold directives only, such as that of a host, and every line in the buffer at the start: reading never ends if and only if it comes to a keyword at the very end of the text, and the line of the last block before it (or the line in the buffer, without such a block) leads back, over any number of shorter lines, to a keyword at the very end with no new block in front of it |
| ConfigBlocks.KeywordAgain | srcs/IParseConfig.cpp:60-70 | reading never ends on a section, its semicolon and the same keyword again, with any balanced text on one line in the section |
| ConfigBlocks.KeywordOnTheNextLine | srcs/IParseConfig.cpp:60-70 | nor when the keyword stands on the next line, behind a word of its length and a semicolon: the block need not be on the last line |
| ConfigBlocks.TwoEndlessTexts | srcs/IParseConfig.cpp:60-70 | the shortest of each kind: `a{};a`, and `a{};b` with `;a` on the next line |
| ConfigBlocks.DraftsReadBack | srcs/IParseConfig.cpp:229-327 | a printed tree of any depth and in any layout, with words in or without quotes and with blanks and comments between them, some of whose blocks hold text that does not read, is read as exactly the rest: damaged sections and those that fail their checks are dropped, every item outside them is read as it was written, and the error flag tells whether anything was dropped |
| ConfigBlocks.BlockReadsBack | srcs/IParseConfig.cpp:287-327 | what is read behind a section does not depend on how the reading of its block ends, whatever balanced text is in it |
| ConfigBlocks.ForgottenSemicolon | srcs/IParseConfig.cpp:219-225 | a block whose last semicolon is missing is in error however old the buffer is, so it is one that is dropped |
| ConfigBlocks.StrayToken | srcs/IParseConfig.cpp:213-220 | a `;`, `{` or `}` where an item should begin is an error |
| ConfigBlocks.DirectiveRefused | srcs/IParseConfig.cpp:213-220 | so is a directive that its handler does not take |
| ConfigBlocks.LevelDrafts | srcs/IParseConfig.cpp:30-85 | printed text of any depth leaves the brace counter where it was, so getNextBlock returns it whole |
| ConfigBlocks.BlockFound | srcs/IParseConfig.cpp:30-85 | getNextBlock returns a balanced text between braces, across any line breaks and behind any blanks, and leaves what follows |
| ConfigBlocks.ItemsReadBack | srcs/IParseConfig.cpp:208-226 | a tree of directives and blocks of any depth that pass their checks, its words any non-empty texts, printed in any one layout with or without quotes and comments, is read back as it was with no error flag, so the two scanners agree on quoting and on comments without braces |
| Responses.PiecesAreText | srcs/Response.cpp:257-263 | pieces have 1 to 4000 bytes and concatenate to the text |
| Responses.SingleLineResponse.WriteResponse | srcs/Response.cpp:180-192 | the loop queues exactly the pieces of its line and empties it |
| Responses.DynamicResponse.GenerateBody | srcs/Response.cpp:405-421 | the body is set, exactly two headers are set to describe it, each under the name that was spelled first, and the others stay |
| Responses.DynamicResponse.FormatHeaders | srcs/Response.cpp:236-250 | the walk over the map and the cookies formats the status line, every header once in the order of the map, every cookie, and a blank line |
| Responses.DynamicResponse.WriteHeaders | srcs/Response.cpp:252-265 | the loop queues exactly the pieces of the head |
| Responses.DynamicResponse.WriteResponse | srcs/Response.cpp:300-312 | the queue grows by the pieces of the head and, unless the request was HEAD, of the body |
| Responses.BlockReadsBack | srcs/Response.cpp:236-250 | a client that reads lines up to the first blank one gets the formatted lines and the bytes behind it |
| Responses.ResponseIsFramed | srcs/Response.cpp:300-312 | for any clean headers and any body the pieces have 1 to 4000 bytes, are read back as head and body, and the head has one Content-Length, which a client reads as the number of bytes of the body, and which is what is behind the blank line unless the request was HEAD (section 4.4 of RFC 2616) |
| Responses.HeadersReadBack | srcs/Response.cpp:236-250 | a client reads the status and the reason back from the first line, and finds every header under any spelling of its name, and every cookie |
| Responses.AnswersReadBack | srcs/Response.cpp:236-312 | a client that reads a head and then as many bytes as it announces, over any number of such responses in a row with anything behind them, gets exactly these responses, in order, and exactly what is behind them |
| Exchanges.FlattenedText | srcs/IControl.cpp:243-254 | the bytes of the pieces that are queued for a list of responses are the responses one after the other |
| Exchanges.DeliveredAnswers | srcs/IControl.cpp:243-265 | from the invariant that every run keeps: what a connection has sent, with what is queued, is read by its client as exactly the responses made for it, in order; while the connection reads, what it has sent is that already |

## Left out

- epoll, accept, read, write, getaddrinfo, fork, waitpid, stat, unlink and streams on disk: foreign calls; their results are parameters.
- Logging, the command prompt, the tables of MIME types and status texts, directory listings, the HTML of generated bodies, FileResponse: no state worth an invariant.
- Host::checkRequest and what it matches beyond the choice of a location: its verdict and the kind of resource are parameters of an event.
- parseTrailerHeaders and getLenInfo: trailers are not reached, because parseBody reports the end of the body first, and getLenInfo has no caller.
- The path of a client that sends its body before the 100 line: the invariants cover it, the theorems about streams do not, because the answer is then dropped; Clients.Client.OnInput says that this happens if and only if the whole body came in the bytes that completed the head, or before them.
- Streams over the size limits: whether 413, 414, 431 or 400 is reported depends on where the bytes were cut, so the stream theorems are about requests within the limits.
- A request line with nothing behind its URI: the exception leaves the handlers, and the client is not followed further.
- Machine overflow of the int counters, texts with NUL bytes where the code stops at a NUL, and clock time; a timeout is an event that may come at any time.
- Registry.Directory.UnregisterAt: only for a host that no live client of the server is bound to; otherwise the client is left bound to a host that is gone, which Registry.Directory.Unassign states as an equivalence.
- Registry.Directory.UnregisterHost: only for a host without bound clients, for the same reason.
- Host::shutdown on a host with clients, which edits the client list while it is walked, and the erase in startServers that skips unassignment.
- The handlers of single directives of the configuration: each reads the values up to the next delimiter, and whether it takes them is a parameter, as are the checks on a whole section.
- The end of parseConfigFile, which takes a missing block at the outermost level for the end of the file; its loop is that of parseBlock.
- Registry.Directory.Assign: only for a host none of whose names is taken at the server, which checkServerNames makes sure of; Registry.Listener.AssignHost states as an equivalence what a taken name spoils.
- Registry.Directory.RemoveHost: only for a host without servers, as its one caller makes sure.
- The catch in parseCGIConfig and parseLocation that turns a LastBlockException into a MissingOpeningBraceException (srcs/IParseConfig.cpp:271-274, 304-307): only a keyword in such a block could throw the first, and neither kind of block has keywords.
- Exchanges.DeliveredAnswers: only for responses made in memory; the 100 line, files and CGI output are pieces with no head of this form.
- Pipelining.ScriptReadsBack: for requests whose Content-Length, if there is one, is one number, and whose Transfer-Encoding, if there is one, is chunked; HeadChecks says what becomes of the others.
- Line numbers of the configuration reader: they only appear in messages.
- Wildcard.GetObjectMatch: the map is a list of its entries in any order, not a balanced tree.
- Some methods are parts of one method of the program, split to keep each proof small: ReadOn, ReadRequest, ReadBytes, Parsed, AfterHead, FirstBody, Conclude and Complete of handleClientIn, AcceptHeaders, CheckRequestHead and CheckHost of handleRequestHeaders, Enqueue of generateResponse, Respond and StartCgi of handleClientResponse, EndCgi, CgiEnded, Redirect and AnswerRedirect of handleCGIProcess, TakeIn, OnInput, OnWritable, WriteOut, Proceed and StartNext of handleClientEvent, ParseFirstLine and ParseFields of parseHeaders, ReadChunk and ReadData of _parseChunked, ScanLine and StepBack of getNextBlock, NextStep and ParseItem of parseBlock with its handlers.
- Clients.Client.HandleRequestBodyDone: does not model the deletion of the file by a DELETE request, which is a foreign call.
- Responses.DynamicResponse.GenerateBody: the text of the body is a parameter.
