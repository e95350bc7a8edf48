/** The blocks of the configuration file: getNextBlock and parseBlock with the handlers
    that nest it (srcs/IParseConfig.cpp). The buffer of getNextBlock is shared by all
    streams, and a keyword at the very end of a stream has it scanned again. */
module ConfigBlocks {
  import opened Text
  import opened Config
  import opened ConfigText

  /** A directive with its values, or one of the keywords that take a block. */
  datatype Item =
    | Directive(token: string, values: seq<string>)
    | Section(token: string, values: seq<string>, items: seq<Item>)

  /** The handlers of one kind of block: the keywords that take a block, whether values
      may stand before it, and which directives and sections pass their checks. */
  datatype Rules = Rules(keywords: set<string>, valued: bool, accepts: Item -> bool)

  /** The rules of the outermost items, then those of the items in their blocks, and so
      on, as the handlers are nested. */
  type Levels = seq<Rules>

  function Top(levels: Levels): Rules { if levels == [] then Rules({}, true, _ => true) else levels[0] }

  function Deeper(levels: Levels): Levels { if levels == [] then [] else levels[1..] }

  datatype Error = BadWord | BadBlock | UnexpectedToken | MissingSemicolon | Refused

  /** How the reading of a block ends. `flawed` is the error flag: a section has been
      dropped. */
  datatype Result = Ok(items: seq<Item>, flawed: bool) | Err(error: Error) | Running

  /** A result and the line left in the buffer. */
  datatype Reading = Reading(result: Result, buffer: string)

  // ----- one item

  /** What the next item of a block is. */
  datatype Step =
    | Halts(result: Result, buffer: string)
    | Takes(item: Item, left: string)
    | Enters(token: string, words: seq<string>, inner: string, after: string, buffer: string, again: bool)

  /** The values of an item, for the handlers that read them. */
  function HandlerWords(token: string, rest: string, rules: Rules): (r: Values)
    ensures r.Values? ==> |r.rest| <= |rest|
  {
    if token in rules.keywords && !rules.valued then Values([], rest) else ReadValues(rest)
  }

  /** A block read from the stream; its last line is in the buffer then. */
  function NewBlock(token: string, words: seq<string>, left: string): (step: Step) {
    match NextBlock(left)
    case Found(inner, rest) => Enters(token, words, inner, rest, LastLine(left), false)
    case _ => Halts(Err(BadBlock), LastLine(left))
  }

  /** A keyword at the end of the stream: the line in the buffer is scanned again, and the
      stream steps back from its end by what follows the block in that line. */
  function OldBlock(token: string, words: seq<string>, text: string, buffer: string): (step: Step) {
    match NextBlock(buffer)
    case Found(inner, rest) => Enters(token, words, inner, Ending(text, |rest|), buffer, true)
    case _ => Halts(Err(BadBlock), buffer)
  }

  /** The next item of what is left of a stream over `text`. */
  function FirstStep(text: string, s: string, buffer: string, levels: Levels): (step: Step)
    ensures match step
            case Halts(r, b) => !r.Running? && (b == buffer || |b| < |s|)
            case Takes(_, left) => |left| < |s|
            case Enters(_, _, inner, after, b, again) =>
              levels != [] && |after| <= |text| + |s| &&
              if again then b == buffer && |inner| + |after| < |buffer| && |after| <= |text|
              else |b| < |s| && |inner| + |after| < |s|
  {
    match NextWord(s)
    case OpenQuote => Halts(Err(BadWord), buffer)
    case Stop(token, rest) =>
      if token == "" then Halts(if Next(rest) == END_BYTE then Ok([], false) else Err(UnexpectedToken), buffer)
      else match HandlerWords(token, rest, Top(levels))
        case BadValues => Halts(Err(BadWord), buffer)
        case Values(words, left) =>
          if token in Top(levels).keywords then
            if left == "" then OldBlock(token, words, text, buffer) else NewBlock(token, words, left)
          else if Top(levels).accepts(Directive(token, words)) then Takes(Directive(token, words), left)
          else Halts(Err(Refused), buffer)
  }

  // ----- a whole block

  /** A section whose block is in error, or that fails its checks, is dropped. */
  function Kept(token: string, words: seq<string>, r: Result, levels: Levels): seq<Item> {
    if r.Ok? && Top(levels).accepts(Section(token, words, r.items)) then [Section(token, words, r.items)] else []
  }

  function Flawed(token: string, words: seq<string>, r: Result, levels: Levels): bool {
    Kept(token, words, r, levels) == [] || (r.Ok? && r.flawed)
  }

  /** What is read behind items that have been read. */
  function Join(items: seq<Item>, flawed: bool, r: Result): Result {
    match r
    case Ok(more, f) => Ok(items + more, flawed || f)
    case _ => r
  }

  function Joined(items: seq<Item>, flawed: bool, r: Reading): Reading {
    Reading(Join(items, flawed, r.result), r.buffer)
  }

  /** parseBlock on the rest `s` of a stream over `text`: `Running` once it scans an old
      line for more than `n` times. */
  function ReadUpTo(text: string, s: string, buffer: string, n: nat, levels: Levels): Reading
    requires |s| <= |text|
    decreases n, |s|, 2
  {
    match FirstStep(text, s, buffer, levels)
    case Halts(r, b) => Reading(r, b)
    case Takes(item, left) => ReadOn(text, left, buffer, n, levels, [item], false)
    case Enters(token, words, inner, after, b, again) =>
      if again && n == 0 then Reading(Running, b)
      else
        var m := if again then n - 1 else n;
        ReadBehind(text, after, m, levels, token, words, ReadUpTo(inner, inner, b, m, Deeper(levels)))
  }

  /** Reading behind an item, from its semicolon on. */
  function ReadOn(text: string, s: string, buffer: string, n: nat, levels: Levels, items: seq<Item>,
      flawed: bool): Reading
    requires |s| <= |text| + 1
    decreases n, |s|, 0
  {
    match AfterSemicolon(s)
    case None => Reading(Err(MissingSemicolon), buffer)
    case Some(t) => Joined(items, flawed, ReadUpTo(text, t, buffer, n, levels))
  }

  /** Reading behind a section whose block has been read. */
  function ReadBehind(text: string, s: string, n: nat, levels: Levels, token: string, words: seq<string>,
      sub: Reading): Reading
    requires |s| <= |text| + 1
    decreases n, |s|, 1
  {
    if sub.result.Running? then sub
    else
      ReadOn(text, s, sub.buffer, n, levels,
             Kept(token, words, sub.result, levels), Flawed(token, words, sub.result, levels))
  }

  function Size(s: string, buffer: string): nat { if |s| < |buffer| then |buffer| else |s| }

  /** The same without a limit: reading stops as soon as the line that was scanned last is
      to be scanned again. `stale` tells that the line in the buffer has been scanned and
      no line was read since. */
  function ReadItems(text: string, s: string, buffer: string, stale: bool, levels: Levels): (r: Reading)
    requires |s| <= |text|
    ensures r.buffer == buffer || |r.buffer| < Size(s, buffer)
    decreases Size(s, buffer), |levels|, if stale then 0 else 1, |s|
  {
    match FirstStep(text, s, buffer, levels)
    case Halts(r, b) => Reading(r, b)
    case Takes(item, left) =>
      (match AfterSemicolon(left)
       case None => Reading(Err(MissingSemicolon), buffer)
       case Some(t) => Joined([item], false, ReadItems(text, t, buffer, stale, levels)))
    case Enters(token, words, inner, after, b, again) =>
      if again && stale then Reading(Running, b)
      else
        var sub := ReadItems(inner, inner, b, false, Deeper(levels));
        if sub.result.Running? then sub
        else match AfterSemicolon(after)
          case None => Reading(Err(MissingSemicolon), sub.buffer)
          case Some(t) =>
            Joined(Kept(token, words, sub.result, levels), Flawed(token, words, sub.result, levels),
                   ReadItems(text, t, sub.buffer, again && sub.buffer == buffer, levels))
  }

  // ----- when the reading of a block ends

  /** How many times an old line may be scanned before the reading ends, if it ends. */
  function Enough(s: string, buffer: string, stale: bool, levels: Levels): nat {
    Size(s, buffer) + |levels| + if stale then 0 else 1
  }

  /** A limit only makes a difference by cutting the reading off, and a reading that ends
      is not cut off by a limit that is large enough. */
  lemma {:induction false} LimitOnlyCuts(text: string, s: string, buffer: string, stale: bool, n: nat, levels: Levels)
    requires |s| <= |text|
    ensures var r := ReadItems(text, s, buffer, stale, levels);
            var u := ReadUpTo(text, s, buffer, n, levels);
            !r.result.Running? ==> (u == r || u.result.Running?) && (Enough(s, buffer, stale, levels) <= n ==> u == r)
    decreases Size(s, buffer), |levels|, if stale then 0 else 1, |s|
  {
    hide FirstStep, Kept, Flawed, AfterSemicolon, Join;
    JoinRuns();
    match FirstStep(text, s, buffer, levels)
    case Halts(r, b) =>
    case Takes(item, left) =>
      if AfterSemicolon(left).Some? { LimitOnlyCuts(text, AfterSemicolon(left).value, buffer, stale, n, levels); }
    case Enters(token, words, inner, after, b, again) =>
      if again && (stale || n == 0) { return; }
      var m := if again then n - 1 else n;
      var sub := ReadItems(inner, inner, b, false, Deeper(levels));
      BehindSteps(text, after, m, levels, token, words, ReadUpTo(inner, inner, b, m, Deeper(levels)));
      LimitOnlyCuts(inner, inner, b, false, m, Deeper(levels));
      if !sub.result.Running? && AfterSemicolon(after).Some? {
        LimitOnlyCuts(text, AfterSemicolon(after).value, sub.buffer, again && sub.buffer == buffer, m, levels);
      }
  }

  lemma BehindSteps(text: string, s: string, n: nat, levels: Levels, token: string, words: seq<string>, sub: Reading)
    requires |s| <= |text| + 1
    ensures ReadBehind(text, s, n, levels, token, words, sub) ==
            if sub.result.Running? then sub
            else match AfterSemicolon(s)
              case None => Reading(Err(MissingSemicolon), sub.buffer)
              case Some(t) =>
                Joined(Kept(token, words, sub.result, levels), Flawed(token, words, sub.result, levels),
                       ReadUpTo(text, t, sub.buffer, n, levels))
  {
    hide AfterSemicolon, Kept, Flawed, Join;
  }

  lemma JoinRuns()
    ensures forall items, flawed, r :: Join(items, flawed, r).Running? <==> r.Running?
  {
  }

  /** Scanning the line once more leads back to itself, and then to where reading stops. */
  ghost predicate Returns(text: string, buffer: string, levels: Levels) {
    match NextBlock(buffer)
    case Found(inner, rest) =>
      (match AfterSemicolon(Ending(text, |rest|))
       case None => false
       case Some(t) =>
         var sub := ReadItems(inner, inner, buffer, false, Deeper(levels));
         !sub.result.Running? && sub.buffer == buffer && ReadItems(text, t, buffer, true, levels).result.Running?)
    case _ => false
  }

  /** If reading stops because a line is to be scanned again, no limit is large enough. */
  lemma {:induction false} RunsOn(text: string, s: string, buffer: string, stale: bool, n: nat, levels: Levels)
    requires |s| <= |text| && ReadItems(text, s, buffer, stale, levels).result.Running?
    requires stale ==> Returns(text, buffer, levels)
    ensures ReadUpTo(text, s, buffer, n, levels).result.Running?
    decreases n, Size(s, buffer), |levels|, if stale then 0 else 1, |s|
  {
    hide FirstStep, Kept, Flawed, AfterSemicolon, Join, NextBlock;
    JoinRuns();
    match FirstStep(text, s, buffer, levels)
    case Halts(r, b) =>
    case Takes(item, left) =>
      RunsOn(text, AfterSemicolon(left).value, buffer, stale, n, levels);
    case Enters(token, words, inner, after, b, again) =>
      if again && n == 0 { return; }
      if again { EntersOld(text, s, buffer, levels); }
      var m := if again then n - 1 else n;
      var sub := ReadItems(inner, inner, b, false, Deeper(levels));
      BehindSteps(text, after, m, levels, token, words, ReadUpTo(inner, inner, b, m, Deeper(levels)));
      LimitOnlyCuts(inner, inner, b, false, m, Deeper(levels));
      if sub.result.Running? {
        RunsOn(inner, inner, b, false, m, Deeper(levels));
      } else {
        RunsOn(text, AfterSemicolon(after).value, sub.buffer, again && sub.buffer == buffer, m, levels);
      }
  }

  lemma EntersOld(text: string, s: string, buffer: string, levels: Levels)
    ensures match FirstStep(text, s, buffer, levels)
            case Enters(_, _, inner, after, b, again) =>
              again ==>
                NextBlock(buffer).Found? && inner == NextBlock(buffer).inner &&
                after == Ending(text, |NextBlock(buffer).rest|)
            case _ => true
  {
  }

  /** The reading of a block ends exactly if no line is scanned twice in a row with no
      line read in between; then it has ended after at most as many scans of old lines as
      the text and the first line in the buffer are long. */
  lemma EndsOrRunsOn(text: string, buffer: string, levels: Levels)
    ensures var r := ReadItems(text, text, buffer, false, levels);
            && (r.result.Running? <==> forall n: nat :: ReadUpTo(text, text, buffer, n, levels).result.Running?)
            && (!r.result.Running? ==>
                  forall n: nat :: Enough(text, buffer, false, levels) <= n ==>
                    ReadUpTo(text, text, buffer, n, levels) == r)
  {
    hide ReadItems, ReadUpTo, Enough;
    var r := ReadItems(text, text, buffer, false, levels);
    var enough := Enough(text, buffer, false, levels);
    if r.result.Running? {
      forall n: nat ensures ReadUpTo(text, text, buffer, n, levels).result.Running? {
        RunsOn(text, text, buffer, false, n, levels);
      }
    } else {
      forall n: nat | enough <= n ensures ReadUpTo(text, text, buffer, n, levels) == r {
        LimitOnlyCuts(text, text, buffer, false, n, levels);
      }
      assert ReadUpTo(text, text, buffer, enough, levels) == r;
    }
  }

  // ----- a keyword at the very end

  /** Directives, and then a keyword and its values with nothing behind them. */
  predicate KeywordLast(s: string, levels: Levels)
    decreases |s|
  {
    match NextWord(s)
    case OpenQuote => false
    case Stop(token, rest) =>
      token != "" &&
      match HandlerWords(token, rest, Top(levels))
      case BadValues => false
      case Values(words, left) =>
        if token in Top(levels).keywords then left == ""
        else
          Top(levels).accepts(Directive(token, words)) && AfterSemicolon(left).Some? &&
          KeywordLast(AfterSemicolon(left).value, levels)
  }

  /** The line that is in the buffer when a stream comes to scan an old line, if it does
      before it ends. */
  function NextRescan(text: string, s: string, buffer: string, levels: Levels): (r: Option<string>)
    requires |s| <= |text|
    ensures r.Some? ==> r.value == buffer || |r.value| < |s|
    decreases |s|
  {
    match FirstStep(text, s, buffer, levels)
    case Halts(_, _) => None
    case Takes(_, left) =>
      (match AfterSemicolon(left)
       case None => None
       case Some(t) => NextRescan(text, t, buffer, levels))
    case Enters(_, _, inner, after, b, again) =>
      if again then Some(buffer)
      else
        var sub := ReadItems(inner, inner, b, false, Deeper(levels));
        if sub.result.Running? then None
        else match AfterSemicolon(after)
          case None => None
          case Some(t) => NextRescan(text, t, sub.buffer, levels)
  }

  /** The same behind a scan of an old line. */
  function Rescanned(text: string, buffer: string, levels: Levels): Option<string> {
    match NextBlock(buffer)
    case Found(inner, rest) =>
      var sub := ReadItems(inner, inner, buffer, false, Deeper(levels));
      if sub.result.Running? then None
      else (match AfterSemicolon(Ending(text, |rest|))
            case None => None
            case Some(t) => NextRescan(text, t, sub.buffer, levels))
    case _ => None
  }

  /** A stream at its end comes back to its end with the same line in the buffer exactly
      if that line holds a block, the text is long enough to step back by what follows the
      block, the block leaves the buffer alone, and what is read then ends with a keyword
      again and has no block. Otherwise the next line that is scanned again is shorter. */
  lemma RescanComesBack(text: string, buffer: string, levels: Levels)
    ensures Rescanned(text, buffer, levels) == Some(buffer) <==>
            match NextBlock(buffer)
            case Found(inner, rest) =>
              var sub := ReadItems(inner, inner, buffer, false, Deeper(levels));
              && |rest| <= |text| && !sub.result.Running? && sub.buffer == buffer
              && AfterSemicolon(text[|text| - |rest|..]).Some?
              && KeywordLast(AfterSemicolon(text[|text| - |rest|..]).value, levels)
            case _ => false
    ensures Rescanned(text, buffer, levels).Some? && Rescanned(text, buffer, levels).value != buffer ==>
            |Rescanned(text, buffer, levels).value| < |buffer|
  {
    hide NextRescan, KeywordLast, ReadItems;
    match NextBlock(buffer)
    case Found(inner, rest) =>
      var sub := ReadItems(inner, inner, buffer, false, Deeper(levels));
      if !sub.result.Running? && AfterSemicolon(Ending(text, |rest|)).Some? {
        var t := AfterSemicolon(Ending(text, |rest|)).value;
        RescansSame(text, t, sub.buffer, levels);
        if sub.buffer == buffer { assert Ending(text, |rest|) == text[|text| - |rest|..]; }
      }
    case _ =>
  }

  /** Reading comes to an old line with the buffer unchanged exactly if there is no block
      before the keyword at the end. */
  lemma {:induction false} RescansSame(text: string, s: string, buffer: string, levels: Levels)
    requires |s| <= |text|
    ensures NextBlock(buffer).Found? && |s| <= |buffer| ==>
            (NextRescan(text, s, buffer, levels) == Some(buffer) <==> KeywordLast(s, levels))
    decreases |s|
  {
    hide FirstStep, AfterSemicolon, KeywordLast, NextBlock, ReadItems;
    if NextBlock(buffer).Found? {
      KeywordStep(text, s, buffer, levels);
      match FirstStep(text, s, buffer, levels)
      case Takes(_, left) =>
        if AfterSemicolon(left).Some? { RescansSame(text, AfterSemicolon(left).value, buffer, levels); }
      case _ =>
    }
  }

  lemma KeywordStep(text: string, s: string, buffer: string, levels: Levels)
    requires NextBlock(buffer).Found?
    ensures KeywordLast(s, levels) <==>
            match FirstStep(text, s, buffer, levels)
            case Halts(_, _) => false
            case Takes(_, left) => AfterSemicolon(left).Some? && KeywordLast(AfterSemicolon(left).value, levels)
            case Enters(_, _, _, _, _, again) => again
  {
    hide NextBlock, NextWord, AfterSemicolon, HandlerWords;
  }

  /** In a block without keywords no line is read, and its reading ends. */
  lemma {:induction false} NoSections(text: string, s: string, buffer: string, stale: bool, levels: Levels)
    requires |s| <= |text| && Top(levels).keywords == {}
    ensures var r := ReadItems(text, s, buffer, stale, levels); !r.result.Running? && r.buffer == buffer
    decreases |s|
  {
    hide FirstStep, AfterSemicolon, Join;
    JoinRuns();
    OnlyDirectives(text, s, buffer, levels);
    match FirstStep(text, s, buffer, levels)
    case Takes(_, left) =>
      if AfterSemicolon(left).Some? { NoSections(text, AfterSemicolon(left).value, buffer, stale, levels); }
    case _ =>
  }

  lemma OnlyDirectives(text: string, s: string, buffer: string, levels: Levels)
    requires Top(levels).keywords == {}
    ensures match FirstStep(text, s, buffer, levels)
            case Halts(_, b) => b == buffer
            case Takes(_, _) => true
            case _ => false
  {
    hide NextWord, HandlerWords;
  }

  /** What stands behind the values of the last keyword with a block, when reading comes to a
      keyword at the very end: `last` if there is none, nothing if it ends before that. */
  function BlockBeforeEnd(s: string, last: string, levels: Levels): (r: Option<string>)
    ensures r.Some? ==> r.value == last || |r.value| < |s|
    decreases |s|
  {
    match NextWord(s)
    case OpenQuote => None
    case Stop(token, rest) =>
      if token == "" then None
      else match HandlerWords(token, rest, Top(levels))
        case BadValues => None
        case Values(words, left) =>
          if token in Top(levels).keywords then
            if left == "" then Some(last)
            else match NextBlock(left)
              case Found(_, after) => BlockFurtherOn(after, left, levels)
              case _ => None
          else if Top(levels).accepts(Directive(token, words)) then BlockFurtherOn(left, last, levels)
          else None
  }

  function BlockFurtherOn(s: string, last: string, levels: Levels): (r: Option<string>)
    ensures r.Some? ==> r.value == last || |r.value| < |s|
    decreases |s|
  {
    match AfterSemicolon(s)
    case None => None
    case Some(t) => BlockBeforeEnd(t, last, levels)
  }

  /** What is behind the values of the first item. */
  function Remainder(s: string, levels: Levels): string {
    match NextWord(s)
    case OpenQuote => ""
    case Stop(token, rest) =>
      match HandlerWords(token, rest, Top(levels))
      case BadValues => ""
      case Values(_, left) => left
  }

  lemma {:induction false} BlockStep(text: string, s: string, buffer: string, last: string, levels: Levels)
    ensures match FirstStep(text, s, buffer, levels)
            case Halts(_, _) =>
              BlockBeforeEnd(s, last, levels) in {None, if NextBlock(buffer).Found? then None else Some(last)}
            case Takes(_, left) => BlockBeforeEnd(s, last, levels) == BlockFurtherOn(left, last, levels)
            case Enters(_, _, _, after, _, again) =>
              BlockBeforeEnd(s, last, levels) ==
              if again then Some(last) else BlockFurtherOn(after, Remainder(s, levels), levels)
  {
    hide NextBlock, NextWord, BlockFurtherOn, HandlerWords;
  }

  lemma EntersNew(text: string, s: string, buffer: string, levels: Levels)
    ensures match FirstStep(text, s, buffer, levels)
            case Enters(_, _, inner, after, b, again) =>
              !again ==>
                && Remainder(s, levels) != "" && NextBlock(Remainder(s, levels)) == Found(inner, after)
                && b == LastLine(Remainder(s, levels))
            case Takes(_, left) => left == Remainder(s, levels)
            case _ => true
  {
    hide NextBlock, NextWord, AfterSemicolon, HandlerWords, LastLine;
  }

  /** The same from any start. */
  lemma {:induction false} BlockOrStart(s: string, last: string, levels: Levels)
    ensures BlockBeforeEnd(s, last, levels) ==
            match BlockBeforeEnd(s, "", levels)
            case None => None
            case Some(l) => Some(if l == "" then last else l)
    decreases |s|
  {
    hide NextWord, HandlerWords, NextBlock, AfterSemicolon;
    if NextWord(s).Stop? && HandlerWords(NextWord(s).word, NextWord(s).rest, Top(levels)).Values? {
      var left := Remainder(s, levels);
      if |left| < |s| && AfterSemicolon(left).Some? { BlockOrStart(AfterSemicolon(left).value, last, levels); }
      match NextBlock(left)
      case Found(_, after) =>
        if |after| < |s| && AfterSemicolon(after).Some? { BlockOrStart(AfterSemicolon(after).value, left, levels); }
      case _ =>
    }
  }

  lemma FurtherOn(s: string, last: string, levels: Levels)
    ensures BlockFurtherOn(s, last, levels) ==
            match AfterSemicolon(s)
            case None => None
            case Some(t) => BlockBeforeEnd(t, last, levels)
  {
  }

  lemma LineOfOne(s: string)
    ensures '\n' !in s ==> LastLine(s) == s
  {
    if '\n' !in s { OneLine(s); }
  }

  /** The line in the buffer holds a block, and what follows it there is as long as an end
      of the text that leads to a keyword at the very end again; if there is a block on the
      way, its last line does the same. */
  predicate LeadsBack(text: string, buffer: string, levels: Levels)
    decreases |buffer|
  {
    match NextBlock(buffer)
    case Found(_, rest) =>
      (match AfterSemicolon(Ending(text, |rest|))
       case None => false
       case Some(t) =>
         match BlockBeforeEnd(t, "", levels)
         case None => false
         case Some(last) => last == "" || LeadsBack(text, LastLine(last), levels))
    case _ => false
  }

  /** The text of a host, or any other whose sections hold directives only: reading it never
      ends exactly if it comes to a keyword at the very end, and the line of the last block
      before it, or the line in the buffer at the start, leads back there. */
  lemma NeverEnds(text: string, buffer: string, levels: Levels)
    requires Top(Deeper(levels)).keywords == {}
    ensures ReadItems(text, text, buffer, false, levels).result.Running? <==>
            match BlockBeforeEnd(text, "", levels)
            case None => false
            case Some(last) => LeadsBack(text, if last == "" then buffer else LastLine(last), levels)
  {
    hide BlockBeforeEnd, ReadItems, LeadsBack;
    NeverEndsFrom(text, text, buffer, false, levels);
  }

  lemma {:induction false} NeverEndsFrom(text: string, s: string, buffer: string, stale: bool, levels: Levels)
    requires Top(Deeper(levels)).keywords == {} && |s| <= |text|
    ensures ReadItems(text, s, buffer, stale, levels).result.Running? <==>
            match BlockBeforeEnd(s, "", levels)
            case None => false
            case Some(last) =>
              if last != "" then LeadsBack(text, LastLine(last), levels)
              else if stale then NextBlock(buffer).Found? else LeadsBack(text, buffer, levels)
    decreases Size(s, buffer), if stale then 0 else 1, |s|
  {
    hide FirstStep, AfterSemicolon, NextBlock, BlockBeforeEnd, BlockFurtherOn, LastLine, Join, Kept, Flawed;
    JoinRuns();
    BlockStep(text, s, buffer, "", levels);
    EntersNew(text, s, buffer, levels);
    match FirstStep(text, s, buffer, levels)
    case Halts(_, _) =>
    case Takes(item, left) =>
      FurtherOn(left, "", levels);
      if AfterSemicolon(left).Some? { NeverEndsFrom(text, AfterSemicolon(left).value, buffer, stale, levels); }
    case Enters(_, _, inner, after, b, again) =>
      EntersOld(text, s, buffer, levels);
      NoSections(inner, inner, b, false, Deeper(levels));
      if !again { FurtherOn(after, Remainder(s, levels), levels); }
      if !(again && stale) && AfterSemicolon(after).Some? {
        if !again { BlockOrStart(AfterSemicolon(after).value, Remainder(s, levels), levels); }
        NeverEndsFrom(text, AfterSemicolon(after).value, b, again, levels);
      }
  }

  // ----- the parser

  /** getNextBlock finds a block in what it scans and leaves the stream behind it, or it
      throws. `again` tells that it scans an old line; the stream steps back then. */
  predicate Reports(scanned: string, found: bool, out: string, rest: string, text: string, again: bool) {
    match NextBlock(scanned)
    case Found(inner, behind) => found && out == inner && rest == if again then Ending(text, |behind|) else behind
    case _ => !found
  }

  class Parser {
    /** The line of the last getline, on any stream. */
    var lineBuffer: string

    constructor ()
      ensures Valid() && lineBuffer == ""
    {
      lineBuffer := "";
    }

    ghost predicate Valid()
      reads this
    {
      '\n' !in lineBuffer
    }

    /** getNextBlock: the text between a brace and its match, the stream being left just
        behind it. `found` is false when it throws. On a stream that is already at its
        end getline leaves the line of an earlier call in the buffer; that line is
        scanned again, and the stream steps back by what follows the block there. */
    method GetNextBlock(stream: Stream) returns (found: bool, out: string)
      requires Valid() && stream.Valid()
      modifies this, stream
      ensures Valid() && stream.Valid()
      ensures var scanned := if old(stream.eof) then old(lineBuffer) else old(stream.Rest());
              && Reports(scanned, found, out, stream.Rest(), stream.text, old(stream.eof))
              && lineBuffer == LastLine(scanned)
    {
      hide FindBlock, LineAt, LastLine, Reports, SameLines, EndsWith;
      SameText(if stream.eof then lineBuffer else stream.Rest());
      var d, more := OUTSIDE, true;
      ghost var again := stream.eof;
      ghost var scanned := if again then lineBuffer else stream.Rest();
      ghost var left := scanned;
      found, out := false, "";
      while more
        invariant Valid() && stream.Valid()
        invariant more ==> !found && d.braces >= 0 && (d.braces == 0 ==> out == "")
        invariant more ==> stream.eof == again && left == if again then lineBuffer else stream.Rest()
        invariant more ==> FindBlock(left, d, Gathered(d, out, "")) == NextBlock(scanned) && SameLines(scanned, left)
        invariant !more ==>
          Reports(scanned, found, out, stream.Rest(), stream.text, again) && lineBuffer == LastLine(scanned)
        decreases if !more then 0 else if stream.eof then 1 else 2 + |stream.Rest()|
      {
        ghost var out0 := out;
        RestEnding(stream);
        lineBuffer := stream.GetLine(lineBuffer);
        ghost var tail := if stream.eof then "" else "\n" + stream.Rest();
        assert left == lineBuffer + tail;
        var start, it, unexpected;
        d, start, it, unexpected := ScanLine(lineBuffer, d, out, tail);
        if unexpected {
          StopsAtBrace(scanned, lineBuffer, tail, it);
          ReportsNone(scanned, out, stream.Rest(), stream.text, again);
          return false, out;
        }
        if it < |lineBuffer| {
          ghost var behind := lineBuffer[it + 1..] + tail;
          StopsAtBrace(scanned, lineBuffer, tail, it);
          BehindLine(stream.text, lineBuffer, tail, it);
          stream.StepBack(|lineBuffer| - it - 1, behind);
          out := (if start > 0 then "" else out) + lineBuffer[start..it];
          ReportsBlock(scanned, out, behind, stream.Rest(), stream.text, again);
          found, more := true, false;
        } else {
          if d.braces > 0 {
            out := out + lineBuffer[start..] + "\n";
          }
          assert tail != "" ==> tail[1..] == stream.Rest();
          assert out + "" == out;
          EndOfLine(tail, d, Gathered(d, out0, lineBuffer[start..]));
          more := !stream.eof;
          LineHere(scanned, lineBuffer, tail, it);
          if more {
            left := stream.Rest();
          } else {
            StopsAtEnd(scanned, lineBuffer, tail);
            ReportsNone(scanned, out, stream.Rest(), stream.text, again);
          }
        }
      }
    }

    /** The next word with its handler, up to the block of a section. */
    method NextStep(stream: Stream, levels: Levels) returns (step: Step)
      requires Valid() && stream.Valid()
      modifies this, stream
      ensures Valid() && stream.Valid() && step == FirstStep(stream.text, old(stream.Rest()), old(lineBuffer), levels)
      ensures match step
              case Halts(_, b) => lineBuffer == b
              case Takes(_, left) => stream.Rest() == left && lineBuffer == old(lineBuffer)
              case Enters(_, _, _, after, b, _) => stream.Rest() == after && lineBuffer == b
    {
      hide NextWord, ReadValues, NextBlock, LastLine;
      LineOfOne(lineBuffer);
      var ret, open, token := GetNextWord(stream);
      if open { return Halts(Err(BadWord), lineBuffer); }
      if !ret {
        var next := stream.Peek();
        return Halts(if next == END_BYTE then Ok([], false) else Err(UnexpectedToken), lineBuffer);
      }
      var words := [];
      if token !in Top(levels).keywords || Top(levels).valued {
        open, words := ParseValues(stream);
        if open { return Halts(Err(BadWord), lineBuffer); }
      }
      if token in Top(levels).keywords {
        var again := stream.eof;
        var found, inner := GetNextBlock(stream);
        if !found { return Halts(Err(BadBlock), lineBuffer); }
        return Enters(token, words, inner, stream.text[stream.pos..], lineBuffer, again);
      } else if Top(levels).accepts(Directive(token, words)) {
        return Takes(Directive(token, words), stream.text[stream.pos..]);
      } else {
        return Halts(Err(Refused), lineBuffer);
      }
    }

    /** One turn of parseBlock: an item and its semicolon. A section is dropped when the
        reading of its block fails. `stop` is how the reading of the whole block ends, if
        it does; `left` is the number of scans of old lines that are left. */
    method ParseItem(stream: Stream, levels: Levels, limit: nat)
      returns (stop: Option<Result>, items: seq<Item>, flawed: bool, left: nat)
      requires Valid() && stream.Valid()
      modifies this, stream
      ensures Valid() && stream.Valid()
      ensures ReadUpTo(stream.text, old(stream.Rest()), old(lineBuffer), limit, levels) ==
              if stop.Some? then Reading(stop.value, lineBuffer)
              else Joined(items, flawed, ReadUpTo(stream.text, stream.Rest(), lineBuffer, left, levels))
      ensures stop.None? ==> left < limit || (left == limit && |stream.Rest()| < |old(stream.Rest())|)
      decreases |levels|, 0
    {
      hide *;
      RestFits(stream);
      DeeperIsLess(levels);
      ReadStep(stream.text, stream.Rest(), lineBuffer, limit, levels);
      stop, items, flawed, left := None, [], false, limit;
      var step := NextStep(stream, levels);
      match step {
        case Halts(result, _) => return Some(result), [], false, limit;
        case Takes(item, _) =>
          items := [item];
          ReadOnSteps(stream.text, stream.Rest(), lineBuffer, left, levels, items, flawed);
        case Enters(token, words, inner, _, _, again) =>
          if again {
            if limit == 0 { return Some(Running), [], false, limit; }
            left := limit - 1;
          }
          var block := new Stream(inner);
          var sub := ParseBlock(block, Deeper(levels), left);
          BehindSteps(stream.text, stream.Rest(), left, levels, token, words, Reading(sub, lineBuffer));
          if sub.Running? { return Some(Running), [], false, left; }
          items, flawed := Kept(token, words, sub, levels), Flawed(token, words, sub, levels);
      }
      var semicolon := CheckSemiColon(stream);
      if !semicolon { stop := Some(Err(MissingSemicolon)); }
    }

    /** parseBlock with the handlers of the nested levels. After `limit` scans of old lines
        it is not followed any further. */
    method ParseBlock(stream: Stream, levels: Levels, limit: nat) returns (r: Result)
      requires Valid() && stream.Valid()
      modifies this, stream
      ensures Valid() && stream.Valid()
      ensures Reading(r, lineBuffer) == ReadUpTo(stream.text, old(stream.Rest()), old(lineBuffer), limit, levels)
      decreases |levels|, 1
    {
      hide ReadUpTo, Join;
      var items, flawed, n := [], false, limit;
      ghost var all := ReadUpTo(stream.text, stream.Rest(), lineBuffer, limit, levels);
      JoinNone(all);
      while true
        invariant Valid() && stream.Valid()
        invariant all == Joined(items, flawed, ReadUpTo(stream.text, stream.Rest(), lineBuffer, n, levels))
        decreases n, |stream.Rest()|
      {
        var stop, more, flaw;
        stop, more, flaw, n := ParseItem(stream, levels, n);
        if stop.Some? { return Join(items, flawed, stop.value); }
        JoinTwice(items, flawed, more, flaw, ReadUpTo(stream.text, stream.Rest(), lineBuffer, n, levels));
        items, flawed := items + more, flawed || flaw;
      }
    }
  }

  /** The lines of a rest of the text are its own lines. */
  ghost predicate SameLines(whole: string, rest: string) {
    |rest| <= |whole| && forall k :: 0 <= k <= |rest| ==> LineAt(whole, |whole| - |rest| + k) == LineAt(rest, k)
  }

  lemma RestEnding(stream: Stream)
    requires stream.Valid()
    ensures EndsWith(stream.text, stream.Rest())
  {
  }

  lemma BehindLine(text: string, line: string, tail: string, it: nat)
    requires it < |line|
    ensures EndsWith(text, line + tail) ==> EndsWith(text, line[it + 1..] + tail)
    ensures |line[it + 1..] + tail| == |line| - it - 1 + |tail|
  {
    assert (line + tail)[it + 1..] == line[it + 1..] + tail;
  }

  lemma SameText(s: string)
    ensures SameLines(s, s)
  {
  }

  lemma ReportsNone(scanned: string, out: string, rest: string, text: string, again: bool)
    requires !NextBlock(scanned).Found?
    ensures Reports(scanned, false, out, rest, text, again)
  {
  }

  lemma ReportsBlock(scanned: string, out: string, behind: string, rest: string, text: string, again: bool)
    requires NextBlock(scanned) == Found(out, behind) && rest == if again then Ending(text, |behind|) else behind
    ensures Reports(scanned, true, out, rest, text, again)
  {
  }

  /** A scan that stops in the line that was read last leaves it in the buffer. */
  lemma LineHere(whole: string, line: string, tail: string, it: nat)
    requires SameLines(whole, line + tail) && '\n' !in line && it <= |line| && (tail == "" || tail[0] == '\n')
    ensures |line + tail| <= |whole| && LineAt(whole, |whole| - |line + tail| + it) == line
    ensures tail != "" ==> SameLines(whole, tail[1..])
  {
    hide LineAt;
    var s := line + tail;
    assert LineAt(whole, |whole| - |s| + it) == LineAt(s, it);
    if tail == "" {
      assert s == line;
      OneLine(line);
    } else {
      assert s == line + ("\n" + tail[1..]);
      LinesBehind(line, tail[1..]);
      forall k | 0 <= k <= |tail[1..]| ensures LineAt(whole, |whole| - |tail[1..]| + k) == LineAt(tail[1..], k) {
        assert |whole| - |s| + (|s| - |tail[1..]| + k) == |whole| - |tail[1..]| + k;
      }
    }
  }

  lemma StopsAtBrace(whole: string, line: string, tail: string, it: nat)
    requires SameLines(whole, line + tail) && '\n' !in line && it < |line| && (tail == "" || tail[0] == '\n')
    requires NextBlock(whole).Found? || NextBlock(whole).UnexpectedBrace?
    requires NextBlock(whole).rest == line[it + 1..] + tail
    ensures LastLine(whole) == line
  {
    hide LineAt, NextBlock, SameLines;
    LineHere(whole, line, tail, it);
  }

  lemma StopsAtEnd(whole: string, line: string, tail: string)
    requires SameLines(whole, line + tail) && '\n' !in line && tail == ""
    requires !NextBlock(whole).Found? && !NextBlock(whole).UnexpectedBrace?
    ensures LastLine(whole) == line
  {
    hide LineAt, NextBlock, SameLines;
    LineHere(whole, line, tail, |line|);
  }

  lemma RestFits(stream: Stream)
    requires stream.Valid()
    ensures |stream.Rest()| <= |stream.text|
  {
  }

  lemma DeeperIsLess(levels: Levels)
    ensures levels != [] ==> |Deeper(levels)| < |levels|
  {
  }

  /** One step of ReadUpTo. */
  lemma {:induction false} ReadStep(text: string, s: string, buffer: string, n: nat, levels: Levels)
    requires |s| <= |text|
    ensures match FirstStep(text, s, buffer, levels)
            case Halts(r, b) => ReadUpTo(text, s, buffer, n, levels) == Reading(r, b)
            case Takes(item, left) =>
              ReadUpTo(text, s, buffer, n, levels) == ReadOn(text, left, buffer, n, levels, [item], false)
            case Enters(token, words, inner, after, b, again) =>
              ReadUpTo(text, s, buffer, n, levels) ==
              if again && n == 0 then Reading(Running, b)
              else ReadBehind(text, after, if again then n - 1 else n, levels, token, words,
                              ReadUpTo(inner, inner, b, if again then n - 1 else n, Deeper(levels)))
  {
    hide FirstStep, AfterSemicolon, Kept, Flawed, Join;
  }

  lemma ReadOnSteps(text: string, s: string, buffer: string, n: nat, levels: Levels, items: seq<Item>, flawed: bool)
    requires |s| <= |text| + 1
    ensures ReadOn(text, s, buffer, n, levels, items, flawed) ==
            match AfterSemicolon(s)
            case None => Reading(Err(MissingSemicolon), buffer)
            case Some(t) => Joined(items, flawed, ReadUpTo(text, t, buffer, n, levels))
  {
  }

  lemma JoinNone(r: Reading)
    ensures Joined([], false, r) == r
  {
    if r.result.Ok? { assert [] + r.result.items == r.result.items; }
  }

  lemma JoinTwice(items: seq<Item>, flawed: bool, more: seq<Item>, flaw: bool, r: Reading)
    ensures Joined(items, flawed, Joined(more, flaw, r)) == Joined(items + more, flawed || flaw, r)
  {
    if r.result.Ok? { assert items + (more + r.result.items) == items + more + r.result.items; }
  }

  // ----- printing

  /** What may be written in a block: directives, blocks, and blocks with some other text
      between their braces; every word in or without quotes, blanks and comments anywhere
      between them, and blanks in front of the semicolon of a block. */
  datatype Draft =
    | Plain(head: Heading)
    | Block(head: Heading, drafts: seq<Draft>, last: Gap, pad: string)
    | Damaged(head: Heading, text: string, pad: string)

  /** The words of an item, and what stands behind them. */
  datatype Heading = Heading(token: Spelling, values: seq<Spelling>, end: Gap)

  function PrintHead(head: Heading): string {
    SpellingText(head.token) + (PrintWords(head.values) + GapText(head.end))
  }

  predicate HeadingOk(head: Heading) {
    && SpellingOk(head.token) && ValuesOk(head.values) && GapOk(head.end) && (head.end != [] ==> head.end[0].Blank?)
  }

  function PrintDraft(draft: Draft): string
    decreases draft
  {
    match draft
    case Plain(head) => PrintHead(head) + ";"
    case Block(head, drafts, last, pad) => PrintBlock(head, PrintDrafts(drafts) + GapText(last), pad)
    case Damaged(head, text, pad) => PrintBlock(head, text, pad)
  }

  function PrintBlock(head: Heading, inner: string, pad: string): string {
    PrintHead(head) + "{" + inner + "}" + pad + ";"
  }

  function PrintDrafts(drafts: seq<Draft>): string
    decreases drafts
  {
    if drafts == [] then "" else PrintDraft(drafts[0]) + PrintDrafts(drafts[1..])
  }

  /** What is left when damaged blocks, and sections that fail their checks, are dropped. */
  function Survivors(drafts: seq<Draft>, levels: Levels): seq<Item>
    decreases drafts
  {
    if drafts == [] then [] else Survivor(drafts[0], levels) + Survivors(drafts[1..], levels)
  }

  function Survivor(draft: Draft, levels: Levels): seq<Item>
    decreases draft
  {
    match draft
    case Plain(head) => [Directive(head.token.word, WordsOf(head.values))]
    case Block(head, drafts, _, _) =>
      var item := Section(head.token.word, WordsOf(head.values), Survivors(drafts, Deeper(levels)));
      if Top(levels).accepts(item) then [item] else []
    case Damaged(_, _, _) => []
  }

  /** Nothing is dropped, at any depth. */
  predicate Whole(drafts: seq<Draft>, levels: Levels)
    decreases drafts
  {
    drafts == [] || (WholeDraft(drafts[0], levels) && Whole(drafts[1..], levels))
  }

  predicate WholeDraft(draft: Draft, levels: Levels)
    decreases draft
  {
    match draft
    case Plain(_) => true
    case Block(head, drafts, _, _) =>
      Top(levels).accepts(Section(head.token.word, WordsOf(head.values), Survivors(drafts, Deeper(levels)))) &&
      Whole(drafts, Deeper(levels))
    case Damaged(_, _, _) => false
  }

  /** A text whose reading ends with an error. */
  ghost predicate Broken(text: string, levels: Levels) {
    forall buffer, n: nat :: ReadUpTo(text, text, buffer, n, levels).result.Err?
  }

  /** Exactly the keywords of a level take a block, the other tokens are directives that are
      taken; damaged text keeps its braces and quotes balanced. */
  ghost predicate Printable(drafts: seq<Draft>, levels: Levels)
    decreases drafts
  {
    drafts == [] || (PrintableDraft(drafts[0], levels) && Printable(drafts[1..], levels))
  }

  ghost predicate PrintableDraft(draft: Draft, levels: Levels)
    decreases draft
  {
    match draft
    case Plain(head) => DirectiveFits(head, levels)
    case Block(head, drafts, last, pad) =>
      HeadFits(head, levels) && GapOk(last) && AllSpace(pad) && Printable(drafts, Deeper(levels))
    case Damaged(head, text, pad) =>
      HeadFits(head, levels) && AllSpace(pad) && Level(text) && Broken(text, Deeper(levels))
  }

  predicate DirectiveFits(head: Heading, levels: Levels) {
    && HeadingOk(head) && head.token.word !in Top(levels).keywords
    && Top(levels).accepts(Directive(head.token.word, WordsOf(head.values)))
  }

  predicate HeadFits(head: Heading, levels: Levels) {
    HeadingOk(head) && head.token.word in Top(levels).keywords && (Top(levels).valued || head.values == [])
  }

  // ----- printed text under the brace counter

  lemma LevelHead(head: Heading)
    requires HeadingOk(head)
    ensures Level(PrintHead(head))
  {
    hide Level, PrintWords, SpellingOk, GapText, SpellingText;
    LevelWords([head.token]);
    LevelWords(head.values);
    LevelGap(head.end);
    OneWord(head.token);
    LevelAppend(PrintWords(head.values), GapText(head.end));
    LevelAppend(SpellingText(head.token), PrintWords(head.values) + GapText(head.end));
  }

  lemma OneWord(s: Spelling)
    ensures PrintWords([s]) == SpellingText(s)
  {
    assert [s][1..] == [];
    assert SpellingText(s) + "" == SpellingText(s);
  }

  lemma LevelBlock(head: Heading, inner: string, pad: string)
    requires HeadingOk(head) && AllSpace(pad) && Level(inner)
    ensures Level(PrintBlock(head, inner, pad))
  {
    hide Level, PrintHead, HeadingOk;
    var start, block := PrintHead(head), "{" + inner + "}";
    LevelHead(head);
    LevelBraces(inner);
    LevelAppend(start, block);
    LevelUnstructured(pad);
    LevelChar(';');
    LevelAppend(pad, ";");
    LevelAppend(start + block, pad + ";");
    assert PrintBlock(head, inner, pad) == start + block + (pad + ";");
  }

  lemma {:induction false} LevelDraft(draft: Draft, levels: Levels)
    requires PrintableDraft(draft, levels)
    ensures Level(PrintDraft(draft))
    decreases draft
  {
    hide Level, PrintHead, PrintBlock, Broken, HeadingOk;
    match draft
    case Plain(head) =>
      LevelHead(head);
      LevelChar(';');
      LevelAppend(PrintHead(head), ";");
    case Block(head, drafts, last, pad) =>
      LevelDrafts(drafts, Deeper(levels), last);
      LevelBlock(head, PrintDrafts(drafts) + GapText(last), pad);
    case Damaged(head, text, pad) => LevelBlock(head, text, pad);
  }

  /** A printed block, with its damaged parts, leaves the brace counter where it was. */
  lemma {:induction false} LevelDrafts(drafts: seq<Draft>, levels: Levels, last: Gap)
    requires GapOk(last) && Printable(drafts, levels)
    ensures Level(PrintDrafts(drafts)) && Level(PrintDrafts(drafts) + GapText(last))
    decreases drafts
  {
    hide Level, PrintDraft, PrintableDraft, GapOk, GapText;
    LevelGap(last);
    if drafts == [] {
      LevelNothing();
    } else {
      LevelDraft(drafts[0], levels);
      LevelDrafts(drafts[1..], levels, last);
      LevelAppend(PrintDraft(drafts[0]), PrintDrafts(drafts[1..]));
    }
    LevelAppend(PrintDrafts(drafts), GapText(last));
  }

  // ----- the round trip

  /** Whatever is damaged in a configuration of any depth, all the rest is read as it was
      written, in whatever layout; the error flag is set exactly if something is dropped. No
      old line is ever scanned. */
  lemma {:induction false} DraftsReadBack(
    text: string, drafts: seq<Draft>, last: Gap, buffer: string, n: nat, levels: Levels)
    requires Printable(drafts, levels) && GapOk(last) && |PrintDrafts(drafts) + GapText(last)| <= |text|
    ensures ReadUpTo(text, PrintDrafts(drafts) + GapText(last), buffer, n, levels).result ==
            Ok(Survivors(drafts, levels), !Whole(drafts, levels))
    decreases drafts
  {
    hide ReadUpTo, PrintDraft, PrintableDraft, Survivor, WholeDraft, Join, GapOk, GapText;
    if drafts == [] {
      NoItems(text, last, buffer, n, levels);
      assert PrintDrafts(drafts) + GapText(last) == GapText(last);
    } else {
      var more := PrintDrafts(drafts[1..]) + GapText(last);
      assert PrintDrafts(drafts) + GapText(last) == PrintDraft(drafts[0]) + more;
      DraftParts(drafts[0], levels);
      match drafts[0]
      case Plain(head) =>
        PlainReadsBack(text, head, buffer, n, levels, more);
        DraftsReadBack(text, drafts[1..], last, buffer, n, levels);
        JoinIs([Directive(head.token.word, WordsOf(head.values))], false, drafts[1..], levels);
      case Block(head, inner, end, pad) =>
        var x := PrintDrafts(inner) + GapText(end);
        LevelDrafts(inner, Deeper(levels), end);
        var line := BlockReadsBack(text, head, x, buffer, n, levels, pad, more);
        DraftsReadBack(x, inner, end, line, n, Deeper(levels));
        var sub := ReadUpTo(x, x, line, n, Deeper(levels));
        DraftsReadBack(text, drafts[1..], last, sub.buffer, n, levels);
        var token, values := head.token.word, WordsOf(head.values);
        JoinIs(Kept(token, values, sub.result, levels), Flawed(token, values, sub.result, levels), drafts[1..], levels);
      case Damaged(head, x, pad) =>
        var line := BlockReadsBack(text, head, x, buffer, n, levels, pad, more);
        var sub := ReadUpTo(x, x, line, n, Deeper(levels));
        DraftsReadBack(text, drafts[1..], last, sub.buffer, n, levels);
        JoinIs([], true, drafts[1..], levels);
    }
  }

  lemma JoinIs(items: seq<Item>, flawed: bool, drafts: seq<Draft>, levels: Levels)
    ensures Join(items, flawed, Ok(Survivors(drafts, levels), !Whole(drafts, levels))) ==
            Ok(items + Survivors(drafts, levels), flawed || !Whole(drafts, levels))
  {
  }

  lemma {:induction false} DraftParts(draft: Draft, levels: Levels)
    requires PrintableDraft(draft, levels)
    ensures match draft
            case Plain(head) =>
              && PrintDraft(draft) == PrintHead(head) + ";" && DirectiveFits(head, levels)
              && Survivor(draft, levels) == [Directive(head.token.word, WordsOf(head.values))]
              && WholeDraft(draft, levels)
            case Block(head, drafts, last, pad) =>
              && PrintDraft(draft) == PrintBlock(head, PrintDrafts(drafts) + GapText(last), pad)
              && HeadFits(head, levels) && Printable(drafts, Deeper(levels)) && GapOk(last) && AllSpace(pad)
              && var r := Ok(Survivors(drafts, Deeper(levels)), !Whole(drafts, Deeper(levels)));
                 Survivor(draft, levels) == Kept(head.token.word, WordsOf(head.values), r, levels) &&
                 WholeDraft(draft, levels) == !Flawed(head.token.word, WordsOf(head.values), r, levels)
            case Damaged(head, text, pad) =>
              && PrintDraft(draft) == PrintBlock(head, text, pad) && HeadFits(head, levels) && AllSpace(pad)
              && Level(text) && Broken(text, Deeper(levels)) && Survivor(draft, levels) == []
              && !WholeDraft(draft, levels)
  {
    hide Level, Broken, PrintHead, PrintBlock, PrintDrafts, HeadFits, DirectiveFits, GapOk, GapText, AllSpace;
  }

  lemma NoItems(text: string, gap: Gap, buffer: string, n: nat, levels: Levels)
    requires GapOk(gap) && |GapText(gap)| <= |text|
    ensures ReadUpTo(text, GapText(gap), buffer, n, levels).result == Ok([], false)
  {
    hide NextWord, GapText, GapOk;
    assert GapText(gap) + "" == GapText(gap);
    NoWord(gap, "");
  }

  lemma SemicolonAfter(pad: string, rest: string)
    requires AllSpace(pad)
    ensures AfterSemicolon(pad + ";" + rest) == Some(rest)
  {
    assert pad + ";" + rest == pad + (";" + rest);
    GapDropped(pad, ";" + rest);
    assert (";" + rest)[1..] == rest;
  }

  /** The token and the values of an item, up to its semicolon or brace. */
  lemma HeadReadsBack(head: Heading, tail: string)
    requires HeadingOk(head) && Ends(tail) && !IsSpace(Next(tail))
    ensures var s := PrintHead(head) + tail;
            && NextWord(s).Stop? && NextWord(s).word == head.token.word != ""
            && ReadValues(NextWord(s).rest) == Values(WordsOf(head.values), tail)
            && (head.values == [] ==> NextWord(s).rest == GapText(head.end) + tail && WordsOf(head.values) == [])
  {
    hide NextWord, ReadValues, SpellingText, GapText, SpellingOk, Ends, GapOk, ValuesOk;
    var more := PrintWords(head.values) + (GapText(head.end) + tail);
    assert PrintHead(head) + tail == SpellingText(head.token) + more;
    WordEnds(head.values, head.end, tail);
    WordReadsBack(head.token, more);
    ValuesReadBack(head.values, head.end, tail);
    SpelledWord(head.token);
    if head.values == [] { assert more == GapText(head.end) + tail; }
  }

  lemma PlainReadsBack(text: string, head: Heading, buffer: string, n: nat, levels: Levels, more: string)
    requires DirectiveFits(head, levels) && |PrintHead(head) + ";" + more| <= |text|
    ensures ReadUpTo(text, PrintHead(head) + ";" + more, buffer, n, levels) ==
            Joined([Directive(head.token.word, WordsOf(head.values))], false, ReadUpTo(text, more, buffer, n, levels))
  {
    hide NextWord, ReadValues, PrintHead, AfterSemicolon, Joined, HeadingOk;
    var s := PrintHead(head) + ";" + more;
    HeadReadsBack(head, ";" + more);
    assert s == PrintHead(head) + (";" + more);
    SemicolonAfter("", more);
    assert "" + ";" + more == ";" + more;
    ReadStep(text, s, buffer, n, levels);
    ReadOnSteps(text, ";" + more, buffer, n, levels, [Directive(head.token.word, WordsOf(head.values))], false);
  }

  /** getNextBlock returns the text between the braces and leaves what follows. */
  lemma BlockFound(before: string, x: string, rest: string)
    requires Unstructured(before) && Level(x)
    ensures NextBlock(before + ("{" + x + "}" + rest)) == Found(x, rest)
  {
    hide FindBlock;
    var s := "{" + x + "}" + rest;
    UnstructuredOutside(before, s);
    FindStep(s, OUTSIDE, "");
    assert s[1..] == x + ("}" + rest);
    assert "" + x == x;
    FindStep("}" + rest, Depth(1, false, false), x);
    assert ("}" + rest)[1..] == rest;
  }

  /** A section is read with whatever balanced text is in its block; what is read behind it
      does not depend on how the reading of that text ends. */
  lemma BlockReadsBack(
    text: string, head: Heading, x: string, buffer: string, n: nat, levels: Levels, pad: string, more: string)
    returns (line: string)
    requires HeadFits(head, levels) && AllSpace(pad) && Level(x)
    requires |PrintBlock(head, x, pad) + more| <= |text|
    ensures |more| <= |text|
    ensures var sub := ReadUpTo(x, x, line, n, Deeper(levels));
            var token, values := head.token.word, WordsOf(head.values);
            ReadUpTo(text, PrintBlock(head, x, pad) + more, buffer, n, levels) ==
            if sub.result.Running? then sub
            else Joined(Kept(token, values, sub.result, levels), Flawed(token, values, sub.result, levels),
                        ReadUpTo(text, more, sub.buffer, n, levels))
  {
    hide *;
    var after := pad + ";" + more;
    var tail := "{" + x + "}" + after;
    var s := PrintBlock(head, x, pad) + more;
    var token, values := head.token.word, WordsOf(head.values);
    BlockText(head, x, pad, more);
    FitsIs(head, levels);
    BraceEnds(x, after);
    HeadReadsBack(head, tail);
    HeadingEnd(head);
    var left := if Top(levels).valued then tail else GapText(head.end) + tail;
    Empty();
    assert "" + tail == tail;
    BlockFound(if Top(levels).valued then "" else GapText(head.end), x, after);
    SemicolonAfter(pad, more);
    SectionEnters(text, s, buffer, levels, token, values, x, after, left);
    line := LastLine(left);
    ReadStep(text, s, buffer, n, levels);
    BehindSteps(text, after, n, levels, token, values, ReadUpTo(x, x, line, n, Deeper(levels)));
  }

  lemma BlockText(head: Heading, x: string, pad: string, more: string)
    ensures PrintBlock(head, x, pad) + more == PrintHead(head) + ("{" + x + "}" + (pad + ";" + more))
  {
    hide PrintHead;
  }

  lemma FitsIs(head: Heading, levels: Levels)
    requires HeadFits(head, levels)
    ensures HeadingOk(head) && head.token.word in Top(levels).keywords
    ensures !Top(levels).valued ==> head.values == []
  {
    hide HeadingOk;
  }

  lemma BraceEnds(x: string, after: string)
    ensures var tail := "{" + x + "}" + after; tail != "" && Ends(tail) && !IsSpace(Next(tail))
  {
    assert ("{" + x + "}" + after)[0] == '{';
  }

  lemma SectionEnters(
    text: string, s: string, buffer: string, levels: Levels, token: string, values: seq<string>, x: string,
      after: string, left: string)
    requires NextWord(s).Stop? && NextWord(s).word == token != "" && token in Top(levels).keywords
    requires if Top(levels).valued then ReadValues(NextWord(s).rest) == Values(values, left)
             else values == [] && NextWord(s).rest == left
    requires left != "" && NextBlock(left) == Found(x, after)
    ensures FirstStep(text, s, buffer, levels) == Enters(token, values, x, after, LastLine(left), false)
  {
    hide NextWord, ReadValues, NextBlock, LastLine;
  }

  lemma HeadingEnd(head: Heading)
    requires HeadingOk(head)
    ensures Unstructured(GapText(head.end))
  {
    hide GapText, SpellingOk;
    GapUnstructured(head.end);
  }

  lemma Empty()
    ensures Unstructured("")
  {
  }

  // ----- texts whose reading never ends

  predicate Letters(w: string) { w != "" && forall c :: c in w ==> 'a' <= c <= 'z' }

  lemma LettersAreBare(w: string)
    requires Letters(w)
    ensures Bare(w)
  {
    assert w[0] in w;
  }

  /** A word of letters in front of a delimiter that is no blank, and no values. */
  lemma LettersHead(w: string, rest: string, rules: Rules)
    requires Letters(w) && Ends(rest) && !IsSpace(Next(rest))
    ensures NextWord(w + rest) == Stop(w, rest) && HandlerWords(w, rest, rules) == Values([], rest)
  {
    hide NextWord, Bare;
    LettersAreBare(w);
    BareReadsBack(w, rest);
    assert GapText([]) + rest == rest;
    NoWord([], rest);
  }

  /** A keyword with nothing behind it. */
  lemma KeywordAlone(token: string, last: string, levels: Levels)
    requires Letters(token) && token in Top(levels).keywords
    ensures BlockBeforeEnd(token, last, levels) == Some(last)
  {
    hide NextWord, HandlerWords;
    assert token + "" == token;
    LettersHead(token, "", Top(levels));
  }

  /** A keyword with a block. */
  lemma KeywordAndBlock(token: string, left: string, t: string, levels: Levels)
    requires Letters(token) && token in Top(levels).keywords && left != "" && left[0] == '{'
    requires NextBlock(left).Found? && AfterSemicolon(NextBlock(left).rest) == Some(t)
    ensures BlockBeforeEnd(token + left, "", levels) == BlockBeforeEnd(t, left, levels)
  {
    hide NextWord, HandlerWords, NextBlock, AfterSemicolon;
    LettersHead(token, left, Top(levels));
  }

  lemma LeadsBackAtOnce(text: string, line: string, t: string, levels: Levels)
    requires NextBlock(line).Found? && AfterSemicolon(Ending(text, |NextBlock(line).rest|)) == Some(t)
    requires BlockBeforeEnd(t, "", levels) == Some("")
    ensures LeadsBack(text, line, levels)
  {
    hide NextBlock, AfterSemicolon, BlockBeforeEnd;
  }

  /** The line of a block leads back to a semicolon and a keyword as long as what follows
      the block there. */
  lemma LineLeadsBack(before: string, token: string, x: string, word: string, levels: Levels)
    requires Letters(token) && token in Top(levels).keywords && Level(x) && |word| == |token|
    ensures LeadsBack(before + (";" + token), "{" + x + "}" + (";" + word), levels)
  {
    hide NextBlock, Level, BlockBeforeEnd, LeadsBack, AfterSemicolon, Letters;
    var line := "{" + x + "}" + (";" + word);
    BlockFound("", x, ";" + word);
    assert "" + line == line;
    SemicolonFirst(token);
    KeywordAlone(token, "", levels);
    assert Ending(before + (";" + token), |";" + word|) == ";" + token;
    LeadsBackAtOnce(before + (";" + token), line, token, levels);
  }

  /** A section, its semicolon and the same keyword again, all on one line: the line leads
      back to the semicolon, and reading never ends. */
  lemma KeywordAgain(token: string, x: string, levels: Levels)
    requires Letters(token) && token in Top(levels).keywords && Top(Deeper(levels)).keywords == {}
    requires Level(x) && '\n' !in x
    ensures var text := token + ("{" + x + "}" + (";" + token));
            ReadItems(text, text, "", false, levels).result.Running?
  {
    hide NextBlock, ReadItems, LastLine, Level, BlockBeforeEnd, LeadsBack, AfterSemicolon, Letters;
    var left := "{" + x + "}" + (";" + token);
    BlockFound("", x, ";" + token);
    assert "" + left == left;
    SemicolonFirst(token);
    KeywordAndBlock(token, left, token, levels);
    KeywordAlone(token, left, levels);
    NoLetterBreaks(token);
    LineOfOne(left);
    LineLeadsBack(token + ("{" + x + "}"), token, x, token, levels);
    assert token + left == token + ("{" + x + "}") + (";" + token);
    NeverEnds(token + left, "", levels);
  }

  /** Reading comes to the keyword at the end, behind a block on the line before. */
  lemma BlockAndLine(token: string, x: string, word: string, levels: Levels)
    requires Letters(token) && token in Top(levels).keywords && Level(x) && '\n' !in x
    requires Letters(word) && word !in Top(levels).keywords && Top(levels).accepts(Directive(word, []))
    ensures var line := "{" + x + "}" + (";" + word);
            var left := line + ("\n" + (";" + token));
            BlockBeforeEnd(token + left, "", levels) == Some(left) && LastLine(left) == line
  {
    hide NextBlock, LastLine, Level, BlockBeforeEnd, AfterSemicolon, Letters;
    var line, end := "{" + x + "}" + (";" + word), ";" + token;
    var left := line + ("\n" + end);
    assert left == "{" + x + "}" + (";" + (word + ("\n" + end)));
    BlockFound("", x, ";" + (word + ("\n" + end)));
    assert "" + left == left;
    SemicolonFirst(word + ("\n" + end));
    KeywordAndBlock(token, left, word + ("\n" + end), levels);
    WordAndKeyword(word, token, left, levels);
    NoLetterBreaks(word);
    BlockOnFirstLine(line, end);
  }

  lemma NoLetterBreaks(w: string)
    requires Letters(w)
    ensures '\n' !in w
  {
  }

  /** The block need not be on the last line: it is enough that what follows it on its line
      is as long as the end of the text that starts with the semicolon of the keyword. */
  lemma KeywordOnTheNextLine(token: string, x: string, word: string, levels: Levels)
    requires Letters(token) && token in Top(levels).keywords && Top(Deeper(levels)).keywords == {}
    requires Letters(word) && |word| == |token| && word !in Top(levels).keywords &&
      Top(levels).accepts(Directive(word, []))
    requires Level(x) && '\n' !in x
    ensures var text := token + ("{" + x + "}" + (";" + word) + ("\n" + (";" + token)));
            ReadItems(text, text, "", false, levels).result.Running?
  {
    hide ReadItems, LastLine, Level, BlockBeforeEnd, LeadsBack, Letters;
    var line, end := "{" + x + "}" + (";" + word), ";" + token;
    var left := line + ("\n" + end);
    BlockAndLine(token, x, word, levels);
    LineLeadsBack(token + (line + "\n"), token, x, word, levels);
    assert token + left == token + (line + "\n") + end;
    assert left[0] == '{';
    NeverEnds(token + left, "", levels);
  }

  /** Two texts that are never read to the end. */
  lemma TwoEndlessTexts(levels: Levels)
    requires "a" in Top(levels).keywords && Top(Deeper(levels)).keywords == {}
    requires "b" !in Top(levels).keywords && Top(levels).accepts(Directive("b", []))
    ensures ReadItems("a{};a", "a{};a", "", false, levels).result.Running?
    ensures ReadItems("a{};b\n;a", "a{};b\n;a", "", false, levels).result.Running?
  {
    hide ReadItems, Level;
    LevelNothing();
    KeywordAgain("a", "", levels);
    KeywordOnTheNextLine("a", "", "b", levels);
    assert "a" + ("{" + "" + "}" + (";" + "a")) == "a{};a";
    assert "a" + ("{" + "" + "}" + (";" + "b") + ("\n" + (";" + "a"))) == "a{};b\n;a";
  }

  lemma SemicolonFirst(s: string)
    ensures AfterSemicolon(";" + s) == Some(s)
  {
    assert (";" + s)[1..] == s;
  }

  /** A directive without values, with its semicolon on the next line, and the keyword. */
  lemma WordAndKeyword(word: string, token: string, last: string, levels: Levels)
    requires Letters(word) && word !in Top(levels).keywords && Top(levels).accepts(Directive(word, []))
    requires Letters(token) && token in Top(levels).keywords
    ensures BlockBeforeEnd(word + ("\n" + (";" + token)), last, levels) == Some(last)
  {
    hide NextWord, ReadWord, DropSpaces, Bare;
    var end := ";" + token;
    var rest := "\n" + end;
    LettersAreBare(word);
    BareReadsBack(word, rest);
    LineBreak(end);
    NoWord([Blank('\n')], end);
    KeywordAlone(token, last, levels);
    GapDropped("\n", end);
    SemicolonFirst(token);
    assert word[0] in word;
  }

  lemma LineBreak(s: string)
    ensures GapText([Blank('\n')]) + s == "\n" + s
  {
    assert [Blank('\n')][1..] == [];
  }

  lemma BlockOnFirstLine(line: string, end: string)
    requires '\n' !in line && NextBlock(line + ("\n" + end)).Found?
    requires |end| + 1 < |NextBlock(line + ("\n" + end)).rest| <= |line| + |end| + 1
    ensures LastLine(line + ("\n" + end)) == line
  {
    hide NextBlock, LineAt;
    LinesBehind(line, end);
  }

  lemma NothingBehind()
    ensures AfterSemicolon("").None? && NextBlock("").LastBlock?
  {
  }

  // ----- configurations without damage

  /** One layout for a whole configuration: the gap in front of every word and the braces, and
      whether words that need no quotes stand without them. */
  datatype Layout = Layout(gap: Gap, bare: bool)

  function Spelled(w: string, layout: Layout): Spelling { Spelling(layout.gap, w, layout.bare && Bare(w)) }

  function SpelledAll(ws: seq<string>, layout: Layout): seq<Spelling> {
    if ws == [] then [] else [Spelled(ws[0], layout)] + SpelledAll(ws[1..], layout)
  }

  function HeadingOf(token: string, values: seq<string>, layout: Layout): Heading {
    Heading(Spelled(token, layout), SpelledAll(values, layout), layout.gap)
  }

  function Undamaged(items: seq<Item>, layout: Layout): seq<Draft> {
    if items == [] then [] else [UndamagedItem(items[0], layout)] + Undamaged(items[1..], layout)
  }

  function UndamagedItem(item: Item, layout: Layout): Draft {
    match item
    case Directive(token, values) => Plain(HeadingOf(token, values, layout))
    case Section(token, values, items) =>
      Block(HeadingOf(token, values, layout), Undamaged(items, layout), layout.gap, "")
  }

  predicate NonEmpty(ws: seq<string>) { forall w :: w in ws ==> w != "" }

  /** Items that can be written and pass their checks, at any depth. */
  predicate Sound(items: seq<Item>, levels: Levels)
    decreases items
  {
    forall i :: 0 <= i < |items| ==>
      Top(levels).accepts(items[i]) &&
      match items[i]
      case Directive(token, values) => token != "" && NonEmpty(values) && token !in Top(levels).keywords
      case Section(token, values, inner) =>
        && token != "" && NonEmpty(values) && token in Top(levels).keywords && (Top(levels).valued || values == [])
        && Sound(inner, Deeper(levels))
  }

  lemma {:induction false} SpelledBack(ws: seq<string>, layout: Layout)
    requires Parts(layout.gap) && NonEmpty(ws)
    ensures ValuesOk(SpelledAll(ws, layout)) && WordsOf(SpelledAll(ws, layout)) == ws
  {
    hide Bare, Parts, GapOk;
    if ws != [] {
      assert ws[0] in ws && forall w :: w in ws[1..] ==> w in ws;
      SpelledBack(ws[1..], layout);
      PartsFit(layout.gap);
      var first := Spelled(ws[0], layout);
      assert SpelledAll(ws, layout)[1..] == SpelledAll(ws[1..], layout);
      assert [ws[0]] + ws[1..] == ws;
    }
  }

  lemma PartsFit(gap: Gap)
    requires Parts(gap)
    ensures GapOk(gap) && gap[0].Blank?
  {
  }

  lemma HeadingBack(token: string, values: seq<string>, layout: Layout)
    requires Parts(layout.gap) && NonEmpty(values) && token != ""
    ensures var head := HeadingOf(token, values, layout);
            HeadingOk(head) && head.token.word == token && WordsOf(head.values) == values &&
            (values == [] ==> head.values == [])
  {
    hide Bare, Parts, GapOk, ValuesOk;
    PartsFit(layout.gap);
    SpelledBack(values, layout);
  }

  lemma {:induction false} SoundDrafts(items: seq<Item>, levels: Levels, layout: Layout)
    requires Sound(items, levels) && Parts(layout.gap)
    ensures var drafts := Undamaged(items, layout);
            Printable(drafts, levels) && Whole(drafts, levels) && Survivors(drafts, levels) == items
    decreases items
  {
    hide HeadingOf, HeadingOk, Parts, NonEmpty, GapOk, WordsOf;
    if items != [] {
      SoundDrafts(items[1..], levels, layout);
      PartsFit(layout.gap);
      HeadingBack(items[0].token, items[0].values, layout);
      if items[0].Section? { SoundDrafts(items[0].items, Deeper(levels), layout); }
      var drafts := Undamaged(items, layout);
      assert drafts[0] == UndamagedItem(items[0], layout) && drafts[1..] == Undamaged(items[1..], layout);
      assert [items[0]] + items[1..] == items;
    }
  }

  /** A printed configuration, of any depth, with any words, in or without quotes, and with
      any blanks and comments between them, is read back as it was. */
  lemma ItemsReadBack(text: string, items: seq<Item>, buffer: string, n: nat, levels: Levels, layout: Layout)
    requires Sound(items, levels) && Parts(layout.gap)
    requires |PrintDrafts(Undamaged(items, layout)) + GapText(layout.gap)| <= |text|
    ensures ReadUpTo(text, PrintDrafts(Undamaged(items, layout)) + GapText(layout.gap), buffer, n, levels).result ==
            Ok(items, false)
  {
    hide PrintDrafts, ReadUpTo, Sound, Undamaged, Parts, GapText, GapOk;
    PartsFit(layout.gap);
    SoundDrafts(items, levels, layout);
    DraftsReadBack(text, Undamaged(items, layout), layout.gap, buffer, n, levels);
  }

  /** A stray `;`, `{` or `}` where an item should begin ends the reading with an error. */
  lemma StrayToken(text: string, gap: Gap, c: char, more: string, buffer: string, n: nat, levels: Levels)
    requires GapOk(gap) && c in {';', '{', '}'} && |GapText(gap) + ([c] + more)| <= |text|
    ensures ReadUpTo(text, GapText(gap) + ([c] + more), buffer, n, levels).result == Err(UnexpectedToken)
  {
    hide NextWord, GapText, GapOk;
    NoWord(gap, [c] + more);
    ReadStep(text, GapText(gap) + ([c] + more), buffer, n, levels);
  }

  /** So does a directive that is not taken. */
  lemma DirectiveRefused(text: string, head: Heading, more: string, buffer: string, n: nat, levels: Levels)
    requires HeadingOk(head) && head.token.word !in Top(levels).keywords
    requires |PrintHead(head) + (";" + more)| <= |text|
    requires !Top(levels).accepts(Directive(head.token.word, WordsOf(head.values)))
    ensures ReadUpTo(text, PrintHead(head) + (";" + more), buffer, n, levels).result == Err(Refused)
  {
    hide NextWord, ReadValues, PrintHead, HeadingOk, WordsOf;
    HeadReadsBack(head, ";" + more);
    ReadStep(text, PrintHead(head) + (";" + more), buffer, n, levels);
  }

  /** A block in which the last semicolon is forgotten is one example of damage. */
  lemma ForgottenSemicolon(head: Heading, levels: Levels)
    requires HeadingOk(head) && head.token.word !in Top(levels).keywords
    ensures Level(PrintHead(head)) && Broken(PrintHead(head), levels)
  {
    hide NextWord, ReadValues, PrintHead, AfterSemicolon, Level, ReadUpTo, HeadingOk;
    LevelHead(head);
    HeadReadsBack(head, "");
    var x := PrintHead(head);
    assert x + "" == x;
    forall buffer, n: nat ensures ReadUpTo(x, x, buffer, n, levels).result.Err? {
      ReadStep(x, x, buffer, n, levels);
      NothingBehind();
      ReadOnSteps(x, "", buffer, n, levels, [Directive(head.token.word, WordsOf(head.values))], false);
    }
  }
}
