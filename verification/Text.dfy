/** The parts of std::string the server leans on: searching for a pattern from
    the left and from the right, and the C-string view that stops at a NUL. */
module Text {

  datatype Option<+T> = None | Some(value: T)

  const CRLF: string := "\r\n"

  predicate OccursAt(s: string, pat: string, i: int) {
    0 <= i <= i + |pat| <= |s| && s[i..i + |pat|] == pat
  }

  /** std::string::find: the leftmost occurrence at or after `from`. */
  function Find(s: string, pat: string, from: nat): (r: Option<nat>)
    ensures r.Some? ==> from <= r.value && OccursAt(s, pat, r.value)
    decreases |s| - from
  {
    if from + |pat| > |s| then None
    else if OccursAt(s, pat, from) then Some(from)
    else Find(s, pat, from + 1)
  }

  lemma {:induction false} FindLeast(s: string, pat: string, from: nat, j: nat)
    requires from <= j && OccursAt(s, pat, j)
    ensures Find(s, pat, from).Some? && Find(s, pat, from).value <= j
    decreases |s| - from
  {
    if from < j { FindLeast(s, pat, from + 1, j); }
  }

  lemma {:induction false} FindNone(s: string, pat: string, from: nat, j: nat)
    requires Find(s, pat, from).None? && from <= j
    ensures !OccursAt(s, pat, j)
    decreases |s| - from
  {
    if from + |pat| <= |s| && from < j { FindNone(s, pat, from + 1, j); }
  }

  lemma {:induction false} FindBefore(s: string, pat: string, from: nat, j: nat)
    requires Find(s, pat, from).Some? && from <= j < Find(s, pat, from).value
    ensures !OccursAt(s, pat, j)
    decreases |s| - from
  {
    if from < j { FindBefore(s, pat, from + 1, j); }
  }

  /** The rightmost occurrence ending at or before `limit`. */
  function RFindTo(s: string, pat: string, limit: nat): (r: Option<nat>)
    requires limit <= |s|
    ensures r.Some? ==> r.value + |pat| <= limit && OccursAt(s, pat, r.value)
    decreases limit
  {
    if |pat| > limit then None
    else if OccursAt(s, pat, limit - |pat|) then Some(limit - |pat|)
    else RFindTo(s, pat, limit - 1)
  }

  lemma {:induction false} RFindGreatest(s: string, pat: string, limit: nat, j: nat)
    requires limit <= |s| && j + |pat| <= limit && OccursAt(s, pat, j)
    ensures RFindTo(s, pat, limit).Some? && j <= RFindTo(s, pat, limit).value
    decreases limit
  {
    if j + |pat| < limit { RFindGreatest(s, pat, limit - 1, j); }
  }

  /** std::string::rfind. */
  function RFind(s: string, pat: string): (r: Option<nat>)
    ensures r.Some? ==> OccursAt(s, pat, r.value)
  {
    RFindTo(s, pat, |s|)
  }

  /** `s[i]` as the source reads it: one past the end there is a NUL. */
  function At(s: string, i: nat): char {
    if i < |s| then s[i] else '\0'
  }

  predicate NoNul(s: string) {
    forall i :: 0 <= i < |s| ==> s[i] != '\0'
  }

  lemma NoNulAt(s: string, i: nat)
    requires NoNul(s)
    ensures i < |s| <==> At(s, i) != '\0'
  {
  }

  lemma OccursBound(s: string, pat: string, i: nat)
    requires OccursAt(s, pat, i)
    ensures i + |pat| <= |s|
  {
  }

  lemma OccursMiddle(before: string, pat: string, after: string)
    ensures OccursAt(before + pat + after, pat, |before|)
  {
  }

  /** An occurrence in a suffix is an occurrence in the whole. */
  lemma OccursShift(s: string, pat: string, i: nat, j: nat)
    requires i <= |s| && OccursAt(s[i..], pat, j)
    ensures OccursAt(s, pat, i + j) && i + j + |pat| <= |s|
  {
    assert s[i..][j..j + |pat|] == s[i + j..i + j + |pat|];
  }

  lemma OccursTail(s: string, pat: string, i: nat)
    requires i > 0 && s != ""
    ensures OccursAt(s, pat, i) <==> OccursAt(s[1..], pat, i - 1)
  {
    if i + |pat| <= |s| { assert s[i..i + |pat|] == s[1..][i - 1..i - 1 + |pat|]; }
  }

  lemma OccursCons(s: string, pat: string)
    requires s != "" && pat != "" && s[0] == pat[0]
    ensures OccursAt(s, pat, 0) <==> OccursAt(s[1..], pat[1..], 0)
  {
    if |pat| <= |s| {
      assert s[0..|pat|] == [s[0]] + s[1..][0..|pat| - 1];
      assert pat == [pat[0]] + pat[1..];
    }
  }

  lemma OccursFirst(s: string, pat: string, i: nat)
    requires pat != ""
    ensures OccursAt(s, pat, i) ==> i < |s| && s[i] == pat[0]
  {
    if OccursAt(s, pat, i) {
      assert s[i..i + |pat|][0] == s[i];
    }
  }

  /** The length of the line in front of the first CRLF, if there is a whole line. */
  function LineEnd(s: string): Option<nat> {
    Find(s, CRLF, 0)
  }

  lemma CrlfAt(s: string, i: nat)
    ensures OccursAt(s, CRLF, i) <==> i + 1 < |s| && s[i] == '\r' && s[i + 1] == '\n'
  {
    if i + 2 <= |s| {
      assert s[i..i + 2] == [s[i], s[i + 1]];
    }
  }

  lemma LineEndBound(s: string)
    ensures LineEnd(s).Some? ==> LineEnd(s).value + 2 <= |s|
  {
  }

  lemma NoLineEnd()
    ensures LineEnd("").None?
  {
  }

  /** Appending bytes never moves the end of a line that was already whole. */
  lemma LineEndStable(a: string, b: string)
    requires LineEnd(a).Some?
    ensures LineEnd(a + b) == LineEnd(a)
  {
    var i := LineEnd(a).value;
    CrlfAt(a, i);
    CrlfAt(a + b, i);
    FindLeast(a + b, CRLF, 0, i);
    var j := LineEnd(a + b).value;
    CrlfAt(a, j);
    CrlfAt(a + b, j);
    FindLeast(a, CRLF, 0, j);
  }

  /** A line completed by new bytes ends no earlier than one byte before them. */
  lemma LineEndLate(a: string, b: string)
    requires LineEnd(a).None? && LineEnd(a + b).Some?
    ensures |a| <= LineEnd(a + b).value + 1
  {
    var i := LineEnd(a + b).value;
    CrlfAt(a, i);
    CrlfAt(a + b, i);
    if OccursAt(a, CRLF, i) { FindLeast(a, CRLF, 0, i); }
  }

  /** A text without CRLF, followed by CRLF, is read back as one line, even when it
      ends in CR: only the LF that follows the last CR closes it. */
  lemma LineEndOf(line: string, rest: string)
    requires LineEnd(line).None?
    ensures LineEnd(line + CRLF + rest) == Some(|line|)
  {
    var s := line + CRLF + rest;
    CrlfAt(s, |line|);
    FindLeast(s, CRLF, 0, |line|);
    var j := LineEnd(s).value;
    CrlfAt(s, j);
    CrlfAt(line, j);
    if OccursAt(line, CRLF, j) { FindLeast(line, CRLF, 0, j); }
  }
}
