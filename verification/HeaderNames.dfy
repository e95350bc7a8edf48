/** The header map: i_less, the order that keys it (includes/Request.hpp), and how
    parseHeaders collects the values of a name (srcs/Request.cpp). */
module HeaderNames {
  import opened Maps
  import opened Text

  function Lowercase(c: char): char {
    if 'A' <= c <= 'Z' then (c as int + 32) as char else c
  }

  /** A name as i_less sees it: up to its first NUL, without letter case. */
  function Fold(s: string): (r: string)
    ensures NoNul(r)
  {
    if s == "" || s[0] == '\0' then "" else [Lowercase(s[0])] + Fold(s[1..])
  }

  /** i_less::stricmp: the sign of the first difference between two C strings. */
  method Stricmp(s1: string, s2: string) returns (r: int)
    ensures r < 0 <==> Before(Fold(s1), Fold(s2))
    ensures r == 0 <==> Fold(s1) == Fold(s2)
  {
    hide Before;
    var i: nat := 0;
    assert s1[0..] == s1 && s2[0..] == s2;
    while At(s1, i) != '\0' && Lowercase(At(s1, i)) == Lowercase(At(s2, i))
      invariant i <= |s1| && i <= |s2|
      invariant Before(Fold(s1[i..]), Fold(s2[i..])) == Before(Fold(s1), Fold(s2))
      invariant Fold(s1[i..]) == Fold(s2[i..]) <==> Fold(s1) == Fold(s2)
      decreases |s1| - i
    {
      FoldAt(s1, i);
      FoldAt(s2, i);
      BeforeStep(Fold(s1[i..]), Fold(s2[i..]));
      i := i + 1;
    }
    FoldAt(s1, i);
    FoldAt(s2, i);
    BeforeStep(Fold(s1[i..]), Fold(s2[i..]));
    return Lowercase(At(s1, i)) as int - Lowercase(At(s2, i)) as int;
  }

  lemma FoldAt(s: string, i: nat)
    requires i <= |s|
    ensures At(s, i) == '\0' ==> Fold(s[i..]) == ""
    ensures At(s, i) != '\0' ==> i < |s| && Fold(s[i..]) == [Lowercase(At(s, i))] + Fold(s[i + 1..])
    ensures Lowercase(At(s, i)) == '\0' <==> At(s, i) == '\0'
  {
    if i < |s| { assert s[i..][1..] == s[i + 1..]; }
  }

  /** `i_less()(a, b)`. */
  predicate Less(a: string, b: string) {
    Before(Fold(a), Fold(b))
  }

  predicate Equivalent(a: string, b: string) {
    !Less(a, b) && !Less(b, a)
  }

  const UPPER: string := "ABCDEFGHIJKLMNOPQRSTUVWXYZ"
  const LOWER: string := "abcdefghijklmnopqrstuvwxyz"

  /** The same character, or the two cases of one of the 26 letters. */
  predicate SameLetter(a: char, b: char) {
    a == b ||
    exists k :: 0 <= k < 26 && ((a == UPPER[k] && b == LOWER[k]) || (a == LOWER[k] && b == UPPER[k]))
  }

  /** Equal up to ASCII letter case. */
  predicate SameLetters(a: string, b: string) {
    |a| == |b| && forall i :: 0 <= i < |a| ==> SameLetter(a[i], b[i])
  }

  lemma Alphabet(k: nat)
    requires k < 26
    ensures |UPPER| == |LOWER| == 26 && UPPER[k] as int == 65 + k && LOWER[k] as int == 97 + k
  {
  }

  lemma LetterCase(a: char, b: char)
    ensures Lowercase(a) == Lowercase(b) <==> SameLetter(a, b)
  {
    hide UPPER, LOWER;
    Alphabet(0);
    forall k: nat | k < 26 ensures UPPER[k] as int == 65 + k && LOWER[k] as int == 97 + k { Alphabet(k); }
    if 'A' <= a <= 'Z' { Alphabet(a as int - 65); }
    if 'A' <= b <= 'Z' { Alphabet(b as int - 65); }
  }

  lemma {:induction false} FoldSameLetters(a: string, b: string)
    requires NoNul(a) && NoNul(b)
    ensures Fold(a) == Fold(b) <==> SameLetters(a, b)
  {
    hide SameLetter, Lowercase;
    if a != "" && b != "" {
      FoldSameLetters(a[1..], b[1..]);
      LetterCase(a[0], b[0]);
      assert Fold(a)[0] == Lowercase(a[0]) && Fold(b)[0] == Lowercase(b[0]);
      assert Fold(a)[1..] == Fold(a[1..]) && Fold(b)[1..] == Fold(b[1..]);
      if SameLetters(a[1..], b[1..]) && SameLetter(a[0], b[0]) {
        forall i | 0 <= i < |a| ensures SameLetter(a[i], b[i]) {
          if i > 0 { assert a[1..][i - 1] == a[i] && b[1..][i - 1] == b[i]; }
        }
      }
    }
  }

  /** i_less is a strict weak order, and two NUL-free names share an entry of the map
      exactly when they differ in ASCII letter case only. */
  lemma NameOrder(a: string, b: string, c: string)
    ensures !Less(a, a)
    ensures Less(a, b) && Less(b, c) ==> Less(a, c)
    ensures Equivalent(a, b) && Equivalent(b, c) ==> Equivalent(a, c)
    ensures Equivalent(a, b) <==> Fold(a) == Fold(b)
    ensures NoNul(a) && NoNul(b) ==> (Equivalent(a, b) <==> SameLetters(a, b))
  {
    hide Before, Fold, SameLetters;
    BeforeOrder(Fold(a), Fold(b), Fold(c));
    BeforeOrder(Fold(b), Fold(a), Fold(b));
    BeforeOrder(Fold(c), Fold(b), Fold(c));
    if NoNul(a) && NoNul(b) { FoldSameLetters(a, b); }
  }

  // ----- the map

  /** std::map<std::string, std::string, i_less>, keyed by the folded name. */
  type Headers = map<string, string>

  function GetHeader(h: Headers, key: string): string {
    if Fold(key) in h then h[Fold(key)] else ""
  }

  predicate CheckHeader(h: Headers, key: string) { Fold(key) in h }

  function AddHeader(h: Headers, name: string, value: string): Headers {
    h[Fold(name) := if GetHeader(h, name) != "" then GetHeader(h, name) + ", " + value else value]
  }

  type Field = (string, string)

  /** The fields in the order in which their lines arrived. */
  function AddAll(h: Headers, fields: seq<Field>): Headers {
    if fields == [] then h
    else
      var last := fields[|fields| - 1];
      AddHeader(AddAll(h, fields[..|fields| - 1]), last.0, last.1)
  }

  /** The values given under a name, in arrival order. */
  function ValuesOf(fields: seq<Field>, key: string): seq<string> {
    if fields == [] then []
    else
      var last := fields[|fields| - 1];
      var before := ValuesOf(fields[..|fields| - 1], key);
      if Fold(last.0) == Fold(key) then before + [last.1] else before
  }

  function DropEmpty(values: seq<string>): seq<string> {
    if values != [] && values[0] == "" then DropEmpty(values[1..]) else values
  }

  function CommaJoin(values: seq<string>): string {
    if values == [] then ""
    else if |values| == 1 then values[0]
    else CommaJoin(values[..|values| - 1]) + ", " + values[|values| - 1]
  }

  lemma {:induction false} DropEmptySnoc(values: seq<string>, v: string)
    ensures DropEmpty(values + [v]) ==
      if DropEmpty(values) == [] then (if v == "" then [] else [v]) else DropEmpty(values) + [v]
    ensures DropEmpty(values) != [] ==> CommaJoin(DropEmpty(values)) != ""
    ensures CommaJoin(DropEmpty(values + [v])) ==
      if CommaJoin(DropEmpty(values)) == "" then v else CommaJoin(DropEmpty(values)) + ", " + v
  {
    DropEmptyTail(values, v);
    CommaJoinNonEmpty(DropEmpty(values));
    var d := DropEmpty(values);
    if d != [] { assert (d + [v])[..|d|] == d; }
  }

  lemma {:induction false} DropEmptyTail(values: seq<string>, v: string)
    ensures DropEmpty(values + [v]) ==
      if DropEmpty(values) == [] then (if v == "" then [] else [v]) else DropEmpty(values) + [v]
    ensures DropEmpty(values) != [] ==> DropEmpty(values)[0] != ""
  {
    if values != [] && values[0] == "" {
      DropEmptyTail(values[1..], v);
      assert (values + [v])[1..] == values[1..] + [v];
    } else if values == [] {
      assert [v][1..] == [];
    }
  }

  lemma {:induction false} CommaJoinNonEmpty(values: seq<string>)
    requires values != [] ==> values[0] != ""
    ensures values != [] ==> CommaJoin(values) != ""
  {
  }

  /** Whatever the letter case of the lines, the value under a name is the list of its
      values in arrival order, joined by `, ` (section 4.2 of RFC 2616), except that
      leading empty values leave no trace; a name is present once a line gave it. */
  lemma {:induction false} CollectedValue(fields: seq<Field>, key: string)
    ensures GetHeader(AddAll(map[], fields), key) == CommaJoin(DropEmpty(ValuesOf(fields, key)))
    ensures CheckHeader(AddAll(map[], fields), key) <==> ValuesOf(fields, key) != []
  {
    hide Fold, DropEmpty, CommaJoin;
    if fields == [] {
      JoinNothing();
    } else {
      var init, last := fields[..|fields| - 1], fields[|fields| - 1];
      CollectedValue(init, key);
      if Fold(last.0) == Fold(key) {
        DropEmptySnoc(ValuesOf(init, key), last.1);
      }
    }
  }

  /** The values that leave no trace are the `n` empty ones in front. */
  lemma {:induction false} DropShape(values: seq<string>) returns (n: nat)
    ensures n <= |values| && DropEmpty(values) == values[n..]
    ensures (forall i :: 0 <= i < n ==> values[i] == "") && (n < |values| ==> values[n] != "")
    decreases |values|
  {
    n := 0;
    if values != [] && values[0] == "" {
      var m := DropShape(values[1..]);
      n := m + 1;
      assert values[1..][m..] == values[n..];
      assert forall i :: 0 < i < n ==> values[i] == values[1..][i - 1];
    }
  }

  /** The others are joined from either end alike. */
  lemma {:induction false} JoinFront(values: seq<string>)
    requires |values| > 1
    ensures CommaJoin(values) == values[0] + ", " + CommaJoin(values[1..])
    decreases |values|
  {
    var init, last := values[..|values| - 1], values[|values| - 1];
    assert values[1..][..|values| - 2] == init[1..];
    if |values| > 2 {
      JoinFront(init);
      assert values[0] + ", " + CommaJoin(init[1..]) + ", " + last ==
             values[0] + ", " + (CommaJoin(init[1..]) + ", " + last);
    }
  }

  lemma JoinNothing()
    ensures CommaJoin(DropEmpty([])) == ""
  {
  }
}
