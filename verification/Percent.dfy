/** Percent decoding in place (translatePercent in srcs/Request.cpp). */
module Percent {
  import opened Text
  import opened Numbers

  /** size_t arithmetic: npos is its largest value. */
  const NPOS: int := 0xffff_ffff_ffff_ffff

  /** `len - 2` in size_t: it wraps around for texts shorter than two. */
  function MinusTwo(len: nat): (r: int)
    requires len < NPOS
    ensures len >= 2 ==> r == len - 2
    ensures len == 1 ==> r == NPOS
    ensures len == 0 ==> r == NPOS - 1
  {
    (len - 2) % (NPOS + 1)
  }

  /** `str[cur] = res`: an int stored in a byte. */
  function ByteOf(n: int): char { (n % 256) as char }

  /** The first three characters are an escape that the server decodes. */
  predicate IsEscape(s: string) {
    |s| > 2 && s[0] == '%' && ParseInt(s[1..3], 16).Number?
  }

  /** One pass from left to right; what an escape yields is never looked at again. */
  function Decode(s: string): (r: string)
    ensures |r| <= |s|
  {
    if s == "" then ""
    else if IsEscape(s) then [ByteOf(ParseInt(s[1..3], 16).value)] + Decode(s[3..])
    else [s[0]] + Decode(s[1..])
  }

  method TranslatePercent(str0: string) returns (str: string)
    requires |str0| < NPOS - 2
    ensures str == Decode(str0)
  {
    hide Find, OccursAt, Decode, IsEscape, ParseInt, MinusTwo, ByteOf;
    str := str0;
    var idx: nat := 0;
    var len := |str|;
    var res := 0;
    var found := Find(str, "%", idx);
    var cur := if found.Some? then found.value else NPOS;
    assert str[..0] + Decode(str[0..]) == Decode(str);
    while cur < MinusTwo(len)
      invariant len == |str| < NPOS - 2 && idx <= |str|
      invariant found == Find(str, "%", idx)
      invariant cur == if found.Some? then found.value else NPOS
      invariant str[..idx] + Decode(str[idx..]) == Decode(str0)
      decreases |str| - idx
    {
      FirstPercent(str, idx);
      SkipTo(str, idx, cur);
      var hexaChar := if cur + 3 <= |str| then str[cur + 1..cur + 3] else str[cur + 1..];
      var code;
      code, res := GetInt(hexaChar, 16, res);
      EscapeAt(str, cur, hexaChar);
      if code == 0 {
        Spliced(str, cur, ByteOf(res));
        str := str[..cur] + [ByteOf(res)] + str[cur + 3..];
        len := len - 2;
      } else {
        assert str[..cur + 1] == str[..cur] + ['%'];
      }
      idx := cur + 1;
      found := Find(str, "%", idx);
      cur := if found.Some? then found.value else NPOS;
    }
    FirstPercent(str, idx);
    NothingLeft(str, idx, if found.Some? then cur else |str|);
    assert str == str[..idx] + str[idx..];
  }

  lemma Spliced(s: string, cur: nat, c: char)
    requires cur + 3 <= |s|
    ensures var t := s[..cur] + [c] + s[cur + 3..];
            |t| == |s| - 2 && t[..cur + 1] == s[..cur] + [c] && t[cur + 1..] == s[cur + 3..]
  {
  }

  /** What `find` says about the text in front of the next percent sign. */
  lemma FirstPercent(s: string, idx: nat)
    requires idx <= |s|
    ensures match Find(s, "%", idx)
            case Some(c) => idx <= c < |s| && s[c] == '%' && forall j :: idx <= j < c ==> s[j] != '%'
            case None => forall j :: idx <= j < |s| ==> s[j] != '%'
  {
    hide Find, OccursAt;
    var f := Find(s, "%", idx);
    if f.Some? { OccursFirst(s, "%", f.value); }
    forall j | idx <= j < (if f.Some? then f.value else |s|) ensures j < |s| ==> s[j] != '%' {
      if f.Some? { FindBefore(s, "%", idx, j); } else { FindNone(s, "%", idx, j); }
      PercentAt(s, j);
    }
  }

  lemma PercentAt(s: string, i: nat)
    ensures OccursAt(s, "%", i) <==> i < |s| && s[i] == '%'
  {
    if i < |s| { assert s[i..i + 1] == [s[i]]; }
  }

  lemma DecodePlain(s: string)
    requires s != "" && !IsEscape(s)
    ensures Decode(s) == [s[0]] + Decode(s[1..])
  {
  }

  lemma DecodeEscape(s: string)
    requires IsEscape(s)
    ensures Decode(s) == [ByteOf(ParseInt(s[1..3], 16).value)] + Decode(s[3..])
  {
  }

  lemma {:induction false} DecodeSkip(s: string, k: nat)
    requires k <= |s| && forall j :: 0 <= j < k ==> s[j] != '%'
    ensures Decode(s) == s[..k] + Decode(s[k..])
  {
    hide Decode, ParseInt;
    if k == 0 {
      assert s[0..] == s;
    } else {
      DecodePlain(s);
      DecodeSkip(s[1..], k - 1);
      assert s[1..][k - 1..] == s[k..];
      assert s[..k] == [s[0]] + s[1..][..k - 1];
    }
  }

  lemma SkipTo(s: string, idx: nat, cur: nat)
    requires idx <= cur <= |s| && forall j :: idx <= j < cur ==> s[j] != '%'
    ensures s[..idx] + Decode(s[idx..]) == s[..cur] + Decode(s[cur..])
  {
    hide Decode;
    DecodeSkip(s[idx..], cur - idx);
    assert s[idx..][cur - idx..] == s[cur..];
    assert s[..idx] + s[idx..][..cur - idx] == s[..cur];
  }

  /** The two characters after a percent sign decide whether it is an escape. */
  lemma EscapeAt(s: string, cur: nat, hexaChar: string)
    requires cur < |s| && s[cur] == '%' && (cur + 3 <= |s| || |s| == 1)
    requires hexaChar == if cur + 3 <= |s| then s[cur + 1..cur + 3] else s[cur + 1..]
    ensures if ParseInt(hexaChar, 16).Number?
            then cur + 3 <= |s| &&
                 Decode(s[cur..]) == [ByteOf(ParseInt(hexaChar, 16).value)] + Decode(s[cur + 3..])
            else Decode(s[cur..]) == ['%'] + Decode(s[cur + 1..])
  {
    var t := s[cur..];
    assert t[1..] == s[cur + 1..];
    if cur + 3 <= |s| {
      assert t[1..3] == hexaChar && t[3..] == s[cur + 3..];
    } else {
      assert ParseInt("", 16) == Invalid;
    }
  }

  /** A percent sign without two characters behind it stays. */
  lemma NothingLeft(s: string, idx: nat, stop: nat)
    requires idx <= stop <= |s| <= stop + 2 && forall j :: idx <= j < stop ==> s[j] != '%'
    ensures Decode(s[idx..]) == s[idx..]
  {
    var t := s[idx..];
    DecodeSkip(t, stop - idx);
    var u := t[stop - idx..];
    assert |u| > 0 ==> Decode(u) == [u[0]] + Decode(u[1..]);
    assert |u| > 1 ==> Decode(u[1..]) == [u[1]] + Decode(u[1..][1..]);
    assert Decode(u) == u;
    assert t == t[..stop - idx] + u;
  }

  // ----- decoding undoes encoding (section 2.1 of RFC 3986)

  datatype Form = Raw | Lower | Upper

  function HexUpper(d: nat): (c: char)
    requires d < 16
    ensures DigitValue(c) == d
  {
    "0123456789ABCDEF"[d]
  }

  function Escape(c: char, form: Form): string
    requires c < 256 as char
  {
    if form.Raw? then [c]
    else if form.Lower? then ['%', DigitChar(c as int / 16), DigitChar(c as int % 16)]
    else ['%', HexUpper(c as int / 16), HexUpper(c as int % 16)]
  }

  function Encode(s: string, forms: seq<Form>): string
    requires |s| == |forms| && forall i :: 0 <= i < |s| ==> s[i] < 256 as char
  {
    if s == "" then "" else Escape(s[0], forms[0]) + Encode(s[1..], forms[1..])
  }

  lemma HexPair(t: string, hi: nat, lo: nat)
    requires |t| == 2 && hi < 16 && lo < 16 && DigitValue(t[0]) == hi && DigitValue(t[1]) == lo
    ensures ParseInt(t, 16) == Number(16 * hi + lo)
  {
    assert t[..1] == [t[0]] && [t[0]][..0] == "";
    assert AllDigits(t, 16);
    ValueSnoc("", t[0], 16);
    ValueSnoc([t[0]], t[1], 16);
    assert "" + [t[0]] == [t[0]] && [t[0]] + [t[1]] == t;
    ParseDigits(t, 16);
  }

  /** Encoding every `%` and any other bytes, in either letter case, is undone. */
  lemma {:induction false} DecodeEncode(s: string, forms: seq<Form>)
    requires |s| == |forms| && forall i :: 0 <= i < |s| ==> s[i] < 256 as char
    requires forall i :: 0 <= i < |s| && s[i] == '%' ==> !forms[i].Raw?
    ensures Decode(Encode(s, forms)) == s
  {
    hide Decode, Escape;
    if s != "" {
      DecodeEncode(s[1..], forms[1..]);
      EscapeUndone(s[0], forms[0], Encode(s[1..], forms[1..]));
      assert s == [s[0]] + s[1..];
    } else {
      DecodeEmpty();
    }
  }

  lemma DecodeEmpty()
    ensures Decode("") == ""
  {
  }

  lemma EscapeUndone(c: char, form: Form, rest: string)
    requires c < 256 as char && (c == '%' ==> !form.Raw?)
    ensures Decode(Escape(c, form) + rest) == [c] + Decode(rest)
  {
    hide ParseInt, Decode, DigitValue, DigitChar;
    var t := Escape(c, form);
    var e := t + rest;
    if form.Raw? {
      DecodePlain(e);
      assert e[1..] == rest;
    } else {
      assert e[3..] == rest && e[1..3] == t[1..];
      HexPair(e[1..3], c as int / 16, c as int % 16);
      DecodeEscape(e);
    }
  }

  // ----- the laxity of getInt shows through

  predicate IsHex(c: char) { IsDigit(c, 16) }

  /** Decoding as section 2.1 of RFC 3986 has it: a percent sign and two hex digits. */
  function Strict(s: string): string {
    if s == "" then ""
    else if |s| > 2 && s[0] == '%' && IsHex(s[1]) && IsHex(s[2]) then
      [ByteOf(16 * DigitValue(s[1]) + DigitValue(s[2]))] + Strict(s[3..])
    else [s[0]] + Strict(s[1..])
  }

  predicate IsFiller(c: char) { IsBlank(c) || c == '+' || c == '-' }

  /** A percent sign, a blank or a sign, and one hex digit. */
  predicate LaxAt(s: string, i: nat) {
    i + 2 < |s| && s[i] == '%' && IsFiller(s[i + 1]) && IsHex(s[i + 2])
  }

  lemma TwoCharacters(t: string)
    requires |t| == 2
    ensures ParseInt(t, 16).Number? <==> IsHex(t[1]) && (IsHex(t[0]) || IsFiller(t[0]))
    ensures IsHex(t[0]) && IsHex(t[1]) ==> ParseInt(t, 16) == Number(16 * DigitValue(t[0]) + DigitValue(t[1]))
  {
    if IsHex(t[0]) && IsHex(t[1]) {
      HexPair(t, DigitValue(t[0]), DigitValue(t[1]));
    } else if IsBlank(t[0]) || t[0] == '+' || t[0] == '-' {
      assert SkipBlanks(t, 0) == if IsBlank(t[0]) then SkipBlanks(t, 1) else 0;
      assert t[1..] == [t[1]] && t[2..] == "";
      assert SkipBlanks(t, 1) == if IsBlank(t[1]) then 2 else 1;
      assert [t[1]][..0] == "";
      if IsHex(t[1]) { ValueSnoc("", t[1], 16); assert "" + [t[1]] == [t[1]]; }
    } else {
      assert SkipBlanks(t, 0) == 0;
      assert t[0..] == t;
    }
  }

  /** The server decodes a text as the RFC does exactly when no percent sign is
      followed by a blank or a sign and one hex digit. */
  lemma {:induction false} DecodeIsStrict(s: string)
    ensures |Decode(s)| <= |Strict(s)|
    ensures (forall i: nat :: !LaxAt(s, i)) ==> Decode(s) == Strict(s)
    ensures (exists i: nat :: LaxAt(s, i)) ==> |Decode(s)| < |Strict(s)|
    decreases |s|
  {
    hide ParseInt, IsFiller, Decode, Strict;
    if s == "" {
      DecodeStrictEmpty(s);
    } else {
      var n := if IsEscape(s) then 3 else 1;
      DecodeIsStrict(s[n..]);
      StrictStep(s);
      forall i: nat ensures LaxAt(s[n..], i) == LaxAt(s, i + n) {
      }
      if i: nat :| LaxAt(s[n..], i) { assert LaxAt(s, i + n); }
      if i: nat :| LaxAt(s, i) && i >= n { assert LaxAt(s[n..], i - n); }
    }
  }

  lemma DecodeStrictEmpty(s: string)
    requires s == ""
    ensures Decode(s) == Strict(s)
  {
  }

  /** One step of both decoders: they agree, or the server accepts a lax escape,
      which the strict one copies. */
  lemma StrictStep(s: string)
    requires s != ""
    ensures var n := if IsEscape(s) then 3 else 1;
            && (LaxAt(s, 0) ==>
              IsEscape(s) && |Decode(s)| == 1 + |Decode(s[3..])| && |Strict(s)| == 3 + |Strict(s[3..])|)
            && (!LaxAt(s, 0) ==> exists c :: Decode(s) == [c] + Decode(s[n..]) && Strict(s) == [c] + Strict(s[n..]))
            && forall i: nat :: 0 < i < n ==> !LaxAt(s, i)
  {
    hide ParseInt, Decode, Strict, DigitValue, IsHex, IsFiller;
    if |s| > 2 {
      TwoCharacters(s[1..3]);
      NotPercent(s[1]);
      NotPercent(s[2]);
      FillerIsNotHex(s[1]);
    }
    if IsEscape(s) { DecodeEscape(s); } else { DecodePlain(s); }
    if LaxAt(s, 0) {
      LaxStrict(s);
    } else if IsEscape(s) {
      StrictEscape(s);
    } else {
      StrictPlain(s);
    }
  }

  lemma StrictEscape(s: string)
    requires |s| > 2 && s[0] == '%' && IsHex(s[1]) && IsHex(s[2])
    ensures Strict(s) == [ByteOf(16 * DigitValue(s[1]) + DigitValue(s[2]))] + Strict(s[3..])
  {
  }

  lemma StrictPlain(s: string)
    requires s != "" && !(|s| > 2 && s[0] == '%' && IsHex(s[1]) && IsHex(s[2]))
    ensures Strict(s) == [s[0]] + Strict(s[1..])
  {
  }

  lemma FillerIsNotHex(c: char)
    ensures IsFiller(c) ==> !IsHex(c)
  {
  }

  lemma NotPercent(c: char)
    ensures IsHex(c) || IsFiller(c) ==> c != '%'
  {
  }

  lemma LaxStrict(s: string)
    requires LaxAt(s, 0) && !IsHex(s[1])
    ensures |Strict(s)| == 3 + |Strict(s[3..])|
  {
    hide IsHex, IsFiller, Strict;
    NotPercent(s[1]);
    NotPercent(s[2]);
    assert s[1..][1..] == s[2..] && s[2..][1..] == s[3..];
    StrictPlain(s);
    StrictPlain(s[1..]);
    StrictPlain(s[2..]);
  }

  lemma LaxEscapesDiffer(s: string)
    ensures Decode(s) == Strict(s) <==> forall i: nat :: !LaxAt(s, i)
  {
    DecodeIsStrict(s);
  }
}
