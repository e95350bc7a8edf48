/** Reducing the path of a URI, in place (Request::checkPath in srcs/Request.cpp). */
module Paths {
  import opened Text

  const PARENT: string := ".."

  // ----- the two erasing loops

  /** Every run of slashes becomes one slash. */
  function Collapse(p: string): string {
    if p == "" then ""
    else if |p| > 1 && p[0] == '/' && p[1] == '/' then Collapse(p[1..])
    else [p[0]] + Collapse(p[1..])
  }

  /** Every `/./` becomes `/`. */
  function DropDots(p: string): string {
    if p == "" then ""
    else if OccursAt(p, "/./", 0) then DropDots(p[2..])
    else [p[0]] + DropDots(p[1..])
  }

  function Erase(p: string, i: nat, n: nat): string
    requires i + n <= |p|
  {
    p[..i] + p[i + n..]
  }

  lemma SlashesAt(p: string, i: nat)
    ensures OccursAt(p, "//", i) <==> i + 1 < |p| && p[i] == '/' && p[i + 1] == '/'
  {
    if i + 2 <= |p| { assert p[i..i + 2] == [p[i], p[i + 1]]; }
  }

  lemma DotAt(p: string, i: nat)
    ensures OccursAt(p, "/./", i) <==> i + 2 < |p| && p[i] == '/' && p[i + 1] == '.' && p[i + 2] == '/'
  {
    if i + 3 <= |p| { assert p[i..i + 3] == [p[i], p[i + 1], p[i + 2]]; }
  }

  lemma {:induction false} CollapseErase(p: string, i: nat)
    requires i + 1 < |p| && p[i] == '/' && p[i + 1] == '/'
    ensures Collapse(Erase(p, i, 1)) == Collapse(p)
  {
    var q := Erase(p, i, 1);
    if i == 0 {
      assert q == p[1..];
    } else {
      CollapseErase(p[1..], i - 1);
      assert q[1..] == Erase(p[1..], i - 1, 1);
      assert q[0] == p[0] && (|q| > 1 ==> q[1] == p[1]);
    }
  }

  lemma {:induction false} CollapseDone(p: string)
    requires Find(p, "//", 0).None?
    ensures Collapse(p) == p
  {
    if p != "" {
      SlashesAt(p, 0);
      FindNone(p, "//", 0, 0);
      FindTail(p, "//");
      CollapseDone(p[1..]);
    }
  }

  lemma FindTail(p: string, pat: string)
    requires p != "" && Find(p, pat, 0).None?
    ensures Find(p[1..], pat, 0).None?
  {
    var f := Find(p[1..], pat, 0);
    if f.Some? {
      OccursShift(p, pat, 1, f.value);
      FindLeast(p, pat, 0, 1 + f.value);
    }
  }

  /** Erasing the leftmost `/./` does not create one further left. */
  lemma {:induction false} DropDotsErase(p: string, i: nat)
    requires OccursAt(p, "/./", i) && forall j :: 0 <= j < i ==> !OccursAt(p, "/./", j)
    ensures i + 2 <= |p| && DropDots(Erase(p, i, 2)) == DropDots(p)
  {
    DotAt(p, i);
    var q := Erase(p, i, 2);
    if i == 0 {
      assert q == p[2..];
    } else {
      DotAt(p, 0);
      DotAt(q, 0);
      forall j | 0 <= j < i - 1 ensures !OccursAt(p[1..], "/./", j) {
        DotAt(p, j + 1);
        DotAt(p[1..], j);
      }
      DotAt(p[1..], i - 1);
      DropDotsErase(p[1..], i - 1);
      assert q[1..] == Erase(p[1..], i - 1, 2);
      assert q[0] == p[0];
    }
  }

  lemma {:induction false} DropDotsDone(p: string)
    requires Find(p, "/./", 0).None?
    ensures DropDots(p) == p
  {
    if p != "" {
      FindNone(p, "/./", 0, 0);
      FindTail(p, "/./");
      DropDotsDone(p[1..]);
    }
  }

  // ----- segments

  function Segments(p: string): (r: seq<string>)
    ensures r != []
    decreases |p|
  {
    match Find(p, "/", 0)
    case None => [p]
    case Some(i) => [p[..i]] + Segments(p[i + 1..])
  }

  function Join(v: seq<string>): string {
    if v == [] then "" else if |v| == 1 then v[0] else v[0] + "/" + Join(v[1..])
  }

  lemma {:induction false} JoinSnoc(v: seq<string>, s: string)
    requires v != []
    ensures Join(v + [s]) == Join(v) + "/" + s
  {
    if |v| > 1 {
      JoinSnoc(v[1..], s);
      assert (v + [s])[1..] == v[1..] + [s];
    } else {
      assert (v + [s])[1..] == [s];
    }
  }

  predicate Plain(s: string) {
    forall i :: 0 <= i < |s| ==> s[i] != '/'
  }

  lemma FindSlash(a: string, b: string)
    requires Plain(a)
    ensures Find(a + "/" + b, "/", 0) == Some(|a|)
  {
    hide OccursAt;
    var p := a + "/" + b;
    OccursMiddle(a, "/", b);
    FindLeast(p, "/", 0, |a|);
    var i := Find(p, "/", 0).value;
    OccursFirst(p, "/", i);
    assert forall k :: 0 <= k < |a| ==> p[k] == a[k];
  }

  lemma SlashAt(p: string, i: nat)
    ensures OccursAt(p, "/", i) <==> i < |p| && p[i] == '/'
  {
    if i < |p| { assert p[i..i + 1] == [p[i]]; }
  }

  lemma CutAt(p: string, i: nat)
    requires i < |p| && p[i] == '/'
    ensures p == p[..i] + "/" + p[i + 1..]
  {
  }

  lemma FindSlashPrefix(p: string)
    ensures match Find(p, "/", 0)
            case None => Plain(p)
            case Some(i) => i < |p| && Plain(p[..i]) && p[i] == '/' && p == p[..i] + "/" + p[i + 1..]
  {
    hide OccursAt, Find;
    var f := Find(p, "/", 0);
    var stop := if f.Some? then f.value else |p|;
    if f.Some? {
      SlashAt(p, f.value);
      CutAt(p, f.value);
    }
    forall k | 0 <= k < stop ensures k < |p| && p[k] != '/' {
      if f.Some? { FindBefore(p, "/", 0, k); } else { FindNone(p, "/", 0, k); }
      SlashAt(p, k);
    }
  }

  lemma PlainHasNoSlash(s: string)
    requires Plain(s)
    ensures Find(s, "/", 0).None?
  {
    hide OccursAt;
    var f := Find(s, "/", 0);
    SlashAt(s, if f.Some? then f.value else 0);
  }

  /** Splitting and joining are inverse. */
  lemma {:induction false} JoinSegments(p: string)
    ensures Join(Segments(p)) == p && forall s :: s in Segments(p) ==> Plain(s)
    decreases |p|
  {
    FindSlashPrefix(p);
    var f := Find(p, "/", 0);
    if f.Some? {
      var rest := p[f.value + 1..];
      JoinSegments(rest);
      assert Segments(p)[1..] == Segments(rest);
    }
  }

  lemma {:induction false} SegmentsJoin(v: seq<string>)
    requires v != [] && forall s :: s in v ==> Plain(s)
    ensures Segments(Join(v)) == v
  {
    if |v| == 1 {
      PlainHasNoSlash(v[0]);
    } else {
      FindSlash(v[0], Join(v[1..]));
      SegmentsJoin(v[1..]);
      assert Join(v)[|v[0]| + 1..] == Join(v[1..]);
      assert Join(v)[..|v[0]|] == v[0];
    }
  }

  /** The segments with a slash on both sides. */
  function Inner(v: seq<string>): seq<string> {
    if |v| < 2 then [] else v[1..|v| - 1]
  }

  /** A text between two slashes is an inner segment: so `//` and `/./` occur in a
      path exactly when `""` and `"."` are inner segments of it. */
  lemma {:induction false} InnerSegment(p: string, m: string)
    requires Plain(m)
    ensures m in Inner(Segments(p)) <==> exists i: nat :: OccursAt(p, "/" + m + "/", i)
    decreases |p|
  {
    hide OccursAt;
    var pat := "/" + m + "/";
    FindSlashPrefix(p);
    var f := Find(p, "/", 0);
    if f.None? {
      forall i: nat ensures !OccursAt(p, pat, i) {
        FindNone(p, "/", 0, i);
        SlashAt(p, i);
        OccursFirst(p, pat, i);
      }
    } else {
      var a, rest := p[..f.value], p[f.value + 1..];
      var v := Segments(rest);
      InnerSegment(rest, m);
      assert Segments(p) == [a] + v;
      InnerCons(a, v, m);
      FirstSegment(rest, m);
      forall i: nat ensures OccursAt(p, pat, i) ==
        (i == f.value && OccursAt(rest, m + "/", 0)) || (i > f.value && OccursAt(rest, pat, i - f.value - 1))
      {
        PatternAt(a, rest, m, i);
      }
      if OccursAt(rest, m + "/", 0) { assert OccursAt(p, pat, f.value); }
      if i: nat :| OccursAt(rest, pat, i) { PatternAt(a, rest, m, i + f.value + 1); }
    }
  }

  lemma InnerCons(a: string, v: seq<string>, m: string)
    requires v != []
    ensures m in Inner([a] + v) <==> |v| > 1 && (m == v[0] || m in Inner(v))
  {
    if |v| > 1 { assert Inner([a] + v) == [v[0]] + Inner(v); }
  }

  lemma FirstSegment(p: string, m: string)
    requires Plain(m)
    ensures OccursAt(p, m + "/", 0) <==> |Segments(p)| > 1 && Segments(p)[0] == m
  {
    if OccursAt(p, m + "/", 0) {
      var b := p[|m| + 1..];
      assert p == p[0..|m| + 1] + b;
      assert p == m + "/" + b;
      FindSlash(m, b);
    }
    FindSlashPrefix(p);
    var f := Find(p, "/", 0);
    if f.Some? {
      assert p[0..f.value + 1] == p[..f.value] + "/";
    }
  }

  lemma PatternAt(a: string, rest: string, m: string, i: nat)
    requires Plain(a)
    ensures var p := a + "/" + rest; var pat := "/" + m + "/";
            OccursAt(p, pat, i) ==
            ((i == |a| && OccursAt(rest, m + "/", 0)) || (i > |a| && OccursAt(rest, pat, i - |a| - 1)))
  {
    var p, pat := a + "/" + rest, "/" + m + "/";
    OccursFirst(p, pat, i);
    assert forall k :: 0 <= k < |a| ==> p[k] == a[k];
    if i < |a| {
    } else if i == |a| {
      if i + |pat| <= |p| {
        assert p[i..i + |pat|] == "/" + rest[0..|m| + 1];
        assert pat == "/" + (m + "/");
        assert p[i..i + |pat|][1..] == rest[0..|m| + 1] && pat[1..] == m + "/";
      }
    } else if i + |pat| <= |p| {
      assert p[i..i + |pat|] == rest[i - |a| - 1..i - |a| - 1 + |pat|];
    }
  }

  // ----- the stack of segments

  datatype Reduction = Reduced(stack: seq<string>) | Climbs(left: seq<string>)

  /** The splitting loop: `v` is the stack, the last segment is kept as it is. On a
      `..` with nothing to pop the segments not yet read are left. */
  function Reduce(v: seq<string>, segs: seq<string>): Reduction
    requires segs != []
    decreases |segs|
  {
    if |segs| == 1 then Reduced(v + segs)
    else if segs[0] == PARENT then
      if v == [] then Climbs(segs[1..]) else Reduce(v[..|v| - 1], segs[1..])
    else Reduce(v + [segs[0]], segs[1..])
  }

  function Cleaned(path: string): string {
    DropDots(Collapse(if |path| > 1 && path[0] == '.' && path[1] == '/' then path[2..] else path))
  }

  class ParsedUri {
    var path: string

    /** checkPath: the code is 1 when the path climbs above its start. */
    method CheckPath() returns (code: int)
      modifies this
      ensures match Reduce([], Segments(Cleaned(old(path))))
              case Reduced(v) => code == 0 && path == Join(v)
              case Climbs(left) => code == 1 && path == Join(left)
    {
      hide Collapse, DropDots, Reduce, Segments, Join;
      if At(path, 0) == '.' && At(path, 1) == '/' {
        path := path[2..];
      }
      EraseRuns();
      EraseDots();
      code := ReduceSegments();
    }

    method EraseRuns()
      modifies this
      ensures path == Collapse(old(path))
    {
      hide OccursAt, Collapse, Find;
      var idx := Find(path, "//", 0);
      while idx.Some?
        invariant Collapse(path) == Collapse(old(path))
        invariant idx == Find(path, "//", 0)
        decreases |path|
      {
        SlashesAt(path, idx.value);
        CollapseErase(path, idx.value);
        path := Erase(path, idx.value, 1);
        idx := Find(path, "//", 0);
      }
      CollapseDone(path);
    }

    method EraseDots()
      modifies this
      ensures path == DropDots(old(path))
    {
      hide OccursAt, DropDots, Find;
      var idx := Find(path, "/./", 0);
      while idx.Some?
        invariant DropDots(path) == DropDots(old(path))
        invariant idx == Find(path, "/./", 0)
        decreases |path|
      {
        LeftmostDot(path);
        DropDotsErase(path, idx.value);
        path := Erase(path, idx.value, 2);
        idx := Find(path, "/./", 0);
      }
      DropDotsDone(path);
    }

    method ReduceSegments() returns (code: int)
      modifies this
      ensures match Reduce([], Segments(old(path)))
              case Reduced(v) => code == 0 && path == Join(v)
              case Climbs(left) => code == 1 && path == Join(left)
    {
      hide OccursAt, Reduce, Segments, Join, Find, Plain;
      var v: seq<string> := [];
      var idx := Find(path, "/", 0);
      while idx.Some?
        invariant idx == Find(path, "/", 0)
        invariant Reduce(v, Segments(path)) == Reduce([], Segments(old(path)))
        decreases |path|
      {
        FindSlashPrefix(path);
        SegmentsStep(path);
        var subpath := path[..idx.value];
        path := path[idx.value + 1..];
        ReduceStep(v, subpath, Segments(path));
        if subpath == PARENT && |v| == 0 {
          JoinSegments(path);
          return 1;
        } else if subpath == PARENT {
          v := v[..|v| - 1];
        } else {
          v := v + [subpath];
        }
        idx := Find(path, "/", 0);
      }
      SegmentsStep(path);
      ReduceEnd(v, path);
      v := v + [path];
      Rejoin(v);
      return 0;
    }

    method Rejoin(v: seq<string>)
      requires v != []
      modifies this
      ensures path == Join(v)
    {
      path := "";
      for it := 0 to |v|
        invariant path == if it == 0 then "" else "/" + Join(v[..it])
      {
        if it > 0 { JoinSnoc(v[..it], v[it]); }
        path := path + "/" + v[it];
        assert v[..it] + [v[it]] == v[..it + 1];
      }
      assert v[..|v|] == v;
      path := path[1..];
    }
  }

  lemma LeftmostDot(p: string)
    requires Find(p, "/./", 0).Some?
    ensures var i := Find(p, "/./", 0).value;
            OccursAt(p, "/./", i) && (forall j :: 0 <= j < i ==> !OccursAt(p, "/./", j)) && i + 2 <= |p|
  {
    var i := Find(p, "/./", 0).value;
    forall j | 0 <= j < i ensures !OccursAt(p, "/./", j) { FindBefore(p, "/./", 0, j); }
  }

  lemma SegmentsStep(p: string)
    ensures match Find(p, "/", 0)
            case None => Segments(p) == [p]
            case Some(i) => Segments(p) == [p[..i]] + Segments(p[i + 1..])
  {
  }

  lemma ReduceStep(v: seq<string>, s: string, rest: seq<string>)
    requires rest != []
    ensures var r := Reduce(v, [s] + rest);
            if s == PARENT && v == [] then r == Climbs(rest)
            else if s == PARENT then r == Reduce(v[..|v| - 1], rest)
            else r == Reduce(v + [s], rest)
  {
    assert ([s] + rest)[1..] == rest;
  }

  lemma ReduceEnd(v: seq<string>, s: string)
    ensures Reduce(v, [s]) == Reduced(v + [s])
  {
  }

  // ----- what the reduction means

  function Parents(segs: seq<string>): nat {
    if segs == [] then 0 else Parents(segs[..|segs| - 1]) + if segs[|segs| - 1] == PARENT then 1 else 0
  }

  /** Among the first `k` segments there are no more `..` than other segments. */
  predicate StaysBelow(segs: seq<string>, k: nat)
    requires k <= |segs|
  {
    Parents(segs[..k]) <= k - Parents(segs[..k])
  }

  lemma {:induction false} ParentsFront(s: string, segs: seq<string>)
    ensures Parents([s] + segs) == Parents(segs) + if s == PARENT then 1 else 0
  {
    var t := [s] + segs;
    if segs == [] {
      assert t[..0] == [];
    } else {
      ParentsFront(s, segs[..|segs| - 1]);
      assert t[..|t| - 1] == [s] + segs[..|segs| - 1];
    }
  }

  /** The stack holds |v| segments, so the walk fails at the first prefix with more
      `..` than the stack and the ordinary segments can pay for. */
  lemma {:induction false} ReduceSucceeds(v: seq<string>, segs: seq<string>)
    requires segs != []
    ensures Reduce(v, segs).Reduced? <==>
      forall k :: 0 <= k < |segs| ==> Parents(segs[..k]) <= |v| + k - Parents(segs[..k])
    decreases |segs|
  {
    if |segs| == 1 {
      assert segs[..0] == [];
    } else {
      var s, rest := segs[0], segs[1..];
      var n := if s == PARENT then |v| - 1 else |v| + 1;
      assert segs == [s] + rest;
      ReduceStep(v, s, rest);
      assert segs[..0] == [];
      forall k | 0 <= k < |rest|
        ensures Parents(segs[..k + 1]) == Parents(rest[..k]) + if s == PARENT then 1 else 0
      {
        ParentsFront(s, rest[..k]);
        assert segs[..k + 1] == [s] + rest[..k];
      }
      if s == PARENT && v == [] {
        assert rest[..0] == [] && Parents(segs[..1]) == 1;
      } else {
        var w := if s == PARENT then v[..|v| - 1] else v + [s];
        ReduceSucceeds(w, rest);
        assert forall k :: 0 <= k < |rest| ==>
          ((Parents(rest[..k]) <= n + k - Parents(rest[..k])) <==>
           (Parents(segs[..k + 1]) <= |v| + (k + 1) - Parents(segs[..k + 1])));
        forall k | 0 <= k < |segs|
          ensures k == 0 || (Parents(segs[..k]) <= |v| + k - Parents(segs[..k]) <==>
                             Parents(rest[..k - 1]) <= n + (k - 1) - Parents(rest[..k - 1]))
        {
          if k > 0 { assert 0 <= k - 1 < |rest|; }
        }
      }
    }
  }

  /** Reading the segments from the right instead: every `..` cancels the nearest
      ordinary segment to its left. The second part counts `..` still to be paid. */
  function FromRight(segs: seq<string>, owed: nat): (seq<string>, nat) {
    if segs == [] then ([], owed)
    else
      var s, init := segs[|segs| - 1], segs[..|segs| - 1];
      if s == PARENT then FromRight(init, owed + 1)
      else if owed > 0 then FromRight(init, owed - 1)
      else var (kept, left) := FromRight(init, 0); (kept + [s], left)
  }

  lemma {:induction false} FromRightAppend(a: seq<string>, b: seq<string>, owed: nat)
    ensures var (kb, nb) := FromRight(b, owed); var (ka, na) := FromRight(a, nb);
            FromRight(a + b, owed) == (ka + kb, na)
  {
    if b == [] {
      assert a + b == a;
      var (ka, na) := FromRight(a, owed);
      assert ka + [] == ka;
    } else {
      var s, init := b[|b| - 1], b[..|b| - 1];
      assert (a + b)[..|a + b| - 1] == a + init;
      FromRightAppend(a, init, if s == PARENT then owed + 1 else if owed > 0 then owed - 1 else 0);
      if s != PARENT && owed == 0 {
        var (ki, ni) := FromRight(init, 0);
        var (ka, na) := FromRight(a, ni);
        assert ka + (ki + [s]) == (ka + ki) + [s];
      }
    }
  }

  lemma {:induction false} FromRightOrdinary(v: seq<string>)
    requires PARENT !in v
    ensures FromRight(v, 0) == (v, 0)
  {
    if v != [] {
      FromRightOrdinary(v[..|v| - 1]);
      assert v == v[..|v| - 1] + [v[|v| - 1]];
    }
  }

  /** A popped pair is invisible to the reading from the right. */
  lemma PairCancels(v: seq<string>, s: string, rest: seq<string>)
    requires s != PARENT
    ensures FromRight(v + [s] + [PARENT] + rest, 0) == FromRight(v + rest, 0)
  {
    hide FromRight;
    var pair := [s] + [PARENT];
    var (kr, nr) := FromRight(rest, 0);
    FromRightAppend(v, rest, 0);
    FromRightAppend(v, pair + rest, 0);
    FromRightAppend(pair, rest, 0);
    PairAlone(s, nr);
    assert v + [s] + [PARENT] + rest == v + (pair + rest);
    assert [] + kr == kr;
  }

  lemma PairAlone(s: string, owed: nat)
    requires s != PARENT
    ensures FromRight([s] + [PARENT], owed) == ([], owed)
  {
    var pair := [s] + [PARENT];
    assert pair[..1] == [s] && [s][..0] == [];
    assert FromRight([s], owed + 1) == FromRight([], owed);
  }

  lemma {:induction false} ReduceFromRight(v: seq<string>, segs: seq<string>)
    requires segs != [] && PARENT !in v && Reduce(v, segs).Reduced?
    ensures var (kept, owed) := FromRight(v + segs[..|segs| - 1], 0);
            owed == 0 && Reduce(v, segs) == Reduced(kept + [segs[|segs| - 1]])
    decreases |segs|
  {
    hide FromRight;
    if |segs| == 1 {
      FromRightOrdinary(v);
      assert v + segs[..0] == v;
    } else {
      var s, rest := segs[0], segs[1..];
      var dirs := rest[..|rest| - 1];
      assert segs[..|segs| - 1] == [s] + dirs;
      if s == PARENT {
        var w := v[..|v| - 1];
        ReduceFromRight(w, rest);
        assert v == w + [v[|w|]] && v[|w|] in v;
        PairCancels(w, v[|w|], dirs);
        assert v + ([s] + dirs) == w + [v[|w|]] + [PARENT] + dirs;
      } else {
        ReduceFromRight(v + [s], rest);
        assert v + ([s] + dirs) == v + [s] + dirs;
      }
    }
  }

  lemma {:induction false} ReduceInner(v: seq<string>, segs: seq<string>, m: string)
    requires segs != [] && Reduce(v, segs).Reduced?
    requires (v == [] || m !in v[1..]) && m !in (if v == [] then Inner(segs) else segs[..|segs| - 1])
    ensures m !in Inner(Reduce(v, segs).stack)
    decreases |segs|
  {
    if |segs| == 1 {
      if v != [] { assert Inner(v + segs) == v[1..]; }
    } else {
      var s, rest := segs[0], segs[1..];
      assert segs == [s] + rest;
      ReduceStep(v, s, rest);
      var dirs := rest[..|rest| - 1];
      assert segs[..|segs| - 1] == [s] + dirs && Inner(segs) == dirs;
      assert m !in dirs;
      assert forall x :: x in Inner(rest) ==> x in dirs;
      if s == PARENT {
        var w := v[..|v| - 1];
        assert w != [] ==> w[1..] == v[1..][..|v| - 2];
        ReduceInner(w, rest, m);
      } else {
        var w := v + [s];
        assert v == [] ==> w[1..] == [];
        assert v != [] ==> w[1..] == v[1..] + [s];
        ReduceInner(w, rest, m);
      }
    }
  }

  lemma {:induction false} ReduceKeeps(v: seq<string>, segs: seq<string>)
    requires segs != [] && Reduce(v, segs).Reduced? && PARENT !in v
    requires forall s :: s in v || s in segs ==> Plain(s)
    ensures var r := Reduce(v, segs).stack;
            r != [] && PARENT !in r[..|r| - 1] && r[|r| - 1] == segs[|segs| - 1] && forall s :: s in r ==> Plain(s)
    decreases |segs|
  {
    if |segs| == 1 {
      assert (v + segs)[..|v|] == v;
    } else {
      assert forall s :: s in segs[1..] ==> s in segs;
      assert segs[0] in segs;
      assert v != [] ==> forall s :: s in v[..|v| - 1] ==> s in v;
      if segs[0] == PARENT {
        ReduceKeeps(v[..|v| - 1], segs[1..]);
      } else {
        ReduceKeeps(v + [segs[0]], segs[1..]);
      }
    }
  }

  lemma {:induction false} CollapseHasNoRuns(p: string)
    ensures Find(Collapse(p), "//", 0).None?
    ensures p != "" ==> Collapse(p) != "" && Collapse(p)[0] == p[0]
  {
    if p != "" {
      CollapseHasNoRuns(p[1..]);
      var c := Collapse(p);
      if |p| > 1 && p[0] == '/' && p[1] == '/' {
      } else {
        var rest := Collapse(p[1..]);
        assert c == [p[0]] + rest && c[1..] == rest;
        SlashesAt(c, 0);
        NotFoundCons(c, "//");
      }
    }
  }

  lemma NotFoundCons(p: string, pat: string)
    requires p != "" && Find(p[1..], pat, 0).None? && !OccursAt(p, pat, 0)
    ensures Find(p, pat, 0).None?
  {
    hide OccursAt;
    var f := Find(p, pat, 0);
    if f.Some? {
      var i := f.value;
      FindNone(p[1..], pat, 0, i - 1);
      OccursTail(p, pat, i);
    }
  }

  /** Without runs of slashes, dropping `/./` leaves neither. */
  lemma {:induction false} DropDotsClean(p: string)
    requires Find(p, "//", 0).None?
    ensures Find(DropDots(p), "//", 0).None? && Find(DropDots(p), "/./", 0).None?
    ensures p != "" ==> DropDots(p) != "" && DropDots(p)[0] == p[0]
    ensures |p| > 1 && p[0] != '/' ==> |DropDots(p)| > 1 && DropDots(p)[1] == p[1]
    decreases |p|
  {
    if p != "" {
      FindTail(p, "//");
      DotAt(p, 0);
      SlashesAt(p, 0);
      FindNone(p, "//", 0, 0);
      if OccursAt(p, "/./", 0) {
        assert p[1..][1..] == p[2..];
        FindTail(p[1..], "//");
        DropDotsClean(p[2..]);
      } else {
        DropDotsClean(p[1..]);
        var d, rest := DropDots(p), DropDots(p[1..]);
        assert d == [p[0]] + rest && d[1..] == rest;
        SlashesAt(d, 0);
        DotAt(d, 0);
        NotFoundCons(d, "//");
        NotFoundCons(d, "/./");
      }
    }
  }

  /** The cleaned path holds neither `//` nor `/./`. */
  lemma CleanedIsClean(path: string)
    ensures "" !in Inner(Segments(Cleaned(path))) && "." !in Inner(Segments(Cleaned(path)))
  {
    hide Collapse, DropDots, Segments;
    var p := if |path| > 1 && path[0] == '.' && path[1] == '/' then path[2..] else path;
    CollapseHasNoRuns(p);
    DropDotsClean(Collapse(p));
    var c := Cleaned(path);
    assert "/" + "" + "/" == "//" && "/" + "." + "/" == "/./";
    NotInner(c, "");
    NotInner(c, ".");
  }

  lemma NotInner(p: string, m: string)
    requires Plain(m) && Find(p, "/" + m + "/", 0).None?
    ensures m !in Inner(Segments(p))
  {
    hide OccursAt, Segments, Inner;
    InnerSegment(p, m);
    forall i: nat ensures !OccursAt(p, "/" + m + "/", i) { FindNone(p, "/" + m + "/", 0, i); }
  }

  /** What checkPath computes. It succeeds exactly when no prefix of the directory
      part has more `..` than ordinary segments. The result then is the reading from
      the right followed by the last segment, has no `//` and no `/./`, and holds
      `..` at most as its last segment. */
  lemma PathReduction(path: string)
    ensures var segs := Segments(Cleaned(path));
            var r := Reduce([], segs);
            && (r.Reduced? <==> forall k :: 0 <= k < |segs| ==> StaysBelow(segs, k))
            && (r.Reduced? ==>
                 && r.stack != []
                 && FromRight(segs[..|segs| - 1], 0) == (r.stack[..|r.stack| - 1], 0)
                 && r.stack[|r.stack| - 1] == segs[|segs| - 1]
                 && Segments(Join(r.stack)) == r.stack
                 && PARENT !in r.stack[..|r.stack| - 1]
                 && (forall i: nat :: !OccursAt(Join(r.stack), "/" + "" + "/", i))
                 && (forall i: nat :: !OccursAt(Join(r.stack), "/" + "." + "/", i)))
  {
    hide Reduce, Segments, FromRight, Join, Cleaned, Inner, OccursAt;
    var segs := Segments(Cleaned(path));
    var r := Reduce([], segs);
    ReduceSucceeds([], segs);
    forall k | 0 <= k < |segs|
      ensures StaysBelow(segs, k) <==> Parents(segs[..k]) <= 0 + k - Parents(segs[..k])
    {
    }
    if r.Reduced? {
      JoinSegments(Cleaned(path));
      ReduceFromRight([], segs);
      assert [] + segs[..|segs| - 1] == segs[..|segs| - 1];
      ReduceKeeps([], segs);
      SegmentsJoin(r.stack);
      CleanedIsClean(path);
      ReduceInner([], segs, "");
      ReduceInner([], segs, ".");
      InnerSegment(Join(r.stack), "");
      InnerSegment(Join(r.stack), ".");
    }
  }

  // ----- dot segments as the standard removes them

  /** The output segments without the last one. */
  function Pop(out: seq<string>): seq<string> { if out == [] then [] else out[..|out| - 1] }

  /** The directory part under section 5.2.4 of RFC 3986, one segment after the other. */
  function WalkDots(out: seq<string>, dirs: seq<string>): seq<string>
    decreases |dirs|
  {
    if dirs == [] then out
    else WalkDots(if dirs[0] == "." then out else if dirs[0] == PARENT then Pop(out) else out + [dirs[0]], dirs[1..])
  }

  /** remove_dot_segments on the segments of a path behind its first slash: a last dot
      segment leaves a slash at the end. */
  function RemoveDotSegments(segs: seq<string>): seq<string>
    requires segs != []
  {
    var dirs, last := WalkDots([], segs[..|segs| - 1]), segs[|segs| - 1];
    if last == "." then dirs + [""] else if last == PARENT then Pop(dirs) + [""] else dirs + [last]
  }

  /** Nowhere in the directory part are there more `..` than ordinary segments before it. */
  predicate Climbless(depth: nat, segs: seq<string>)
    requires segs != []
    decreases |segs|
  {
    |segs| == 1 ||
    if segs[0] == "." then Climbless(depth, segs[1..])
    else if segs[0] == PARENT then depth > 0 && Climbless(depth - 1, segs[1..])
    else Climbless(depth + 1, segs[1..])
  }

  /** The segments behind a slash once every `/./` is dropped. */
  function NoDots(segs: seq<string>): (r: seq<string>)
    requires segs != []
    ensures r != []
    decreases |segs|
  {
    if |segs| == 1 then segs else (if segs[0] == "." then [] else [segs[0]]) + NoDots(segs[1..])
  }

  lemma {:induction false} DropDotsBehind(a: string, q: string)
    requires Plain(a)
    ensures DropDots(a + q) == a + DropDots(q)
    decreases |a|
  {
    if a == "" {
      assert a + q == q && a + DropDots(q) == DropDots(q);
    } else {
      DotAt(a + q, 0);
      assert (a + q)[1..] == a[1..] + q;
      DropDotsBehind(a[1..], q);
    }
  }

  /** Dropping every `/./` drops the inner `.` segments. */
  lemma {:induction false} DropDotsSegments(rest: string)
    ensures DropDots("/" + rest) == "/" + Join(NoDots(Segments(rest)))
    decreases |rest|
  {
    hide OccursAt, Segments, DropDots, NoDots, Join;
    var segs := Segments(rest);
    FirstCut(rest);
    NoDotsStep(segs);
    SlashStep(rest);
    if |segs| == 1 {
      DropDotsPlain(rest);
    } else {
      var s, more := segs[0], rest[|segs[0]| + 1..];
      DropDotsSegments(more);
      DropDotsBehind(s, "/" + more);
      assert rest == s + ("/" + more);
    }
  }

  lemma DropDotsPlain(s: string)
    requires Plain(s)
    ensures DropDots(s) == s
  {
    hide OccursAt;
    assert s + "" == s;
    DropDotsBehind(s, "");
  }

  /** One step behind a slash. */
  lemma SlashStep(rest: string)
    ensures var segs := Segments(rest);
            DropDots("/" + rest) ==
            if |segs| > 1 && segs[0] == "." then DropDots("/" + rest[2..]) else "/" + DropDots(rest)
  {
    hide OccursAt, Segments;
    var p := "/" + rest;
    DotAt(p, 0);
    FirstCut(rest);
    DotFirst(rest);
    assert p[1..] == rest;
    if |rest| > 1 { assert p[2..] == rest[1..] && (rest[0] == '.' && rest[1] == '/' ==> rest[1..] == "/" + rest[2..]); }
  }

  lemma NoDotsStep(segs: seq<string>)
    requires segs != []
    ensures Join(NoDots(segs)) ==
            if |segs| == 1 then segs[0]
            else if segs[0] == "." then Join(NoDots(segs[1..]))
            else segs[0] + ("/" + Join(NoDots(segs[1..])))
  {
    hide NoDots, Join;
    NoDotsOne(segs);
    if |segs| > 1 && segs[0] != "." { JoinCons(segs[0], NoDots(segs[1..])); } else { JoinOne(segs[0]); }
  }

  lemma NoDotsOne(segs: seq<string>)
    requires segs != []
    ensures NoDots(segs) ==
            if |segs| == 1 then [segs[0]]
            else if segs[0] == "." then NoDots(segs[1..])
            else [segs[0]] + NoDots(segs[1..])
  {
    if |segs| > 1 { assert [] + NoDots(segs[1..]) == NoDots(segs[1..]); }
  }

  lemma JoinCons(s: string, v: seq<string>)
    requires v != []
    ensures Join([s] + v) == s + ("/" + Join(v))
  {
    assert ([s] + v)[1..] == v;
    assert s + "/" + Join(v) == s + ("/" + Join(v));
  }

  lemma JoinOne(s: string)
    ensures Join([s]) == s
  {
  }

  lemma FirstCut(p: string)
    ensures var segs := Segments(p);
            if |segs| == 1 then Plain(p) && segs[0] == p
            else Plain(segs[0]) && |segs[0]| < |p| && p == segs[0] + "/" + p[|segs[0]| + 1..] &&
                 Segments(p[|segs[0]| + 1..]) == segs[1..]
  {
    FindSlashPrefix(p);
  }

  /** What checkPath has for segments once it has erased its slashes and dots. */
  lemma CleanedSegments(path: string)
    requires "" !in Segments(path)[..|Segments(path)| - 1]
    ensures var segs := Segments(path);
            var w := if |segs| > 1 && segs[0] == "." then segs[1..] else segs;
            Segments(Cleaned(path)) == if |w| == 1 then w else [w[0]] + NoDots(w[1..])
  {
    hide Collapse, DropDots, Segments, Join, NoDots, Plain;
    var segs := Segments(path);
    var w := if |segs| > 1 && segs[0] == "." then segs[1..] else segs;
    var p := if |path| > 1 && path[0] == '.' && path[1] == '/' then path[2..] else path;
    DotFirst(path);
    assert Segments(p) == w && "" !in w[..|w| - 1];
    NoRuns(p);
    CollapseDone(p);
    JoinSegments(p);
    DropDotsAll(p);
    var v := if |w| == 1 then w else [w[0]] + NoDots(w[1..]);
    if |w| > 1 { NoDotsIn(w[1..]); }
    SegmentsJoin(v);
  }

  lemma DotFirst(path: string)
    ensures var segs := Segments(path);
            if |path| > 1 && path[0] == '.' && path[1] == '/'
            then |segs| > 1 && segs[0] == "." && Segments(path[2..]) == segs[1..]
            else !(|segs| > 1 && segs[0] == ".")
  {
    FirstCut(path);
    if |path| > 1 && path[0] == '.' && path[1] == '/' {
      assert path == "." + "/" + path[2..];
      FindSlash(".", path[2..]);
    }
  }

  lemma NoRuns(p: string)
    requires "" !in Segments(p)[..|Segments(p)| - 1]
    ensures Find(p, "//", 0).None?
  {
    hide Segments, Find, OccursAt;
    InnerSegment(p, "");
    assert "/" + "" + "/" == "//";
    var segs := Segments(p);
    assert forall s :: s in Inner(segs) ==> s in segs[..|segs| - 1];
    NotThere(p, "//");
  }

  lemma NotThere(p: string, pat: string)
    requires forall i: nat :: !OccursAt(p, pat, i)
    ensures Find(p, pat, 0).None?
  {
  }

  lemma DropDotsAll(p: string)
    ensures var w := Segments(p); DropDots(p) == Join(if |w| == 1 then w else [w[0]] + NoDots(w[1..]))
  {
    hide Segments, NoDots;
    var w := Segments(p);
    FirstCut(p);
    if |w| == 1 {
      assert p + "" == p;
      DropDotsBehind(p, "");
    } else {
      var rest := p[|w[0]| + 1..];
      assert p == w[0] + ("/" + rest);
      DropDotsBehind(w[0], "/" + rest);
      DropDotsSegments(rest);
      assert ([w[0]] + NoDots(w[1..]))[1..] == NoDots(w[1..]);
    }
  }

  lemma {:induction false} NoDotsIn(segs: seq<string>)
    requires segs != []
    ensures forall s :: s in NoDots(segs) ==> s in segs
    decreases |segs|
  {
    if |segs| > 1 { NoDotsIn(segs[1..]); }
  }

  /** Without climbing, the stack reduction walks as the standard does. */
  lemma {:induction false} ReduceWalks(v: seq<string>, segs: seq<string>)
    requires segs != [] && Climbless(|v|, segs)
    ensures Reduce(v, NoDots(segs)) == Reduced(WalkDots(v, segs[..|segs| - 1]) + [segs[|segs| - 1]])
    decreases |segs|
  {
    if |segs| == 1 {
      assert segs == [segs[0]];
    } else {
      var rest := segs[1..];
      assert segs[..|segs| - 1][1..] == rest[..|rest| - 1];
      assert [] + NoDots(rest) == NoDots(rest);
      assert ([segs[0]] + NoDots(rest))[1..] == NoDots(rest);
      ReduceWalks(if segs[0] == "." then v else if segs[0] == PARENT then Pop(v) else v + [segs[0]], rest);
    }
  }

  /** A dot at the bottom of the stack stays there. */
  lemma {:induction false} BottomStays(v: seq<string>, segs: seq<string>)
    requires segs != [] && Climbless(|v|, segs)
    ensures WalkDots(["."] + v, segs[..|segs| - 1]) == ["."] + WalkDots(v, segs[..|segs| - 1])
    ensures Climbless(|v| + 1, segs)
    decreases |segs|
  {
    if |segs| > 1 {
      var rest := segs[1..];
      assert segs[..|segs| - 1][1..] == rest[..|rest| - 1];
      assert v != [] ==> Pop(["."] + v) == ["."] + Pop(v);
      assert ["."] + (v + [segs[0]]) == ["."] + v + [segs[0]];
      BottomStays(if segs[0] == "." then v else if segs[0] == PARENT then Pop(v) else v + [segs[0]], rest);
    }
  }

  /** For a path that does not climb and has no empty segment but the last, checkPath
      agrees with section 5.2.4 of RFC 3986 if and only if the last segment is no dot
      segment and the path does not start with `././`. */
  lemma AgreesWithStandard(path: string)
    requires var segs := Segments(path); "" !in segs[..|segs| - 1] && Climbless(0, segs)
    ensures var segs := Segments(path);
            var r := Reduce([], Segments(Cleaned(path)));
            && r.Reduced?
            && (r.stack == RemoveDotSegments(segs) <==>
                  segs[|segs| - 1] !in {".", PARENT} && !(|segs| > 1 && segs[0] == "." && segs[1] == "."))
  {
    hide Segments, Cleaned, NoDots, Climbless, WalkDots;
    var segs := Segments(path);
    var w := if |segs| > 1 && segs[0] == "." then segs[1..] else segs;
    CleanedSegments(path);
    FirstDot(segs);
    FirstDot(w);
    assert w[|w| - 1] == segs[|segs| - 1];
    if |w| > 1 && w[0] == "." {
      var rest := w[1..];
      BottomStays([], rest);
      assert ["."] + [] == ["."];
      ReduceWalks(["."], rest);
      assert (["."] + NoDots(rest))[1..] == NoDots(rest);
      assert Reduce([], ["."] + NoDots(rest)) == Reduce([] + ["."], NoDots(rest));
      assert [] + ["."] == ["."];
    } else {
      ReduceWalks([], w);
      var dirs, last := WalkDots([], w[..|w| - 1]), w[|w| - 1];
      assert (dirs + [last])[|dirs|] == last && (dirs + [""])[|dirs|] == "";
      assert (Pop(dirs) + [""])[|Pop(dirs)|] == "";
      assert w == segs || w[..|w| - 1] == segs[1..][..|segs| - 2];
    }
  }

  /** A dot at the front changes nothing for the standard. */
  lemma FirstDot(segs: seq<string>)
    requires segs != []
    ensures |segs| == 1 ==> NoDots(segs) == segs
    ensures |segs| > 1 && segs[0] != "." ==> NoDots(segs) == [segs[0]] + NoDots(segs[1..])
    ensures |segs| > 1 && segs[0] == "." ==>
      (Climbless(0, segs) ==> Climbless(0, segs[1..])) &&
      WalkDots([], segs[..|segs| - 1]) == WalkDots([], segs[1..][..|segs| - 2])
  {
    if |segs| > 1 { assert segs[..|segs| - 1][1..] == segs[1..][..|segs| - 2]; }
  }
}
