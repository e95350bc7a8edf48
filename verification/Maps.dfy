/** Maps sorted by their keys, and the iterator over their distinct values that is used
    while a map is being erased (includes/UniqueValuesMapIterator.tpp). */
module Maps {
  import opened Text

  /** Byte-wise lexicographic order, by which a std::map of strings is sorted. */
  predicate Before(a: string, b: string) {
    if b == "" then false
    else if a == "" then true
    else a[0] < b[0] || (a[0] == b[0] && Before(a[1..], b[1..]))
  }

  lemma BeforeStep(a: string, b: string)
    ensures b == "" ==> !Before(a, b)
    ensures a == "" && b != "" ==> Before(a, b)
    ensures a != "" && b != "" ==> Before(a, b) == (a[0] < b[0] || (a[0] == b[0] && Before(a[1..], b[1..])))
    ensures a != "" && b != "" && a[0] == b[0] ==> (a == b <==> a[1..] == b[1..])
  {
    if a != "" && b != "" { assert a == [a[0]] + a[1..] && b == [b[0]] + b[1..]; }
  }

  /** One text is before another if it is a beginning of it, or has the lower byte where they
      first differ. */
  lemma {:induction false} BeforeMeans(a: string, b: string)
    ensures Before(a, b) <==> exists n: nat :: FirstDifference(a, b, n) && (n == |a| || a[n] < b[n])
  {
    if b == "" {
    } else if a == "" {
      assert FirstDifference(a, b, 0);
    } else if a[0] != b[0] {
      assert FirstDifference(a, b, 0);
      forall n: nat | FirstDifference(a, b, n) ensures n == 0 { SameStart(a, b, n); }
    } else {
      BeforeMeans(a[1..], b[1..]);
      forall n: nat ensures FirstDifference(a, b, n + 1) <==> FirstDifference(a[1..], b[1..], n) {
        DifferenceStep(a, b, n);
      }
      if n: nat :| FirstDifference(a, b, n) && (n == |a| || a[n] < b[n]) {
        assert FirstDifference(a[1..], b[1..], n - 1);
      }
    }
  }

  lemma SameStart(a: string, b: string, n: nat)
    requires FirstDifference(a, b, n)
    ensures n > 0 ==> a[0] == b[0]
  {
    if n > 0 { assert a[..n][0] == a[0] && b[..n][0] == b[0]; }
  }

  predicate FirstDifference(a: string, b: string, n: nat) {
    n <= |a| && n < |b| && a[..n] == b[..n] && (n < |a| ==> a[n] != b[n])
  }

  lemma DifferenceStep(a: string, b: string, n: nat)
    requires a != "" && b != "" && a[0] == b[0]
    ensures FirstDifference(a, b, n + 1) <==> FirstDifference(a[1..], b[1..], n)
  {
    if n + 1 <= |a| && n + 1 < |b| {
      assert a[..n + 1] == [a[0]] + a[1..][..n] && b[..n + 1] == [b[0]] + b[1..][..n];
    }
  }

  lemma {:induction false} BeforeOrder(a: string, b: string, c: string)
    ensures !Before(a, a)
    ensures Before(a, b) && Before(b, c) ==> Before(a, c)
    ensures a != b ==> Before(a, b) || Before(b, a)
    decreases |a| + |b| + |c|
  {
    hide Before;
    BeforeStep(a, a);
    BeforeStep(a, b);
    BeforeStep(b, a);
    BeforeStep(b, c);
    BeforeStep(a, c);
    if a != "" && b != "" && c != "" {
      BeforeOrder(a[1..], b[1..], c[1..]);
    } else if a != "" && b != "" {
      BeforeOrder(a[1..], b[1..], "");
    } else if a != "" {
      BeforeOrder(a[1..], "", "");
    }
  }

  lemma BeforeIsTotal(a: string, b: string)
    ensures (a == b && !Before(a, b) && !Before(b, a)) || (a != b && Before(a, b) != Before(b, a))
  {
    hide Before;
    BeforeOrder(a, b, a);
    BeforeOrder(b, a, b);
  }

  lemma BeforeIsTransitive(a: string, b: string, c: string)
    requires Before(a, b) && Before(b, c)
    ensures Before(a, c)
  {
    hide Before;
    BeforeOrder(a, b, c);
  }

  predicate IsFirst(k: string, keys: set<string>) {
    k in keys && forall j :: j in keys ==> j == k || Before(k, j)
  }

  lemma {:induction false} FirstExists(keys: set<string>)
    requires keys != {}
    ensures exists k :: IsFirst(k, keys)
    decreases keys
  {
    hide Before;
    var j :| j in keys;
    var others := keys - {j};
    assert keys == others + {j};
    if others == {} {
      assert IsFirst(j, keys);
    } else {
      FirstExists(others);
      var k :| IsFirst(k, others);
      BeforeIsTotal(j, k);
      forall i | i in others && Before(j, k) ensures Before(j, i) {
        if i != k { BeforeIsTransitive(j, k, i); }
      }
      assert IsFirst(if Before(j, k) then j else k, keys);
    }
  }

  /** begin() of a map with these keys: its first position, or the end. */
  function First(keys: set<string>): (r: Option<string>)
    ensures r.None? <==> keys == {}
    ensures r.Some? ==> IsFirst(r.value, keys)
  {
    if keys == {} then None
    else
      FirstExists(keys);
      FirstUnique(keys);
      var k :| IsFirst(k, keys);
      Some(k)
  }

  lemma FirstUnique(keys: set<string>)
    ensures forall j, k :: IsFirst(j, keys) && IsFirst(k, keys) ==> j == k
  {
    hide Before;
    forall j, k | IsFirst(j, keys) && IsFirst(k, keys) ensures j == k { BeforeIsTotal(j, k); }
  }

  /** The keys behind a position. */
  function Behind(keys: set<string>, k: string): set<string> {
    set j | j in keys && Before(k, j)
  }

  /** An iterator over a map that skips the values it has already been at. */
  class UniqueValues<V(==)> {
    var position: Option<string>
    var seen: set<V>

    constructor (m: map<string, V>)
      ensures position == First(m.Keys) && seen == {}
    {
      position := First(m.Keys);
      seen := {};
    }

    /** Every key of `m` between the two positions has a value seen before. */
    ghost predicate Skipped(m: map<string, V>, from_: string)
      reads this
    {
      forall k :: k in m && Before(from_, k) && (position.Some? ==> Before(k, position.value)) ==> m[k] in seen
    }

    /** safePreIncrement: on to the next key with a value not seen yet. */
    method SafePreIncrement(m: map<string, V>)
      requires position.Some? && position.value in m
      modifies this
      ensures seen == old(seen) + {m[old(position).value]} && Skipped(m, old(position).value)
      ensures position.Some? ==>
        position.value in m && Before(old(position).value, position.value) && m[position.value] !in seen
    {
      hide Before;
      ghost var start := position.value;
      seen := seen + {m[position.value]};
      position := First(Behind(m.Keys, position.value));
      Stepped(m.Keys, start, start, position);
      while position.Some? && m[position.value] in seen
        invariant position.Some? ==> position.value in m && Before(start, position.value)
        invariant Skipped(m, start) && seen == old(seen) + {m[start]}
        decreases if position.Some? then 1 + |Behind(m.Keys, position.value)| else 0
      {
        ghost var at := position.value;
        position := First(Behind(m.Keys, position.value));
        Stepped(m.Keys, start, at, position);
      }
    }

    /** safePostIncrement: the value at the old position. */
    method SafePostIncrement(m: map<string, V>) returns (value: V)
      requires position.Some? && position.value in m
      modifies this
      ensures value == m[old(position).value]
      ensures seen == old(seen) + {value} && Skipped(m, old(position).value)
      ensures position.Some? ==>
        position.value in m && Before(old(position).value, position.value) && m[position.value] !in seen
    {
      value := m[position.value];
      SafePreIncrement(m);
    }
  }

  /** One step of a map iterator: nothing lies between the two positions. */
  lemma Stepped(keys: set<string>, start: string, at: string, next: Option<string>)
    requires next == First(Behind(keys, at)) && (start == at || Before(start, at)) && at in keys
    ensures next.Some? ==>
      next.value in keys && Before(at, next.value) && Before(start, next.value) &&
      |Behind(keys, next.value)| < |Behind(keys, at)|
    ensures forall k :: k in keys && Before(start, k) && (next.Some? ==> Before(k, next.value)) ==>
      start != at && (k == at || Before(k, at))
  {
    hide *;
    if next.Some? { SteppedTo(keys, start, at, next.value); }
    forall k | k in keys && Before(start, k) && (next.Some? ==> Before(k, next.value))
      ensures start != at && (k == at || Before(k, at))
    {
      BeforeIsTotal(k, at);
      IsBehind(keys, at, k);
      if Before(at, k) { NotBetween(keys, at, next, k); }
    }
  }

  lemma IsBehind(keys: set<string>, at: string, k: string)
    ensures k in Behind(keys, at) <==> k in keys && Before(at, k)
  {
    hide Before;
  }

  lemma NotBetween(keys: set<string>, at: string, next: Option<string>, k: string)
    requires next == First(Behind(keys, at)) && k in Behind(keys, at)
    ensures next.Some? && !Before(k, next.value)
  {
    hide Before, Behind;
    BeforeIsTotal(k, next.value);
  }

  lemma SteppedTo(keys: set<string>, start: string, at: string, n: string)
    requires IsFirst(n, Behind(keys, at)) && (start == at || Before(start, at))
    ensures n in keys && Before(at, n) && Before(start, n) && |Behind(keys, n)| < |Behind(keys, at)|
  {
    hide Before;
    if start != at { BeforeIsTransitive(start, at, n); }
    BeforeIsTotal(n, n);
    forall k | k in Behind(keys, n) ensures k in Behind(keys, at) { BeforeIsTransitive(at, n, k); }
    SmallerSet(Behind(keys, n), Behind(keys, at), n);
  }

  lemma SmallerSet(a: set<string>, b: set<string>, x: string)
    requires a <= b && x in b && x !in a
    ensures |a| < |b|
  {
    assert a <= b - {x};
    SubsetSize(a, b - {x});
  }

  lemma {:induction false} SubsetSize(a: set<string>, b: set<string>)
    requires a <= b
    ensures |a| <= |b|
  {
    if a != {} {
      var x :| x in a;
      SubsetSize(a - {x}, b - {x});
    }
  }
}
