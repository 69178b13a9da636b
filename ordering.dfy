/**
 * `Array.prototype.sort` as the scripts use it: the default comparison on
 * strings (code unit by code unit, a proper prefix first), and a
 * comparator on numeric keys.
 */
module Ordering {
  /** The default string order of `sort()`. */
  predicate StrLess(a: string, b: string)
    decreases |a|
  {
    if a == [] then b != []
    else if b == [] then false
    else if a[0] != b[0] then a[0] < b[0]
    else StrLess(a[1..], b[1..])
  }

  lemma {:induction false} StrLessIrreflexive(a: string)
    ensures !StrLess(a, a)
    decreases |a|
  {
    if a != [] {
      StrLessIrreflexive(a[1..]);
    }
  }

  lemma {:induction false} StrLessTransitive(a: string, b: string, c: string)
    requires StrLess(a, b) && StrLess(b, c)
    ensures StrLess(a, c)
    decreases |a|
  {
    if a != [] && a[0] == b[0] && b[0] == c[0] {
      StrLessTransitive(a[1..], b[1..], c[1..]);
    }
  }

  lemma {:induction false} StrLessTotal(a: string, b: string)
    ensures a == b || StrLess(a, b) || StrLess(b, a)
    decreases |a|
  {
    if a != [] && b != [] && a[0] == b[0] {
      StrLessTotal(a[1..], b[1..]);
      if a[1..] == b[1..] {
        assert a == [a[0]] + a[1..] && b == [b[0]] + b[1..];
      }
    }
  }

  lemma StrLessAsymmetric(a: string, b: string)
    requires StrLess(a, b)
    ensures !StrLess(b, a) && a != b
  {
    StrLessIrreflexive(a);
    if StrLess(b, a) {
      StrLessTransitive(a, b, a);
    }
  }

  predicate StrictlySorted(s: seq<string>) {
    forall i, j :: 0 <= i < j < |s| ==> StrLess(s[i], s[j])
  }

  predicate Distinct<T(==)>(s: seq<T>) {
    forall i, j :: 0 <= i < j < |s| ==> s[i] != s[j]
  }

  /** Puts `x` in its place in a sorted sequence that lacks it. */
  function InsertString(s: seq<string>, x: string): (r: seq<string>)
    requires StrictlySorted(s) && x !in s
    ensures StrictlySorted(r)
    ensures multiset(r) == multiset(s) + multiset{x}
    decreases |s|
  {
    if s == [] then [x]
    else if StrLess(x, s[0]) then
      assert forall j :: 0 <= j < |s| ==> StrLess(x, s[j]) by {
        forall j | 0 <= j < |s| ensures StrLess(x, s[j]) {
          if j > 0 { StrLessTransitive(x, s[0], s[j]); }
        }
      }
      [x] + s
    else
      StrLessTotal(x, s[0]);
      var rest := InsertString(s[1..], x);
      assert s == [s[0]] + s[1..];
      assert forall j :: 0 <= j < |rest| ==> StrLess(s[0], rest[j]) by {
        forall j | 0 <= j < |rest| ensures StrLess(s[0], rest[j]) {
          assert rest[j] in multiset(rest);
          assert rest[j] == x || rest[j] in s[1..];
        }
      }
      [s[0]] + rest
  }

  /** `Array.from(keys).sort()` on distinct strings. */
  function SortStrings(s: seq<string>): (r: seq<string>)
    requires Distinct(s)
    ensures StrictlySorted(r)
    ensures multiset(r) == multiset(s)
    decreases |s|
  {
    if s == [] then []
    else
      var n := |s| - 1;
      assert s == s[..n] + [s[n]];
      assert Distinct(s[..n]);
      var sorted := SortStrings(s[..n]);
      assert s[n] !in s[..n];
      assert s[n] !in multiset(sorted);
      InsertString(sorted, s[n])
  }

  /** A strictly sorted sequence is fixed by its elements: the sort's result depends only on the set of keys. */
  lemma {:induction false} SortedUnique(a: seq<string>, b: seq<string>)
    requires StrictlySorted(a) && StrictlySorted(b) && multiset(a) == multiset(b)
    ensures a == b
    decreases |a|
  {
    if a != [] {
      assert |b| == |multiset(b)| == |a|;
      assert a[0] in multiset(b) && b[0] in multiset(a);
      var i :| 0 <= i < |b| && b[i] == a[0];
      var j :| 0 <= j < |a| && a[j] == b[0];
      assert a[0] == b[0] by {
        if a[0] != b[0] {
          assert StrLess(b[0], b[i]);
          StrLessAsymmetric(b[0], a[0]);
        }
      }
      assert a == [a[0]] + a[1..] && b == [b[0]] + b[1..];
      assert multiset(a) == multiset{a[0]} + multiset(a[1..]);
      assert multiset(b) == multiset{b[0]} + multiset(b[1..]);
      assert multiset(a[1..]) == multiset(b[1..]) by {
        forall x ensures multiset(a[1..])[x] == multiset(b[1..])[x] {
          assert multiset(a)[x] == multiset(b)[x];
        }
      }
      SortedUnique(a[1..], b[1..]);
    }
  }

  /** A comparator on a numeric key: `(x, y) => key(x) - key(y)`. */
  predicate SortedBy<T>(s: seq<T>, key: T -> int) {
    forall i, j :: 0 <= i < j < |s| ==> key(s[i]) <= key(s[j])
  }

  /** Puts `x` after the elements whose keys do not exceed its own (the stable place). */
  function InsertBy<T>(s: seq<T>, x: T, key: T -> int): (r: seq<T>)
    requires SortedBy(s, key)
    ensures SortedBy(r, key)
    ensures multiset(r) == multiset(s) + multiset{x}
    decreases |s|
  {
    if s == [] then [x]
    else
      var n := |s| - 1;
      if key(s[n]) <= key(x) then s + [x]
      else
        var front := InsertBy(s[..n], x, key);
        InsertBelowLast(s, x, front, key);
        front + [s[n]]
  }

  /** The insertion into all but the last element stays at or below the last one, which may follow it. */
  lemma InsertBelowLast<T>(s: seq<T>, x: T, front: seq<T>, key: T -> int)
    requires s != [] && SortedBy(s, key) && key(x) < key(s[|s| - 1])
    requires SortedBy(front, key) && multiset(front) == multiset(s[..|s| - 1]) + multiset{x}
    ensures SortedBy(front + [s[|s| - 1]], key)
    ensures multiset(front + [s[|s| - 1]]) == multiset(s) + multiset{x}
  {
    var n := |s| - 1;
    assert s == s[..n] + [s[n]];
    forall j | 0 <= j < |front| ensures key(front[j]) <= key(s[n]) {
      assert front[j] in multiset(front);
      assert front[j] == x || front[j] in s[..n];
    }
  }

  /** A stable sort of `s` by `key`, as V8's `sort` with a numeric comparator. */
  function SortBy<T>(s: seq<T>, key: T -> int): (r: seq<T>)
    ensures SortedBy(r, key)
    ensures multiset(r) == multiset(s)
    decreases |s|
  {
    if s == [] then []
    else
      var n := |s| - 1;
      assert s == s[..n] + [s[n]];
      InsertBy(SortBy(s[..n], key), s[n], key)
  }
}
