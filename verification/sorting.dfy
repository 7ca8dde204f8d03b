/** Lexicographic order on integer keys and a sort by such a key.

    Every ordering in the catalog is lexicographic on a short tuple of integers
    (creation date, or book order / chapter / verse) or on a string's
    characters; `SortBy` sorts by a key of that shape. The contracts
    deliberately promise a sorted permutation and nothing about the relative
    order of ties. */
module Sorting {

  /** `a` is lexicographically at most `b`; a proper prefix is smaller. */
  predicate LexLe(a: seq<int>, b: seq<int>)
    decreases |a|
  {
    |a| == 0 || (|b| > 0 && (a[0] < b[0] || (a[0] == b[0] && LexLe(a[1..], b[1..]))))
  }

  lemma {:induction false} LexLeReflexive(a: seq<int>)
    ensures LexLe(a, a)
    decreases |a|
  {
    if |a| > 0 {
      LexLeReflexive(a[1..]);
    }
  }

  lemma {:induction false} LexLeTotal(a: seq<int>, b: seq<int>)
    ensures LexLe(a, b) || LexLe(b, a)
    decreases |a|
  {
    if |a| > 0 && |b| > 0 && a[0] == b[0] {
      LexLeTotal(a[1..], b[1..]);
    }
  }

  lemma {:induction false} LexLeTransitive(a: seq<int>, b: seq<int>, c: seq<int>)
    requires LexLe(a, b) && LexLe(b, c)
    ensures LexLe(a, c)
    decreases |a|
  {
    if |a| > 0 && a[0] == b[0] && b[0] == c[0] {
      LexLeTransitive(a[1..], b[1..], c[1..]);
    }
  }

  lemma {:induction false} LexLeAntisymmetric(a: seq<int>, b: seq<int>)
    requires LexLe(a, b) && LexLe(b, a)
    ensures a == b
    decreases |a|
  {
    if |a| > 0 {
      LexLeAntisymmetric(a[1..], b[1..]);
      assert a == [a[0]] + a[1..];
      assert b == [b[0]] + b[1..];
    }
  }

  /** On triples the order is the usual "first differing component decides". */
  lemma LexLeTriple(a0: int, a1: int, a2: int, b0: int, b1: int, b2: int)
    ensures LexLe([a0, a1, a2], [b0, b1, b2]) <==>
      (a0 < b0 || (a0 == b0 && (a1 < b1 || (a1 == b1 && a2 <= b2))))
  {
    assert [a0, a1, a2][1..] == [a1, a2] && [b0, b1, b2][1..] == [b1, b2];
    assert [a1, a2][1..] == [a2] && [b1, b2][1..] == [b2];
    assert [a2][1..] == [] && [b2][1..] == [];
    assert LexLe([a2], [b2]) <==> a2 <= b2;
    assert LexLe([a1, a2], [b1, b2]) <==> a1 < b1 || (a1 == b1 && LexLe([a2], [b2]));
    assert LexLe([a0, a1, a2], [b0, b1, b2]) <==>
      a0 < b0 || (a0 == b0 && LexLe([a1, a2], [b1, b2]));
  }

  ghost predicate SortedBy<T>(s: seq<T>, key: T -> seq<int>) {
    forall i, j :: 0 <= i < j < |s| ==> LexLe(key(s[i]), key(s[j]))
  }

  /** Prepending an element whose key is at most every key keeps a sequence sorted. */
  lemma SortedCons<T>(x: T, s: seq<T>, key: T -> seq<int>)
    requires SortedBy(s, key)
    requires forall j :: 0 <= j < |s| ==> LexLe(key(x), key(s[j]))
    ensures SortedBy([x] + s, key)
  {
    var r := [x] + s;
    forall i, j | 0 <= i < j < |r| ensures LexLe(key(r[i]), key(r[j])) {
      if i > 0 {
        assert r[i] == s[i - 1] && r[j] == s[j - 1];
      } else {
        assert r[j] == s[j - 1];
      }
    }
  }

  /** Inserts `x` before the first element whose key is not below its own. */
  function Insert<T(==)>(x: T, s: seq<T>, key: T -> seq<int>): (r: seq<T>)
    requires SortedBy(s, key)
    ensures multiset(r) == multiset(s) + multiset{x}
    ensures SortedBy(r, key)
    decreases |s|
  {
    if |s| == 0 then [x]
    else if LexLe(key(x), key(s[0])) then
      LowerBoundSpreads(x, s, key);
      SortedCons(x, s, key);
      [x] + s
    else
      LexLeTotal(key(x), key(s[0]));
      var rest := Insert(x, s[1..], key);
      assert s == [s[0]] + s[1..];
      HeadBelowInsert(x, s, rest, key);
      SortedCons(s[0], rest, key);
      [s[0]] + rest
  }

  lemma LowerBoundSpreads<T>(x: T, s: seq<T>, key: T -> seq<int>)
    requires |s| > 0 && SortedBy(s, key) && LexLe(key(x), key(s[0]))
    ensures forall j :: 0 <= j < |s| ==> LexLe(key(x), key(s[j]))
  {
    forall j | 0 < j < |s| ensures LexLe(key(x), key(s[j])) {
      LexLeTransitive(key(x), key(s[0]), key(s[j]));
    }
  }

  lemma HeadBelowInsert<T>(x: T, s: seq<T>, rest: seq<T>, key: T -> seq<int>)
    requires |s| > 0 && SortedBy(s, key) && LexLe(key(s[0]), key(x))
    requires multiset(rest) == multiset(s[1..]) + multiset{x}
    ensures forall j :: 0 <= j < |rest| ==> LexLe(key(s[0]), key(rest[j]))
  {
    forall j | 0 <= j < |rest| ensures LexLe(key(s[0]), key(rest[j])) {
      assert rest[j] in multiset(rest);
      if rest[j] != x {
        assert rest[j] in multiset(s[1..]);
        var m :| 0 <= m < |s[1..]| && s[1..][m] == rest[j];
        assert s[m + 1] == rest[j];
      }
    }
  }

  /** Insertion sort: a permutation of `s` in ascending key order. */
  function SortBy<T(==)>(s: seq<T>, key: T -> seq<int>): (r: seq<T>)
    ensures multiset(r) == multiset(s)
    ensures SortedBy(r, key)
    decreases |s|
  {
    if |s| == 0 then []
    else
      assert s == [s[0]] + s[1..];
      Insert(s[0], SortBy(s[1..], key), key)
  }

  /** A string's characters as integers, so that strings sort lexicographically
      by character code (Swift's `String <` on the ASCII subset). */
  function Codes(s: string): (r: seq<int>)
    ensures |r| == |s|
    ensures forall i :: 0 <= i < |s| ==> r[i] == s[i] as int
  {
    seq(|s|, i requires 0 <= i < |s| => s[i] as int)
  }

  /** Swift's `String <`. */
  predicate StrLess(a: string, b: string) {
    !LexLe(Codes(b), Codes(a))
  }
}
