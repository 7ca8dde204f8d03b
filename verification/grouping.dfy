/** `Dictionary(grouping:by:)`: the distinct keys of a sequence, in order of
    first appearance, and the group of elements under each key (in their
    original order). The dictionary's own key order is unspecified in Swift;
    callers here either sort the keys or do not depend on their order. */
module Grouping {
  import opened Seqs

  /** The distinct keys of `s`, in order of first appearance. */
  function Keys<T>(s: seq<T>, key: T -> string): (ks: seq<string>)
    ensures Distinct(ks)
    ensures forall i :: 0 <= i < |s| ==> key(s[i]) in ks
    ensures forall j :: 0 <= j < |ks| ==> exists i :: 0 <= i < |s| && key(s[i]) == ks[j]
    decreases |s|
  {
    if |s| == 0 then []
    else
      var p := s[..|s| - 1];
      var ks := Keys(p, key);
      assert forall i :: 0 <= i < |p| ==> p[i] == s[i];
      var k := key(s[|s| - 1]);
      if k in ks then ks else ks + [k]
  }

  /** The elements of `s` filed under key `k`. */
  function Group<T(==)>(s: seq<T>, key: T -> string, k: string): seq<T> {
    Filter(s, (x: T) => key(x) == k)
  }

  /** An element belongs to the group of its own key and to no other. */
  lemma InOwnGroupOnly<T>(s: seq<T>, key: T -> string, i: int, k: string)
    requires 0 <= i < |s|
    ensures s[i] in Group(s, key, k) <==> key(s[i]) == k
  {
  }

  /** Every element lies in exactly one of the groups listed by `Keys`: the
      one under the position of its own key. */
  lemma ExactlyOneGroup<T>(s: seq<T>, key: T -> string, i: int)
    requires 0 <= i < |s|
    ensures key(s[i]) in Keys(s, key)
    ensures forall j :: 0 <= j < |Keys(s, key)| ==>
      (s[i] in Group(s, key, Keys(s, key)[j]) <==> j == IndexOf(Keys(s, key), key(s[i])))
  {
    var ks := Keys(s, key);
    forall j | 0 <= j < |ks|
      ensures s[i] in Group(s, key, ks[j]) <==> j == IndexOf(ks, key(s[i]))
    {
      InOwnGroupOnly(s, key, i, ks[j]);
    }
  }

  /** Total size of the groups under the keys `ks`. */
  function GroupSizes<T(==)>(s: seq<T>, key: T -> string, ks: seq<string>): nat
    decreases |ks|
  {
    if |ks| == 0 then 0 else |Group(s, key, ks[0])| + GroupSizes(s, key, ks[1..])
  }

  /** Number of times `k` occurs in `ks`. */
  function Occurrences(ks: seq<string>, k: string): nat
    decreases |ks|
  {
    if |ks| == 0 then 0 else (if ks[0] == k then 1 else 0) + Occurrences(ks[1..], k)
  }

  lemma {:induction false} OccursOnce(ks: seq<string>, k: string)
    requires Distinct(ks) && k in ks
    ensures Occurrences(ks, k) == 1
    decreases |ks|
  {
    if ks[0] == k {
      OccursNever(ks[1..], k);
    } else {
      OccursOnce(ks[1..], k);
    }
  }

  lemma {:induction false} OccursNever(ks: seq<string>, k: string)
    requires k !in ks
    ensures Occurrences(ks, k) == 0
    decreases |ks|
  {
    if |ks| > 0 {
      OccursNever(ks[1..], k);
    }
  }

  /** Appending one element adds it to exactly the groups under its key. */
  lemma {:induction false} GroupSizesSnoc<T>(p: seq<T>, x: T, key: T -> string, ks: seq<string>)
    ensures GroupSizes(p + [x], key, ks) == GroupSizes(p, key, ks) + Occurrences(ks, key(x))
    decreases |ks|
  {
    if |ks| > 0 {
      FilterConcat(p, [x], (y: T) => key(y) == ks[0]);
      GroupSizesSnoc(p, x, key, ks[1..]);
    }
  }

  /** Listing one more key adds the size of its group. */
  lemma {:induction false} GroupSizesAppendKey<T>(s: seq<T>, key: T -> string, ks: seq<string>, k: string)
    ensures GroupSizes(s, key, ks + [k]) == GroupSizes(s, key, ks) + |Group(s, key, k)|
    decreases |ks|
  {
    if |ks| == 0 {
      assert ks + [k] == [k];
      assert ([k])[1..] == [];
    } else {
      assert (ks + [k])[0] == ks[0];
      assert (ks + [k])[1..] == ks[1..] + [k];
      GroupSizesAppendKey(s, key, ks[1..], k);
    }
  }

  /** A key that no element carries has an empty group. */
  lemma GroupOfAbsentKey<T>(s: seq<T>, key: T -> string, k: string)
    requires k !in Keys(s, key)
    ensures Group(s, key, k) == []
  {
    FilterNone(s, (x: T) => key(x) == k);
  }

  /** The groups partition the sequence: their sizes add up to its length. */
  lemma {:induction false} GroupsPartition<T>(s: seq<T>, key: T -> string)
    ensures GroupSizes(s, key, Keys(s, key)) == |s|
    decreases |s|
  {
    if |s| > 0 {
      var p := s[..|s| - 1];
      var x := s[|s| - 1];
      assert s == p + [x];
      var ks := Keys(p, key);
      var ks' := Keys(s, key);
      assert ks' == if key(x) in ks then ks else ks + [key(x)];
      GroupsPartition(p, key);
      GroupSizesSnoc(p, x, key, ks');
      OccursOnce(ks', key(x));
      if key(x) !in ks {
        GroupSizesAppendKey(p, key, ks, key(x));
        GroupOfAbsentKey(p, key, key(x));
      }
    }
  }
}
