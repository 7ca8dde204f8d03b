/** The main catalog (`MainCatalogView`): all records newest first, the
    search filter, and the two directory modes. Scripture mode files records
    under a `"book|order|chapter|verse"` key, sorts the keys by splitting them
    back into numbers and shows `"book chapter:verse"`; word mode files records
    under their exact centre word and sorts the words. */
module Catalog {
  import opened Wrappers
  import opened Seqs
  import opened Text
  import opened Sorting
  import opened Records
  import opened Grouping

  /** The catalog fetch: every record, newest first (a missing date last). */
  function AllItems(store: Store): (items: seq<Record>)
    ensures |items| == |store| && multiset(items) == multiset(store)
    ensures SortedBy(items, NewestFirstKey)
  {
    var items := SortBy(store, NewestFirstKey);
    assert |items| == |multiset(items)| == |multiset(store)| == |store|;
    items
  }

  /** Newest first: of two dated records, the later one comes first. */
  lemma AllItemsNewestFirst(store: Store, i: int, j: int)
    requires 0 <= i < j < |store|
    requires AllItems(store)[i].creationDate.Some? && AllItems(store)[j].creationDate.Some?
    ensures AllItems(store)[j].creationDate.value <= AllItems(store)[i].creationDate.value
  {
    var items := AllItems(store);
    var di, dj := items[i].creationDate.value, items[j].creationDate.value;
    assert LexLe(NewestFirstKey(items[i]), NewestFirstKey(items[j]));
    assert NewestFirstKey(items[i]) == [0, -di] && NewestFirstKey(items[j]) == [0, -dj];
    assert [0, -di][1..] == [-di] && [0, -dj][1..] == [-dj];
    assert LexLe([-di], [-dj]);
  }

  // ---------------------------------------------------------------------
  // Search

  /** `"\(chapter):\(verse)"`. */
  function VerseLabel(r: Record): string {
    IntToString(r.chapter) + ":" + IntToString(r.verse)
  }

  /** The three search tests: the word or the book contains the text, ignoring
      case, or the chapter:verse label contains it. */
  predicate SearchMatch(r: Record, text: string) {
    (r.centerWord.Some? && ContainsIgnoringCase(r.centerWord.value, text)) ||
    (r.bookName.Some? && ContainsIgnoringCase(r.bookName.value, text)) ||
    Contains(VerseLabel(r), text)
  }

  /** `filteredItems`: everything for an empty search, otherwise the matching
      records with their multiplicities. */
  function FilteredItems(items: seq<Record>, text: string): (r: seq<Record>)
    ensures |text| == 0 ==> r == items
    ensures |text| > 0 ==> forall i :: 0 <= i < |r| ==> SearchMatch(r[i], text)
    ensures |text| > 0 ==> forall x {:trigger multiset(r)[x]} ::
      multiset(r)[x] == if SearchMatch(x, text) then multiset(items)[x] else 0
  {
    if |text| == 0 then items
    else
      var r := Filter(items, (x: Record) => SearchMatch(x, text));
      FilterMultiset(items, (x: Record) => SearchMatch(x, text));
      r
  }

  /** Filtering keeps the catalog order: the result over two consecutive runs of
      records is the two results one after the other. */
  lemma FilteredItemsKeepOrder(a: seq<Record>, b: seq<Record>, text: string)
    ensures FilteredItems(a + b, text) == FilteredItems(a, text) + FilteredItems(b, text)
  {
    if |text| > 0 {
      FilterConcat(a, b, (x: Record) => SearchMatch(x, text));
    }
  }

  /** Searching for a record's full chapter:verse label finds it. */
  lemma SearchFindsVerseLabel(r: Record)
    ensures SearchMatch(r, VerseLabel(r))
  {
    assert OccursAt(VerseLabel(r), VerseLabel(r), 0);
  }

  /** A character that can never appear in a chapter:verse label. */
  predicate OutsideLabels(c: char) {
    !IsDigit(c) && c != '-' && c != ':'
  }

  lemma LabelAvoids(r: Record, c: char)
    requires OutsideLabels(c)
    ensures c !in VerseLabel(r)
  {
    IntToStringAvoids(r.chapter, c);
    IntToStringAvoids(r.verse, c);
  }

  /** A search text with a letter in it never matches a chapter:verse label. */
  lemma LabelMissesLetters(r: Record, text: string, k: int)
    requires 0 <= k < |text| && OutsideLabels(text[k])
    ensures !Contains(VerseLabel(r), text)
  {
    var shown := VerseLabel(r);
    LabelAvoids(r, text[k]);
    forall i ensures !OccursAt(shown, text, i) {
      if 0 <= i && i + |text| <= |shown| {
        assert shown[i..i + |text|][k] == shown[i + k];
        assert shown[i + k] in shown;
      }
    }
  }

  /** The search is insensitive to the case of the search text: all three
      tests give the same answer for the text and for its lower-case form. */
  lemma SearchIgnoresCase(r: Record, text: string)
    ensures SearchMatch(r, text) <==> SearchMatch(r, LowerStr(text))
  {
    LowerStrIdempotent(text);
    if exists k :: 0 <= k < |text| && 'A' <= text[k] <= 'Z' {
      var k :| 0 <= k < |text| && 'A' <= text[k] <= 'Z';
      LabelMissesLetters(r, text, k);
      LabelMissesLetters(r, LowerStr(text), k);
    } else {
      assert LowerStr(text) == text;
    }
  }

  // ---------------------------------------------------------------------
  // Scripture mode

  /** `"\(bookName ?? "")|\(bookOrder)|\(chapter)|\(verse)"`. */
  function ScriptureKey(r: Record): string {
    r.bookName.GetOr("") + "|" + (IntToString(r.bookOrder) + "|" + (IntToString(r.chapter) + "|" + IntToString(r.verse)))
  }

  /** The key's four fields, as they are joined. */
  function KeyFields(r: Record): seq<string> {
    [r.bookName.GetOr(""), IntToString(r.bookOrder), IntToString(r.chapter), IntToString(r.verse)]
  }

  lemma ScriptureKeyIsJoin(r: Record)
    ensures ScriptureKey(r) == Join(KeyFields(r), '|')
  {
    var f := KeyFields(r);
    assert f[1..][1..] == [f[2], f[3]];
    assert Join(f[1..][1..], '|') == f[2] + "|" + f[3];
  }

  /** A book name the key can carry unambiguously. */
  predicate PlainBookName(r: Record) {
    r.bookName.Some? && |r.bookName.value| > 0 && '|' !in r.bookName.value
  }

  /** Splitting a record's key on `|` gives back its four fields, and the three
      numeric ones parse back to the record's book order, chapter and verse. */
  lemma ScriptureKeyRoundTrip(r: Record)
    requires PlainBookName(r)
    ensures Split(ScriptureKey(r), '|') == KeyFields(r)
    ensures ParseInt(KeyFields(r)[1]) == Some(r.bookOrder as int)
    ensures ParseInt(KeyFields(r)[2]) == Some(r.chapter as int)
    ensures ParseInt(KeyFields(r)[3]) == Some(r.verse as int)
  {
    var f := KeyFields(r);
    IntToStringAvoids(r.bookOrder, '|');
    IntToStringAvoids(r.chapter, '|');
    IntToStringAvoids(r.verse, '|');
    assert forall i :: 0 <= i < |f| ==> |f[i]| > 0 && '|' !in f[i];
    ScriptureKeyIsJoin(r);
    SplitJoin(f, '|');
    ParseIntToString(r.bookOrder);
    ParseIntToString(r.chapter);
    ParseIntToString(r.verse);
  }

  /** A key that splits into the four expected fields. */
  predicate WellFormedKey(key: string) {
    |Split(key, '|')| == 4
  }

  /** The sort comparator on keys: by the parsed order, chapter and verse (0
      when a field does not parse) when both keys have four fields, otherwise
      by plain string order. */
  predicate KeyLess(key1: string, key2: string) {
    var parts1 := Split(key1, '|');
    var parts2 := Split(key2, '|');
    if |parts1| != 4 || |parts2| != 4 then StrLess(key1, key2)
    else
      var order1 := ParseInt(parts1[1]).GetOr(0);
      var order2 := ParseInt(parts2[1]).GetOr(0);
      if order1 != order2 then order1 < order2
      else
        var ch1 := ParseInt(parts1[2]).GetOr(0);
        var ch2 := ParseInt(parts2[2]).GetOr(0);
        if ch1 != ch2 then ch1 < ch2
        else ParseInt(parts1[3]).GetOr(0) < ParseInt(parts2[3]).GetOr(0)
  }

  /** The numbers a well-formed key is compared by. */
  function KeyNumbers(key: string): (ns: seq<int>)
    ensures |ns| == 3 || ns == []
  {
    var parts := Split(key, '|');
    if |parts| != 4 then []
    else [ParseInt(parts[1]).GetOr(0), ParseInt(parts[2]).GetOr(0), ParseInt(parts[3]).GetOr(0)]
  }

  /** On well-formed keys the comparator is the strict lexicographic order of
      their numbers. */
  lemma KeyLessIsLexicographic(key1: string, key2: string)
    requires WellFormedKey(key1) && WellFormedKey(key2)
    ensures KeyLess(key1, key2) <==> !LexLe(KeyNumbers(key2), KeyNumbers(key1))
  {
    var n1, n2 := KeyNumbers(key1), KeyNumbers(key2);
    LexLeTriple(n2[0], n2[1], n2[2], n1[0], n1[1], n1[2]);
    assert n1 == [n1[0], n1[1], n1[2]] && n2 == [n2[0], n2[1], n2[2]];
  }

  /** When either key lacks four fields the comparator is string order. */
  lemma KeyLessFallback(key1: string, key2: string)
    requires !WellFormedKey(key1) || !WellFormedKey(key2)
    ensures KeyLess(key1, key2) <==> StrLess(key1, key2)
  {
  }

  /** A record's key is compared by the record's canonical position. */
  lemma KeyNumbersOfRecord(r: Record)
    requires PlainBookName(r)
    ensures WellFormedKey(ScriptureKey(r))
    ensures KeyNumbers(ScriptureKey(r)) == ReferenceKey(r)
  {
    ScriptureKeyRoundTrip(r);
  }

  /** Inserts `x` before the first key that is not below it by `KeyLess`. */
  function InsertKey(x: string, s: seq<string>): (r: seq<string>)
    ensures multiset(r) == multiset(s) + multiset{x}
    decreases |s|
  {
    if |s| == 0 then [x]
    else if !KeyLess(s[0], x) then [x] + s
    else
      assert s == [s[0]] + s[1..];
      [s[0]] + InsertKey(x, s[1..])
  }

  /** `grouped.keys.sorted(by: KeyLess)`, as an insertion sort (the order of
      keys the comparator does not separate is unspecified in Swift). */
  function SortKeys(keys: seq<string>): (r: seq<string>)
    ensures multiset(r) == multiset(keys)
    decreases |keys|
  {
    if |keys| == 0 then []
    else
      assert keys == [keys[0]] + keys[1..];
      InsertKey(keys[0], SortKeys(keys[1..]))
  }

  lemma {:induction false} InsertKeyAgrees(x: string, s: seq<string>)
    requires WellFormedKey(x) && forall i :: 0 <= i < |s| ==> WellFormedKey(s[i])
    requires SortedBy(s, KeyNumbers)
    ensures InsertKey(x, s) == Insert(x, s, KeyNumbers)
    decreases |s|
  {
    if |s| > 0 {
      KeyLessIsLexicographic(s[0], x);
      if KeyLess(s[0], x) {
        assert SortedBy(s[1..], KeyNumbers) by {
          forall i, j | 0 <= i < j < |s[1..]|
            ensures LexLe(KeyNumbers(s[1..][i]), KeyNumbers(s[1..][j]))
          {
            assert s[1..][i] == s[i + 1] && s[1..][j] == s[j + 1];
          }
        }
        InsertKeyAgrees(x, s[1..]);
      }
    }
  }

  /** On well-formed keys the comparator sort is the sort by key numbers. */
  lemma {:induction false} SortKeysAgrees(keys: seq<string>)
    requires forall i :: 0 <= i < |keys| ==> WellFormedKey(keys[i])
    ensures SortKeys(keys) == SortBy(keys, KeyNumbers)
    decreases |keys|
  {
    if |keys| > 0 {
      SortKeysAgrees(keys[1..]);
      var rest := SortBy(keys[1..], KeyNumbers);
      forall i | 0 <= i < |rest| ensures WellFormedKey(rest[i]) {
        assert rest[i] in multiset(keys[1..]);
      }
      InsertKeyAgrees(keys[0], rest);
    }
  }

  /** The scripture directory: the distinct keys of the filtered records,
      sorted. */
  function ScriptureKeys(items: seq<Record>): (keys: seq<string>)
    ensures multiset(keys) == multiset(Keys(items, ScriptureKey))
  {
    SortKeys(Keys(items, ScriptureKey))
  }

  /** The directory lists each verse once, and in canonical order when every
      record has a plain book name: book order, then chapter, then verse. */
  lemma ScriptureKeysCanonical(items: seq<Record>)
    requires forall i :: 0 <= i < |items| ==> PlainBookName(items[i])
    ensures forall i, j :: 0 <= i < j < |ScriptureKeys(items)| ==>
      ScriptureKeys(items)[i] != ScriptureKeys(items)[j] &&
      LexLe(KeyNumbers(ScriptureKeys(items)[i]), KeyNumbers(ScriptureKeys(items)[j]))
  {
    var ks := Keys(items, ScriptureKey);
    RecordKeysWellFormed(items);
    SortKeysAgrees(ks);
    DistinctPermutation(ks, ScriptureKeys(items));
  }

  lemma RecordKeysWellFormed(items: seq<Record>)
    requires forall i :: 0 <= i < |items| ==> PlainBookName(items[i])
    ensures forall j :: 0 <= j < |Keys(items, ScriptureKey)| ==> WellFormedKey(Keys(items, ScriptureKey)[j])
  {
    forall j | 0 <= j < |Keys(items, ScriptureKey)| ensures WellFormedKey(Keys(items, ScriptureKey)[j]) {
      KeyWellFormedAt(items, j);
    }
  }

  lemma KeyWellFormedAt(items: seq<Record>, j: int)
    requires forall i :: 0 <= i < |items| ==> PlainBookName(items[i])
    requires 0 <= j < |Keys(items, ScriptureKey)|
    ensures WellFormedKey(Keys(items, ScriptureKey)[j])
  {
    var key := Keys(items, ScriptureKey)[j];
    var i :| 0 <= i < |items| && ScriptureKey(items[i]) == key;
    KeyNumbersOfRecord(items[i]);
  }

  /** A permutation of a duplicate-free sequence is duplicate-free. */
  lemma DistinctPermutation<T>(a: seq<T>, b: seq<T>)
    requires Distinct(a) && multiset(a) == multiset(b)
    ensures Distinct(b)
  {
    forall i, j | 0 <= i < j < |b| ensures b[i] != b[j] {
      if b[i] == b[j] {
        assert multiset(b)[b[i]] >= 2 by {
          assert b == b[..j] + [b[j]] + b[j + 1..];
          assert b[i] in b[..j];
        }
        MultisetOfDistinct(a, b[i]);
      }
    }
  }

  lemma {:induction false} MultisetOfDistinct<T>(a: seq<T>, x: T)
    requires Distinct(a)
    ensures multiset(a)[x] <= 1
    decreases |a|
  {
    if |a| > 0 {
      assert a == [a[0]] + a[1..];
      MultisetOfDistinct(a[1..], x);
      if a[0] == x {
        assert x !in a[1..];
      }
    }
  }

  /** Every filtered record lies in exactly one verse group, and the groups'
      sizes add up to the number of filtered records. */
  lemma ScriptureGroupsPartition(items: seq<Record>, i: int)
    requires 0 <= i < |items|
    ensures ScriptureKey(items[i]) in ScriptureKeys(items)
    ensures forall j :: 0 <= j < |Keys(items, ScriptureKey)| ==>
      (items[i] in Group(items, ScriptureKey, Keys(items, ScriptureKey)[j]) <==>
       j == IndexOf(Keys(items, ScriptureKey), ScriptureKey(items[i])))
    ensures GroupSizes(items, ScriptureKey, Keys(items, ScriptureKey)) == |items|
  {
    ExactlyOneGroup(items, ScriptureKey, i);
    assert ScriptureKey(items[i]) in multiset(ScriptureKeys(items));
    GroupsPartition(items, ScriptureKey);
  }

  /** The row title `"\(parts[0]) \(parts[2]):\(parts[3])"`, which needs four
      fields. */
  function DisplayNameAsWritten(key: string): string
    requires |Split(key, '|')| >= 4
  {
    var parts := Split(key, '|');
    parts[0] + " " + parts[2] + ":" + parts[3]
  }

  /** Without a book name the key starts with `|`, the empty first field is
      dropped by the split, and only three fields are left: the row title
      indexes past the end. */
  lemma NamelessKeyHasThreeFields(r: Record)
    requires r.bookName.None? || r.bookName == Some("")
    ensures |Split(ScriptureKey(r), '|')| == 3
    ensures !WellFormedKey(ScriptureKey(r))
  {
    var rest := [IntToString(r.bookOrder), IntToString(r.chapter), IntToString(r.verse)];
    var nonEmpty := (f: string) => |f| > 0;
    NamelessKeyFields(r);
    FilterConcat([""], rest, nonEmpty);
    FilterAll(rest, nonEmpty);
    assert Filter([""], nonEmpty) == [];
  }

  /** The fields of a key without a book name: an empty one, then the numbers. */
  lemma NamelessKeyFields(r: Record)
    requires r.bookName.None? || r.bookName == Some("")
    ensures Fields(ScriptureKey(r), '|') ==
      [""] + [IntToString(r.bookOrder), IntToString(r.chapter), IntToString(r.verse)]
  {
    var rest := [IntToString(r.bookOrder), IntToString(r.chapter), IntToString(r.verse)];
    IntToStringAvoids(r.bookOrder, '|');
    IntToStringAvoids(r.chapter, '|');
    IntToStringAvoids(r.verse, '|');
    ScriptureKeyIsJoin(r);
    assert KeyFields(r)[1..] == rest;
    assert ScriptureKey(r) == "" + "|" + Join(rest, '|');
    FieldsCons("", '|', Join(rest, '|'));
    FieldsOfJoin(rest, '|');
  }

  /** The row title read from all four fields, empty ones included
      (`split(separator: "|", omittingEmptySubsequences: false)`). */
  function DisplayName(key: string): string {
    var parts := Fields(key, '|');
    if |parts| >= 4 then parts[0] + " " + parts[2] + ":" + parts[3] else key
  }

  /** Every record whose book name has no `|` in it, the missing and the empty
      name included, gets the title "book chapter:verse". */
  lemma DisplayNameRoundTrip(r: Record)
    requires r.bookName.None? || '|' !in r.bookName.value
    ensures DisplayName(ScriptureKey(r)) ==
      r.bookName.GetOr("") + " " + IntToString(r.chapter) + ":" + IntToString(r.verse)
  {
    var f := KeyFields(r);
    assert Fields(ScriptureKey(r), '|') == f by {
      IntToStringAvoids(r.bookOrder, '|');
      IntToStringAvoids(r.chapter, '|');
      IntToStringAvoids(r.verse, '|');
      ScriptureKeyIsJoin(r);
      FieldsOfJoin(f, '|');
    }
  }

  /** Joined fields without separators split back into the same fields. */
  lemma {:induction false} FieldsOfJoin(parts: seq<string>, sep: char)
    requires |parts| > 0
    requires forall i :: 0 <= i < |parts| ==> sep !in parts[i]
    ensures Fields(Join(parts, sep), sep) == parts
    decreases |parts|
  {
    if |parts| == 1 {
      FieldsOfPlain(parts[0], sep);
    } else {
      FieldsCons(parts[0], sep, Join(parts[1..], sep));
      FieldsOfJoin(parts[1..], sep);
    }
  }

  // ---------------------------------------------------------------------
  // Word mode

  /** `centerWord ?? "Unknown"`, exactly as stored. */
  function WordKey(r: Record): string {
    r.centerWord.GetOr("Unknown")
  }

  /** `grouped.keys.sorted()`: the distinct words in ascending string order. */
  function WordKeys(items: seq<Record>): (keys: seq<string>)
    ensures multiset(keys) == multiset(Keys(items, WordKey))
    ensures SortedBy(keys, Codes)
  {
    SortBy(Keys(items, WordKey), Codes)
  }

  lemma CodesInjective(a: string, b: string)
    requires Codes(a) == Codes(b)
    ensures a == b
  {
    assert |a| == |Codes(a)|;
    forall i | 0 <= i < |a| ensures a[i] == b[i] {
      assert Codes(a)[i] == Codes(b)[i];
    }
  }

  /** The word directory lists every word of the filtered records exactly once,
      in strictly ascending order. */
  lemma WordKeysStrictlyAscending(items: seq<Record>)
    ensures forall i :: 0 <= i < |items| ==> WordKey(items[i]) in WordKeys(items)
    ensures forall i, j :: 0 <= i < j < |WordKeys(items)| ==> StrLess(WordKeys(items)[i], WordKeys(items)[j])
  {
    var ks := WordKeys(items);
    forall i | 0 <= i < |items| ensures WordKey(items[i]) in ks {
      assert WordKey(items[i]) in multiset(Keys(items, WordKey));
    }
    DistinctPermutation(Keys(items, WordKey), ks);
    forall i, j | 0 <= i < j < |ks| ensures StrLess(ks[i], ks[j]) {
      if LexLe(Codes(ks[j]), Codes(ks[i])) {
        LexLeAntisymmetric(Codes(ks[i]), Codes(ks[j]));
        CodesInjective(ks[i], ks[j]);
      }
    }
  }

  /** Every filtered record lies in exactly one word group, and the groups'
      sizes add up to the number of filtered records. */
  lemma WordGroupsPartition(items: seq<Record>, i: int)
    requires 0 <= i < |items|
    ensures forall j :: 0 <= j < |Keys(items, WordKey)| ==>
      (items[i] in Group(items, WordKey, Keys(items, WordKey)[j]) <==>
       j == IndexOf(Keys(items, WordKey), WordKey(items[i])))
    ensures GroupSizes(items, WordKey, Keys(items, WordKey)) == |items|
  {
    ExactlyOneGroup(items, WordKey, i);
    GroupsPartition(items, WordKey);
  }

  /** Word mode tells spellings apart: "Faith" and "faith" are two entries of
      the directory. */
  lemma WordModeIsCaseSensitive(a: Record, b: Record)
    requires a.centerWord == Some("Faith") && b.centerWord == Some("faith")
    ensures WordKey(a) != WordKey(b)
    ensures a !in Group([a, b], WordKey, WordKey(b)) && b !in Group([a, b], WordKey, WordKey(a))
  {
    assert WordKey(a)[0] != WordKey(b)[0];
    InOwnGroupOnly([a, b], WordKey, 0, WordKey(b));
    InOwnGroupOnly([a, b], WordKey, 1, WordKey(a));
  }
}
