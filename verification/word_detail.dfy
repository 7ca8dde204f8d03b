/** The word album (`WordDetailView`): every record carrying one centre word,
    the "master" record whose artwork is shown as the billboard, the reference
    list in canonical order, and the swipe-to-delete state machine that hands
    the artwork on to a sibling before a record disappears. */
module WordDetail {
  import opened Wrappers
  import opened Seqs
  import opened Text
  import opened Sorting
  import opened Records

  /** The fetch predicate `centerWord ==[c] word`. */
  predicate MatchesWord(r: Record, word: string) {
    r.centerWord.Some? && EqualsIgnoringCase(r.centerWord.value, word)
  }

  /** The view's fetch: the records of `word`, oldest first. */
  function WordItems(store: Store, word: string): (items: seq<Record>)
    ensures multiset(items) == multiset(Filter(store, (r: Record) => MatchesWord(r, word)))
    ensures forall i :: 0 <= i < |items| ==> MatchesWord(items[i], word) && items[i] in store
    ensures forall k :: 0 <= k < |store| && MatchesWord(store[k], word) ==> store[k] in items
    ensures SortedBy(items, OldestFirstKey)
  {
    var matching := Filter(store, (r: Record) => MatchesWord(r, word));
    var items := SortBy(matching, OldestFirstKey);
    forall i | 0 <= i < |items| ensures items[i] in matching {
      assert items[i] in multiset(items);
    }
    forall k | 0 <= k < |store| && MatchesWord(store[k], word) ensures store[k] in items {
      assert store[k] in matching;
      assert store[k] in multiset(matching);
    }
    items
  }

  /** `items[i]` is the first item carrying an image. */
  predicate FirstWithImage(items: seq<Record>, i: int) {
    0 <= i < |items| && items[i].imageData.Some? &&
    forall j :: 0 <= j < i ==> items[j].imageData.None?
  }

  /** Position of the first item carrying an image, if any. */
  function FirstImage(items: seq<Record>): (i: Option<nat>)
    ensures i.Some? ==> FirstWithImage(items, i.value)
    ensures i.None? <==> forall j :: 0 <= j < |items| ==> items[j].imageData.None?
    decreases |items|
  {
    if |items| == 0 then None
    else if items[0].imageData.Some? then Some(0)
    else
      match FirstImage(items[1..])
      case None => None
      case Some(j) => Some(j + 1)
  }

  lemma FirstWithImageUnique(items: seq<Record>, i: int, j: int)
    requires FirstWithImage(items, i) && FirstWithImage(items, j)
    ensures i == j
  {
    assert items[i].imageData.Some? && items[j].imageData.Some?;
  }

  /** `masterItem`: the first item with an image, else the first item. */
  function MasterItem(items: seq<Record>): (m: Option<Record>)
    ensures m.None? <==> |items| == 0
    ensures forall i :: FirstWithImage(items, i) ==> m == Some(items[i])
    ensures |items| > 0 && (forall i :: 0 <= i < |items| ==> items[i].imageData.None?) ==>
      m == Some(items[0])
  {
    match FirstImage(items)
    case Some(i) =>
      forall j | FirstWithImage(items, j) ensures j == i {
        FirstWithImageUnique(items, i, j);
      }
      Some(items[i])
    case None => if |items| > 0 then Some(items[0]) else None
  }

  /** The master is the oldest record of the word that carries an image. */
  lemma MasterIsOldestImage(store: Store, word: string)
    requires exists k :: 0 <= k < |store| && MatchesWord(store[k], word) && store[k].imageData.Some?
    ensures var items := WordItems(store, word);
      var m := MasterItem(items);
      m.Some? && m.value.imageData.Some? && MatchesWord(m.value, word) &&
      forall j :: 0 <= j < |items| && items[j].imageData.Some? ==>
        LexLe(OldestFirstKey(m.value), OldestFirstKey(items[j]))
  {
    var items := WordItems(store, word);
    var k :| 0 <= k < |store| && MatchesWord(store[k], word) && store[k].imageData.Some?;
    assert store[k] in items;
    var i := FirstImage(items).value;
    forall j | 0 <= j < |items| && items[j].imageData.Some?
      ensures LexLe(OldestFirstKey(items[i]), OldestFirstKey(items[j]))
    {
      if j == i {
        LexLeReflexive(OldestFirstKey(items[i]));
      }
    }
  }

  /** Appending a record without an image leaves a non-empty list's master as it was. */
  lemma MasterStable(items: seq<Record>, r: Record)
    requires |items| > 0 && r.imageData.None?
    ensures MasterItem(items + [r]) == MasterItem(items)
  {
    var s := items + [r];
    match FirstImage(items)
    case Some(i) =>
      assert FirstWithImage(s, i);
    case None =>
      assert forall i :: 0 <= i < |s| ==> s[i].imageData.None?;
  }

  // ---------------------------------------------------------------------
  // Reference list

  /** The `sortedReferences` comparator. */
  predicate RefLess(a: Record, b: Record) {
    if a.bookOrder != b.bookOrder then a.bookOrder < b.bookOrder
    else if a.chapter != b.chapter then a.chapter < b.chapter
    else a.verse < b.verse
  }

  /** `sortedReferences`: a permutation of the items in which no item is
      preceded by one that the comparator puts after it. */
  function SortedReferences(items: seq<Record>): (refs: seq<Record>)
    ensures multiset(refs) == multiset(items)
    ensures forall i, j :: 0 <= i < j < |refs| ==> !RefLess(refs[j], refs[i])
  {
    var refs := SortBy(items, ReferenceKey);
    forall i, j | 0 <= i < j < |refs| ensures !RefLess(refs[j], refs[i]) {
      var a, b := refs[i], refs[j];
      LexLeTriple(a.bookOrder, a.chapter, a.verse, b.bookOrder, b.chapter, b.verse);
    }
    refs
  }

  /** `ReferenceRow.hasDifferentDrawing`: a thumbnail is shown when the row
      has an image of its own and it differs from the master's. */
  predicate HasDifferentDrawing(item: Record, master: Option<Record>) {
    match (item.imageData, master)
    case (Some(own), Some(m)) => m.imageData.Some? && own != m.imageData.value
    case _ => false
  }

  /** In a word album a row shows a thumbnail exactly when it has an image
      that differs from the first image in the list; the master row never does. */
  lemma ThumbnailIffDiffersFromFirstImage(items: seq<Record>, j: int)
    requires 0 <= j < |items|
    ensures HasDifferentDrawing(items[j], MasterItem(items)) <==>
      items[j].imageData.Some? &&
      exists i :: FirstWithImage(items, i) && items[i].imageData != items[j].imageData
    ensures !HasDifferentDrawing(MasterItem(items).value, MasterItem(items))
  {
    match FirstImage(items)
    case Some(i) =>
      forall i' | FirstWithImage(items, i') ensures i' == i {
        FirstWithImageUnique(items, i, i');
      }
    case None =>
      assert MasterItem(items) == Some(items[0]);
  }

  // ---------------------------------------------------------------------
  // Deletion

  /** The view's state: the committed store, `itemToDelete` (a store position)
      awaiting confirmation, and whether the view has dismissed itself. */
  datatype Screen = Screen(store: Store, pending: Option<nat>, dismissed: bool)

  /** A pending deletion refers to a record of the store. */
  predicate PendingValid(s: Screen) {
    s.pending.Some? ==> s.pending.value < |s.store|
  }

  /** A record of the word other than the one being deleted (`$0.id != item.id`). */
  predicate IsCandidate(store: Store, word: string, t: nat, k: int)
    requires t < |store|
  {
    0 <= k < |store| && MatchesWord(store[k], word) && store[k].id != store[t].id
  }

  /** The first entry of `candidates` sorted newest first, over the positions
      below `n`: a candidate whose date is at least every other candidate's,
      a missing date counting as the earliest. */
  function NewestCandidate(store: Store, word: string, t: nat, n: nat): (k: Option<nat>)
    requires t < |store| && n <= |store|
    ensures k.Some? ==> (k.value < n && IsCandidate(store, word, t, k.value) &&
      forall m :: 0 <= m < n && IsCandidate(store, word, t, m) ==>
        DateAtMost(store[m].creationDate, store[k.value].creationDate))
    ensures k.None? <==> forall m :: 0 <= m < n ==> !IsCandidate(store, word, t, m)
    decreases n
  {
    if n == 0 then None
    else
      var best := NewestCandidate(store, word, t, n - 1);
      if !IsCandidate(store, word, t, n - 1) then best
      else if best.None? then Some(n - 1)
      else if DateAtMost(store[n - 1].creationDate, store[best.value].creationDate) then best
      else Some(n - 1)
  }

  /** The artwork hand-over: the newest candidate receives the target's
      drawing and image, whatever art it held before. */
  function TransferArt(store: Store, word: string, t: nat): (r: Store)
    requires t < |store|
    ensures |r| == |store|
    ensures forall k :: 0 <= k < |store| ==>
      r[k] == if NewestCandidate(store, word, t, |store|) == Some(k)
              then store[k].(drawingData := store[t].drawingData, imageData := store[t].imageData)
              else store[k]
  {
    match NewestCandidate(store, word, t, |store|)
    case None => store
    case Some(k) =>
      store[k := store[k].(drawingData := store[t].drawingData, imageData := store[t].imageData)]
  }

  /** `handleDelete` on the record at position `t`, one of the word's records. */
  function HandleDelete(s: Screen, word: string, t: nat): (r: Screen)
    requires t < |s.store| && MatchesWord(s.store[t], word)
    // The last record of the word: nothing is deleted yet, confirmation is pending.
    ensures |WordItems(s.store, word)| == 1 ==>
      r == s.(pending := Some(t)) && PendingValid(r)
    // Otherwise exactly the target leaves the store.
    ensures |WordItems(s.store, word)| != 1 ==>
      r.pending == s.pending && r.dismissed == s.dismissed && |r.store| == |s.store| - 1
    // Every other record keeps its place in order; only the heir, if any,
    // changes, taking over the target's drawing and image.
    ensures |WordItems(s.store, word)| != 1 ==>
      var heir := ArtHeir(s.store, word, t);
      forall k :: 0 <= k < |s.store| && k != t ==>
        r.store[Shifted(k, t)] ==
          if heir == Some(k) then s.store[k].(drawingData := s.store[t].drawingData, imageData := s.store[t].imageData)
          else s.store[k]
  {
    if |WordItems(s.store, word)| == 1 then s.(pending := Some(t))
    else if s.store[t].imageData.Some? then
      TransferThenRemove(s.store, word, t);
      s.(store := RemoveAt(TransferArt(s.store, word, t), t))
    else s.(store := RemoveAt(s.store, t))
  }

  /** The record that inherits the target's art: the newest other record of
      the word when the target has an image, none when it has not. */
  function ArtHeir(store: Store, word: string, t: nat): (h: Option<nat>)
    requires t < |store|
    ensures store[t].imageData.None? ==> h.None?
    ensures store[t].imageData.Some? ==> h == NewestCandidate(store, word, t, |store|)
  {
    if store[t].imageData.Some? then NewestCandidate(store, word, t, |store|) else None
  }

  /** Removing the target after the hand-over: every other record keeps its
      place in order, the heir alone holding the target's art. */
  lemma TransferThenRemove(store: Store, word: string, t: nat)
    requires t < |store|
    ensures var heir := NewestCandidate(store, word, t, |store|);
      var r := RemoveAt(TransferArt(store, word, t), t);
      forall k :: 0 <= k < |store| && k != t ==>
        r[Shifted(k, t)] ==
          if heir == Some(k) then store[k].(drawingData := store[t].drawingData, imageData := store[t].imageData)
          else store[k]
  {
    var tr := TransferArt(store, word, t);
    var r := RemoveAt(tr, t);
    forall k | 0 <= k < |store| && k != t
      ensures r[Shifted(k, t)] == tr[k]
    {
    }
  }

  /** The heir `handleDelete` picks is another record of the word, and no
      other record of the word is newer. */
  lemma HeirIsNewestSibling(store: Store, word: string, t: nat)
    requires t < |store|
    requires NewestCandidate(store, word, t, |store|).Some?
    ensures var k := NewestCandidate(store, word, t, |store|).value;
      k != t && MatchesWord(store[k], word) && store[k].id != store[t].id &&
      forall m :: 0 <= m < |store| && MatchesWord(store[m], word) && store[m].id != store[t].id ==>
        DateAtMost(store[m].creationDate, store[k].creationDate)
  {
  }

  /** `confirmDelete`: delete the pending record, clear it, dismiss the view. */
  function ConfirmDelete(s: Screen): (r: Screen)
    requires PendingValid(s)
    ensures s.pending.None? ==> r == s
    ensures s.pending.Some? ==> (r.pending.None? && r.dismissed &&
      |r.store| == |s.store| - 1 &&
      forall k :: 0 <= k < |s.store| && k != s.pending.value ==>
        r.store[Shifted(k, s.pending.value)] == s.store[k])
  {
    match s.pending
    case None => s
    case Some(t) => Screen(RemoveAt(s.store, t), None, true)
  }

  /** The alert's Cancel button: forget the pending record. */
  function CancelDelete(s: Screen): (r: Screen)
    ensures r.pending.None? && r.store == s.store && r.dismissed == s.dismissed
  {
    s.(pending := None)
  }

  /** Deleting the word's last record goes through the confirmation: handling
      it removes nothing, and confirming then removes exactly that record. */
  lemma LastRecordNeedsConfirmation(s: Screen, word: string, t: nat)
    requires t < |s.store| && MatchesWord(s.store[t], word)
    requires |WordItems(s.store, word)| == 1
    ensures HandleDelete(s, word, t).store == s.store
    ensures ConfirmDelete(HandleDelete(s, word, t)) == Screen(RemoveAt(s.store, t), None, true)
    ensures CancelDelete(HandleDelete(s, word, t)) == s.(pending := None)
  {
  }

  /** When exactly one record of the word carries an image, it is the master. */
  lemma MasterOfOnlyImage(store: Store, word: string, k: int)
    requires 0 <= k < |store| && MatchesWord(store[k], word) && store[k].imageData.Some?
    requires forall m :: 0 <= m < |store| && MatchesWord(store[m], word) && store[m].imageData.Some? ==>
      store[m] == store[k]
    ensures MasterItem(WordItems(store, word)) == Some(store[k])
  {
    var items := WordItems(store, word);
    assert store[k] in items;
    var i := FirstImage(items).value;
    assert items[i] in store;
  }

  /** Three records of one word, only the oldest with art, the newest made
      strictly after the middle one: the oldest is the master; deleting it
      hands its art to the newest, without a prompt; afterwards the newest is
      the master. */
  lemma DeleteMasterScenario(r1: Record, r2: Record, r3: Record, word: string)
    requires MatchesWord(r1, word) && MatchesWord(r2, word) && MatchesWord(r3, word)
    requires r1.id != r2.id && r1.id != r3.id && r2.id != r3.id
    requires r2.creationDate.Some? && r3.creationDate.Some? && r2.creationDate.value < r3.creationDate.value
    requires r1.imageData.Some? && r2.imageData.None? && r3.imageData.None?
    ensures var after := HandleDelete(Screen([r1, r2, r3], None, false), word, 0);
      MasterItem(WordItems([r1, r2, r3], word)) == Some(r1) &&
      after == Screen([r2, r3.(drawingData := r1.drawingData, imageData := r1.imageData)], None, false) &&
      MasterItem(WordItems(after.store, word)) == Some(after.store[1])
  {
    MasterOfOnlyImage([r1, r2, r3], word, 0);
    ScenarioDelete(r1, r2, r3, word);
    OnlyImageAfter(r2, r3.(drawingData := r1.drawingData, imageData := r1.imageData), word);
  }

  /** In the scenario, deleting the oldest record hands its art to the newest. */
  lemma ScenarioDelete(r1: Record, r2: Record, r3: Record, word: string)
    requires MatchesWord(r1, word) && MatchesWord(r2, word) && MatchesWord(r3, word)
    requires r1.id != r2.id && r1.id != r3.id
    requires r2.creationDate.Some? && r3.creationDate.Some? && r2.creationDate.value < r3.creationDate.value
    requires r1.imageData.Some?
    ensures HandleDelete(Screen([r1, r2, r3], None, false), word, 0) ==
      Screen([r2, r3.(drawingData := r1.drawingData, imageData := r1.imageData)], None, false)
  {
    var store := [r1, r2, r3];
    var r3' := r3.(drawingData := r1.drawingData, imageData := r1.imageData);
    AllOfWord(store, word);
    ScenarioTransfer(r1, r2, r3, word);
    assert RemoveAt([r1, r2, r3'], 0) == [r2, r3'];
  }

  /** In the scenario, the newest record receives the oldest one's art. */
  lemma ScenarioTransfer(r1: Record, r2: Record, r3: Record, word: string)
    requires MatchesWord(r2, word) && MatchesWord(r3, word)
    requires r1.id != r2.id && r1.id != r3.id
    requires r2.creationDate.Some? && r3.creationDate.Some? && r2.creationDate.value < r3.creationDate.value
    ensures TransferArt([r1, r2, r3], word, 0) == [r1, r2, r3.(drawingData := r1.drawingData, imageData := r1.imageData)]
  {
    ScenarioHeir(r1, r2, r3, word);
  }

  /** After the hand-over, the newest record is the word's only image. */
  lemma OnlyImageAfter(r2: Record, r3: Record, word: string)
    requires MatchesWord(r2, word) && MatchesWord(r3, word)
    requires r2.imageData.None? && r3.imageData.Some?
    ensures MasterItem(WordItems([r2, r3], word)) == Some(r3)
  {
    MasterOfOnlyImage([r2, r3], word, 1);
  }

  /** A store whose records all belong to the word lists them all. */
  lemma AllOfWord(store: Store, word: string)
    requires forall k :: 0 <= k < |store| ==> MatchesWord(store[k], word)
    ensures |WordItems(store, word)| == |store|
  {
    FilterAll(store, (r: Record) => MatchesWord(r, word));
    var items := WordItems(store, word);
    assert |items| == |multiset(items)| == |multiset(store)|;
  }

  /** In the scenario, the heir of the oldest record is the newest one. */
  lemma ScenarioHeir(r1: Record, r2: Record, r3: Record, word: string)
    requires MatchesWord(r2, word) && MatchesWord(r3, word)
    requires r1.id != r2.id && r1.id != r3.id
    requires r2.creationDate.Some? && r3.creationDate.Some? && r2.creationDate.value < r3.creationDate.value
    ensures NewestCandidate([r1, r2, r3], word, 0, 3) == Some(2)
  {
    var store := [r1, r2, r3];
    assert NewestCandidate(store, word, 0, 1) == None;
    assert NewestCandidate(store, word, 0, 2) == Some(1);
  }
}
