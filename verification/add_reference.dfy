/** The "Link another Verse" form (`AddReferenceFormView`): a scripture
    picker whose choice becomes a new record for the same word and artwork
    group, holding no artwork of its own. */
module AddReference {
  import opened Wrappers
  import opened Seqs
  import opened Records
  import opened Bible

  /** The picker state: the book wheel's index into the table, the selected
      chapter and verse, and the numbers the chapter and verse wheels offer. */
  datatype Picker = Picker(bookIndex: int, chapter: int, verse: int,
                           chapters: seq<int>, verses: seq<int>)

  /** `updateVerseData(bookIndex:chapter:)`. The chapter's verse count comes
      from data that is not part of this model and is passed in as `verseCount`. */
  function UpdateVerseData(p: Picker, bookIndex: int, chapter: int, verseCount: int): (q: Picker)
    requires 0 <= bookIndex < |Books|
    requires 1 <= chapter <= Books[bookIndex].chapterCount ==> verseCount >= 1
    // A chapter outside the book changes nothing.
    ensures !(1 <= chapter <= Books[bookIndex].chapterCount) ==> q == p
    // Otherwise the verse wheel offers 1...verseCount and selects verse 1.
    ensures 1 <= chapter <= Books[bookIndex].chapterCount ==>
      q.verses == OneThrough(verseCount) && q.verse == 1 &&
      q.bookIndex == p.bookIndex && q.chapter == p.chapter && q.chapters == p.chapters
  {
    if !(1 <= chapter <= Books[bookIndex].chapterCount) then p
    else p.(verses := OneThrough(verseCount), verse := 1)
  }

  /** `updateBookData(index:)`: the chapter wheel offers the book's chapters,
      chapter 1 is selected, and the verse wheel is set up for chapter 1
      (whose verse count is `firstChapterVerses`). */
  function UpdateBookData(p: Picker, index: int, firstChapterVerses: int): (q: Picker)
    requires 0 <= index < |Books|
    requires firstChapterVerses >= 1
    ensures Books[index].chapterCount >= 1 && q.chapters == OneThrough(Books[index].chapterCount)
    ensures q.chapter == 1 && q.verse == 1 && q.verses == OneThrough(firstChapterVerses)
    ensures q.bookIndex == p.bookIndex
  {
    BooksShape();
    var q := p.(chapters := OneThrough(Books[index].chapterCount), chapter := 1);
    UpdateVerseData(q, index, 1, firstChapterVerses)
  }

  /** After a book is picked, the selected chapter is valid for it. */
  lemma PickedBookValidates(p: Picker, index: int, firstChapterVerses: int)
    requires 0 <= index < |Books| && firstChapterVerses >= 1
    ensures Validate(Books[index].name, UpdateBookData(p, index, firstChapterVerses).chapter)
    ensures forall k :: 0 <= k < |UpdateBookData(p, index, firstChapterVerses).chapters| ==>
      Validate(Books[index].name, UpdateBookData(p, index, firstChapterVerses).chapters[k])
  {
    BooksShape();
    var q := UpdateBookData(p, index, firstChapterVerses);
    ValidateKnown(index, 1);
    forall k | 0 <= k < |q.chapters| ensures Validate(Books[index].name, q.chapters[k]) {
      ValidateKnown(index, q.chapters[k]);
    }
  }

  /** `bookOrder` as the forms store it: the table id of the book when the
      name is listed, otherwise the attribute's default 0. */
  function BookOrderFor(book: string): (order: Int16)
    ensures FindBook(book).Some? ==> order == FindBook(book).value.id
    ensures FindBook(book).None? ==> order == 0
  {
    match FindBook(book)
    case None => 0
    case Some(b) =>
      BooksShape();
      assert b in Books;
      b.id
  }

  /** The record `saveReference` inserts. */
  function LinkedRecord(word: string, sharedDrawingId: Option<Uuid>, bookIndex: int,
                        chapter: Int16, verse: Int16, id: Uuid, now: Date): (r: Record)
    requires 0 <= bookIndex < |Books|
    ensures r.id == Some(id) && r.creationDate == Some(now)
    ensures r.bookName == Some(Books[bookIndex].name) && r.chapter == chapter && r.verse == verse
    ensures r.centerWord == Some(word) && r.sharedDrawingId == sharedDrawingId
    ensures r.textColor == Some("below")
    ensures r.drawingData.None? && r.imageData.None?
    ensures r.bookOrder == bookIndex + 1
  {
    OrderOfAt(bookIndex);
    Record(Some(id), Some(now), Some(Books[bookIndex].name), chapter, verse, Some(word),
           Some("below"), None, None, BookOrderFor(Books[bookIndex].name), sharedDrawingId)
  }

  /** `saveReference`, returning the committed store and whether the form
      dismissed itself. `Int16(chapter)` and `Int16(verse)` trap outside the
      16-bit range. */
  function SaveReference(store: Store, word: string, sharedDrawingId: Option<Uuid>, bookIndex: int,
                         chapter: int, verse: int, id: Uuid, now: Date, saveOk: bool): (r: (Store, bool))
    requires 0 <= bookIndex < |Books|
    requires IsInt16(chapter) && IsInt16(verse)
    // A successful save appends the linked record and closes the form.
    ensures saveOk ==> (r.1 && |r.0| == |store| + 1 && r.0[..|store|] == store &&
      r.0[|store|] == LinkedRecord(word, sharedDrawingId, bookIndex, chapter, verse, id, now))
    // A failed save commits nothing and the form stays open.
    ensures !saveOk ==> r == (store, false)
  {
    var rec := LinkedRecord(word, sharedDrawingId, bookIndex, chapter, verse, id, now);
    if saveOk then (store + [rec], true) else (store, false)
  }

  /** A linked reference shows the artwork of its group: its effective image
      is the image the group already has in the store. */
  lemma LinkedReferenceSharesArt(store: Store, word: string, gid: Uuid, bookIndex: int,
                                 chapter: int, verse: int, id: Uuid, now: Date)
    requires 0 <= bookIndex < |Books|
    requires IsInt16(chapter) && IsInt16(verse)
    ensures var after := SaveReference(store, word, Some(gid), bookIndex, chapter, verse, id, now, true).0;
      EffectiveImageData(after[|store|], Some(after), true) == GroupImage(store, gid)
  {
    var rec := LinkedRecord(word, Some(gid), bookIndex, chapter, verse, id, now);
    GroupImageSnoc(store, rec, gid);
  }

  /** A reference linked to a group that has no id shows no artwork at all,
      whether or not the group fetch would succeed. */
  lemma UngroupedLinkShowsNothing(store: Store, word: string, bookIndex: int,
                                  chapter: int, verse: int, id: Uuid, now: Date, fetchOk: bool)
    requires 0 <= bookIndex < |Books|
    requires IsInt16(chapter) && IsInt16(verse)
    ensures var after := SaveReference(store, word, None, bookIndex, chapter, verse, id, now, true).0;
      EffectiveImageData(after[|store|], Some(after), fetchOk).None?
  {
  }
}
