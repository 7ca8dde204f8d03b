/** Saving from the drawing editor (`DrawingEditorView.saveSketch`): the
    snapshot PNG must exist, then either the record being edited is updated
    in place or a new record is created, the reference, word, colour and
    artwork fields are written, and the canonical book order is looked up.
    Rendering the snapshot is not modelled: its outcome is the `png`
    parameter (None when `pngData()` fails). */
module DrawingEditor {
  import opened Wrappers
  import opened Records
  import opened Bible
  import AddReference

  /** What the editor is left with: the committed store, whether the error
      alert is up, and whether the flow was dismissed after a save. */
  datatype Outcome = Outcome(store: Store, error: bool, saved: bool)

  /** The inputs handed over from the metadata form. */
  datatype Sketch = Sketch(book: string, chapter: int, verse: int, word: string, textColor: string)

  /** The fields `saveSketch` writes, on top of `base`. */
  function WriteFields(base: Record, s: Sketch, drawing: Blob, png: Blob): (r: Record)
    requires IsInt16(s.chapter) && IsInt16(s.verse)
    ensures r.id == base.id && r.creationDate == base.creationDate && r.sharedDrawingId == base.sharedDrawingId
    ensures r.bookName == Some(s.book) && r.chapter == s.chapter && r.verse == s.verse
    ensures r.centerWord == Some(s.word) && r.textColor == Some(s.textColor)
    ensures r.drawingData == Some(drawing) && r.imageData == Some(png)
    ensures FindBook(s.book).Some? ==> r.bookOrder == FindBook(s.book).value.id
    ensures FindBook(s.book).None? ==> r.bookOrder == 0
  {
    base.(bookName := Some(s.book), chapter := s.chapter, verse := s.verse,
          centerWord := Some(s.word), textColor := Some(s.textColor),
          drawingData := Some(drawing), imageData := Some(png),
          bookOrder := AddReference.BookOrderFor(s.book))
  }

  /** A new record: a fresh id and the current date; every other attribute at
      its default, `group` as its artwork group. */
  function NewRecord(id: Uuid, now: Date, group: Option<Uuid>): Record {
    Record(Some(id), Some(now), None, 0, 0, None, None, None, None, 0, group)
  }

  /** The save, with the artwork group a new record starts in. */
  function SaveWithGroup(store: Store, editing: Option<nat>, s: Sketch, drawing: Blob, png: Option<Blob>,
                         newId: Uuid, now: Date, newGroup: Option<Uuid>, saveOk: bool): Outcome
    requires editing.Some? ==> editing.value < |store|
    requires png.Some? ==> IsInt16(s.chapter) && IsInt16(s.verse)
  {
    if png.None? then Outcome(store, true, false)
    else
      var updated := match editing
        case Some(k) => store[k := WriteFields(store[k], s, drawing, png.value)]
        case None => store + [WriteFields(NewRecord(newId, now, newGroup), s, drawing, png.value)];
      if saveOk then Outcome(updated, false, true) else Outcome(store, true, false)
  }

  /** Position of the record a save writes. */
  function Written(store: Store, editing: Option<nat>): nat {
    editing.GetOr(|store|)
  }

  /** `saveSketch`. `editing` is the position of `itemToEdit`; `Int16(chapter)`
      and `Int16(verse)` trap outside the 16-bit range once the PNG exists. */
  function SaveSketch(store: Store, editing: Option<nat>, s: Sketch, drawing: Blob, png: Option<Blob>,
                      newId: Uuid, now: Date, saveOk: bool): (r: Outcome)
    requires editing.Some? ==> editing.value < |store|
    requires png.Some? ==> IsInt16(s.chapter) && IsInt16(s.verse)
    // No snapshot, or a failed save: nothing is committed and the error shows.
    ensures png.None? || !saveOk ==> r == Outcome(store, true, false)
    // A successful save closes the flow ...
    ensures png.Some? && saveOk ==> !r.error && r.saved
    // ... updates the edited record in place, or appends a new one ...
    ensures png.Some? && saveOk && editing.Some? ==> (|r.store| == |store| &&
      forall j :: 0 <= j < |store| && j != editing.value ==> r.store[j] == store[j])
    ensures png.Some? && saveOk && editing.None? ==> |r.store| == |store| + 1 && r.store[..|store|] == store
    // ... keeping an edited record's id, date and group, giving a new one a fresh
    // id and the current date and no group ...
    ensures png.Some? && saveOk && editing.Some? ==>
      var w := r.store[editing.value];
      w.id == store[editing.value].id && w.creationDate == store[editing.value].creationDate &&
      w.sharedDrawingId == store[editing.value].sharedDrawingId
    ensures png.Some? && saveOk && editing.None? ==>
      var w := r.store[|store|];
      w.id == Some(newId) && w.creationDate == Some(now) && w.sharedDrawingId.None?
    // ... and writes the inputs, the artwork and the book's canonical order.
    ensures png.Some? && saveOk ==>
      var w := r.store[Written(store, editing)];
      w.bookName == Some(s.book) && w.chapter == s.chapter && w.verse == s.verse &&
      w.centerWord == Some(s.word) && w.textColor == Some(s.textColor) &&
      w.drawingData == Some(drawing) && w.imageData == png &&
      w.bookOrder == (if FindBook(s.book).Some? then FindBook(s.book).value.id else 0)
  {
    SaveWithGroup(store, editing, s, drawing, png, newId, now, None, saveOk)
  }

  /** A book from the table is stored with its 1-based canonical position. */
  lemma SavedBookOrder(store: Store, editing: Option<nat>, i: int, chapter: int, verse: int, word: string,
                       color: string, drawing: Blob, png: Blob, newId: Uuid, now: Date)
    requires editing.Some? ==> editing.value < |store|
    requires 0 <= i < |Books| && IsInt16(chapter) && IsInt16(verse)
    ensures var r := SaveSketch(store, editing, Sketch(Books[i].name, chapter, verse, word, color),
                                drawing, Some(png), newId, now, true);
      r.store[Written(store, editing)].bookOrder == i + 1
  {
    OrderOfAt(i);
  }

  /** Saving the same edit twice commits the same store as saving it once. */
  lemma EditTwiceIsEditOnce(store: Store, k: nat, s: Sketch, drawing: Blob, png: Blob,
                            id1: Uuid, now1: Date, id2: Uuid, now2: Date)
    requires k < |store| && IsInt16(s.chapter) && IsInt16(s.verse)
    ensures var once := SaveSketch(store, Some(k), s, drawing, Some(png), id1, now1, true).store;
      SaveSketch(once, Some(k), s, drawing, Some(png), id2, now2, true).store == once
  {
  }

  /** As written, a sketch saved after the migration has run has no group, so
      a verse linked to it from the word album carries no group either and
      shows no artwork, although the sketch it was linked to has one. */
  lemma NewSketchLinksShowNoArt(store: Store, s: Sketch, drawing: Blob, png: Blob, newId: Uuid, now: Date,
                                bookIndex: int, chapter: int, verse: int, linkId: Uuid, later: Date)
    requires IsInt16(s.chapter) && IsInt16(s.verse)
    requires 0 <= bookIndex < |Books| && IsInt16(chapter) && IsInt16(verse)
    ensures var saved := SaveSketch(store, None, s, drawing, Some(png), newId, now, true).store;
      var linked := AddReference.SaveReference(saved, s.word, saved[|store|].sharedDrawingId,
                                               bookIndex, chapter, verse, linkId, later, true).0;
      EffectiveImageData(linked[|store|], Some(linked), true) == Some(png) &&
      EffectiveImageData(linked[|store| + 1], Some(linked), true).None?
  {
    var saved := SaveSketch(store, None, s, drawing, Some(png), newId, now, true).store;
    AddReference.UngroupedLinkShowsNothing(saved, s.word, bookIndex, chapter, verse, linkId, later, true);
  }

  /** `saveSketch` with the evidently intended grouping: a new sketch starts a
      group of its own under the fresh id `group`. */
  function SaveSketchGrouped(store: Store, editing: Option<nat>, s: Sketch, drawing: Blob, png: Option<Blob>,
                             newId: Uuid, now: Date, group: Uuid, saveOk: bool): (r: Outcome)
    requires editing.Some? ==> editing.value < |store|
    requires png.Some? ==> IsInt16(s.chapter) && IsInt16(s.verse)
    ensures png.None? || !saveOk ==> r == Outcome(store, true, false)
    ensures png.Some? && saveOk && editing.None? ==>
      |r.store| == |store| + 1 && r.store[..|store|] == store &&
      r.store[|store|].sharedDrawingId == Some(group) && r.store[|store|].imageData == png
    ensures png.Some? && saveOk && editing.Some? ==>
      r.store == SaveSketch(store, editing, s, drawing, png, newId, now, saveOk).store
  {
    SaveWithGroup(store, editing, s, drawing, png, newId, now, Some(group), saveOk)
  }

  /** With the corrected save, a verse linked to a new sketch shows that
      sketch's artwork, provided its group id is new to the store. */
  lemma GroupedSketchLinksShareArt(store: Store, s: Sketch, drawing: Blob, png: Blob, newId: Uuid, now: Date,
                                   group: Uuid, bookIndex: int, chapter: int, verse: int, linkId: Uuid, later: Date)
    requires forall j :: 0 <= j < |store| ==> store[j].sharedDrawingId != Some(group)
    requires IsInt16(s.chapter) && IsInt16(s.verse)
    requires 0 <= bookIndex < |Books| && IsInt16(chapter) && IsInt16(verse)
    ensures var saved := SaveSketchGrouped(store, None, s, drawing, Some(png), newId, now, group, true).store;
      var linked := AddReference.SaveReference(saved, s.word, saved[|store|].sharedDrawingId,
                                               bookIndex, chapter, verse, linkId, later, true).0;
      EffectiveImageData(linked[|store| + 1], Some(linked), true) == Some(png)
  {
    var saved := SaveSketchGrouped(store, None, s, drawing, Some(png), newId, now, group, true).store;
    AddReference.LinkedReferenceSharesArt(saved, s.word, group, bookIndex, chapter, verse, linkId, later);
    var b := GroupImage(saved, group);
    assert HoldsGroupImage(saved[|store|], group);
    assert b.Some?;
    var i :| 0 <= i < |saved| && HoldsGroupImage(saved[i], group) && saved[i].imageData == b;
    if i < |store| {
      assert saved[i] == store[i];
    }
  }
}
