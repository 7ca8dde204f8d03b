/** The persisted `SketchItem` entity and the per-record derived queries.

    A record pairs a scripture reference (book, chapter, verse, canonical book
    order) with a centre word and, optionally, its artwork: the serialised
    drawing and the rendered PNG snapshot. Records that share a
    `sharedDrawingId` form one artwork group. The store is a sequence of
    records; a record's identity in the store is its position. */
module Records {
  import opened Wrappers

  /** A UUID, kept opaque. */
  datatype Uuid = Uuid(bits: nat)

  /** A point in time (seconds from a fixed reference date). */
  type Date = int

  /** Uninterpreted binary data (serialised ink, PNG snapshot). */
  type Blob = seq<bv8>

  /** Core Data's `Int16` attributes. */
  type Int16 = x: int | -0x8000 <= x < 0x8000

  predicate IsInt16(x: int) {
    -0x8000 <= x < 0x8000
  }

  datatype Record = Record(
    id: Option<Uuid>,
    creationDate: Option<Date>,
    bookName: Option<string>,
    chapter: Int16,
    verse: Int16,
    centerWord: Option<string>,
    /** "below" (text under the drawing) or "top"; also "black"/"white" from the creation form. */
    textColor: Option<string>,
    drawingData: Option<Blob>,
    imageData: Option<Blob>,
    bookOrder: Int16,
    sharedDrawingId: Option<Uuid>)

  type Store = seq<Record>

  /** `safeId`: the record's id, or a freshly generated one when it has none. */
  function SafeId(r: Record, generated: Uuid): (u: Uuid)
    ensures r.id.Some? ==> u == r.id.value
    ensures r.id.None? ==> u == generated
  {
    r.id.GetOr(generated)
  }

  /** `r` belongs to group `gid` and carries its own image. */
  predicate HoldsGroupImage(r: Record, gid: Uuid) {
    r.sharedDrawingId == Some(gid) && r.imageData.Some?
  }

  /** The fetch `sharedDrawingId == gid AND imageData != nil` with a limit of
      one: the image of the first matching record in store order. */
  function GroupImage(store: Store, gid: Uuid): (b: Option<Blob>)
    ensures b.Some? ==> exists i :: 0 <= i < |store| && HoldsGroupImage(store[i], gid) && store[i].imageData == b
    ensures b.None? <==> forall i :: 0 <= i < |store| ==> !HoldsGroupImage(store[i], gid)
  {
    if |store| == 0 then None
    else if HoldsGroupImage(store[0], gid) then store[0].imageData
    else
      var b := GroupImage(store[1..], gid);
      assert forall i :: 1 <= i < |store| ==> store[i] == store[1..][i - 1];
      b
  }

  /** Adding a record that holds no image of the group leaves the group's
      image as it was. */
  lemma {:induction false} GroupImageSnoc(store: Store, r: Record, gid: Uuid)
    requires !HoldsGroupImage(r, gid)
    ensures GroupImage(store + [r], gid) == GroupImage(store, gid)
    decreases |store|
  {
    if |store| == 0 {
      assert [] + [r] == [r];
      assert [r][1..] == [];
    } else {
      assert (store + [r])[0] == store[0];
      assert (store + [r])[1..] == store[1..] + [r];
      GroupImageSnoc(store[1..], r, gid);
    }
  }

  /** `effectiveImageData`: the record's own image, otherwise an image held by
      some record of its group in the store it belongs to. `context` is the
      record's managed-object context (None when the record is detached), and
      `fetchOk` whether the group fetch succeeds: under `try?` a failing fetch
      gives nil. */
  function EffectiveImageData(r: Record, context: Option<Store>, fetchOk: bool): (b: Option<Blob>)
    ensures r.imageData.Some? ==> b == r.imageData
    ensures r.imageData.None? && r.sharedDrawingId.None? ==> b.None?
    ensures r.imageData.None? && !fetchOk ==> b.None?
    ensures r.imageData.None? && b.Some? ==>
      fetchOk && context.Some? && r.sharedDrawingId.Some? &&
      exists i :: 0 <= i < |context.value| &&
        HoldsGroupImage(context.value[i], r.sharedDrawingId.value) && context.value[i].imageData == b
    ensures r.imageData.None? && r.sharedDrawingId.Some? && context.Some? && fetchOk ==>
      (b.None? <==> forall i :: 0 <= i < |context.value| ==> !HoldsGroupImage(context.value[i], r.sharedDrawingId.value))
  {
    if r.imageData.Some? then r.imageData
    else if r.sharedDrawingId.None? || context.None? || !fetchOk then None
    else GroupImage(context.value, r.sharedDrawingId.value)
  }

  // ---------------------------------------------------------------------
  // Orderings on records, as integer keys for `Sorting.SortBy`

  /** Ascending creation date, a missing date first. */
  function OldestFirstKey(r: Record): seq<int> {
    match r.creationDate
    case None => [0]
    case Some(d) => [1, d]
  }

  /** Descending creation date (the catalog's `order: .reverse`), a missing date last. */
  function NewestFirstKey(r: Record): seq<int> {
    match r.creationDate
    case None => [1]
    case Some(d) => [0, -d]
  }

  /** Canonical scripture order: book order, then chapter, then verse. */
  function ReferenceKey(r: Record): seq<int> {
    [r.bookOrder, r.chapter, r.verse]
  }

  /** Date comparison with a missing date read as the earliest possible
      (`?? .distantPast`). */
  predicate DateAtMost(a: Option<Date>, b: Option<Date>) {
    a.None? || (b.Some? && a.value <= b.value)
  }
}
