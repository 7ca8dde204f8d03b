/** The one-time word-group migration run at launch
    (`MigrationService.performMigrationIfNeeded`).

    Records created before artwork sharing existed have no `sharedDrawingId`.
    The migration files them by lower-cased centre word (a missing word reads
    as "Unknown"), gives each such group one new UUID, and commits everything
    in a single save. A persisted flag makes it run to completion once: it is
    set when there is nothing to migrate or the save succeeds, and stays clear
    after a failed save so that the next launch retries. */
module Migration {
  import opened Wrappers
  import opened Seqs
  import opened Text
  import opened Records
  import opened Grouping

  /** The persisted `hasPerformedWordGroupMigration_v1` flag and the store. */
  datatype State = State(migrated: bool, store: Store)

  predicate Unmigrated(r: Record) {
    r.sharedDrawingId.None?
  }

  /** The grouping key: `(centerWord ?? "Unknown").lowercased()`. */
  function MigrationKey(r: Record): (k: string)
    ensures LowerStr(k) == k && EqualsIgnoringCase(k, r.centerWord.GetOr("Unknown"))
  {
    LowerStr(r.centerWord.GetOr("Unknown"))
  }

  /** The fetch `sharedDrawingId == nil`. */
  function Pending(store: Store): seq<Record> {
    Filter(store, Unmigrated)
  }

  /** `UUID()` is modelled by a supply from which the g-th group draws
      `supply(g)`; distinct draws give distinct UUIDs. */
  ghost predicate InjectiveSupply(supply: nat -> Uuid) {
    forall a: nat, b: nat :: a != b ==> supply(a) != supply(b)
  }

  /** Every record the fetch returns has its key among the group keys. */
  lemma PendingKeysCover(store: Store)
    ensures forall i :: 0 <= i < |store| && Unmigrated(store[i]) ==>
      MigrationKey(store[i]) in Keys(Pending(store), MigrationKey)
  {
    var items := Pending(store);
    forall i | 0 <= i < |store| && Unmigrated(store[i])
      ensures MigrationKey(store[i]) in Keys(items, MigrationKey)
    {
      assert store[i] in items;
      var m :| 0 <= m < |items| && items[m] == store[i];
    }
  }

  /** The id a record receives: its group's draw from the supply. */
  function Assign(r: Record, keys: seq<string>, supply: nat -> Uuid): Record
    requires Unmigrated(r) ==> MigrationKey(r) in keys
  {
    if Unmigrated(r) then r.(sharedDrawingId := Some(supply(IndexOf(keys, MigrationKey(r))))) else r
  }

  function AssignAll(store: Store, keys: seq<string>, supply: nat -> Uuid): (r: Store)
    requires forall i :: 0 <= i < |store| && Unmigrated(store[i]) ==> MigrationKey(store[i]) in keys
    ensures |r| == |store|
    ensures forall i :: 0 <= i < |store| ==> r[i] == Assign(store[i], keys, supply)
  {
    seq(|store|, i requires 0 <= i < |store| => Assign(store[i], keys, supply))
  }

  /** `performMigrationIfNeeded`. `fetchOk` is whether the fetch succeeded
      (a failing fetch is treated like an empty result), `saveOk` whether the
      single save commits. */
  function PerformMigrationIfNeeded(st: State, fetchOk: bool, supply: nat -> Uuid, saveOk: bool): (st': State)
    // Already migrated: nothing happens.
    ensures st.migrated ==> st' == st
    // The store keeps its records, in place; only group ids can change.
    ensures |st'.store| == |st.store|
    ensures forall i :: 0 <= i < |st.store| ==>
      st'.store[i] == st.store[i].(sharedDrawingId := st'.store[i].sharedDrawingId)
    // Records that already had a group keep it.
    ensures forall i :: 0 <= i < |st.store| && !Unmigrated(st.store[i]) ==> st'.store[i] == st.store[i]
    // Nothing to migrate: the store is untouched and the flag is set.
    ensures (forall i :: 0 <= i < |st.store| ==> !Unmigrated(st.store[i])) ==>
      st'.store == st.store && st'.migrated
    // The flag ends up set exactly when the fetch failed, found nothing, or the save succeeded.
    ensures !st.migrated ==>
      (st'.migrated <==> !fetchOk || |Pending(st.store)| == 0 || saveOk)
    // A run that leaves the flag clear leaves everything as it was.
    ensures !st'.migrated ==> st' == st
    // A completed run over a successful fetch leaves no record ungrouped.
    ensures !st.migrated && fetchOk && st'.migrated ==>
      forall i :: 0 <= i < |st'.store| ==> !Unmigrated(st'.store[i])
  {
    if st.migrated then st
    else if !fetchOk then State(true, st.store)
    else
      var items := Pending(st.store);
      if |items| == 0 then
        assert forall i :: 0 <= i < |st.store| ==> !Unmigrated(st.store[i]);
        State(true, st.store)
      else if saveOk then State(true, Regrouped(st.store, supply))
      else State(false, st.store)
  }

  /** The store once every ungrouped record has received the id of its key's
      group: records keep their place and their data, only the ungrouped gain
      a group, and afterwards none is left ungrouped. */
  function Regrouped(store: Store, supply: nat -> Uuid): (r: Store)
    ensures |r| == |store|
    ensures forall i :: 0 <= i < |store| ==> r[i] == store[i].(sharedDrawingId := r[i].sharedDrawingId)
    ensures forall i :: 0 <= i < |store| && !Unmigrated(store[i]) ==> r[i] == store[i]
    ensures forall i :: 0 <= i < |r| ==> !Unmigrated(r[i])
  {
    PendingKeysCover(store);
    AssignAll(store, Keys(Pending(store), MigrationKey), supply)
  }

  /** Positions of distinct keys in a duplicate-free key list differ. */
  lemma IndexOfInjective(ks: seq<string>, a: string, b: string)
    requires a in ks && b in ks
    ensures IndexOf(ks, a) == IndexOf(ks, b) <==> a == b
  {
  }

  /** After a successful run, two formerly ungrouped records share a group id
      exactly when their lower-cased words (nil read as "Unknown") agree. */
  lemma MigrationGroupsByWord(st: State, supply: nat -> Uuid, i: int, j: int)
    requires InjectiveSupply(supply)
    requires !st.migrated
    requires 0 <= i < |st.store| && 0 <= j < |st.store|
    requires Unmigrated(st.store[i]) && Unmigrated(st.store[j])
    ensures var after := PerformMigrationIfNeeded(st, true, supply, true).store;
      after[i].sharedDrawingId.Some? && after[j].sharedDrawingId.Some? &&
      (after[i].sharedDrawingId == after[j].sharedDrawingId <==>
       MigrationKey(st.store[i]) == MigrationKey(st.store[j]))
  {
    var items := Pending(st.store);
    assert st.store[i] in items;
    var keys := Keys(items, MigrationKey);
    PendingKeysCover(st.store);
    var after := AssignAll(st.store, keys, supply);
    assert PerformMigrationIfNeeded(st, true, supply, true).store == after;
    var gi := IndexOf(keys, MigrationKey(st.store[i]));
    var gj := IndexOf(keys, MigrationKey(st.store[j]));
    assert after[i].sharedDrawingId == Some(supply(gi));
    assert after[j].sharedDrawingId == Some(supply(gj));
    IndexOfInjective(keys, MigrationKey(st.store[i]), MigrationKey(st.store[j]));
    if gi != gj {
      assert supply(gi) != supply(gj);
    }
  }

  /** The ids handed out are drawn from the supply: when no draw is already
      in use in the store, migrated records never join a pre-existing group. */
  lemma MigrationKeepsOldGroupsApart(st: State, supply: nat -> Uuid, i: int, j: int)
    requires forall g: nat, k :: 0 <= k < |st.store| ==> st.store[k].sharedDrawingId != Some(supply(g))
    requires !st.migrated
    requires 0 <= i < |st.store| && 0 <= j < |st.store|
    requires Unmigrated(st.store[i]) && !Unmigrated(st.store[j])
    ensures var after := PerformMigrationIfNeeded(st, true, supply, true).store;
      after[i].sharedDrawingId != after[j].sharedDrawingId
  {
    var items := Pending(st.store);
    assert st.store[i] in items;
    var keys := Keys(items, MigrationKey);
    PendingKeysCover(st.store);
    var after := AssignAll(st.store, keys, supply);
    assert PerformMigrationIfNeeded(st, true, supply, true).store == after;
    assert after[i].sharedDrawingId == Some(supply(IndexOf(keys, MigrationKey(st.store[i]))));
  }

  /** Running the migration a second time after a run that set the flag,
      whatever the second run's fetch, supply and save outcome, changes nothing. */
  lemma MigrationIdempotent(st: State, fetch1: bool, supply1: nat -> Uuid, save1: bool,
                            fetch2: bool, supply2: nat -> Uuid, save2: bool)
    requires PerformMigrationIfNeeded(st, fetch1, supply1, save1).migrated
    ensures var once := PerformMigrationIfNeeded(st, fetch1, supply1, save1);
      PerformMigrationIfNeeded(once, fetch2, supply2, save2) == once
  {
  }

  /** Even with the flag cleared, a store a completed run produced has nothing
      left to migrate: a rerun leaves it as it is. */
  lemma MigrationRerunFindsNothing(st: State, supply1: nat -> Uuid, fetch2: bool, supply2: nat -> Uuid, save2: bool)
    requires !st.migrated
    requires PerformMigrationIfNeeded(st, true, supply1, true).migrated
    ensures var once := PerformMigrationIfNeeded(st, true, supply1, true);
      PerformMigrationIfNeeded(State(false, once.store), fetch2, supply2, save2) == State(true, once.store)
  {
  }

  /** A failed save leaves the flag clear and the store as it was, so the next
      launch starts the same migration afresh. */
  lemma MigrationRetriesAfterFailedSave(st: State, supply: nat -> Uuid)
    requires !st.migrated
    requires exists i :: 0 <= i < |st.store| && Unmigrated(st.store[i])
    ensures PerformMigrationIfNeeded(st, true, supply, false) == st
  {
    var i :| 0 <= i < |st.store| && Unmigrated(st.store[i]);
    assert st.store[i] in Pending(st.store);
  }

  function Legacy(word: Option<string>, created: nat): Record {
    Record(Some(Uuid(created)), Some(created), Some("John"), 3, 16, word, Some("below"),
           Some([1]), Some([2]), 43, None)
  }

  /** "Faith", "faith" and "FAITH" end up in one group; a missing word joins
      "unknown"; "Hope" is a group of its own. */
  lemma MigrationCaseInsensitiveExample(supply: nat -> Uuid)
    requires InjectiveSupply(supply)
    ensures var store := [Legacy(Some("Faith"), 1), Legacy(Some("faith"), 2), Legacy(Some("FAITH"), 3),
                          Legacy(None, 4), Legacy(Some("unknown"), 5), Legacy(Some("Hope"), 6)];
      var after := PerformMigrationIfNeeded(State(false, store), true, supply, true).store;
      after[0].sharedDrawingId == after[1].sharedDrawingId == after[2].sharedDrawingId &&
      after[3].sharedDrawingId == after[4].sharedDrawingId &&
      after[0].sharedDrawingId != after[3].sharedDrawingId &&
      after[5].sharedDrawingId != after[0].sharedDrawingId
  {
    var store := [Legacy(Some("Faith"), 1), Legacy(Some("faith"), 2), Legacy(Some("FAITH"), 3),
                  Legacy(None, 4), Legacy(Some("unknown"), 5), Legacy(Some("Hope"), 6)];
    var st := State(false, store);
    assert MigrationKey(store[0]) == "faith";
    assert MigrationKey(store[1]) == "faith";
    assert MigrationKey(store[2]) == "faith";
    assert MigrationKey(store[3]) == "unknown";
    assert MigrationKey(store[4]) == "unknown";
    assert MigrationKey(store[5]) == "hope";
    MigrationGroupsByWord(st, supply, 0, 1);
    MigrationGroupsByWord(st, supply, 1, 2);
    MigrationGroupsByWord(st, supply, 3, 4);
    MigrationGroupsByWord(st, supply, 0, 3);
    MigrationGroupsByWord(st, supply, 5, 0);
  }
}
