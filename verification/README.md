# ScriptureSketch core, modelled in Dafny

ScriptureSketch is a catalog of hand-drawn sketches, each filed under a
scripture reference (book, chapter, verse) and a centre word. Records that
carry the same centre word can share one piece of artwork through a common
`sharedDrawingId`. This project models the record-level logic of the app:

- the one-time migration that groups the records that have no artwork group
  yet;
- a record's effective image, and the word album (`WordDetailView`): its
  master record, its reference list and the delete flow that hands the artwork
  on to another record;
- the canonical 66-book table and chapter validation;
- the main catalog: the newest-first list, the search filter, the scripture
  directory keyed by `"book|order|chapter|verse"` and the word directory;
- the creation forms: the metadata form's validity, the drawing editor's save
  and the "link another verse" form.

Records are an immutable `Records.Record` datatype and the persistent store is
a `seq<Record>`; a record's identity is its position in the store. Every view
operation is a pure function from the store (and the view's state) to the new
store. A save that fails is a boolean parameter; the store then stays as the
last successful save left it. `UUID()` and `Date()` are parameters: a new
record's id and date are passed in, and the migration draws group ids from an
injective supply `nat -> Uuid`. The PNG snapshot of the editor is a parameter
as well (`None` when rendering fails). Swift's `Int(String)`, `split`,
`lowercased` and `Dictionary(grouping:by:)` are modelled in `text.dfy` and
`grouping.dfy`. Generic sorting is in `sorting.dfy`, as an insertion sort by
integer-sequence keys compared lexicographically.

Modules: `Wrappers` (Option), `Seqs` (filter, remove, lookup), `Sorting`,
`Text`, `Grouping`, `Records` (`SketchItem`), `Bible` (`BibleDataStore`),
`Migration` (`MigrationService`), `WordDetail` (`WordDetailView`), `Catalog`
(`MainCatalogView`), `AddReference` (`AddReferenceFormView`), `DrawingEditor`
(`DrawingEditorView.saveSketch`) and `MetadataForm` (`MetadataFormView`).

## Model

| member | source | states |
|---|---|---|
| Records.SafeId | ScriptureSketch/Model/SketchItem.swift:25-27 | the id when the record has one, otherwise the generated UUID |
| Records.GroupImage | ScriptureSketch/Model/SketchItem.swift:43-52 | the group fetch finds an image exactly when some record of the group holds one, and what it returns is such a record's image |
| Records.GroupImageSnoc | ScriptureSketch/Model/SketchItem.swift:43-52 | adding a record that holds no image of the group does not change what the group fetch returns |
| Records.EffectiveImageData | ScriptureSketch/Model/SketchItem.swift:31-55 | a record's own image wins; with no image, no group or no context the result is nil, and so it is when the group fetch fails (`try?`); otherwise a result is the image of some record of the same group, and after a successful fetch it is nil exactly when no record of the group holds one |
| Bible.BookAt | ScriptureSketch/Model/BibleDataStore.swift:15-85 | entry i has id i+1, between 1 and 150 chapters, and a name from which its position can be read back |
| Bible.BooksShape | ScriptureSketch/Model/BibleDataStore.swift:15-85 | the table has 66 books numbered 1..66 in list order, each with at least one chapter |
| Bible.BookNamesDistinct | ScriptureSketch/Model/BibleDataStore.swift:15-85 | no two books share a name |
| Bible.FirstNamed | ScriptureSketch/Model/BibleDataStore.swift:89 | `first(where:)` on names: a result is a listed book with that name; none means no book has it |
| Bible.FindBookAt | ScriptureSketch/Model/BibleDataStore.swift:89 | looking up a listed name finds that very entry |
| Bible.FindBookMissing | ScriptureSketch/Model/BibleDataStore.swift:89 | the lookup fails exactly for names not in the table |
| Bible.Validate | ScriptureSketch/Model/BibleDataStore.swift:88-91 | defined as: look the name up with `FindBook`; no entry gives false, otherwise 1 <= chapter <= the entry's chapter count. What this means against the table is stated by `Bible.ValidateKnown` and `Bible.ValidateUnknown` |
| Bible.ValidateUnknown | ScriptureSketch/Model/BibleDataStore.swift:88-89 | a name not in the table never validates |
| Bible.ValidateKnown | ScriptureSketch/Model/BibleDataStore.swift:88-91 | for a listed book, a chapter validates exactly when 1 <= chapter <= its chapter count |
| Bible.ValidatePsalmsBoundary | ScriptureSketch/Model/BibleDataStore.swift:88-91 | Psalms 150 is valid; Psalms 151 and Psalms 0 are not |
| Bible.ValidateJudeBoundary | ScriptureSketch/Model/BibleDataStore.swift:88-91 | Jude 1 is valid and Jude 2 is not |
| Bible.ValidateMisspelt | ScriptureSketch/Model/BibleDataStore.swift:88-89 | names must match exactly: "Psalm" does not validate |
| Bible.OrderOf | ScriptureSketch/Model/BibleDataStore.swift:4 | a listed name has an order, the id of its entry, and an unlisted one has none |
| Bible.OrderOfAt | ScriptureSketch/Model/BibleDataStore.swift:4 | the order of the i-th book is i+1 |
| Text.LowerStrIdempotent | ScriptureSketch/Services/MigrationService.swift:29 | lower-casing twice is lower-casing once |
| Text.ParseInt | ScriptureSketch/Views/Creation/MetadataFormView.swift:20 | `Int(String)`: the text parses exactly when it is an optional sign followed by one or more digits and nothing else, and its value fits in 64 bits; the result is then the value the numeral denotes |
| Text.ParseIntExamples | ScriptureSketch/Views/Creation/MetadataFormView.swift:20 | "+5", "007" and "-0" parse to 5, 7 and 0; "+", " 5" and "1a" do not parse |
| Text.ParseIntToString | ScriptureSketch/Views/MainCatalogView.swift:70-79 | parsing the decimal rendering of a 64-bit integer gives the integer back |
| Text.SplitJoin | ScriptureSketch/Views/MainCatalogView.swift:64-65 | `split(separator:)` undoes joining non-empty, separator-free fields |
| Grouping.Keys | ScriptureSketch/Views/MainCatalogView.swift:55 | the dictionary's keys: duplicate-free, every element's key is among them and each comes from some element |
| Grouping.ExactlyOneGroup | ScriptureSketch/Views/MainCatalogView.swift:55 | every element lies in the group of its own key and in no other |
| Grouping.GroupsPartition | ScriptureSketch/Views/MainCatalogView.swift:55 | the group sizes add up to the number of elements |
| Migration.MigrationKey | ScriptureSketch/Services/MigrationService.swift:28-30 | the grouping key is in lower case and equals the centre word, or "Unknown" when there is none, ignoring case |
| Migration.PendingKeysCover | ScriptureSketch/Services/MigrationService.swift:18-30 | every record the `sharedDrawingId == nil` fetch returns has its key among the group keys |
| Migration.PerformMigrationIfNeeded | ScriptureSketch/Services/MigrationService.swift:13-60 | with the flag set nothing happens; records stay in place and only group ids can change; grouped records keep their group; with nothing to migrate the store is unchanged and the flag set; the flag ends set exactly when the fetch failed, found nothing or the save succeeded; a run that leaves the flag clear changes nothing; a completed run leaves no record ungrouped |
| Migration.Regrouped | ScriptureSketch/Services/MigrationService.swift:27-51 | assigning group ids keeps every record's data, touches only the ungrouped and leaves none ungrouped |
| Migration.MigrationGroupsByWord | ScriptureSketch/Services/MigrationService.swift:27-50 | after a successful run, two formerly ungrouped records share a group id exactly when their lower-cased words (nil read as "Unknown") agree |
| Migration.MigrationKeepsOldGroupsApart | ScriptureSketch/Services/MigrationService.swift:35-50 | when the fresh ids are not already in use, a migrated record never joins an existing group |
| Migration.MigrationIdempotent | ScriptureSketch/Services/MigrationService.swift:14-16 | once a run has set the flag, a second run changes nothing |
| Migration.MigrationRerunFindsNothing | ScriptureSketch/Services/MigrationService.swift:18-25 | a store a completed run produced has nothing left to migrate, even with the flag cleared |
| Migration.MigrationRetriesAfterFailedSave | ScriptureSketch/Services/MigrationService.swift:53-59 | a failed save leaves the flag clear and the store as it was |
| Migration.MigrationCaseInsensitiveExample | ScriptureSketch/Services/MigrationService.swift:27-30 | "Faith", "faith" and "FAITH" share one group, a missing word joins "unknown" (kept apart from "faith"), and "Hope" is apart from "Faith" |
| WordDetail.WordItems | ScriptureSketch/Views/WordDetailView.swift:23-26 | the fetch holds exactly the records whose word equals the album's ignoring case, with their multiplicities, oldest first |
| WordDetail.FirstImage | ScriptureSketch/Views/WordDetailView.swift:35-38 | the position of the first item with an image; none exactly when no item has one |
| WordDetail.MasterItem | ScriptureSketch/Views/WordDetailView.swift:33-44 | the master is nil exactly for an empty list, the first item with an image when there is one, and the first item otherwise |
| WordDetail.MasterIsOldestImage | ScriptureSketch/Views/WordDetailView.swift:31-44 | when some record of the word has an image, the master has one and is no newer than any other item with an image |
| WordDetail.MasterStable | ScriptureSketch/Views/WordDetailView.swift:33-44 | appending a record without an image does not change a non-empty list's master |
| WordDetail.MasterOfOnlyImage | ScriptureSketch/Views/WordDetailView.swift:33-40 | the word's only record with an image is its master |
| WordDetail.SortedReferences | ScriptureSketch/Views/WordDetailView.swift:53-63 | a permutation of the items in which no item is preceded by one the comparator puts after it |
| WordDetail.RefLess | ScriptureSketch/Views/WordDetailView.swift:54-61 | defined as the comparator: book order first, then chapter, then verse, each compared with `<`; `WordDetail.SortedReferences` states the order it produces |
| WordDetail.HasDifferentDrawing | ScriptureSketch/Views/WordDetailView.swift:226-232 | defined as: false when the row or the master has no image, otherwise whether the two images differ; `WordDetail.ThumbnailIffDiffersFromFirstImage` states it against the album |
| WordDetail.ThumbnailIffDiffersFromFirstImage | ScriptureSketch/Views/WordDetailView.swift:226-232 | a row shows a thumbnail exactly when it has an image that differs from the first image of the album; the master row never does |
| WordDetail.NewestCandidate | ScriptureSketch/Views/WordDetailView.swift:193-197 | the first of the candidates sorted newest first: another record of the word that no other candidate is newer than; none exactly when there is no candidate |
| WordDetail.HeirIsNewestSibling | ScriptureSketch/Views/WordDetailView.swift:193-197 | the heir is another record of the word, and no other record of the word is newer |
| WordDetail.TransferArt | ScriptureSketch/Views/WordDetailView.swift:197-200 | the newest candidate receives the target's drawing and image; every other record is unchanged |
| WordDetail.ArtHeir | ScriptureSketch/Views/WordDetailView.swift:191-197 | a target without an image has no heir; otherwise the heir is the newest candidate |
| WordDetail.TransferThenRemove | ScriptureSketch/Views/WordDetailView.swift:191-202 | after the hand-over and the removal, every other record keeps its relative place, only the heir changed |
| WordDetail.HandleDelete | ScriptureSketch/Views/WordDetailView.swift:184-204 | the word's last record is only marked for confirmation; otherwise exactly the target leaves the store, the others keep their order, and only the heir of a target with an image changes, taking over its drawing and image |
| WordDetail.ConfirmDelete | ScriptureSketch/Views/WordDetailView.swift:206-211 | without a pending record nothing happens; otherwise exactly that record is deleted, the pending state cleared and the view dismissed |
| WordDetail.CancelDelete | ScriptureSketch/Views/WordDetailView.swift:125-127 | the pending record is forgotten and the store is unchanged |
| WordDetail.LastRecordNeedsConfirmation | ScriptureSketch/Views/WordDetailView.swift:185-188 | deleting the last record removes nothing until confirmed; confirming removes exactly it, cancelling leaves everything |
| WordDetail.DeleteMasterScenario | ScriptureSketch/Views/WordDetailView.swift:184-204 | of three records of a word with only the oldest holding art, the oldest is the master; deleting it hands its art to the newest without a prompt, and the newest becomes the master |
| Catalog.AllItems | ScriptureSketch/Views/MainCatalogView.swift:19-22 | every record, newest first |
| Catalog.AllItemsNewestFirst | ScriptureSketch/Views/MainCatalogView.swift:19-22 | of two dated records in the list, the earlier one in the list is not older |
| Catalog.FilteredItems | ScriptureSketch/Views/MainCatalogView.swift:24-35 | an empty search keeps everything; otherwise every kept record matches one of the three tests and each matching record is kept as often as it occurs |
| Catalog.FilteredItemsKeepOrder | ScriptureSketch/Views/MainCatalogView.swift:28-33 | the filter keeps the catalog order: filtering two runs one after the other gives the two results one after the other |
| Catalog.VerseLabel | ScriptureSketch/Views/MainCatalogView.swift:31 | defined as the interpolation "chapter:verse" of the decimal renderings; `Catalog.LabelAvoids` states which characters it can hold |
| Catalog.SearchMatch | ScriptureSketch/Views/MainCatalogView.swift:28-33 | defined as the three tests: the word contains the text ignoring case, or the book name does, or the "chapter:verse" label contains it exactly; a missing word or book name fails its test; `Catalog.SearchIgnoresCase` and `Catalog.SearchFindsVerseLabel` state its properties |
| Catalog.SearchFindsVerseLabel | ScriptureSketch/Views/MainCatalogView.swift:31 | searching a record's "chapter:verse" label finds the record |
| Catalog.LabelAvoids | ScriptureSketch/Views/MainCatalogView.swift:31 | a "chapter:verse" label holds only digits, '-' and ':' |
| Catalog.LabelMissesLetters | ScriptureSketch/Views/MainCatalogView.swift:31 | a search text with a letter in it never matches the label |
| Catalog.SearchIgnoresCase | ScriptureSketch/Views/MainCatalogView.swift:28-32 | a record matches a search text exactly when it matches the text's lower-case form |
| Catalog.ScriptureKey | ScriptureSketch/Views/MainCatalogView.swift:59 | defined as the interpolation "book\|order\|chapter\|verse", a missing book name read as ""; `Catalog.ScriptureKeyIsJoin` and `Catalog.ScriptureKeyRoundTrip` state what can be read back from it |
| Catalog.ScriptureKeyIsJoin | ScriptureSketch/Views/MainCatalogView.swift:59 | the key is the four fields joined with '\|' |
| Catalog.ScriptureKeyRoundTrip | ScriptureSketch/Views/MainCatalogView.swift:59-79 | for a non-empty book name without '\|', splitting the key gives back its four fields, and the numeric ones parse back to book order, chapter and verse |
| Catalog.KeyLess | ScriptureSketch/Views/MainCatalogView.swift:63-81 | defined as the comparator: split both keys; unless both have four parts, string order; otherwise order, then chapter, then verse, each parsed with 0 for a part that does not parse; `Catalog.KeyLessIsLexicographic` and `Catalog.KeyLessFallback` state it as an order |
| Catalog.KeyLessIsLexicographic | ScriptureSketch/Views/MainCatalogView.swift:63-81 | on keys with four fields the comparator is the strict lexicographic order on (order, chapter, verse) |
| Catalog.KeyLessFallback | ScriptureSketch/Views/MainCatalogView.swift:68 | when either key lacks four fields, the comparator is string order |
| Catalog.KeyNumbersOfRecord | ScriptureSketch/Views/MainCatalogView.swift:59-80 | a record's key is well formed and compared by the record's (book order, chapter, verse) |
| Catalog.InsertKey | ScriptureSketch/Views/MainCatalogView.swift:63-81 | inserting adds exactly one copy of the key |
| Catalog.SortKeys | ScriptureSketch/Views/MainCatalogView.swift:63-81 | the sorted keys are a permutation of the keys |
| Catalog.InsertKeyAgrees | ScriptureSketch/Views/MainCatalogView.swift:63-81 | on well-formed keys, inserting by the comparator is inserting by (order, chapter, verse) |
| Catalog.SortKeysAgrees | ScriptureSketch/Views/MainCatalogView.swift:63-81 | on well-formed keys, the comparator sort is the sort by (order, chapter, verse) |
| Catalog.ScriptureKeys | ScriptureSketch/Views/MainCatalogView.swift:55-63 | the directory's keys are a permutation of the distinct keys of the filtered records |
| Catalog.ScriptureKeysCanonical | ScriptureSketch/Views/MainCatalogView.swift:55-81 | each verse is listed once and, when every book name is plain, in canonical order |
| Catalog.RecordKeysWellFormed | ScriptureSketch/Views/MainCatalogView.swift:59-68 | with plain book names, every directory key has four fields |
| Catalog.ScriptureGroupsPartition | ScriptureSketch/Views/MainCatalogView.swift:55-60 | every filtered record is listed under its key, lies in exactly one verse group, and the group sizes add up to the filtered count |
| Catalog.DisplayNameAsWritten | ScriptureSketch/Views/MainCatalogView.swift:84-85 | defined as the row title as written: parts 0, 2 and 3 of `split(separator:)`, read as "book chapter:verse"; it requires four parts, since `parts[3]` traps otherwise, and `Catalog.NamelessKeyHasThreeFields` shows keys that do not have them |
| Catalog.NamelessKeyHasThreeFields | ScriptureSketch/Views/MainCatalogView.swift:84-85 | a record without a book name, or with an empty one, has a key that splits into three fields, too few for the row title |
| Catalog.DisplayName | ScriptureSketch/Views/MainCatalogView.swift:84-85 | defined as the corrected row title: the same parts taken from the split that keeps empty fields, and the key itself when there are fewer than four; `Catalog.DisplayNameRoundTrip` states the title every record gets |
| Catalog.DisplayNameRoundTrip | ScriptureSketch/Views/MainCatalogView.swift:84-85 | with the empty field kept, every record whose book name has no '\|' gets the title "book chapter:verse" |
| Catalog.FieldsOfJoin | ScriptureSketch/Views/MainCatalogView.swift:84 | separator-free fields joined and split with the empty ones kept come back unchanged |
| Catalog.WordKeys | ScriptureSketch/Views/MainCatalogView.swift:100-101 | the word directory is the distinct words, sorted |
| Catalog.WordKeysStrictlyAscending | ScriptureSketch/Views/MainCatalogView.swift:100-101 | every filtered record's word is listed, exactly once, in strictly ascending string order |
| Catalog.WordGroupsPartition | ScriptureSketch/Views/MainCatalogView.swift:100 | every filtered record lies in exactly one word group, and the group sizes add up to the filtered count |
| Catalog.WordModeIsCaseSensitive | ScriptureSketch/Views/MainCatalogView.swift:100 | "Faith" and "faith" are two separate entries of the word directory |
| AddReference.UpdateVerseData | ScriptureSketch/Views/Creation/AddReferenceFormView.swift:176-183 | a chapter outside the book changes nothing; otherwise the verse wheel offers 1...count, verse 1 is selected and nothing else changes |
| AddReference.UpdateBookData | ScriptureSketch/Views/Creation/AddReferenceFormView.swift:169-174 | the chapter wheel offers 1...chapterCount, and chapter 1 and verse 1 are selected |
| AddReference.PickedBookValidates | ScriptureSketch/Views/Creation/AddReferenceFormView.swift:169-174 | after a book is picked, the selected chapter and every offered chapter validate for it |
| AddReference.BookOrderFor | ScriptureSketch/Views/Creation/AddReferenceFormView.swift:155-157 | a listed book's id, otherwise the attribute's default 0 |
| AddReference.LinkedRecord | ScriptureSketch/Views/Creation/AddReferenceFormView.swift:141-157 | the new record carries the fresh id and date, the picked reference, the word and group, "below", no drawing and no image, and the book's canonical order |
| AddReference.SaveReference | ScriptureSketch/Views/Creation/AddReferenceFormView.swift:140-165 | a successful save appends exactly the linked record and dismisses the form; a failed one commits nothing and keeps it open |
| AddReference.LinkedReferenceSharesArt | ScriptureSketch/Views/Creation/AddReferenceFormView.swift:149-152 | when the group fetch succeeds, a linked reference shows the image its group already has |
| AddReference.UngroupedLinkShowsNothing | ScriptureSketch/Views/Creation/AddReferenceFormView.swift:149-152 | a reference linked with no group id shows no artwork, whether or not the group fetch would succeed |
| DrawingEditor.WriteFields | ScriptureSketch/Views/Creation/DrawingEditorView.swift:102-116 | the save writes the inputs, the drawing, the snapshot and the book order, keeping id, date and group |
| DrawingEditor.SaveSketch | ScriptureSketch/Views/Creation/DrawingEditorView.swift:83-130 | without a snapshot or on a failed save nothing is committed and the error shows; otherwise the flow closes, an edited record is updated in place keeping its id, date and group, or a new one with the fresh id and date and no group is appended, and the inputs, art and book order are written |
| DrawingEditor.SavedBookOrder | ScriptureSketch/Views/Creation/DrawingEditorView.swift:111-116 | a book from the table is stored with its 1-based position |
| DrawingEditor.EditTwiceIsEditOnce | ScriptureSketch/Views/Creation/DrawingEditorView.swift:92-116 | saving the same edit twice commits the same store as saving it once |
| DrawingEditor.NewSketchLinksShowNoArt | ScriptureSketch/Views/Creation/DrawingEditorView.swift:96-100 | even when every fetch succeeds, a verse linked to a newly saved sketch shows no artwork, although the sketch has an image |
| DrawingEditor.SaveSketchGrouped | ScriptureSketch/Views/Creation/DrawingEditorView.swift:96-100 | a new sketch starts a group of its own; edits are saved as before |
| DrawingEditor.GroupedSketchLinksShareArt | ScriptureSketch/Views/Creation/DrawingEditorView.swift:96-100 | with the grouped save and a successful group fetch, a verse linked to a new sketch shows the sketch's image |
| MetadataForm.IsValid | ScriptureSketch/Views/Creation/MetadataFormView.swift:17-22 | defined as the four tests: a book name and a word are given, the verse parses, and the book and chapter validate; `MetadataForm.IsValidMeans` states it against the table |
| MetadataForm.IsValidMeans | ScriptureSketch/Views/Creation/MetadataFormView.swift:17-22 | the form is valid exactly when the book is listed, the chapter lies within it, a word is given and the verse parses |
| MetadataForm.EditorVerse | ScriptureSketch/Views/Creation/MetadataFormView.swift:65 | the editor gets the parsed verse, or 1 when it does not parse |
| MetadataForm.UpdateBookAndChapters | ScriptureSketch/Views/Creation/MetadataFormView.swift:91-97 | the form takes the i-th book's name, offers its chapters 1...count and selects chapter 1, keeping verse, word and colour |
| MetadataForm.PickedFormValidity | ScriptureSketch/Views/Creation/MetadataFormView.swift:91-97 | once a book is picked, the form is valid exactly when a word is given and the verse parses |
| MetadataForm.Genesis1Valid | ScriptureSketch/Views/Creation/MetadataFormView.swift:17-22 | a Genesis 1 form with a word is valid exactly when its verse parses |
| MetadataForm.VerseIsOnlyParsed | ScriptureSketch/Views/Creation/MetadataFormView.swift:20 | "0" and "-3" pass as verses; "abc" and "" do not |
| MetadataForm.ValidVerseOverflowsInt16 | ScriptureSketch/Views/Creation/MetadataFormView.swift:17-22 | a form with verse "40000" is valid, and the verse handed to the editor does not fit in 16 bits |
| MetadataForm.CheckedFormFitsEditor | ScriptureSketch/Views/Creation/MetadataFormView.swift:62-67 | a form that passes the range-checked validity hands the editor a chapter and a verse that fit in 16 bits |

## Left out

- Persistence: Core Data contexts, fetch requests and `UserDefaults` are
  replaced by the store sequence and the `migrated` flag. Unsaved changes left
  in a context after a failed save are not modelled; the store is what the
  last successful save committed.
- `deleteItem` ignores the save's outcome (`try?`); the deletion is modelled
  as committed.
- Sprite animation, PencilKit ink capture and snapshot rendering: blobs are
  opaque, and the snapshot's outcome is a parameter of the save.
- The dark image variant and the three-argument `validate(book:chapter:verse:)`
  and `verseCounts` are used by the sources but defined in code that is not
  part of this model. The picker's verse count is a parameter of
  `AddReference.UpdateVerseData`, and the form's `isValid` that uses the
  three-argument validation is not modelled.
- Case-insensitive comparison (`==[c]`, `localizedCaseInsensitiveContains`,
  `lowercased()`) is modelled as ASCII lower-casing; Unicode case folding is
  not.
- Sorting: the model sorts by insertion. The contracts deliberately leave
  the order of ties unspecified and state only the order and the
  permutation. Core Data does not specify the fetch order of records with
  equal dates either.
- `Dictionary(grouping:by:)` has no defined key order. The model lists keys in
  order of first appearance, and the g-th key draws `supply(g)`. The
  migration's per-group sort by date (MigrationService.swift:38-41) only
  orders the assignments, which does not change the result, and is left out.
- `Migration.PerformMigrationIfNeeded`: a failing fetch (`try?` giving nil)
  sets the flag like an empty result does, so the migration is not retried
  after a failed fetch.
- `WordDetail.HandleDelete`: the artwork moves whenever the target has an
  image, even when the heir already has art of its own, which is overwritten.
- `DrawingEditor.SaveSketch`: requires the chapter and the verse to fit in
  16 bits once the snapshot exists, because `Int16(chapter)` and
  `Int16(verse)` trap otherwise; the trap is not modelled as an outcome.
- `AddReference.SaveReference`: requires the chapter and the verse to fit in
  16 bits, because `Int16(chapter)` and `Int16(selectedVerseInt)` trap
  otherwise; the trap is not modelled as an outcome. The form's pickers only
  offer chapters and verses of the picked book.
- `safeId`'s freshly generated UUID is a parameter.
- Persistence.swift's schema, the welcome screen, the galleries and the app
  entry points are not part of this model.

## Findings

| source | as written | input that shows it | evidently intended | confidence | as-written member | corrected member |
|---|---|---|---|---|---|---|
| ScriptureSketch/Views/Creation/DrawingEditorView.swift:96-100 | a new sketch is saved with no `sharedDrawingId` | after the migration has run, create a sketch for "Grace", then link another verse from its album: the linked record gets a nil group id and shows no artwork | a new sketch starts a group of its own, so linked verses show its art | not executed; high | DrawingEditor.NewSketchLinksShowNoArt | DrawingEditor.SaveSketchGrouped, DrawingEditor.GroupedSketchLinksShareArt |
| ScriptureSketch/Views/Creation/MetadataFormView.swift:17-22 | `isValid` accepts any integer verse | Genesis 1 with verse "40000" is valid, and `Int16(verse)` in the editor's save traps | the verse is range-checked before the editor receives it | not executed; high | MetadataForm.ValidVerseOverflowsInt16 | MetadataForm.IsValidChecked, MetadataForm.CheckedFormFitsEditor |
| ScriptureSketch/Views/MainCatalogView.swift:84-85 | the row title indexes `parts[3]` of `split(separator: "\|")`, which drops empty fields | a record with a nil or empty book name has the key "\|43\|3\|16", which splits into three parts, so `parts[3]` traps | the title keeps the empty field and reads " 3:16" | not executed; medium | Catalog.NamelessKeyHasThreeFields, Catalog.DisplayNameAsWritten | Catalog.DisplayName, Catalog.DisplayNameRoundTrip |
