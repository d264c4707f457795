# Image editor edit history: a verified Dafny model

This project models the editing-history core of Signal's image editor. Two classes make up that core.

- `ImageEditorContents` is one snapshot of the editor's items. It holds a dictionary `itemMap` from item id to item and an ordered array `itemIds` (back-to-front order). It supports `append`, `remove`, `replace` and `clone`. A clone is an independent copy: editing the clone never changes the original, and the reverse also holds.
- `ImageEditorModel` is a linear undo/redo history over those snapshots. It holds a current snapshot, an undo stack and a redo stack. It exposes `append`, `undo`, `redo`, `canUndo`, `canRedo`, `itemCount`, `items` and the `itemIds()` extension. An edit clones the current snapshot, edits the clone, pushes the old snapshot on the undo stack, clears the redo stack and installs the clone.

The model states the behaviour that `Signal/test/views/ImageEditorTest.swift` asserts. The failure paths the test never reaches follow the choice described under Failure signalling.

Files, leaves first:

- `snapshots.dfy`, module `Snapshots`: the `Item` value (an id and an opaque type tag) and the `Snapshot` value (the two containers). It defines the snapshot invariant `Valid`: the dictionary's keys are exactly the listed ids, no id is listed twice, and every item is filed under its own id. It also holds the functions that say what append, remove, replace and the ordered item list compute, with their lemmas.
- `contents.dfy`, module `EditorContents`: class `Contents` with the fields `itemMap: map<string, Item>` and `itemIds: seq<string>`. Its methods update those fields in place and are proved against the `Snapshots` functions. `Clone` returns a `fresh` object, and every mutating method has `modifies this` only. Together these give copy isolation: an edit of a clone cannot reach the original, and an edit of the original cannot reach the clone.
- `history.dfy`, module `History`: the undo/redo state `(current, undoStack, redoStack)` as a value, with `Commit` (an edit), `Undo` and `Redo`. The lemmas cover round trips, redo invalidation and the "timeline" view. In that view the history is one sequence (undo stack, then current, then the redo stack reversed), undo and redo only move a cursor along it, and an edit cuts it after the cursor.
- `model.dfy`, module `EditorModel`: class `Model` with the fields `current: Contents`, `undoStack: seq<Contents>` and `redoStack: seq<Contents>`. `State()` reads these objects back as a `History` value. Every method is proved against the matching `History` function, and every method modifies only the model itself, so a snapshot on a stack is never changed.
- `scenarios.dfy`, module `Scenarios`: the two test methods replayed as verified client code. `ContentsScenario` replays `testImageEditorContents`. The phases `AppendScenario`, `UndoRedoScenario`, `UndoAgainScenario`, `AppendAfterUndoScenario`, `SecondAppendScenario` and `LastUndoScenario`, chained by `EditorScenario`, replay `testImageEditor`. Every `XCTAssert` of those tests is an `assert` there. Item ids are parameters, and distinct ids stand for freshly generated ones.

Failure signalling: a duplicate id on append, a missing id on remove or replace, and undo or redo with an empty stack are all programmer errors in the editor. The methods of `Contents` and `Model` report each one with an `ok == false` result and leave every container and stack exactly as it was. No method of `Contents` or `Model` has a precondition that excludes them. The value functions `Snapshots.Append`, `Snapshots.Remove`, `Snapshots.Replace`, `History.Undo` and `History.Redo` describe only the successful step and require its condition. The methods decide between that step and `ok == false`.

## Model

| member | source | states |
|---|---|---|
| Snapshots.Empty | Signal/test/views/ImageEditorTest.swift:29-31 | a new snapshot satisfies the invariant and has zero entries in both `itemMap` and `itemIds` |
| Snapshots.Append | Signal/test/views/ImageEditorTest.swift:33-36 | appending an item with a new id keeps the invariant, puts the id last in `itemIds`, files the item under its id, keeps every other entry, and grows both counts by exactly one |
| Snapshots.Remove | Signal/test/views/ImageEditorTest.swift:44-48 | removing a present id keeps the invariant, drops the id from both containers, cuts exactly its position out of `itemIds` so the other ids keep their order, keeps every other entry unchanged, and shrinks both counts by exactly one |
| Snapshots.Replace | Signal/test/views/ImageEditorTest.swift:50-53 | replacing an item under an existing id keeps the invariant, the key set, the id order and both counts; only the entry under that id changes, to the new item |
| Snapshots.Without | Signal/test/views/ImageEditorTest.swift:44 | filtering an id out of the id list leaves exactly the other ids and never lengthens the list |
| Snapshots.WithoutDistinct | Signal/test/views/ImageEditorTest.swift:44-48 | filtering an id out of a duplicate-free id list keeps it duplicate-free |
| Snapshots.WithoutAt | Signal/test/views/ImageEditorTest.swift:44-48 | removing the id at position k cuts exactly that position out of the list; the ids before and after it keep their relative order |
| Snapshots.WithoutCuts | Signal/test/views/ImageEditorTest.swift:44-48 | in a duplicate-free id list, filtering an id out equals cutting out the one position that holds it |
| Snapshots.CountsAgree | Signal/test/views/ImageEditorTest.swift:39-42 | in every valid snapshot `itemMap.count == itemIds.count`, which is why the test's paired count assertions always agree |
| Snapshots.Items | Signal/test/views/ImageEditorTest.swift:11 | the ordered items have one entry per listed id, and the item at position i carries the i-th listed id |
| Snapshots.IdsOfItems | Signal/test/views/ImageEditorTest.swift:10-14 | mapping the ordered items to their `itemId` gives exactly the snapshot's `itemIds`, in the same order |
| Snapshots.RemoveAfterAppend | Signal/test/views/ImageEditorTest.swift:33-48 | removing an item right after appending it gives back the snapshot before the append (both containers) |
| Snapshots.ReplaceWithSame | Signal/test/views/ImageEditorTest.swift:50-53 | replacing an item by an equal item under the same id, as the test's `modifiedItem` is, leaves the snapshot unchanged |
| Snapshots.ReplaceTwice | Signal/test/views/ImageEditorTest.swift:50-51 | of two replaces under the same id only the later one is visible |
| EditorContents.Contents.constructor | Signal/test/views/ImageEditorTest.swift:29-31 | a new contents object is valid and empty |
| EditorContents.Contents.Clone | Signal/test/views/ImageEditorTest.swift:38-42 | the clone is a fresh object with the same dictionary and id list, and the original is not modified |
| EditorContents.Contents.Append | Signal/test/views/ImageEditorTest.swift:33-36 | succeeds exactly when the id is new, and then the fields become `Snapshots.Append` of the old ones; otherwise nothing changes; the invariant is kept |
| EditorContents.Contents.Remove | Signal/test/views/ImageEditorTest.swift:44-48 | succeeds exactly when the id is present, and then the fields become `Snapshots.Remove` of the old ones; otherwise nothing changes; the invariant is kept |
| EditorContents.Contents.Replace | Signal/test/views/ImageEditorTest.swift:50-55 | succeeds exactly when the id is present (not an upsert), and then the fields become `Snapshots.Replace` of the old ones; otherwise nothing changes |
| EditorContents.Contents.ItemCount | Signal/test/views/ImageEditorTest.swift:30-31 | the item count equals both `itemIds.count` and `itemMap.count` |
| EditorContents.Contents.Items | Signal/test/views/ImageEditorTest.swift:11 | walking the id list and looking each id up yields exactly `Snapshots.Items` of the contents |
| History.Initial | Signal/test/views/ImageEditorTest.swift:81-83 | a new history is consistent, cannot undo or redo, and its current snapshot is empty |
| History.Commit | Signal/test/views/ImageEditorTest.swift:85-90 | after an edit the new snapshot is current, undo is possible and redo is not |
| History.Undo | Signal/test/views/ImageEditorTest.swift:92-95 | undo makes the most recent undo snapshot current, makes redo possible, and moves one snapshot from the undo side to the redo side |
| History.Redo | Signal/test/views/ImageEditorTest.swift:97-101 | redo makes the most recently undone snapshot current, makes undo possible, and moves one snapshot from the redo side to the undo side |
| History.UndoThenRedo | Signal/test/views/ImageEditorTest.swift:92-101 | redo right after undo restores the whole history: current snapshot and both stacks |
| History.RedoThenUndo | Signal/test/views/ImageEditorTest.swift:97-106 | undo right after redo restores the whole history |
| History.UndoAfterCommit | Signal/test/views/ImageEditorTest.swift:115-126 | undo right after an edit returns to the snapshot before the edit, with only that edit left to redo: any earlier redo history is gone |
| History.UndoKeepsTimeline | Signal/test/views/ImageEditorTest.swift:92-95 | undo keeps the timeline and moves the cursor one step back |
| History.RedoKeepsTimeline | Signal/test/views/ImageEditorTest.swift:97-101 | redo keeps the timeline and moves the cursor one step forward |
| History.CommitTruncatesTimeline | Signal/test/views/ImageEditorTest.swift:103-113 | an edit cuts the timeline just after the cursor and appends the new snapshot, so an append after an undo builds on the undone state ([B], not [A, B]) |
| History.UndoNWalksBack | Signal/test/views/ImageEditorTest.swift:122-126 | after k undos the timeline is unchanged and the current snapshot is the one from k edits ago |
| History.RedoNWalksForward | Signal/test/views/ImageEditorTest.swift:97-101 | after k redos the timeline is unchanged and the current snapshot is the one k steps further along it |
| History.RedoNAfterUndoN | Signal/test/views/ImageEditorTest.swift:92-101 | n undos followed by n redos restore the history exactly, and after j of the redos the current snapshot is the one that was current after n - j of the undos, so the ids are restored at every step |
| History.RedoRetracesUndo | Signal/test/views/ImageEditorTest.swift:92-101 | after n undos and then j redos the current snapshot is the one that was current after n - j undos |
| History.CommitAllTimeline | Signal/test/views/ImageEditorTest.swift:108-120 | a run of edits keeps the timeline up to the cursor, puts the edits after it, and leaves nothing to redo |
| History.UndoAfterEdits | Signal/test/views/ImageEditorTest.swift:115-126 | after n edits, k undos show the snapshot from k edits ago, and n undos show the snapshot from before the run |
| EditorModel.Model.constructor | Signal/test/views/ImageEditorTest.swift:77-83 | a new model holds the initial history: empty contents, nothing to undo or redo |
| EditorModel.Model.CanUndo | Signal/test/views/ImageEditorTest.swift:81 | `canUndo()` holds exactly when the history's undo stack is non-empty |
| EditorModel.Model.CanRedo | Signal/test/views/ImageEditorTest.swift:82 | `canRedo()` holds exactly when the history's redo stack is non-empty |
| EditorModel.Model.ItemCount | Signal/test/views/ImageEditorTest.swift:83 | `itemCount()` is the number of ids, and of dictionary entries, in the current snapshot |
| EditorModel.Model.Items | Signal/test/views/ImageEditorTest.swift:11 | `items()` returns the current snapshot's items in id-list order |
| EditorModel.Model.ItemIds | Signal/test/views/ImageEditorTest.swift:10-14 | the `itemIds()` extension, the ids of `items()`, equals the current snapshot's `itemIds` |
| EditorModel.Model.Append | Signal/test/views/ImageEditorTest.swift:85-90 | succeeds exactly when the id is new in the current snapshot, and then the history becomes `Commit` of the old one with the appended snapshot; otherwise the whole history is unchanged |
| EditorModel.Model.Record | Signal/test/views/ImageEditorTest.swift:108-113 | recording an edited snapshot that the model does not already hold (neither current nor on a stack) pushes the old current snapshot, clears the redo stack and installs the new one |
| EditorModel.Model.Undo | Signal/test/views/ImageEditorTest.swift:92-95 | succeeds exactly when `canUndo()` held, and then the history becomes `History.Undo` of the old one; otherwise nothing changes |
| EditorModel.Model.Redo | Signal/test/views/ImageEditorTest.swift:97-101 | succeeds exactly when `canRedo()` held, and then the history becomes `History.Redo` of the old one; otherwise nothing changes |
| Scenarios.ContentsScenario | Signal/test/views/ImageEditorTest.swift:28-56 | every count assertion of `testImageEditorContents` holds, and at the end the original still holds the item while the clone is empty: a remove on the clone does not reach the original and a replace on the original does not reach the clone |
| Scenarios.AppendScenario | Signal/test/views/ImageEditorTest.swift:81-90 | a new model then one append: the test's counts, flags and `[A]` hold |
| Scenarios.UndoRedoScenario | Signal/test/views/ImageEditorTest.swift:92-101 | undo then redo: the test's flags and counts hold and the ids return to `[A]` |
| Scenarios.UndoAgainScenario | Signal/test/views/ImageEditorTest.swift:103-106 | the second undo: nothing to undo, redo possible, count 0, and the undone `[A]` snapshot is on the redo stack |
| Scenarios.AppendAfterUndoScenario | Signal/test/views/ImageEditorTest.swift:108-113 | appending B after the undo makes redo impossible and gives ids `[B]`, not `[A, B]` |
| Scenarios.SecondAppendScenario | Signal/test/views/ImageEditorTest.swift:115-120 | appending C after B gives `[B, C]` with count 2 |
| Scenarios.LastUndoScenario | Signal/test/views/ImageEditorTest.swift:122-126 | undoing C: both undo and redo are possible, the count is 1, the ids are `[B]`, and `[B, C]` waits on the redo stack |
| Scenarios.EditorScenario | Signal/test/views/ImageEditorTest.swift:72-127 | the whole of `testImageEditor` in order; it ends on `[B]` with undo and redo both possible and `[B, C]` next to redo |

## Left out

- Loading the source image (`ImageEditorModel(srcImagePath:)`, Signal/test/views/ImageEditorTest.swift:77-80) and its throwing path. That is platform image decoding and file I/O, so the model is built over an already loaded image with empty contents.
- `writeDummyImage` (Signal/test/views/ImageEditorTest.swift:58-70): UIImage rendering, PNG encoding and temporary-file writing.
- Generating item ids. The id of `ImageEditorItem(itemType:)` is random, so ids are opaque strings passed in. Freshness is stated as distinctness of the scenario parameters, and a reused id takes the reported failure path.
- The catalogue of item kinds and their geometry (crop, drawing, text). The type tag is `Test` or an opaque `Other(tag)` and is never interpreted.
- `owsFail` and the XCTest harness (`setUp`, `tearDown`, `SignalBaseTest`). The programmer errors `owsFail` would signal are modelled as an `ok == false` result with no state change.
- `removeItem` and `replaceItem` on the model. They are not exercised by the test. Each would be `Contents.Remove`/`Contents.Replace` on a clone followed by `Model.Record`, which is proved for any edited snapshot.
- Change notifications to a delegate, rendering and gesture handling.
- Concurrency: the model is single-threaded, as the editor is.
