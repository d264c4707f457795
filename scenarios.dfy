/** The two scenarios of ImageEditorTest.swift, replayed against the contracts of Contents
    and Model. Item ids are parameters; distinctness stands for the freshly generated ids. */
module Scenarios {
  import S = Snapshots
  import H = History
  import opened EditorContents
  import opened EditorModel

  /** ImageEditorTest.swift, lines 28-56: append, clone, remove from the clone, replace in the
      original. The clone and the original never see each other's edits: at the end the
      original still holds the item and the clone is empty. */
  method ContentsScenario(item: S.Item) returns (contents: Contents, contentsCopy: Contents)
    ensures contents != contentsCopy
    ensures contents.Valid() && contents.itemIds == [item.itemId]
    ensures item.itemId in contents.itemMap && contents.itemMap[item.itemId] == item
    ensures contentsCopy.Valid() && contentsCopy.Value() == S.Empty()
  {
    contents := new Contents();
    assert |contents.itemMap| == 0 && |contents.itemIds| == 0;

    var ok := contents.Append(item);
    assert ok;
    assert |contents.itemMap| == 1 && |contents.itemIds| == 1;

    contentsCopy := contents.Clone();
    assert |contents.itemMap| == 1 && |contents.itemIds| == 1;
    assert |contentsCopy.itemMap| == 1 && |contentsCopy.itemIds| == 1;

    ok := contentsCopy.Remove(item);
    assert ok;
    assert |contents.itemMap| == 1 && |contents.itemIds| == 1;
    assert |contentsCopy.itemMap| == 0 && |contentsCopy.itemIds| == 0;

    var modifiedItem := S.Item(item.itemId, item.itemType);
    ok := contents.Replace(modifiedItem);
    assert ok;
    assert |contents.itemMap| == 1 && |contents.itemIds| == 1;
    assert |contentsCopy.itemMap| == 0 && |contentsCopy.itemIds| == 0;
  }

  /** ImageEditorTest.swift, lines 81-90: a new model, then one append. */
  method AppendScenario(itemA: S.Item) returns (editor: Model)
    ensures fresh(editor) && editor.Valid()
    ensures editor.State().current.itemIds == [itemA.itemId]
    ensures |editor.State().undoStack| == 1 && editor.State().undoStack[0].itemIds == []
    ensures editor.State().redoStack == []
  {
    editor := new Model();
    assert !editor.CanUndo() && !editor.CanRedo();
    var count := editor.ItemCount();
    assert count == 0;

    var ok := editor.Append(itemA);
    assert ok;
    assert editor.CanUndo() && !editor.CanRedo();
    count := editor.ItemCount();
    var ids := editor.ItemIds();
    assert count == 1 && ids == [itemA.itemId];
  }

  /** ImageEditorTest.swift, lines 92-101: undo, then redo, which restores the undone ids. */
  method UndoRedoScenario(editor: Model, itemA: S.Item)
    requires editor.Valid()
    requires editor.State().current.itemIds == [itemA.itemId]
    requires |editor.State().undoStack| == 1 && editor.State().undoStack[0].itemIds == []
    requires editor.State().redoStack == []
    modifies editor
    ensures editor.Valid()
    ensures editor.State().current.itemIds == [itemA.itemId]
    ensures |editor.State().undoStack| == 1 && editor.State().undoStack[0].itemIds == []
    ensures editor.State().redoStack == []
  {
    var ok := editor.Undo();
    assert ok;
    assert !editor.CanUndo() && editor.CanRedo();
    var count := editor.ItemCount();
    assert count == 0;

    ok := editor.Redo();
    assert ok;
    assert editor.CanUndo() && !editor.CanRedo();
    count := editor.ItemCount();
    var ids := editor.ItemIds();
    assert count == 1 && ids == [itemA.itemId];
  }

  /** ImageEditorTest.swift, lines 103-106: undo back to the empty contents, with the edit
      available for redo. */
  method UndoAgainScenario(editor: Model, itemA: S.Item)
    requires editor.Valid()
    requires editor.State().current.itemIds == [itemA.itemId]
    requires |editor.State().undoStack| == 1 && editor.State().undoStack[0].itemIds == []
    requires editor.State().redoStack == []
    modifies editor
    ensures editor.Valid()
    ensures editor.State().current.itemIds == [] && editor.State().current.itemMap == map[]
    ensures editor.State().undoStack == []
    ensures |editor.State().redoStack| == 1 && editor.State().redoStack[0].itemIds == [itemA.itemId]
  {
    var ok := editor.Undo();
    assert ok;
    assert !editor.CanUndo() && editor.CanRedo();
    var count := editor.ItemCount();
    assert count == 0;
  }

  /** ImageEditorTest.swift, lines 108-113: a new append after the undo drops the redo history
      and builds on the undone state: [B], not [A, B]. */
  method AppendAfterUndoScenario(editor: Model, itemB: S.Item)
    requires editor.Valid()
    requires editor.State().current.itemIds == [] && editor.State().current.itemMap == map[]
    requires editor.State().undoStack == []
    requires editor.State().redoStack != []
    modifies editor
    ensures editor.Valid()
    ensures editor.State().current.itemIds == [itemB.itemId]
    ensures |editor.State().undoStack| == 1 && editor.State().undoStack[0].itemIds == []
    ensures editor.State().redoStack == []
  {
    var ok := editor.Append(itemB);
    assert ok;
    assert editor.CanUndo() && !editor.CanRedo();
    var count := editor.ItemCount();
    var ids := editor.ItemIds();
    assert count == 1 && ids == [itemB.itemId];
  }

  /** ImageEditorTest.swift, lines 115-120: a second append goes after the first: [B, C]. */
  method SecondAppendScenario(editor: Model, itemB: S.Item, itemC: S.Item)
    requires editor.Valid()
    requires editor.State().current.itemIds == [itemB.itemId]
    requires |editor.State().undoStack| == 1
    requires itemB.itemId != itemC.itemId
    modifies editor
    ensures editor.Valid()
    ensures editor.State().current.itemIds == [itemB.itemId, itemC.itemId]
    ensures |editor.State().undoStack| == 2 && editor.State().undoStack[1].itemIds == [itemB.itemId]
  {
    var ok := editor.Append(itemC);
    assert ok;
    assert editor.CanUndo() && !editor.CanRedo();
    var count := editor.ItemCount();
    var ids := editor.ItemIds();
    assert count == 2 && ids == [itemB.itemId, itemC.itemId];
  }

  /** ImageEditorTest.swift, lines 122-126: one undo goes back to [B], with one more undo and
      the redo available. */
  method LastUndoScenario(editor: Model, itemB: S.Item, itemC: S.Item)
    requires editor.Valid()
    requires editor.State().current.itemIds == [itemB.itemId, itemC.itemId]
    requires |editor.State().undoStack| == 2 && editor.State().undoStack[1].itemIds == [itemB.itemId]
    modifies editor
    ensures editor.Valid()
    ensures editor.State().current.itemIds == [itemB.itemId]
    ensures |editor.State().undoStack| == 1
    ensures editor.State().redoStack != []
    ensures editor.State().redoStack[|editor.State().redoStack| - 1].itemIds == [itemB.itemId, itemC.itemId]
  {
    var ok := editor.Undo();
    assert ok;
    assert editor.CanUndo() && editor.CanRedo();
    var count := editor.ItemCount();
    var ids := editor.ItemIds();
    assert count == 1 && ids == [itemB.itemId];
  }

  /** ImageEditorTest.swift, lines 72-127: testImageEditor in order. It ends on [B] with both
      undo and redo available, and the redo brings back [B, C]. */
  method EditorScenario(itemA: S.Item, itemB: S.Item, itemC: S.Item) returns (editor: Model)
    requires itemB.itemId != itemC.itemId
    ensures editor.Valid()
    ensures editor.State().current.itemIds == [itemB.itemId]
    ensures editor.CanUndo() && editor.CanRedo()
    ensures editor.State().redoStack[|editor.State().redoStack| - 1].itemIds == [itemB.itemId, itemC.itemId]
  {
    editor := AppendScenario(itemA);
    UndoRedoScenario(editor, itemA);
    UndoAgainScenario(editor, itemA);
    AppendAfterUndoScenario(editor, itemB);
    SecondAppendScenario(editor, itemB, itemC);
    LastUndoScenario(editor, itemB, itemC);
  }
}
