/** The image editor model: the current content snapshot and two stacks of earlier snapshots,
    with linear undo and redo. Every edit clones the current snapshot, edits the clone and
    installs it; a snapshot that is on a stack is never modified again. */
module EditorModel {
  import S = Snapshots
  import H = History
  import opened EditorContents

  /** The values of a list of snapshot objects, in order. */
  ghost function Values(cs: seq<Contents>): (r: seq<S.Snapshot>)
    reads cs
    ensures |r| == |cs|
    ensures forall i :: 0 <= i < |cs| ==> r[i] == cs[i].Value()
  {
    seq(|cs|, i requires 0 <= i < |cs| reads cs => cs[i].Value())
  }

  class Model {
    var current: Contents
    /** Earlier snapshots, most recent last. */
    var undoStack: seq<Contents>
    /** Undone snapshots, most recently undone last. */
    var redoStack: seq<Contents>

    /** The history these objects hold, as a value. */
    ghost function State(): H.History
      reads this, current, undoStack, redoStack
    {
      H.History(current.Value(), Values(undoStack), Values(redoStack))
    }

    ghost predicate Valid()
      reads this, current, undoStack, redoStack
    {
      H.Consistent(State())
    }

    /** A model over an already loaded source image: empty contents, no history. */
    constructor ()
      ensures Valid()
      ensures State() == H.Initial()
      ensures fresh(current)
    {
      current := new Contents();
      undoStack := [];
      redoStack := [];
    }

    function CanUndo(): (b: bool)
      reads this, current, undoStack, redoStack
      ensures b == H.CanUndo(State())
    {
      undoStack != []
    }

    function CanRedo(): (b: bool)
      reads this, current, undoStack, redoStack
      ensures b == H.CanRedo(State())
    {
      redoStack != []
    }

    /** The number of items in the current snapshot. */
    function ItemCount(): (n: nat)
      reads this, current, undoStack, redoStack
      requires Valid()
      ensures n == |State().current.itemIds| && n == |State().current.itemMap|
    {
      current.ItemCount()
    }

    /** The current items in back-to-front order. */
    method Items() returns (items: seq<S.Item>)
      requires Valid()
      ensures items == S.Items(State().current)
    {
      items := current.Items();
    }

    /** The ids of the current items, in order: the ids of what Items() returns. */
    function ItemIds(): (ids: seq<string>)
      reads this, current, undoStack, redoStack
      requires Valid()
      ensures ids == State().current.itemIds
    {
      S.IdsOfItems(current.Value());
      S.IdsOf(S.Items(current.Value()))
    }

    /** Adds an item as a new edit. A duplicate id is reported and leaves the model as it was
        (snapshot, both stacks); otherwise the edit is recorded and the redo history dropped. */
    method Append(item: S.Item) returns (ok: bool)
      requires Valid()
      modifies this
      ensures Valid()
      ensures ok == (item.itemId !in old(State()).current.itemMap)
      ensures ok ==> State() == H.Commit(old(State()), S.Append(old(State()).current, item))
      ensures !ok ==> State() == old(State())
    {
      ghost var before := State();
      var next := current.Clone();
      ok := next.Append(item);
      assert current.Value() == before.current;
      assert Values(undoStack) == before.undoStack && Values(redoStack) == before.redoStack;
      if ok {
        Record(next);
      }
    }

    /** The common tail of every edit: the old current snapshot goes on the undo stack, the
        redo stack is cleared and the edited snapshot becomes current. The edited snapshot is a
        new object (a clone), never one the model already holds, so no snapshot is shared
        between the current state and the history. */
    method Record(next: Contents)
      requires Valid() && next.Valid()
      requires next != current && next !in undoStack && next !in redoStack
      modifies this
      ensures Valid()
      ensures State() == H.Commit(old(State()), next.Value())
    {
      undoStack := undoStack + [current];
      redoStack := [];
      current := next;
    }

    /** Steps back one edit. With nothing to undo this is reported and changes nothing. */
    method Undo() returns (ok: bool)
      requires Valid()
      modifies this
      ensures Valid()
      ensures ok == H.CanUndo(old(State()))
      ensures ok ==> State() == H.Undo(old(State()))
      ensures !ok ==> State() == old(State())
    {
      if undoStack == [] {
        return false;
      }
      var n := |undoStack| - 1;
      var previous := undoStack[n];
      redoStack := redoStack + [current];
      undoStack := undoStack[..n];
      current := previous;
      ok := true;
    }

    /** Steps forward one undone edit. With nothing to redo this is reported and changes nothing. */
    method Redo() returns (ok: bool)
      requires Valid()
      modifies this
      ensures Valid()
      ensures ok == H.CanRedo(old(State()))
      ensures ok ==> State() == H.Redo(old(State()))
      ensures !ok ==> State() == old(State())
    {
      if redoStack == [] {
        return false;
      }
      var n := |redoStack| - 1;
      var following := redoStack[n];
      undoStack := undoStack + [current];
      redoStack := redoStack[..n];
      current := following;
      ok := true;
    }
  }
}
