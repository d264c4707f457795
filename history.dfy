/** The editor's linear undo/redo history as a value: the current snapshot, the undo stack and
    the redo stack (both most-recent-last). The class `Model` keeps exactly this state in its
    fields; the functions here say what its operations do to it. */
module History {
  import S = Snapshots

  datatype History = History(current: S.Snapshot, undoStack: seq<S.Snapshot>, redoStack: seq<S.Snapshot>)

  /** Every snapshot the history holds satisfies the snapshot invariant. */
  ghost predicate Consistent(h: History)
  {
    && S.Valid(h.current)
    && (forall i :: 0 <= i < |h.undoStack| ==> S.Valid(h.undoStack[i]))
    && (forall i :: 0 <= i < |h.redoStack| ==> S.Valid(h.redoStack[i]))
  }

  predicate CanUndo(h: History)
  {
    h.undoStack != []
  }

  predicate CanRedo(h: History)
  {
    h.redoStack != []
  }

  /** A new editor: empty contents, no history either way. */
  function Initial(): (h: History)
    ensures Consistent(h)
    ensures !CanUndo(h) && !CanRedo(h)
    ensures |h.current.itemIds| == 0 && |h.current.itemMap| == 0
  {
    History(S.Empty(), [], [])
  }

  /** Records an edit: the old current snapshot goes on the undo stack, the redo stack is
      discarded and `next` becomes current. */
  function Commit(h: History, next: S.Snapshot): (r: History)
    requires Consistent(h) && S.Valid(next)
    ensures Consistent(r)
    ensures CanUndo(r) && !CanRedo(r)
    ensures r.current == next
  {
    History(next, h.undoStack + [h.current], [])
  }

  /** Steps back one edit: the most recent undo snapshot becomes current and the old current
      snapshot goes on the redo stack. */
  function Undo(h: History): (r: History)
    requires Consistent(h) && CanUndo(h)
    ensures Consistent(r)
    ensures CanRedo(r)
    ensures r.current == h.undoStack[|h.undoStack| - 1]
    ensures |r.undoStack| == |h.undoStack| - 1 && |r.redoStack| == |h.redoStack| + 1
  {
    var n := |h.undoStack| - 1;
    History(h.undoStack[n], h.undoStack[..n], h.redoStack + [h.current])
  }

  /** Steps forward one undone edit; the mirror image of Undo. */
  function Redo(h: History): (r: History)
    requires Consistent(h) && CanRedo(h)
    ensures Consistent(r)
    ensures CanUndo(r)
    ensures r.current == h.redoStack[|h.redoStack| - 1]
    ensures |r.redoStack| == |h.redoStack| - 1 && |r.undoStack| == |h.undoStack| + 1
  {
    var n := |h.redoStack| - 1;
    History(h.redoStack[n], h.undoStack + [h.current], h.redoStack[..n])
  }

  /** Redo right after undo is the identity. */
  lemma UndoThenRedo(h: History)
    requires Consistent(h) && CanUndo(h)
    ensures Redo(Undo(h)) == h
  {
    var n := |h.undoStack| - 1;
    assert h.undoStack[..n] + [h.undoStack[n]] == h.undoStack;
  }

  /** Undo right after redo is the identity. */
  lemma RedoThenUndo(h: History)
    requires Consistent(h) && CanRedo(h)
    ensures Undo(Redo(h)) == h
  {
    var n := |h.redoStack| - 1;
    assert h.redoStack[..n] + [h.redoStack[n]] == h.redoStack;
  }

  /** Undo right after an edit returns to the snapshot before the edit, but the redo history
      that existed before the edit is gone: only the edit itself can be redone. */
  lemma UndoAfterCommit(h: History, next: S.Snapshot)
    requires Consistent(h) && S.Valid(next)
    ensures Undo(Commit(h, next)) == History(h.current, h.undoStack, [next])
  {
    assert (h.undoStack + [h.current])[..|h.undoStack|] == h.undoStack;
  }

  /** A sequence reversed, so that the redo stack reads in timeline order. */
  function Reversed(s: seq<S.Snapshot>): (r: seq<S.Snapshot>)
    ensures |r| == |s|
  {
    if s == [] then [] else [s[|s| - 1]] + Reversed(s[..|s| - 1])
  }

  /** The whole linear history, oldest first: the undo stack, the current snapshot, then the
      redo stack from the next redo onwards. */
  function Timeline(h: History): (t: seq<S.Snapshot>)
  {
    h.undoStack + [h.current] + Reversed(h.redoStack)
  }

  /** Where in the timeline the current snapshot sits. */
  function Cursor(h: History): (c: nat)
  {
    |h.undoStack|
  }

  /** The current snapshot is the timeline entry at the cursor. */
  lemma CurrentAtCursor(h: History)
    ensures Cursor(h) < |Timeline(h)| && Timeline(h)[Cursor(h)] == h.current
  {
  }

  /** Undo keeps the timeline and moves the cursor one step back. */
  lemma {:induction false} UndoKeepsTimeline(h: History)
    requires Consistent(h) && CanUndo(h)
    ensures Timeline(Undo(h)) == Timeline(h)
    ensures Cursor(Undo(h)) == Cursor(h) - 1
  {
    var n := |h.undoStack| - 1;
    var r := Undo(h);
    assert r.redoStack[..|h.redoStack|] == h.redoStack;
    assert Reversed(r.redoStack) == [h.current] + Reversed(h.redoStack);
    assert h.undoStack == h.undoStack[..n] + [h.undoStack[n]];
  }

  /** Redo keeps the timeline and moves the cursor one step forward. */
  lemma {:induction false} RedoKeepsTimeline(h: History)
    requires Consistent(h) && CanRedo(h)
    ensures Timeline(Redo(h)) == Timeline(h)
    ensures Cursor(Redo(h)) == Cursor(h) + 1
  {
    var n := |h.redoStack| - 1;
    assert Reversed(h.redoStack) == [h.redoStack[n]] + Reversed(h.redoStack[..n]);
  }

  /** An edit cuts the timeline just after the cursor and appends the new snapshot there:
      everything that could have been redone is discarded. */
  lemma {:induction false} CommitTruncatesTimeline(h: History, next: S.Snapshot)
    requires Consistent(h) && S.Valid(next)
    ensures Timeline(Commit(h, next)) == Timeline(h)[..Cursor(h) + 1] + [next]
    ensures Cursor(Commit(h, next)) == Cursor(h) + 1
  {
    assert Timeline(h)[..Cursor(h) + 1] == h.undoStack + [h.current];
  }

  /** n undos in a row. */
  function UndoN(h: History, n: nat): (r: History)
    requires Consistent(h) && n <= |h.undoStack|
    ensures Consistent(r)
    ensures |r.undoStack| == |h.undoStack| - n && |r.redoStack| == |h.redoStack| + n
    decreases n
  {
    if n == 0 then h else UndoN(Undo(h), n - 1)
  }

  /** n redos in a row. */
  function RedoN(h: History, n: nat): (r: History)
    requires Consistent(h) && n <= |h.redoStack|
    ensures Consistent(r)
    ensures |r.redoStack| == |h.redoStack| - n && |r.undoStack| == |h.undoStack| + n
    decreases n
  {
    if n == 0 then h else Redo(RedoN(h, n - 1))
  }

  /** After k undos the timeline is unchanged and the current snapshot is the one from k edits
      ago: the undo stack at depth k holds the state that existed k edits back. */
  lemma {:induction false} UndoNWalksBack(h: History, k: nat)
    requires Consistent(h) && k <= |h.undoStack|
    ensures Timeline(UndoN(h, k)) == Timeline(h)
    ensures Cursor(UndoN(h, k)) == Cursor(h) - k
    ensures UndoN(h, k).current == Timeline(h)[Cursor(h) - k]
    decreases k
  {
    if k == 0 {
      CurrentAtCursor(h);
    } else {
      UndoKeepsTimeline(h);
      UndoNWalksBack(Undo(h), k - 1);
      CurrentAtCursor(UndoN(h, k));
    }
  }

  /** After k redos the timeline is unchanged and the current snapshot is the one k steps
      further along it. */
  lemma {:induction false} RedoNWalksForward(h: History, k: nat)
    requires Consistent(h) && k <= |h.redoStack|
    ensures Timeline(RedoN(h, k)) == Timeline(h)
    ensures Cursor(RedoN(h, k)) == Cursor(h) + k
    ensures RedoN(h, k).current == Timeline(h)[Cursor(h) + k]
  {
    if k == 0 {
      CurrentAtCursor(h);
    } else {
      RedoNWalksForward(h, k - 1);
      RedoKeepsTimeline(RedoN(h, k - 1));
      CurrentAtCursor(RedoN(h, k));
    }
  }

  /** n undos followed by n redos restore the history exactly, and after j of the redos the
      current snapshot is the one that was current after n - j of the undos. */
  lemma {:induction false} RedoNAfterUndoN(h: History, n: nat)
    requires Consistent(h) && n <= |h.undoStack|
    ensures RedoN(UndoN(h, n), n) == h
    ensures forall j :: 0 <= j <= n ==> RedoN(UndoN(h, n), j).current == UndoN(h, n - j).current
    decreases n
  {
    if n > 0 {
      RedoNAfterUndoN(Undo(h), n - 1);
      UndoThenRedo(h);
    }
    forall j | 0 <= j <= n
      ensures RedoN(UndoN(h, n), j).current == UndoN(h, n - j).current
    {
      RedoRetracesUndo(h, n, j);
    }
  }

  /** After n undos and then j redos (j <= n) the current snapshot is the one that was current
      after n - j of the undos: both are the same timeline entry. */
  lemma RedoRetracesUndo(h: History, n: nat, j: nat)
    requires Consistent(h) && j <= n <= |h.undoStack|
    ensures RedoN(UndoN(h, n), j).current == UndoN(h, n - j).current
  {
    UndoNWalksBack(h, n);
    RedoNWalksForward(UndoN(h, n), j);
    UndoNWalksBack(h, n - j);
  }

  /** A run of edits, each recorded with Commit, oldest first. */
  function CommitAll(h: History, edits: seq<S.Snapshot>): (r: History)
    requires Consistent(h)
    requires forall i :: 0 <= i < |edits| ==> S.Valid(edits[i])
    ensures Consistent(r)
    ensures |r.undoStack| == |h.undoStack| + |edits|
    decreases |edits|
  {
    if edits == [] then h
    else Commit(CommitAll(h, edits[..|edits| - 1]), edits[|edits| - 1])
  }

  /** A run of edits keeps the timeline up to the cursor and puts the edits after it; a
      non-empty run leaves nothing to redo. */
  lemma {:induction false} CommitAllTimeline(h: History, edits: seq<S.Snapshot>)
    requires Consistent(h)
    requires forall i :: 0 <= i < |edits| ==> S.Valid(edits[i])
    ensures Cursor(CommitAll(h, edits)) == Cursor(h) + |edits|
    ensures Timeline(CommitAll(h, edits))[..Cursor(h) + |edits| + 1]
         == Timeline(h)[..Cursor(h) + 1] + edits
    ensures edits != [] ==> !CanRedo(CommitAll(h, edits))
    decreases |edits|
  {
    if edits != [] {
      var n := |edits| - 1;
      CommitAllTimeline(h, edits[..n]);
      var g := CommitAll(h, edits[..n]);
      CommitTruncatesTimeline(g, edits[n]);
      assert edits[..n] + [edits[n]] == edits;
    }
  }

  /** After n edits, k undos (k <= n) show the snapshot from k edits ago; n undos show the
      snapshot from before the run. */
  lemma UndoAfterEdits(h: History, edits: seq<S.Snapshot>, k: nat)
    requires Consistent(h)
    requires forall i :: 0 <= i < |edits| ==> S.Valid(edits[i])
    requires k <= |edits|
    ensures UndoN(CommitAll(h, edits), k).current == ([h.current] + edits)[|edits| - k]
  {
    var g := CommitAll(h, edits);
    CommitAllTimeline(h, edits);
    UndoNWalksBack(g, k);
    CurrentAtCursor(h);
    assert Timeline(h)[..Cursor(h) + 1] == h.undoStack + [h.current];
    assert Timeline(g)[Cursor(g) - k] == Timeline(g)[..Cursor(h) + |edits| + 1][Cursor(g) - k];
  }
}
