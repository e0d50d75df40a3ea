/**
 * The undo/redo timeline of the drawing canvas: a list of snapshots, each with
 * the name of the action that produced it, and a cursor on the current one.
 * The snapshot type is a parameter; the canvas pages instantiate it with their
 * scene.  These functions are the specification the canvas classes' history
 * methods are proved against.
 */
module Timeline {

  /** The cap on the number of snapshots kept. */
  const HISTORY_LIMIT := 100

  /** One history entry; the wall-clock time the pages store alongside is not modelled. */
  datatype Entry<S> = Entry(snapshot: S, name: string)

  /** The stack of entries and the cursor `historyIndex`. */
  datatype History<S> = History(stack: seq<Entry<S>>, index: int)

  /** Every state the pages reach once the canvas exists: the cursor names an entry, and the cap holds. */
  predicate Valid<S>(h: History<S>) {
    0 <= h.index < |h.stack| <= HISTORY_LIMIT
  }

  /** `canUndo()`: there is an entry before the cursor. */
  predicate CanUndo<S>(h: History<S>) {
    h.index > 0
  }

  /** `canRedo()`: there is an entry after the cursor. */
  predicate CanRedo<S>(h: History<S>) {
    h.index < |h.stack| - 1
  }

  /** The snapshot under the cursor. */
  function Current<S>(h: History<S>): S
    requires Valid(h)
  {
    h.stack[h.index].snapshot
  }

  /** A history holding only `e`, as the initial push and the reset button build it. */
  function Single<S>(e: Entry<S>): (r: History<S>)
    ensures Valid(r) && !CanUndo(r) && !CanRedo(r) && Current(r) == e.snapshot
  {
    History([e], 0)
  }

  /**
   * `pushStateToHistory`: drop the redo branch, append `e`, then either shift
   * out the oldest entry (over the cap) or advance the cursor, and clamp the
   * cursor to the last entry.
   */
  function Push<S>(h: History<S>, e: Entry<S>): History<S>
    requires Valid(h)
  {
    var kept := if h.index < |h.stack| - 1 then h.stack[..h.index + 1] else h.stack;
    var grown := kept + [e];
    var stack := if |grown| > HISTORY_LIMIT then grown[1..] else grown;
    var index := if |grown| > HISTORY_LIMIT then h.index else h.index + 1;
    History(stack, if index >= |stack| then |stack| - 1 else index)
  }

  /** `undo`: step the cursor back, or nothing when `canUndo()` is false. */
  function Undo<S>(h: History<S>): History<S> {
    if CanUndo(h) then History(h.stack, h.index - 1) else h
  }

  /** `redo`: step the cursor forward, or nothing when `canRedo()` is false. */
  function Redo<S>(h: History<S>): History<S> {
    if CanRedo(h) then History(h.stack, h.index + 1) else h
  }

  /** A click on the history panel's entry `idx`: the cursor moves there and nothing is truncated. */
  function Jump<S>(h: History<S>, idx: int): History<S>
    requires 0 <= idx < |h.stack|
  {
    History(h.stack, idx)
  }

  /** The last `n` elements of `s` (all of them when there are fewer). */
  function Recent<T>(s: seq<T>, n: nat): (r: seq<T>)
    ensures |r| <= n && |r| <= |s|
  {
    if |s| <= n then s else s[|s| - n..]
  }

  /**
   * After a push the timeline is valid, the new entry is the current and last
   * one (so there is nothing to redo), and the stack is the last
   * `HISTORY_LIMIT` entries of the entries up to the old cursor followed by `e`.
   */
  lemma PushSpec<S>(h: History<S>, e: Entry<S>)
    requires Valid(h)
    ensures var r := Push(h, e);
      && Valid(r)
      && r.index == |r.stack| - 1
      && !CanRedo(r)
      && r.stack[r.index] == e
      && r.stack == Recent(h.stack[..h.index + 1] + [e], HISTORY_LIMIT)
  {
    var kept := if h.index < |h.stack| - 1 then h.stack[..h.index + 1] else h.stack;
    assert kept == h.stack[..h.index + 1];
  }

  /** A push grows the timeline by one entry until the cap, where the length stays at the cap. */
  lemma PushLength<S>(h: History<S>, e: Entry<S>)
    requires Valid(h)
    ensures |Push(h, e).stack| == if h.index + 2 <= HISTORY_LIMIT then h.index + 2 else HISTORY_LIMIT
  {
    PushSpec(h, e);
  }

  /** A push keeps the entries before the cursor, in order, shifted by one only when the cap evicts the oldest. */
  lemma PushKeepsPast<S>(h: History<S>, e: Entry<S>, i: int)
    requires Valid(h) && 0 <= i <= h.index
    ensures h.index + 2 <= HISTORY_LIMIT ==> Push(h, e).stack[i] == h.stack[i]
    ensures h.index + 2 > HISTORY_LIMIT && 0 < i ==> Push(h, e).stack[i - 1] == h.stack[i]
  {
    PushSpec(h, e);
  }

  /** Undoing right after a push shows again what was current before the push, even when the cap evicted an entry. */
  lemma UndoAfterPush<S>(h: History<S>, e: Entry<S>)
    requires Valid(h)
    ensures CanUndo(Push(h, e))
    ensures Valid(Undo(Push(h, e))) && Current(Undo(Push(h, e))) == Current(h)
  {
    PushSpec(h, e);
  }

  /** `undo` and `redo` keep the stack, move the cursor by exactly one when allowed, and keep the timeline valid. */
  lemma UndoRedoSpec<S>(h: History<S>)
    requires Valid(h)
    ensures Valid(Undo(h)) && Undo(h).stack == h.stack
    ensures Undo(h).index == if CanUndo(h) then h.index - 1 else h.index
    ensures Valid(Redo(h)) && Redo(h).stack == h.stack
    ensures Redo(h).index == if CanRedo(h) then h.index + 1 else h.index
  {
  }

  /** `redo` undoes an allowed `undo`, and `undo` undoes an allowed `redo`. */
  lemma UndoRedoInverse<S>(h: History<S>)
    requires Valid(h)
    ensures CanUndo(h) ==> CanRedo(Undo(h)) && Redo(Undo(h)) == h
    ensures CanRedo(h) ==> CanUndo(Redo(h)) && Undo(Redo(h)) == h
  {
  }

  /** Pressing undo `n` times from the cursor lands on entry `max(index - n, 0)`. */
  function UndoTimes<S>(h: History<S>, n: nat): History<S>
    decreases n
  {
    if n == 0 then h else UndoTimes(Undo(h), n - 1)
  }

  lemma {:induction false} UndoTimesSpec<S>(h: History<S>, n: nat)
    requires Valid(h)
    ensures UndoTimes(h, n).stack == h.stack
    ensures UndoTimes(h, n).index == if h.index >= n then h.index - n else 0
    decreases n
  {
    if n > 0 {
      UndoTimesSpec(Undo(h), n - 1);
    }
  }

  /** A jump keeps the stack, so every entry after the target can still be reached by redo. */
  lemma JumpSpec<S>(h: History<S>, idx: int)
    requires Valid(h) && 0 <= idx < |h.stack|
    ensures Valid(Jump(h, idx)) && Jump(h, idx).stack == h.stack
    ensures Current(Jump(h, idx)) == h.stack[idx].snapshot
    ensures CanRedo(Jump(h, idx)) <==> idx < |h.stack| - 1
  {
  }
}
