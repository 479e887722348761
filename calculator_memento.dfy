/** Snapshots of the history list and the caretaker that keeps them for
    undo and redo (app/calculator_memento.py). */
module Memento {
  import opened Wrappers
  import opened Calculations

  /** A snapshot of the history list. Python copies the list on the way in
      and on the way out; a Dafny sequence is a value, so the snapshot can
      never share state with the list it was taken from. */
  datatype CalculatorMemento = CalculatorMemento(saved: seq<Calculation>)
  {
    /** `get_state`: the list the snapshot was taken of. */
    function GetState(): (h: seq<Calculation>)
      ensures |h| == |saved|
      ensures forall i :: 0 <= i < |h| ==> h[i] == saved[i]
    {
      saved
    }
  }

  /** What `get_state` returns is the list given at construction. A caller
      that grows the returned list cannot change the snapshot: the list is a
      value, so every later `get_state` still returns `h`. */
  lemma MementoIsolated(h: seq<Calculation>)
    ensures CalculatorMemento(h).GetState() == h
  {
  }

  /** One list of snapshots and a cursor into it. The snapshot under the
      cursor is the current state; the ones before it can be undone to and
      the ones after it redone to. */
  class HistoryCaretaker {
    var states: seq<CalculatorMemento>
    var currentIndex: int

    /** The cursor is on a snapshot, or is -1 exactly when there is none. */
    ghost predicate Valid()
      reads this
    {
      -1 <= currentIndex < |states| && (currentIndex == -1 <==> states == [])
    }

    constructor ()
      ensures Valid()
      ensures states == [] && currentIndex == -1
      ensures !CanUndo() && !CanRedo()
    {
      states := [];
      currentIndex := -1;
    }

    /** `save_state`: forget every snapshot after the cursor, append the new
        one and move the cursor onto it. */
    method SaveState(memento: CalculatorMemento)
      requires Valid()
      modifies this
      ensures Valid()
      ensures states == old(states[..currentIndex + 1]) + [memento]
      ensures currentIndex == |states| - 1 == old(currentIndex) + 1
      ensures states[currentIndex] == memento
      ensures !CanRedo()
    {
      states := states[..currentIndex + 1];
      states := states + [memento];
      currentIndex := |states| - 1;
    }

    /** `undo`: step the cursor back and return the snapshot it lands on,
        or None (changing nothing) if there is no earlier snapshot. */
    method Undo() returns (r: Option<CalculatorMemento>)
      requires Valid()
      modifies this
      ensures Valid() && states == old(states)
      ensures r.Some? <==> old(CanUndo())
      ensures r.Some? ==> currentIndex == old(currentIndex) - 1 && r.value == states[currentIndex]
      ensures r.Some? ==> CanRedo() && states[currentIndex + 1] == old(states[currentIndex])
      ensures r.None? ==> currentIndex == old(currentIndex)
    {
      if !CanUndo() {
        return None;
      }
      currentIndex := currentIndex - 1;
      return Some(states[currentIndex]);
    }

    /** `redo`: step the cursor forward and return the snapshot it lands on,
        or None (changing nothing) if the cursor is on the last snapshot. */
    method Redo() returns (r: Option<CalculatorMemento>)
      requires Valid()
      modifies this
      ensures Valid() && states == old(states)
      ensures r.Some? <==> old(CanRedo())
      ensures r.Some? ==> currentIndex == old(currentIndex) + 1 && r.value == states[currentIndex]
      ensures r.Some? ==> CanUndo() && states[currentIndex - 1] == old(states[currentIndex])
      ensures r.None? ==> currentIndex == old(currentIndex)
    {
      if !CanRedo() {
        return None;
      }
      currentIndex := currentIndex + 1;
      return Some(states[currentIndex]);
    }

    /** `can_undo`: there is a snapshot before the cursor. A single saved
        snapshot is therefore not undoable. */
    predicate CanUndo()
      reads this
      ensures Valid() && CanUndo() ==> 0 <= currentIndex - 1 < |states|
      ensures Valid() && |states| <= 1 ==> !CanUndo()
    {
      currentIndex > 0
    }

    /** `can_redo`: there is a snapshot after the cursor. */
    predicate CanRedo()
      reads this
      ensures Valid() && CanRedo() ==> 0 <= currentIndex + 1 < |states|
      ensures Valid() && |states| <= 1 ==> !CanRedo()
    {
      currentIndex < |states| - 1
    }

    /** `clear`: drop every snapshot. */
    method Clear()
      requires Valid()
      modifies this
      ensures Valid()
      ensures states == [] && currentIndex == -1
      ensures !CanUndo() && !CanRedo()
    {
      states := [];
      currentIndex := -1;
    }
  }
}
