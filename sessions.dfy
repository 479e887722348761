/** Sequences of history operations, as the repository's tests run them,
    and the undo/redo laws they illustrate, proved for every reachable
    state. */
module Sessions {
  import opened Wrappers
  import opened IsoTime
  import opened Calculations
  import opened Memento
  import opened History

  /** Adding a record and undoing returns to the list from before the add,
      with the add now redoable. */
  method AddThenUndo(h: CalculationHistory, c: Calculation)
    requires h.Valid() && h.Synced()
    modifies h, h.caretaker
    ensures h.Valid() && h.Synced()
    ensures h.history == old(h.history)
    ensures h.CanRedo()
  {
    h.AddCalculation(c);
    var ok := h.Undo();
    assert ok;
  }

  /** Undoing and then redoing returns to the list from before the undo. */
  method UndoThenRedo(h: CalculationHistory)
    requires h.Valid() && h.Synced() && h.CanUndo()
    modifies h, h.caretaker
    ensures h.Valid() && h.Synced()
    ensures h.history == old(h.history)
    ensures h.caretaker.states == old(h.caretaker.states)
    ensures h.caretaker.currentIndex == old(h.caretaker.currentIndex)
  {
    var undone := h.Undo();
    var redone := h.Redo();
    assert undone && redone;
  }

  /** An add after an undo forgets the undone state: nothing is redoable. */
  method UndoThenAddForgetsRedo(h: CalculationHistory, c: Calculation)
    requires h.Valid() && h.CanUndo()
    modifies h, h.caretaker
    ensures h.Valid() && h.Synced()
    ensures !h.CanRedo()
  {
    var ok := h.Undo();
    h.AddCalculation(c);
  }

  /** A fresh history is empty and has nothing to undo or redo; one add
      makes it undoable, because the constructor saved the empty list, and
      undoing goes back to that empty list. */
  method FreshHistory(c: Calculation)
  {
    var h := new CalculationHistory();
    assert h.maxSize == 100;
    var n := h.Length();
    var last := h.GetLastCalculation();
    assert n == 0 && last == None;
    var undone := h.Undo();
    var redone := h.Redo();
    assert !undone && !redone && h.history == [];
    h.AddCalculation(c);
    last := h.GetLastCalculation();
    assert last == Some(c) && h.CanUndo() && !h.CanRedo();
    redone := h.Redo();
    assert !redone;
    undone := h.Undo();
    assert undone && h.history == [];
  }

  /** With room for three, adding four records keeps the last three; one
      undo goes back to the three before the fourth add. */
  method BoundedAdds(a: Calculation, s: Calculation, m: Calculation, d: Calculation)
  {
    var h := new CalculationHistory(3);
    h.AddCalculation(a);
    h.AddCalculation(s);
    h.AddCalculation(m);
    assert h.history == [a, s, m];
    h.AddCalculation(d);
    assert h.history == [s, m, d];
    var ok := h.Undo();
    assert ok && h.history == [a, s, m];
  }

  /** Clearing empties the list and leaves nothing to undo or redo. */
  method ClearAfterAdds(a: Calculation, b: Calculation)
  {
    var h := new CalculationHistory(100);
    h.AddCalculation(a);
    h.AddCalculation(b);
    h.ClearHistory();
    var last := h.GetLastCalculation();
    assert h.history == [] && last == None && !h.CanUndo() && !h.CanRedo();
  }

  /** Saving refuses an empty history; loading a missing file fails and
      changes nothing; what was saved loads back in order, with nothing to
      undo or redo. */
  method SaveClearLoad(a: Calculation, b: Calculation, clock: nat -> DateTime,
                       parseFloat: string -> Option<real>)
  {
    var h := new CalculationHistory(100);
    var empty := h.SaveToCsv();
    assert empty == Failure(NoHistoryToSave);
    h.AddCalculation(a);
    h.AddCalculation(b);
    var saved := h.SaveToCsv();
    assert saved.Success?;
    var rows := saved.value;
    assert rows == EncodeRows([a, b]);
    h.ClearHistory();
    var missing := h.LoadFromCsv("nonexistent.csv", Missing, clock, parseFloat);
    assert missing == Fail(FileNotFound("nonexistent.csv")) && h.history == [];
    RowsRoundTrip([a, b], clock, parseFloat);
    var loaded := h.LoadFromCsv("history.csv", Table(rows), clock, parseFloat);
    assert loaded == Pass && h.history == [a, b];
    assert !h.CanUndo() && !h.CanRedo();
  }

  /** The caretaker on its own: one saved state cannot be undone; with two,
      undo goes back and redo forward; saving after an undo forgets the
      redoable state; clearing leaves nothing either way. */
  method CaretakerSteps(m1: CalculatorMemento, m2: CalculatorMemento, m3: CalculatorMemento)
  {
    var t := new HistoryCaretaker();
    var none := t.Undo();
    assert none == None;
    none := t.Redo();
    assert none == None;
    t.SaveState(m1);
    assert !t.CanUndo();
    t.SaveState(m2);
    assert t.CanUndo();
    var back := t.Undo();
    assert back == Some(m1) && t.CanRedo();
    var forward := t.Redo();
    assert forward == Some(m2);
    back := t.Undo();
    t.SaveState(m3);
    assert !t.CanRedo() && t.states == [m1, m3];
    t.Clear();
    assert !t.CanUndo() && !t.CanRedo();
  }
}
