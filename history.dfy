/** The calculation history (app/history.py): a size-bounded list of
    records, checkpointed into a caretaker after every change so that it
    can be undone and redone, and saved to and loaded from a table of
    rows. */
module History {
  import opened Wrappers
  import opened IsoTime
  import opened Calculations
  import opened Memento

  /** The `HistoryError` conditions. */
  datatype HistoryError =
    | NoHistoryToSave
    | FileNotFound(path: string)
    | LoadFailed(reason: LoadFailure)
  {
    /** The start of the exception's message; a load failure's message goes
        on with the text of the underlying exception. */
    function Message(): string {
      match this
      case NoHistoryToSave => "No history to save"
      case FileNotFound(path) => "History file not found: " + path
      case LoadFailed(_) => "Failed to load history: "
    }
  }

  /** What went wrong inside a load: the table could not be read, or a row
      could not be made into a record. */
  datatype LoadFailure = TableUnreadable | BadRow(error: ConversionError)

  /** The file a load reads: absent, present but not a readable table, or a
      table of rows. */
  datatype StoredFile = Missing | Unreadable | Table(rows: seq<Row>)

  /** The list after `add_calculation`: the record appended, then the
      oldest entry dropped if the list has grown past `maxSize`. */
  function Appended(h: seq<Calculation>, c: Calculation, maxSize: int): seq<Calculation>
  {
    var grown := h + [c];
    if |grown| > maxSize then grown[1..] else grown
  }

  /** Appending puts the record last; the oldest entry is dropped exactly
      when the grown list is over the bound, and nothing else is. A list
      within the bound stays within it, and one over the bound (after an
      uncapped load) keeps its length. */
  lemma AppendedProperties(h: seq<Calculation>, c: Calculation, maxSize: int)
    requires maxSize >= 1
    ensures var r := Appended(h, c, maxSize);
            && r[|r| - 1] == c
            && (|h| + 1 <= maxSize ==> r == h + [c])
            && (|h| + 1 > maxSize ==> r == h[1..] + [c])
            && (|h| <= maxSize ==> |r| <= maxSize)
            && (|h| > maxSize ==> |r| == |h|)
  {
  }

  /** The list after adding each of `cs` in turn. */
  function AppendedAll(h: seq<Calculation>, cs: seq<Calculation>, maxSize: int): seq<Calculation>
    decreases |cs|
  {
    if cs == [] then h
    else Appended(AppendedAll(h, cs[..|cs| - 1], maxSize), cs[|cs| - 1], maxSize)
  }

  /** The last `n` elements of `s` (all of `s` if it is shorter). */
  function LastN(s: seq<Calculation>, n: nat): (r: seq<Calculation>)
    ensures |r| == if |s| < n then |s| else n
    ensures forall i :: 0 <= i < |r| ==> r[i] == s[|s| - |r| + i]
  {
    if |s| <= n then s else s[|s| - n..]
  }

  /** Starting within the bound, any run of adds leaves exactly the last
      `maxSize` records of old list and additions, in order. */
  lemma {:induction false} AppendedAllKeepsLast(h: seq<Calculation>, cs: seq<Calculation>, maxSize: nat)
    requires |h| <= maxSize
    ensures AppendedAll(h, cs, maxSize) == LastN(h + cs, maxSize)
    decreases |cs|
  {
    if cs != [] {
      var init, c := cs[..|cs| - 1], cs[|cs| - 1];
      AppendedAllKeepsLast(h, init, maxSize);
      assert h + cs == (h + init) + [c];
      LastNAppended(h + init, c, maxSize);
    }
  }

  lemma LastNAppended(s: seq<Calculation>, c: Calculation, n: nat)
    ensures Appended(LastN(s, n), c, n) == LastN(s + [c], n)
  {
    if |s| > n {
      assert (s[|s| - n..] + [c])[1..] == (s + [c])[|s| + 1 - n..];
    }
  }

  /** Rows written by `save_to_csv`: one `to_dict` per record, in list
      order. */
  function EncodeRows(h: seq<Calculation>): (rows: seq<Row>)
    ensures |rows| == |h|
    ensures forall i :: 0 <= i < |h| ==> rows[i] == ToDict(h[i])
  {
    seq(|h|, i requires 0 <= i < |h| => ToDict(h[i]))
  }

  /** The records `load_from_csv` builds from `rows`, row `i` at clock
      reading `clock(i)`, or the error of the first row that fails. */
  function DecodeRows(rows: seq<Row>, clock: nat -> DateTime,
                      parseFloat: string -> Option<real>): (r: Result<seq<Calculation>, ConversionError>)
    ensures r.Success? ==> |r.value| == |rows|
    decreases |rows|
  {
    if rows == [] then Success([])
    else
      match DecodeRows(rows[..|rows| - 1], clock, parseFloat)
      case Failure(e) => Failure(e)
      case Success(h) =>
        match FromDict(rows[|rows| - 1], clock(|rows| - 1), parseFloat)
        case Failure(e) => Failure(e)
        case Success(c) => Success(h + [c])
  }

  /** A successful decode has one record per row, each the `from_dict` of
      its row. */
  lemma {:induction false} DecodeRowsSuccess(rows: seq<Row>, clock: nat -> DateTime,
                                             parseFloat: string -> Option<real>)
    requires DecodeRows(rows, clock, parseFloat).Success?
    ensures var h := DecodeRows(rows, clock, parseFloat).value;
            && |h| == |rows|
            && forall i {:trigger FromDict(rows[i], clock(i), parseFloat)} ::
                 0 <= i < |rows| ==> FromDict(rows[i], clock(i), parseFloat) == Success(h[i])
    decreases |rows|
  {
    if rows != [] {
      var n := |rows| - 1;
      var init := rows[..n];
      DecodeRowsSuccess(init, clock, parseFloat);
      var prefix := DecodeRows(init, clock, parseFloat).value;
      var c := FromDict(rows[n], clock(n), parseFloat);
      assert DecodeRows(rows, clock, parseFloat) == Success(prefix + [c.value]);
      var h := prefix + [c.value];
      forall i | 0 <= i < |rows| ensures FromDict(rows[i], clock(i), parseFloat) == Success(h[i]) {
        if i < n {
          assert rows[i] == init[i] && h[i] == prefix[i];
          assert FromDict(init[i], clock(i), parseFloat) == Success(prefix[i]);
        }
      }
    }
  }

  /** A decode fails exactly when some row fails to convert. */
  lemma {:induction false} DecodeRowsFailure(rows: seq<Row>, clock: nat -> DateTime,
                                             parseFloat: string -> Option<real>)
    ensures DecodeRows(rows, clock, parseFloat).Failure? <==>
              exists i :: 0 <= i < |rows| && FromDict(rows[i], clock(i), parseFloat).Failure?
    decreases |rows|
  {
    if rows != [] {
      var init := rows[..|rows| - 1];
      DecodeRowsFailure(init, clock, parseFloat);
      forall i | 0 <= i < |rows| - 1 ensures rows[i] == init[i] { }
    }
  }

  /** Once a prefix of the rows fails, the whole table fails with the same
      error. */
  lemma {:induction false} DecodeRowsPrefixFailure(rows: seq<Row>, k: nat, clock: nat -> DateTime,
                                                   parseFloat: string -> Option<real>)
    requires k <= |rows|
    requires DecodeRows(rows[..k], clock, parseFloat).Failure?
    ensures DecodeRows(rows, clock, parseFloat) == DecodeRows(rows[..k], clock, parseFloat)
    decreases |rows| - k
  {
    if k < |rows| {
      assert rows[..k + 1][..k] == rows[..k];
      DecodeRowsPrefixFailure(rows, k + 1, clock, parseFloat);
    } else {
      assert rows[..k] == rows;
    }
  }

  /** Conversely, rows that each convert decode to those records, in order. */
  lemma {:induction false} DecodeRowsAll(rows: seq<Row>, h: seq<Calculation>, clock: nat -> DateTime,
                                         parseFloat: string -> Option<real>)
    requires |h| == |rows|
    requires forall i {:trigger FromDict(rows[i], clock(i), parseFloat)} ::
               0 <= i < |rows| ==> FromDict(rows[i], clock(i), parseFloat) == Success(h[i])
    ensures DecodeRows(rows, clock, parseFloat) == Success(h)
    decreases |rows|
  {
    DecodeRowsAllPrefix(rows, h, |rows|, clock, parseFloat);
    assert rows[..|rows|] == rows && h[..|h|] == h;
  }

  lemma {:induction false} DecodeRowsAllPrefix(rows: seq<Row>, h: seq<Calculation>, k: nat,
                                               clock: nat -> DateTime, parseFloat: string -> Option<real>)
    requires |h| == |rows| && k <= |rows|
    requires forall i {:trigger FromDict(rows[i], clock(i), parseFloat)} ::
               0 <= i < |rows| ==> FromDict(rows[i], clock(i), parseFloat) == Success(h[i])
    ensures DecodeRows(rows[..k], clock, parseFloat) == Success(h[..k])
    decreases k
  {
    if k == 0 {
      assert rows[..0] == [];
    } else {
      DecodeRowsAllPrefix(rows, h, k - 1, clock, parseFloat);
      DecodeRowsStep(rows, k - 1, clock, parseFloat, h[..k - 1]);
      assert h[..k - 1] + [h[k - 1]] == h[..k];
    }
  }

  lemma DecodeRowsSnoc(rows: seq<Row>, clock: nat -> DateTime, parseFloat: string -> Option<real>,
                       h: seq<Calculation>, c: Calculation)
    requires rows != []
    requires DecodeRows(rows[..|rows| - 1], clock, parseFloat) == Success(h)
    requires FromDict(rows[|rows| - 1], clock(|rows| - 1), parseFloat) == Success(c)
    ensures DecodeRows(rows, clock, parseFloat) == Success(h + [c])
  {
  }

  /** Decoding row `i` after a decoded prefix either extends the prefix by
      its record or makes the whole table fail with its error. */
  lemma DecodeRowsStep(rows: seq<Row>, i: nat, clock: nat -> DateTime,
                       parseFloat: string -> Option<real>, h: seq<Calculation>)
    requires i < |rows| && DecodeRows(rows[..i], clock, parseFloat) == Success(h)
    ensures FromDict(rows[i], clock(i), parseFloat).Success? ==>
              DecodeRows(rows[..i + 1], clock, parseFloat)
              == Success(h + [FromDict(rows[i], clock(i), parseFloat).value])
    ensures FromDict(rows[i], clock(i), parseFloat).Failure? ==>
              DecodeRows(rows, clock, parseFloat) == Failure(FromDict(rows[i], clock(i), parseFloat).error)
  {
    assert rows[..i + 1][..i] == rows[..i];
    var c := FromDict(rows[i], clock(i), parseFloat);
    if c.Success? {
      DecodeRowsSnoc(rows[..i + 1], clock, parseFloat, h, c.value);
    } else {
      DecodeRowsSnocFailure(rows[..i + 1], clock, parseFloat, h);
      DecodeRowsPrefixFailure(rows, i + 1, clock, parseFloat);
    }
  }

  lemma DecodeRowsSnocFailure(rows: seq<Row>, clock: nat -> DateTime, parseFloat: string -> Option<real>,
                              h: seq<Calculation>)
    requires rows != []
    requires DecodeRows(rows[..|rows| - 1], clock, parseFloat) == Success(h)
    requires FromDict(rows[|rows| - 1], clock(|rows| - 1), parseFloat).Failure?
    ensures DecodeRows(rows, clock, parseFloat) == Failure(FromDict(rows[|rows| - 1], clock(|rows| - 1), parseFloat).error)
  {
  }

  /** Loading what was saved gives back the same records, in order, with
      their timestamps. */
  lemma RowsRoundTrip(h: seq<Calculation>, clock: nat -> DateTime,
                      parseFloat: string -> Option<real>)
    ensures DecodeRows(EncodeRows(h), clock, parseFloat) == Success(h)
  {
    var rows := EncodeRows(h);
    forall i | 0 <= i < |rows| ensures FromDict(rows[i], clock(i), parseFloat) == Success(h[i]) {
      DictRoundTrip(h[i], clock(i), parseFloat);
    }
    DecodeRowsAll(rows, h, clock, parseFloat);
  }

  class CalculationHistory {
    /** The live list, oldest first. */
    var history: seq<Calculation>
    const maxSize: int
    const caretaker: HistoryCaretaker

    /** The caretaker is consistent and holds at least one snapshot. */
    ghost predicate Valid()
      reads this, caretaker
    {
      caretaker.Valid() && caretaker.currentIndex >= 0
    }

    /** The caretaker's current snapshot is the live list. Every operation
        but a failed load leaves the history in this state. */
    ghost predicate Synced()
      reads this, caretaker
      requires Valid()
    {
      caretaker.states[caretaker.currentIndex].GetState() == history
    }

    /** An empty history whose caretaker holds one snapshot, of the empty
        list. */
    constructor (maxSize: int := 100)
      ensures Valid() && Synced()
      ensures history == [] && this.maxSize == maxSize && fresh(caretaker)
      ensures caretaker.states == [CalculatorMemento([])] && caretaker.currentIndex == 0
      ensures !CanUndo() && !CanRedo()
    {
      var c := new HistoryCaretaker();
      c.SaveState(CalculatorMemento([]));
      history := [];
      this.maxSize := maxSize;
      caretaker := c;
    }

    /** `add_calculation`: append, drop the oldest entry if the list is now
        over the bound, and checkpoint the result (which forgets any
        redoable snapshots). */
    method AddCalculation(calculation: Calculation)
      requires Valid()
      modifies this, caretaker
      ensures Valid() && Synced()
      ensures history == Appended(old(history), calculation, maxSize)
      ensures caretaker.states == old(caretaker.states[..caretaker.currentIndex + 1])
                                  + [CalculatorMemento(history)]
      ensures caretaker.currentIndex == old(caretaker.currentIndex) + 1
      ensures CanUndo() && !CanRedo()
    {
      history := history + [calculation];
      if |history| > maxSize {
        history := history[1..];
      }
      caretaker.SaveState(CalculatorMemento(history));
    }

    /** `get_history`: the list, as a value the caller cannot change. */
    method GetHistory() returns (h: seq<Calculation>)
      ensures h == history
    {
      h := history;
    }

    /** `clear_history`: empty the list and the caretaker, then checkpoint
        the empty list. */
    method ClearHistory()
      requires Valid()
      modifies this, caretaker
      ensures Valid() && Synced()
      ensures history == []
      ensures caretaker.states == [CalculatorMemento([])] && caretaker.currentIndex == 0
      ensures !CanUndo() && !CanRedo()
    {
      history := [];
      Rebase();
    }

    /** Forget every snapshot and save the live list as the only one, as
        `clear_history` and a successful `load_from_csv` both do. */
    method Rebase()
      requires caretaker.Valid()
      modifies caretaker
      ensures Valid() && Synced()
      ensures caretaker.states == [CalculatorMemento(history)] && caretaker.currentIndex == 0
      ensures !CanUndo() && !CanRedo()
    {
      caretaker.Clear();
      caretaker.SaveState(CalculatorMemento(history));
    }

    /** `get_last_calculation`: the newest record, or None when empty. */
    method GetLastCalculation() returns (r: Option<Calculation>)
      ensures r.None? <==> history == []
      ensures r.Some? ==> r.value == history[|history| - 1]
    {
      r := if history != [] then Some(history[|history| - 1]) else None;
    }

    /** `undo`: if there is an earlier snapshot, make it the live list and
        report true; otherwise report false and change nothing. The source's
        second check, for a None from the caretaker, cannot fire once
        `can_undo` has held, and is not modelled. */
    method Undo() returns (ok: bool)
      requires Valid()
      modifies this, caretaker
      ensures Valid() && caretaker.states == old(caretaker.states)
      ensures ok == old(CanUndo())
      ensures ok ==> Synced() && CanRedo()
      ensures ok ==> caretaker.currentIndex == old(caretaker.currentIndex) - 1
      ensures !ok ==> history == old(history) && caretaker.currentIndex == old(caretaker.currentIndex)
    {
      if !CanUndo() {
        return false;
      }
      var memento := caretaker.Undo();
      history := memento.value.GetState();
      return true;
    }

    /** `redo`: if there is a later snapshot, make it the live list and
        report true; otherwise report false and change nothing. */
    method Redo() returns (ok: bool)
      requires Valid()
      modifies this, caretaker
      ensures Valid() && caretaker.states == old(caretaker.states)
      ensures ok == old(CanRedo())
      ensures ok ==> Synced() && CanUndo()
      ensures ok ==> caretaker.currentIndex == old(caretaker.currentIndex) + 1
      ensures !ok ==> history == old(history) && caretaker.currentIndex == old(caretaker.currentIndex)
    {
      if !CanRedo() {
        return false;
      }
      var memento := caretaker.Redo();
      history := memento.value.GetState();
      return true;
    }

    /** `can_undo`, as the caretaker answers it. */
    predicate CanUndo()
      reads this, caretaker
      ensures Valid() && CanUndo() ==> 0 <= caretaker.currentIndex - 1 < |caretaker.states|
      ensures Valid() && |caretaker.states| == 1 ==> !CanUndo()
    {
      caretaker.CanUndo()
    }

    /** `can_redo`, as the caretaker answers it. */
    predicate CanRedo()
      reads this, caretaker
      ensures Valid() && CanRedo() ==> 0 <= caretaker.currentIndex + 1 < |caretaker.states|
      ensures Valid() && |caretaker.states| == 1 ==> !CanRedo()
    {
      caretaker.CanRedo()
    }

    /** `save_to_csv`: refuses an empty history; otherwise gives the rows to
        write, one `to_dict` per record, in list order. */
    method SaveToCsv() returns (r: Result<seq<Row>, HistoryError>)
      ensures r.Failure? <==> history == []
      ensures r.Failure? ==> r.error == NoHistoryToSave
      ensures r.Success? ==> |r.value| == |history|
      ensures r.Success? ==> forall i :: 0 <= i < |history| ==> r.value[i] == ToDict(history[i])
    {
      if history == [] {
        return Failure(NoHistoryToSave);
      }
      return Success(EncodeRows(history));
    }

    /** `load_from_csv`: a missing or unreadable file changes nothing.
        Otherwise the list is emptied and refilled row by row; when every
        row converts, the caretaker is reset to one snapshot of the loaded
        list. No size bound is applied. When a row fails, the list keeps the
        rows converted before it and the caretaker is left as it was. */
    method LoadFromCsv(path: string, file: StoredFile, clock: nat -> DateTime,
                       parseFloat: string -> Option<real>) returns (r: Outcome<HistoryError>)
      requires Valid()
      modifies this, caretaker
      ensures Valid()
      ensures file.Missing? ==> r == Fail(FileNotFound(path))
      ensures file.Unreadable? ==> r == Fail(LoadFailed(TableUnreadable))
      ensures !file.Table? ==> history == old(history)
      ensures !file.Table? || r.Fail? ==>
                caretaker.states == old(caretaker.states)
                && caretaker.currentIndex == old(caretaker.currentIndex)
      ensures file.Table? && DecodeRows(file.rows, clock, parseFloat).Success? ==>
                && r == Pass
                && history == DecodeRows(file.rows, clock, parseFloat).value
                && caretaker.states == [CalculatorMemento(history)] && caretaker.currentIndex == 0
                && Synced() && !CanUndo() && !CanRedo()
      ensures file.Table? && DecodeRows(file.rows, clock, parseFloat).Failure? ==>
                && r == Fail(LoadFailed(BadRow(DecodeRows(file.rows, clock, parseFloat).error)))
                && |history| < |file.rows|
                && DecodeRows(file.rows[..|history|], clock, parseFloat) == Success(history)
                && FromDict(file.rows[|history|], clock(|history|), parseFloat).Failure?
    {
      if file.Missing? {
        return Fail(FileNotFound(path));
      }
      if file.Unreadable? {
        return Fail(LoadFailed(TableUnreadable));
      }
      var rows := file.rows;
      history := [];
      var i := 0;
      while i < |rows|
        modifies this
        invariant 0 <= i <= |rows| && |history| == i
        invariant DecodeRows(rows[..i], clock, parseFloat) == Success(history)
      {
        var converted := FromDict(rows[i], clock(i), parseFloat);
        DecodeRowsStep(rows, i, clock, parseFloat, history);
        if converted.Failure? {
          return Fail(LoadFailed(BadRow(converted.error)));
        }
        history := history + [converted.value];
        i := i + 1;
      }
      assert rows[..i] == rows;
      assert DecodeRows(rows, clock, parseFloat) == Success(history);
      Rebase();
      return Pass;
    }

    /** `__len__`. */
    method Length() returns (n: nat)
      ensures n == |history|
    {
      n := |history|;
    }
  }
}
