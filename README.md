# Calculator history engine, modelled in Dafny

This project models the core of a command-line calculator. That core keeps a
bounded, ordered log of calculation records. It has undo and redo over
snapshots of that log, and it converts records to and from dictionaries so the
log can be saved as a table and loaded back. A small side part is the
operation registry: case-insensitive lookup of the ten operation names, plus the
error checks and results of the simple operations.

Modules, one per source file (plus two helpers):

- `Wrappers` — `Option`, `Result` and `Outcome`. These stand for Python's `None` and raised exceptions.
- `IsoTime` — the `datetime` value (only valid calendar fields exist) and its text form. This is the extended complete date-time of ISO 8601:2004, section 4.3.2. `IsoFormat` is `isoformat()` and `ParseIso` is `fromisoformat()` on the complete forms. Their round trip is proved, not assumed.
- `Calculations` (app/calculation.py) — the record, its `to_dict` and its `from_dict`. A row is a `map` from column names to cells; a cell is a number or text.
- `Memento` (app/calculator_memento.py) — the snapshot value, and the caretaker class. The caretaker is one list of snapshots plus an integer cursor.
- `History` (app/history.py) — the `CalculationHistory` class, plus pure specifications. `Appended` is the bounded append, `LastN` keeps the last records, and `EncodeRows`/`DecodeRows` convert the table.
- `Operations` (app/operations.py) — the registry and the operations.
- `Sessions` — client methods. Some prove the undo/redo laws for every synced state. Others replay the repository's test scenarios: bounded adds, save/clear/load, and caretaker steps.

Parameters stand in for what the core cannot see:

- The clock is passed in: `now` for one record, and `clock(i)` for the record built from row `i` of a load.
- The file is a `StoredFile`: `Missing`, `Unreadable`, or a `Table` of rows. `Missing` stands for `Path.exists` being false; `Unreadable` stands for `pandas.read_csv` raising.
- Saving returns the rows that would be written.
- Python's `float()` applied to text is the parameter `parseFloat`.

The snapshot invariant is `CalculationHistory.Synced()`: the caretaker's
current snapshot equals the live list. The constructor, `add`, `clear`, a
successful `undo`/`redo` and a successful load establish it. An `undo` or
`redo` that returns false, and a load from a missing or unreadable file,
change nothing and so preserve it. A load that fails on a row does not. Such a load leaves the list
holding the rows converted so far, and the caretaker untouched.

Behaviour of the code that the model keeps:

- The caretaker is one list of snapshots plus a cursor.
- The constructor saves a snapshot of the empty list. So a single add already makes `can_undo` true, and undoing it returns to the empty list.
- An unparsable or missing-valued timestamp makes the load fail.
- A load that fails on a row has already replaced part of the list.
- A load applies no size bound.

## Model

| member | source | states |
|---|---|---|
| IsoTime.Instant.Valid | app/calculation.py:24 | the ranges a `datetime` enforces: year 1-9999, month 1-12, a day within the month (leap years by the Gregorian rule), hour, minute, second and microsecond in range |
| IsoTime.IsoFormat | app/calculation.py:43 | `isoformat` writes 19 characters, or 26 when the microsecond is not zero |
| IsoTime.ParseIso | app/calculation.py:55-56 | `fromisoformat` accepts only 19, 23 or 26 characters, with `-` and `:` in their places, and only valid calendar fields |
| IsoTime.IsoRoundTrip | app/calculation.py:36-57 | parsing the text `isoformat` writes gives back the same timestamp, for every valid timestamp |
| IsoTime.ParseIsoCanonical | app/calculation.py:55-56 | whatever is accepted is written back with the same date and time of day, and `T` as the separator |
| IsoTime.DigitsValuePad | app/calculation.py:43 | a zero-padded field reads back as its number whenever it fits the width |
| Calculations.ToDict | app/calculation.py:36-44 | the keys are exactly operation, operand1, operand2, result and timestamp; the timestamp is text and the three numbers are numbers |
| Calculations.ToFloat | app/calculation.py:51-53 | a missing key is a `KeyError`; a number is kept as it is; text succeeds exactly when the float parser accepts it, giving the parsed value, and otherwise is refused as not a number for that key |
| Calculations.TimestampOf | app/calculation.py:55-56 | with a `timestamp` key, the record takes the parsed value and fails if it does not parse; without one, it keeps the construction-time clock reading |
| Calculations.FromDict | app/calculation.py:46-57 | succeeds exactly when operation is present and text, the three numbers convert and the timestamp is acceptable; on success the fields are those values |
| Calculations.FromDictWithoutTimestamp | app/calculation.py:49-57 | a dictionary without timestamp gives the record stamped with `now` |
| Calculations.DictRoundTrip | app/calculation.py:36-57 | `from_dict(to_dict(c))` equals `c` field by field, for any clock and any text parser |
| Memento.CalculatorMemento.GetState | app/calculator_memento.py:19-21 | returns the list the snapshot was built from, element by element |
| Memento.MementoIsolated | app/calculator_memento.py:17-21 | `get_state` returns the list the snapshot was built from; the list is a value, so a caller growing it cannot change the snapshot |
| Memento.HistoryCaretaker.constructor | app/calculator_memento.py:27-30 | no snapshots, cursor -1, nothing to undo or redo |
| Memento.HistoryCaretaker.SaveState | app/calculator_memento.py:32-44 | keeps the snapshots up to the cursor and appends the new one; the cursor lands on the new one, so nothing is redoable; the invariant `-1 <= cursor < len` (with -1 exactly when empty) is kept |
| Memento.HistoryCaretaker.Undo | app/calculator_memento.py:46-57 | returns a snapshot exactly when `cursor > 0`; it then decrements the cursor and returns the snapshot there; the list is unchanged and the state it left is now redoable |
| Memento.HistoryCaretaker.Redo | app/calculator_memento.py:59-70 | returns a snapshot exactly when `cursor < len-1`; it then increments the cursor and returns the snapshot there; the list is unchanged |
| Memento.HistoryCaretaker.CanUndo | app/calculator_memento.py:72-74 | when it holds there is a snapshot before the cursor to step back to; with at most one snapshot it never holds |
| Memento.HistoryCaretaker.CanRedo | app/calculator_memento.py:76-78 | when it holds there is a snapshot after the cursor to step forward to; with at most one snapshot it never holds |
| Memento.HistoryCaretaker.Clear | app/calculator_memento.py:80-83 | no snapshots, cursor -1, nothing to undo or redo |
| History.Appended | app/history.py:35-39 | the list after one add: the record appended, then the first entry dropped if the list is longer than `max_size` (no contract of its own; `AppendedProperties` states its properties) |
| History.AppendedProperties | app/history.py:35-39 | the new record is last; the oldest entry is dropped exactly when the grown list exceeds `max_size`, and otherwise nothing is; a list within the bound stays within it; a list already over the bound keeps its length |
| History.AppendedAllKeepsLast | app/history.py:35-39 | from within the bound, any run of adds leaves exactly the last `max_size` records, in order |
| History.EncodeRows | app/history.py:116 | one row per record, in list order, each the record's `to_dict` |
| History.DecodeRows | app/history.py:142-145 | the records built row by row, or the first failing row's error; a success has one record per row |
| History.DecodeRowsSuccess | app/history.py:142-145 | a successful load has one record per row, each the `from_dict` of its row |
| History.DecodeRowsFailure | app/history.py:142-145 | the rows fail to load exactly when some row fails `from_dict` |
| History.DecodeRowsAll | app/history.py:142-145 | conversely, rows that each convert with `from_dict` load as exactly those records, in order |
| History.RowsRoundTrip | app/history.py:111-152 | loading the rows that saving produced gives back the same records, in order |
| History.CalculationHistory.constructor | app/history.py:14-26 | `max_size` defaults to 100; empty list; the caretaker holds one snapshot, of the empty list; nothing to undo or redo; in sync |
| History.CalculationHistory.AddCalculation | app/history.py:28-42 | the list becomes the bounded append of the old list; it is checkpointed, which drops the redoable snapshots; afterwards undo is possible and redo is not |
| History.CalculationHistory.GetHistory | app/history.py:44-46 | returns the list as a value |
| History.CalculationHistory.ClearHistory | app/history.py:48-53 | empty list; exactly one snapshot, of the empty list; nothing to undo or redo |
| History.CalculationHistory.GetLastCalculation | app/history.py:55-57 | None exactly when the list is empty, otherwise its last record |
| History.CalculationHistory.Undo | app/history.py:59-74 | true exactly when the caretaker can undo; it then moves the cursor back and makes that snapshot the live list; on false nothing changes |
| History.CalculationHistory.Redo | app/history.py:76-91 | true exactly when the caretaker can redo; it then moves the cursor forward and makes that snapshot the live list; on false nothing changes |
| History.CalculationHistory.CanUndo | app/history.py:93-95 | asks the caretaker; when it holds there is an earlier snapshot; with a single snapshot (fresh, cleared or just loaded) it never holds |
| History.CalculationHistory.CanRedo | app/history.py:97-99 | asks the caretaker; when it holds there is a later snapshot; with a single snapshot it never holds |
| History.CalculationHistory.SaveToCsv | app/history.py:101-122 | fails with "No history to save" exactly when the list is empty; otherwise one `to_dict` row per entry, in order |
| History.CalculationHistory.LoadFromCsv | app/history.py:124-152 | missing file: "History file not found", nothing changes; success: the list is the decoded rows with no size bound, one fresh snapshot, nothing to undo or redo; failing row: the list holds the rows before it and the caretaker is unchanged |
| History.CalculationHistory.Length | app/history.py:154-156 | the number of records |
| Sessions.AddThenUndo | app/history.py:28-74 | from a synced state, add then undo restores the list from before the add; that add is then redoable |
| Sessions.UndoThenRedo | app/history.py:59-91 | from a synced state, undo then redo restores the list and the cursor from before the undo |
| Sessions.UndoThenAddForgetsRedo | app/history.py:28-42 | an add after an undo leaves nothing to redo |
| Operations.Lower | app/operations.py:170 | the name lowercased character by character |
| History.HistoryError.Message | app/history.py:111-152 | the message of each failure: "No history to save", "History file not found: " and the path, "Failed to load history: " (no contract of its own) |
| Operations.NameOf | app/operations.py:143-154 | the registry key of each operation class (no contract of its own; `AvailableOperations` and `RegistryComplete` state its properties) |
| Operations.Lookup | app/operations.py:170 | finds an operation exactly when some entry has the key, and what it finds carries that key |
| Operations.GetAvailableOperations | app/operations.py:175-178 | the ten keys in declaration order |
| Operations.AvailableOperations | app/operations.py:143-154 | every operation's key is listed, and no key is listed twice |
| Operations.CreateOperation | app/operations.py:156-173 | succeeds exactly when the lowercased name is a registry key, giving the operation with that key; otherwise fails with "Unknown operation: " and the name as given |
| Operations.RegistryComplete | app/operations.py:143-173 | each operation is created from its own key, and a name creates it exactly when the name lowercases to that key |
| Operations.CaseInsensitive | app/operations.py:170 | names equal after lowercasing both succeed or both fail, and on success give the same operation |
| Operations.AddAnyCase | app/operations.py:170 | 'ADD', 'Add' and 'add' all create the addition |
| Operations.UnknownOperation | app/operations.py:171-172 | 'invalid' fails with "Unknown operation: invalid" |
| Operations.AddOp | app/operations.py:25-26 | `a + b`, with no guard (no contract of its own: the source promises only the sum) |
| Operations.SubtractOp | app/operations.py:35-36 | `a - b`, with no guard (no contract of its own) |
| Operations.MultiplyOp | app/operations.py:45-46 | `a * b`, with no guard (no contract of its own) |
| Operations.DivideOp | app/operations.py:55-58 | fails with "Cannot divide by zero" exactly when `b == 0`; otherwise the quotient times `b` is `a` |
| Operations.FloorDiv | app/operations.py:112 | `//` gives a whole number `q` with `q <= a/b < q+1` |
| Operations.PyMod | app/operations.py:100 | `%` gives `r` with `(a//b)*b + r == a`; `r` lies in `[0, b)` for positive `b` and in `(b, 0]` for negative `b` |
| Operations.ModulusOp | app/operations.py:97-100 | fails with "Cannot perform modulus with zero" exactly when `b == 0`; otherwise gives Python's remainder |
| Operations.IntDivideOp | app/operations.py:109-112 | fails with "Cannot divide by zero" exactly when `b == 0`; otherwise gives `a // b`, the whole number `FloorDiv` pins down |
| Operations.DivModAgree | app/operations.py:97-112 | `//` and `%` together split `a` into a whole multiple of `b` and a remainder with the sign of `b` |
| Operations.PercentOp | app/operations.py:121-124 | fails exactly when `b == 0`; otherwise the result times `b` is `100*a` |
| Operations.AbsDiffOp | app/operations.py:133-134 | never negative, and equal to `a-b` or `b-a` |
| Operations.AbsDiffSymmetric | app/operations.py:133-134 | symmetric in `a` and `b` |
| Operations.ModTwoIsEven | app/operations.py:83 | `b % 2 == 0` holds exactly for the even whole numbers |
| Operations.RootGuard | app/operations.py:80-84 | raises exactly when `b == 0` ("Cannot calculate 0th root"), or when `a < 0` and `b` is an even whole number ("Cannot calculate even root of negative number") |

The methods in `Sessions` with no contract replay the repository's tests as
assertions: `FreshHistory`, `BoundedAdds`, `ClearAfterAdds`,
`SaveClearLoad` and `CaretakerSteps` (tests/test_history.py and
tests/test_calculator_memento.py).

## Left out

- main.py (the interactive loop, console and colour output) is not part of this model.
- app/calculator.py is not part of this model: observers, auto-save, logging, rounding to the configured precision. It records a calculation only after the operation succeeded, so a failed operation never reaches the history.
- app/logger.py, app/calculator_config.py and app/input_validators.py are not part of this model. They cover logging, environment settings and parsing user input.
- app/exceptions.py is modelled only as error datatypes: `OperationError`, `HistoryError` with `LoadFailure`, and `ConversionError`.
- The power operation is not modelled, nor the value of the root operation (`a ** (1 / b)`). Both are floating-point library calls; only the root's two checks are modelled.
- `get_symbol`, `__str__` and `__repr__` are not modelled. They are display text that depends on float formatting.
- Operands and results are exact reals. Rounding, overflow, infinities and NaN of 64-bit floats are not modelled.
- Writing and reading the CSV file, and `Path.exists`, are not modelled; they are foreign I/O. The file is a `StoredFile` value, and saving returns its rows.
- History.CalculationHistory.SaveToCsv: returns the rows instead of writing them, so the "Failed to save history" error of a failing write is not modelled. The file path is not taken.
- History.HistoryError.Message: for a load failure, only the fixed start of the message is modelled, not the text of the underlying exception.
- Calculations.FromDict: a non-text `operation` value is refused (`OperationNotText`). Python would store the value as it is.
- Calculations.ToFloat: text is converted by the `parseFloat` parameter, which stands for Python's float parser.
- IsoTime.ParseIso: accepts the complete forms only. These are 19 characters, or 23 or 26 with a fraction, with any character between date and time. It refuses the reduced forms (a date alone, or a time with only hours or hours and minutes) and UTC offsets, which `fromisoformat` has accepted since it was added; such a timestamp makes the load fail here where Python would load it.
- Operations.Lower: folds only the ASCII letters. Python's `str.lower` also folds other letters.
- Records are values. Python compares them by identity and shares them between snapshots, but never changes one after `from_dict`, so sharing cannot be observed.
- `undo` and `redo` in app/history.py check a second time whether the caretaker returned None. That check cannot fire after `can_undo`/`can_redo` held, so it is not modelled.
