/** One calculation record (app/calculation.py) and its dictionary form,
    which is what a row of the saved history table holds. */
module Calculations {
  import opened Wrappers
  import opened IsoTime

  /** A record of one computed result. The timestamp is the clock reading
      taken when the record is constructed. */
  datatype Calculation = Calculation(operation: string, operand1: real, operand2: real,
                                     result: real, timestamp: DateTime)

  /** A value in a row: a number, or text. */
  datatype Cell = Num(x: real) | Text(s: string)

  /** A dictionary from column names to values. */
  type Row = map<string, Cell>

  /** The columns `to_dict` writes, and thus the header of a saved table. */
  const Columns: set<string> := {"operation", "operand1", "operand2", "result", "timestamp"}

  /** Why `from_dict` gave up on a row: a missing key (`KeyError`), a value
      `float` cannot convert, an operation that is not text, or a timestamp
      `fromisoformat` rejects. */
  datatype ConversionError =
    | MissingKey(key: string)
    | NotANumber(key: string)
    | OperationNotText
    | BadTimestamp(cell: Cell)

  /** `to_dict`: the five fields, the timestamp as ISO 8601 text. */
  function ToDict(c: Calculation): (d: Row)
    ensures d.Keys == Columns
    ensures d["operation"].Text? && d["timestamp"].Text?
    ensures d["operand1"].Num? && d["operand2"].Num? && d["result"].Num?
  {
    map["operation" := Text(c.operation),
        "operand1" := Num(c.operand1),
        "operand2" := Num(c.operand2),
        "result" := Num(c.result),
        "timestamp" := Text(IsoFormat(c.timestamp))]
  }

  /** Python's `float(v)`: a number is kept, text is parsed by the float
      parser `parseFloat`. */
  function ToFloat(d: Row, key: string, parseFloat: string -> Option<real>): (r: Result<real, ConversionError>)
    ensures key !in d ==> r == Failure(MissingKey(key))
    ensures key in d && d[key].Num? ==> r == Success(d[key].x)
    ensures key in d && d[key].Text? ==>
              (r.Success? <==> parseFloat(d[key].s).Some?)
              && (r.Success? ==> r.value == parseFloat(d[key].s).value)
              && (r.Failure? ==> r.error == NotANumber(key))
    ensures r.Failure? ==> r.error == MissingKey(key) || r.error == NotANumber(key)
  {
    if key !in d then Failure(MissingKey(key))
    else match d[key]
      case Num(x) => Success(x)
      case Text(s) => if parseFloat(s).Some? then Success(parseFloat(s).value) else Failure(NotANumber(key))
  }

  /** The timestamp of a record read from `d`: the parsed `timestamp` value
      when the key is present, else the construction-time reading `now`. */
  function TimestampOf(d: Row, now: DateTime): (r: Result<DateTime, ConversionError>)
    ensures "timestamp" !in d ==> r == Success(now)
    ensures "timestamp" in d ==>
              (r.Success? <==> d["timestamp"].Text? && ParseIso(d["timestamp"].s).Some?)
    ensures "timestamp" in d && r.Success? ==> r.value == ParseIso(d["timestamp"].s).value
  {
    if "timestamp" !in d then Success(now)
    else match d["timestamp"]
      case Text(s) => if ParseIso(s).Some? then Success(ParseIso(s).value) else Failure(BadTimestamp(d["timestamp"]))
      case Num(_) => Failure(BadTimestamp(d["timestamp"]))
  }

  /** `from_dict`: reads `operation`, converts the three numbers with
      `float` (in that order, so the first failing key is reported), builds
      the record at clock reading `now`, and then takes the timestamp from
      the dictionary if it has one. */
  function FromDict(d: Row, now: DateTime, parseFloat: string -> Option<real>): (r: Result<Calculation, ConversionError>)
    ensures "operation" !in d ==> r == Failure(MissingKey("operation"))
    ensures r.Success? <==>
              && "operation" in d && d["operation"].Text?
              && ToFloat(d, "operand1", parseFloat).Success?
              && ToFloat(d, "operand2", parseFloat).Success?
              && ToFloat(d, "result", parseFloat).Success?
              && TimestampOf(d, now).Success?
    ensures r.Success? ==>
              && r.value.operation == d["operation"].s
              && ToFloat(d, "operand1", parseFloat) == Success(r.value.operand1)
              && ToFloat(d, "operand2", parseFloat) == Success(r.value.operand2)
              && ToFloat(d, "result", parseFloat) == Success(r.value.result)
              && TimestampOf(d, now) == Success(r.value.timestamp)
  {
    if "operation" !in d then Failure(MissingKey("operation"))
    else
      var a := ToFloat(d, "operand1", parseFloat);
      var b := ToFloat(d, "operand2", parseFloat);
      var res := ToFloat(d, "result", parseFloat);
      var ts := TimestampOf(d, now);
      if !d["operation"].Text? then Failure(OperationNotText)
      else if a.Failure? then Failure(a.error)
      else if b.Failure? then Failure(b.error)
      else if res.Failure? then Failure(res.error)
      else if ts.Failure? then Failure(ts.error)
      else Success(Calculation(d["operation"].s, a.value, b.value, res.value, ts.value))
  }

  /** A row without a `timestamp` key gives a record stamped with the
      construction-time clock reading. */
  lemma FromDictWithoutTimestamp(op: string, a: real, b: real, res: real, now: DateTime,
                                 parseFloat: string -> Option<real>)
    ensures FromDict(map["operation" := Text(op), "operand1" := Num(a), "operand2" := Num(b),
                         "result" := Num(res)], now, parseFloat)
            == Success(Calculation(op, a, b, res, now))
  {
  }

  /** `from_dict(to_dict(c))` is `c` again, field by field, whatever the
      clock says and however text would be parsed. */
  lemma DictRoundTrip(c: Calculation, now: DateTime, parseFloat: string -> Option<real>)
    ensures FromDict(ToDict(c), now, parseFloat) == Success(c)
  {
    IsoRoundTrip(c.timestamp);
  }
}
