/** Timestamps and their text form: the extended complete calendar date and
    time of day of ISO 8601:2004 (sections 4.1.2.2, 4.2.2.2 and 4.3.2),
    `YYYY-MM-DDThh:mm:ss` with an optional decimal fraction of the second,
    as Python's `datetime.isoformat` writes it and `datetime.fromisoformat`
    reads it back. */
module IsoTime {
  import opened Wrappers

  /** The fields of a naive (zone-less) `datetime`. */
  datatype Instant = Instant(year: int, month: int, day: int,
                             hour: int, minute: int, second: int, microsecond: int)
  {
    /** The range checks `datetime` applies when one is constructed. */
    predicate Valid() {
      && 1 <= year <= 9999
      && 1 <= month <= 12
      && 1 <= day <= DaysInMonth(year, month)
      && 0 <= hour < 24
      && 0 <= minute < 60
      && 0 <= second < 60
      && 0 <= microsecond < 1000000
    }
  }

  /** A `datetime` value: only valid field combinations exist. */
  type DateTime = t: Instant | t.Valid() witness Instant(1, 1, 1, 0, 0, 0, 0)

  predicate IsLeapYear(year: int) {
    year % 4 == 0 && (year % 100 != 0 || year % 400 == 0)
  }

  function DaysInMonth(year: int, month: int): (n: int)
    ensures 28 <= n <= 31
  {
    if month == 2 then (if IsLeapYear(year) then 29 else 28)
    else if month == 4 || month == 6 || month == 9 || month == 11 then 30
    else 31
  }

  function Pow10(w: nat): (p: nat)
    ensures p >= 1
  {
    if w == 0 then 1 else 10 * Pow10(w - 1)
  }

  predicate IsDigit(c: char) {
    '0' <= c <= '9'
  }

  function DigitChar(d: nat): (c: char)
    requires d < 10
    ensures IsDigit(c) && c as int - '0' as int == d
  {
    ('0' as int + d) as char
  }

  /** `n` written in exactly `w` decimal digits, zero-padded on the left
      (`%0wd`); digits beyond the width are dropped. */
  function Pad(n: nat, w: nat): (s: string)
    ensures |s| == w
  {
    if w == 0 then [] else Pad(n / 10, w - 1) + [DigitChar(n % 10)]
  }

  /** The value of a string of decimal digits, or None if some character
      is not a digit. */
  function DigitsValue(s: string): (r: Option<nat>)
    ensures r.Some? ==> r.value < Pow10(|s|)
  {
    if s == [] then Some(0)
    else
      var c := s[|s| - 1];
      match DigitsValue(s[..|s| - 1])
      case None => None
      case Some(v) =>
        if IsDigit(c) then Some(10 * v + (c as int - '0' as int)) else None
  }

  /** Writing a number in `w` digits and reading it back gives the number,
      as long as it fits in `w` digits. */
  lemma {:induction false} DigitsValuePad(n: nat, w: nat)
    requires n < Pow10(w)
    ensures DigitsValue(Pad(n, w)) == Some(n)
  {
    if w > 0 {
      var s := Pad(n, w);
      assert s[..w - 1] == Pad(n / 10, w - 1);
      DigitsValuePad(n / 10, w - 1);
    }
  }

  /** The date as `YYYY-MM-DD`. */
  function DateText(t: DateTime): string {
    Triple(Pad(t.year, 4), '-', Pad(t.month, 2), Pad(t.day, 2))
  }

  /** The time of day as `hh:mm:ss`. */
  function TimeText(t: DateTime): string {
    Triple(Pad(t.hour, 2), ':', Pad(t.minute, 2), Pad(t.second, 2))
  }

  /** The fraction of the second: nothing when it is zero, otherwise a dot
      and six digits. */
  function FractionText(microsecond: nat): string {
    if microsecond == 0 then "" else "." + Pad(microsecond, 6)
  }

  function Triple(a: string, sep: char, b: string, c: string): string {
    a + [sep] + b + [sep] + c
  }

  /** `datetime.isoformat()`. */
  function IsoFormat(t: DateTime): (s: string)
    ensures |s| == (if t.microsecond == 0 then 19 else 26)
  {
    DateText(t) + "T" + TimeText(t) + FractionText(t.microsecond)
  }

  /** Three digit fields, `w`, 2 and 2 wide, separated by `sep`. */
  function ParseTriple(s: string, sep: char, w: nat): (r: Option<(nat, nat, nat)>)
    requires |s| == w + 6
    ensures r.Some? ==> s[w] == sep && s[w + 3] == sep
  {
    if s[w] != sep || s[w + 3] != sep then None
    else
      var a, b, c := DigitsValue(s[..w]), DigitsValue(s[w + 1..w + 3]), DigitsValue(s[w + 4..]);
      if a.None? || b.None? || c.None? then None else Some((a.value, b.value, c.value))
  }

  /** The fraction after the seconds, in microseconds: none, `.fff`
      (milliseconds) or `.ffffff`. */
  function ParseFraction(f: string): Option<nat> {
    if f == [] then Some(0)
    else if f[0] != '.' then None
    else if |f| == 4 then (var v := DigitsValue(f[1..]); if v.None? then None else Some(v.value * 1000))
    else if |f| == 7 then DigitsValue(f[1..])
    else None
  }

  /** `datetime.fromisoformat` on the complete date-time forms: 19
      characters without a fraction, 23 with milliseconds, 26 with
      microseconds. The character between date and time may be any single
      character. Malformed text and out-of-range fields give None, where
      Python raises `ValueError`. */
  function ParseIso(s: string): (r: Option<DateTime>)
    ensures r.Some? ==> |s| == 19 || |s| == 23 || |s| == 26
    ensures r.Some? ==> s[4] == '-' && s[7] == '-' && s[13] == ':' && s[16] == ':'
  {
    if !(|s| == 19 || |s| == 23 || |s| == 26) then None
    else
      var date, time, fraction := ParseTriple(s[..10], '-', 4), ParseTriple(s[11..19], ':', 2),
                                  ParseFraction(s[19..]);
      if date.None? || time.None? || fraction.None? then None
      else
        var t := Instant(date.value.0, date.value.1, date.value.2,
                         time.value.0, time.value.1, time.value.2, fraction.value);
        if t.Valid() then Some(t) else None
  }

  /** Three fields written and separated read back as the same three
      numbers. */
  lemma TripleRoundTrip(a: nat, b: nat, c: nat, sep: char, w: nat)
    requires a < Pow10(w) && b < 100 && c < 100
    ensures ParseTriple(Triple(Pad(a, w), sep, Pad(b, 2), Pad(c, 2)), sep, w) == Some((a, b, c))
  {
    DigitsValuePad(a, w);
    DigitsValuePad(b, 2);
    DigitsValuePad(c, 2);
    ParseTripleOfTriple(Pad(a, w), sep, Pad(b, 2), Pad(c, 2));
  }

  /** Parsing a triple reads each of its three fields. */
  lemma ParseTripleOfTriple(x: string, sep: char, y: string, z: string)
    requires |y| == 2 && |z| == 2
    requires DigitsValue(x).Some? && DigitsValue(y).Some? && DigitsValue(z).Some?
    ensures ParseTriple(Triple(x, sep, y, z), sep, |x|)
            == Some((DigitsValue(x).value, DigitsValue(y).value, DigitsValue(z).value))
  {
    TripleSlices(x, sep, y, z);
  }

  /** The three fields of a triple are where the separators put them. */
  lemma TripleSlices(x: string, sep: char, y: string, z: string)
    ensures var s := Triple(x, sep, y, z);
            && s[..|x|] == x
            && s[|x| + 1..|x| + 1 + |y|] == y
            && s[|x| + 2 + |y|..] == z
  {
  }

  lemma FractionRoundTrip(microsecond: nat)
    requires microsecond < 1000000
    ensures ParseFraction(FractionText(microsecond)) == Some(microsecond)
  {
    if microsecond != 0 {
      assert FractionText(microsecond)[1..] == Pad(microsecond, 6);
      DigitsValuePad(microsecond, 6);
    }
  }

  /** Parsing what `isoformat` writes gives back the same `datetime`. */
  lemma IsoRoundTrip(t: DateTime)
    ensures ParseIso(IsoFormat(t)) == Some(t)
  {
    var s := IsoFormat(t);
    assert s[..10] == DateText(t);
    assert s[11..19] == TimeText(t);
    assert s[19..] == FractionText(t.microsecond);
    TripleRoundTrip(t.year, t.month, t.day, '-', 4);
    TripleRoundTrip(t.hour, t.minute, t.second, ':', 2);
    FractionRoundTrip(t.microsecond);
  }

  /** A triple that parses is written back as the same characters. */
  lemma TripleCanonical(s: string, sep: char, w: nat)
    requires |s| == w + 6 && ParseTriple(s, sep, w).Some?
    ensures var v := ParseTriple(s, sep, w).value;
            Triple(Pad(v.0, w), sep, Pad(v.1, 2), Pad(v.2, 2)) == s
  {
    var x, y, z := s[..w], s[w + 1..w + 3], s[w + 4..];
    var v := ParseTriple(s, sep, w).value;
    assert v.0 == DigitsValue(x).value && v.1 == DigitsValue(y).value && v.2 == DigitsValue(z).value;
    PadOfDigits(x);
    PadOfDigits(y);
    PadOfDigits(z);
    SplitTriple(s, sep, w);
  }

  lemma SplitTriple(s: string, sep: char, w: nat)
    requires |s| == w + 6 && s[w] == sep && s[w + 3] == sep
    ensures Triple(s[..w], sep, s[w + 1..w + 3], s[w + 4..]) == s
  {
    var t := Triple(s[..w], sep, s[w + 1..w + 3], s[w + 4..]);
    assert |t| == |s|;
    forall k | 0 <= k < |s| ensures t[k] == s[k] {
      if k < w {
      } else if k == w {
      } else if k < w + 3 {
        assert t[k] == s[w + 1..w + 3][k - w - 1];
      } else if k == w + 3 {
      } else {
        assert t[k] == s[w + 4..][k - w - 4];
      }
    }
  }

  /** Whatever `ParseIso` accepts, `isoformat` writes back in the canonical
      form: the date and the time of day come out as they were read, with
      `T` between them. */
  lemma ParseIsoCanonical(s: string)
    requires ParseIso(s).Some?
    ensures IsoFormat(ParseIso(s).value)[..19] == s[..19][10 := 'T']
  {
    var t := ParseIso(s).value;
    var date, time := s[..10], s[11..19];
    assert ParseTriple(date, '-', 4).value == (t.year, t.month, t.day);
    assert ParseTriple(time, ':', 2).value == (t.hour, t.minute, t.second);
    TripleCanonical(date, '-', 4);
    TripleCanonical(time, ':', 2);
    IsoPrefix(t, s);
  }

  lemma IsoPrefix(t: DateTime, s: string)
    requires |s| >= 19 && DateText(t) == s[..10] && TimeText(t) == s[11..19]
    ensures IsoFormat(t)[..19] == s[..19][10 := 'T']
  {
    var f := IsoFormat(t);
    assert f[..19] == DateText(t) + "T" + TimeText(t);
    forall k | 0 <= k < 19 ensures f[..19][k] == s[..19][10 := 'T'][k] {
      if k < 10 {
        assert f[k] == s[..10][k];
      } else if k > 10 {
        assert f[k] == s[11..19][k - 11];
      }
    }
  }

  /** A string of digits that reads as a number is that number written at
      the string's width. */
  lemma {:induction false} PadOfDigits(s: string)
    requires DigitsValue(s).Some?
    ensures Pad(DigitsValue(s).value, |s|) == s
  {
    if s != [] {
      var p := s[..|s| - 1];
      PadOfDigits(p);
      var v := DigitsValue(p).value;
      var n := DigitsValue(s).value;
      assert n == 10 * v + (s[|s| - 1] as int - '0' as int);
      assert n / 10 == v && n % 10 == s[|s| - 1] as int - '0' as int;
      assert s == p + [s[|s| - 1]];
    }
  }
}
