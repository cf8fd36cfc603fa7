/** Text handling around the timings: JavaScript's `String.split`, reading an
    "HH:MM" value as the server does with `split(":").map(Number)`, and the
    decimal rendering a template literal gives a non-negative integer. */
module ClockText {
  import opened Wrappers
  import opened Prayer

  predicate IsDigit(c: char)
  {
    '0' <= c <= '9'
  }

  predicate AllDigits(s: string)
  {
    forall i :: 0 <= i < |s| ==> IsDigit(s[i])
  }

  /** A non-empty run of decimal digits. */
  predicate IsNumeral(s: string)
  {
    |s| > 0 && AllDigits(s)
  }

  function DigitValue(c: char): nat
    requires IsDigit(c)
  {
    (c as int) - ('0' as int)
  }

  function DigitChar(d: nat): (c: char)
    requires d < 10
    ensures IsDigit(c) && DigitValue(c) == d
  {
    (('0' as int) + d) as char
  }

  /** The number a run of decimal digits denotes. */
  function DigitsValue(s: string): nat
    requires AllDigits(s)
    decreases |s|
  {
    if |s| == 0 then 0 else 10 * DigitsValue(s[..|s| - 1]) + DigitValue(s[|s| - 1])
  }

  /** The decimal text of `n`, as `${n}` produces it: digits only, no leading
      zero, and it reads back as `n`. */
  function Decimal(n: nat): (s: string)
    ensures IsNumeral(s) && DigitsValue(s) == n
    ensures |s| > 1 ==> s[0] != '0'
    decreases n
  {
    if n < 10 then [DigitChar(n)]
    else
      var front := Decimal(n / 10);
      var s := front + [DigitChar(n % 10)];
      assert s[..|s| - 1] == front;
      s
  }

  /** `s.split(sep)`: the maximal separator-free fields, in order. */
  function Split(s: string, sep: char): (fields: seq<string>)
    ensures |fields| >= 1
    decreases |s|
  {
    if |s| == 0 then [""]
    else
      var rest := Split(s[1..], sep);
      if s[0] == sep then [""] + rest
      else [[s[0]] + rest[0]] + rest[1..]
  }

  /** `fields.join(sep)`. */
  function Join(fields: seq<string>, sep: char): string
    requires |fields| >= 1
    decreases |fields|
  {
    if |fields| == 1 then fields[0] else fields[0] + [sep] + Join(fields[1..], sep)
  }

  /** Splitting loses nothing: the fields are separator-free and joining them
      with the separator gives the text back. */
  lemma {:induction false} SplitJoin(s: string, sep: char)
    ensures forall i :: 0 <= i < |Split(s, sep)| ==> sep !in Split(s, sep)[i]
    ensures Join(Split(s, sep), sep) == s
    decreases |s|
  {
    if |s| > 0 {
      var rest := Split(s[1..], sep);
      SplitJoin(s[1..], sep);
      var fields := Split(s, sep);
      if s[0] == sep {
        assert fields[1..] == rest;
      } else {
        assert fields[1..] == rest[1..];
        if |rest| > 1 {
          assert [s[0]] + rest[0] + [sep] + Join(rest[1..], sep) == [s[0]] + (rest[0] + [sep] + Join(rest[1..], sep));
        }
      }
      assert s == [s[0]] + s[1..];
    }
  }

  /** A text without the separator is a single field. */
  lemma {:induction false} SplitWhole(s: string, sep: char)
    requires sep !in s
    ensures Split(s, sep) == [s]
    decreases |s|
  {
    if |s| > 0 {
      SplitWhole(s[1..], sep);
      assert [s[0]] + s[1..] == s;
    }
  }

  /** A leading separator-free field splits off unchanged. */
  lemma {:induction false} SplitField(a: string, b: string, sep: char)
    requires sep !in a
    ensures Split(a + [sep] + b, sep) == [a] + Split(b, sep)
    decreases |a|
  {
    var s := a + [sep] + b;
    if |a| == 0 {
      assert s[1..] == b;
    } else {
      assert s[1..] == a[1..] + [sep] + b;
      SplitField(a[1..], b, sep);
      assert [a[0]] + a[1..] == a;
    }
  }

  /** Reads an upstream "HH:MM" value: the first two colon-separated fields
      are the hour and the minute, any further field is ignored, and a value
      that is not a valid time of day is rejected. */
  function ParseTime(text: string): (r: Option<TimeOfDay>)
    ensures r.Some? ==> ValidTime(r.value)
  {
    var fields := Split(text, ':');
    if |fields| < 2 || !IsNumeral(fields[0]) || !IsNumeral(fields[1]) then None
    else
      var t := TimeOfDay(DigitsValue(fields[0]), DigitsValue(fields[1]));
      if ValidTime(t) then Some(t) else None
  }

  /** Two-digit zero-padded decimal, the upstream provider's field format. */
  function Pad2(n: nat): (s: string)
    requires n < 100
    ensures |s| == 2 && IsNumeral(s) && DigitsValue(s) == n && ':' !in s
  {
    var s := [DigitChar(n / 10), DigitChar(n % 10)];
    assert s[..1] == [DigitChar(n / 10)] && s[..1][..0] == [];
    assert DigitsValue(s[..1]) == n / 10;
    s
  }

  /** The "HH:MM" text of a time of day. */
  function FormatTime(t: TimeOfDay): string
    requires ValidTime(t)
  {
    Pad2(t.hour) + ":" + Pad2(t.minute)
  }

  /** Reading back a formatted time gives the time. */
  lemma ParseFormat(t: TimeOfDay)
    requires ValidTime(t)
    ensures ParseTime(FormatTime(t)) == Some(t)
  {
    SplitField(Pad2(t.hour), Pad2(t.minute), ':');
    SplitWhole(Pad2(t.minute), ':');
  }

  /** A trailing ":SS" (or any further field) does not change the reading. */
  lemma ParseIgnoresExtraFields(t: TimeOfDay, rest: string)
    requires ValidTime(t)
    ensures ParseTime(FormatTime(t) + ":" + rest) == Some(t)
  {
    var hh, mm := Pad2(t.hour), Pad2(t.minute);
    assert FormatTime(t) + ":" + rest == hh + [':'] + (mm + [':'] + rest);
    SplitField(hh, mm + [':'] + rest, ':');
    SplitField(mm, rest, ':');
  }
}
