/** The `Y_MM_DD-HH_MM_SS` timestamp of `getCurrentDateTime`, computed from a
    date record in place of reading the wall clock. */
module DateTime {
  import opened Wrappers
  import opened Text

  /** What `getFullYear`, `getMonth` (zero-based), `getDate`, `getHours`,
      `getMinutes` and `getSeconds` return for the current local time. */
  datatype DateRecord = DateRecord(year: int, month: int, day: int, hours: int, minutes: int, seconds: int)

  /** The ranges the getters keep to. */
  predicate ValidDate(d: DateRecord) {
    && 0 <= d.month <= 11
    && 1 <= d.day <= 31
    && 0 <= d.hours <= 23
    && 0 <= d.minutes <= 59
    && 0 <= d.seconds <= 59
  }

  /** `String(n).padStart(2, '0')`. */
  function TwoDigits(n: int): string {
    PadStart(IntToString(n), 2, '0')
  }

  lemma TwoDigitsOfSmall(n: int)
    requires 0 <= n < 100
    ensures var s := TwoDigits(n); |s| == 2 && s[0] == DigitChar(n / 10) && s[1] == DigitChar(n % 10)
  {
    if n < 10 {
      assert IntToString(n) == [DigitChar(n)];
      assert PadStart([DigitChar(n)], 2, '0') == PadStart(['0', DigitChar(n)], 2, '0');
    } else {
      assert NatToString(n / 10) == [DigitChar(n / 10)];
      assert IntToString(n) == [DigitChar(n / 10), DigitChar(n % 10)];
    }
  }

  /** A separator followed by a two-digit field. */
  function Field(sep: char, n: int): string {
    [sep] + TwoDigits(n)
  }

  lemma FieldLayout(sep: char, n: int)
    requires 0 <= n < 100
    ensures var f := Field(sep, n); |f| == 3 && f[0] == sep && f[1..] == TwoDigits(n)
  {
    TwoDigitsOfSmall(n);
  }

  /** Everything after the year: `_MM_DD-HH_MM_SS`, the month made one-based. */
  function TimeSuffix(d: DateRecord): string {
    Field('_', d.month + 1) + Field('_', d.day) + Field('-', d.hours) + Field('_', d.minutes) + Field('_', d.seconds)
  }

  /** `getCurrentDateTime()` for the given date. */
  function FormatDateTime(d: DateRecord): string {
    IntToString(d.year) + TimeSuffix(d)
  }

  lemma FiveFields(f1: string, f2: string, f3: string, f4: string, f5: string)
    requires |f1| == 3 && |f2| == 3 && |f3| == 3 && |f4| == 3 && |f5| == 3
    ensures var r := f1 + f2 + f3 + f4 + f5;
      && |r| == 15
      && r[0] == f1[0] && r[1..3] == f1[1..]
      && r[3] == f2[0] && r[4..6] == f2[1..]
      && r[6] == f3[0] && r[7..9] == f3[1..]
      && r[9] == f4[0] && r[10..12] == f4[1..]
      && r[12] == f5[0] && r[13..15] == f5[1..]
  {
  }

  /** Where each field of the timestamp sits in the suffix `r`. */
  predicate LaidOut(r: string, d: DateRecord) {
      && |r| == 15
      && r[0] == '_' && r[1..3] == TwoDigits(d.month + 1)
      && r[3] == '_' && r[4..6] == TwoDigits(d.day)
      && r[6] == '-' && r[7..9] == TwoDigits(d.hours)
      && r[9] == '_' && r[10..12] == TwoDigits(d.minutes)
      && r[12] == '_' && r[13..15] == TwoDigits(d.seconds)
  }

  lemma TimeSuffixLayout(d: DateRecord)
    requires ValidDate(d)
    ensures LaidOut(TimeSuffix(d), d)
  {
    FieldLayout('_', d.month + 1);
    FieldLayout('_', d.day);
    FieldLayout('-', d.hours);
    FieldLayout('_', d.minutes);
    FieldLayout('_', d.seconds);
    FiveFields(Field('_', d.month + 1), Field('_', d.day), Field('-', d.hours), Field('_', d.minutes), Field('_', d.seconds));
  }

  /** Reads two digits at `r[i]` and `r[i + 1]`. */
  function TwoDigitsAt(r: string, i: nat): Option<int>
    requires i + 2 <= |r|
  {
    if IsDigit(r[i]) && IsDigit(r[i + 1])
    then Some((r[i] as int - '0' as int) * 10 + (r[i + 1] as int - '0' as int))
    else None
  }

  /** Reads the year text and the 15-character suffix of a timestamp. */
  function ParseFields(yearText: string, r: string): Option<DateRecord>
    requires |r| == 15
  {
    if r[0] != '_' || r[3] != '_' || r[6] != '-' || r[9] != '_' || r[12] != '_' then None
    else
      match (ParseInt(yearText), TwoDigitsAt(r, 1), TwoDigitsAt(r, 4), TwoDigitsAt(r, 7), TwoDigitsAt(r, 10), TwoDigitsAt(r, 13))
      case (Some(year), Some(month), Some(day), Some(hours), Some(minutes), Some(seconds)) =>
        Some(DateRecord(year, month - 1, day, hours, minutes, seconds))
      case _ => None
  }

  /** Reads a timestamp back; the inverse of FormatDateTime on valid dates. */
  function ParseDateTime(s: string): Option<DateRecord> {
    if |s| < 16 then None else ParseFields(s[..|s| - 15], s[|s| - 15..])
  }

  lemma TwoDigitsAtField(r: string, i: nat, n: int)
    requires 0 <= n < 100 && i + 2 <= |r| && r[i..i + 2] == TwoDigits(n)
    ensures TwoDigitsAt(r, i) == Some(n)
  {
    TwoDigitsOfSmall(n);
    var hi, lo := n / 10, n % 10;
    assert r[i] == TwoDigits(n)[0] == DigitChar(hi);
    assert r[i + 1] == TwoDigits(n)[1] == DigitChar(lo);
    assert n == hi * 10 + lo;
  }

  lemma ParseLaidOutFields(yearText: string, r: string, d: DateRecord)
    requires ValidDate(d) && ParseInt(yearText) == Some(d.year)
    requires LaidOut(r, d)
    ensures ParseFields(yearText, r) == Some(d)
  {
    TwoDigitsAtField(r, 1, d.month + 1);
    TwoDigitsAtField(r, 4, d.day);
    TwoDigitsAtField(r, 7, d.hours);
    TwoDigitsAtField(r, 10, d.minutes);
    TwoDigitsAtField(r, 13, d.seconds);
  }

  lemma FormatParseRoundTrip(d: DateRecord)
    requires ValidDate(d)
    ensures ParseDateTime(FormatDateTime(d)) == Some(d)
  {
    var y := IntToString(d.year);
    var r := TimeSuffix(d);
    var s := y + r;
    TimeSuffixLayout(d);
    assert s[..|s| - 15] == y && s[|s| - 15..] == r;
    IntToStringRoundTrip(d.year);
    ParseLaidOutFields(y, r, d);
  }

  /** The timestamp is the year, then the laid-out suffix. */
  lemma FormatDateTimeLayout(d: DateRecord)
    requires ValidDate(d)
    ensures var s, n := FormatDateTime(d), |IntToString(d.year)|;
      |s| == n + 15 && s[..n] == IntToString(d.year) && LaidOut(s[n..], d)
  {
    var y := IntToString(d.year);
    var s := FormatDateTime(d);
    TimeSuffixLayout(d);
    assert s[..|y|] == y && s[|y|..] == TimeSuffix(d);
  }

  /** Distinct valid dates never share a timestamp. */
  lemma FormatInjective(d1: DateRecord, d2: DateRecord)
    requires ValidDate(d1) && ValidDate(d2)
    ensures FormatDateTime(d1) == FormatDateTime(d2) <==> d1 == d2
  {
    FormatParseRoundTrip(d1);
    FormatParseRoundTrip(d2);
  }
}
