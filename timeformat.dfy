/**
 * The mini-program's `formatTime`: the `YYYY-MM-DD HH:MM` time stamp used in the
 * download history.
 */
module TimeFormat {
  import opened Text

  /** The fields of a JavaScript Date that `formatTime` reads; `month` counts from 0. */
  datatype Date = Date(year: int, month: int, day: int, hours: int, minutes: int)

  predicate InRange(d: Date) {
    0 <= d.month <= 11 && 1 <= d.day <= 31 && 0 <= d.hours <= 23 && 0 <= d.minutes <= 59
  }

  function Pad2(n: int): string {
    PadStart2(IntToDecimal(n))
  }

  /** The template `${year}-${month}-${day} ${hour}:${minute}`. */
  function Stamp(y: string, mo: string, da: string, ho: string, mi: string): string {
    y + "-" + mo + "-" + da + " " + ho + ":" + mi
  }

  /** `formatTime(date)`: year unpadded, the other fields padded to two digits. */
  function FormatTime(d: Date): (s: string)
    ensures IsPrefix(IntToDecimal(d.year) + "-", s)
  {
    Stamp(IntToDecimal(d.year), Pad2(d.month + 1), Pad2(d.day), Pad2(d.hours), Pad2(d.minutes))
  }

  /** The two characters of s at k are decimal digits that read back as v. */
  predicate FieldReads(s: string, k: nat, v: int) {
    k + 2 <= |s| && IsDigit(s[k]) && IsDigit(s[k + 1])
    && (s[k] as int - '0' as int) * 10 + (s[k + 1] as int - '0' as int) == v
  }

  /** A number below 100, padded, is two digits that read back as the number. */
  lemma PaddedField(n: int)
    requires 0 <= n < 100
    ensures |Pad2(n)| == 2 && FieldReads(Pad2(n), 0, n)
  {
    TwoDigits(n);
    var p := Pad2(n);
    assert p == PadStart2(NatToDecimal(n));
    assert p[..1][..0] == [];
    assert DecimalValue(p[..1]) == p[0] as int - '0' as int;
    assert p[..|p| - 1] == p[..1];
  }

  /** Where the parts of `y-mo-da ho:mi` sit, for two-character fields. */
  lemma StampFields(y: string, mo: string, da: string, ho: string, mi: string)
    requires |mo| == 2 && |da| == 2 && |ho| == 2 && |mi| == 2
    ensures var s := Stamp(y, mo, da, ho, mi);
      |s| == |y| + 12 && s[..|y|] == y
      && s[|y|] == '-' && s[|y| + 3] == '-' && s[|y| + 6] == ' ' && s[|y| + 9] == ':'
      && s[|y| + 1..|y| + 3] == mo && s[|y| + 4..|y| + 6] == da
      && s[|y| + 7..|y| + 9] == ho && s[|y| + 10..|y| + 12] == mi
  {
  }

  lemma FieldAt(s: string, k: nat, f: string, v: int)
    requires k + 2 <= |s| && s[k..k + 2] == f && FieldReads(f, 0, v)
    ensures FieldReads(s, k, v)
  {
    assert s[k] == f[0] && s[k + 1] == f[1];
  }

  /** The layout of `y-mo-da ho:mi` for four two-digit fields, whatever they hold. */
  lemma StampLayout(y: string, mo: string, da: string, ho: string, mi: string, m: int, dd: int, h: int, mn: int)
    requires |mo| == 2 && FieldReads(mo, 0, m)
    requires |da| == 2 && FieldReads(da, 0, dd)
    requires |ho| == 2 && FieldReads(ho, 0, h)
    requires |mi| == 2 && FieldReads(mi, 0, mn)
    ensures var s := Stamp(y, mo, da, ho, mi); var k := |y|;
      |s| == k + 12 && s[..k] == y
      && s[k] == '-' && s[k + 3] == '-' && s[k + 6] == ' ' && s[k + 9] == ':'
      && FieldReads(s, k + 1, m) && FieldReads(s, k + 4, dd)
      && FieldReads(s, k + 7, h) && FieldReads(s, k + 10, mn)
  {
    var s := Stamp(y, mo, da, ho, mi);
    var k := |y|;
    StampFields(y, mo, da, ho, mi);
    FieldAt(s, k + 1, mo, m);
    FieldAt(s, k + 4, da, dd);
    FieldAt(s, k + 7, ho, h);
    FieldAt(s, k + 10, mi, mn);
  }

  // ----- what the stamp looks like and how its fields read back, for dates in range -----

  /**
   * For an in-range date the stamp has the fixed layout `Y-MM-DD HH:MM`: twelve
   * characters after the year and the separators in place.
   */
  lemma FormatTimeLayout(d: Date)
    requires InRange(d)
    ensures var s := FormatTime(d); var y := |IntToDecimal(d.year)|;
      |s| == y + 12
      && s[..y] == IntToDecimal(d.year)
      && s[y] == '-' && s[y + 3] == '-' && s[y + 6] == ' ' && s[y + 9] == ':'
  {
    var y, mo, da, ho, mi := IntToDecimal(d.year), Pad2(d.month + 1), Pad2(d.day), Pad2(d.hours), Pad2(d.minutes);
    PaddedField(d.month + 1);
    PaddedField(d.day);
    PaddedField(d.hours);
    PaddedField(d.minutes);
    StampLayout(y, mo, da, ho, mi, d.month + 1, d.day, d.hours, d.minutes);
  }

  /** The month and day fields of the stamp read back as the calendar month (counted from 1) and the day. */
  lemma FormatTimeDateFields(d: Date)
    requires InRange(d)
    ensures var s := FormatTime(d); var y := |IntToDecimal(d.year)|;
      FieldReads(s, y + 1, d.month + 1) && FieldReads(s, y + 4, d.day)
  {
    var y, mo, da, ho, mi := IntToDecimal(d.year), Pad2(d.month + 1), Pad2(d.day), Pad2(d.hours), Pad2(d.minutes);
    PaddedField(d.month + 1);
    PaddedField(d.day);
    PaddedField(d.hours);
    PaddedField(d.minutes);
    StampLayout(y, mo, da, ho, mi, d.month + 1, d.day, d.hours, d.minutes);
  }

  /** The hour and minute fields of the stamp read back as the hour and the minute. */
  lemma FormatTimeClockFields(d: Date)
    requires InRange(d)
    ensures var s := FormatTime(d); var y := |IntToDecimal(d.year)|;
      FieldReads(s, y + 7, d.hours) && FieldReads(s, y + 10, d.minutes)
  {
    var y, mo, da, ho, mi := IntToDecimal(d.year), Pad2(d.month + 1), Pad2(d.day), Pad2(d.hours), Pad2(d.minutes);
    PaddedField(d.month + 1);
    PaddedField(d.day);
    PaddedField(d.hours);
    PaddedField(d.minutes);
    StampLayout(y, mo, da, ho, mi, d.month + 1, d.day, d.hours, d.minutes);
  }
}
