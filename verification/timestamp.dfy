/**
 * The timestamp that names an automatic backup: datetime.now().strftime("%Y%m%d_%H%M%S"),
 * with the clock reading as a parameter.
 */
module Timestamp {
  import opened Wrappers

  datatype DateTime = DateTime(year: nat, month: nat, day: nat, hour: nat, minute: nat, second: nat)
  {
    /** A superset of the readings datetime.now() produces with four-digit years (day 31 is allowed in every month). */
    predicate Valid() {
      && 1000 <= year <= 9999 && 1 <= month <= 12 && 1 <= day <= 31
      && hour < 24 && minute < 60 && second < 60
    }
  }

  function Pow10(n: nat): (p: nat)
    ensures p >= 1
  {
    if n == 0 then 1 else 10 * Pow10(n - 1)
  }

  predicate IsDigit(c: char) { '0' <= c <= '9' }

  function DigitValue(c: char): nat {
    if IsDigit(c) then c as int - '0' as int else 0
  }

  /** The zero-padded decimal rendering of `n` in `width` digits (strftime's %Y, %m, %d, ...). */
  function Digits(n: nat, width: nat): (s: string)
    ensures |s| == width
    ensures forall k :: 0 <= k < width ==> IsDigit(s[k])
  {
    if width == 0 then "" else Digits(n / 10, width - 1) + [('0' as int + n % 10) as char]
  }

  /** The value of a string of decimal digits. */
  function Number(s: string): nat {
    if s == [] then 0 else 10 * Number(s[..|s| - 1]) + DigitValue(s[|s| - 1])
  }

  lemma {:induction false} NumberOfDigits(n: nat, width: nat)
    requires n < Pow10(width)
    ensures Number(Digits(n, width)) == n
  {
    if width > 0 {
      var s := Digits(n, width);
      assert s[..|s| - 1] == Digits(n / 10, width - 1);
      assert DigitValue(s[|s| - 1]) == n % 10;
      NumberOfDigits(n / 10, width - 1);
    }
  }

  /** The "%Y%m%d_%H%M%S" rendering of a clock reading. */
  function Stamp(t: DateTime): (s: string)
    requires t.Valid()
    ensures |s| == 15 && s[8] == '_'
    ensures forall k :: 0 <= k < 15 && k != 8 ==> IsDigit(s[k])
  {
    Digits(t.year, 4) + Digits(t.month, 2) + Digits(t.day, 2) + "_"
      + Digits(t.hour, 2) + Digits(t.minute, 2) + Digits(t.second, 2)
  }

  /** The inverse of Stamp: reads the six fields back from their positions. */
  function ParseStamp(s: string): Option<DateTime> {
    if |s| == 15 && s[8] == '_' then
      Some(DateTime(Number(s[0..4]), Number(s[4..6]), Number(s[6..8]),
                    Number(s[9..11]), Number(s[11..13]), Number(s[13..15])))
    else None
  }

  lemma ParseStampRoundTrip(t: DateTime)
    requires t.Valid()
    ensures ParseStamp(Stamp(t)) == Some(t)
  {
    var s := Stamp(t);
    var date := Digits(t.year, 4) + Digits(t.month, 2) + Digits(t.day, 2);
    var time := Digits(t.hour, 2) + Digits(t.minute, 2) + Digits(t.second, 2);
    assert s == date + "_" + time;
    assert s[0..4] == Digits(t.year, 4);
    assert s[4..6] == Digits(t.month, 2);
    assert s[6..8] == Digits(t.day, 2);
    assert s[9..15] == time;
    assert s[9..11] == time[0..2] == Digits(t.hour, 2);
    assert s[11..13] == time[2..4] == Digits(t.minute, 2);
    assert s[13..15] == time[4..6] == Digits(t.second, 2);
    assert Pow10(2) == 100 && Pow10(4) == 10000;
    NumberOfDigits(t.year, 4);
    NumberOfDigits(t.month, 2);
    NumberOfDigits(t.day, 2);
    NumberOfDigits(t.hour, 2);
    NumberOfDigits(t.minute, 2);
    NumberOfDigits(t.second, 2);
  }

  /** Two different clock readings never produce the same stamp. */
  lemma StampInjective(a: DateTime, b: DateTime)
    requires a.Valid() && b.Valid()
    ensures Stamp(a) == Stamp(b) ==> a == b
  {
    ParseStampRoundTrip(a);
    ParseStampRoundTrip(b);
  }
}
