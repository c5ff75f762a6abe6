/** The three renderings of the local clock the logger uses: the date `%Y%m%d` that drives
    day-based rotation, the stamp `%Y%m%d_%H%M%S` appended to a rotated file, and the
    timestamp `%Y-%m-%d %H:%M:%S.uuuuuu` embedded in every line. The clock reading itself
    is an input. */
module LogTime {
  import opened Digits

  /** A broken-down local time (`struct tm`) with its microseconds kept apart. */
  datatype LocalTime = LocalTime(year: nat, month: nat, day: nat, hour: nat, minute: nat, second: nat)

  /** Four-digit years and the ranges `struct tm` allows (a leap second may read 60). */
  predicate ValidTime(t: LocalTime)
  {
    1000 <= t.year <= 9999 && 1 <= t.month <= 12 && 1 <= t.day <= 31
    && t.hour <= 23 && t.minute <= 59 && t.second <= 60
  }

  /** `%Y%m%d`. */
  function DateString(t: LocalTime): (r: string)
    requires ValidTime(t)
    ensures |r| == 8 && AllDigits(r)
  {
    Pad(t.year, 4) + Pad(t.month, 2) + Pad(t.day, 2)
  }

  /** `%Y%m%d_%H%M%S`. */
  function StampString(t: LocalTime): (r: string)
    requires ValidTime(t)
    ensures |r| == 15 && r[..8] == DateString(t) && r[8] == '_'
    ensures AllDigits(r[..8]) && AllDigits(r[9..])
  {
    var r := DateString(t) + "_" + Pad(t.hour, 2) + Pad(t.minute, 2) + Pad(t.second, 2);
    assert r[9..] == Pad(t.hour, 2) + Pad(t.minute, 2) + Pad(t.second, 2);
    r
  }

  /** `%Y-%m-%d %H:%M:%S` followed by `.` and the microseconds in six digits. */
  function LogTimeString(t: LocalTime, micros: nat): (r: string)
    requires ValidTime(t) && micros < 1000000
    ensures |r| == 26
  {
    Pad(t.year, 4) + "-" + Pad(t.month, 2) + "-" + Pad(t.day, 2) + " "
    + Pad(t.hour, 2) + ":" + Pad(t.minute, 2) + ":" + Pad(t.second, 2) + "." + Pad(micros, 6)
  }

  lemma DigitsHaveNoBrackets(s: string)
    requires AllDigits(s)
    ensures '[' !in s && ']' !in s
  {
  }

  /** A timestamp produced from a clock reading never contains a square bracket, so it
      cannot disturb the worker's search for the level tag. */
  lemma LogTimeHasNoBrackets(t: LocalTime, micros: nat)
    requires ValidTime(t) && micros < 1000000
    ensures '[' !in LogTimeString(t, micros) && ']' !in LogTimeString(t, micros)
  {
    var r := LogTimeString(t, micros);
    forall i | 0 <= i < |r|
      ensures r[i] != '[' && r[i] != ']'
    {
      var y, mo, d, h, mi, s, u :=
        Pad(t.year, 4), Pad(t.month, 2), Pad(t.day, 2), Pad(t.hour, 2), Pad(t.minute, 2), Pad(t.second, 2), Pad(micros, 6);
      assert r == y + "-" + mo + "-" + d + " " + h + ":" + mi + ":" + s + "." + u;
      if i < 4 { assert r[i] == y[i]; }
      else if i == 4 || i == 7 { assert r[i] == '-'; }
      else if i < 7 { assert r[i] == mo[i - 5]; }
      else if i < 10 { assert r[i] == d[i - 8]; }
      else if i == 10 { assert r[i] == ' '; }
      else if i < 13 { assert r[i] == h[i - 11]; }
      else if i == 13 || i == 16 { assert r[i] == ':'; }
      else if i < 16 { assert r[i] == mi[i - 14]; }
      else if i < 19 { assert r[i] == s[i - 17]; }
      else if i == 19 { assert r[i] == '.'; }
      else { assert r[i] == u[i - 20]; }
    }
  }

  /** The date string determines the calendar day and vice versa, so the rotation
      check "date differs" means exactly "day, month or year differs". */
  lemma DateStringInjective(a: LocalTime, b: LocalTime)
    requires ValidTime(a) && ValidTime(b)
    ensures DateString(a) == DateString(b) <==> (a.year, a.month, a.day) == (b.year, b.month, b.day)
  {
    if DateString(a) == DateString(b) {
      var ra, rb := DateString(a), DateString(b);
      assert ra[..4] == Pad(a.year, 4) && rb[..4] == Pad(b.year, 4);
      assert ra[4..6] == Pad(a.month, 2) && rb[4..6] == Pad(b.month, 2);
      assert ra[6..] == Pad(a.day, 2) && rb[6..] == Pad(b.day, 2);
      PadValue(a.year, 4); PadValue(b.year, 4);
      PadValue(a.month, 2); PadValue(b.month, 2);
      PadValue(a.day, 2); PadValue(b.day, 2);
    }
  }

  /** Two stamps are equal exactly when the two readings agree to the second. */
  lemma StampStringInjective(a: LocalTime, b: LocalTime)
    requires ValidTime(a) && ValidTime(b)
    ensures StampString(a) == StampString(b) <==> a == b
  {
    if StampString(a) == StampString(b) {
      var ra, rb := StampString(a), StampString(b);
      DateStringInjective(a, b);
      assert ra[9..11] == Pad(a.hour, 2) && rb[9..11] == Pad(b.hour, 2);
      assert ra[11..13] == Pad(a.minute, 2) && rb[11..13] == Pad(b.minute, 2);
      assert ra[13..] == Pad(a.second, 2) && rb[13..] == Pad(b.second, 2);
      PadValue(a.hour, 2); PadValue(b.hour, 2);
      PadValue(a.minute, 2); PadValue(b.minute, 2);
      PadValue(a.second, 2); PadValue(b.second, 2);
    }
  }
}
