/** Calendar dates written as `YYYY-MM-DD`, the tag every daily image
    carries in its name, and the `DD/MM/YYYY` label shown to the user. */
module IsoDates {
  import opened Strings

  predicate IsDigit(c: char)
  {
    '0' <= c <= '9'
  }

  predicate AllDigits(s: string)
  {
    forall i :: 0 <= i < |s| ==> IsDigit(s[i])
  }

  function DigitValue(c: char): nat
    requires IsDigit(c)
  {
    c as int - '0' as int
  }

  function Pow10(n: nat): nat
  {
    if n == 0 then 1 else 10 * Pow10(n - 1)
  }

  /** The number a string of decimal digits denotes, most significant first. */
  function DigitsValue(s: string): nat
    requires AllDigits(s)
  {
    if |s| == 0 then 0 else DigitValue(s[0]) * Pow10(|s| - 1) + DigitsValue(s[1..])
  }

  lemma {:induction false} DigitsValueBound(s: string)
    requires AllDigits(s)
    ensures DigitsValue(s) < Pow10(|s|)
  {
    if |s| > 0 {
      DigitsValueBound(s[1..]);
      var p := Pow10(|s| - 1);
      calc {
        DigitsValue(s);
        DigitValue(s[0]) * p + DigitsValue(s[1..]);
      < DigitValue(s[0]) * p + p;
        (DigitValue(s[0]) + 1) * p;
      <= { MulMonotone(DigitValue(s[0]) + 1, 10, p); }
        10 * p;
      }
    }
  }

  lemma MulMonotone(a: nat, b: nat, p: nat)
    requires a <= b
    ensures a * p <= b * p
  {
  }

  /** A larger leading digit outweighs whatever the lower digits hold. */
  lemma LeadingDigitDominates(da: nat, ra: nat, db: nat, rb: nat, p: nat)
    requires da < db && ra < p
    ensures da * p + ra < db * p + rb
  {
    MulMonotone(da + 1, db, p);
  }

  /** On digit strings of one length, Python's string order is the order of
      the numbers they denote. */
  lemma {:induction false} DigitsOrder(a: string, b: string)
    requires AllDigits(a) && AllDigits(b) && |a| == |b|
    ensures LexLess(a, b) <==> DigitsValue(a) < DigitsValue(b)
  {
    if |a| > 0 {
      var p := Pow10(|a| - 1);
      var da, db := DigitValue(a[0]), DigitValue(b[0]);
      var ra, rb := DigitsValue(a[1..]), DigitsValue(b[1..]);
      assert DigitsValue(a) == da * p + ra;
      assert DigitsValue(b) == db * p + rb;
      DigitsValueBound(a[1..]);
      DigitsValueBound(b[1..]);
      if da < db {
        LeadingDigitDominates(da, ra, db, rb, p);
      } else if db < da {
        LeadingDigitDominates(db, rb, da, ra, p);
      } else {
        assert a[0] == b[0];
        DigitsOrder(a[1..], b[1..]);
      }
    }
  }

  /** Digit strings of one length denote the same number only when equal. */
  lemma DigitsInjective(a: string, b: string)
    requires AllDigits(a) && AllDigits(b) && |a| == |b|
    requires DigitsValue(a) == DigitsValue(b)
    ensures a == b
  {
    DigitsOrder(a, b);
    DigitsOrder(b, a);
    LexTotal(a, b);
  }

  /** The zero-padded `YYYY-MM-DD` layout: four, two and two ASCII digits
      separated by hyphens. */
  predicate WellShaped(s: string)
  {
    && |s| == 10
    && s[4] == '-' && s[7] == '-'
    && AllDigits(s[0..4]) && AllDigits(s[5..7]) && AllDigits(s[8..10])
  }

  function Year(s: string): nat
    requires WellShaped(s)
  {
    DigitsValue(s[0..4])
  }

  function Month(s: string): nat
    requires WellShaped(s)
  {
    DigitsValue(s[5..7])
  }

  function Day(s: string): nat
    requires WellShaped(s)
  {
    DigitsValue(s[8..10])
  }

  /** The Gregorian rule: every fourth year, except centuries not divisible
      by 400. */
  predicate IsLeapYear(y: int)
  {
    y % 4 == 0 && (y % 100 != 0 || y % 400 == 0)
  }

  function DaysInMonth(y: int, m: int): (n: nat)
    requires 1 <= m <= 12
    ensures 28 <= n <= 31
    ensures n == 28 <==> m == 2 && !IsLeapYear(y)
    ensures n == 29 <==> m == 2 && IsLeapYear(y)
    ensures n == 30 <==> m == 4 || m == 6 || m == 9 || m == 11
  {
    if m == 2 then (if IsLeapYear(y) then 29 else 28)
    else if m == 4 || m == 6 || m == 9 || m == 11 then 30
    else 31
  }

  /** The twelve month lengths add up to 366 days in a leap year and to 365
      otherwise. */
  lemma YearLength(y: int)
    ensures DaysInMonth(y, 1) + DaysInMonth(y, 2) + DaysInMonth(y, 3) + DaysInMonth(y, 4)
          + DaysInMonth(y, 5) + DaysInMonth(y, 6) + DaysInMonth(y, 7) + DaysInMonth(y, 8)
          + DaysInMonth(y, 9) + DaysInMonth(y, 10) + DaysInMonth(y, 11) + DaysInMonth(y, 12)
          == if IsLeapYear(y) then 366 else 365
  {
    assert DaysInMonth(y, 1) == 31 && DaysInMonth(y, 3) == 31 && DaysInMonth(y, 5) == 31;
    assert DaysInMonth(y, 7) == 31 && DaysInMonth(y, 8) == 31 && DaysInMonth(y, 10) == 31;
    assert DaysInMonth(y, 12) == 31;
    assert DaysInMonth(y, 4) == 30 && DaysInMonth(y, 6) == 30;
    assert DaysInMonth(y, 9) == 30 && DaysInMonth(y, 11) == 30;
  }

  /** What `datetime.strptime(s, "%Y-%m-%d")` accepts in its zero-padded
      form: a year from 1 (the smallest year a date may have), a month from 1
      to 12 and a day that exists in that month. */
  predicate ValidIsoDate(s: string)
  {
    && WellShaped(s)
    && 1 <= Year(s)
    && 1 <= Month(s) <= 12
    && 1 <= Day(s) <= DaysInMonth(Year(s), Month(s))
  }

  /** Chronological order: by year, then month, then day. */
  predicate ChronoLess(s: string, t: string)
    requires WellShaped(s) && WellShaped(t)
  {
    || Year(s) < Year(t)
    || (Year(s) == Year(t) && Month(s) < Month(t))
    || (Year(s) == Year(t) && Month(s) == Month(t) && Day(s) < Day(t))
  }

  lemma SplitShape(s: string)
    requires WellShaped(s)
    ensures s == s[0..4] + ("-" + (s[5..7] + ("-" + s[8..10])))
  {
  }

  /** For zero-padded dates, the order in which Python sorts the strings is
      the chronological order of the dates they write. */
  lemma LexIsChronological(s: string, t: string)
    requires WellShaped(s) && WellShaped(t)
    ensures LexLess(s, t) <==> ChronoLess(s, t)
  {
    SplitShape(s);
    SplitShape(t);
    var ys, ms, ds := s[0..4], s[5..7], s[8..10];
    var yt, mt, dt := t[0..4], t[5..7], t[8..10];
    LexConcat(ys, "-" + (ms + ("-" + ds)), yt, "-" + (mt + ("-" + dt)));
    LexConcat("-", ms + ("-" + ds), "-", mt + ("-" + dt));
    LexIrreflexive("-");
    LexConcat(ms, "-" + ds, mt, "-" + dt);
    LexConcat("-", ds, "-", dt);
    DigitsOrder(ys, yt);
    DigitsOrder(ms, mt);
    DigitsOrder(ds, dt);
    if Year(s) == Year(t) {
      DigitsInjective(ys, yt);
    }
    if Month(s) == Month(t) {
      DigitsInjective(ms, mt);
    }
  }

  /** A zero-padded date string is determined by its year, month and day:
      one calendar date has exactly one tag. */
  lemma FieldsDetermineDate(s: string, t: string)
    requires WellShaped(s) && WellShaped(t)
    requires Year(s) == Year(t) && Month(s) == Month(t) && Day(s) == Day(t)
    ensures s == t
  {
    SplitShape(s);
    SplitShape(t);
    DigitsInjective(s[0..4], t[0..4]);
    DigitsInjective(s[5..7], t[5..7]);
    DigitsInjective(s[8..10], t[8..10]);
  }

  /** `strftime("%d/%m/%Y")` of a parsed date: the same day, month and year
      laid out as `DD/MM/YYYY`. */
  function FormatLabelBr(s: string): (r: string)
    requires ValidIsoDate(s)
    ensures |r| == 10 && r[2] == '/' && r[5] == '/'
    ensures AllDigits(r[0..2]) && AllDigits(r[3..5]) && AllDigits(r[6..10])
    ensures DigitsValue(r[0..2]) == Day(s)
    ensures DigitsValue(r[3..5]) == Month(s)
    ensures DigitsValue(r[6..10]) == Year(s)
  {
    var r := s[8..10] + "/" + s[5..7] + "/" + s[0..4];
    assert r[0..2] == s[8..10] && r[3..5] == s[5..7] && r[6..10] == s[0..4];
    r
  }

  /** Reads a `DD/MM/YYYY` label back into `YYYY-MM-DD`. */
  function IsoFromLabelBr(r: string): string
    requires |r| == 10
  {
    r[6..10] + "-" + r[3..5] + "-" + r[0..2]
  }

  lemma LabelRoundTrip(s: string)
    requires ValidIsoDate(s)
    ensures IsoFromLabelBr(FormatLabelBr(s)) == s
  {
    var r := FormatLabelBr(s);
    var u := IsoFromLabelBr(r);
    assert u[0..4] == r[6..10] && u[5..7] == r[3..5] && u[8..10] == r[0..2];
    assert WellShaped(u);
    FieldsDetermineDate(u, s);
  }

  /** Distinct dates get distinct labels. */
  lemma FormatLabelBrInjective(s: string, t: string)
    requires ValidIsoDate(s) && ValidIsoDate(t)
    requires FormatLabelBr(s) == FormatLabelBr(t)
    ensures s == t
  {
    LabelRoundTrip(s);
    LabelRoundTrip(t);
  }
}
