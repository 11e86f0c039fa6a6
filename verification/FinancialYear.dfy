/**
 * The Indian financial year: from the first of April to the next, written "2026-27". Texts
 * are made from instants and from neighbouring years, and read back by pattern.
 */
module FinancialYear {
  import opened Calendar
  import opened Decimal

  // ----- Text ---------------------------------------------------------------------------------

  /** The text for the year starting in April of y. */
  function Text(y: int): string {
    Pad(y, 4) + "-" + Pad(TruncMod(y + 1, 100), 2)
  }

  /** Four digits, a dash, two digits. */
  predicate Matches(s: string) {
    |s| == 7 && s[4] == '-' && AllDigits(s[..4]) && AllDigits(s[5..])
  }

  function StartYear(fy: string): nat {
    if Matches(fy) then Value(fy[..4]) else 0
  }

  predicate Parses(raw: string) {
    Matches(raw) && Value(raw[5..]) == (Value(raw[..4]) + 1) % 100
  }

  // ----- The year as an interval ------------------------------------------------------------

  function Start(fy: string): int {
    if StartYear(fy) == 0 then ZERO_TIME else Midnight(AprilDay(StartYear(fy)))
  }

  function End(fy: string): int {
    if StartYear(fy) == 0 then ZERO_TIME else Midnight(AprilDay(StartYear(fy) + 1))
  }

  predicate Contains(fy: string, t: int) {
    fy != "" && !(t < Start(fy)) && t < End(fy)
  }

  /** The calendar year in which the financial year of an instant began. */
  function BeganIn(t: int): int {
    var y := YearOf(t);
    if DayOf(t) < AprilDay(y) then y - 1 else y
  }

  function FromDate(t: int): string {
    Text(BeganIn(t))
  }

  function Previous(fy: string): string {
    if StartYear(fy) == 0 then "" else Text(StartYear(fy) - 1)
  }

  function Next(fy: string): string {
    if StartYear(fy) == 0 then "" else Text(StartYear(fy) + 1)
  }

  // ----- Texts and years --------------------------------------------------------------------

  lemma {:induction false} LeadingZero(s: string)
    requires AllDigits(s)
    ensures AllDigits("0" + s) && Value("0" + s) == Value(s)
    decreases |s|
  {
    var z := "0" + s;
    if s == "" {
      assert z[..0] == "";
    } else {
      LeadingZero(s[..|s| - 1]);
      assert z[..|z| - 1] == "0" + s[..|s| - 1];
    }
  }

  lemma {:induction false} ZeroPadDenotes(s: string, w: nat)
    requires AllDigits(s)
    ensures AllDigits(ZeroPad(s, w)) && Value(ZeroPad(s, w)) == Value(s)
    ensures |ZeroPad(s, w)| == if |s| >= w then |s| else w
    decreases w - |s|
  {
    if |s| < w {
      LeadingZero(s);
      ZeroPadDenotes("0" + s, w);
    }
  }

  /** Four digits hold the numbers below ten thousand, two those below a hundred. */
  lemma DigitCount(n: nat)
    ensures |Digits(n)| <= 2 <==> n < 100
    ensures |Digits(n)| <= 4 <==> n < 10_000
  {
    DigitsDenote(n);
    if n >= 10 {
      assert |Digits(n)| == 1 + |Digits(n / 10)|;
      DigitCountStep(n / 10);
    }
  }

  lemma DigitCountStep(n: nat)
    ensures |Digits(n)| <= 1 <==> n < 10
    ensures |Digits(n)| <= 3 <==> n < 1_000
  {
    DigitsDenote(n);
    if n >= 10 {
      var m := n / 10;
      DigitsDenote(m);
      assert |Digits(n)| == 1 + |Digits(m)|;
      if m >= 10 {
        DigitsDenote(m / 10);
        assert |Digits(m)| == 1 + |Digits(m / 10)|;
        if m / 10 >= 10 {
          DigitsDenote(m / 10 / 10);
          assert |Digits(m / 10)| == 1 + |Digits(m / 10 / 10)|;
        }
      }
    }
  }

  lemma PadDenotes(n: nat, w: nat)
    requires (w == 4 && n < 10_000) || (w == 2 && n < 100)
    ensures |Pad(n, w)| == w && AllDigits(Pad(n, w)) && Value(Pad(n, w)) == n
  {
    DigitsDenote(n);
    DigitCount(n);
    ZeroPadDenotes(Digits(n), w);
  }

  /** The text of a year matches the pattern exactly for the years 0 to 9999, and then it
      parses and names the year. */
  lemma TextExact(y: int)
    ensures Matches(Text(y)) <==> 0 <= y <= 9999
    ensures 0 <= y <= 9999 ==> Parses(Text(y)) && StartYear(Text(y)) == y
  {
    if 0 <= y <= 9999 {
      var tail := (y + 1) % 100;
      PadDenotes(y, 4);
      PadDenotes(tail, 2);
      assert Text(y)[..4] == Pad(y, 4) && Text(y)[5..] == Pad(tail, 2);
    } else if y < 0 {
      assert |Text(y)| >= 4 ==> Text(y)[..4][0] == '-';
    } else {
      DigitCount(y);
      DigitsDenote(y);
      ZeroPadDenotes(Digits(y), 4);
      assert |Pad(y, 4)| >= 5 && Text(y)[4] == Pad(y, 4)[4];
    }
  }

  lemma {:induction false} ValueDetermines(a: string, b: string)
    requires AllDigits(a) && AllDigits(b) && |a| == |b| && Value(a) == Value(b)
    ensures a == b
    decreases |a|
  {
    if a != "" {
      var n := |a| - 1;
      var x, y := (a[n] - '0') as nat, (b[n] - '0') as nat;
      assert Value(a) == Value(a[..n]) * 10 + x && Value(b) == Value(b[..n]) * 10 + y;
      assert x < 10 && y < 10;
      ValueDetermines(a[..n], b[..n]);
      assert a == a[..n] + [a[n]] && b == b[..n] + [b[n]];
    }
  }

  /** A text that parses is the text of its year. */
  lemma ParsedText(fy: string)
    requires Parses(fy)
    ensures 0 <= StartYear(fy) <= 9999 && fy == Text(StartYear(fy))
  {
    var y := StartYear(fy);
    var tail := (y + 1) % 100;
    FourDigits(fy[..4]);
    PadDenotes(y, 4);
    PadDenotes(tail, 2);
    ValueDetermines(fy[..4], Pad(y, 4));
    ValueDetermines(fy[5..], Pad(tail, 2));
    assert fy == fy[..4] + [fy[4]] + fy[5..];
  }

  lemma FourDigits(s: string)
    requires |s| == 4 && AllDigits(s)
    ensures Value(s) <= 9999
  {
    var a, b, c := s[..3], s[..2], s[..1];
    assert a[..2] == b && b[..1] == c && c[..0] == "";
    assert Value(c) == (s[0] - '0') as nat;
    assert Value(b) == Value(c) * 10 + (s[1] - '0') as nat;
    assert Value(a) == Value(b) * 10 + (s[2] - '0') as nat;
  }

  // ----- The years tile the time line -------------------------------------------------------

  lemma BeganDay(t: int)
    ensures AprilDay(BeganIn(t)) <= DayOf(t) < AprilDay(BeganIn(t) + 1)
  {
    var c := YearOf(t);
    AprilInYear(c - 1);
    AprilInYear(c + 1);
  }

  lemma OneApril(day: int, b: int, y: int)
    requires AprilDay(b) <= day < AprilDay(b + 1)
    ensures AprilDay(y) <= day < AprilDay(y + 1) <==> y == b
  {
    if y < b {
      LaterYears(y + 1, b);
    } else if y > b {
      LaterYears(b + 1, y);
    }
  }

  /** An instant lies between the first of April its year began and the next one, and between
      no other two. */
  lemma BeganExact(t: int, y: int)
    ensures Midnight(AprilDay(y)) <= t < Midnight(AprilDay(y + 1)) <==> y == BeganIn(t)
  {
    SameOrder(t, AprilDay(y));
    SameOrder(t, AprilDay(y + 1));
    BeganDay(t);
    OneApril(DayOf(t), BeganIn(t), y);
  }

  lemma ContainsExact(fy: string, t: int)
    ensures Contains(fy, t) <==> StartYear(fy) >= 1 && StartYear(fy) == BeganIn(t)
  {
    BeganExact(t, StartYear(fy));
  }

  /** The financial years 1 to 9999 tile the instants: the text made for an instant parses
      exactly when the year is 0 to 9999, contains the instant exactly when it is 1 to 9999,
      and no other text that parses contains it. */
  lemma Tiling(t: int, other: string)
    ensures Parses(FromDate(t)) <==> 0 <= BeganIn(t) <= 9999
    ensures Contains(FromDate(t), t) <==> 1 <= BeganIn(t) <= 9999
    ensures Parses(other) && Contains(other, t) ==> other == FromDate(t)
  {
    TextExact(BeganIn(t));
    ContainsExact(FromDate(t), t);
    ContainsExact(other, t);
    if Parses(other) {
      ParsedText(other);
    }
  }

  /** Neighbouring years meet without a gap, except after the last four-digit year. */
  lemma NeighboursMeet(fy: string)
    requires Parses(fy)
    ensures End(fy) == Start(Next(fy)) <==> StartYear(fy) != 9999
    ensures StartYear(fy) >= 1 ==> Start(fy) < End(fy)
  {
    var y := StartYear(fy);
    ParsedText(fy);
    TextExact(y + 1);
    LaterYears(y, y + 1);
    LaterYears(1, y + 1);
  }

  /** Next and previous year undo each other exactly where both are four-digit years and
      neither is the year zero. */
  lemma NeighboursUndo(fy: string)
    requires Parses(fy)
    ensures Previous(Next(fy)) == fy <==> 1 <= StartYear(fy) <= 9998
    ensures Next(Previous(fy)) == fy <==> 2 <= StartYear(fy)
  {
    var y: int := StartYear(fy);
    ParsedText(fy);
    TextExact(y + 1);
    TextExact(y - 1);
  }
}
