/** The proleptic Gregorian calendar in UTC. Instants are nanoseconds, days count from the
    first of January of the year 1. */
module Calendar {

  const NANOS_PER_DAY := 86_400_000_000_000
  /** The zero value of an instant. */
  const ZERO_TIME := 0

  predicate IsLeap(y: int) {
    y % 4 == 0 && (y % 100 != 0 || y % 400 == 0)
  }

  function DaysIn(y: int): int {
    if IsLeap(y) then 366 else 365
  }

  /** The first of January of year y. */
  function YearDay(y: int): int {
    365 * (y - 1) + (y - 1) / 4 - (y - 1) / 100 + (y - 1) / 400
  }

  /** The first of April of year y, after January, February and March. */
  function AprilDay(y: int): int {
    YearDay(y) + 31 + (if IsLeap(y) then 29 else 28) + 31
  }

  lemma Quarter(y: int)
    ensures y / 4 == (y - 1) / 4 + if y % 4 == 0 then 1 else 0
  {
  }

  lemma Century(y: int)
    ensures y / 100 == (y - 1) / 100 + if y % 100 == 0 then 1 else 0
    ensures y % 100 == 0 ==> y % 4 == 0
  {
    assert y == y / 100 * 100 + y % 100;
  }

  lemma FourCenturies(y: int)
    ensures y / 400 == (y - 1) / 400 + if y % 400 == 0 then 1 else 0
    ensures y % 400 == 0 ==> y % 100 == 0
  {
    assert y == y / 400 * 400 + y % 400;
  }

  lemma YearLength(y: int)
    ensures YearDay(y + 1) == YearDay(y) + DaysIn(y)
  {
    Quarter(y);
    Century(y);
    FourCenturies(y);
  }

  lemma AprilInYear(y: int)
    ensures YearDay(y) < AprilDay(y) < YearDay(y + 1)
  {
    YearLength(y);
  }

  /** The year of a day, searched upward and downward from a year on its one side. */
  function YearUp(day: int, y: int): (r: int)
    requires YearDay(y) <= day
    ensures YearDay(r) <= day < YearDay(r + 1)
    decreases day - YearDay(y)
  {
    YearLength(y);
    if day >= YearDay(y + 1) then YearUp(day, y + 1) else y
  }

  function YearDown(day: int, y: int): (r: int)
    requires day < YearDay(y + 1)
    ensures YearDay(r) <= day < YearDay(r + 1)
    decreases YearDay(y + 1) - day
  {
    YearLength(y);
    if day < YearDay(y) then YearDown(day, y - 1) else y
  }

  function DayOf(t: int): int {
    t / NANOS_PER_DAY
  }

  function YearOf(t: int): (y: int)
    ensures YearDay(y) <= DayOf(t) < YearDay(y + 1)
  {
    if DayOf(t) >= YearDay(1) then YearUp(DayOf(t), 1) else YearDown(DayOf(t), 0)
  }

  /** Midnight at the start of a day. */
  function Midnight(day: int): int {
    day * NANOS_PER_DAY
  }

  lemma SameOrder(t: int, day: int)
    ensures t < Midnight(day) <==> DayOf(t) < day
  {
    assert t == DayOf(t) * NANOS_PER_DAY + t % NANOS_PER_DAY;
  }

  lemma {:induction false} LaterYears(a: int, b: int)
    requires a <= b
    ensures YearDay(a) <= YearDay(b) && AprilDay(a) <= AprilDay(b)
    ensures a < b ==> AprilDay(a) < AprilDay(b)
    decreases b - a
  {
    if a < b {
      YearLength(a);
      LaterYears(a + 1, b);
    }
  }
}
