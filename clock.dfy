/** .NET `DateTime`, as far as the validator uses it: a point on the proleptic Gregorian
    calendar between year 1 and year 9999, counted in ticks of 100 ns. An instant is kept as
    its year and the ticks elapsed since that year began; `Ticks` gives the absolute tick count
    on which .NET compares instants. */
module Clock {

  const TicksPerDay: nat := 864_000_000_000
  const MinYear: int := 1
  const MaxYear: int := 9999

  predicate IsLeapYear(year: int) {
    year % 4 == 0 && (year % 100 != 0 || year % 400 == 0)
  }

  function DaysInYear(year: int): nat {
    if IsLeapYear(year) then 366 else 365
  }

  function TicksInYear(year: int): nat {
    DaysInYear(year) * TicksPerDay
  }

  /** Ticks from 0001-01-01T00:00 to the first instant of `year`. */
  function TicksBeforeYear(year: int): nat
    requires MinYear <= year
    decreases year
  {
    if year == MinYear then 0 else TicksBeforeYear(year - 1) + TicksInYear(year - 1)
  }

  datatype Instant = Instant(year: int, tickOfYear: int)

  predicate InRange(i: Instant) {
    MinYear <= i.year <= MaxYear && 0 <= i.tickOfYear < TicksInYear(i.year)
  }

  type DateTime = i: Instant | InRange(i) witness Instant(MinYear, 0)

  /** `DateTime.Ticks`. */
  function Ticks(d: DateTime): nat {
    TicksBeforeYear(d.year) + d.tickOfYear
  }

  /** `a > b` on `DateTime`: .NET compares the tick counts (the `Kind` is ignored). */
  predicate IsLater(a: DateTime, b: DateTime) {
    Ticks(a) > Ticks(b)
  }

  /** Every tick of a year comes before the first tick of any later year. */
  lemma {:induction false} YearEndsBeforeLaterYear(y1: int, y2: int)
    requires MinYear <= y1 < y2
    ensures TicksBeforeYear(y1) + TicksInYear(y1) <= TicksBeforeYear(y2)
    decreases y2 - y1
  {
    if y1 + 1 < y2 {
      YearEndsBeforeLaterYear(y1 + 1, y2);
    }
  }

  /** The tick order agrees with the calendar year: an instant in a later year is later,
      and a later instant is never in an earlier year. */
  lemma LaterAgreesWithYear(a: DateTime, b: DateTime)
    ensures a.year > b.year ==> IsLater(a, b)
    ensures IsLater(a, b) ==> a.year >= b.year
  {
    if a.year > b.year {
      YearEndsBeforeLaterYear(b.year, a.year);
    } else if a.year < b.year {
      YearEndsBeforeLaterYear(a.year, b.year);
    }
  }

  /** The (year, tick-of-year) representation is exact: two instants with the same tick count
      are the same instant, so comparing by ticks is a total order on `DateTime`. */
  lemma TicksInjective(a: DateTime, b: DateTime)
    ensures Ticks(a) == Ticks(b) <==> a == b
  {
    if a.year != b.year {
      LaterAgreesWithYear(a, b);
      LaterAgreesWithYear(b, a);
    }
  }
}
