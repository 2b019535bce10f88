/**
 * A naive (time-zone free) date and time in the proleptic Gregorian calendar, as
 * `chrono::NaiveDateTime` holds it, with the ordering that `NaiveDateTime::cmp` gives.
 */
module Calendar {

  datatype DateTime = DateTime(year: int, month: nat, day: nat, hour: nat, minute: nat, second: nat) {

    /** A date that exists in the calendar and a time of day without a leap second. */
    predicate Valid() {
      1 <= month <= 12 && 1 <= day <= DaysInMonth(year, month) && hour < 24 && minute < 60 && second < 60
    }

    /** The same day at 00:00:00. */
    function AtMidnight(): DateTime {
      DateTime(year, month, day, 0, 0, 0)
    }
  }

  predicate IsLeapYear(y: int) {
    y % 4 == 0 && (y % 100 != 0 || y % 400 == 0)
  }

  function YearLength(y: int): nat {
    if IsLeapYear(y) then 366 else 365
  }

  function DaysInMonth(y: int, m: nat): nat {
    if m == 2 then (if IsLeapYear(y) then 29 else 28)
    else if m == 4 || m == 6 || m == 9 || m == 11 then 30
    else 31
  }

  /** `a` is strictly earlier than `b`: date first, then time of day, field by field. */
  predicate Earlier(a: DateTime, b: DateTime) {
    a.year < b.year || (a.year == b.year &&
    (a.month < b.month || (a.month == b.month &&
    (a.day < b.day || (a.day == b.day &&
    (a.hour < b.hour || (a.hour == b.hour &&
    (a.minute < b.minute || (a.minute == b.minute &&
    a.second < b.second)))))))))
  }

  lemma EarlierIrreflexive(a: DateTime)
    ensures !Earlier(a, a)
  {
  }

  lemma EarlierTransitive(a: DateTime, b: DateTime, c: DateTime)
    requires Earlier(a, b) && Earlier(b, c)
    ensures Earlier(a, c)
  {
  }

  /** Any two date-times are equal or one is earlier than the other. */
  lemma EarlierTotal(a: DateTime, b: DateTime)
    ensures a == b || Earlier(a, b) || Earlier(b, a)
  {
  }
}
