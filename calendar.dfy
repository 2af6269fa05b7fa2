/** The proleptic Gregorian calendar that `chrono::NaiveDate` uses. */
module Calendar {

  /** `NaiveDate`, restricted to the non-negative years a four-digit header can name. */
  datatype Date = Date(year: nat, month: nat, day: nat)

  predicate IsLeapYear(year: nat) {
    year % 4 == 0 && (year % 100 != 0 || year % 400 == 0)
  }

  function DaysInMonth(year: nat, month: nat): (days: nat)
    requires 1 <= month <= 12
    ensures 28 <= days <= 31
    ensures days == 29 <==> month == 2 && IsLeapYear(year)
  {
    if month == 2 then (if IsLeapYear(year) then 29 else 28)
    else if month == 4 || month == 6 || month == 9 || month == 11 then 30
    else 31
  }

  /** The dates `NaiveDate::from_ymd` accepts; on any other triple it panics.
      Every year `0..=9999` lies inside chrono's supported range. */
  predicate IsValid(year: nat, month: nat, day: nat) {
    1 <= month <= 12 && 1 <= day <= DaysInMonth(year, month)
  }
}
