/**
  The canonical weekday and month name tables and the lookups that turn a
  weekday or month number into a bucket key.
 */
module Calendar {

  /** A weekday number as JavaScript's `Date.getDay` yields it: 0 is Sunday. */
  type DayIndex = d: nat | d < 7

  /** A month number as JavaScript's `Date.getMonth` yields it: 0 is January. */
  type MonthIndex = m: nat | m < 12

  /** The weekday names, Sunday first: the weekly view's keys and their order. */
  const DaysOfWeek: seq<string> :=
    ["Sunday", "Monday", "Tuesday", "Wednesday", "Thursday", "Friday", "Saturday"]

  /** The month names, January first: the monthly view's keys and their order. */
  const MonthNames: seq<string> :=
    ["January", "February", "March", "April", "May", "June",
     "July", "August", "September", "October", "November", "December"]

  /** `getDayOfWeek`: the name of weekday `d`; every weekday number has one. */
  function DayName(d: DayIndex): (name: string)
    ensures name in DaysOfWeek
    ensures forall e: DayIndex :: DaysOfWeek[e] == name <==> e == d
  {
    DaysOfWeek[d]
  }

  /** `getMonth`: the name of month `m`; every month number has one. */
  function MonthName(m: MonthIndex): (name: string)
    ensures name in MonthNames
    ensures forall n: MonthIndex :: MonthNames[n] == name <==> n == m
  {
    MonthNames[m]
  }
}
