/** The dashboard's day/night theme choice (frontend/src/utils/getDayOrNight.ts). */
module DayOrNight {

  /** "day" from 06:00 up to, but not including, 18:00; "night" otherwise. The hour is the clock's 0–23. */
  function DayOrNight(hour: int): (r: string)
    ensures r == "day" || r == "night"
    ensures r == "day" <==> 6 <= hour < 18
  {
    if hour >= 6 && hour < 18 then "day" else "night"
  }

  /** The edges of the day: 6 and 17 are day, 5 and 18 are night. */
  lemma Boundaries()
    ensures DayOrNight(5) == "night" && DayOrNight(6) == "day"
    ensures DayOrNight(17) == "day" && DayOrNight(18) == "night"
  {
  }

  /** Every hour of the clock before 6 or from 18 on is night. */
  lemma NightHours(hour: int)
    requires 0 <= hour < 6 || 18 <= hour <= 23
    ensures DayOrNight(hour) == "night"
  {
  }
}
