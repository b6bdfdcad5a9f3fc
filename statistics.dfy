/**
 * The day count behind `GET /api/statistics` (`get_statistics`,
 * backend/app.py:188-205).
 *
 * The registration date is the UTC date of `created_at`; `today` is the
 * server's local date. The average itself is a float division rounded by
 * Python and is not modelled; only whether its divisor is zero is.
 */
module Statistics {
  import opened Wrappers
  import opened Ledger

  /** The figures the route reports, apart from the average. */
  datatype Stats = Stats(lifetimeConsumed: int, daysSinceRegistration: int, bestStreak: int, currentGoal: int)

  /** Days since registration, counting the registration day itself. */
  function DaysSinceRegistration(registrationDay: Day, today: Day): (days: int)
    ensures registrationDay <= today ==> days >= 1
    ensures days == 1 <==> registrationDay == today
    ensures days <= 0 <==> today < registrationDay
    ensures days == 0 <==> registrationDay == today + 1
  {
    (today - registrationDay) + 1
  }

  /** Each further day adds exactly one to the count, so the count is the number of dates from registration to today. */
  lemma DaysGrowByOnePerDay(registrationDay: Day, today: Day)
    ensures DaysSinceRegistration(registrationDay, today + 1) == DaysSinceRegistration(registrationDay, today) + 1
  {
  }

  /**
   * The statistics for a ledger, or `None` when computing the average
   * divides by zero (an uncaught ZeroDivisionError, answered with 500).
   */
  function ComputeStatistics(registrationDay: Day, s: LedgerState, today: Day): (r: Option<Stats>)
    ensures r.None? <==> registrationDay == today + 1
    ensures registrationDay <= today ==> r.Some? && r.value.daysSinceRegistration >= 1
    ensures r.Some? ==> r.value.daysSinceRegistration == DaysSinceRegistration(registrationDay, today)
    ensures r.Some? ==>
              && r.value.lifetimeConsumed == s.lifetimeConsumed
              && r.value.bestStreak == s.bestStreak
              && r.value.currentGoal == s.goal
  {
    var days := DaysSinceRegistration(registrationDay, today);
    if days == 0 then None
    else Some(Stats(s.lifetimeConsumed, days, s.bestStreak, s.goal))
  }

  /** A user registered today with nothing drunk has been registered for one day. */
  lemma RegisteredTodayStatistics(d: Day)
    ensures ComputeStatistics(d, Fresh(), d) == Some(Stats(0, 1, 0, DefaultGoal))
  {
  }

  /**
   * West of UTC, late in the local evening the UTC date of `created_at` is
   * already tomorrow: a user who registers then and asks for statistics
   * before local midnight gets a division by zero.
   */
  lemma UtcRegistrationAheadOfLocalDate(today: Day, s: LedgerState)
    ensures ComputeStatistics(today + 1, s, today).None?
  {
  }
}
