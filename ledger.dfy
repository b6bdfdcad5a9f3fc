/**
 * The per-user water ledger (`WaterData`, backend/app.py:38-47) and its
 * update engine (`update_data`, backend/app.py:148-184).
 *
 * `LedgerState` is the value of one ledger row; `ApplyUpdate` states what one
 * update does to it; `WaterData` is the row itself, updated in place, and its
 * `Update` method is proved to perform exactly `ApplyUpdate`.
 */
module Ledger {
  import opened Wrappers

  /** A calendar date, as a day ordinal. */
  type Day = int

  /** Column default of `goal`. */
  const DefaultGoal: int := 2000

  datatype LedgerState = LedgerState(
    consumed: int,
    goal: int,
    streak: int,
    bestStreak: int,
    lastGoalDate: Option<Day>,
    lifetimeConsumed: int)

  /** One `POST /api/data` request: the server's date and the two optional body fields. */
  datatype UpdateRequest = UpdateRequest(today: Day, consumed: Option<int>, goal: Option<int>)

  /** What `GET /api/data` reports of a ledger. */
  datatype DataView = DataView(consumed: int, goal: int, streak: int, bestStreak: int)

  /** The row a fresh registration creates: every column at its default. */
  function Fresh(): (s: LedgerState)
    ensures s.consumed == 0 && s.goal == DefaultGoal
    ensures s.streak == 0 && s.bestStreak == 0 && s.lifetimeConsumed == 0
    ensures s.lastGoalDate.None?
  {
    LedgerState(0, DefaultGoal, 0, 0, None, 0)
  }

  /**
   * The invariant every stored ledger keeps: the streak is a non-negative
   * count bounded by its high-water mark, a goal date is recorded exactly
   * when some day has been credited, and the lifetime total is non-negative.
   */
  predicate Wellformed(s: LedgerState) {
    && 0 <= s.streak <= s.bestStreak
    && (s.streak == 0 <==> s.lastGoalDate.None?)
    && s.lifetimeConsumed >= 0
  }

  function Max(a: int, b: int): int { if a < b then b else a }

  /** The goal is crossed by this update: below the new goal before, at or above it after. */
  predicate GoalJustReached(previousConsumed: int, consumed: int, goal: int) {
    previousConsumed < goal && consumed >= goal
  }

  /** One update of the ledger on date `today`, step by step as the route performs it. */
  function ApplyUpdate(s: LedgerState, today: Day, newConsumed: Option<int>, newGoal: Option<int>): (r: LedgerState)
    // a field absent from the body keeps its value; a present one replaces it
    ensures newConsumed.None? ==> r.consumed == s.consumed
    ensures newConsumed.Some? ==> r.consumed == newConsumed.value
    ensures newGoal.None? ==> r.goal == s.goal
    ensures newGoal.Some? ==> r.goal == newGoal.value
    // the lifetime total grows by exactly the positive part of the change and never shrinks
    ensures r.lifetimeConsumed == s.lifetimeConsumed + Max(0, r.consumed - s.consumed)
    ensures r.lifetimeConsumed >= s.lifetimeConsumed
    // the streak never decreases and grows by one exactly when the new goal is crossed
    // on a date that has not been credited yet
    ensures r.streak == s.streak || r.streak == s.streak + 1
    ensures r.streak == s.streak + 1 <==>
              GoalJustReached(s.consumed, r.consumed, r.goal) && s.lastGoalDate != Some(today)
    ensures r.streak == s.streak + 1 ==> r.lastGoalDate == Some(today)
    ensures r.streak == s.streak ==> r.lastGoalDate == s.lastGoalDate
    // the best streak is the high-water mark, restored unconditionally
    ensures r.bestStreak == Max(s.bestStreak, r.streak)
    ensures Wellformed(s) ==> Wellformed(r)
  {
    var previousConsumed := s.consumed;
    var consumed := newConsumed.GetOr(s.consumed);
    var goal := newGoal.GetOr(s.goal);
    var added := consumed - previousConsumed;
    var lifetime := if added > 0 then s.lifetimeConsumed + added else s.lifetimeConsumed;
    var credited := GoalJustReached(previousConsumed, consumed, goal) && s.lastGoalDate != Some(today);
    var streak := if credited then s.streak + 1 else s.streak;
    var lastGoalDate := if credited then Some(today) else s.lastGoalDate;
    var best := if streak > s.bestStreak then streak else s.bestStreak;
    LedgerState(consumed, goal, streak, best, lastGoalDate, lifetime)
  }

  function Apply(s: LedgerState, u: UpdateRequest): LedgerState {
    ApplyUpdate(s, u.today, u.consumed, u.goal)
  }

  /** A sequence of updates applied in order. */
  function ApplyAll(s: LedgerState, us: seq<UpdateRequest>): (r: LedgerState)
    ensures r.lifetimeConsumed >= s.lifetimeConsumed
    ensures s.streak <= r.streak <= s.streak + |us|
    ensures r.bestStreak >= s.bestStreak
    ensures |us| > 0 ==> r.bestStreak >= r.streak
    ensures Wellformed(s) ==> Wellformed(r)
    decreases |us|
  {
    if us == [] then s else ApplyAll(Apply(s, us[0]), us[1..])
  }

  /** What `GET /api/data` returns for a ledger. */
  function View(s: LedgerState): DataView {
    DataView(s.consumed, s.goal, s.streak, s.bestStreak)
  }

  /**
   * The number of updates in `us` whose date differs from the date before it,
   * the date before the first being `last`: how many times the calendar date
   * changes along the sequence.
   */
  function NewDays(last: Option<Day>, us: seq<UpdateRequest>): nat
    decreases |us|
  {
    if us == [] then 0
    else (if last == Some(us[0].today) then 0 else 1) + NewDays(Some(us[0].today), us[1..])
  }

  /** The number of maximal runs of equal dates in `us`. */
  function DayRuns(us: seq<UpdateRequest>): nat {
    NewDays(None, us)
  }

  lemma NewDaysStartInsensitive(a: Option<Day>, b: Option<Day>, us: seq<UpdateRequest>)
    ensures NewDays(a, us) <= NewDays(b, us) + 1
    ensures NewDays(a, us) <= NewDays(None, us)
  {
  }

  /**
   * The streak can be credited at most once per run of same-date updates:
   * it grows by at most the number of date changes, counted from the ledger's
   * recorded last goal date.
   */
  lemma {:induction false} StreakGainBoundedByNewDays(s: LedgerState, us: seq<UpdateRequest>)
    ensures ApplyAll(s, us).streak - s.streak <= NewDays(s.lastGoalDate, us)
    decreases |us|
  {
    if us != [] {
      var s' := Apply(s, us[0]);
      StreakGainBoundedByNewDays(s', us[1..]);
      if s'.streak == s.streak {
        NewDaysStartInsensitive(s.lastGoalDate, Some(us[0].today), us[1..]);
      }
    }
  }

  /** Corollary: the streak grows by at most the number of distinct-date runs. */
  lemma StreakGainBoundedByDayRuns(s: LedgerState, us: seq<UpdateRequest>)
    ensures ApplyAll(s, us).streak - s.streak <= DayRuns(us)
  {
    StreakGainBoundedByNewDays(s, us);
    NewDaysStartInsensitive(s.lastGoalDate, None, us);
  }

  /**
   * Any number of updates made on one date credit the streak at most once,
   * and not at all when that date is the recorded last goal date.
   */
  lemma {:induction false} SameDayCreditsAtMostOnce(s: LedgerState, d: Day, us: seq<UpdateRequest>)
    requires forall i :: 0 <= i < |us| ==> us[i].today == d
    ensures ApplyAll(s, us).streak <= s.streak + 1
    ensures s.lastGoalDate == Some(d) ==> ApplyAll(s, us).streak == s.streak
    ensures s.lastGoalDate == Some(d) ==> ApplyAll(s, us).lastGoalDate == Some(d)
    decreases |us|
  {
    if us != [] {
      var s' := Apply(s, us[0]);
      SameDayCreditsAtMostOnce(s', d, us[1..]);
    }
  }

  /**
   * Lifetime accumulation over a session: the lifetime total grows by at
   * least the net change of `consumed`.
   */
  lemma {:induction false} LifetimeCoversNetIntake(s: LedgerState, us: seq<UpdateRequest>)
    ensures ApplyAll(s, us).lifetimeConsumed - s.lifetimeConsumed >= ApplyAll(s, us).consumed - s.consumed
    decreases |us|
  {
    if us != [] {
      LifetimeCoversNetIntake(Apply(s, us[0]), us[1..]);
    }
  }

  /**
   * Only the last credited date is remembered: if the server's date goes
   * back, a date credited earlier is credited again. Reaching the goal on
   * day 5, on day 6 and then on day 5 once more gives a streak of 3.
   */
  lemma EarlierDateCreditedAgain()
    ensures var s1 := ApplyUpdate(Fresh(), 5, Some(2000), None);
            var s2 := ApplyUpdate(ApplyUpdate(s1, 6, Some(0), None), 6, Some(2000), None);
            var s3 := ApplyUpdate(ApplyUpdate(s2, 5, Some(0), None), 5, Some(2000), None);
            s1.lastGoalDate == Some(5) && s3.streak == 3 && s3.lastGoalDate == Some(5)
  {
  }

  /**
   * The walk-through of a new account: the fresh ledger reports
   * consumed 0 of 2000 and no streak; reaching 2000 credits the first day;
   * drinking more on the same date credits nothing more.
   */
  lemma FirstDayScenario(d: Day)
    ensures View(Fresh()) == DataView(0, 2000, 0, 0)
    ensures View(ApplyUpdate(Fresh(), d, Some(2000), None)) == DataView(2000, 2000, 1, 1)
    ensures View(ApplyUpdate(ApplyUpdate(Fresh(), d, Some(2000), None), d, Some(2500), None))
              == DataView(2500, 2000, 1, 1)
  {
  }

  /** One ledger row, updated in place. */
  class WaterData {
    const userId: nat
    var consumed: int
    var goal: int
    var streak: int
    var bestStreak: int
    var lastGoalDate: Option<Day>
    var lifetimeConsumed: int

    /** The row's current column values. */
    function State(): LedgerState
      reads this
    {
      LedgerState(consumed, goal, streak, bestStreak, lastGoalDate, lifetimeConsumed)
    }

    /** A new row for user `userId`, every column at its default. */
    constructor (userId: nat)
      ensures this.userId == userId
      ensures State() == Fresh()
    {
      this.userId := userId;
      consumed, goal, streak, bestStreak := 0, DefaultGoal, 0, 0;
      lastGoalDate, lifetimeConsumed := None, 0;
    }

    /**
     * The body of `update_data`: applies the optional new `consumed` and
     * `goal`, then the lifetime and streak rules, and returns the streak and
     * best streak it reports.
     */
    method Update(today: Day, newConsumed: Option<int>, newGoal: Option<int>)
      returns (streakOut: int, bestStreakOut: int)
      modifies this
      ensures State() == ApplyUpdate(old(State()), today, newConsumed, newGoal)
      ensures streakOut == streak && bestStreakOut == bestStreak
    {
      var previousConsumed := consumed;
      consumed := newConsumed.GetOr(consumed);
      goal := newGoal.GetOr(goal);

      var addedAmount := consumed - previousConsumed;
      if addedAmount > 0 {
        lifetimeConsumed := lifetimeConsumed + addedAmount;
      }

      var goalJustReached := previousConsumed < goal && consumed >= goal;
      if goalJustReached && lastGoalDate != Some(today) {
        streak := streak + 1;
        lastGoalDate := Some(today);
        if streak > bestStreak {
          bestStreak := streak;
        }
      }

      if streak > bestStreak {
        bestStreak := streak;
      }
      streakOut, bestStreakOut := streak, bestStreak;
    }
  }
}
