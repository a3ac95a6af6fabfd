/**
 * Daily practice streaks (src/lib/gamification/streaks.ts).
 *
 * Calendar days are whole numbers chosen by the caller, so "yesterday" is
 * `today - 1`; the clock the source reads is the `today` parameter here.
 */
module Streaks {
  import opened Wrappers
  import Tiers

  /** `isToday`: the same calendar day. */
  predicate IsToday(day: int, today: int)
  {
    day == today
  }

  /** `isYesterday`: the day before today, never today itself. */
  predicate IsYesterday(day: int, today: int)
    ensures IsYesterday(day, today) <==> IsToday(day + 1, today)
    ensures IsYesterday(day, today) ==> !IsToday(day, today)
  {
    day == today - 1
  }

  datatype StreakUpdate = StreakUpdate(
    newStreak: int,
    newLongestStreak: int,
    streakIncreased: bool)

  /** The streak after a session on `today`, given the last practice day. */
  function UpdateStreak(currentStreak: int, longestStreak: int,
                        lastPracticeDate: Option<int>, today: int): (u: StreakUpdate)
    ensures u.newLongestStreak >= longestStreak
    ensures !u.streakIncreased <==> lastPracticeDate == Some(today)
    ensures currentStreak >= 0 && u.streakIncreased ==> u.newStreak >= 1
    ensures lastPracticeDate == None ==>
      u == StreakUpdate(1, if longestStreak < 1 then 1 else longestStreak, true)
    ensures lastPracticeDate == Some(today) ==>
      u == StreakUpdate(currentStreak, longestStreak, false)
    ensures lastPracticeDate == Some(today - 1) ==>
      u.newStreak == currentStreak + 1 &&
      u.newLongestStreak == (if longestStreak < currentStreak + 1 then currentStreak + 1 else longestStreak)
    ensures lastPracticeDate.Some? && lastPracticeDate.value !in {today, today - 1} ==>
      u == StreakUpdate(1, longestStreak, true)
  {
    match lastPracticeDate
    case None =>
      StreakUpdate(1, Max(longestStreak, 1), true)
    case Some(last) =>
      if IsToday(last, today) then
        StreakUpdate(currentStreak, longestStreak, false)
      else if IsYesterday(last, today) then
        var newStreak := currentStreak + 1;
        StreakUpdate(newStreak, Max(longestStreak, newStreak), true)
      else
        StreakUpdate(1, longestStreak, true)
  }

  function Max(a: int, b: int): int { if a < b then b else a }

  /**
   * The stored streak fields are consistent: the longest streak bounds the
   * current one, and once a practice day is recorded the streak is at least 1.
   */
  predicate Consistent(currentStreak: int, longestStreak: int, lastPracticeDate: Option<int>) {
    0 <= currentStreak <= longestStreak &&
    (lastPracticeDate.Some? ==> currentStreak >= 1)
  }

  /**
   * An update followed by the caller recording `today` as the last practice
   * day keeps the stored fields consistent.
   */
  lemma UpdateStreakKeepsConsistent(currentStreak: int, longestStreak: int,
                                    lastPracticeDate: Option<int>, today: int)
    requires Consistent(currentStreak, longestStreak, lastPracticeDate)
    ensures var u := UpdateStreak(currentStreak, longestStreak, lastPracticeDate, today);
            Consistent(u.newStreak, u.newLongestStreak, Some(today))
  {
  }

  /** A second session on the same day changes nothing and increases nothing. */
  lemma UpdateStreakSameDayIdempotent(currentStreak: int, longestStreak: int,
                                      lastPracticeDate: Option<int>, today: int)
    ensures var u := UpdateStreak(currentStreak, longestStreak, lastPracticeDate, today);
            UpdateStreak(u.newStreak, u.newLongestStreak, Some(today), today) ==
              StreakUpdate(u.newStreak, u.newLongestStreak, false)
  {
  }

  /** A streak that is at risk is continued, not reset, by practising today. */
  lemma AtRiskStreakContinues(currentStreak: int, longestStreak: int,
                              lastPracticeDate: Option<int>, today: int)
    requires IsStreakAtRisk(lastPracticeDate, today)
    ensures UpdateStreak(currentStreak, longestStreak, lastPracticeDate, today).newStreak ==
            currentStreak + 1
  {
  }

  /** True exactly when the last practice was yesterday. */
  function IsStreakAtRisk(lastPracticeDate: Option<int>, today: int): (r: bool)
    ensures r <==> lastPracticeDate == Some(today - 1)
  {
    match lastPracticeDate
    case None => false
    case Some(last) => IsYesterday(last, today)
  }

  /** Streak messages as (minimum streak, message), highest first. */
  const StreakMessageTiers: seq<(int, string)> := [
    (30, "Incredible dedication!"),
    (14, "You're on fire!"),
    (7, "One week strong!"),
    (3, "Keep it going!"),
    (1, "Great start!")
  ]

  function StreakMessage(streak: int): (message: string)
    ensures message == "Start your streak today!" <==> streak < 1
  {
    if streak >= 30 then "Incredible dedication!"
    else if streak >= 14 then "You're on fire!"
    else if streak >= 7 then "One week strong!"
    else if streak >= 3 then "Keep it going!"
    else if streak >= 1 then "Great start!"
    else "Start your streak today!"
  }

  lemma StreakMessageIsTableLookup(streak: int)
    ensures StreakMessage(streak) ==
            Tiers.HighestTier(StreakMessageTiers, streak, "Start your streak today!")
  {
    var t := StreakMessageTiers;
    if streak >= 30 { assert Tiers.InBracket(t, 0, streak); }
    else if streak >= 14 { assert Tiers.InBracket(t, 1, streak); }
    else if streak >= 7 { assert Tiers.InBracket(t, 2, streak); }
    else if streak >= 3 { assert Tiers.InBracket(t, 3, streak); }
    else if streak >= 1 { assert Tiers.InBracket(t, 4, streak); }
  }

  /** A ten-day streak broken five days ago restarts at 1 and keeps 10. */
  lemma StreakResetExample(today: int)
    ensures UpdateStreak(10, 10, Some(today - 5), today) == StreakUpdate(1, 10, true)
    ensures UpdateStreak(7, 7, Some(today - 3), today) == StreakUpdate(1, 7, true)
  {
  }
}
