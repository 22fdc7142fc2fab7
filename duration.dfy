/** Conversion of a moderator-supplied duration and unit name into seconds. */
module Duration {

  /** The units a mute or ban duration may be given in, with the seconds in one of each.
      Any other unit string is unknown. */
  const UnitSeconds: map<string, int> := map["minutes" := 60, "hours" := 3600, "days" := 86400]

  /** `duration` units of `unit`, in seconds; 0 for an unknown unit.
      The result is positive exactly when the unit is known and the duration positive,
      which is what makes it usable as the "valid duration" test of a mute. */
  function DurationToSeconds(duration: int, unit: string): (seconds: int)
    ensures unit in UnitSeconds ==> seconds == duration * UnitSeconds[unit]
    ensures unit !in UnitSeconds ==> seconds == 0
    ensures seconds > 0 <==> unit in UnitSeconds && duration > 0
  {
    if unit == "minutes" then duration * 60
    else if unit == "hours" then duration * 3600
    else if unit == "days" then duration * 86400
    else 0
  }

  /** Worked conversions: 5 minutes, 2 hours, 1 day, and an unknown unit. */
  lemma DurationExamples(n: int)
    ensures DurationToSeconds(5, "minutes") == 300
    ensures DurationToSeconds(2, "hours") == 7200
    ensures DurationToSeconds(1, "days") == 86400
    ensures DurationToSeconds(n, "fortnights") == 0
  {
  }
}
