/** The workout plans the front end shows beside the chat: one table per
    supported day count, and the seven-day plan for any other count. */
module WorkoutPlans {

  datatype Exercise = Exercise(name: string, details: string)

  /** One day of a plan; a rest day lists no exercises. */
  datatype DayPlan = DayPlan(day: int, title: string, exercises: seq<Exercise>)

  const RestDayTitle := "Rest Day"

  /** Sets and repetitions, with the en dash the table uses for ranges. */
  const Reps8To12 := "3 x 8\U{2013}12"
  const Reps10To15 := "3 x 10\U{2013}15"
  const Reps12To15 := "3 x 12\U{2013}15"
  const Reps6To10 := "3 x 6\U{2013}10"
  const Reps6To12 := "3 x 6\U{2013}12"
  const Reps15To20 := "3 x 15\U{2013}20"
  const Seconds30To60 := "3 x 30\U{2013}60s"

  const PushExercises := [
    Exercise("Bench Press", Reps8To12),
    Exercise("Overhead Press", Reps8To12),
    Exercise("Incline DB Press", Reps10To15),
    Exercise("Lateral Raises", Reps12To15),
    Exercise("Tricep Dips", Reps10To15)
  ]
  const PullExercises := [
    Exercise("Deadlifts", Reps6To10),
    Exercise("Barbell Rows", Reps8To12),
    Exercise("Pull-ups", Reps6To12),
    Exercise("Bicep Curls", Reps10To15),
    Exercise("Face Pulls", Reps12To15)
  ]
  const LegsExercises := [
    Exercise("Squats", Reps8To12),
    Exercise("Romanian Deadlifts", Reps8To12),
    Exercise("Leg Press", Reps10To15),
    Exercise("Calf Raises", Reps15To20),
    Exercise("Planks", Seconds30To60)
  ]
  const UpperBodyExercises := [
    Exercise("Bench Press", Reps8To12),
    Exercise("Pull-ups", Reps6To12),
    Exercise("Overhead Press", Reps8To12),
    Exercise("Barbell Rows", Reps8To12),
    Exercise("Dips", Reps8To12)
  ]
  const LowerBodyExercises := [
    Exercise("Squats", Reps8To12),
    Exercise("Deadlifts", Reps6To10),
    Exercise("Leg Press", Reps10To15),
    Exercise("Calf Raises", Reps15To20),
    Exercise("Planks", Seconds30To60)
  ]
  const FullBodyExercises := [
    Exercise("Squats", Reps8To12),
    Exercise("Bench Press", Reps8To12),
    Exercise("Pull-ups", Reps6To12),
    Exercise("Overhead Press", Reps8To12),
    Exercise("Planks", Seconds30To60)
  ]
  const Push2Exercises := [
    Exercise("DB Bench Press", Reps8To12),
    Exercise("Military Press", Reps8To12),
    Exercise("Decline Push-ups", Reps10To15),
    Exercise("Chest Flyes", Reps12To15),
    Exercise("Skull Crushers", Reps10To15)
  ]
  const Pull2Exercises := [
    Exercise("Barbell Deadlifts", Reps6To10),
    Exercise("T-Bar Rows", Reps8To12),
    Exercise("Lat Pulldowns", Reps8To12),
    Exercise("Hammer Curls", Reps10To15),
    Exercise("Rear Delt Flyes", Reps12To15)
  ]
  const Legs2Exercises := [
    Exercise("Front Squats", Reps8To12),
    Exercise("Sumo Deadlifts", Reps8To12),
    Exercise("Hack Squats", Reps10To15),
    Exercise("Seated Calf Raises", Reps15To20),
    Exercise("Russian Twists", Seconds30To60)
  ]

  const ThreeDayPlan := [
    DayPlan(1, "Push Day", PushExercises),
    DayPlan(2, "Pull Day", PullExercises),
    DayPlan(3, "Legs Day", LegsExercises)
  ]
  const FourDayPlan := [
    DayPlan(1, "Upper Body", UpperBodyExercises),
    DayPlan(2, "Lower Body", LowerBodyExercises),
    DayPlan(3, RestDayTitle, []),
    DayPlan(4, "Full Body", FullBodyExercises)
  ]
  const FiveDayPlan := [
    DayPlan(1, "Push Day", PushExercises),
    DayPlan(2, "Pull Day", PullExercises),
    DayPlan(3, "Legs Day", LegsExercises),
    DayPlan(4, RestDayTitle, []),
    DayPlan(5, "Full Body", FullBodyExercises)
  ]
  const SevenDayPlan := [
    DayPlan(1, "Push Day", PushExercises),
    DayPlan(2, "Pull Day", PullExercises),
    DayPlan(3, "Legs Day", LegsExercises),
    DayPlan(4, RestDayTitle, []),
    DayPlan(5, "Push Day 2", Push2Exercises),
    DayPlan(6, "Pull Day 2", Pull2Exercises),
    DayPlan(7, "Legs Day 2", Legs2Exercises)
  ]

  /** The day counts that have a table of their own. */
  predicate HasPlan(days: int) {
    days == 3 || days == 4 || days == 5 || days == 7
  }

  /** A plan lists its days in order, numbered from one; rest days list no
      exercises and every other day lists five. */
  ghost predicate WellFormedPlan(plan: seq<DayPlan>) {
    forall i :: 0 <= i < |plan| ==>
      && plan[i].day == i + 1
      && (plan[i].title == RestDayTitle <==> plan[i].exercises == [])
      && (plan[i].title != RestDayTitle ==> |plan[i].exercises| == 5)
  }

  /** `getWorkoutPlan(days)`: the table for `days`, or the seven-day table. */
  function GetWorkoutPlan(days: int): (plan: seq<DayPlan>)
    ensures HasPlan(days) ==> |plan| == days
    ensures !HasPlan(days) ==> plan == SevenDayPlan
    ensures WellFormedPlan(plan)
  {
    PlansWellFormed();
    if days == 3 then ThreeDayPlan
    else if days == 4 then FourDayPlan
    else if days == 5 then FiveDayPlan
    else SevenDayPlan
  }

  /** The three-day plan trains every day. */
  lemma ThreeDayPlanHasNoRest()
    ensures forall i :: 0 <= i < |GetWorkoutPlan(3)| ==> GetWorkoutPlan(3)[i].exercises != []
  {
    PlansWellFormed();
  }

  /** Every table longer than three days has exactly one rest day, its fourth
      day or (in the four-day table) its third. */
  lemma RestDays(days: int)
    requires days == 4 || days == 5 || days == 7
    ensures var plan := GetWorkoutPlan(days);
            var rest := if days == 4 then 2 else 3;
            && plan[rest].title == RestDayTitle
            && forall i :: 0 <= i < |plan| && i != rest ==> plan[i].title != RestDayTitle
  {
    PlansWellFormed();
  }

  lemma PlansWellFormed()
    ensures WellFormedPlan(ThreeDayPlan) && WellFormedPlan(FourDayPlan)
    ensures WellFormedPlan(FiveDayPlan) && WellFormedPlan(SevenDayPlan)
  {
    TitlesAreNotRest();
  }

  lemma TitlesAreNotRest()
    ensures "Push Day" != RestDayTitle && "Pull Day" != RestDayTitle && "Legs Day" != RestDayTitle
    ensures "Upper Body" != RestDayTitle && "Lower Body" != RestDayTitle && "Full Body" != RestDayTitle
    ensures "Push Day 2" != RestDayTitle && "Pull Day 2" != RestDayTitle && "Legs Day 2" != RestDayTitle
  {
    assert "Push Day"[0] != RestDayTitle[0] && "Pull Day"[0] != RestDayTitle[0] && "Legs Day"[0] != RestDayTitle[0];
    assert "Upper Body"[0] != RestDayTitle[0] && "Lower Body"[0] != RestDayTitle[0] && "Full Body"[0] != RestDayTitle[0];
  }
}
