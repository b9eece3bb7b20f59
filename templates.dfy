/** The response templates of the intent catalog and the facts about their
    braces that formatting depends on. */
module ResponseTemplates {
  import opened Text

  // Long literals are written as concatenations of short pieces; each
  // constant spells exactly the catalog's text.

  /** The workout template around its single `{days}` placeholder. */
  const WorkoutTemplateHead := "I'll create a "
  const WorkoutTemplateTail := "-day " + "workout" + WorkoutTemplateRest
  const WorkoutTemplateRest := " plan for you! "
                             + "Here's a balanced routine focusing on "
                             + "different muscle groups each day."

  const GreetingTemplate := "Hello! I'm your fitness assistant. "
                          + "How can I help you today?"
  const GoodbyeTemplate := "Goodbye! Stay active and healthy!"
  const WorkoutTemplate := WorkoutTemplateHead + "{days}" + WorkoutTemplateTail
  const ExerciseTemplate := "Here are some great exercises you can "
                          + "try: squats, push-ups, pull-ups, "
                          + "lunges, planks, and burpees. "
                          + "Start with 3 sets of 10-15 reps each!"
  const UnknownTemplate := "I'm not sure I understood that. "
                         + "Could you try rephrasing? "
                         + "I can help with workout plans, "
                         + "exercise recommendations, or just chat!"

  /** Only the workout template has a placeholder: exactly one `{days}`, with no
      other brace around it; every other template is free of braces, so
      returning it without formatting shows it as written. */
  lemma CatalogTemplates()
    ensures WorkoutTemplate == WorkoutTemplateHead + "{days}" + WorkoutTemplateTail
    ensures NoBraces(WorkoutTemplateHead) && NoBraces(WorkoutTemplateTail)
    ensures NoBraces(GreetingTemplate) && NoBraces(GoodbyeTemplate)
    ensures NoBraces(ExerciseTemplate) && NoBraces(UnknownTemplate)
  {
    WorkoutTemplateBraces();
    GreetingTemplatesBraces();
    ExerciseTemplateBraces();
    UnknownTemplateBraces();
  }

  // Each piece is checked in a lemma of its own (a literal costs the solver
  // in proportion to its length); the template then follows piece by piece.

  lemma WorkoutHeadPiece1() ensures NoBraces("I'll create a ") {}
  lemma WorkoutTailPiece1() ensures NoBraces("-day ") && NoBraces("workout") && NoBraces(" plan for you! ") {}
  lemma WorkoutTailPiece2() ensures NoBraces("Here's a balanced routine focusing on ") {}
  lemma WorkoutTailPiece3() ensures NoBraces("different muscle groups each day.") {}
  lemma GreetingPiece1() ensures NoBraces("Hello! I'm your fitness assistant. ") {}
  lemma GreetingPiece2() ensures NoBraces("How can I help you today?") {}
  lemma GoodbyePiece1() ensures NoBraces("Goodbye! Stay active and healthy!") {}
  lemma ExercisePiece1() ensures NoBraces("Here are some great exercises you can ") {}
  lemma ExercisePiece2() ensures NoBraces("try: squats, push-ups, pull-ups, ") {}
  lemma ExercisePiece3() ensures NoBraces("lunges, planks, and burpees. ") {}
  lemma ExercisePiece4() ensures NoBraces("Start with 3 sets of 10-15 reps each!") {}
  lemma UnknownPiece1() ensures NoBraces("I'm not sure I understood that. ") {}
  lemma UnknownPiece2() ensures NoBraces("Could you try rephrasing? ") {}
  lemma UnknownPiece3() ensures NoBraces("I can help with workout plans, ") {}
  lemma UnknownPiece4() ensures NoBraces("exercise recommendations, or just chat!") {}

  lemma WorkoutTemplateBraces()
    ensures NoBraces(WorkoutTemplateHead) && NoBraces(WorkoutTemplateTail)
  {
    WorkoutHeadPiece1();
    WorkoutTailPiece1();
    WorkoutTailPiece2();
    WorkoutTailPiece3();
  }

  lemma GreetingTemplatesBraces()
    ensures NoBraces(GreetingTemplate) && NoBraces(GoodbyeTemplate)
  {
    GreetingPiece1();
    GreetingPiece2();
    GoodbyePiece1();
  }

  lemma ExerciseTemplateBraces()
    ensures NoBraces(ExerciseTemplate)
  {
    ExercisePiece1();
    ExercisePiece2();
    ExercisePiece3();
    ExercisePiece4();
  }

  lemma UnknownTemplateBraces()
    ensures NoBraces(UnknownTemplate)
  {
    UnknownPiece1();
    UnknownPiece2();
    UnknownPiece3();
    UnknownPiece4();
  }
}
