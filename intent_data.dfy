/** The chatbot's static tables: the intent catalog (training phrases and a
    response template per intent, in declaration order) and the parameter
    pattern table, with the invariants the pipeline relies on. */
module IntentData {
  import opened Text
  import opened Regex
  import opened ResponseTemplates

  /** One entry of the intent catalog. */
  datatype Intent = Intent(name: string, phrases: seq<string>, responseTemplate: string)

  const Greeting := "greeting"
  const Goodbye := "goodbye"
  const RequestWorkout := "request_workout"
  const RequestExercise := "request_exercise"
  const Unknown := "unknown"

  /** The intent catalog, in the order the dictionary declares it. */
  const IntentCatalog: seq<Intent> := [
    Intent(Greeting, [
      "hello", "hi", "hey", "hi there", "hello there", "good morning",
      "good afternoon", "good evening", "what's up", "how are you", "greetings"
    ], GreetingTemplate),
    Intent(Goodbye, [
      "bye", "goodbye", "see you", "see you later", "see ya", "take care",
      "farewell", "until next time", "goodbye for now", "bye bye"
    ], GoodbyeTemplate),
    Intent(RequestWorkout, [
      "give me a workout", "I want a workout", "create a workout plan", "I need a workout",
      "workout plan", "fitness routine", "exercise plan", "training program", "workout routine",
      "give me a {days} day workout", "I want a {days} day split", "create a {days} day plan",
      "{days} day workout plan", "{days} day split", "{days} day routine",
      "workout for {days} days", "plan for {days} days"
    ], WorkoutTemplate),
    Intent(RequestExercise, [
      "what exercises should I do", "recommend exercises", "suggest exercises", "what workouts",
      "exercise recommendations", "workout suggestions", "fitness exercises", "training exercises"
    ], ExerciseTemplate),
    Intent(Unknown, [], UnknownTemplate)
  ]

  /** `(\d+)\s*day` */
  const DaysPattern := Pattern([], [Spaces] + Word("day"))
  /** `(\d+)\s*day\s*split` */
  const DaysSplitPattern := Pattern([], [Spaces] + Word("day") + [Spaces] + Word("split"))
  /** `(\d+)\s*day\s*plan` */
  const DaysPlanPattern := Pattern([], [Spaces] + Word("day") + [Spaces] + Word("plan"))
  /** `(\d+)\s*day\s*routine` */
  const DaysRoutinePattern := Pattern([], [Spaces] + Word("day") + [Spaces] + Word("routine"))
  /** `workout\s*for\s*(\d+)\s*days` */
  const WorkoutForDaysPattern := Pattern(Word("workout") + [Spaces] + Word("for") + [Spaces], [Spaces] + Word("days"))
  /** `plan\s*for\s*(\d+)\s*days` */
  const PlanForDaysPattern := Pattern(Word("plan") + [Spaces] + Word("for") + [Spaces], [Spaces] + Word("days"))

  const DaysPatterns: seq<Pattern> := [
    DaysPattern, DaysSplitPattern, DaysPlanPattern, DaysRoutinePattern,
    WorkoutForDaysPattern, PlanForDaysPattern
  ]

  /** The parameter pattern table: parameter name to its patterns, tried in order. */
  const ParameterPatterns: map<string, seq<Pattern>> := map["days" := DaysPatterns]

  /** `name` is a key of the catalog. */
  predicate HasIntent(catalog: seq<Intent>, name: string) {
    exists e :: 0 <= e < |catalog| && catalog[e].name == name
  }

  /** The template of the first entry named `name` (dictionary keys are unique). */
  function TemplateOf(catalog: seq<Intent>, name: string): (t: string)
    requires HasIntent(catalog, name)
    ensures exists e :: 0 <= e < |catalog| && catalog[e].name == name && catalog[e].responseTemplate == t
  {
    if catalog[0].name == name then catalog[0].responseTemplate
    else TemplateOf(catalog[1..], name)
  }

  /** What the pipeline needs of a catalog: unique names, a fallback intent
      without phrases, and phrases for every other intent. */
  ghost predicate WellFormedCatalog(catalog: seq<Intent>) {
    && (forall e, f :: 0 <= e < f < |catalog| ==> catalog[e].name != catalog[f].name)
    && HasIntent(catalog, Unknown)
    && (forall e :: 0 <= e < |catalog| ==> (catalog[e].phrases == [] <==> catalog[e].name == Unknown))
  }

  /** `get_intent_data()`: the catalog, which is well formed. */
  function GetIntentData(): (data: seq<Intent>)
    ensures data == IntentCatalog
    ensures WellFormedCatalog(data)
    ensures |data| == 5
  {
    CatalogShape();
    IntentCatalog
  }

  /** `get_parameter_patterns()`: the pattern table, six day patterns in order. */
  function GetParameterPatterns(): (patterns: map<string, seq<Pattern>>)
    ensures patterns == ParameterPatterns
    ensures patterns.Keys == {"days"} && |patterns["days"]| == 6
    ensures forall k :: 0 <= k < 6 ==> Deterministic(patterns["days"][k])
  {
    DaysPatternsDeterministic();
    ParameterPatterns
  }

  /** Five intents in declaration order; only the fallback has no phrases. */
  lemma CatalogShape()
    ensures |IntentCatalog| == 5
    ensures [IntentCatalog[0].name, IntentCatalog[1].name, IntentCatalog[2].name, IntentCatalog[3].name, IntentCatalog[4].name]
            == [Greeting, Goodbye, RequestWorkout, RequestExercise, Unknown]
    ensures WellFormedCatalog(IntentCatalog)
  {
    assert IntentCatalog[4].name == Unknown;
  }

  lemma DaysPatternsDeterministic()
    ensures forall k :: 0 <= k < |DaysPatterns| ==> Deterministic(DaysPatterns[k])
  {
    PlainWords();
    SpacedWordPlain("day", []);
    SpacedWordPlain("split", [Spaces] + Word("day"));
    SpacedWordPlain("plan", [Spaces] + Word("day"));
    SpacedWordPlain("routine", [Spaces] + Word("day"));
    SpacedWordPlain("days", []);
    SpacedWordPlain("for", Word("workout"));
    SpacedWordPlain("for", Word("plan"));
    assert PlainAtoms([Spaces]);
    PlainConcat(Word("workout") + [Spaces] + Word("for"), [Spaces]);
    PlainConcat(Word("plan") + [Spaces] + Word("for"), [Spaces]);
  }

  /** Only lower-case letters. */
  predicate LowerWord(w: string) {
    forall i :: 0 <= i < |w| ==> 'a' <= w[i] <= 'z'
  }

  lemma PlainWords()
    ensures LowerWord("day") && LowerWord("days") && LowerWord("split") && LowerWord("plan")
    ensures LowerWord("routine") && LowerWord("workout") && LowerWord("for")
  {
  }

  lemma PlainConcat(a: seq<Atom>, b: seq<Atom>)
    requires PlainAtoms(a) && PlainAtoms(b)
    ensures PlainAtoms(a + b)
  {
    forall i | 0 <= i < |a + b| && (a + b)[i].Char?
      ensures !IsPySpace((a + b)[i].c) && !IsDigit((a + b)[i].c)
    {
      if i >= |a| {
        assert (a + b)[i] == b[i - |a|];
      }
    }
  }

  /** Atoms `before`, then `\s*`, then a lower-case word, have plain literals
      and end with a literal. */
  lemma SpacedWordPlain(w: string, before: seq<Atom>)
    requires LowerWord(w) && w != [] && PlainAtoms(before)
    ensures PlainAtoms(before + [Spaces] + Word(w))
    ensures (before + [Spaces] + Word(w))[|before + [Spaces] + Word(w)| - 1].Char?
  {
    assert PlainAtoms([Spaces]);
    assert PlainAtoms(Word(w));
    PlainConcat(before, [Spaces]);
    PlainConcat(before + [Spaces], Word(w));
  }
}
