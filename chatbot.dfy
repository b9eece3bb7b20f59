/** The chatbot pipeline: the training set flattened from the catalog, intent
    selection over a vector of similarity scores, day-count extraction with
    the pattern table, response rendering and the orchestration of the three. */
module Chatbot {
  import opened Text
  import opened Regex
  import opened ResponseTemplates
  import opened IntentData

  /** Scores strictly below this fall back to the unknown intent. */
  const Threshold: real := 0.3
  /** The day count used when the request names none. */
  const DefaultDays := 3
  const MinDays := 1
  const MaxDays := 7
  const EmptyInputReply := "Please say something!"

  // ---------------------------------------------------------------------------
  // The training set

  /** The phrases one catalog entry contributes: none for the fallback intent. */
  function EntryPhrases(entry: Intent): (phrases: seq<string>)
    ensures entry.name == Unknown ==> phrases == []
    ensures entry.name != Unknown ==> phrases == entry.phrases
  {
    if entry.name == Unknown then [] else entry.phrases
  }

  /** `n` copies of `name`. */
  function Repeat(name: string, n: nat): (r: seq<string>)
    ensures |r| == n && forall i :: 0 <= i < n ==> r[i] == name
  {
    if n == 0 then [] else Repeat(name, n - 1) + [name]
  }

  /** Every catalog entry's phrases, in catalog order: each training phrase
      is a phrase of some entry. */
  function TrainingPhrases(catalog: seq<Intent>): (phrases: seq<string>)
    ensures forall p :: p in phrases ==> exists e :: 0 <= e < |catalog| && p in EntryPhrases(catalog[e])
    decreases |catalog|
  {
    if |catalog| == 0 then []
    else
      var init := catalog[..|catalog| - 1];
      assert forall e :: 0 <= e < |init| ==> init[e] == catalog[e];
      TrainingPhrases(init) + EntryPhrases(catalog[|catalog| - 1])
  }

  /** No entry of the catalog contributes a phrase. */
  predicate NoPhrases(catalog: seq<Intent>) {
    forall e :: 0 <= e < |catalog| ==> EntryPhrases(catalog[e]) == []
  }

  /** The training set is empty exactly when no entry contributes a phrase:
      the case in which the chatbot fits no vectoriser and detects every
      input as the fallback. */
  lemma {:induction false} TrainingPhrasesEmpty(catalog: seq<Intent>)
    ensures TrainingPhrases(catalog) == [] <==> NoPhrases(catalog)
    decreases |catalog|
  {
    if catalog != [] {
      var init, last := catalog[..|catalog| - 1], catalog[|catalog| - 1];
      TrainingPhrasesEmpty(init);
      assert TrainingPhrases(catalog) == TrainingPhrases(init) + EntryPhrases(last);
      if NoPhrases(catalog) {
        forall e | 0 <= e < |init| ensures EntryPhrases(init[e]) == [] {
          assert init[e] == catalog[e];
        }
        assert EntryPhrases(catalog[|catalog| - 1]) == [];
      }
      if TrainingPhrases(catalog) == [] {
        assert |TrainingPhrases(init)| + |EntryPhrases(last)| == 0;
        forall e | 0 <= e < |catalog| ensures EntryPhrases(catalog[e]) == [] {
          if e < |init| {
            assert init[e] == catalog[e];
          } else {
            assert catalog[e] == last;
          }
        }
      }
    }
  }

  /** The owning intent of each training phrase, parallel to `TrainingPhrases`. */
  function TrainingIntents(catalog: seq<Intent>): (intents: seq<string>)
    ensures |intents| == |TrainingPhrases(catalog)|
    decreases |catalog|
  {
    if |catalog| == 0 then []
    else
      var last := catalog[|catalog| - 1];
      TrainingIntents(catalog[..|catalog| - 1]) + Repeat(last.name, |EntryPhrases(last)|)
  }

  /** Flattening one more entry appends its phrases and their owner. */
  lemma TrainingStep(catalog: seq<Intent>, e: nat)
    requires e < |catalog|
    ensures TrainingPhrases(catalog[..e + 1]) == TrainingPhrases(catalog[..e]) + EntryPhrases(catalog[e])
    ensures TrainingIntents(catalog[..e + 1])
            == TrainingIntents(catalog[..e]) + Repeat(catalog[e].name, |EntryPhrases(catalog[e])|)
  {
    assert catalog[..e + 1][..e] == catalog[..e];
  }

  /** Regrouping a concatenation of three sequences. */
  lemma AppendAssociates(x: seq<string>, y: seq<string>, z: seq<string>)
    ensures (x + y) + z == x + (y + z)
  {
  }

  /** Flattening distributes over joining two catalogs. */
  lemma {:induction false} PhrasesConcat(a: seq<Intent>, b: seq<Intent>)
    ensures TrainingPhrases(a + b) == TrainingPhrases(a) + TrainingPhrases(b)
    decreases |b|
  {
    if |b| == 0 {
      assert a + b == a;
      assert TrainingPhrases(a) + [] == TrainingPhrases(a);
    } else {
      var init, last := b[..|b| - 1], b[|b| - 1];
      var ab := a + b;
      assert ab[..|ab| - 1] == a + init;
      assert ab[|ab| - 1] == last;
      PhrasesConcat(a, init);
      var phrases := EntryPhrases(last);
      assert TrainingPhrases(ab) == TrainingPhrases(a + init) + phrases;
      assert TrainingPhrases(b) == TrainingPhrases(init) + phrases;
      AppendAssociates(TrainingPhrases(a), TrainingPhrases(init), phrases);
    }
  }

  /** The owners of the training phrases distribute over joining two catalogs. */
  lemma {:induction false} IntentsConcat(a: seq<Intent>, b: seq<Intent>)
    ensures TrainingIntents(a + b) == TrainingIntents(a) + TrainingIntents(b)
    decreases |b|
  {
    if |b| == 0 {
      assert a + b == a;
      assert TrainingIntents(a) + [] == TrainingIntents(a);
    } else {
      var init, last := b[..|b| - 1], b[|b| - 1];
      var ab := a + b;
      assert ab[..|ab| - 1] == a + init;
      assert ab[|ab| - 1] == last;
      IntentsConcat(a, init);
      var owners := Repeat(last.name, |EntryPhrases(last)|);
      assert TrainingIntents(ab) == TrainingIntents(a + init) + owners;
      assert TrainingIntents(b) == TrainingIntents(init) + owners;
      AppendAssociates(TrainingIntents(a), TrainingIntents(init), owners);
    }
  }

  /** Phrase `j` of entry `e` sits at offset `j` after the phrases of the
      entries before `e`, paired with `e`'s name: the flattening keeps catalog
      order and phrase order. */
  lemma TrainingAt(catalog: seq<Intent>, e: nat, j: nat)
    requires e < |catalog| && catalog[e].name != Unknown && j < |catalog[e].phrases|
    ensures |TrainingPhrases(catalog[..e])| + j < |TrainingPhrases(catalog)|
    ensures TrainingPhrases(catalog)[|TrainingPhrases(catalog[..e])| + j] == catalog[e].phrases[j]
    ensures TrainingIntents(catalog)[|TrainingPhrases(catalog[..e])| + j] == catalog[e].name
  {
    var pre, entry, post := catalog[..e], [catalog[e]], catalog[e + 1..];
    assert catalog == (pre + entry) + post;
    PhrasesConcat(pre + entry, post);
    PhrasesConcat(pre, entry);
    IntentsConcat(pre + entry, post);
    IntentsConcat(pre, entry);
    assert entry[..0] == [];
  }

  /** Every training phrase comes from some entry other than the fallback,
      and its owning intent is that entry's name. */
  lemma {:induction false} TrainingOrigin(catalog: seq<Intent>, i: nat)
    requires i < |TrainingPhrases(catalog)|
    ensures exists e, j :: 0 <= e < |catalog| && catalog[e].name != Unknown && 0 <= j < |catalog[e].phrases|
                           && TrainingPhrases(catalog)[i] == catalog[e].phrases[j]
                           && TrainingIntents(catalog)[i] == catalog[e].name
    decreases |catalog|
  {
    var init := catalog[..|catalog| - 1];
    var last := catalog[|catalog| - 1];
    if i < |TrainingPhrases(init)| {
      TrainingOrigin(init, i);
      var e, j :| 0 <= e < |init| && init[e].name != Unknown && 0 <= j < |init[e].phrases|
                  && TrainingPhrases(init)[i] == init[e].phrases[j]
                  && TrainingIntents(init)[i] == init[e].name;
      assert catalog[e] == init[e];
    } else {
      var j := i - |TrainingPhrases(init)|;
      assert TrainingPhrases(catalog)[i] == last.phrases[j];
      assert TrainingIntents(catalog)[i] == last.name;
    }
  }

  /** No training phrase is owned by the fallback intent. */
  lemma TrainingIntentsKnown(catalog: seq<Intent>)
    ensures forall i :: 0 <= i < |TrainingIntents(catalog)| ==> TrainingIntents(catalog)[i] != Unknown
  {
    forall i | 0 <= i < |TrainingIntents(catalog)| ensures TrainingIntents(catalog)[i] != Unknown {
      TrainingOrigin(catalog, i);
    }
  }

  /** The catalog's training set: 46 phrases, none of them owned by the fallback. */
  lemma CatalogTraining()
    ensures |TrainingPhrases(IntentCatalog)| == 46
    ensures Unknown !in TrainingIntents(IntentCatalog)
  {
    var c := IntentCatalog;
    TrainingIntentsKnown(c);
    assert c[..1][..0] == [];
    assert |TrainingPhrases(c[..1])| == 11;
    assert c[..2][..1] == c[..1];
    assert |TrainingPhrases(c[..2])| == 21;
    assert c[..3][..2] == c[..2];
    assert |TrainingPhrases(c[..3])| == 38;
    assert c[..4][..3] == c[..3];
    assert |TrainingPhrases(c[..4])| == 46;
    assert c[..4] == c[..|c| - 1];
  }

  // ---------------------------------------------------------------------------
  // Intent selection over similarity scores

  /** `k` is the first index holding the maximum of `s` (what `np.argmax` returns). */
  ghost predicate IsFirstMax(s: seq<real>, k: int) {
    && 0 <= k < |s|
    && (forall j :: 0 <= j < |s| ==> s[j] <= s[k])
    && (forall j :: 0 <= j < k ==> s[j] < s[k])
  }

  /** `np.argmax`: the first index of the largest score. */
  function ArgMax(s: seq<real>): (k: nat)
    requires s != []
    ensures IsFirstMax(s, k)
    decreases |s|
  {
    if |s| == 1 then 0
    else
      var k := ArgMax(s[..|s| - 1]);
      if s[|s| - 1] > s[k] then |s| - 1 else k
  }

  /** The selection rule: the owner of the best-scoring phrase, ties going to
      the earlier phrase, unless the best score is below the threshold. */
  function SelectIntent(intents: seq<string>, scores: seq<real>): (intent: string)
    requires |scores| == |intents|
    ensures intents == [] ==> intent == Unknown
    ensures forall k :: IsFirstMax(scores, k) ==>
              intent == (if scores[k] < Threshold then Unknown else intents[k])
  {
    if intents == [] then Unknown
    else
      var k := ArgMax(scores);
      if scores[k] < Threshold then Unknown else intents[k]
  }

  /** A result other than the fallback is the owner of a phrase scoring at
      least the threshold, and no phrase scores higher. */
  lemma SelectedIsBest(intents: seq<string>, scores: seq<real>)
    requires |scores| == |intents|
    requires SelectIntent(intents, scores) != Unknown
    ensures exists k :: 0 <= k < |intents| && intents[k] == SelectIntent(intents, scores)
                        && scores[k] >= Threshold
                        && forall j :: 0 <= j < |scores| ==> scores[j] <= scores[k]
  {
    var k := ArgMax(scores);
    assert IsFirstMax(scores, k);
  }

  // ---------------------------------------------------------------------------
  // Day counts

  /** `min(max(n, 1), 7)`. */
  function Clamp(n: int): (r: int)
    ensures MinDays <= r <= MaxDays
    ensures MinDays <= n <= MaxDays ==> r == n
    ensures n < MinDays ==> r == MinDays
    ensures n > MaxDays ==> r == MaxDays
  {
    if n < MinDays then MinDays else if n > MaxDays then MaxDays else n
  }

  /** The value of the first pattern, in order, that `re.search` finds in `s`:
      its captured digits read as a number and clamped to a week. */
  function DaysFrom(patterns: seq<Pattern>, s: string): (days: Option<int>)
    ensures days.None? <==> forall k :: 0 <= k < |patterns| ==> Search(patterns[k], s).None?
    ensures days.Some? ==> MinDays <= days.value <= MaxDays
    decreases |patterns|
  {
    if patterns == [] then None
    else match Search(patterns[0], s)
      case Some(f) => Some(Clamp(GroupValue(s, f)))
      case None =>
        var rest := DaysFrom(patterns[1..], s);
        assert forall k :: 1 <= k < |patterns| ==> patterns[k] == patterns[1..][k - 1];
        rest
  }

  /** The first pattern that matches decides the value: its captured digits,
      clamped; the patterns after it are not consulted. */
  lemma {:induction false} DaysFromFirstMatch(patterns: seq<Pattern>, s: string, k: nat)
    requires k < |patterns| && Search(patterns[k], s).Some?
    requires forall j :: 0 <= j < k ==> Search(patterns[j], s).None?
    ensures DaysFrom(patterns, s) == Some(Clamp(GroupValue(s, Search(patterns[k], s).value)))
    decreases k
  {
    if k > 0 {
      assert forall j :: 0 <= j < k - 1 ==> patterns[1..][j] == patterns[j + 1];
      DaysFromFirstMatch(patterns[1..], s, k - 1);
    }
  }

  /** One step of the pattern scan: the first remaining pattern decides if it
      matches, and is skipped otherwise. */
  lemma DaysFromStep(patterns: seq<Pattern>, k: nat, s: string)
    requires k < |patterns|
    ensures Search(patterns[k], s).Some? ==>
              DaysFrom(patterns[k..], s) == Some(Clamp(GroupValue(s, Search(patterns[k], s).value)))
    ensures Search(patterns[k], s).None? ==> DaysFrom(patterns[k..], s) == DaysFrom(patterns[k + 1..], s)
  {
    assert patterns[k..][0] == patterns[k];
    assert patterns[k..][1..] == patterns[k + 1..];
  }

  /** Each of the longer day patterns only matches where `(\d+)\s*day` matches
      too, at the same or an earlier position and no later than the digits it
      captures. */
  lemma DaysPatternCovers(k: nat, s: string)
    requires 1 <= k < |DaysPatterns| && Search(DaysPatterns[k], s).Some?
    ensures Search(DaysPattern, s).Some?
    ensures Search(DaysPattern, s).value.start <= Search(DaysPatterns[k], s).value.groupStart
  {
    var p := DaysPatterns[k];
    var f := Search(p, s).value;
    if k <= 3 {
      var extra := if k == 1 then [Spaces] + Word("split")
                   else if k == 2 then [Spaces] + Word("plan")
                   else [Spaces] + Word("routine");
      assert p == Pattern(DaysPattern.prefix, DaysPattern.suffix + extra);
      MatchAtLongerSuffix(DaysPattern, extra, s, f.start);
      SearchFindsMatch(DaysPattern, s, f.start);
    } else {
      MatchAtDropPrefix(p, s, f.start);
      WordAppend("day", "s");
      assert Pattern([], p.suffix) == Pattern(DaysPattern.prefix, DaysPattern.suffix + Word("s"));
      MatchAtLongerSuffix(DaysPattern, Word("s"), s, f.groupStart);
      SearchFindsMatch(DaysPattern, s, f.groupStart);
    }
  }

  /** The first pattern of the table alone decides the extracted day count. */
  lemma FirstDaysPatternDecides(s: string)
    ensures DaysFrom(DaysPatterns, s) == DaysFrom([DaysPattern], s)
  {
    if Search(DaysPattern, s).None? {
      forall k | 1 <= k < |DaysPatterns| ensures Search(DaysPatterns[k], s).None? {
        if Search(DaysPatterns[k], s).Some? {
          DaysPatternCovers(k, s);
        }
      }
    }
  }

  /** What `(\d+)\s*day` captures: a whole run of digits (nothing digit-like
      just before or after it) followed by optional white space and `day`,
      and the leftmost such run. */
  lemma DaysPatternCapturesRun(s: string)
    requires Search(DaysPattern, s).Some?
    ensures var f := Search(DaysPattern, s).value;
            && f.start == f.groupStart < f.groupEnd
            && (f.groupStart == 0 || !IsDigit(s[f.groupStart - 1]))
            && (f.groupEnd == |s| || !IsDigit(s[f.groupEnd]))
            && Contains(s[f.groupEnd..], "day")
  {
    var f := Search(DaysPattern, s).value;
    var i := f.start;
    var g := f.groupEnd;
    if i > 0 && IsDigit(s[i - 1]) {
      MatchExtendsLeft(DaysPattern, s, i);
      assert false;
    }
    DaySuffix(s, g);
  }

  /** Where the suffix of `(\d+)\s*day` matches, `day` follows. */
  lemma DaySuffix(s: string, g: nat)
    requires g <= |s| && MatchAtoms([Spaces] + Word("day"), s, g).Some?
    ensures Contains(s[g..], "day")
  {
    var e := SkipSpaces(s, g);
    MatchAtomsAppend([Spaces], Word("day"), s, g);
    WordMatches("day", s, e);
    assert OccursAt(s[g..], "day", e - g) by {
      assert s[g..][e - g..e - g + 3] == s[e..e + 3];
    }
  }

  /** A request whose first digits form a run followed by optional white
      space and `day` asks for that many days, clamped to a week. */
  lemma {:induction false} DaysOfRequest(pre: string, digits: string, spaces: string, rest: string)
    requires forall i :: 0 <= i < |pre| ==> !IsDigit(pre[i])
    requires digits != [] && AllDigits(digits)
    requires forall i :: 0 <= i < |spaces| ==> IsPySpace(spaces[i])
    ensures DaysFrom(DaysPatterns, pre + digits + spaces + "day" + rest) == Some(Clamp(ParseDigits(digits)))
  {
    var s := pre + digits + spaces + "day" + rest;
    var a, b := |pre|, |pre| + |digits|;
    DaysPatternMatchesRequest(pre, digits, spaces, rest);
    assert s[a..b] == digits;
    forall j | 0 <= j < a ensures MatchAt(DaysPattern, s, j).None? {
      assert s[j] == pre[j];
    }
    SearchFindsMatch(DaysPattern, s, a);
    var f := Search(DaysPattern, s).value;
    assert f.start == a;
    assert GroupValue(s, f) == ParseDigits(digits);
    assert [DaysPattern][0] == DaysPattern;
    DaysFromFirstMatch([DaysPattern], s, 0);
    FirstDaysPatternDecides(s);
  }

  /** `(\d+)\s*day` matches such a request where its digits start, and its
      group is exactly those digits. */
  lemma DaysPatternMatchesRequest(pre: string, digits: string, spaces: string, rest: string)
    requires digits != [] && AllDigits(digits)
    requires forall i :: 0 <= i < |spaces| ==> IsPySpace(spaces[i])
    ensures var s := pre + digits + spaces + "day" + rest;
            var a, b := |pre|, |pre| + |digits|;
            MatchAt(DaysPattern, s, a) == Some(Found(a, b + |spaces| + 3, a, b))
  {
    var s := pre + digits + spaces + "day" + rest;
    var a, b := |pre|, |pre| + |digits|;
    var c := b + |spaces|;
    assert s[a..b] == digits;
    assert s[c..c + 3] == "day";
    assert s[c] == 'd';
    SkipDigitsRun(s, a, b);
    assert SpacesBetween(s, b, c);
    SkipSpacesFrom(s, b, c);
    assert SkipSpaces(s, c) == c;
    WordOccurs("day", s, c);
    MatchAtomsAppend([Spaces], Word("day"), s, b);
  }

  // The day counts of a few requests, around any text without digits.

  /** A count above a week is capped at seven. */
  lemma TenDayPlanDays(pre: string, rest: string)
    requires forall i :: 0 <= i < |pre| ==> !IsDigit(pre[i])
    ensures DaysFrom(DaysPatterns, pre + "10" + " " + "day" + rest) == Some(7)
  {
    DaysOfRequest(pre, "10", " ", rest);
    assert ParseDigits("10") == 10 by { assert "10"[..1] == "1"; }
  }

  /** A count of zero is raised to one. */
  lemma ZeroDayDays(pre: string, rest: string)
    requires forall i :: 0 <= i < |pre| ==> !IsDigit(pre[i])
    ensures DaysFrom(DaysPatterns, pre + "0" + "" + "day" + rest) == Some(1)
  {
    DaysOfRequest(pre, "0", "", rest);
    assert ParseDigits("0") == 0 by { assert "0"[..0] == []; }
  }

  /** A count within a week is kept as asked. */
  lemma ThreeDayWorkoutDays(pre: string, rest: string)
    requires forall i :: 0 <= i < |pre| ==> !IsDigit(pre[i])
    ensures DaysFrom(DaysPatterns, pre + "3" + " " + "day" + rest) == Some(3)
  {
    DaysOfRequest(pre, "3", " ", rest);
    assert ParseDigits("3") == 3 by { assert "3"[..0] == []; }
  }

  /** A zero-padded count reads as the count itself. */
  lemma PaddedDayDays(pre: string, rest: string)
    requires forall i :: 0 <= i < |pre| ==> !IsDigit(pre[i])
    ensures DaysFrom(DaysPatterns, pre + "03" + " " + "day" + rest) == Some(3)
  {
    DaysOfRequest(pre, "03", " ", rest);
    ParseDigitsLeadingZeros("0", "3");
    assert "0" + "3" == "03";
    assert ParseDigits("3") == 3 by { assert "3"[..0] == []; }
  }

  /** A request without digits names no count. */
  lemma PlainWorkoutDays()
    ensures DaysFrom(DaysPatterns, "give me a " + "workout") == None
  {
    NoDigitsNoDays(DaysPatterns, "give me a " + "workout");
  }

  /** Without a digit nothing matches, so no day count is extracted. */
  lemma NoDigitsNoDays(patterns: seq<Pattern>, s: string)
    requires forall i :: 0 <= i < |s| ==> !IsDigit(s[i])
    ensures DaysFrom(patterns, s).None?
  {
    forall k, j | 0 <= k < |patterns| && 0 <= j <= |s| ensures MatchAt(patterns[k], s, j).None? {
      if MatchAt(patterns[k], s, j).Some? {
        assert false;
      }
    }
  }

  // ---------------------------------------------------------------------------
  // Rendering

  /** The day-by-day focus of the fixed three-, four- and five-day splits. */
  const ThreeDaySplit := ["Push (chest, shoulders, triceps)", "Pull (back, biceps)", "Legs (quads, hamstrings, calves)"]
  const FourDaySplit := ["Chest & Triceps", "Back & Biceps", "Shoulders", "Legs"]
  const FiveDaySplit := ["Chest", "Back", "Shoulders", "Arms", "Legs"]

  /** `Day <n>: <focus>` */
  function DayLine(n: nat, focus: string): string {
    "Day " + NatToString(n) + ": " + focus
  }

  /** One line per focus, each preceded by a line break, numbered from `first`. */
  function DayLines(foci: seq<string>, first: nat): string
    decreases |foci|
  {
    if foci == [] then [] else "\n" + DayLine(first, foci[0]) + DayLines(foci[1..], first + 1)
  }

  /** A blank line, then the numbered days of a split. */
  function Breakdown(foci: seq<string>): string {
    "\n" + DayLines(foci, 1)
  }

  /** The text appended after the formatted workout template. Its ensures
      list the lookup case by case; `DayLinesMention` proves that each split
      names every one of its days on a numbered line, and the page's lemmas
      `ChatUi.DayThreeLine` and `ChatUi.RepliesShowRequestedPlan` what the
      page makes of these texts. */
  function Elaboration(days: int): (text: string)
    ensures days == 3 ==> text == Breakdown(ThreeDaySplit)
    ensures days == 4 ==> text == Breakdown(FourDaySplit)
    ensures days == 5 ==> text == Breakdown(FiveDaySplit)
    ensures days !in {3, 4, 5} ==>
              text == "\n\nI'll create a " + IntToString(days) + "-day split focusing on different muscle groups each day."
  {
    if days == 3 then Breakdown(ThreeDaySplit)
    else if days == 4 then Breakdown(FourDaySplit)
    else if days == 5 then Breakdown(FiveDaySplit)
    else "\n\nI'll create a " + IntToString(days) + "-day split focusing on different muscle groups each day."
  }

  /** Every day of a split appears as its own numbered line. */
  lemma {:induction false} DayLinesMention(foci: seq<string>, first: nat, i: nat)
    requires i < |foci|
    ensures Contains(DayLines(foci, first), "\n" + DayLine(first + i, foci[i]))
    decreases |foci|
  {
    var rest := DayLines(foci[1..], first + 1);
    if i == 0 {
      ContainsWitness([], "\n" + DayLine(first, foci[0]), rest);
      assert [] + ("\n" + DayLine(first, foci[0])) + rest == DayLines(foci, first);
    } else {
      DayLinesMention(foci[1..], first + 1, i - 1);
      ContainsSuffix("\n" + DayLine(first, foci[0]), rest, "\n" + DayLine(first + i, foci[i]));
    }
  }

  /** The reply to a workout request for `days` days: the workout template
      formatted with the decimal count, then the elaboration for that count. */
  function WorkoutReply(days: int): (reply: string)
    ensures reply == FormatField(WorkoutTemplate, "days", IntToString(days)) + Elaboration(days)
  {
    FormatWorkoutTemplate(days);
    WorkoutTemplateHead + IntToString(days) + WorkoutTemplateTail + Elaboration(days)
  }

  /** Formatting the workout template puts the decimal day count where the
      placeholder was and changes nothing else. */
  lemma FormatWorkoutTemplate(days: int)
    ensures FormatField(WorkoutTemplate, "days", IntToString(days))
            == WorkoutTemplateHead + IntToString(days) + WorkoutTemplateTail
  {
    CatalogTemplates();
    assert "{" + "days" + "}" == "{days}";
    ReplaceAllSingle(WorkoutTemplateHead, "{days}", WorkoutTemplateTail, IntToString(days));
  }

  // ---------------------------------------------------------------------------
  // Parameters

  /** The parameters extracted for `intent` when the day patterns yield `days`. */
  function ParametersFor(intent: string, days: Option<int>): (parameters: map<string, int>)
    ensures intent != RequestWorkout ==> parameters == map[]
    ensures intent == RequestWorkout ==> parameters.Keys == {"days"}
    ensures intent == RequestWorkout && days.Some? && days.value != 0 ==> parameters["days"] == days.value
    ensures intent == RequestWorkout && (days.None? || days.value == 0) ==> parameters["days"] == DefaultDays
  {
    if intent != RequestWorkout then map[]
    else if days.Some? && days.value != 0 then map["days" := days.value]
    else map["days" := DefaultDays]
  }

  /** The day count a workout request ends up with, as a function of its text. */
  function RequestedDays(s: string): (days: int)
    ensures MinDays <= days <= MaxDays
    ensures DaysFrom(DaysPatterns, Lower(s)).None? ==> days == DefaultDays
    ensures DaysFrom(DaysPatterns, Lower(s)).Some? ==> days == DaysFrom(DaysPatterns, Lower(s)).value
  {
    ParametersFor(RequestWorkout, DaysFrom(DaysPatterns, Lower(s)))["days"]
  }

  /** The chatbot: the catalog and pattern table it was built with, the
      similarity scorer standing for the fitted TF-IDF vectoriser, and the
      training set. */
  class FitnessChatbot {
    const intentData: seq<Intent>
    const parameterPatterns: map<string, seq<Pattern>>
    /** Similarities of a (lower-cased) input to each training phrase, in order. */
    const score: string -> seq<real>
    var trainingPhrases: seq<string>
    var trainingIntents: seq<string>

    ghost predicate Valid()
      reads this
    {
      && intentData == IntentCatalog
      && parameterPatterns == ParameterPatterns
      && trainingPhrases == TrainingPhrases(intentData)
      && trainingIntents == TrainingIntents(intentData)
      && forall q :: |score(q)| == |trainingPhrases|
    }

    constructor(score: string -> seq<real>)
      requires forall q :: |score(q)| == |TrainingPhrases(IntentCatalog)|
      ensures Valid() && this.score == score
    {
      intentData := GetIntentData();
      parameterPatterns := GetParameterPatterns();
      this.score := score;
      new;
      PrepareTrainingData();
    }

    /** Flattens the catalog into the training phrases and their intents. */
    method PrepareTrainingData()
      modifies this
      ensures trainingPhrases == TrainingPhrases(intentData)
      ensures trainingIntents == TrainingIntents(intentData)
    {
      trainingPhrases := [];
      trainingIntents := [];
      var e := 0;
      while e < |intentData|
        invariant 0 <= e <= |intentData|
        invariant trainingPhrases == TrainingPhrases(intentData[..e])
        invariant trainingIntents == TrainingIntents(intentData[..e])
      {
        AddEntry(intentData[e]);
        TrainingStep(intentData, e);
        e := e + 1;
      }
      assert intentData[..e] == intentData;
    }

    /** The inner loop of the flattening: appends one entry's phrases, each
        paired with the entry's name; the fallback intent adds nothing. */
    method AddEntry(entry: Intent)
      modifies this
      ensures trainingPhrases == old(trainingPhrases) + EntryPhrases(entry)
      ensures trainingIntents == old(trainingIntents) + Repeat(entry.name, |EntryPhrases(entry)|)
    {
      if entry.name != Unknown {
        var j := 0;
        while j < |entry.phrases|
          invariant 0 <= j <= |entry.phrases|
          invariant trainingPhrases == old(trainingPhrases) + entry.phrases[..j]
          invariant trainingIntents == old(trainingIntents) + Repeat(entry.name, j)
        {
          trainingPhrases := trainingPhrases + [entry.phrases[j]];
          trainingIntents := trainingIntents + [entry.name];
          assert entry.phrases[..j + 1] == entry.phrases[..j] + [entry.phrases[j]];
          j := j + 1;
        }
        assert entry.phrases[..j] == entry.phrases;
      }
    }

    /** `detect_intent`: the selection rule over the scores of the lower-cased input. */
    function DetectIntent(userInput: string): (intent: string)
      reads this
      requires Valid()
      ensures trainingPhrases == [] ==> intent == Unknown
      ensures trainingPhrases != [] ==>
                var scores := score(Lower(userInput));
                forall k :: IsFirstMax(scores, k) ==>
                  intent == (if scores[k] < Threshold then Unknown else trainingIntents[k])
    {
      if trainingPhrases == [] then Unknown
      else SelectIntent(trainingIntents, score(Lower(userInput)))
    }

    /** `extract_days`: the patterns in order on the lower-cased input; the
        first that matches gives the clamped number. */
    method ExtractDays(userInput: string) returns (days: Option<int>)
      requires Valid()
      ensures days == DaysFrom(DaysPatterns, Lower(userInput))
      ensures days.None? <==> forall k :: 0 <= k < |DaysPatterns| ==> Search(DaysPatterns[k], Lower(userInput)).None?
      ensures days.Some? ==> MinDays <= days.value <= MaxDays
    {
      var text := Lower(userInput);
      var patterns := parameterPatterns["days"];
      var k := 0;
      while k < |patterns|
        invariant 0 <= k <= |patterns|
        invariant DaysFrom(patterns, text) == DaysFrom(patterns[k..], text)
      {
        DaysFromStep(patterns, k, text);
        var m := Search(patterns[k], text);
        if m.Some? {
          days := Some(Clamp(GroupValue(text, m.value)));
          return;
        }
        k := k + 1;
      }
      days := None;
    }

    /** `extract_parameters`: the day count for a workout request, 3 when the
        request names none; nothing for any other intent. */
    method ExtractParameters(userInput: string, intent: string) returns (parameters: map<string, int>)
      requires Valid()
      ensures parameters == ParametersFor(intent, DaysFrom(DaysPatterns, Lower(userInput)))
      ensures intent == RequestWorkout ==> parameters == map["days" := RequestedDays(userInput)]
    {
      parameters := map[];
      if intent == RequestWorkout {
        var days := ExtractDays(userInput);
        if days.Some? && days.value != 0 {
          parameters := parameters["days" := days.value];
        } else {
          parameters := parameters["days" := DefaultDays];
        }
      }
    }

    /** `generate_response`: the template of the intent (the fallback's when
        the intent is not in the catalog), formatted and elaborated for a
        workout request that carries parameters. */
    function GenerateResponse(intent: string, parameters: Option<map<string, int>>): (response: string)
      reads this
      requires Valid()
      ensures !HasIntent(intentData, intent) ==> response == UnknownTemplate
      ensures HasIntent(intentData, intent) && intent != RequestWorkout ==> response == TemplateOf(IntentCatalog, intent)
      ensures intent == RequestWorkout && (parameters.None? || parameters.value == map[]) ==> response == WorkoutTemplate
      ensures intent == RequestWorkout && parameters.Some? && parameters.value != map[] ==>
                var days := if "days" in parameters.value then parameters.value["days"] else DefaultDays;
                response == WorkoutReply(days)
    {
      CatalogTemplateOf();
      var known := if HasIntent(intentData, intent) then intent else Unknown;
      var template := TemplateOf(intentData, known);
      if parameters.Some? && parameters.value != map[] && known == RequestWorkout then
        var days := if "days" in parameters.value then parameters.value["days"] else DefaultDays;
        FormatWorkoutTemplate(days);
        FormatField(template, "days", IntToString(days)) + Elaboration(days)
      else
        template
    }

    /** `process_input`: strip and lower-case the input; an empty result gets
        the prompt, anything else is classified, its parameters extracted and
        the response rendered. */
    method ProcessInput(userInput: string) returns (response: string)
      requires Valid()
      ensures var s := Lower(Strip(userInput, IsPySpace));
              && (s == [] ==> response == EmptyInputReply)
              && (s != [] ==> response == GenerateResponse(DetectIntent(s), Some(ParametersFor(DetectIntent(s), DaysFrom(DaysPatterns, s)))))
      ensures (forall k :: 0 <= k < |userInput| ==> IsPySpace(userInput[k])) ==> response == EmptyInputReply
      ensures var s := Lower(Strip(userInput, IsPySpace));
              s != [] && DetectIntent(s) == RequestWorkout ==> response == WorkoutReply(RequestedDays(s))
    {
      var s := Lower(Strip(userInput, IsPySpace));
      StripEmptyIff(userInput, IsPySpace);
      if s == [] {
        return EmptyInputReply;
      }
      var intent := DetectIntent(s);
      var parameters := ExtractParameters(s, intent);
      LowerIdempotent(Strip(userInput, IsPySpace));
      response := GenerateResponse(intent, Some(parameters));
      if intent == RequestWorkout {
        var days := RequestedDays(s);
        assert parameters == map["days" := days];
        assert "days" in parameters && parameters != map[];
        assert response == WorkoutReply(days);
      }
    }
  }

  /** The fallback is in the catalog, and the workout and fallback entries
      carry the workout and fallback templates. */
  lemma CatalogTemplateOf()
    ensures HasIntent(IntentCatalog, Unknown) && HasIntent(IntentCatalog, RequestWorkout)
    ensures TemplateOf(IntentCatalog, RequestWorkout) == WorkoutTemplate
    ensures TemplateOf(IntentCatalog, Unknown) == UnknownTemplate
  {
    CatalogShape();
    assert IntentCatalog[2].name == RequestWorkout;
    assert IntentCatalog[4].name == Unknown;
  }
}
