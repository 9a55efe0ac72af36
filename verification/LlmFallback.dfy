/** The rehabilitation AI service's OpenAI client (openai_client.py), reduced to
    what it does without the model: the deterministic fallbacks it returns when
    the client is disabled (no API key) or the call raises.

    The call to the model is a parameter: `Disabled` when the client has no
    key, `Raised` when the request (or decoding its answer) throws, and
    `Answered` with the decoded content otherwise. */
module LlmFallback {
  import opened Wrappers
  import Text

  datatype LlmCall<T> = Disabled | Raised(message: string) | Answered(content: T)

  /** get_chat_completion: "" when disabled, the stripped answer, or the
      exception passed on to the caller. */
  function ChatCompletion(call: LlmCall<string>): (r: Result<string, string>)
    ensures call.Disabled? ==> r == Success("")
    ensures call.Raised? <==> r.Failure?
    ensures call.Answered? ==> r == Success(Text.Strip(call.content))
  {
    match call
    case Disabled => Success("")
    case Raised(message) => Failure(message)
    case Answered(content) => Success(Text.Strip(content))
  }

  /** A disabled client and an answer of nothing but whitespace look the same to
      the caller: both complete with "". */
  lemma BlankAnswerLooksDisabled(content: string)
    ensures (ChatCompletion(Answered(content)) == ChatCompletion(Disabled))
        <==> (forall i :: 0 <= i < |content| ==> Text.IsSpace(content[i]))
  {
    Text.StripEmptyIff(content);
  }

  /** Whitespace is Python's, not only ASCII: an answer of one no-break space
      completes with "" just as a disabled client does. */
  lemma NoBreakSpaceLooksDisabled()
    ensures ChatCompletion(Answered([0xA0 as char])) == ChatCompletion(Disabled)
  {
    Text.StripsUnicodeSpaces();
  }

  /** The figures the fallback reasoning quotes. A missing score reads as 0,
      except the risk, which reads as 1 (the worst). */
  datatype Figures = Figures(behavior: real, discipline: real, risk: real, programsCompleted: real)

  function FiguresOf(data: map<string, real>): Figures
  {
    Figures(
      if "behavior_score" in data then data["behavior_score"] else 0.0,
      if "discipline_score" in data then data["discipline_score"] else 0.0,
      if "risk_score" in data then data["risk_score"] else 1.0,
      if "programs_completed" in data then data["programs_completed"] else 0.0)
  }

  // Each opening is written in two pieces so that the verifier can index into it.
  const ReadinessOpening := "Inmate demonstrates readiness " + "for rehabilitation based on behavior score "
  const ImprovementOpening := "Inmate requires behavioral " + "improvement before rehabilitation eligibility. "

  predicate StartsWith(s: string, prefix: string)
  {
    |prefix| <= |s| && s[..|prefix|] == prefix
  }

  /** _fallback_reasoning: the readiness text for a positive prediction, the
      improvement text otherwise. The rest of each text quotes the figures with
      float formatting, which `render` stands for. */
  function FallbackReasoning(data: map<string, real>, prediction: bool, probability: real,
                             render: (bool, Figures, real) -> string): (r: string)
    ensures StartsWith(r, ReadinessOpening) <==> prediction
    ensures StartsWith(r, ImprovementOpening) <==> !prediction
    ensures r[|if prediction then ReadinessOpening else ImprovementOpening|..]
              == render(prediction, FiguresOf(data), probability)
  {
    var tail := render(prediction, FiguresOf(data), probability);
    var r := (if prediction then ReadinessOpening else ImprovementOpening) + tail;
    assert ReadinessOpening[7] == 'd' && ImprovementOpening[7] == 'r';
    if prediction then
      assert r[..|ReadinessOpening|] == ReadinessOpening;
      assert r[7] == 'd';
      r
    else
      assert r[..|ImprovementOpening|] == ImprovementOpening;
      assert r[7] == 'r';
      r
  }

  /** generate_eligibility_reasoning: the model's stripped answer, or the
      fallback reasoning when the client is disabled or the call raises. */
  function EligibilityReasoning(data: map<string, real>, prediction: bool, probability: real,
                                render: (bool, Figures, real) -> string, call: LlmCall<string>): (r: string)
    ensures call.Answered? ==> r == Text.Strip(call.content)
    ensures !call.Answered? ==> (StartsWith(r, ReadinessOpening) <==> prediction)
    ensures !call.Answered? ==> (StartsWith(r, ImprovementOpening) <==> !prediction)
  {
    match call
    case Answered(content) => Text.Strip(content)
    case _ => FallbackReasoning(data, prediction, probability, render)
  }

  datatype WeekPlan = WeekPlan(week: int, activities: seq<string>)
  datatype Milestone = Milestone(week: int, description: string, successCriteria: string)
  datatype Plan = Plan(objectives: seq<string>, weeklyActivities: seq<WeekPlan>, milestones: seq<Milestone>)

  const Objectives: seq<string> := [
    "Improve behavioral compliance and institutional adjustment",
    "Complete assigned rehabilitation programs",
    "Develop coping skills and emotional regulation"
  ]

  /** The program every week of the fallback plan leads with. */
  function LeadActivity(programs: seq<string>): string
  {
    (if |programs| > 0 then programs[0] else "Group therapy") + " - 2 sessions"
  }

  function Week(programs: seq<string>, week: int): WeekPlan
  {
    WeekPlan(week, [LeadActivity(programs), "Individual counseling - 1 session", "Life skills workshop - 1 session"])
  }

  /** _fallback_plan: one entry per week 1..weeks (none when weeks < 1) and three
      milestones at weeks weeks // 3, (2 * weeks) // 3 and weeks, where `//` is
      Python's floor division. */
  function FallbackPlan(programs: seq<string>, weeks: int): (p: Plan)
    ensures |p.objectives| == 3
    ensures |p.weeklyActivities| == if weeks > 0 then weeks else 0
    ensures forall i :: 0 <= i < |p.weeklyActivities| ==>
              && p.weeklyActivities[i].week == i + 1
              && |p.weeklyActivities[i].activities| == 3
              && p.weeklyActivities[i].activities[0] == LeadActivity(programs)
    ensures |p.milestones| == 3
    ensures 3 * p.milestones[0].week <= weeks < 3 * p.milestones[0].week + 3
    ensures 3 * p.milestones[1].week <= 2 * weeks < 3 * p.milestones[1].week + 3
    ensures p.milestones[2].week == weeks
  {
    var count := if weeks > 0 then weeks else 0;
    Plan(
      Objectives,
      seq(count, i requires 0 <= i < count => Week(programs, i + 1)),
      [ Milestone(weeks / 3, "Initial assessment and program adaptation", "80% attendance, no violations"),
        Milestone((weeks * 2) / 3, "Midpoint progress review",
                  "Demonstrate skill application, positive behavior trend"),
        Milestone(weeks, "Program completion and certification",
                  "Complete all modules, pass assessments, maintain conduct") ])
  }

  /** For a non-negative duration the milestones come in order, start at week 0
      or later and end on the last week. */
  lemma MilestonesOrdered(programs: seq<string>, weeks: int)
    requires weeks >= 0
    ensures var m := FallbackPlan(programs, weeks).milestones;
      0 <= m[0].week <= m[1].week <= m[2].week == weeks
  {
    var m := FallbackPlan(programs, weeks).milestones;
    assert 3 * m[0].week <= weeks && 3 * m[1].week + 3 > 2 * weeks;
    assert weeks < 3 * m[0].week + 3;
    assert 3 * m[0].week <= 3 * m[1].week + 2;
  }

  /** From three weeks on, every milestone falls on a week the plan schedules. */
  lemma MilestonesOnScheduledWeeks(programs: seq<string>, weeks: int)
    requires weeks >= 3
    ensures var p := FallbackPlan(programs, weeks);
      forall k :: 0 <= k < 3 ==>
        1 <= p.milestones[k].week <= |p.weeklyActivities|
        && p.weeklyActivities[p.milestones[k].week - 1].week == p.milestones[k].week
  {
    MilestonesOrdered(programs, weeks);
  }

  /** A one- or two-week plan puts its first milestone at week 0, which no weekly
      entry carries. */
  lemma ShortPlanMilestoneBeforeFirstWeek(programs: seq<string>, weeks: int)
    requires 1 <= weeks <= 2
    ensures var p := FallbackPlan(programs, weeks);
      p.milestones[0].week == 0 && forall i :: 0 <= i < |p.weeklyActivities| ==> p.weeklyActivities[i].week != 0
  {
  }

  /** The default twelve-week plan hits the milestones the model is asked for
      (weeks 4, 8 and 12). */
  lemma TwelveWeekMilestones(programs: seq<string>)
    ensures var m := FallbackPlan(programs, 12).milestones;
      m[0].week == 4 && m[1].week == 8 && m[2].week == 12
  {
  }

  /** generate_rehabilitation_plan: the decoded answer, or the fallback plan when
      the client is disabled or the call (or evaluating its answer) raises. */
  function RehabilitationPlan(programs: seq<string>, weeks: int, call: LlmCall<Plan>): (p: Plan)
    ensures call.Answered? ==> p == call.content
    ensures !call.Answered? ==> p == FallbackPlan(programs, weeks)
  {
    match call
    case Answered(plan) => plan
    case _ => FallbackPlan(programs, weeks)
  }

  const DisabledInsight := "Progress tracking data recorded. Continue monitoring behavioral trends."
  const FailedInsight := "Progress data recorded. Continue monitoring."

  /** analyze_progress_insights: a fixed note when disabled, a shorter one when the
      call raises, the stripped answer otherwise; it never raises. */
  function ProgressInsights(call: LlmCall<string>): (r: string)
    ensures call.Disabled? ==> r == DisabledInsight
    ensures call.Raised? ==> r == FailedInsight
    ensures call.Answered? ==> r == Text.Strip(call.content)
    ensures !call.Answered? ==> |r| > 0
  {
    match call
    case Disabled => DisabledInsight
    case Raised(_) => FailedInsight
    case Answered(content) => Text.Strip(content)
  }
}
