/** The AI service's `/recommend` endpoint (recommendation_service.py and its
    route): rule-based program suggestions keyed on the lower-cased suitability
    group, with a confidence derived from the risk score.

    Request validation and the route's exception handler are part of the model:
    a body that fails validation is answered with status 422, an exception
    raised while computing is answered with status 500. */
module RuleRecommender {
  import opened Wrappers
  import opened RecommendationApi
  import Text
  import AIClient

  const ValidationFailed: int := 422
  const InternalError: int := 500

  /** The answer the route sends: a response body or an error status. */
  type Answer = Result<AIResponse, int>

  predicate Mentions(group: string, word: string)
  {
    Text.Contains(group, word)
  }

  function Program(programType: string, name: string, weeks: int, score: real, reason: string): ProgramRecommendation
  {
    ProgramRecommendation(programType, name, Some(weeks), score, reason)
  }

  /** The branch of _generate_programs_by_group a lower-cased group falls into;
      the tests are made in this order and the first that holds wins. */
  datatype GroupBranch = SubstanceBranch | MentalBranch | ViolentBranch | DefaultBranch

  function BranchOf(group: string): (b: GroupBranch)
    ensures b == SubstanceBranch <==> Mentions(group, "substance") || Mentions(group, "drug")
    ensures b == MentalBranch <==>
              !(Mentions(group, "substance") || Mentions(group, "drug")) && (Mentions(group, "mental") || Mentions(group, "ptsd"))
    ensures b == ViolentBranch <==>
              !(Mentions(group, "substance") || Mentions(group, "drug")) && !(Mentions(group, "mental") || Mentions(group, "ptsd"))
              && Mentions(group, "violent")
  {
    if Mentions(group, "substance") || Mentions(group, "drug") then SubstanceBranch
    else if Mentions(group, "mental") || Mentions(group, "ptsd") then MentalBranch
    else if Mentions(group, "violent") then ViolentBranch
    else DefaultBranch
  }

  /** The program type each branch puts first. */
  function LeadingType(b: GroupBranch): string
  {
    match b
    case SubstanceBranch => "substance_abuse"
    case MentalBranch => "mental_health"
    case ViolentBranch => "behavior"
    case DefaultBranch => "vocational"
  }

  /** What the response schema demands of the suggestions (positive durations,
      scores in [0, 1]), plus the branch table's own shape: two entries, the
      better-scored first. */
  predicate WellFormed(ps: seq<ProgramRecommendation>)
  {
    && |ps| == 2
    && (forall i :: 0 <= i < |ps| ==>
          ps[i].durationWeeks.Some? && ps[i].durationWeeks.value > 0 && 0.0 <= ps[i].score <= 1.0)
    && ps[0].score > ps[1].score
  }

  function SubstancePrograms(risk: real): (ps: seq<ProgramRecommendation>)
    ensures WellFormed(ps) && ps[0].programType == LeadingType(SubstanceBranch)
    ensures ps[0].durationWeeks == Some(if risk > 0.7 then 12 else 8)
  {
    [ Program("substance_abuse", "Intensive Drug Rehabilitation Program", if risk > 0.7 then 12 else 8, 0.85,
              "History of substance dependency detected. High priority intervention."),
      Program("mental_health", "Dual Diagnosis Support", 8, 0.75,
              "Co-occurring mental health support recommended") ]
  }

  function MentalPrograms(): (ps: seq<ProgramRecommendation>)
    ensures WellFormed(ps) && ps[0].programType == LeadingType(MentalBranch)
  {
    [ Program("mental_health", "Trauma-Informed Therapy Program", 10, 0.88,
              "Mental health indicators present. Professional counseling required."),
      Program("vocational", "Art Therapy & Skills Training", 12, 0.70,
              "Complementary vocational training for mental wellness") ]
  }

  function ViolentPrograms(): (ps: seq<ProgramRecommendation>)
    ensures WellFormed(ps) && ps[0].programType == LeadingType(ViolentBranch)
  {
    [ Program("behavior", "Anger Management & Conflict Resolution", 10, 0.82,
              "Behavioral intervention needed for violence risk reduction"),
      Program("mental_health", "Cognitive Behavioral Therapy", 8, 0.78,
              "CBT effective for behavior modification") ]
  }

  function DefaultPrograms(): (ps: seq<ProgramRecommendation>)
    ensures WellFormed(ps) && ps[0].programType == LeadingType(DefaultBranch)
    ensures ps[0].durationWeeks == Some(16)
  {
    [ Program("vocational", "Vocational Skills Training", 16, 0.72,
              "General skills training for employment readiness"),
      Program("education", "GED Preparation Program", 20, 0.68,
              "Educational advancement opportunity") ]
  }

  /** _generate_programs_by_group: the suggestions of the branch the group falls into. */
  function ProgramsByGroup(group: string, risk: real): (ps: seq<ProgramRecommendation>)
    ensures WellFormed(ps)
    ensures ps[0].programType == LeadingType(BranchOf(group))
    ensures BranchOf(group) == SubstanceBranch ==> ps[0].durationWeeks == Some(if risk > 0.7 then 12 else 8)
  {
    match BranchOf(group)
    case SubstanceBranch => SubstancePrograms(risk)
    case MentalBranch => MentalPrograms()
    case ViolentBranch => ViolentPrograms()
    case DefaultBranch => DefaultPrograms()
  }

  function Min(a: real, b: real): real { if a <= b then a else b }
  function Max(a: real, b: real): real { if a >= b then a else b }

  /** The confidence formula, clamped to [0.60, 0.95]. */
  function Confidence(risk: real): (c: real)
    ensures 0.6 <= c <= 0.95
  {
    Min(0.95, Max(0.60, 0.7 + risk * 0.15))
  }

  /** On the risk range the request schema admits, neither clamp ever applies:
      confidence runs linearly from 0.70 to 0.85. */
  lemma ConfidenceIsLinearOnValidRisk(risk: real)
    requires 0.0 <= risk <= 1.0
    ensures Confidence(risk) == 0.7 + 0.15 * risk
    ensures 0.7 <= Confidence(risk) <= 0.85
  {
  }

  /** The schema's check on `riskScore`: absent/null passes, a number must lie in [0, 1]. */
  predicate RiskPassesValidation(risk: Option<real>)
  {
    risk.None? || 0.0 <= risk.value <= 1.0
  }

  /** The route: validate, compute, and turn any exception into status 500.
      `formatRisk` renders the risk with two decimals (Python's `:.2f`). */
  function Recommend(request: AIRequest, formatRisk: real -> string): (answer: Answer)
    ensures answer == Failure(ValidationFailed) <==>
              request.profileFeatures.None? || !RiskPassesValidation(request.riskScore)
    ensures answer == Failure(InternalError) <==>
              request.profileFeatures.Some? && RiskPassesValidation(request.riskScore)
              && (request.suitabilityGroup.None? || request.riskScore.None?)
    ensures answer.Success? ==>
              var group := Text.ToLower(request.suitabilityGroup.value);
              var risk := request.riskScore.value;
              && answer.value.programs == Some(ProgramsByGroup(group, risk))
              && answer.value.confidence == Some(0.7 + 0.15 * risk)
              && answer.value.explanation ==
                   Some("Recommendations based on suitability group: " + group + ", risk score: " + formatRisk(risk))
  {
    if request.profileFeatures.None? || !RiskPassesValidation(request.riskScore) then
      Failure(ValidationFailed)
    else if request.suitabilityGroup.None? || request.riskScore.None? then
      // `None.lower()` or arithmetic on `None` raises inside the handler.
      Failure(InternalError)
    else
      var group := Text.ToLower(request.suitabilityGroup.value);
      var risk := request.riskScore.value;
      Success(Respond(ProgramsByGroup(group, risk), group, risk, formatRisk))
  }

  /** The route's body: at most three of the programs (all of them when there
      are no more), the confidence for a risk in [0, 1], and the explanation. */
  function Respond(programs: seq<ProgramRecommendation>, group: string, risk: real, formatRisk: real -> string)
    : (body: AIResponse)
    requires 0.0 <= risk <= 1.0
    ensures |programs| <= 3 ==> body.programs == Some(programs)
    ensures body.programs.Some? && |body.programs.value| <= 3
    ensures body.confidence == Some(0.7 + 0.15 * risk)
    ensures body.explanation ==
              Some("Recommendations based on suitability group: " + group + ", risk score: " + formatRisk(risk))
  {
    var n := if |programs| < 3 then |programs| else 3;
    assert |programs| <= 3 ==> programs[..n] == programs;
    ConfidenceIsLinearOnValidRisk(risk);
    AIResponse(
      Some(programs[..n]),
      Some("Recommendations based on suitability group: " + group + ", risk score: " + formatRisk(risk)),
      Some(Confidence(risk)))
  }

  /** How RestTemplate sees the route's answer: a body, or an exception for an error status. */
  function AsExchange(answer: Answer): (e: Exchange<AIResponse>)
    ensures e.Failure? <==> answer.Failure?
    ensures answer.Success? ==> e == Success(Some(answer.value))
  {
    match answer
    case Success(body) => Success(Some(body))
    case Failure(_) => Failure("HTTP error status")
  }

  /** Whatever the request, the Java client talking to this service ends up with a
      non-empty program list whose first entry has a positive duration: either the
      service's own answer or, after an error status, its rule-based fallback. */
  lemma ClientAlwaysGetsAProgram(request: AIRequest, formatRisk: real -> string)
    ensures var r := AIClient.GetRecommendations(request, AsExchange(Recommend(request, formatRisk)));
      && r.Some? && r.value.programs.Some? && |r.value.programs.value| > 0
      && r.value.programs.value[0].durationWeeks.Some? && r.value.programs.value[0].durationWeeks.value > 0
  {
    var answer := Recommend(request, formatRisk);
    if answer.Success? {
      var ps := ProgramsByGroup(Text.ToLower(request.suitabilityGroup.value), request.riskScore.value);
      assert answer.value.programs == Some(ps);
    }
  }

  /** The Java fallback and this service's rules, given the same group text,
      agree on the first program type when the group names substance abuse.
      (The route lower-cases the group first, so for a lower-case group this is
      the route's own answer.) */
  lemma FallbackAgreesOnSubstance(request: AIRequest, risk: real)
    requires request.suitabilityGroup.Some?
    requires AIClient.Fallback(request).programs.value[0].programType == "substance_abuse"
    ensures ProgramsByGroup(request.suitabilityGroup.value, risk)[0].programType == "substance_abuse"
  {
    var g := request.suitabilityGroup.value;
    assert AIClient.GroupMentions(request, "substance");
    assert BranchOf(g) == SubstanceBranch;
  }

  /** They also agree for a group naming mental health without mentioning
      substances or drugs. */
  lemma FallbackAgreesOnMentalHealth(request: AIRequest, risk: real)
    requires request.suitabilityGroup.Some? && !Mentions(request.suitabilityGroup.value, "drug")
    requires AIClient.Fallback(request).programs.value[0].programType == "mental_health"
    ensures ProgramsByGroup(request.suitabilityGroup.value, risk)[0].programType == "mental_health"
  {
    var g := request.suitabilityGroup.value;
    assert !AIClient.GroupMentions(request, "substance") && AIClient.GroupMentions(request, "mental");
    assert BranchOf(g) == MentalBranch;
  }

  /** "general" is already lower-case and mentions none of the branch words. */
  lemma GeneralTakesDefaultBranch()
    ensures Text.ToLower("general") == "general"
    ensures BranchOf("general") == DefaultBranch
  {
    var g := "general";
    assert forall i :: 0 <= i < |g| ==> Text.LowerChar(g[i]) == g[i];
    Text.NotContainsChar(g, "substance", 0);
    Text.NotContainsChar(g, "drug", 0);
    Text.NotContainsChar(g, "mental", 0);
    Text.NotContainsChar(g, "ptsd", 0);
    Text.NotContainsChar(g, "violent", 0);
  }

  /** A profile made by the rehabilitation service on first use (group "general",
      risk 0.5) gets vocational training first, at confidence 0.775. */
  lemma InitialProfileScenario(inmateId: string, formatRisk: real -> string)
    ensures var answer := Recommend(AIRequest(inmateId, Some(map[]), Some("general"), Some(0.5)), formatRisk);
      && answer.Success?
      && answer.value.programs == Some(DefaultPrograms())
      && answer.value.confidence == Some(0.775)
  {
    GeneralTakesDefaultBranch();
  }
}
