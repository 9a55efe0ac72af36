/** The JSON exchanged between the rehabilitation service and the AI service's
    `/api/v1/recommend` endpoint, as the Java side decodes it: an `Option`
    field that the body omits or sends as `null` decodes to `None`. */
module RecommendationApi {
  import opened Wrappers
  import opened RehabRecords

  datatype AIRequest = AIRequest(
    inmateId: string,
    profileFeatures: Option<Features>,
    suitabilityGroup: Option<string>,
    riskScore: Option<real>)

  datatype ProgramRecommendation = ProgramRecommendation(
    programType: string,
    programName: string,
    durationWeeks: Option<int>,
    score: real,
    reason: string)

  datatype AIResponse = AIResponse(
    programs: Option<seq<ProgramRecommendation>>,
    explanation: Option<string>,
    confidence: Option<real>)

  /** An HTTP exchange as RestTemplate reports it: a decoded body, which is
      `None` when the body is empty, or a thrown exception (a transport failure
      or a non-2xx status) carrying its message. */
  type Exchange<T> = Result<Option<T>, string>
}

/** AIServiceClient: the rehabilitation service's calls into the AI service.
    The HTTP exchange itself is a parameter; every exception it raises is caught. */
module AIClient {
  import opened Wrappers
  import opened RecommendationApi
  import Text

  const FallbackExplanation := "Rule-based recommendation (AI service unavailable)"
  const FallbackConfidence: real := 0.6

  predicate GroupMentions(request: AIRequest, word: string)
  {
    request.suitabilityGroup.Some? && Text.Contains(request.suitabilityGroup.value, word)
  }

  /** getFallbackRecommendation: one program chosen from the suitability group by
      a case-sensitive substring test, "substance" taking precedence over "mental". */
  function Fallback(request: AIRequest): (r: AIResponse)
    ensures r.programs.Some? && |r.programs.value| == 1
    ensures r.explanation == Some(FallbackExplanation)
    ensures r.confidence == Some(FallbackConfidence)
    ensures var p := r.programs.value[0];
      && (p.programType == "substance_abuse" <==> GroupMentions(request, "substance"))
      && (p.programType == "mental_health" <==>
            !GroupMentions(request, "substance") && GroupMentions(request, "mental"))
      && (p.programType == "vocational" <==>
            !GroupMentions(request, "substance") && !GroupMentions(request, "mental"))
      && p.durationWeeks == Some(if p.programType == "substance_abuse" then 12
                                 else if p.programType == "mental_health" then 8 else 16)
      && p.score == (if p.programType == "vocational" then 0.6 else 0.7)
  {
    var program :=
      if GroupMentions(request, "substance") then
        ProgramRecommendation("substance_abuse", "Drug Rehabilitation Program", Some(12), 0.7,
                              "Recommended based on substance abuse history")
      else if GroupMentions(request, "mental") then
        ProgramRecommendation("mental_health", "Mental Health Support Program", Some(8), 0.7,
                              "Recommended based on mental health assessment")
      else
        ProgramRecommendation("vocational", "Vocational Training", Some(16), 0.6,
                              "Default vocational training recommendation");
    AIResponse(Some([program]), Some(FallbackExplanation), Some(FallbackConfidence))
  }

  /** getRecommendations: the decoded body when the exchange succeeds (possibly
      null), the rule-based fallback when it throws. */
  function GetRecommendations(request: AIRequest, exchange: Exchange<AIResponse>): (r: Option<AIResponse>)
    ensures exchange.Failure? ==> r == Some(Fallback(request))
    ensures exchange.Success? ==> r == exchange.value
    ensures r.None? <==> exchange == Success(None)
  {
    match exchange
    case Failure(_) => Some(Fallback(request))
    case Success(body) => body
  }

  /** analyzeCounselingNotes: the body rendered by `toString()` (a parameter here),
      "Unable to analyze" for an empty body, "Analysis unavailable" when the call throws. */
  function AnalyzeCounselingNotes<B>(exchange: Exchange<B>, render: B -> string): (r: string)
    ensures exchange.Failure? ==> r == "Analysis unavailable"
    ensures exchange == Success(None) ==> r == "Unable to analyze"
    ensures exchange.Success? && exchange.value.Some? ==> r == render(exchange.value.value)
  {
    match exchange
    case Failure(_) => "Analysis unavailable"
    case Success(None) => "Unable to analyze"
    case Success(Some(body)) => render(body)
  }

  /** calculateEarlyReleaseScore: the decoded number (null for an empty body), 0.0 when the call throws. */
  function CalculateEarlyReleaseScore(exchange: Exchange<real>): (r: Option<real>)
    ensures exchange.Failure? ==> r == Some(0.0)
    ensures exchange.Success? ==> r == exchange.value
  {
    match exchange
    case Failure(_) => Some(0.0)
    case Success(score) => score
  }

  /** An unreachable AI service never leaves the caller without a program to look up. */
  lemma FailureStillYieldsProgram(request: AIRequest, message: string)
    ensures var r := GetRecommendations(request, Failure(message));
      r.Some? && r.value.programs.Some? && |r.value.programs.value| > 0
      && r.value.programs.value[0].programType in {"substance_abuse", "mental_health", "vocational"}
  {
  }
}
