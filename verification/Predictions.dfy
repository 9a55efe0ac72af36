/** The rule logic around the rehabilitation AI service's trained classifiers
    (predictions.py): what each prediction route derives from a profile and the
    classifier's verdict. The classifier is a parameter, `None` when its model
    file was not loaded; feature scaling and inference are not modelled.

    Status codes follow the routes: 422 for a body the request schema rejects,
    503 when the model is not loaded, 404 when no profile data or no matching
    inmate is found, 500 for any other exception (a response that fails its own
    schema included). */
module Predictions {
  import opened Wrappers
  import Lists
  import Text
  import LlmFallback

  const ValidationFailed: int := 422
  const NotFound: int := 404
  const InternalError: int := 500
  const ModelNotLoaded: int := 503

  /** The classifier's verdict on one profile. */
  datatype Inference = Inference(eligible: bool, probabilityEligible: real, confidence: real)

  predicate InUnit(x: real)
  {
    0.0 <= x <= 1.0
  }

  /** The response schemas bound the probability and the confidence to [0, 1]. */
  predicate InRange(i: Inference)
  {
    InUnit(i.probabilityEligible) && InUnit(i.confidence)
  }

  /** The `/eligibility` request body. Fields the schema declares optional are `Option`s. */
  datatype AssessmentRequest = AssessmentRequest(
    age: Option<int>,
    sentenceLengthMonths: Option<int>,
    timeServedMonths: Option<int>,
    behaviorScore: real,
    disciplineScore: real,
    riskScore: real,
    programsCompleted: int,
    programsEnrolled: int,
    totalAttendanceRate: Option<real>,
    institutionalViolations: int,
    totalIncidents: int,
    pointsDeducted: int,
    hasSubstanceAbuse: bool,
    hasMentalHealthIssues: bool,
    priorConvictions: int,
    inmateId: Option<string>)

  predicate NoneOrAtLeastZero(o: Option<int>)
  {
    o.None? || o.value >= 0
  }

  /** The request schema's field constraints. */
  predicate ValidRequest(r: AssessmentRequest)
  {
    && (r.age.None? || 18 <= r.age.value <= 100)
    && NoneOrAtLeastZero(r.sentenceLengthMonths) && NoneOrAtLeastZero(r.timeServedMonths)
    && 0.0 <= r.behaviorScore <= 100.0 && 0.0 <= r.disciplineScore <= 100.0 && InUnit(r.riskScore)
    && r.programsCompleted >= 0 && r.programsEnrolled >= 0
    && (r.totalAttendanceRate.None? || InUnit(r.totalAttendanceRate.value))
    && r.institutionalViolations >= 0 && r.totalIncidents >= 0 && r.pointsDeducted >= 0
    && r.priorConvictions >= 0
  }

  /** The months still to serve, never negative. */
  function RemainingSentence(sentence: int, served: int): (m: int)
    ensures m >= 0
    ensures served <= sentence ==> served + m == sentence
    ensures served >= sentence ==> m == 0
  {
    if sentence - served > 0 then sentence - served else 0
  }

  /** The eleven features handed to the eligibility classifier, in training order;
      a missing or null optional number reads as 0. */
  function EligibilityFeatures(r: AssessmentRequest): (f: seq<real>)
    ensures |f| == 11
    ensures f[0] == r.behaviorScore && f[1] == r.disciplineScore && f[2] == r.riskScore
    ensures f[3] == r.programsCompleted as real && f[4] == r.totalAttendanceRate.GetOr(0.0)
    ensures f[5] == r.timeServedMonths.GetOr(0) as real && f[6] >= 0.0
    ensures f[5] <= r.sentenceLengthMonths.GetOr(0) as real ==> f[5] + f[6] == r.sentenceLengthMonths.GetOr(0) as real
    ensures f[5] >= r.sentenceLengthMonths.GetOr(0) as real ==> f[6] == 0.0
    ensures f[7] == r.priorConvictions as real && f[8] == r.institutionalViolations as real
    ensures f[9] == r.totalIncidents as real && f[10] == r.pointsDeducted as real
  {
    var served := r.timeServedMonths.GetOr(0);
    var sentence := r.sentenceLengthMonths.GetOr(0);
    [ r.behaviorScore, r.disciplineScore, r.riskScore, r.programsCompleted as real,
      r.totalAttendanceRate.GetOr(0.0), served as real, RemainingSentence(sentence, served) as real,
      r.priorConvictions as real, r.institutionalViolations as real, r.totalIncidents as real,
      r.pointsDeducted as real ]
  }

  /** The risk factors and strengths the assessment reports; their display text
      (with formatted numbers) is not modelled. */
  datatype RiskFactor =
    | BelowAverageBehavior(score: real)
    | DisciplineConcerns(score: real)
    | HighRiskAssessment(score: real)
    | MultipleViolations(count: int)
    | SubstanceAbuseHistory
    | MentalHealthConcerns

  datatype Strength =
    | StrongBehavioralRecord(score: real)
    | ExcellentDiscipline(score: real)
    | LowRiskProfile(score: real)
    | CompletedPrograms(count: int)
    | HighAttendance(rate: real)

  /** `[x]` when `c` holds, else `[]`: one conditional `append`. */
  function When<T(!new)>(c: bool, x: T): (r: seq<T>)
    ensures |r| <= 1
    ensures forall y :: y in r <==> c && y == x
  {
    if c then [x] else []
  }

  /** The risk factors the assessment can report for a request, in the order it tests them. */
  function RiskCandidates(r: AssessmentRequest): seq<RiskFactor>
  {
    [ BelowAverageBehavior(r.behaviorScore), DisciplineConcerns(r.disciplineScore), HighRiskAssessment(r.riskScore),
      MultipleViolations(r.institutionalViolations), SubstanceAbuseHistory, MentalHealthConcerns ]
  }

  lemma RiskCandidatesDistinct(r: AssessmentRequest)
    ensures Lists.NoDuplicates(RiskCandidates(r))
  {
  }

  /** The test that reports each risk factor. */
  predicate Raised(f: RiskFactor, r: AssessmentRequest)
  {
    match f
    case BelowAverageBehavior(score) => score < 60.0
    case DisciplineConcerns(score) => score < 60.0
    case HighRiskAssessment(score) => score > 0.6
    case MultipleViolations(count) => count > 3
    case SubstanceAbuseHistory => r.hasSubstanceAbuse
    case MentalHealthConcerns => r.hasMentalHealthIssues
  }

  function RiskFactors(r: AssessmentRequest): (fs: seq<RiskFactor>)
    ensures forall f :: f in fs <==> f in RiskCandidates(r) && Raised(f, r)
    ensures BelowAverageBehavior(r.behaviorScore) in fs <==> r.behaviorScore < 60.0
    ensures DisciplineConcerns(r.disciplineScore) in fs <==> r.disciplineScore < 60.0
    ensures HighRiskAssessment(r.riskScore) in fs <==> r.riskScore > 0.6
    ensures MultipleViolations(r.institutionalViolations) in fs <==> r.institutionalViolations > 3
    ensures SubstanceAbuseHistory in fs <==> r.hasSubstanceAbuse
    ensures MentalHealthConcerns in fs <==> r.hasMentalHealthIssues
    ensures |fs| <= 6
    ensures Lists.FollowsOrderOf(fs, RiskCandidates(r))
  {
    var candidates := RiskCandidates(r);
    RiskCandidatesDistinct(r);
    Lists.FilterIndexOrder(candidates, (f: RiskFactor) => Raised(f, r));
    assert BelowAverageBehavior(r.behaviorScore) in candidates && DisciplineConcerns(r.disciplineScore) in candidates;
    assert HighRiskAssessment(r.riskScore) in candidates && MultipleViolations(r.institutionalViolations) in candidates;
    assert SubstanceAbuseHistory in candidates && MentalHealthConcerns in candidates;
    Lists.Filter(candidates, (f: RiskFactor) => Raised(f, r))
  }

  /** The strengths the assessment can report for a request, in the order it tests them. */
  function StrengthCandidates(r: AssessmentRequest): seq<Strength>
  {
    [ StrongBehavioralRecord(r.behaviorScore), ExcellentDiscipline(r.disciplineScore), LowRiskProfile(r.riskScore),
      CompletedPrograms(r.programsCompleted), HighAttendance(r.totalAttendanceRate.GetOr(0.0)) ]
  }

  lemma StrengthCandidatesDistinct(r: AssessmentRequest)
    ensures Lists.NoDuplicates(StrengthCandidates(r))
  {
  }

  /** The test that reports each strength. */
  predicate Shown(s: Strength)
  {
    match s
    case StrongBehavioralRecord(score) => score > 70.0
    case ExcellentDiscipline(score) => score > 70.0
    case LowRiskProfile(score) => score < 0.4
    case CompletedPrograms(count) => count > 2
    case HighAttendance(rate) => rate > 0.8
  }

  function Strengths(r: AssessmentRequest): (ss: seq<Strength>)
    ensures forall s :: s in ss <==> s in StrengthCandidates(r) && Shown(s)
    ensures StrongBehavioralRecord(r.behaviorScore) in ss <==> r.behaviorScore > 70.0
    ensures ExcellentDiscipline(r.disciplineScore) in ss <==> r.disciplineScore > 70.0
    ensures LowRiskProfile(r.riskScore) in ss <==> r.riskScore < 0.4
    ensures CompletedPrograms(r.programsCompleted) in ss <==> r.programsCompleted > 2
    ensures HighAttendance(r.totalAttendanceRate.GetOr(0.0)) in ss <==> r.totalAttendanceRate.GetOr(0.0) > 0.8
    ensures |ss| <= 5
    ensures Lists.FollowsOrderOf(ss, StrengthCandidates(r))
  {
    var candidates := StrengthCandidates(r);
    StrengthCandidatesDistinct(r);
    Lists.FilterIndexOrder(candidates, Shown);
    assert StrongBehavioralRecord(r.behaviorScore) in candidates && ExcellentDiscipline(r.disciplineScore) in candidates;
    assert LowRiskProfile(r.riskScore) in candidates && CompletedPrograms(r.programsCompleted) in candidates;
    assert HighAttendance(r.totalAttendanceRate.GetOr(0.0)) in candidates;
    Lists.Filter(candidates, Shown)
  }

  /** No profile is both a risk and a strength on the same score. */
  lemma FactorsAndStrengthsDisjoint(r: AssessmentRequest)
    ensures !(BelowAverageBehavior(r.behaviorScore) in RiskFactors(r)
              && StrongBehavioralRecord(r.behaviorScore) in Strengths(r))
    ensures !(DisciplineConcerns(r.disciplineScore) in RiskFactors(r)
              && ExcellentDiscipline(r.disciplineScore) in Strengths(r))
    ensures !(HighRiskAssessment(r.riskScore) in RiskFactors(r) && LowRiskProfile(r.riskScore) in Strengths(r))
  {
  }

  /** The programs the rules can recommend. */
  datatype RuleProgram =
    | CognitiveBehavioralTherapy | AngerManagement | IntensiveCounseling | SubstanceAbuseIntensive
    | MentalHealthTherapy | VocationalCarpentry | LeadershipSkills
  {
    function Name(): string
    {
      match this
      case CognitiveBehavioralTherapy => "cognitive_behavioral_therapy"
      case AngerManagement => "anger_management"
      case IntensiveCounseling => "intensive_counseling"
      case SubstanceAbuseIntensive => "substance_abuse_intensive"
      case MentalHealthTherapy => "mental_health_therapy"
      case VocationalCarpentry => "vocational_carpentry"
      case LeadershipSkills => "leadership_skills"
    }
  }

  const DefaultPrograms: seq<string> := ["general_rehabilitation", "life_skills"]

  /** Different programs have different names, and none is a default name. */
  lemma NamesDistinct(a: RuleProgram, b: RuleProgram)
    ensures a != b ==> a.Name() != b.Name()
    ensures a.Name() !in DefaultPrograms
  {
    if a != b {
      assert a.Name()[0] != b.Name()[0];
    }
    assert a.Name()[1] != DefaultPrograms[1][1];
  }

  /** The rule programs in the order the rules are tested. */
  const RuleOrder: seq<RuleProgram> := [
    CognitiveBehavioralTherapy, AngerManagement, IntensiveCounseling, SubstanceAbuseIntensive,
    MentalHealthTherapy, VocationalCarpentry, LeadershipSkills
  ]

  /** The rule that appends each program. */
  predicate Applies(p: RuleProgram, r: AssessmentRequest)
  {
    match p
    case CognitiveBehavioralTherapy => r.behaviorScore < 60.0
    case AngerManagement => r.disciplineScore < 60.0
    case IntensiveCounseling => r.riskScore > 0.6
    case SubstanceAbuseIntensive => r.hasSubstanceAbuse
    case MentalHealthTherapy => r.hasMentalHealthIssues
    case VocationalCarpentry => r.behaviorScore > 70.0
    case LeadershipSkills => r.disciplineScore > 70.0
  }

  /** The programs the rules append, in the order they append them. */
  function AppendedPrograms(r: AssessmentRequest): (ps: seq<RuleProgram>)
    ensures Lists.NoDuplicates(ps)
    ensures forall p: RuleProgram :: p in ps <==> Applies(p, r)
    ensures Lists.FollowsOrderOf(ps, RuleOrder)
  {
    var applies := (p: RuleProgram) => Applies(p, r);
    RuleOrderComplete();
    Lists.FilterDistinct(RuleOrder, applies);
    Lists.FilterIndexOrder(RuleOrder, applies);
    Lists.Filter(RuleOrder, applies)
  }

  /** Every rule program is tested once, and each has its place in the order. */
  lemma RuleOrderComplete()
    ensures Lists.NoDuplicates(RuleOrder)
    ensures forall p: RuleProgram :: p in RuleOrder
  {
    forall p: RuleProgram ensures p in RuleOrder {
      match p
      case CognitiveBehavioralTherapy => assert RuleOrder[0] == p;
      case AngerManagement => assert RuleOrder[1] == p;
      case IntensiveCounseling => assert RuleOrder[2] == p;
      case SubstanceAbuseIntensive => assert RuleOrder[3] == p;
      case MentalHealthTherapy => assert RuleOrder[4] == p;
      case VocationalCarpentry => assert RuleOrder[5] == p;
      case LeadershipSkills => assert RuleOrder[6] == p;
    }
  }

  function ProgramNames(ps: seq<RuleProgram>): (ns: seq<string>)
    ensures |ns| == |ps| && forall i :: 0 <= i < |ps| ==> ns[i] == ps[i].Name()
  {
    seq(|ps|, i requires 0 <= i < |ps| => ps[i].Name())
  }

  /** Naming keeps a list free of repetitions and is faithful on membership. */
  lemma NamesFaithful(ps: seq<RuleProgram>)
    requires Lists.NoDuplicates(ps)
    ensures Lists.NoDuplicates(ProgramNames(ps))
    ensures forall p: RuleProgram :: p.Name() in ProgramNames(ps) <==> p in ps
    ensures forall n :: n in ProgramNames(ps) ==> n !in DefaultPrograms
  {
    var ns := ProgramNames(ps);
    forall i, j | 0 <= i < j < |ns| ensures ns[i] != ns[j] {
      NamesDistinct(ps[i], ps[j]);
    }
    forall p: RuleProgram ensures p.Name() in ns <==> p in ps {
      if p.Name() in ns {
        var i :| 0 <= i < |ns| && ns[i] == p.Name();
        NamesDistinct(p, ps[i]);
      }
      if p in ps {
        var i :| 0 <= i < |ps| && ps[i] == p;
        assert ns[i] == p.Name();
      }
    }
    forall n | n in ns ensures n !in DefaultPrograms {
      var i :| 0 <= i < |ns| && ns[i] == n;
      NamesDistinct(ps[i], ps[i]);
    }
  }

  /** The recommended program list: the rule programs' names de-duplicated in
      first-occurrence order, or the two defaults when no rule applies. */
  function RecommendedPrograms(r: AssessmentRequest): (ps: seq<string>)
    ensures |ps| > 0 && Lists.NoDuplicates(ps)
    ensures AppendedPrograms(r) == [] ==> ps == DefaultPrograms
    ensures AppendedPrograms(r) != [] ==> ps == ProgramNames(AppendedPrograms(r))
    ensures forall p: RuleProgram :: p.Name() in ps <==> Applies(p, r)
  {
    var appended := AppendedPrograms(r);
    NamedOrDefault(appended, r);
    var deduped := Lists.Dedup(ProgramNames(appended));
    if deduped == [] then DefaultPrograms else deduped
  }

  /** What `RecommendedPrograms` promises, for any repetition-free list of the
      programs whose rules apply. */
  lemma NamedOrDefault(appended: seq<RuleProgram>, r: AssessmentRequest)
    requires Lists.NoDuplicates(appended)
    requires forall p: RuleProgram :: p in appended <==> Applies(p, r)
    ensures var deduped := Lists.Dedup(ProgramNames(appended));
      var ps := if deduped == [] then DefaultPrograms else deduped;
      && |ps| > 0 && Lists.NoDuplicates(ps)
      && (appended == [] ==> ps == DefaultPrograms)
      && (appended != [] ==> ps == ProgramNames(appended))
      && forall p: RuleProgram :: p.Name() in ps <==> Applies(p, r)
  {
    NamesFaithful(appended);
    Lists.DedupOfDistinct(ProgramNames(appended));
    if appended == [] {
      forall p: RuleProgram ensures p.Name() !in DefaultPrograms { NamesDistinct(p, p); }
    }
  }

  /** The default list is used exactly when no rule fires. */
  lemma DefaultProgramsIff(r: AssessmentRequest)
    ensures RecommendedPrograms(r) == DefaultPrograms <==>
              && 60.0 <= r.behaviorScore <= 70.0 && 60.0 <= r.disciplineScore <= 70.0 && r.riskScore <= 0.6
              && !r.hasSubstanceAbuse && !r.hasMentalHealthIssues
  {
    var appended := AppendedPrograms(r);
    if appended != [] {
      var p := appended[0];
      assert p in appended;
      NamesDistinct(p, p);
      assert p.Name() in RecommendedPrograms(r);
    }
    assert Applies(CognitiveBehavioralTherapy, r) == (CognitiveBehavioralTherapy in appended);
    assert Applies(AngerManagement, r) == (AngerManagement in appended);
    assert Applies(IntensiveCounseling, r) == (IntensiveCounseling in appended);
    assert Applies(SubstanceAbuseIntensive, r) == (SubstanceAbuseIntensive in appended);
    assert Applies(MentalHealthTherapy, r) == (MentalHealthTherapy in appended);
    assert Applies(VocationalCarpentry, r) == (VocationalCarpentry in appended);
    assert Applies(LeadershipSkills, r) == (LeadershipSkills in appended);
  }

  /** The scores breakdown. Every entry lies in [0, 1] on a valid request. */
  function Breakdown(r: AssessmentRequest): (b: map<string, real>)
    ensures "behavior" in b && "discipline" in b && "risk" in b
    ensures "program_completion" in b <==> r.programsCompleted > 2
    ensures ValidRequest(r) ==> forall k :: k in b ==> InUnit(b[k])
    ensures ValidRequest(r) && "program_completion" in b ==> b["program_completion"] >= 0.6
    ensures b["risk"] + r.riskScore == 1.0
    ensures b["behavior"] * 100.0 == r.behaviorScore && b["discipline"] * 100.0 == r.disciplineScore
    ensures "program_completion" in b ==>
              b["program_completion"] == (if r.programsCompleted >= 5 then 1.0 else r.programsCompleted as real / 5.0)
    ensures forall k :: k in b ==> k == "behavior" || k == "discipline" || k == "risk" || k == "program_completion"
  {
    var base := map["behavior" := r.behaviorScore / 100.0, "discipline" := r.disciplineScore / 100.0,
                    "risk" := 1.0 - r.riskScore];
    if r.programsCompleted > 2 then
      var completion := r.programsCompleted as real / 5.0;
      base["program_completion" := if completion < 1.0 then completion else 1.0]
    else base
  }

  // The route's own reasoning openings, used when it obtained no reasoning from the
  // language model. Each is written in two pieces so that the verifier can index into it.
  const RouteReadinessOpening := "Inmate demonstrates readiness " + "for rehabilitation with behavior score "
  const RouteDevelopmentOpening := "Inmate requires additional " + "behavioral development before rehabilitation. "

  /** The scores the language-model client reads from the request. */
  function ClientData(r: AssessmentRequest): map<string, real>
  {
    map["behavior_score" := r.behaviorScore, "discipline_score" := r.disciplineScore,
        "risk_score" := r.riskScore, "programs_completed" := r.programsCompleted as real]
  }

  /** The assessment's reasoning. A disabled client is not asked at all and the route
      writes its own text; an enabled one answers, or falls back to its own text when
      the call raises; an answer that strips to nothing is replaced by the route's text.
      `clientRender` and `routeRender` stand for the formatted remainder of each text. */
  function AssessmentReasoning(r: AssessmentRequest, inference: Inference, call: LlmFallback.LlmCall<string>,
                               clientRender: (bool, LlmFallback.Figures, real) -> string,
                               routeRender: (bool, AssessmentRequest, Inference) -> string): (text: string)
    ensures |text| > 0
    ensures call.Answered? && Text.Strip(call.content) != [] ==> text == Text.Strip(call.content)
    ensures call.Raised? ==>
              (LlmFallback.StartsWith(text, LlmFallback.ReadinessOpening) <==> inference.eligible)
              && (LlmFallback.StartsWith(text, LlmFallback.ImprovementOpening) <==> !inference.eligible)
    ensures call.Disabled? || (call.Answered? && Text.Strip(call.content) == []) ==>
              (LlmFallback.StartsWith(text, RouteReadinessOpening) <==> inference.eligible)
              && (LlmFallback.StartsWith(text, RouteDevelopmentOpening) <==> !inference.eligible)
  {
    var fromClient :=
      if call.Disabled? then []
      else LlmFallback.EligibilityReasoning(ClientData(r), inference.eligible, inference.confidence, clientRender, call);
    if fromClient != [] then fromClient
    else
      var tail := routeRender(inference.eligible, r, inference);
      assert RouteReadinessOpening[7] == 'd' && RouteDevelopmentOpening[7] == 'r';
      if inference.eligible then
        var t := RouteReadinessOpening + tail;
        assert t[..|RouteReadinessOpening|] == RouteReadinessOpening;
        assert t[7] == 'd';
        t
      else
        var t := RouteDevelopmentOpening + tail;
        assert t[..|RouteDevelopmentOpening|] == RouteDevelopmentOpening;
        assert t[7] == 'r';
        t
  }

  datatype EligibilityResponse = EligibilityResponse(
    inmateId: Option<string>,
    eligible: bool,
    eligibilityScore: real,
    confidence: real,
    recommendedPrograms: seq<string>,
    reasoning: string,
    riskFactors: seq<RiskFactor>,
    strengths: seq<Strength>,
    scoresBreakdown: map<string, real>)

  /** assess_rehab_eligibility: validate, ask the classifier, derive the rest. */
  function AssessEligibility(r: AssessmentRequest, model: Option<seq<real> -> Inference>,
                             call: LlmFallback.LlmCall<string>,
                             clientRender: (bool, LlmFallback.Figures, real) -> string,
                             routeRender: (bool, AssessmentRequest, Inference) -> string): (answer: Result<EligibilityResponse, int>)
    ensures answer == Failure(ValidationFailed) <==> !ValidRequest(r)
    ensures answer == Failure(ModelNotLoaded) <==> ValidRequest(r) && model.None?
    ensures answer == Failure(InternalError) <==>
              ValidRequest(r) && model.Some?
              && !InRange(model.value(EligibilityFeatures(r)))
    ensures answer.Success? ==>
              var inference := model.value(EligibilityFeatures(r));
              && answer.value.eligible == inference.eligible
              && answer.value.eligibilityScore == inference.probabilityEligible
              && answer.value.confidence == inference.confidence
              && answer.value.inmateId == r.inmateId
              && answer.value.recommendedPrograms == RecommendedPrograms(r)
              && answer.value.riskFactors == RiskFactors(r)
              && answer.value.strengths == Strengths(r)
              && answer.value.scoresBreakdown == Breakdown(r)
              && answer.value.reasoning == AssessmentReasoning(r, inference, call, clientRender, routeRender)
  {
    if !ValidRequest(r) then Failure(ValidationFailed)
    else if model.None? then Failure(ModelNotLoaded)
    else
      var inference := model.value(EligibilityFeatures(r));
      if !InRange(inference) then
        // The response schema bounds both numbers to [0, 1]; a violation raises and becomes 500.
        Failure(InternalError)
      else
        Success(EligibilityResponse(
          r.inmateId, inference.eligible, inference.probabilityEligible, inference.confidence,
          RecommendedPrograms(r),
          AssessmentReasoning(r, inference, call, clientRender, routeRender),
          RiskFactors(r), Strengths(r), Breakdown(r)))
  }
  /** A missing optional number reaches the classifier as zero, exactly as if
      the request had sent zero. */
  lemma NullNumbersReadAsZero(r: AssessmentRequest)
    ensures EligibilityFeatures(r.(timeServedMonths := None)) == EligibilityFeatures(r.(timeServedMonths := Some(0)))
    ensures EligibilityFeatures(r.(sentenceLengthMonths := None))
              == EligibilityFeatures(r.(sentenceLengthMonths := Some(0)))
    ensures EligibilityFeatures(r.(totalAttendanceRate := None))
              == EligibilityFeatures(r.(totalAttendanceRate := Some(0.0)))
  {
  }

  /** The verdict sees the request only through its eleven features: two valid
      requests with the same features get the same answer on eligibility,
      score and confidence, whatever their identity, age or flags. */
  lemma SameFeaturesSameVerdict(r1: AssessmentRequest, r2: AssessmentRequest, model: seq<real> -> Inference,
                                call: LlmFallback.LlmCall<string>,
                                clientRender: (bool, LlmFallback.Figures, real) -> string,
                                routeRender: (bool, AssessmentRequest, Inference) -> string)
    requires ValidRequest(r1) && ValidRequest(r2) && EligibilityFeatures(r1) == EligibilityFeatures(r2)
    ensures var a := AssessEligibility(r1, Some(model), call, clientRender, routeRender);
      var b := AssessEligibility(r2, Some(model), call, clientRender, routeRender);
      && (a.Success? <==> b.Success?)
      && (a.Success? ==>
            && a.value.eligible == b.value.eligible
            && a.value.eligibilityScore == b.value.eligibilityScore
            && a.value.confidence == b.value.confidence)
  {
  }


  /** The columns of an `inmate_profiles` row the three per-inmate routes read. */
  datatype ProfileRow = ProfileRow(
    inmateId: string,
    age: int,
    educationLevel: string,
    behaviorScore: real,
    disciplineScore: real,
    riskScore: real,
    programsCompleted: int,
    timeServedMonths: int,
    sentenceLengthMonths: int,
    institutionalViolations: int,
    totalAttendanceRate: real)

  /** The first row carrying the id (`df[df['inmate_id'] == id].iloc[0]`). */
  function FindProfile(rows: seq<ProfileRow>, id: string): (r: Option<ProfileRow>)
    ensures r.None? <==> forall k :: 0 <= k < |rows| ==> rows[k].inmateId != id
    ensures r.Some? ==> (r.value.inmateId == id
              && exists k :: 0 <= k < |rows| && rows[k] == r.value && forall j :: 0 <= j < k ==> rows[j].inmateId != id)
  {
    if |rows| == 0 then None
    else if rows[0].inmateId == id then Some(rows[0])
    else
      var rest := FindProfile(rows[1..], id);
      assert forall k :: 1 <= k < |rows| ==> rows[k] == rows[1..][k - 1];
      if rest.Some? then
        var k :| 0 <= k < |rows[1..]| && rows[1..][k] == rest.value
                 && forall j :: 0 <= j < k ==> rows[1..][j].inmateId != id;
        assert rows[k + 1] == rest.value;
        rest
      else rest
  }

  /** The checks every per-inmate route makes before predicting: model loaded (503),
      profile data uploaded (404), inmate present (404). */
  function LookupProfile<M>(profiles: Option<seq<ProfileRow>>, id: string, model: Option<M>): (r: Result<ProfileRow, int>)
    ensures r == Failure(ModelNotLoaded) <==> model.None?
    ensures r == Failure(NotFound) <==>
              model.Some? && (profiles.None? || FindProfile(profiles.value, id).None?)
    ensures r.Success? <==> model.Some? && profiles.Some? && FindProfile(profiles.value, id).Some?
    ensures r.Success? ==> profiles.Some? && Some(r.value) == FindProfile(profiles.value, id)
  {
    if model.None? then Failure(ModelNotLoaded)
    else if profiles.None? then Failure(NotFound)
    else
      match FindProfile(profiles.value, id)
      case None => Failure(NotFound)
      case Some(row) => Success(row)
  }

  datatype Weight = High | Medium | Informational

  /** The factors a prediction can list, by their display name. */
  datatype FactorName =
    | BehaviorScore | DisciplineScore | ProgramsCompleted | TimeServed | LowRisk | HighRisk
    | RecommendedTraining | ExcellentBehavior | BehaviorNeedsImprovement | NoViolations | InstitutionalViolations
  {
    function Label(): string
    {
      match this
      case BehaviorScore => "Behavior Score"
      case DisciplineScore => "Discipline Score"
      case ProgramsCompleted => "Programs Completed"
      case TimeServed => "Time Served"
      case LowRisk => "Low Risk"
      case HighRisk => "High Risk"
      case RecommendedTraining => "Recommended Programs"
      case ExcellentBehavior => "Excellent Behavior"
      case BehaviorNeedsImprovement => "Behavior Needs Improvement"
      case NoViolations => "No Violations"
      case InstitutionalViolations => "Institutional Violations"
    }
  }

  /** A factor's value: a number (the time-served share is shown as a percentage),
      or the list of training suggestions. */
  datatype FactorValue = Number(x: real) | Suggestions(names: seq<string>)
  datatype Factor = Factor(name: FactorName, value: FactorValue, weight: Weight)

  /** A prediction response; the formatted `reasoning` text is not modelled.
      Dates are day numbers. */
  datatype Prediction = Prediction(
    inmateId: string,
    predictionType: string,
    eligible: bool,
    probability: real,
    confidence: real,
    supporting: seq<Factor>,
    against: seq<Factor>,
    recommendation: string,
    predictedDate: Option<int>)

  /** Python `int(x)`: truncation toward zero. */
  function Truncate(x: real): (n: int)
    ensures x >= 0.0 ==> n as real <= x < n as real + 1.0
    ensures x < 0.0 ==> n as real - 1.0 < x <= n as real
  {
    if x >= 0.0 then x.Floor else -((-x).Floor)
  }

  /** Months until the predicted release: 3 for a certain release, 12 for the least likely one. */
  function MonthsToRelease(p: real): (m: int)
    ensures InUnit(p) ==> 3 <= m <= 12
    ensures p <= 1.0 ==> m as real <= 3.0 + (1.0 - p) * 9.0 < m as real + 1.0
    ensures p == 1.0 ==> m == 3
    ensures p == 0.0 ==> m == 12
  {
    Truncate(3.0 + (1.0 - p) * 9.0)
  }

  /** The predicted release day: `today` plus 30 days per month to release. */
  function ReleaseDay(today: int, p: real): (day: int)
    ensures InUnit(p) ==> 90 <= day - today <= 360 && (day - today) % 30 == 0
    ensures (day - today) / 30 == MonthsToRelease(p)
  {
    today + MonthsToRelease(p) * 30
  }

  /** A likelier release is never predicted later. */
  lemma MonthsToReleaseMonotone(p: real, q: real)
    requires InUnit(p) && InUnit(q) && p <= q
    ensures MonthsToRelease(q) <= MonthsToRelease(p)
  {
    var x := 3.0 + (1.0 - p) * 9.0;
    var y := 3.0 + (1.0 - q) * 9.0;
    assert y <= x;
  }

  /** The early-release advice, by probability of eligibility. */
  datatype ReleaseAdvice = StronglyRecommend | RecommendReview | NotRecommended
  {
    function Text(): string
    {
      match this
      case StronglyRecommend => "Strongly recommend early release consideration"
      case RecommendReview => "Recommend early release review"
      case NotRecommended => "Not recommended for early release at this time"
    }
  }

  function EarlyReleaseAdvice(p: real): (a: ReleaseAdvice)
    ensures a == StronglyRecommend <==> p > 0.7
    ensures a == RecommendReview <==> 0.5 < p <= 0.7
    ensures a == NotRecommended <==> p <= 0.5
  {
    if p > 0.7 then StronglyRecommend
    else if p > 0.5 then RecommendReview
    else NotRecommended
  }

  /** The factors that can speak for early release, in the order they are tested. */
  function SupportCandidates(row: ProfileRow, servedShare: real): seq<Factor>
  {
    [ Factor(BehaviorScore, Number(row.behaviorScore), High),
      Factor(DisciplineScore, Number(row.disciplineScore), High),
      Factor(ProgramsCompleted, Number(row.programsCompleted as real), Medium),
      Factor(TimeServed, Number(servedShare * 100.0), High),
      Factor(LowRisk, Number(row.riskScore), High) ]
  }

  /** The factors that can speak against it, in the order they are tested. */
  function AgainstCandidates(row: ProfileRow): seq<Factor>
  {
    [ Factor(BehaviorScore, Number(row.behaviorScore), High),
      Factor(DisciplineScore, Number(row.disciplineScore), Medium),
      Factor(ProgramsCompleted, Number(row.programsCompleted as real), Medium),
      Factor(HighRisk, Number(row.riskScore), High) ]
  }

  /** Each side's candidates carry different names, so no two are equal. */
  lemma CandidatesDistinct(row: ProfileRow, servedShare: real)
    ensures Lists.NoDuplicates(SupportCandidates(row, servedShare))
    ensures Lists.NoDuplicates(AgainstCandidates(row))
  {
  }

  predicate SupportsRelease(name: FactorName, row: ProfileRow, servedShare: real)
  {
    match name
    case BehaviorScore => row.behaviorScore > 70.0
    case DisciplineScore => row.disciplineScore > 70.0
    case ProgramsCompleted => row.programsCompleted >= 2
    case TimeServed => servedShare > 0.5
    case LowRisk => row.riskScore < 0.4
    case _ => false
  }

  /** The complement of the first three support tests; a risk above 0.6 (which
      the `elif` only reaches when the risk is not below 0.4). */
  predicate OpposesRelease(name: FactorName, row: ProfileRow)
  {
    match name
    case BehaviorScore => row.behaviorScore <= 70.0
    case DisciplineScore => row.disciplineScore <= 70.0
    case ProgramsCompleted => row.programsCompleted < 2
    case HighRisk => row.riskScore > 0.6
    case _ => false
  }

  /** The factors for and against early release: each candidate whose test passes, in order. */
  function EarlyReleaseFactors(row: ProfileRow, servedShare: real): (sides: (seq<Factor>, seq<Factor>))
    ensures forall f :: f in sides.0 <==> f in SupportCandidates(row, servedShare) && SupportsRelease(f.name, row, servedShare)
    ensures forall f :: f in sides.1 <==> f in AgainstCandidates(row) && OpposesRelease(f.name, row)
    ensures |sides.0| <= 5 && |sides.1| <= 4
    ensures Lists.FollowsOrderOf(sides.0, SupportCandidates(row, servedShare))
    ensures Lists.FollowsOrderOf(sides.1, AgainstCandidates(row))
  {
    var supports := (f: Factor) => SupportsRelease(f.name, row, servedShare);
    var opposes := (f: Factor) => OpposesRelease(f.name, row);
    CandidatesDistinct(row, servedShare);
    Lists.FilterIndexOrder(SupportCandidates(row, servedShare), supports);
    Lists.FilterIndexOrder(AgainstCandidates(row), opposes);
    (Lists.Filter(SupportCandidates(row, servedShare), supports), Lists.Filter(AgainstCandidates(row), opposes))
  }

  /** Each factor that can support release is listed exactly when its test passes. */
  lemma SupportingFactors(row: ProfileRow, servedShare: real)
    ensures var sides := EarlyReleaseFactors(row, servedShare);
      && (Factor(BehaviorScore, Number(row.behaviorScore), High) in sides.0 <==> row.behaviorScore > 70.0)
      && (Factor(DisciplineScore, Number(row.disciplineScore), High) in sides.0 <==> row.disciplineScore > 70.0)
      && (Factor(ProgramsCompleted, Number(row.programsCompleted as real), Medium) in sides.0 <==> row.programsCompleted >= 2)
      && (Factor(TimeServed, Number(servedShare * 100.0), High) in sides.0 <==> servedShare > 0.5)
      && (Factor(LowRisk, Number(row.riskScore), High) in sides.0 <==> row.riskScore < 0.4)
  {
    SupportsBehavior(row, servedShare);
    SupportsDiscipline(row, servedShare);
    SupportsPrograms(row, servedShare);
    SupportsTimeServed(row, servedShare);
    SupportsLowRisk(row, servedShare);
  }

  // One lemma per candidate keeps each proof's context small.

  lemma SupportsBehavior(row: ProfileRow, servedShare: real)
    ensures Factor(BehaviorScore, Number(row.behaviorScore), High) in EarlyReleaseFactors(row, servedShare).0 <==> row.behaviorScore > 70.0
  {
    SupportCandidateEntries(row, servedShare);
    SupportListed(row, servedShare, 0);
  }

  lemma SupportsDiscipline(row: ProfileRow, servedShare: real)
    ensures Factor(DisciplineScore, Number(row.disciplineScore), High) in EarlyReleaseFactors(row, servedShare).0 <==> row.disciplineScore > 70.0
  {
    SupportCandidateEntries(row, servedShare);
    SupportListed(row, servedShare, 1);
  }

  lemma SupportsPrograms(row: ProfileRow, servedShare: real)
    ensures Factor(ProgramsCompleted, Number(row.programsCompleted as real), Medium) in EarlyReleaseFactors(row, servedShare).0 <==> row.programsCompleted >= 2
  {
    SupportCandidateEntries(row, servedShare);
    SupportListed(row, servedShare, 2);
  }

  lemma SupportsTimeServed(row: ProfileRow, servedShare: real)
    ensures Factor(TimeServed, Number(servedShare * 100.0), High) in EarlyReleaseFactors(row, servedShare).0 <==> servedShare > 0.5
  {
    SupportCandidateEntries(row, servedShare);
    SupportListed(row, servedShare, 3);
  }

  lemma SupportsLowRisk(row: ProfileRow, servedShare: real)
    ensures Factor(LowRisk, Number(row.riskScore), High) in EarlyReleaseFactors(row, servedShare).0 <==> row.riskScore < 0.4
  {
    SupportCandidateEntries(row, servedShare);
    SupportListed(row, servedShare, 4);
  }

  /** The support candidates, entry by entry. */
  lemma SupportCandidateEntries(row: ProfileRow, servedShare: real)
    ensures var c := SupportCandidates(row, servedShare);
      && c[0] == Factor(BehaviorScore, Number(row.behaviorScore), High)
      && c[1] == Factor(DisciplineScore, Number(row.disciplineScore), High)
      && c[2] == Factor(ProgramsCompleted, Number(row.programsCompleted as real), Medium)
      && c[3] == Factor(TimeServed, Number(servedShare * 100.0), High)
      && c[4] == Factor(LowRisk, Number(row.riskScore), High)
  {
  }

  lemma SupportListed(row: ProfileRow, servedShare: real, k: int)
    requires 0 <= k < 5
    ensures var f := SupportCandidates(row, servedShare)[k];
      f in EarlyReleaseFactors(row, servedShare).0 <==> SupportsRelease(f.name, row, servedShare)
  {
    var support := SupportCandidates(row, servedShare);
    assert support[k] in support;
  }

  /** Each factor that can speak against release is listed exactly when its
      test passes; the behavior and programs factors land on exactly one side. */
  lemma OpposingFactors(row: ProfileRow, servedShare: real)
    ensures var sides := EarlyReleaseFactors(row, servedShare);
      && (Factor(BehaviorScore, Number(row.behaviorScore), High) in sides.1 <==> row.behaviorScore <= 70.0)
      && (Factor(DisciplineScore, Number(row.disciplineScore), Medium) in sides.1 <==> row.disciplineScore <= 70.0)
      && (Factor(ProgramsCompleted, Number(row.programsCompleted as real), Medium) in sides.1 <==> row.programsCompleted < 2)
      && (Factor(HighRisk, Number(row.riskScore), High) in sides.1 <==> row.riskScore > 0.6)
  {
    AgainstListed(row, servedShare, 0);
    AgainstListed(row, servedShare, 1);
    AgainstListed(row, servedShare, 2);
    AgainstListed(row, servedShare, 3);
  }

  lemma AgainstListed(row: ProfileRow, servedShare: real, k: int)
    requires 0 <= k < 4
    ensures var f := AgainstCandidates(row)[k];
      f in EarlyReleaseFactors(row, servedShare).1 <==> OpposesRelease(f.name, row)
  {
    var against := AgainstCandidates(row);
    assert against[k] in against;
  }

  /** predict_early_release. The share of the sentence served divides by the
      sentence length; for a zero-length sentence the quotient is not finite and
      the feature scaler raises, which the route answers with 500. A release date
      is predicted, `today` plus 30 days per month, only for an eligible inmate. */
  function EarlyRelease(profiles: Option<seq<ProfileRow>>, id: string, model: Option<ProfileRow -> Inference>,
                        today: int): (answer: Result<Prediction, int>)
    ensures LookupProfile(profiles, id, model).Failure? ==> answer == Failure(LookupProfile(profiles, id, model).error)
    ensures answer == Failure(InternalError) <==>
              LookupProfile(profiles, id, model).Success?
              && var row := LookupProfile(profiles, id, model).value;
                 row.sentenceLengthMonths == 0 || !InRange(model.value(row))
    ensures answer.Success? ==>
              var row := LookupProfile(profiles, id, model).value;
              var inference := model.value(row);
              && row.sentenceLengthMonths != 0 && InRange(inference)
              && answer.value.inmateId == id && answer.value.predictionType == "early_release"
              && answer.value.eligible == inference.eligible
              && answer.value.probability == inference.probabilityEligible
              && answer.value.confidence == inference.confidence
              && answer.value.recommendation == EarlyReleaseAdvice(inference.probabilityEligible).Text()
              && (answer.value.supporting, answer.value.against)
                   == EarlyReleaseFactors(row, row.timeServedMonths as real / row.sentenceLengthMonths as real)
              && (answer.value.predictedDate.Some? <==> inference.eligible)
              && (inference.eligible ==>
                    answer.value.predictedDate == Some(ReleaseDay(today, inference.probabilityEligible)))
  {
    var found := LookupProfile(profiles, id, model);
    if found.Failure? then Failure(found.error)
    else
      var row := found.value;
      if row.sentenceLengthMonths == 0 then Failure(InternalError)
      else
        var inference := model.value(row);
        if !InRange(inference) then Failure(InternalError)
        else
          var share := row.timeServedMonths as real / row.sentenceLengthMonths as real;
          var sides := EarlyReleaseFactors(row, share);
          Success(Prediction(
            id, "early_release", inference.eligible, inference.probabilityEligible, inference.confidence,
            sides.0, sides.1, EarlyReleaseAdvice(inference.probabilityEligible).Text(),
            if inference.eligible then Some(ReleaseDay(today, inference.probabilityEligible)) else None))
  }

  /** The two training suggestions for an age bracket: under 35, under 50, 50 and over. */
  function TrainingSuggestions(age: int): (ts: seq<string>)
    ensures |ts| == 2
    ensures age < 35 ==> ts[0] == "IT Basics - High demand, good long-term prospects"
    ensures 35 <= age < 50 ==> ts[0] == "Carpentry - Versatile trade skill"
    ensures age >= 50 ==> ts[0] == "Agriculture - Age-appropriate, steady work"
  {
    if age < 35 then ["IT Basics - High demand, good long-term prospects", "Welding - High demand industrial skill"]
    else if age < 50 then ["Carpentry - Versatile trade skill", "Automotive - Practical maintenance skills"]
    else ["Agriculture - Age-appropriate, steady work", "Culinary - Service industry opportunities"]
  }

  /** predict_industrial_training: the first suggestion is the recommendation, the
      pair is the only supporting factor, nothing weighs against. `educationLevels`
      are the labels the fitted education encoder knows; encoding any other level
      raises, which the route answers with 500. */
  function IndustrialTraining(profiles: Option<seq<ProfileRow>>, id: string, model: Option<ProfileRow -> Inference>,
                              educationLevels: set<string>)
    : (answer: Result<Prediction, int>)
    ensures LookupProfile(profiles, id, model).Failure? ==> answer == Failure(LookupProfile(profiles, id, model).error)
    ensures answer == Failure(InternalError) <==>
              LookupProfile(profiles, id, model).Success?
              && var row := LookupProfile(profiles, id, model).value;
                 row.educationLevel !in educationLevels || !InRange(model.value(row))
    ensures answer.Success? ==>
              var row := LookupProfile(profiles, id, model).value;
              var inference := model.value(row);
              var ts := TrainingSuggestions(row.age);
              && row.educationLevel in educationLevels
              && answer.value.inmateId == id
              && answer.value.predictionType == "industrial_training"
              && answer.value.eligible == inference.eligible
              && answer.value.probability == inference.probabilityEligible
              && answer.value.confidence == inference.confidence
              && answer.value.recommendation == ts[0]
              && answer.value.supporting == [Factor(RecommendedTraining, Suggestions(ts), Informational)]
              && answer.value.against == [] && answer.value.predictedDate.None?
  {
    var found := LookupProfile(profiles, id, model);
    if found.Failure? then Failure(found.error)
    else
      var row := found.value;
      var inference := model.value(row);
      // The education encoder raises on a level it was not fitted on.
      if row.educationLevel !in educationLevels || !InRange(inference) then Failure(InternalError)
      else
        var ts := TrainingSuggestions(row.age);
        Success(Prediction(
          id, "industrial_training", inference.eligible, inference.probabilityEligible, inference.confidence,
          [Factor(RecommendedTraining, Suggestions(ts), Informational)], [],
          if |ts| > 0 then ts[0] else "General vocational training", None))
  }

  /** The kind of home leave a probability of approval earns. */
  datatype LeaveType = EarnedLeave | FamilyVisit | EmergencyOnly
  {
    function Text(): string
    {
      match this
      case EarnedLeave => "Earned leave (up to 7 days)"
      case FamilyVisit => "Family visit (2-3 days)"
      case EmergencyOnly => "Emergency only"
    }
  }

  function LeaveTypeFor(p: real): (t: LeaveType)
    ensures t == EarnedLeave <==> p > 0.8
    ensures t == FamilyVisit <==> 0.6 < p <= 0.8
    ensures t == EmergencyOnly <==> p <= 0.6
  {
    if p > 0.8 then EarnedLeave
    else if p > 0.6 then FamilyVisit
    else EmergencyOnly
  }

  /** A likelier approval never earns a narrower kind of leave. */
  lemma LeaveTypeMonotone(p: real, q: real)
    requires p <= q
    ensures LeaveTypeFor(p) == EarnedLeave ==> LeaveTypeFor(q) == EarnedLeave
    ensures LeaveTypeFor(q) == EmergencyOnly ==> LeaveTypeFor(p) == EmergencyOnly
  {
  }

  /** predict_home_leave: the leave type by probability; behavior above 75 and a
      clean violation record support, otherwise each weighs against. */
  function HomeLeave(profiles: Option<seq<ProfileRow>>, id: string, model: Option<ProfileRow -> Inference>)
    : (answer: Result<Prediction, int>)
    ensures LookupProfile(profiles, id, model).Failure? ==> answer == Failure(LookupProfile(profiles, id, model).error)
    ensures answer == Failure(InternalError) <==>
              LookupProfile(profiles, id, model).Success? && !InRange(model.value(LookupProfile(profiles, id, model).value))
    ensures answer.Success? ==>
              var row := LookupProfile(profiles, id, model).value;
              var inference := model.value(row);
              && answer.value.inmateId == id
              && answer.value.predictionType == "home_leave"
              && answer.value.eligible == inference.eligible
              && answer.value.probability == inference.probabilityEligible
              && answer.value.confidence == inference.confidence
              && answer.value.predictedDate.None?
              && answer.value.recommendation == LeaveTypeFor(inference.probabilityEligible).Text()
              && |answer.value.supporting| + |answer.value.against| == 2
              && (Factor(ExcellentBehavior, Number(row.behaviorScore), High) in answer.value.supporting <==> row.behaviorScore > 75.0)
              && (Factor(BehaviorNeedsImprovement, Number(row.behaviorScore), High) in answer.value.against <==> row.behaviorScore <= 75.0)
              && (Factor(NoViolations, Number(0.0), High) in answer.value.supporting <==> row.institutionalViolations == 0)
              && (Factor(InstitutionalViolations, Number(row.institutionalViolations as real), High) in answer.value.against <==> row.institutionalViolations != 0)
    // When both checks land on the same side, the behavior check comes first.
    ensures answer.Success? && |answer.value.supporting| == 2 ==>
              answer.value.supporting[0].name == ExcellentBehavior && answer.value.supporting[1].name == NoViolations
    ensures answer.Success? && |answer.value.against| == 2 ==>
              answer.value.against[0].name == BehaviorNeedsImprovement
              && answer.value.against[1].name == InstitutionalViolations
  {
    var found := LookupProfile(profiles, id, model);
    if found.Failure? then Failure(found.error)
    else
      var row := found.value;
      var inference := model.value(row);
      if !InRange(inference) then Failure(InternalError)
      else
        var behaviorGood := row.behaviorScore > 75.0;
        var clean := row.institutionalViolations == 0;
        var behavior :=
          if behaviorGood then Factor(ExcellentBehavior, Number(row.behaviorScore), High)
          else Factor(BehaviorNeedsImprovement, Number(row.behaviorScore), High);
        var violations :=
          if clean then Factor(NoViolations, Number(0.0), High)
          else Factor(InstitutionalViolations, Number(row.institutionalViolations as real), High);
        Success(Prediction(
          id, "home_leave", inference.eligible, inference.probabilityEligible, inference.confidence,
          When(behaviorGood, behavior) + When(clean, violations),
          When(!behaviorGood, behavior) + When(!clean, violations),
          LeaveTypeFor(inference.probabilityEligible).Text(), None))
  }

  /** The three per-inmate routes share their lookup: each fails with the lookup's
      status when it fails; for a found inmate whose inference lies in range, the
      leave route answers for that inmate, the training route does exactly when
      the encoder knows the education level, and the early-release route does
      exactly when the sentence length is not zero. */
  lemma PerInmateRoutesShareLookup(profiles: Option<seq<ProfileRow>>, id: string,
                                   model: Option<ProfileRow -> Inference>, educationLevels: set<string>, today: int)
    ensures var found := LookupProfile(profiles, id, model);
      found.Failure? ==>
        && EarlyRelease(profiles, id, model, today) == Failure(found.error)
        && IndustrialTraining(profiles, id, model, educationLevels) == Failure(found.error)
        && HomeLeave(profiles, id, model) == Failure(found.error)
    ensures var found := LookupProfile(profiles, id, model);
      found.Success? && InRange(model.value(found.value)) ==>
        && (found.value.educationLevel in educationLevels <==> IndustrialTraining(profiles, id, model, educationLevels).Success?)
        && (IndustrialTraining(profiles, id, model, educationLevels).Success? ==>
              IndustrialTraining(profiles, id, model, educationLevels).value.inmateId == id)
        && HomeLeave(profiles, id, model).Success? && HomeLeave(profiles, id, model).value.inmateId == id
        && (EarlyRelease(profiles, id, model, today).Success? <==> found.value.sentenceLengthMonths != 0)
  {
  }

  /** The three routes report the same verdict for an inmate: the classifier's.
      When early release answers, home leave does too, and training does unless
      the encoder does not know the inmate's education level. */
  lemma PerInmateRoutesAgreeOnVerdict(profiles: Option<seq<ProfileRow>>, id: string,
                                      model: Option<ProfileRow -> Inference>, educationLevels: set<string>, today: int)
    requires EarlyRelease(profiles, id, model, today).Success?
    ensures HomeLeave(profiles, id, model).Success?
    ensures var row := LookupProfile(profiles, id, model).value;
      row.educationLevel in educationLevels <==> IndustrialTraining(profiles, id, model, educationLevels).Success?
    ensures var e := EarlyRelease(profiles, id, model, today).value;
      var h := HomeLeave(profiles, id, model).value;
      e.eligible == h.eligible && e.probability == h.probability && e.confidence == h.confidence
    ensures IndustrialTraining(profiles, id, model, educationLevels).Success? ==>
      var e := EarlyRelease(profiles, id, model, today).value;
      var t := IndustrialTraining(profiles, id, model, educationLevels).value;
      e.eligible == t.eligible && e.probability == t.probability && e.confidence == t.confidence
  {
  }

  /** Of two eligible early-release predictions for the same inmate, the likelier
      one never predicts the later date. */
  lemma LikelierReleaseIsNoLater(profiles: Option<seq<ProfileRow>>, id: string,
                                 m1: ProfileRow -> Inference, m2: ProfileRow -> Inference, today: int)
    requires EarlyRelease(profiles, id, Some(m1), today).Success? && EarlyRelease(profiles, id, Some(m2), today).Success?
    requires EarlyRelease(profiles, id, Some(m1), today).value.eligible
    requires EarlyRelease(profiles, id, Some(m2), today).value.eligible
    requires EarlyRelease(profiles, id, Some(m1), today).value.probability
             <= EarlyRelease(profiles, id, Some(m2), today).value.probability
    ensures EarlyRelease(profiles, id, Some(m2), today).value.predictedDate.value
            <= EarlyRelease(profiles, id, Some(m1), today).value.predictedDate.value
  {
    MonthsToReleaseMonotone(EarlyRelease(profiles, id, Some(m1), today).value.probability,
                            EarlyRelease(profiles, id, Some(m2), today).value.probability);
  }

  /** Of two home-leave predictions for the same inmate, the likelier one never
      earns a narrower kind of leave. */
  lemma LikelierLeaveIsNoNarrower(profiles: Option<seq<ProfileRow>>, id: string,
                                  m1: ProfileRow -> Inference, m2: ProfileRow -> Inference)
    requires HomeLeave(profiles, id, Some(m1)).Success? && HomeLeave(profiles, id, Some(m2)).Success?
    requires HomeLeave(profiles, id, Some(m1)).value.probability <= HomeLeave(profiles, id, Some(m2)).value.probability
    ensures HomeLeave(profiles, id, Some(m1)).value.recommendation == EarnedLeave.Text() ==>
              HomeLeave(profiles, id, Some(m2)).value.recommendation == EarnedLeave.Text()
    ensures HomeLeave(profiles, id, Some(m2)).value.recommendation == EmergencyOnly.Text() ==>
              HomeLeave(profiles, id, Some(m1)).value.recommendation == EmergencyOnly.Text()
  {
    var p := HomeLeave(profiles, id, Some(m1)).value.probability;
    var q := HomeLeave(profiles, id, Some(m2)).value.probability;
    LeaveTypeMonotone(p, q);
    LeaveTextsDistinct();
  }

  lemma LeaveTextsDistinct()
    ensures EarnedLeave.Text() != FamilyVisit.Text() && EarnedLeave.Text() != EmergencyOnly.Text()
    ensures FamilyVisit.Text() != EmergencyOnly.Text()
  {
    assert EarnedLeave.Text()[0] != FamilyVisit.Text()[0];
    assert EarnedLeave.Text()[1] != EmergencyOnly.Text()[1];
    assert FamilyVisit.Text()[0] != EmergencyOnly.Text()[0];
  }

  /** The training advice depends on the inmate's age alone, not on the verdict. */
  lemma TrainingIgnoresVerdict(profiles: Option<seq<ProfileRow>>, id: string,
                               m1: ProfileRow -> Inference, m2: ProfileRow -> Inference, educationLevels: set<string>)
    requires IndustrialTraining(profiles, id, Some(m1), educationLevels).Success?
    requires IndustrialTraining(profiles, id, Some(m2), educationLevels).Success?
    ensures var a := IndustrialTraining(profiles, id, Some(m1), educationLevels).value;
      var b := IndustrialTraining(profiles, id, Some(m2), educationLevels).value;
      a.recommendation == b.recommendation && a.supporting == b.supporting && a.against == b.against
  {
  }
}
