# Prison management rehabilitation core, modelled in Dafny

This project models the decision logic of a prison management system's
rehabilitation and inmate services as pure Dafny functions over immutable data,
and proves what the code promises about them. It covers:

- **Rehabilitation service (Java).**
  - The assignment scorer that ranks rehabilitation stations and medical officers
    (`Assignment`).
  - The AI client and its rule-based fallback (`AIClient`, with the wire types in
    `RecommendationApi`).
  - The recommendation pipeline: get-or-create profile, program lookup, needs and
    zone, the saved PENDING recommendation, and progress logging that completes a
    recommendation at 100 percent (`Rehabilitation`, over the store in
    `RehabRecords`).
- **Rehabilitation AI service (Python).**
  - The rule-based program recommender (`RuleRecommender`).
  - The keyword notes analyser (`NotesAnalysis`).
  - The language-model client's disabled and error fallbacks, including the
    week-by-week fallback plan (`LlmFallback`).
  - The rule logic the prediction routes wrap around their classifiers
    (`Predictions`).
  - The dataset upload, validation, paging and delete endpoints
    (`DatasetUpload`).
- **Inmate service (Java).**
  - The inmate record's defaults and derived fields (`Inmates`, over proleptic
    Gregorian dates in `Calendar`).
  - The service's create, update, release, transfer, delete and filter rules
    over an in-memory registry (`InmateService`).

Scores are `real`, not IEEE doubles. Anything the code reads from outside is
an explicit parameter:

- the clock ("today" and the stored timestamps);
- the remote AI service's answer or exception (`Exchange`);
- the language model's answer, "disabled" or exception (`LlmCall`);
- the trained classifier's verdict;
- the parsed upload.

A thrown exception is a `Failure`, and the HTTP routes' status codes are
modelled as the integers they send. Where a
`@Transactional` method throws, its store is left unchanged. Java's
`(int)` narrowing cast on day counts is modelled as 32-bit wrap-around.

Notes on the code's behaviour:

- The officer score keeps the station weights 0.4 / 0.2 / 0.2 without
  renormalising, so it never exceeds 0.8.
- The load score is not clamped.
- `findBestProgram` does not filter on `active`.
- The caller's inmate data is used only when a profile is first created.
- No assignment reserves capacity or increments a load.

In the early-release route a zero sentence length makes the served share
infinite (or undefined), which the feature scaler rejects; the model answers
500 for it.

Small shared helpers live in `Wrappers` (Option and Result), `Text` (ASCII
lower-casing, case-insensitive equality, substring search, Python's `strip` over Python's full whitespace set, Unicode spaces included)
and `Lists` (filter, count, order-preserving de-duplication). They need no rows
of their own.

## Model

| member | source | states |
|---|---|---|
| Assignment.SpecializationMatch | backend/rehabilitation-service/src/main/java/com/pms/rehabilitationservice/service/AssignmentService.java:111-121 | Empty needs give the neutral 0.5. Needs without specializations give 0. Otherwise the score is in [0,1]: it is 1 exactly when every need equals some specialization ignoring case, and 0 exactly when none does. |
| Assignment.CountCoveredAll | backend/rehabilitation-service/src/main/java/com/pms/rehabilitationservice/service/AssignmentService.java:115-120 | The count of covered needs equals the number of needs iff every need is covered. |
| Assignment.CountCoveredNone | backend/rehabilitation-service/src/main/java/com/pms/rehabilitationservice/service/AssignmentService.java:115-120 | The count of covered needs is zero iff no need is covered. |
| Assignment.SingleNeedMatchIsBinary | backend/rehabilitation-service/src/main/java/com/pms/rehabilitationservice/service/AssignmentService.java:115-120 | With a single need the match is 1 if some specialization equals it ignoring case, else 0. |
| Assignment.Proximity | backend/rehabilitation-service/src/main/java/com/pms/rehabilitationservice/service/AssignmentService.java:126-129 | The proximity score is in (0,1]. It is the neutral 0.5 exactly when either zone is unknown, and the same-zone 1.0 exactly when both are known and equal ignoring case. Two known zones that differ give 0.3. |
| Assignment.LoadScore | backend/rehabilitation-service/src/main/java/com/pms/rehabilitationservice/service/AssignmentService.java:134-138 | Capacity 0 gives 0. A load between 0 and capacity gives a score in [0,1], strictly positive below capacity and 0 at capacity. Otherwise score·capacity = capacity − load. |
| Assignment.LoadScoreDecreasing | backend/rehabilitation-service/src/main/java/com/pms/rehabilitationservice/service/AssignmentService.java:134-138 | For a positive capacity, a strictly higher load gives a strictly lower load score. |
| Assignment.StationScore | backend/rehabilitation-service/src/main/java/com/pms/rehabilitationservice/service/AssignmentService.java:83-93 | With a success rate in [0,1] (or unset) and 0 ≤ load ≤ capacity, the weighted station score lies in [0,1]. |
| Assignment.OfficerScore | backend/rehabilitation-service/src/main/java/com/pms/rehabilitationservice/service/AssignmentService.java:98-106 | Under the same conditions the officer score lies in [0, 0.8]: the proximity weight is dropped and not redistributed. |
| Assignment.ProximityAgainstLoad | backend/rehabilitation-service/src/main/java/com/pms/rehabilitationservice/service/AssignmentService.java:83-93 | Two stations alike except zone and load: the out-of-zone one scores lower exactly when its load-score advantage is under 0.7. |
| Assignment.FirstMaxIndex | backend/rehabilitation-service/src/main/java/com/pms/rehabilitationservice/service/AssignmentService.java:42-46 | The index picks a maximal score and every earlier score is strictly smaller, so ties go to the earliest candidate. |
| Assignment.AssignStation | backend/rehabilitation-service/src/main/java/com/pms/rehabilitationservice/service/AssignmentService.java:34-47 | No station iff none is active with spare capacity. Otherwise the result is an available station whose score is at least every available station's, and no earlier available station scores as high. |
| Assignment.OfficerCandidates | backend/rehabilitation-service/src/main/java/com/pms/rehabilitationservice/service/AssignmentService.java:53-65 | The candidates are exactly the available officers, restricted to the given station when one is given. |
| Assignment.AssignOfficer | backend/rehabilitation-service/src/main/java/com/pms/rehabilitationservice/service/AssignmentService.java:52-77 | No officer iff no available officer is pinned to the given station. Otherwise the result is an available officer at that station whose score is maximal among the candidates. |
| Assignment.AssignOfficerTakesFirstBest | backend/rehabilitation-service/src/main/java/com/pms/rehabilitationservice/service/AssignmentService.java:72-76 | The chosen officer is the first candidate with the maximal score. |
| Assignment.ZoneScenario | backend/rehabilitation-service/src/main/java/com/pms/rehabilitationservice/service/AssignmentService.java:34-47 | Example: an in-zone station with load 5 beats an out-of-zone station with load 1 (capacity 10). |
| Assignment.LoadScenario | backend/rehabilitation-service/src/main/java/com/pms/rehabilitationservice/service/AssignmentService.java:34-47 | Example: at load 9 the in-zone station loses to the lightly loaded out-of-zone one. |
| AIClient.Fallback | backend/rehabilitation-service/src/main/java/com/pms/rehabilitationservice/service/AIServiceClient.java:93-128 | The fallback holds exactly one program, with confidence 0.6 and the "AI service unavailable" explanation. The program is substance_abuse (12 weeks, 0.7) iff the group contains "substance". Otherwise it is mental_health (8 weeks, 0.7) iff the group contains "mental". Otherwise it is vocational (16 weeks, 0.6). |
| AIClient.GetRecommendations | backend/rehabilitation-service/src/main/java/com/pms/rehabilitationservice/service/AIServiceClient.java:32-50 | A failed call yields the fallback and never an error. A completed call yields the service's answer. The result is absent only when the service answered with nothing. |
| AIClient.FailureStillYieldsProgram | backend/rehabilitation-service/src/main/java/com/pms/rehabilitationservice/service/AIServiceClient.java:45-49 | Any failure of the remote call still yields a response with a first program of a known type. |
| AIClient.AnalyzeCounselingNotes | backend/rehabilitation-service/src/main/java/com/pms/rehabilitationservice/service/AIServiceClient.java:55-75 | A failed call gives "Analysis unavailable", an empty answer gives "Unable to analyze", and otherwise the rendered answer. |
| AIClient.CalculateEarlyReleaseScore | backend/rehabilitation-service/src/main/java/com/pms/rehabilitationservice/service/AIServiceClient.java:80-88 | A failed call gives 0.0; otherwise the service's value. |
| Rehabilitation.InitialProfile | backend/rehabilitation-service/src/main/java/com/pms/rehabilitationservice/service/RehabilitationService.java:197-205 | A new profile has group "general", risk 0.5, and features equal to the supplied data or an empty map. |
| Rehabilitation.ProfileFor | backend/rehabilitation-service/src/main/java/com/pms/rehabilitationservice/service/RehabilitationService.java:49-50 | An existing profile is reused unchanged; otherwise the initial profile is created. |
| Rehabilitation.FindBestProgram | backend/rehabilitation-service/src/main/java/com/pms/rehabilitationservice/service/RehabilitationService.java:207-214 | Absent programs throw. An empty list, or a catalog without the top program's type, gives nothing. Otherwise the result is the first catalog entry of that type, with no active filter. |
| Rehabilitation.ExtractNeeds | backend/rehabilitation-service/src/main/java/com/pms/rehabilitationservice/service/RehabilitationService.java:216-220 | The needs are the single suitability group, or "general" when it is unset. |
| Rehabilitation.ExtractZone | backend/rehabilitation-service/src/main/java/com/pms/rehabilitationservice/service/RehabilitationService.java:222-226 | The zone is the "zone" feature as text, or "general" when it is absent. A null zone value throws. |
| Rehabilitation.GenerateRecommendation | backend/rehabilitation-service/src/main/java/com/pms/rehabilitationservice/service/RehabilitationService.java:44-100 | Fails with "No suitable program found" exactly when the lookup finds nothing, and with the lookup's error when the lookup fails. When a program is found for a zone that renders, the recommendation succeeds iff the top program has a duration (a null duration is the only other failure); a missing station or officer does not stop it. On success, one PENDING recommendation is stored under the next id. It carries the program found, the top program's duration, and the predictor's explanation and confidence. Its station is the best station for the needs and zone, and its officer the best officer pinned to that station. Nothing changes on failure. |
| Rehabilitation.GeneratePreservesValid | backend/rehabilitation-service/src/main/java/com/pms/rehabilitationservice/service/RehabilitationService.java:81-94 | A successful generation keeps the store's invariant (ids below the counter, every progress log pointing at a stored recommendation). |
| Rehabilitation.NewInmateWithServiceDown | backend/rehabilitation-service/src/main/java/com/pms/rehabilitationservice/service/RehabilitationService.java:44-100 | A new inmate, the AI service down and a vocational catalog give a 16-week PENDING recommendation carrying the fallback's explanation and confidence. |
| Rehabilitation.LogProgress | backend/rehabilitation-service/src/main/java/com/pms/rehabilitationservice/service/RehabilitationService.java:155-179 | An unknown id throws. Otherwise exactly one log entry is appended, carrying the recommendation's inmate. The status becomes COMPLETED when the percentage is set and at least 100, and is kept otherwise. Nothing else changes. |
| Rehabilitation.LogPreservesValid | backend/rehabilitation-service/src/main/java/com/pms/rehabilitationservice/service/RehabilitationService.java:157-168 | Logging progress keeps the store's invariant. |
| Rehabilitation.LogSeriesCompletion | backend/rehabilitation-service/src/main/java/com/pms/rehabilitationservice/service/RehabilitationService.java:171-174 | After a series of logs, the recommendation is COMPLETED iff it already was or some entry reached 100. Each entry adds one log. |
| RuleRecommender.BranchOf | ai-modules/modules/rehabilitation/app/services/recommendation_service.py:77-131 | The branch is chosen in precedence order: substance/drug, then mental/ptsd, then violent, then the default. |
| RuleRecommender.SubstancePrograms | ai-modules/modules/rehabilitation/app/services/recommendation_service.py:78-93 | Two well-formed programs, led by substance_abuse: 12 weeks above risk 0.7, 8 weeks otherwise. |
| RuleRecommender.MentalPrograms | ai-modules/modules/rehabilitation/app/services/recommendation_service.py:96-111 | Two well-formed programs led by mental_health. |
| RuleRecommender.ViolentPrograms | ai-modules/modules/rehabilitation/app/services/recommendation_service.py:114-129 | Two well-formed programs led by behavior. |
| RuleRecommender.DefaultPrograms | ai-modules/modules/rehabilitation/app/services/recommendation_service.py:133-148 | Two well-formed programs led by a 16-week vocational program. |
| RuleRecommender.ProgramsByGroup | ai-modules/modules/rehabilitation/app/services/recommendation_service.py:68-150 | Every group yields two programs with positive durations and scores in [0,1]. They are led by the chosen branch's program type. |
| RuleRecommender.Confidence | ai-modules/modules/rehabilitation/app/services/recommendation_service.py:55 | The clamped confidence always lies in [0.60, 0.95]. |
| RuleRecommender.ConfidenceIsLinearOnValidRisk | ai-modules/modules/rehabilitation/app/services/recommendation_service.py:55 | For a risk in [0,1] the clamps never bite: the confidence is 0.7 + 0.15·risk, within [0.7, 0.85]. |
| RuleRecommender.Recommend | ai-modules/modules/rehabilitation/app/services/recommendation_service.py:46-66 | A null feature map or a risk outside [0,1] answers 422. Otherwise a null group or risk answers 500. Otherwise the answer holds the programs for the lower-cased group, the linear confidence, and an explanation naming the group. |
| RuleRecommender.ClientAlwaysGetsAProgram | backend/rehabilitation-service/src/main/java/com/pms/rehabilitationservice/service/AIServiceClient.java:32-50 | Whatever the AI service answers, the Java client receives a first program with a positive duration. |
| RuleRecommender.FallbackAgreesOnSubstance | backend/rehabilitation-service/src/main/java/com/pms/rehabilitationservice/service/AIServiceClient.java:103-108 | When the Java fallback picks substance_abuse, the Python recommender leads with it too. |
| RuleRecommender.FallbackAgreesOnMentalHealth | backend/rehabilitation-service/src/main/java/com/pms/rehabilitationservice/service/AIServiceClient.java:109-114 | When the Java fallback picks mental_health and the group does not mention "drug", the Python recommender leads with it too. |
| RuleRecommender.GeneralTakesDefaultBranch | ai-modules/modules/rehabilitation/app/services/recommendation_service.py:131-148 | The "general" group of a new profile takes the default branch. |
| RuleRecommender.InitialProfileScenario | ai-modules/modules/rehabilitation/app/services/recommendation_service.py:48-66 | A new profile (general, risk 0.5) gets the default programs with confidence 0.775. |
| NotesAnalysis.SentimentOf | ai-modules/modules/rehabilitation/app/services/nlp_service.py:61-74 | Positive iff a positive word occurs. Negative iff none does but a negative word does. Neutral otherwise. |
| NotesAnalysis.KeyPointsFrom | ai-modules/modules/rehabilitation/app/services/nlp_service.py:76-94 | A rule's point is listed iff one of its keywords occurs. The points keep the rules' order and none repeats. |
| NotesAnalysis.KeyPoints | ai-modules/modules/rehabilitation/app/services/nlp_service.py:76-94 | At most five points, each present iff its trigger occurs, in the fixed rule order. |
| NotesAnalysis.RuleLabelFacts | ai-modules/modules/rehabilitation/app/services/nlp_service.py:83-92 | The five key-point labels are distinct and differ from the default point. |
| NotesAnalysis.Summary | ai-modules/modules/rehabilitation/app/services/nlp_service.py:96-104 | Text of at most 150 characters is unchanged. Longer text becomes "Session summary: ", its first 150 characters, then "...". |
| NotesAnalysis.AnalyzeNotes | ai-modules/modules/rehabilitation/app/services/nlp_service.py:32-59 | Empty text is rejected. Sentiment and key points come from the lower-cased text and the summary from the original. The key points are exactly the fired rules' points in rule order, or the single default point when no rule fires. |
| NotesAnalysis.CaseInsensitiveClassification | ai-modules/modules/rehabilitation/app/services/nlp_service.py:44-50 | Texts equal ignoring case get the same sentiment and key points. |
| NotesAnalysis.PositiveNotesExample | ai-modules/modules/rehabilitation/app/services/nlp_service.py:66-70 | Example: a note about good progress is classified positive. |
| LlmFallback.ChatCompletion | ai-modules/modules/rehabilitation/app/core/openai_client.py:53-77 | Disabled gives "", an exception propagates, and an answer is returned stripped of leading and trailing whitespace as Python's `str.isspace` defines it (the no-break and ideographic spaces included). |
| LlmFallback.BlankAnswerLooksDisabled | ai-modules/modules/rehabilitation/app/core/openai_client.py:63-73 | An answer is indistinguishable from the disabled client iff it is all whitespace in Python's sense, Unicode spaces included. |
| LlmFallback.NoBreakSpaceLooksDisabled | ai-modules/modules/rehabilitation/app/core/openai_client.py:73 | An answer of a single no-break space completes with "", as a disabled client does. |
| LlmFallback.FallbackReasoning | ai-modules/modules/rehabilitation/app/core/openai_client.py:150-167 | The text opens with "demonstrates readiness" iff the prediction is eligible, and with "requires behavioral improvement" otherwise. The rest is the rendered figures. |
| LlmFallback.EligibilityReasoning | ai-modules/modules/rehabilitation/app/core/openai_client.py:78-148 | An answer is returned stripped of Python's whitespace, Unicode spaces included. When the client is disabled or the call fails, the fallback reasoning's opening follows the prediction. |
| LlmFallback.FallbackPlan | ai-modules/modules/rehabilitation/app/core/openai_client.py:238-274 | There are 3 objectives and one entry per week, numbered 1..n. Each entry has 3 activities, the first naming the lead program or group therapy. The 3 milestones fall at n÷3, 2n÷3 and n. |
| LlmFallback.MilestonesOrdered | ai-modules/modules/rehabilitation/app/core/openai_client.py:257-273 | The milestone weeks are non-decreasing and the last equals the duration. |
| LlmFallback.MilestonesOnScheduledWeeks | ai-modules/modules/rehabilitation/app/core/openai_client.py:246-273 | For plans of 3 weeks or more, every milestone falls on a scheduled week. |
| LlmFallback.ShortPlanMilestoneBeforeFirstWeek | ai-modules/modules/rehabilitation/app/core/openai_client.py:246-262 | A one- or two-week plan puts its first milestone at week 0, before any scheduled week. |
| LlmFallback.TwelveWeekMilestones | ai-modules/modules/rehabilitation/app/core/openai_client.py:257-273 | The default 12-week plan has milestones at weeks 4, 8 and 12. |
| LlmFallback.RehabilitationPlan | ai-modules/modules/rehabilitation/app/core/openai_client.py:169-236 | The model's plan is used when it answers; otherwise the fallback plan. |
| LlmFallback.ProgressInsights | ai-modules/modules/rehabilitation/app/core/openai_client.py:276-326 | Disabled and failed calls give their fixed non-empty notes; an answer is returned stripped of Python's whitespace, Unicode spaces included. |
| Predictions.RemainingSentence | ai-modules/modules/rehabilitation/app/api/predictions.py:108-110 | The remaining sentence is never negative. Served plus remaining equals the sentence until served exceeds it, and it is 0 from then on. |
| Predictions.EligibilityFeatures | ai-modules/modules/rehabilitation/app/api/predictions.py:100-124 | There are 11 features, in this order: behavior, discipline and risk scores, programs completed, attendance rate, time served, remaining sentence, prior convictions, violations, incidents and points deducted. A missing number reads as 0. The remaining sentence is the sentence less the time served, or 0 once time served reaches the sentence. |
| Predictions.NullNumbersReadAsZero | ai-modules/modules/rehabilitation/app/api/predictions.py:101-103 | A missing (null) time served, sentence length or attendance rate gives the same features as an explicit 0. |
| Predictions.SameFeaturesSameVerdict | ai-modules/modules/rehabilitation/app/api/predictions.py:111-131 | Two valid requests with the same features get the same answer status and the same eligibility, score and confidence: the model sees nothing but the features. |
| Lists.FilterKeepsOrder | backend/inmate-service/src/main/java/com/pms/inmateservice/service/InmateService.java:106-113 | The stream filter keeps order: each element that passes lands right after the elements that passed before it. |
| Lists.FilterIndexOrder | ai-modules/modules/rehabilitation/app/api/predictions.py:151-173 | On a list without repetitions, the kept elements follow the order of their positions in the list. This is the order of the routes' conditional appends. |
| Predictions.RiskFactors | ai-modules/modules/rehabilitation/app/api/predictions.py:151-173 | Each risk factor is listed iff its threshold is crossed (behavior < 60, discipline < 60, risk > 0.6, violations > 3, the substance and mental-health flags), in that test order. There are at most six. |
| Predictions.Strengths | ai-modules/modules/rehabilitation/app/api/predictions.py:176-194 | Each strength is listed iff its threshold is crossed (behavior > 70, discipline > 70, risk < 0.4, programs > 2, attendance > 0.8), in that test order. There are at most five. |
| Predictions.FactorsAndStrengthsDisjoint | ai-modules/modules/rehabilitation/app/api/predictions.py:151-185 | No score is both a risk factor and a strength. |
| Predictions.AppendedPrograms | ai-modules/modules/rehabilitation/app/api/predictions.py:151-182 | A rule program is appended iff its condition holds, each at most once, in the order the rules are tested. |
| Predictions.RecommendedPrograms | ai-modules/modules/rehabilitation/app/api/predictions.py:196-201 | The list is never empty and has no duplicates. It is the de-duplicated rule programs in first-occurrence order, or the two defaults when no rule fired. A program is listed iff its rule fires. |
| Predictions.DefaultProgramsIff | ai-modules/modules/rehabilitation/app/api/predictions.py:199-201 | The defaults are returned exactly when behavior and discipline are in [60,70], risk is at most 0.6, and neither flag is set. |
| Predictions.Breakdown | ai-modules/modules/rehabilitation/app/api/predictions.py:146-190 | The breakdown holds behavior, discipline and risk, and no other key except program completion, which it holds iff more than 2 programs were completed. Behavior and discipline are their scores over 100, and completion is programs over 5, capped at 1. Risk + risk score = 1. For valid requests all entries are in [0,1] and completion is at least 0.6. |
| Predictions.AssessmentReasoning | ai-modules/modules/rehabilitation/app/api/predictions.py:203-234 | The reasoning is never empty. An answer that is not blank (blank: nothing but Python whitespace, Unicode spaces included) is used stripped. A failed call uses the client's fallback, and a disabled or blank one the route's own text; each opens according to the verdict. |
| Predictions.AssessEligibility | ai-modules/modules/rehabilitation/app/api/predictions.py:73-252 | 422 iff the request breaks the schema. 503 iff the model is not loaded. 500 iff the verdict's probabilities fall outside [0,1]. The model is applied to the request's features. Otherwise the response carries the verdict together with the programs, risk factors, strengths, breakdown and reasoning derived above. |
| Predictions.FindProfile | ai-modules/modules/rehabilitation/app/api/predictions.py:273-278 | The first row with the id, or nothing when no row has it. |
| Predictions.LookupProfile | ai-modules/modules/rehabilitation/app/api/predictions.py:266-276 | 503 iff the model is not loaded. 404 iff no profiles are loaded or none matches. Success iff the model is loaded and a row matches; then it is the first matching row. |
| Predictions.Truncate | ai-modules/modules/rehabilitation/app/api/predictions.py:334 | Python's int() truncates toward zero. |
| Predictions.MonthsToRelease | ai-modules/modules/rehabilitation/app/api/predictions.py:334 | For p in [0,1] the months to release lie in [3,12]: 3 at p = 1 and 12 at p = 0. They are 3 + (1 - p) * 9 truncated: at most that value and more than it less one. |
| Predictions.MonthsToReleaseMonotone | ai-modules/modules/rehabilitation/app/api/predictions.py:334 | A higher probability never means a later release. |
| Predictions.ReleaseDay | ai-modules/modules/rehabilitation/app/api/predictions.py:335 | The predicted date is 90 to 360 days ahead, in whole 30-day months. |
| Predictions.EarlyReleaseAdvice | ai-modules/modules/rehabilitation/app/api/predictions.py:338-343 | "Strongly recommend" iff p > 0.7, "review" iff 0.5 < p ≤ 0.7, "not recommended" iff p ≤ 0.5. |
| Predictions.EarlyReleaseFactors | ai-modules/modules/rehabilitation/app/api/predictions.py:304-328 | The supporting and opposing factors are exactly the candidates whose conditions hold, in test order: at most five and four. |
| Predictions.SupportingFactors | ai-modules/modules/rehabilitation/app/api/predictions.py:307-326 | Each supporting factor appears iff its threshold is met: behavior > 70, discipline > 70, programs ≥ 2, served share > 0.5, risk < 0.4. |
| Predictions.OpposingFactors | ai-modules/modules/rehabilitation/app/api/predictions.py:307-328 | Each opposing factor appears iff its complementary condition holds: behavior ≤ 70, discipline ≤ 70, programs < 2, risk > 0.6. |
| Predictions.EarlyRelease | ai-modules/modules/rehabilitation/app/api/predictions.py:256-366 | Lookup failures give their status codes. 500 iff the found row's sentence length is zero or the verdict's probability or confidence lies outside [0,1]. A success names the inmate and carries the verdict (eligibility, probability, confidence), the advice for its probability and the factors for the served share. It has a predicted date iff eligible. |
| Predictions.TrainingSuggestions | ai-modules/modules/rehabilitation/app/api/predictions.py:419-429 | There are always two suggestions, led by IT below 35, carpentry below 50, and agriculture otherwise. |
| Predictions.IndustrialTraining | ai-modules/modules/rehabilitation/app/api/predictions.py:370-454 | Lookup failures give their codes; 500 iff the education encoder was not fitted on the inmate's education level, or the verdict's probability or confidence lies outside [0,1]. A success names the inmate, carries the verdict, recommends the first suggestion for the age bracket, lists both suggestions as the one supporting factor, and has no date. |
| Predictions.LeaveTypeFor | ai-modules/modules/rehabilitation/app/api/predictions.py:502-507 | Earned leave iff p > 0.8, family visit iff 0.6 < p ≤ 0.8, emergency only otherwise. |
| Predictions.LeaveTypeMonotone | ai-modules/modules/rehabilitation/app/api/predictions.py:502-507 | Raising the probability never lowers the leave type. |
| Predictions.HomeLeave | ai-modules/modules/rehabilitation/app/api/predictions.py:458-543 | Lookup failures give their codes; 500 iff the verdict's probability or confidence lies outside [0,1]. A success names the inmate, carries the verdict and no date, recommends the leave type and lists exactly two factors: behavior (above 75 supports) then violations (zero supports). |
| Predictions.PerInmateRoutesShareLookup | ai-modules/modules/rehabilitation/app/api/predictions.py:266-276 | The early-release, training and leave routes all fail with the lookup's status when it fails. For a found inmate with an in-range verdict, leave answers for that inmate, training does iff the encoder knows the inmate's education level, and early release does iff the sentence length is not zero. |
| Predictions.PerInmateRoutesAgreeOnVerdict | ai-modules/modules/rehabilitation/app/api/predictions.py:296-302 | When early release answers, leave answers too, and training does iff the encoder knows the education level. All routes that answer report the same eligibility, probability and confidence. |
| Predictions.LikelierReleaseIsNoLater | ai-modules/modules/rehabilitation/app/api/predictions.py:330-335 | Of two eligible early-release predictions for one inmate, the likelier one never predicts a later date. |
| Predictions.LikelierLeaveIsNoNarrower | ai-modules/modules/rehabilitation/app/api/predictions.py:502-507 | Of two home-leave predictions for one inmate, the likelier one never earns a narrower leave: earned leave stays earned, and emergency-only was already emergency-only for the less likely one. |
| Predictions.TrainingIgnoresVerdict | ai-modules/modules/rehabilitation/app/api/predictions.py:418-428 | The training recommendation and factors depend on the inmate's age alone: two verdicts for one inmate give the same advice. |
| DatasetUpload.Validate | ai-modules/modules/rehabilitation/app/api/upload.py:55-115 | Fails (500) iff a range-checked column holds text. Otherwise it reports at most four problems, each iff its condition holds, in the order missing columns, duplicates, behavior, risk. |
| DatasetUpload.ReportsMissingColumns | ai-modules/modules/rehabilitation/app/api/upload.py:90-95 | Missing columns are reported iff some required column is absent, naming exactly those. |
| DatasetUpload.ReportsDuplicates | ai-modules/modules/rehabilitation/app/api/upload.py:98-101 | For inmate profiles with an inmate_id column, the duplicate count reported is the number of repeated ids, reported iff positive. |
| DatasetUpload.ReportsInvalidBehavior | ai-modules/modules/rehabilitation/app/api/upload.py:104-108 | Out-of-range behavior scores are counted and reported iff there are any. |
| DatasetUpload.ReportsInvalidRisk | ai-modules/modules/rehabilitation/app/api/upload.py:110-113 | Out-of-range risk scores are counted and reported iff there are any. |
| DatasetUpload.MissingColumnsReported | ai-modules/modules/rehabilitation/app/api/upload.py:90-95 | Every absent required column is named in a report, and a complete frame gets no such report. |
| DatasetUpload.OtherTypesOnlyCheckColumns | ai-modules/modules/rehabilitation/app/api/upload.py:90-113 | Other dataset types only check columns: they pass iff all required columns are present. |
| DatasetUpload.OnlyMissingColumns | ai-modules/modules/rehabilitation/app/api/upload.py:97-113 | For other types the only possible report is the set of missing columns. |
| DatasetUpload.Extension | ai-modules/modules/rehabilitation/app/api/upload.py:140 | The extension is the text after the last dot, or the whole name without one. |
| DatasetUpload.FormatFor | ai-modules/modules/rehabilitation/app/api/upload.py:140-146 | csv maps to CSV and xlsx/xls to Excel, ignoring case; anything else has no format. |
| DatasetUpload.FormatOf | ai-modules/modules/rehabilitation/app/api/upload.py:141-146 | The same mapping on an already lower-cased extension. |
| DatasetUpload.Concat | ai-modules/modules/rehabilitation/app/api/upload.py:175 | Appending keeps the old rows first and the new after. The old columns come first, and the columns are the union. |
| DatasetUpload.StoreUpload | ai-modules/modules/rehabilitation/app/api/upload.py:167-176 | Only the type's slot changes. A replace or an empty slot gets the new frame; otherwise the frame is appended. |
| DatasetUpload.Head | ai-modules/modules/rehabilitation/app/api/upload.py:181-183 | The sample is the first min(3, n) rows. |
| DatasetUpload.Accept | ai-modules/modules/rehabilitation/app/api/upload.py:153-193 | With problems and no replace, the upload is refused and storage is unchanged. Otherwise it is stored, replacing even past problems. |
| DatasetUpload.UploadAsWritten | ai-modules/modules/rehabilitation/app/api/upload.py:133-197 | As written, a bad extension, a parse error and a validation crash all become 500, leaving storage unchanged. |
| DatasetUpload.Upload | ai-modules/modules/rehabilitation/app/api/upload.py:133-197 | Corrected: a bad extension or unreadable file answers 400, a validation crash 500, and otherwise it behaves as written. |
| DatasetUpload.UploadAgreesOnReadFiles | ai-modules/modules/rehabilitation/app/api/upload.py:139-146 | The two agree on every readable file and differ only in the status code for bad extensions. |
| DatasetUpload.TextFileAnswered500 | ai-modules/modules/rehabilitation/app/api/upload.py:146 | "notes.txt" is answered 500 as written and 400 as corrected. |
| DatasetUpload.Page | ai-modules/modules/rehabilitation/app/api/upload.py:287 | The page is rows [offset, offset + limit) clipped to the dataset's length. |
| DatasetUpload.PagesTile | ai-modules/modules/rehabilitation/app/api/upload.py:287 | Consecutive pages concatenate to the larger page. |
| DatasetUpload.PageAfterPrefix | ai-modules/modules/rehabilitation/app/api/upload.py:287 | Paging past a prefix reads the rows after it. |
| DatasetUpload.GetDataset | ai-modules/modules/rehabilitation/app/api/upload.py:272-296 | 422 iff limit is outside [1,1000] or offset is negative. 404 iff the slot is empty. Otherwise the totals and the page. |
| DatasetUpload.DeleteDataset | ai-modules/modules/rehabilitation/app/api/upload.py:299-313 | An empty slot gives 404. Otherwise that slot is emptied, its row count is reported, and every other slot is kept. |
| DatasetUpload.ValuesDistinct | ai-modules/modules/rehabilitation/app/api/upload.py:168 | Distinct dataset types use distinct storage keys. |
| DatasetUpload.StoredUploadReadsBack | ai-modules/modules/rehabilitation/app/api/upload.py:170-172 | A stored upload into a replaced or empty slot reads back page by page. |
| DatasetUpload.AppendedRowsFollow | ai-modules/modules/rehabilitation/app/api/upload.py:173-176 | After an append, the total grows by the new rows and paging from the old length reads the new rows. |
| DatasetUpload.RejectedUploadChangesNothing | ai-modules/modules/rehabilitation/app/api/upload.py:155-165 | An upload that fails or is refused leaves storage unchanged. |
| DatasetUpload.DeleteThenGet | ai-modules/modules/rehabilitation/app/api/upload.py:304-308 | After a delete, reading or deleting again answers 404. |
| InmateService.CopyRequest | backend/inmate-service/src/main/java/com/pms/inmateservice/service/InmateService.java:220-275 | Each of the 14 request fields (booking number, names, birth date, NIC, sentence dates, security level, facility, block, cell, flags, particulars) is copied, nulls included. The status changes only when the request gives one, and the identity, release date and timestamps are kept. |
| InmateService.CopyOverwritesRecord | backend/inmate-service/src/main/java/com/pms/inmateservice/service/InmateService.java:220-275 | Two records that agree on id, release date, timestamps and (when the request has no status) status become the same record: nothing else of the old record survives. |
| InmateService.CopyRequestIdempotent | backend/inmate-service/src/main/java/com/pms/inmateservice/service/InmateService.java:220-275 | Copying the same request twice equals copying it once. |
| InmateService.CopyRequestStatus | backend/inmate-service/src/main/java/com/pms/inmateservice/service/InmateService.java:268-270 | A missing status keeps the old one; a given status replaces it. |
| InmateService.CreateInmate | backend/inmate-service/src/main/java/com/pms/inmateservice/service/InmateService.java:29-49 | Creation fails iff the booking number exists. Otherwise one record is appended: the request copied onto a fresh record with the next id, made ACTIVE and stamped with the creation time as both its creation and its update timestamp (Inmate.java marks both as generated on insert), so it holds every request field and has no release date. |
| InmateService.CreateKeepsRegistryGood | backend/inmate-service/src/main/java/com/pms/inmateservice/service/InmateService.java:34-36 | Creating keeps identities and booking numbers unique. |
| InmateService.FindByBookingNumber | backend/inmate-service/src/main/java/com/pms/inmateservice/service/InmateService.java:34 | A record is found iff one has the booking number. |
| InmateService.CreatedIsFoundByBookingNumber | backend/inmate-service/src/main/java/com/pms/inmateservice/service/InmateService.java:29-49 | The created record is what its booking number finds afterwards. |
| InmateService.FindById | backend/inmate-service/src/main/java/com/pms/inmateservice/service/InmateService.java:148-149 | A record is found iff one has the id. |
| InmateService.ReleaseInmate | backend/inmate-service/src/main/java/com/pms/inmateservice/service/InmateService.java:144-162 | An unknown id throws. Otherwise only status (RELEASED), release date (today) and updatedAt change, in place. |
| InmateService.ReleaseStopsTheClock | backend/inmate-service/src/main/java/com/pms/inmateservice/service/InmateService.java:151-153 | After release, days remaining is null and days served no longer changes with the date. |
| InmateService.TransferInmate | backend/inmate-service/src/main/java/com/pms/inmateservice/service/InmateService.java:164-184 | An unknown id throws. Otherwise only facility, block, cell and updatedAt change. |
| InmateService.TransferBack | backend/inmate-service/src/main/java/com/pms/inmateservice/service/InmateService.java:171-175 | Restoring the old facility, block and cell gives back the original record, apart from updatedAt. |
| InmateService.UpdateInmate | backend/inmate-service/src/main/java/com/pms/inmateservice/service/InmateService.java:116-130 | An unknown id throws, and so does a booking number held by another record. Otherwise the record is the request copied over it, with updatedAt set. |
| InmateService.UpdateKeepsRegistryGood | backend/inmate-service/src/main/java/com/pms/inmateservice/service/InmateService.java:116-130 | An update keeps identities and booking numbers unique: the record keeps its identity, and the save goes through only when no other record carries the new booking number. |
| InmateService.DeleteInmate | backend/inmate-service/src/main/java/com/pms/inmateservice/service/InmateService.java:132-142 | An unknown id throws. Otherwise exactly the records with that id are removed. |
| InmateService.DeleteKeepsRegistryGood | backend/inmate-service/src/main/java/com/pms/inmateservice/service/InmateService.java:136-140 | Deleting keeps identities and booking numbers unique. |
| InmateService.FilterKeepsDistinct | backend/inmate-service/src/main/java/com/pms/inmateservice/service/InmateService.java:136-140 | Any filtered registry keeps its keys unique. |
| InmateService.BaseQueryOf | backend/inmate-service/src/main/java/com/pms/inmateservice/service/InmateService.java:94-104 | The base query is the first set criterion: a non-empty search term, then status, then security level, then facility, else all records. |
| InmateService.FilterInmates | backend/inmate-service/src/main/java/com/pms/inmateservice/service/InmateService.java:90-114 | Corrected filter: a record is selected iff it is in the base query, passes the block and gang filters that are set, and passes the high-risk test, with a null flag read as false. |
| InmateService.FilterInmatesAsWritten | backend/inmate-service/src/main/java/com/pms/inmateservice/service/InmateService.java:90-114 | As written: with highRisk true, a candidate whose flags unbox a null throws. Otherwise it agrees with the corrected filter. |
| InmateService.HighRiskInmates | backend/inmate-service/src/main/java/com/pms/inmateservice/repository/InmateRepository.java:46-47 | The high-risk query selects exactly the records with escape risk or violent history true. |
| InmateService.NoCriteriaKeepsAll | backend/inmate-service/src/main/java/com/pms/inmateservice/service/InmateService.java:94-112 | With no criterion set, every record is returned and nothing throws. |
| InmateService.HighRiskFalseSelectsNothing | backend/inmate-service/src/main/java/com/pms/inmateservice/service/InmateService.java:110-112 | highRisk false selects no record at all. |
| InmateService.HighRiskAloneMatchesQuery | backend/inmate-service/src/main/java/com/pms/inmateservice/service/InmateService.java:110-111 | With only highRisk true, the filter selects exactly what the high-risk query does. |
| InmateService.AsWrittenAgreesWithoutNulls | backend/inmate-service/src/main/java/com/pms/inmateservice/service/InmateService.java:110-111 | When every record's escape and violence flags are set, the code as written never throws. |
| InmateService.NullFlagsBreakHighRiskFilter | backend/inmate-service/src/main/java/com/pms/inmateservice/service/InmateService.java:110-111 | A request that leaves the flags out creates a record on which the high-risk filter throws as written. |
| InmateService.SingleNullRecordThrows | backend/inmate-service/src/main/java/com/pms/inmateservice/service/InmateService.java:110-111 | One record with null flags makes the as-written high-risk filter throw, while the corrected one selects nothing. |
| Inmates.Fresh | backend/inmate-service/src/main/java/com/pms/inmateservice/model/Inmate.java:142-156 | A new record is ACTIVE with every risk flag false. |
| Inmates.FullName | backend/inmate-service/src/main/java/com/pms/inmateservice/model/Inmate.java:200-205 | The full name is first, middle and last name separated by single spaces; an unset or empty middle name is skipped. |
| Inmates.Age | backend/inmate-service/src/main/java/com/pms/inmateservice/model/Inmate.java:207-212 | The age is null iff there is no birth date. Otherwise it is this year minus the birth year. |
| Inmates.AgeCountsCalendarYears | backend/inmate-service/src/main/java/com/pms/inmateservice/model/Inmate.java:207-212 | The reported age is the completed years, plus one before this year's birthday. |
| Inmates.DaysServed | backend/inmate-service/src/main/java/com/pms/inmateservice/model/Inmate.java:214-220 | Days served are null iff there is no start date. Otherwise they are the day count from the start date to the release date (or today, when there is none), narrowed to a Java int. |
| Inmates.DaysRemaining | backend/inmate-service/src/main/java/com/pms/inmateservice/model/Inmate.java:222-227 | Days remaining are set iff there is an end date and the inmate is ACTIVE. They are then the day count from today to the end date, narrowed to a Java int. |
| Inmates.ServedPlusRemaining | backend/inmate-service/src/main/java/com/pms/inmateservice/model/Inmate.java:214-227 | For an active, unreleased inmate, days served plus days remaining equal the sentence's length in days. |
| Inmates.ServedGrowsDaily | backend/inmate-service/src/main/java/com/pms/inmateservice/model/Inmate.java:214-220 | Until release, each day adds exactly one day served. |
| Inmates.ServedFrozenAfterRelease | backend/inmate-service/src/main/java/com/pms/inmateservice/model/Inmate.java:214-220 | After release, days served no longer depend on today. |
| Calendar.NextDayIsOneLater | backend/inmate-service/src/main/java/com/pms/inmateservice/model/Inmate.java:217 | The epoch-day count used for day differences advances by exactly one from each valid date to the next. |
| Calendar.ToInt32 | backend/inmate-service/src/main/java/com/pms/inmateservice/model/Inmate.java:217 | The int cast keeps the value modulo 2^32 in the signed 32-bit range, and keeps values already in range. |
| Lists.DedupKeepsFirstOccurrenceOrder | ai-modules/modules/rehabilitation/app/api/predictions.py:197 | De-duplication keeps first occurrences in their original order. |
| Lists.DuplicateCountIsExcess | ai-modules/modules/rehabilitation/app/api/upload.py:99 | The count of duplicated entries is the length minus the number of distinct entries. |

## Left out

- **Event publishing.** Kafka sends are not modelled. They are fire-and-forget and change no state the model reads.
- **The clock.** "Today" and the stored timestamps are parameters.
- **Remote calls.** The HTTP transport of the AI client, the OpenAI SDK calls and the language model's prompts are left out. Only their outcome (answer, nothing, disabled or exception) is a parameter.
- **Classifiers.** Inference, feature scaling and model training are out of scope. The classifier's verdict is a parameter.
- **Upload parsing.** Parsing CSV and Excel bytes is a parameter: the frame, or the exception.
- **Explanation and reasoning text.** Strings built with float formatting (`:.2f`, `:.1f`) are opaque render parameters. Only their fixed openings are modelled.
- **IEEE doubles.** Scores are exact reals, so rounding is not modelled.
- **Search patterns.** The search query's LIKE wildcards in the term, and case folding beyond ASCII, are not modelled. The term is matched as a plain substring after ASCII lower-casing. The same ASCII-only folding (Text.ToLower, Text.EqualsIgnoreCase) stands for Java's `equalsIgnoreCase` and Python's `str.lower()` in Assignment.SpecializationMatch, Assignment.Proximity, NotesAnalysis.AnalyzeNotes, RuleRecommender.Recommend and DatasetUpload.FormatFor, so their contracts say nothing about non-ASCII letters.
- **Home-leave storage key.** The HOME_LEAVE dataset type's value "home_leave" has no slot of its own in the storage table, which names "home_leave_records". The model keys storage by the type's value and treats a missing key as an empty slot, so it does not reproduce the lookup error that mismatch causes.
- **Unmodelled routes.** The upload service's generate-sample, status, export and statistics routes, the batch-assessment and models-status routes, and the scoring stub's constant are not modelled.
- **Other service calls.** The rehabilitation service's addMedicalReport and addCounselingNote are not modelled. Beyond calling the AI client, which is modelled, they only save records and publish events. The inmate service's getUpcomingReleases, getParoleEligible and mapping to response objects are not modelled either.
- **Unread request fields.** The filter's date ranges and the recommendation request's forceRegenerate are never read by the code.
- **Bean validation.** The inmate request body's bean validation annotations are not modelled.
- **Capacity.** No assignment reserves capacity or increments a load, as in the code.
- **Authentication.** JWT and password handling are outside the modelled core.
- ProfileRow (Predictions.ProfileRow): every column the per-inmate routes (Predictions.EarlyRelease, Predictions.IndustrialTraining, Predictions.HomeLeave) read is present with its numeric type. A missing column (`KeyError`), a NaN or non-numeric cell that the feature scaler rejects, and an `inmate_id` column whose values never equal the query string (it answers 404 even for an id that is present) are not modelled. These depend on the uploaded frame, which the routes read without checks of their own. The first two end in the routes' generic 500 handler, and the columns that feed only the classifier (`prior_convictions`, for instance) are not fields because the classifier is a parameter.
- Assignment.StationScore: its contract only bounds the weighted sum to [0,1]; the exact weights are pinned down by Assignment.ProximityAgainstLoad and the two scenarios rather than restated.
- Assignment.OfficerScore: its contract only bounds the weighted sum to [0, 0.8], for the same reason.
- RuleRecommender.Recommend: a request field that is omitted, rather than sent as null, takes the request schema's default (an empty feature map, the group "general", the risk 0.5). That path is not modelled: the Java client always sends all four fields, so only the explicit null reaches the service.

## Findings

| source | as written | input that shows it | evidently intended | confidence | as-written member | corrected member |
|---|---|---|---|---|---|---|
| ai-modules/modules/rehabilitation/app/api/upload.py:146 | The HTTPException(400) for an unsupported extension (and the one the parser raises) is thrown inside the route's `try`, whose `except Exception` at lines 195-197 turns it into a 500. | An upload named "notes.txt" | Answer 400 for an unsupported extension or an unreadable file | not executed | DatasetUpload.UploadAsWritten | DatasetUpload.Upload |
| backend/inmate-service/src/main/java/com/pms/inmateservice/service/InmateService.java:110-111 | The high-risk test unboxes the record's Boolean escapeRisk and violentHistory flags. The request body declares them without defaults, and updateInmateFromDTO copies the nulls over the entity's false defaults. | Create an inmate with a request that omits the risk flags, then filter with highRisk = true | Treat a null flag as false, as the repository's high-risk query does | not executed | InmateService.FilterInmatesAsWritten | InmateService.FilterInmates |
