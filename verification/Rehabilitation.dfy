/** RehabilitationService: generating a recommendation for an inmate and logging
    progress against it.

    The repositories are one immutable store. Both operations are transactional:
    when they fail, the caller keeps the store it had, which is what the
    transaction's rollback guarantees (the profile created on first use
    included). Event publication is not part of this model. */
module Rehabilitation {
  import opened Wrappers
  import opened RehabRecords
  import opened RecommendationApi
  import AIClient
  import Assignment
  import Lists
  import Text

  datatype RehabStore = RehabStore(
    profiles: map<string, RehabProfile>,
    catalog: seq<Program>,
    stations: seq<Station>,
    officers: seq<Officer>,
    recommendations: map<int, Recommendation>,
    progressLogs: seq<ProgressLog>,
    nextRecommendationId: int)

  /** The exceptions the service lets escape. */
  datatype RehabError =
    | ProfileNotFound(inmateId: string)
    | NoSuitableProgram
    | RecommendationNotFound
    | NullPointer(what: string)

  /** Identifiers are below the next one to hand out and match their keys; every
      progress log points at a stored recommendation and copies its inmate. */
  predicate Valid(st: RehabStore)
  {
    && (forall k :: k in st.recommendations ==> k < st.nextRecommendationId && st.recommendations[k].id == k)
    && (forall i :: 0 <= i < |st.progressLogs| ==>
          var log := st.progressLogs[i];
          log.recommendationId in st.recommendations
          && log.inmateId == st.recommendations[log.recommendationId].inmateId)
  }

  /** getProfile. */
  function GetProfile(st: RehabStore, inmateId: string): (r: Result<RehabProfile, RehabError>)
    ensures r.Failure? <==> inmateId !in st.profiles
    ensures r.Failure? ==> r.error == ProfileNotFound(inmateId)
    ensures r.Success? ==> r.value == st.profiles[inmateId]
  {
    if inmateId in st.profiles then Success(st.profiles[inmateId]) else Failure(ProfileNotFound(inmateId))
  }

  /** createInitialProfile: the supplied data (or an empty map) as features,
      group "general", risk 0.5. */
  function InitialProfile(inmateId: string, data: Option<Features>): (p: RehabProfile)
    ensures p.inmateId == inmateId
    ensures p.features == Some(data.GetOr(map[]))
    ensures p.suitabilityGroup == Some("general") && p.riskScore == Some(0.5)
  {
    RehabProfile(inmateId, Some(data.GetOr(map[])), Some("general"), Some(0.5))
  }

  /** programRepository.findByType: catalog entries of that type, in catalog order. */
  function FindByType(catalog: seq<Program>, programType: string): (ps: seq<Program>)
    ensures forall p :: p in ps <==> p in catalog && p.programType == programType
  {
    Lists.Filter(catalog, (p: Program) => p.programType == programType)
  }

  /** findBestProgram: the first catalog entry whose type is the AI's first
      suggestion's type, active or not; none when there is no suggestion or no
      such entry. A null response or null program list throws. */
  function FindBestProgram(catalog: seq<Program>, response: Option<AIResponse>): (r: Result<Option<Program>, RehabError>)
    ensures r.Failure? <==> response.None? || response.value.programs.None?
    ensures r.Success? && r.value.None? <==>
              && response.Some? && response.value.programs.Some?
              && (|response.value.programs.value| == 0
                  || forall p :: p in catalog ==> p.programType != response.value.programs.value[0].programType)
    ensures r.Success? && r.value.Some? ==>
              var wanted := response.value.programs.value[0].programType;
              && r.value.value in catalog && r.value.value.programType == wanted
              && exists k :: 0 <= k < |catalog| && catalog[k] == r.value.value &&
                   forall j :: 0 <= j < k ==> catalog[j].programType != wanted
  {
    if response.None? then Failure(NullPointer("AI response"))
    else if response.value.programs.None? then Failure(NullPointer("AI response programs"))
    else if |response.value.programs.value| == 0 then Success(None)
    else
      var wanted := response.value.programs.value[0].programType;
      var matches := FindByType(catalog, wanted);
      if |matches| == 0 then
        Success(None)
      else
        assert matches[0] in matches;
        Lists.FilterHead(catalog, (p: Program) => p.programType == wanted);
        Success(Some(matches[0]))
  }

  /** extractNeedsFromProfile: the suitability group, or "general". */
  function ExtractNeeds(profile: RehabProfile): (needs: seq<string>)
    ensures |needs| == 1
    ensures needs[0] == profile.suitabilityGroup.GetOr("general")
  {
    [profile.suitabilityGroup.GetOr("general")]
  }

  /** extractZoneFromProfile: the rendered "zone" feature, "general" without one;
      a JSON null under "zone" throws when rendered. */
  function ExtractZone(profile: RehabProfile): (r: Result<string, RehabError>)
    ensures r.Failure? <==> profile.features.Some? && "zone" in profile.features.value
                            && profile.features.value["zone"].JsonNull?
    ensures r.Success? && profile.features.Some? && "zone" in profile.features.value ==>
              r.value == profile.features.value["zone"].text
    ensures (profile.features.None? || "zone" !in profile.features.value) ==> r == Success("general")
  {
    if profile.features.None? || "zone" !in profile.features.value then Success("general")
    else match profile.features.value["zone"]
      case JsonNull => Failure(NullPointer("zone"))
      case Scalar(text) => Success(text)
  }

  /** The profile the service works with: the stored one, or a fresh one from the request data. */
  function ProfileFor(st: RehabStore, inmateId: string, inmateData: Option<Features>): (p: RehabProfile)
    ensures inmateId in st.profiles ==> p == st.profiles[inmateId]
    ensures inmateId !in st.profiles ==> p == InitialProfile(inmateId, inmateData)
  {
    if inmateId in st.profiles then st.profiles[inmateId] else InitialProfile(inmateId, inmateData)
  }

  function RequestFor(profile: RehabProfile): AIRequest
  {
    AIRequest(profile.inmateId, profile.features, profile.suitabilityGroup, profile.riskScore)
  }

  function StationId(station: Option<Station>): Option<int>
  {
    if station.Some? then Some(station.value.id) else None
  }

  /** generateRecommendation. `exchange` is the outcome of the HTTP call to the AI
      service. On success the store gains the profile (if new) and one PENDING
      recommendation under the next identifier; nothing else changes. */
  function GenerateRecommendation(st: RehabStore, inmateId: string, inmateData: Option<Features>,
                                  exchange: Exchange<AIResponse>): (r: Result<(RehabStore, Recommendation), RehabError>)
    ensures var profile := ProfileFor(st, inmateId, inmateData);
      var response := AIClient.GetRecommendations(RequestFor(profile), exchange);
      var found := FindBestProgram(st.catalog, response);
      && (r == Failure(NoSuitableProgram) <==> found == Success(None))
      && (r.Failure? ==> r.error == NoSuitableProgram || r.error.NullPointer?)
      && (found.Failure? ==> r == Failure(found.error))
      && (found.Success? && found.value.Some? && ExtractZone(profile).Failure? ==> r == Failure(NullPointer("zone")))
      // A program found for a zone that renders: the duration decides; a missing
      // station or officer does not stop the recommendation.
      && (found.Success? && found.value.Some? && ExtractZone(profile).Success? ==>
            (r.Success? <==> response.value.programs.value[0].durationWeeks.Some?))
      && (r == Failure(NullPointer("durationWeeks")) <==>
            found.Success? && found.value.Some? && ExtractZone(profile).Success?
            && response.value.programs.value[0].durationWeeks.None?)
      && (r.Success? ==>
            && found.Success? && found.value.Some?
            && response.Some? && response.value.programs.Some? && |response.value.programs.value| > 0
            && ExtractZone(profile).Success?
            && var (st', rec) := r.value;
               var first := response.value.programs.value[0];
               && st' == st.(profiles := st.profiles[inmateId := profile],
                             recommendations := st.recommendations[st.nextRecommendationId := rec],
                             nextRecommendationId := st.nextRecommendationId + 1)
               && rec.id == st.nextRecommendationId && rec.inmateId == inmateId
               && rec.status == Pending
               && rec.program == found.value.value
               && first.durationWeeks == Some(rec.durationWeeks)
               && rec.explanation == response.value.explanation
               && rec.confidence == response.value.confidence
               && rec.station == Assignment.AssignStation(st.stations, ExtractNeeds(profile),
                                                          Some(ExtractZone(profile).value))
               && rec.officer == Assignment.AssignOfficer(st.officers, ExtractNeeds(profile), StationId(rec.station)))
  {
    var profile := ProfileFor(st, inmateId, inmateData);
    var response := AIClient.GetRecommendations(RequestFor(profile), exchange);
    var found :- FindBestProgram(st.catalog, response);
    if found.None? then Failure(NoSuitableProgram)
    else
      var needs := ExtractNeeds(profile);
      var zone :- ExtractZone(profile);
      var station := Assignment.AssignStation(st.stations, needs, Some(zone));
      var officer := Assignment.AssignOfficer(st.officers, needs, StationId(station));
      // Java's `isEmpty() ? 12 : get(0).getDurationWeeks()` unboxes the Integer.
      var first := response.value.programs.value[0];
      if first.durationWeeks.None? then Failure(NullPointer("durationWeeks"))
      else
        var rec := Recommendation(st.nextRecommendationId, inmateId, found.value, station, officer,
                                  first.durationWeeks.value, response.value.explanation,
                                  response.value.confidence, Pending);
        var st' := st.(profiles := st.profiles[inmateId := profile],
                       recommendations := st.recommendations[st.nextRecommendationId := rec],
                       nextRecommendationId := st.nextRecommendationId + 1);
        Success((st', rec))
  }

  /** logProgress: append one log for a stored recommendation; a percentage of
      100 or more marks the recommendation COMPLETED. */
  function LogProgress(st: RehabStore, recommendationId: int, status: string, progressPercentage: Option<int>,
                       notes: string, recordedBy: string): (r: Result<(RehabStore, ProgressLog), RehabError>)
    ensures r.Failure? <==> recommendationId !in st.recommendations
    ensures r.Failure? ==> r.error == RecommendationNotFound
    ensures r.Success? ==>
              var (st', log) := r.value;
              var rec := st.recommendations[recommendationId];
              && st'.progressLogs == st.progressLogs + [log]
              && log == ProgressLog(rec.inmateId, recommendationId, status, progressPercentage, notes, recordedBy)
              && st'.recommendations.Keys == st.recommendations.Keys
              && (forall k :: k in st.recommendations && k != recommendationId ==>
                    st'.recommendations[k] == st.recommendations[k])
              && st'.recommendations[recommendationId] ==
                   rec.(status := if Completes(progressPercentage) then Completed else rec.status)
              && st' == st.(recommendations := st'.recommendations, progressLogs := st'.progressLogs)
  {
    if recommendationId !in st.recommendations then Failure(RecommendationNotFound)
    else
      var rec := st.recommendations[recommendationId];
      var log := ProgressLog(rec.inmateId, recommendationId, status, progressPercentage, notes, recordedBy);
      var rec' := if Completes(progressPercentage) then rec.(status := Completed) else rec;
      Success((st.(recommendations := st.recommendations[recommendationId := rec'],
                   progressLogs := st.progressLogs + [log]), log))
  }

  predicate Completes(progressPercentage: Option<int>)
  {
    progressPercentage.Some? && progressPercentage.value >= 100
  }

  /** Generating a recommendation keeps the store valid. */
  lemma GeneratePreservesValid(st: RehabStore, inmateId: string, inmateData: Option<Features>,
                               exchange: Exchange<AIResponse>)
    requires Valid(st)
    ensures var r := GenerateRecommendation(st, inmateId, inmateData, exchange);
      r.Success? ==> Valid(r.value.0)
  {
    var r := GenerateRecommendation(st, inmateId, inmateData, exchange);
    if r.Success? {
      var profile := ProfileFor(st, inmateId, inmateData);
      AddRecommendationKeepsValid(st, st.profiles[inmateId := profile], r.value.1);
    }
  }

  /** Storing a recommendation under the next identifier keeps the store valid. */
  lemma AddRecommendationKeepsValid(st: RehabStore, profiles: map<string, RehabProfile>, rec: Recommendation)
    requires Valid(st) && rec.id == st.nextRecommendationId
    ensures Valid(st.(profiles := profiles,
                      recommendations := st.recommendations[st.nextRecommendationId := rec],
                      nextRecommendationId := st.nextRecommendationId + 1))
  {
    var st' := st.(profiles := profiles,
                   recommendations := st.recommendations[st.nextRecommendationId := rec],
                   nextRecommendationId := st.nextRecommendationId + 1);
    forall i | 0 <= i < |st'.progressLogs|
      ensures st'.progressLogs[i].recommendationId in st'.recommendations
      ensures st'.progressLogs[i].inmateId == st'.recommendations[st'.progressLogs[i].recommendationId].inmateId
    {
      var log := st.progressLogs[i];
      assert log.recommendationId < st.nextRecommendationId;
    }
  }


  /** Logging progress keeps the store valid. */
  lemma LogPreservesValid(st: RehabStore, recommendationId: int, status: string, progressPercentage: Option<int>,
                          notes: string, recordedBy: string)
    requires Valid(st)
    ensures var r := LogProgress(st, recommendationId, status, progressPercentage, notes, recordedBy);
      r.Success? ==> Valid(r.value.0)
  {
    var r := LogProgress(st, recommendationId, status, progressPercentage, notes, recordedBy);
    if r.Success? {
      var st' := r.value.0;
      forall i | 0 <= i < |st'.progressLogs|
        ensures st'.progressLogs[i].recommendationId in st'.recommendations
        ensures st'.progressLogs[i].inmateId == st'.recommendations[st'.progressLogs[i].recommendationId].inmateId
      {
        if i < |st.progressLogs| {
          assert st'.progressLogs[i] == st.progressLogs[i];
        }
      }
    }
  }

  /** Log a series of percentages against one stored recommendation, in order. */
  function LogSeries(st: RehabStore, recommendationId: int, percentages: seq<Option<int>>): (st': RehabStore)
    requires recommendationId in st.recommendations
    ensures recommendationId in st'.recommendations
    decreases |percentages|
  {
    if |percentages| == 0 then st
    else
      var r := LogProgress(st, recommendationId, "IN_PROGRESS", percentages[0], "", "");
      LogSeries(r.value.0, recommendationId, percentages[1..])
  }

  /** Completion is sticky: after a series of logs the recommendation is COMPLETED
      exactly when it already was or some logged percentage reached 100; each log
      adds exactly one entry. */
  lemma {:induction false} LogSeriesCompletion(st: RehabStore, recommendationId: int, percentages: seq<Option<int>>)
    requires recommendationId in st.recommendations
    ensures var st' := LogSeries(st, recommendationId, percentages);
      && (st'.recommendations[recommendationId].status == Completed <==>
            st.recommendations[recommendationId].status == Completed
            || exists i :: 0 <= i < |percentages| && Completes(percentages[i]))
      && |st'.progressLogs| == |st.progressLogs| + |percentages|
    decreases |percentages|
  {
    if |percentages| > 0 {
      var mid := LogProgress(st, recommendationId, "IN_PROGRESS", percentages[0], "", "").value.0;
      LogSeriesCompletion(mid, recommendationId, percentages[1..]);
      var rest := percentages[1..];
      assert forall i :: 0 <= i < |rest| ==> rest[i] == percentages[i + 1];
      if exists i :: 0 <= i < |percentages| && Completes(percentages[i]) {
        var i :| 0 <= i < |percentages| && Completes(percentages[i]);
        if i > 0 {
          assert Completes(rest[i - 1]);
        }
      }
    }
  }

  /** A first-time inmate while the AI service is down: the fresh profile is in
      group "general", so the fallback asks for vocational training, and the
      recommendation takes the catalog's first vocational program for 16 weeks
      with the fallback's explanation and confidence. */
  lemma NewInmateWithServiceDown(st: RehabStore, inmateId: string, program: Program, message: string)
    requires inmateId !in st.profiles
    requires st.catalog == [program] && program.programType == "vocational"
    ensures var r := GenerateRecommendation(st, inmateId, None, Failure(message));
      && r.Success?
      && r.value.1.program == program
      && r.value.1.durationWeeks == 16
      && r.value.1.explanation == Some(AIClient.FallbackExplanation)
      && r.value.1.confidence == Some(AIClient.FallbackConfidence)
      && r.value.1.status == Pending
      && r.value.0.profiles[inmateId] == InitialProfile(inmateId, None)
  {
    var profile := InitialProfile(inmateId, None);
    var response := AIClient.GetRecommendations(RequestFor(profile), Failure(message));
    assert response.value.programs.value[0].programType == "vocational" by {
      Text.NotContainsChar("general", "substance", 0);
      Text.NotContainsChar("general", "mental", 0);
    }
    assert [program][..0] == [];
    assert FindByType(st.catalog, "vocational") == [program];
  }
}
