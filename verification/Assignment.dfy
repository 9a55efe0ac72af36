/** The multi-factor station/officer scorer of the rehabilitation service.

    Scores are exact reals; the Java code computes them in `double`. A candidate
    pool is what the repository's "available" query returns: active resources
    whose current load is below their capacity, in repository order. */
module Assignment {
  import opened Wrappers
  import opened RehabRecords
  import Text
  import Lists

  const SpecializationWeight: real := 0.4
  const ProximityWeight: real := 0.2
  const LoadWeight: real := 0.2
  const SuccessRateWeight: real := 0.2

  /** Score used when the needs list is empty, a zone is unknown or a success rate is unset. */
  const NeutralScore: real := 0.5
  const SameZoneScore: real := 1.0
  const OtherZoneScore: real := 0.3

  /** Some specialization equals `need`, ignoring case. */
  predicate Covered(need: string, specs: seq<string>)
  {
    exists i :: 0 <= i < |specs| && Text.EqualsIgnoreCase(specs[i], need)
  }

  /** Number of needs covered by some specialization. */
  function CountCovered(needs: seq<string>, specs: seq<string>): (n: nat)
    ensures n <= |needs|
  {
    if |needs| == 0 then 0
    else CountCovered(needs[..|needs| - 1], specs) + (if Covered(needs[|needs| - 1], specs) then 1 else 0)
  }

  lemma {:induction false} CountCoveredAll(needs: seq<string>, specs: seq<string>)
    ensures CountCovered(needs, specs) == |needs| <==> forall i :: 0 <= i < |needs| ==> Covered(needs[i], specs)
  {
    if |needs| > 0 {
      var init := needs[..|needs| - 1];
      CountCoveredAll(init, specs);
      assert forall i :: 0 <= i < |init| ==> init[i] == needs[i];
    }
  }

  lemma {:induction false} CountCoveredNone(needs: seq<string>, specs: seq<string>)
    ensures CountCovered(needs, specs) == 0 <==> forall i :: 0 <= i < |needs| ==> !Covered(needs[i], specs)
  {
    if |needs| > 0 {
      var init := needs[..|needs| - 1];
      CountCoveredNone(init, specs);
      assert forall i :: 0 <= i < |init| ==> init[i] == needs[i];
    }
  }

  /** calculateSpecializationMatch: the fraction of needs some specialization covers. */
  function SpecializationMatch(specs: seq<string>, needs: seq<string>): (r: real)
    ensures 0.0 <= r <= 1.0
    ensures |needs| == 0 ==> r == NeutralScore
    ensures |needs| > 0 && |specs| == 0 ==> r == 0.0
    ensures |needs| > 0 ==> (r == 1.0 <==> forall i :: 0 <= i < |needs| ==> Covered(needs[i], specs))
    ensures |needs| > 0 ==> (r == 0.0 <==> forall i :: 0 <= i < |needs| ==> !Covered(needs[i], specs))
  {
    if |needs| == 0 then NeutralScore
    else if |specs| == 0 then
      assert !Covered(needs[0], specs);
      0.0
    else
      var n := CountCovered(needs, specs);
      CountCoveredAll(needs, specs);
      CountCoveredNone(needs, specs);
      Fraction(n, |needs|);
      n as real / |needs| as real
  }

  lemma Fraction(n: nat, d: nat)
    requires 0 < d && n <= d
    ensures 0.0 <= n as real / d as real <= 1.0
    ensures n as real / d as real == 1.0 <==> n == d
    ensures n as real / d as real == 0.0 <==> n == 0
  {
    var q := n as real / d as real;
    assert q * d as real == n as real;
  }

  /** calculateProximityScore. */
  function Proximity(stationZone: Option<string>, inmateZone: Option<string>): (r: real)
    ensures 0.0 < r <= 1.0
    ensures r == NeutralScore <==> stationZone.None? || inmateZone.None?
    ensures r == SameZoneScore <==>
              stationZone.Some? && inmateZone.Some? && Text.EqualsIgnoreCase(stationZone.value, inmateZone.value)
    ensures stationZone.Some? && inmateZone.Some? && !Text.EqualsIgnoreCase(stationZone.value, inmateZone.value) ==>
              r == OtherZoneScore
  {
    if stationZone.None? || inmateZone.None? then NeutralScore
    else if Text.EqualsIgnoreCase(stationZone.value, inmateZone.value) then SameZoneScore
    else OtherZoneScore
  }

  /** calculateLoadScore: the unused fraction of capacity, 0 for a zero capacity. */
  function LoadScore(load: int, capacity: int): (r: real)
    ensures capacity == 0 ==> r == 0.0
    ensures 0 <= load < capacity ==> 0.0 < r <= 1.0
    ensures 0 <= load <= capacity ==> 0.0 <= r <= 1.0
    ensures 0 < capacity && load == capacity ==> r == 0.0
    ensures capacity != 0 ==> r * capacity as real == (capacity - load) as real
  {
    if capacity == 0 then 0.0
    else 1.0 - load as real / capacity as real
  }

  /** Load score strictly falls as the load grows toward capacity. */
  lemma LoadScoreDecreasing(load1: int, load2: int, capacity: int)
    requires 0 < capacity && load1 < load2
    ensures LoadScore(load2, capacity) < LoadScore(load1, capacity)
  {
    var c := capacity as real;
    var d := (load2 - load1) as real / c;
    assert d > 0.0;
    assert load2 as real / c == load1 as real / c + d;
  }

  function SuccessScore(rate: Option<real>): real
  {
    rate.GetOr(NeutralScore)
  }

  predicate ValidRate(rate: Option<real>)
  {
    rate.Some? ==> 0.0 <= rate.value <= 1.0
  }

  /** calculateStationScore: weighted sum of the four sub-scores. */
  function StationScore(s: Station, needs: seq<string>, zone: Option<string>): (r: real)
    ensures ValidRate(s.successRate) && 0 <= s.currentLoad <= s.capacity ==> 0.0 <= r <= 1.0
  {
    SpecializationWeight * SpecializationMatch(s.specializations, needs)
    + ProximityWeight * Proximity(s.zone, zone)
    + LoadWeight * LoadScore(s.currentLoad, s.capacity)
    + SuccessRateWeight * SuccessScore(s.successRate)
  }

  /** calculateOfficerScore: the station formula without the proximity term and
      with the remaining weights unchanged, so it never exceeds 0.8. */
  function OfficerScore(o: Officer, needs: seq<string>): (r: real)
    ensures ValidRate(o.successRate) && 0 <= o.currentLoad <= o.maxCapacity ==> 0.0 <= r <= 0.8
  {
    SpecializationWeight * SpecializationMatch(o.specializations, needs)
    + LoadWeight * LoadScore(o.currentLoad, o.maxCapacity)
    + SuccessRateWeight * SuccessScore(o.successRate)
  }

  /** Repository query findAvailableStations: active with spare capacity. */
  predicate IsAvailableStation(s: Station)
  {
    s.active && s.currentLoad < s.capacity
  }

  /** Repository query findAvailableOfficers: active with spare capacity. */
  predicate IsAvailableOfficer(o: Officer)
  {
    o.active && o.currentLoad < o.maxCapacity
  }

  function AvailableStations(stations: seq<Station>): (pool: seq<Station>)
  {
    Lists.Filter(stations, IsAvailableStation)
  }

  function AvailableOfficers(officers: seq<Officer>): (pool: seq<Officer>)
  {
    Lists.Filter(officers, IsAvailableOfficer)
  }

  /** `Stream.max` over scores: the first index holding the greatest score
      (the reducer keeps the earlier element on a tie). */
  function FirstMaxIndex(scores: seq<real>): (k: nat)
    requires |scores| > 0
    ensures k < |scores|
    ensures forall j :: 0 <= j < |scores| ==> scores[j] <= scores[k]
    ensures forall j :: 0 <= j < k ==> scores[j] < scores[k]
  {
    if |scores| == 1 then 0
    else
      var k := FirstMaxIndex(scores[..|scores| - 1]);
      if scores[k] >= scores[|scores| - 1] then k else |scores| - 1
  }

  function StationScores(pool: seq<Station>, needs: seq<string>, zone: Option<string>): (scores: seq<real>)
    ensures |scores| == |pool|
    ensures forall i :: 0 <= i < |pool| ==> scores[i] == StationScore(pool[i], needs, zone)
  {
    seq(|pool|, i requires 0 <= i < |pool| => StationScore(pool[i], needs, zone))
  }

  function OfficerScores(pool: seq<Officer>, needs: seq<string>): (scores: seq<real>)
    ensures |scores| == |pool|
    ensures forall i :: 0 <= i < |pool| ==> scores[i] == OfficerScore(pool[i], needs)
  {
    seq(|pool|, i requires 0 <= i < |pool| => OfficerScore(pool[i], needs))
  }

  /** assignStation: the best-scoring available station, or none when no station is available. */
  function AssignStation(stations: seq<Station>, needs: seq<string>, zone: Option<string>): (r: Option<Station>)
    ensures r.None? <==> forall s :: s in stations ==> !IsAvailableStation(s)
    ensures r.Some? ==> r.value in stations && IsAvailableStation(r.value)
    ensures r.Some? ==> forall s :: s in stations && IsAvailableStation(s) ==>
                          StationScore(s, needs, zone) <= StationScore(r.value, needs, zone)
    ensures r.Some? ==> exists k :: 0 <= k < |AvailableStations(stations)| &&
                          AvailableStations(stations)[k] == r.value &&
                          forall j :: 0 <= j < k ==>
                            StationScore(AvailableStations(stations)[j], needs, zone) < StationScore(r.value, needs, zone)
  {
    var pool := AvailableStations(stations);
    if |pool| == 0 then
      assert pool == [];
      None
    else
      var scores := StationScores(pool, needs, zone);
      var k := FirstMaxIndex(scores);
      assert pool[k] in pool;
      assert forall s :: s in stations && IsAvailableStation(s) ==> StationScore(s, needs, zone) <= scores[k] by {
        forall s | s in stations && IsAvailableStation(s) ensures StationScore(s, needs, zone) <= scores[k] {
          var i :| 0 <= i < |pool| && pool[i] == s;
          assert scores[i] <= scores[k];
        }
      }
      Some(pool[k])
  }

  /** The officer is eligible for the requested station: any officer when no
      station is given, else only officers pinned to that station. */
  predicate PinnedTo(o: Officer, stationId: Option<int>)
  {
    stationId.None? || o.assignedStationId == stationId
  }

  function OfficerCandidates(officers: seq<Officer>, stationId: Option<int>): (pool: seq<Officer>)
    ensures forall o :: o in pool <==> o in officers && IsAvailableOfficer(o) && PinnedTo(o, stationId)
  {
    var available := AvailableOfficers(officers);
    if stationId.Some? then Lists.Filter(available, (o: Officer) => o.assignedStationId == stationId)
    else available
  }

  /** assignOfficer: the best-scoring available officer, restricted to those pinned
      to `stationId` when one is given; none when that restriction leaves nobody,
      even if other officers are available. */
  function AssignOfficer(officers: seq<Officer>, needs: seq<string>, stationId: Option<int>): (r: Option<Officer>)
    ensures r.None? <==> forall o :: o in officers ==> !(IsAvailableOfficer(o) && PinnedTo(o, stationId))
    ensures r.Some? ==> r.value in officers && IsAvailableOfficer(r.value)
    ensures r.Some? && stationId.Some? ==> r.value.assignedStationId == stationId
    ensures r.Some? ==> forall o :: o in officers && IsAvailableOfficer(o) && PinnedTo(o, stationId) ==>
                          OfficerScore(o, needs) <= OfficerScore(r.value, needs)
  {
    var pool := OfficerCandidates(officers, stationId);
    if |pool| == 0 then
      assert pool == [];
      None
    else
      var scores := OfficerScores(pool, needs);
      var k := FirstMaxIndex(scores);
      assert pool[k] in pool;
      BestCandidateBeatsAll(officers, needs, stationId, k);
      Some(pool[k])
  }

  /** On a tie the officer listed first among the candidates is chosen: the
      choice is the first candidate with the greatest score. */
  lemma AssignOfficerTakesFirstBest(officers: seq<Officer>, needs: seq<string>, stationId: Option<int>)
    requires AssignOfficer(officers, needs, stationId).Some?
    ensures var pool := OfficerCandidates(officers, stationId);
      var scores := OfficerScores(pool, needs);
      exists k :: 0 <= k < |pool| && pool[k] == AssignOfficer(officers, needs, stationId).value &&
        (forall j :: 0 <= j < k ==> scores[j] < scores[k]) && (forall j :: 0 <= j < |pool| ==> scores[j] <= scores[k])
  {
    var pool := OfficerCandidates(officers, stationId);
    var k := FirstMaxIndex(OfficerScores(pool, needs));
    assert pool[k] == AssignOfficer(officers, needs, stationId).value;
  }

  /** A candidate scoring at least as high as every other candidate scores at
      least as high as every officer the restriction admits. */
  lemma BestCandidateBeatsAll(officers: seq<Officer>, needs: seq<string>, stationId: Option<int>, k: int)
    requires 0 <= k < |OfficerCandidates(officers, stationId)|
    requires var pool := OfficerCandidates(officers, stationId);
      forall j :: 0 <= j < |pool| ==> OfficerScores(pool, needs)[j] <= OfficerScores(pool, needs)[k]
    ensures var best := OfficerCandidates(officers, stationId)[k];
      forall o :: o in officers && IsAvailableOfficer(o) && PinnedTo(o, stationId) ==>
        OfficerScore(o, needs) <= OfficerScore(best, needs)
  {
    var pool := OfficerCandidates(officers, stationId);
    var scores := OfficerScores(pool, needs);
    forall o | o in officers && IsAvailableOfficer(o) && PinnedTo(o, stationId)
      ensures OfficerScore(o, needs) <= OfficerScore(pool[k], needs)
    {
      var i :| 0 <= i < |pool| && pool[i] == o;
      assert scores[i] <= scores[k];
    }
  }

  /** With one need, the specialization score is all-or-nothing. */
  lemma SingleNeedMatchIsBinary(specs: seq<string>, need: string)
    ensures SpecializationMatch(specs, [need]) == (if Covered(need, specs) then 1.0 else 0.0)
  {
  }

  /** Two stations that differ only in zone and load: the one in the requested zone
      scores higher exactly when its load-score deficit is under the proximity gain
      (1.0 - 0.3, both weighted by 0.2). */
  lemma ProximityAgainstLoad(a: Station, b: Station, needs: seq<string>, zone: string)
    requires a.specializations == b.specializations && a.successRate == b.successRate
    requires a.zone == Some(zone) && b.zone.Some? && !Text.EqualsIgnoreCase(b.zone.value, zone)
    ensures StationScore(b, needs, Some(zone)) < StationScore(a, needs, Some(zone)) <==>
              LoadScore(b.currentLoad, b.capacity) - LoadScore(a.currentLoad, a.capacity) < 0.7
  {
    assert Proximity(a.zone, Some(zone)) == SameZoneScore;
    assert Proximity(b.zone, Some(zone)) == OtherZoneScore;
  }

  function ScenarioStation(id: int, zone: string, load: int): Station
  {
    Station(id, Some(zone), 10, load, ["substance_abuse"], Some(0.8), true)
  }

  lemma ScenarioFacts()
    ensures Covered("substance_abuse", ["substance_abuse"])
    ensures !Text.EqualsIgnoreCase("zoneB", "zoneA")
  {
    assert Text.EqualsIgnoreCase(["substance_abuse"][0], "substance_abuse");
    assert Text.ToLower("zoneB")[4] != Text.ToLower("zoneA")[4];
  }

  /** Zone A at load 5 of 10 against zone B at load 1 of 10, both fully matching
      the need, zone A requested: proximity wins and station A is chosen even
      though it is listed second. */
  lemma ZoneScenario()
    ensures AssignStation([ScenarioStation(2, "zoneB", 1), ScenarioStation(1, "zoneA", 5)],
                          ["substance_abuse"], Some("zoneA")) == Some(ScenarioStation(1, "zoneA", 5))
  {
    var a := ScenarioStation(1, "zoneA", 5);
    var b := ScenarioStation(2, "zoneB", 1);
    ScenarioFacts();
    ProximityAgainstLoad(a, b, ["substance_abuse"], "zoneA");
    assert [b, a][..1] == [b];
    assert [b][..0] == [];
    assert IsAvailableStation(a) && IsAvailableStation(b);
    assert Lists.Filter([b], IsAvailableStation) == [b];
    var pool := AvailableStations([b, a]);
    assert pool == [b, a];
    var scores := StationScores(pool, ["substance_abuse"], Some("zoneA"));
    assert scores[0] < scores[1];
    assert FirstMaxIndex(scores) == 1;
  }

  /** The same stations with zone A at load 9 of 10: the load gap (0.8) now
      outweighs proximity and station B is chosen. */
  lemma LoadScenario()
    ensures AssignStation([ScenarioStation(2, "zoneB", 1), ScenarioStation(1, "zoneA", 9)],
                          ["substance_abuse"], Some("zoneA")) == Some(ScenarioStation(2, "zoneB", 1))
  {
    var a := ScenarioStation(1, "zoneA", 9);
    var b := ScenarioStation(2, "zoneB", 1);
    ScenarioFacts();
    ProximityAgainstLoad(a, b, ["substance_abuse"], "zoneA");
    assert [b, a][..1] == [b];
    assert [b][..0] == [];
    assert IsAvailableStation(a) && IsAvailableStation(b);
    assert Lists.Filter([b], IsAvailableStation) == [b];
    var pool := AvailableStations([b, a]);
    assert pool == [b, a];
    var scores := StationScores(pool, ["substance_abuse"], Some("zoneA"));
    assert scores[1] < scores[0];
    assert FirstMaxIndex(scores) == 0;
  }
}
