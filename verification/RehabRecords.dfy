/** The rehabilitation service's persistent records (its JPA entities),
    reduced to the fields the service logic reads or writes.

    Timestamps (`createdAt`, `lastUpdated`, `logDate`) are set from the clock by
    the persistence layer and are not part of this model. */
module RehabRecords {
  import opened Wrappers

  /** A value of a profile's free-form JSON feature map: JSON `null`, or any
      other JSON value, represented by what Java's `toString()` renders for it. */
  datatype FeatureValue = JsonNull | Scalar(text: string)

  type Features = map<string, FeatureValue>

  /** RehabProfile: one per inmate; every field the service reads may be null. */
  datatype RehabProfile = RehabProfile(
    inmateId: string,
    features: Option<Features>,
    suitabilityGroup: Option<string>,
    riskScore: Option<real>)

  /** Program: a catalog entry, looked up by its `type` column. */
  datatype Program = Program(
    id: int,
    name: string,
    programType: string,
    active: bool)

  /** RehabStation. `specializations` stands for the element collection,
      a null collection being the same as an empty one for every reader. */
  datatype Station = Station(
    id: int,
    zone: Option<string>,
    capacity: int,
    currentLoad: int,
    specializations: seq<string>,
    successRate: Option<real>,
    active: bool)

  /** MedicalOfficer, optionally pinned to a station by `assignedStationId`. */
  datatype Officer = Officer(
    id: int,
    specializations: seq<string>,
    assignedStationId: Option<int>,
    currentLoad: int,
    maxCapacity: int,
    successRate: Option<real>,
    active: bool)

  /** RecommendationStatus: the service writes only PENDING and COMPLETED; any other
      value of the enumeration is carried unchanged under its name. */
  datatype RecommendationStatus = Pending | Completed | OtherStatus(name: string)

  datatype Recommendation = Recommendation(
    id: int,
    inmateId: string,
    program: Program,
    station: Option<Station>,
    officer: Option<Officer>,
    durationWeeks: int,
    explanation: Option<string>,
    confidence: Option<real>,
    status: RecommendationStatus)

  /** ProgressLog: append-only entry against one recommendation. The progress
      status is an enumeration value the service stores verbatim, kept here as its name. */
  datatype ProgressLog = ProgressLog(
    inmateId: string,
    recommendationId: int,
    status: string,
    progressPercentage: Option<int>,
    notes: string,
    recordedBy: string)
}
