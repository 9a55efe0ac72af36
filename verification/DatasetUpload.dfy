/** The AI service's dataset upload endpoints (upload.py): schema and range
    validation, the extension-to-format mapping, the rule that decides whether
    an upload replaces, fills or extends a stored dataset, paging, and delete.

    A parsed file is a `Frame`: its column names and its rows, each row a map
    from column name to cell. Parsing the file's bytes is a parameter: the
    frame, or the message of the exception the parser raised. Storage is a map
    from the dataset type's value to the stored frame; a missing entry is an
    empty slot. */
module DatasetUpload {
  import opened Wrappers
  import Lists
  import Text

  const NotFound: int := 404
  const ValidationFailed: int := 422
  const InternalError: int := 500
  const BadRequest: int := 400

  datatype DatasetType =
    | InmateProfiles | BehavioralRecords | ProgramOutcomes | CounselingNotes
    | EarlyReleaseData | IndustrialTraining | HomeLeave | RehabStations
  {
    /** The enumeration's value, which is also the storage key. */
    function Value(): string
    {
      match this
      case InmateProfiles => "inmate_profiles"
      case BehavioralRecords => "behavioral_records"
      case ProgramOutcomes => "program_outcomes"
      case CounselingNotes => "counseling_notes"
      case EarlyReleaseData => "early_release_data"
      case IndustrialTraining => "industrial_training"
      case HomeLeave => "home_leave"
      case RehabStations => "rehab_stations"
    }
  }

  /** A cell: a number, a text, or a missing value (NaN). */
  datatype Cell = Num(x: real) | Str(s: string) | Blank

  type Row = map<string, Cell>

  datatype Frame = Frame(columns: seq<string>, rows: seq<Row>)

  /** A column's cells, top to bottom; a row without the column reads as missing. */
  function Column(f: Frame, name: string): (cs: seq<Cell>)
    ensures |cs| == |f.rows|
    ensures forall i :: 0 <= i < |f.rows| ==> cs[i] == (if name in f.rows[i] then f.rows[i][name] else Blank)
  {
    seq(|f.rows|, i requires 0 <= i < |f.rows| => if name in f.rows[i] then f.rows[i][name] else Blank)
  }

  /** The columns each dataset type must carry. */
  function RequiredColumns(t: DatasetType): seq<string>
  {
    match t
    case InmateProfiles =>
      [ "inmate_id", "booking_number", "first_name", "last_name", "date_of_birth",
        "gender", "age", "behavior_score", "discipline_score", "risk_score" ]
    case BehavioralRecords => ["record_id", "inmate_id", "incident_date", "incident_type", "severity"]
    case ProgramOutcomes =>
      ["outcome_id", "inmate_id", "program_name", "program_type", "start_date", "status", "completion_percentage"]
    case CounselingNotes => ["note_id", "inmate_id", "session_date", "notes"]
    case EarlyReleaseData => ["record_id", "inmate_id", "assessment_date", "eligibility_score", "recommendation"]
    case IndustrialTraining => ["training_id", "inmate_id", "training_program", "start_date", "hours_completed"]
    case HomeLeave => ["leave_id", "inmate_id", "request_date", "leave_type", "approval_status"]
    case RehabStations => ["station_id", "station_name", "location", "zone", "capacity"]
  }

  /** The problems validation reports; each carries what its message quotes. */
  datatype Problem =
    | MissingColumns(names: set<string>)
    | DuplicateIds(count: nat)
    | InvalidBehavior(count: nat)
    | InvalidRisk(count: nat)

  function MissingFrom(f: Frame, t: DatasetType): (m: set<string>)
    ensures forall c :: c in m <==> c in RequiredColumns(t) && c !in f.columns
  {
    set c | c in RequiredColumns(t) && c !in f.columns
  }

  /** A comparison with a bound: false for a missing value. */
  predicate OutOfRange(c: Cell, lo: real, hi: real)
  {
    c.Num? && (c.x < lo || c.x > hi)
  }

  /** Comparing a column that holds text with a number raises. */
  predicate HoldsText(cs: seq<Cell>)
  {
    exists i :: 0 <= i < |cs| && cs[i].Str?
  }

  /** The range checks run on a column of a profiles dataset that is present. */
  predicate RangeChecked(f: Frame, t: DatasetType, name: string)
  {
    t == InmateProfiles && name in f.columns
  }

  function InvalidCount(f: Frame, name: string, lo: real, hi: real): (n: nat)
    ensures n <= |f.rows|
    ensures n == 0 <==> forall i :: 0 <= i < |f.rows| ==> !OutOfRange(Column(f, name)[i], lo, hi)
  {
    Lists.CountWhere(Column(f, name), (c: Cell) => OutOfRange(c, lo, hi))
  }

  /** Every problem validation could report, in report order, with its figures. */
  function ProblemCandidates(f: Frame, t: DatasetType): seq<Problem>
  {
    [ MissingColumns(MissingFrom(f, t)),
      DuplicateIds(Lists.DuplicateCount(Column(f, "inmate_id"))),
      InvalidBehavior(InvalidCount(f, "behavior_score", 0.0, 100.0)),
      InvalidRisk(InvalidCount(f, "risk_score", 0.0, 1.0)) ]
  }

  lemma ProblemCandidatesDistinct(f: Frame, t: DatasetType)
    ensures Lists.NoDuplicates(ProblemCandidates(f, t))
  {
    var m, d, b, r := MissingFrom(f, t), Lists.DuplicateCount(Column(f, "inmate_id")),
                      InvalidCount(f, "behavior_score", 0.0, 100.0), InvalidCount(f, "risk_score", 0.0, 1.0);
    assert ProblemCandidates(f, t) == [MissingColumns(m), DuplicateIds(d), InvalidBehavior(b), InvalidRisk(r)];
    KindsDistinct(m, d, b, r);
  }

  /** The only missing-columns candidate names exactly the missing columns. */
  lemma MissingCandidate(f: Frame, t: DatasetType, m: set<string>)
    ensures MissingColumns(m) in ProblemCandidates(f, t) <==> m == MissingFrom(f, t)
  {
    CandidateKinds(f, t);
  }

  /** The candidates come one of each kind, in report order. */
  lemma CandidateKinds(f: Frame, t: DatasetType)
    ensures |ProblemCandidates(f, t)| == 4
    ensures ProblemCandidates(f, t)[0].MissingColumns? && ProblemCandidates(f, t)[1].DuplicateIds?
    ensures ProblemCandidates(f, t)[2].InvalidBehavior? && ProblemCandidates(f, t)[3].InvalidRisk?
  {
  }

  /** Problems of different kinds differ. */
  lemma KindsDistinct(m: set<string>, d: nat, b: nat, r: nat)
    ensures Lists.NoDuplicates([MissingColumns(m), DuplicateIds(d), InvalidBehavior(b), InvalidRisk(r)])
  {
  }

  /** Whether a candidate is reported: its test applies to the type and finds something. */
  predicate Reported(p: Problem, f: Frame, t: DatasetType)
  {
    match p
    case MissingColumns(names) => names != {}
    case DuplicateIds(count) => t == InmateProfiles && "inmate_id" in f.columns && count > 0
    case InvalidBehavior(count) => RangeChecked(f, t, "behavior_score") && count > 0
    case InvalidRisk(count) => RangeChecked(f, t, "risk_score") && count > 0
  }

  /** A range-checked column holds text, so pandas' comparison with a number raises. */
  predicate ComparesText(f: Frame, t: DatasetType)
  {
    || (RangeChecked(f, t, "behavior_score") && HoldsText(Column(f, "behavior_score")))
    || (RangeChecked(f, t, "risk_score") && HoldsText(Column(f, "risk_score")))
  }

  /** validate_dataset: the problems found, or the message of the comparison
      that raised on a range-checked column holding text. */
  function Validate(f: Frame, t: DatasetType): (r: Result<seq<Problem>, string>)
    ensures r.Failure? <==> ComparesText(f, t)
    ensures r.Success? ==> |r.value| <= 4
    ensures r.Success? ==> forall p :: p in r.value <==> p in ProblemCandidates(f, t) && Reported(p, f, t)
    ensures r.Success? ==> Lists.FollowsOrderOf(r.value, ProblemCandidates(f, t))
  {
    ProblemCandidatesDistinct(f, t);
    Lists.FilterIndexOrder(ProblemCandidates(f, t), (p: Problem) => Reported(p, f, t));
    if ComparesText(f, t) then
      Failure("'<' not supported between instances of 'str' and 'int'")
    else
      Success(Lists.Filter(ProblemCandidates(f, t), (p: Problem) => Reported(p, f, t)))
  }

  /** The missing-columns problem is reported, naming exactly the required
      columns the frame lacks, when there are any. */
  lemma ReportsMissingColumns(f: Frame, t: DatasetType, m: set<string>)
    requires !ComparesText(f, t)
    ensures MissingColumns(m) in Validate(f, t).value <==> m == MissingFrom(f, t) && m != {}
  {
    MissingCandidate(f, t, m);
  }

  /** For profiles with an id column, the duplicate count is reported when it is not zero. */
  lemma ReportsDuplicates(f: Frame, t: DatasetType, k: nat)
    requires !ComparesText(f, t)
    ensures DuplicateIds(k) in Validate(f, t).value <==>
              t == InmateProfiles && "inmate_id" in f.columns && k == Lists.DuplicateCount(Column(f, "inmate_id")) && k > 0
  {
    var candidates := ProblemCandidates(f, t);
    var x := DuplicateIds(k);
    CandidateKinds(f, t);
    assert x in candidates <==> x == candidates[1];
    assert x in Validate(f, t).value <==> x in candidates && Reported(x, f, t);
  }

  /** For profiles, the rows whose behavior score lies outside [0, 100] are
      counted, and reported when there are any. */
  lemma ReportsInvalidBehavior(f: Frame, t: DatasetType, k: nat)
    requires !ComparesText(f, t)
    ensures InvalidBehavior(k) in Validate(f, t).value <==>
              RangeChecked(f, t, "behavior_score") && k == InvalidCount(f, "behavior_score", 0.0, 100.0) && k > 0
  {
    var candidates := ProblemCandidates(f, t);
    var x := InvalidBehavior(k);
    CandidateKinds(f, t);
    assert x in candidates <==> x == candidates[2];
    assert x in Validate(f, t).value <==> x in candidates && Reported(x, f, t);
  }

  /** For profiles, the rows whose risk score lies outside [0, 1] are counted,
      and reported when there are any. */
  lemma ReportsInvalidRisk(f: Frame, t: DatasetType, k: nat)
    requires !ComparesText(f, t)
    ensures InvalidRisk(k) in Validate(f, t).value <==>
              RangeChecked(f, t, "risk_score") && k == InvalidCount(f, "risk_score", 0.0, 1.0) && k > 0
  {
    var candidates := ProblemCandidates(f, t);
    var x := InvalidRisk(k);
    CandidateKinds(f, t);
    assert x in candidates <==> x == candidates[3];
    assert x in Validate(f, t).value <==> x in candidates && Reported(x, f, t);
  }

  /** Every required column the frame lacks is named by a "Missing required
      columns" problem, and a frame carrying all of them reports none. */
  lemma MissingColumnsReported(f: Frame, t: DatasetType)
    requires !ComparesText(f, t)
    ensures forall c :: c in RequiredColumns(t) && c !in f.columns ==>
              exists m :: MissingColumns(m) in Validate(f, t).value && c in m
    ensures (forall c :: c in RequiredColumns(t) ==> c in f.columns) ==>
              forall m :: MissingColumns(m) !in Validate(f, t).value
  {
    var m := MissingFrom(f, t);
    ReportsMissingColumns(f, t, m);
    forall m' | MissingColumns(m') in Validate(f, t).value ensures m' == m && m != {} {
      ReportsMissingColumns(f, t, m');
    }
  }

  /** Only a profiles dataset is checked beyond its columns: its report is
      empty exactly when it carries every required column. */
  lemma OtherTypesOnlyCheckColumns(f: Frame, t: DatasetType)
    requires t != InmateProfiles
    ensures Validate(f, t).Success?
    ensures forall p :: p in Validate(f, t).value ==> p.MissingColumns?
    ensures Validate(f, t).value == [] <==> forall c :: c in RequiredColumns(t) ==> c in f.columns
  {
    var m := MissingFrom(f, t);
    OnlyMissingColumns(f, t);
    var candidates := ProblemCandidates(f, t);
    assert Validate(f, t).value == [] <==> forall i :: 0 <= i < 4 ==> !Reported(candidates[i], f, t);
    assert !Reported(candidates[1], f, t) && !Reported(candidates[2], f, t) && !Reported(candidates[3], f, t);
    assert Reported(candidates[0], f, t) <==> m != {};
    if m != {} {
      var c :| c in m;
      assert c in RequiredColumns(t) && c !in f.columns;
    }
  }

  lemma OnlyMissingColumns(f: Frame, t: DatasetType)
    requires t != InmateProfiles
    ensures Validate(f, t).Success?
    ensures forall p :: p in Validate(f, t).value ==> p == MissingColumns(MissingFrom(f, t))
  {
    assert !RangeChecked(f, t, "behavior_score") && !RangeChecked(f, t, "risk_score");
    var v := Validate(f, t).value;
    var candidates := ProblemCandidates(f, t);
    assert !Reported(candidates[1], f, t) && !Reported(candidates[2], f, t) && !Reported(candidates[3], f, t);
    forall p | p in v ensures p == candidates[0] {
      assert p in candidates && Reported(p, f, t);
      var i :| 0 <= i < |candidates| && candidates[i] == p;
      assert i != 1 && i != 2 && i != 3;
    }
  }

  /** The format a file name's extension selects: the text after its last
      dot (the whole name when it has none), lower-cased. */
  datatype FileFormat = Csv | Excel

  function Extension(filename: string): (ext: string)
    ensures |ext| <= |filename|
    ensures forall i :: 0 <= i < |ext| ==> ext[i] != '.'
    ensures ext == filename || (|ext| < |filename| && filename[|filename| - |ext| - 1] == '.')
    ensures ext == filename[|filename| - |ext|..]
  {
    if |filename| == 0 then filename
    else if filename[|filename| - 1] == '.' then []
    else
      var rest := Extension(filename[..|filename| - 1]);
      if rest == filename[..|filename| - 1] then filename
      else rest + [filename[|filename| - 1]]
  }

  function FormatFor(filename: string): (r: Option<FileFormat>)
    ensures var ext := Text.ToLower(Extension(filename));
      && (r == Some(Csv) <==> ext == "csv")
      && (r == Some(Excel) <==> ext == "xlsx" || ext == "xls")
  {
    FormatOf(Text.ToLower(Extension(filename)))
  }

  function FormatOf(ext: string): (r: Option<FileFormat>)
    ensures r == Some(Csv) <==> ext == "csv"
    ensures r == Some(Excel) <==> ext == "xlsx" || ext == "xls"
  {
    if ext == "csv" then Some(Csv)
    else if ext == "xlsx" || ext == "xls" then Some(Excel)
    else None
  }

  type Store = map<string, Frame>

  /** pd.concat with ignore_index: the rows one after the other, and the columns
      of the stored frame followed by the new frame's other columns. */
  function Concat(a: Frame, b: Frame): (c: Frame)
    ensures c.rows == a.rows + b.rows
    ensures forall name :: name in c.columns <==> name in a.columns || name in b.columns
    ensures |a.columns| <= |c.columns| && c.columns[..|a.columns|] == a.columns
  {
    Frame(a.columns + Lists.Filter(b.columns, (name: string) => name !in a.columns), a.rows + b.rows)
  }

  datatype Action = Stored | Replaced | Appended | Rejected

  datatype UploadResponse = UploadResponse(
    success: bool, datasetType: DatasetType, recordsCount: nat, action: Action,
    problems: seq<Problem>, sample: seq<Row>)

  /** A store after an upload, and the route's answer. */
  datatype Outcome = Outcome(store: Store, answer: Result<UploadResponse, int>)

  function Head(rows: seq<Row>): (h: seq<Row>)
    ensures |h| == if |rows| < 3 then |rows| else 3
    ensures h == rows[..|h|]
  {
    rows[..if |rows| < 3 then |rows| else 3]
  }

  /** What an upload that passed the extension, parse and validation steps does to the store. */
  function StoreUpload(store: Store, t: DatasetType, f: Frame, replace: bool): (s: Store)
    ensures s.Keys == store.Keys + {t.Value()}
    ensures forall k :: k in store && k != t.Value() ==> s[k] == store[k]
    ensures replace || t.Value() !in store ==> s[t.Value()] == f
    ensures !replace && t.Value() in store ==> s[t.Value()] == Concat(store[t.Value()], f)
  {
    var key := t.Value();
    if replace || key !in store then store[key := f] else store[key := Concat(store[key], f)]
  }

  /** upload_dataset_file. `parsed` is what parsing the file's bytes gave. Every
      exception raised inside the handler, the unsupported-extension and
      parse-error answers with status 400 included, is re-raised as status 500. */
  function UploadAsWritten(store: Store, filename: string, t: DatasetType, parsed: Result<Frame, string>,
                           replace: bool): (o: Outcome)
    ensures o.answer.Failure? ==> o.answer.error == InternalError && o.store == store
    ensures o.answer.Failure? <==>
              FormatFor(filename).None? || parsed.Failure? || Validate(parsed.value, t).Failure?
    ensures o.answer.Success? ==> UploadEffect(store, t, parsed.value, replace, o)
  {
    if FormatFor(filename).None? || parsed.Failure? then Outcome(store, Failure(InternalError))
    else Accept(store, t, parsed.value, replace)
  }

  /** The effect of an upload whose file was read: rejected with its problems
      and the store untouched, or stored, replacing, filling or extending the slot. */
  predicate UploadEffect(store: Store, t: DatasetType, f: Frame, replace: bool, o: Outcome)
    requires Validate(f, t).Success? && o.answer.Success?
  {
    var problems := Validate(f, t).value;
    var r := o.answer.value;
    && r.datasetType == t && r.recordsCount == |f.rows| && r.problems == problems
    && (r.success <==> problems == [] || replace)
    && (!r.success ==> o.store == store && r.action == Rejected && r.sample == [])
    && (r.success ==>
          && o.store == StoreUpload(store, t, f, replace)
          && r.sample == Head(f.rows)
          && r.action == (if replace then Replaced else if t.Value() in store then Appended else Stored))
  }

  /** The steps after the file is read: validate, then reject or store. */
  function Accept(store: Store, t: DatasetType, f: Frame, replace: bool): (o: Outcome)
    ensures o.answer.Failure? <==> Validate(f, t).Failure?
    ensures o.answer.Failure? ==> o.answer.error == InternalError && o.store == store
    ensures o.answer.Success? ==> UploadEffect(store, t, f, replace, o)
  {
    match Validate(f, t)
    case Failure(_) => Outcome(store, Failure(InternalError))
    case Success(problems) =>
      if problems != [] && !replace then
        Outcome(store, Success(UploadResponse(false, t, |f.rows|, Rejected, problems, [])))
      else
        var action := if replace then Replaced else if t.Value() in store then Appended else Stored;
        Outcome(StoreUpload(store, t, f, replace), Success(UploadResponse(true, t, |f.rows|, action, problems, Head(f.rows))))
  }

  /** The upload as evidently intended: an unsupported extension or a file that
      does not parse is answered with status 400 rather than 500. */
  function Upload(store: Store, filename: string, t: DatasetType, parsed: Result<Frame, string>,
                  replace: bool): (o: Outcome)
    ensures o.answer.Failure? ==> o.store == store
    ensures o.answer == Failure(BadRequest) <==> FormatFor(filename).None? || parsed.Failure?
    ensures o.answer == Failure(InternalError) <==>
              FormatFor(filename).Some? && parsed.Success? && Validate(parsed.value, t).Failure?
    ensures o.answer.Success? ==> UploadEffect(store, t, parsed.value, replace, o)
  {
    if FormatFor(filename).None? || parsed.Failure? then Outcome(store, Failure(BadRequest))
    else Accept(store, t, parsed.value, replace)
  }

  /** The two agree on every upload whose file was read; they differ only in
      the status for a file that was not. */
  lemma UploadAgreesOnReadFiles(store: Store, filename: string, t: DatasetType, parsed: Result<Frame, string>,
                                replace: bool)
    ensures FormatFor(filename).Some? && parsed.Success? ==>
              Upload(store, filename, t, parsed, replace) == UploadAsWritten(store, filename, t, parsed, replace)
    ensures FormatFor(filename).None? ==>
              && UploadAsWritten(store, filename, t, parsed, replace).answer == Failure(InternalError)
              && Upload(store, filename, t, parsed, replace).answer == Failure(BadRequest)
  {
  }

  /** "notes.txt" is refused with status 500 where 400 was meant. */
  lemma TextFileAnswered500(store: Store, t: DatasetType, parsed: Result<Frame, string>)
    ensures UploadAsWritten(store, "notes.txt", t, parsed, false).answer == Failure(InternalError)
    ensures Upload(store, "notes.txt", t, parsed, false).answer == Failure(BadRequest)
  {
    TextFileHasNoFormat();
  }

  /** "notes.txt" has the extension "txt", which names no supported format. */
  lemma TextFileHasNoFormat()
    ensures Text.ToLower(Extension("notes.txt")) == "txt"
    ensures FormatFor("notes.txt").None?
  {
    var name := "notes.txt";
    assert name[5] == '.';
    assert Extension(name[..6]) == [] by {
      assert name[..6][5] == '.';
    }
    assert Extension(name[..7]) == "t" by {
      assert name[..7][..6] == name[..6];
    }
    assert Extension(name[..8]) == "tx" by {
      assert name[..8][..7] == name[..7];
    }
    assert Extension(name) == "txt" by {
      assert name[..8] == name[..|name| - 1];
    }
    assert Text.ToLower("txt") == "txt";
  }

  /** The rows a page shows: rows [offset, offset + limit) clipped to the data. */
  function Page(rows: seq<Row>, offset: nat, limit: nat): (p: seq<Row>)
    ensures |p| == (if offset >= |rows| then 0 else if offset + limit <= |rows| then limit else |rows| - offset)
    ensures forall i :: 0 <= i < |p| ==> p[i] == rows[offset + i]
  {
    if offset >= |rows| then []
    else rows[offset..if offset + limit <= |rows| then offset + limit else |rows|]
  }

  /** Two consecutive pages make up the page that spans both. */
  lemma PagesTile(rows: seq<Row>, offset: nat, a: nat, b: nat)
    ensures Page(rows, offset, a) + Page(rows, offset + a, b) == Page(rows, offset, a + b)
  {
    var p, q, whole := Page(rows, offset, a), Page(rows, offset + a, b), Page(rows, offset, a + b);
    assert |p + q| == |whole|;
    forall i | 0 <= i < |whole| ensures (p + q)[i] == whole[i] {
      if i >= |p| {
        assert q[i - |p|] == rows[offset + a + (i - |p|)];
      }
    }
  }

  datatype DatasetPage = DatasetPage(datasetType: DatasetType, totalRecords: nat, returnedRecords: nat,
                                     offset: nat, limit: nat, data: seq<Row>)

  /** get_dataset: 422 for a limit outside [1, 1000] or a negative offset, 404
      for an empty slot, otherwise the requested page. */
  function GetDataset(store: Store, t: DatasetType, limit: int, offset: int): (r: Result<DatasetPage, int>)
    ensures r == Failure(ValidationFailed) <==> !(1 <= limit <= 1000 && offset >= 0)
    ensures r == Failure(NotFound) <==> 1 <= limit <= 1000 && offset >= 0 && t.Value() !in store
    ensures r.Success? ==>
              var rows := store[t.Value()].rows;
              && r.value.totalRecords == |rows| && r.value.returnedRecords == |r.value.data|
              && r.value.offset == offset && r.value.limit == limit
              && r.value.data == Page(rows, offset, limit)
  {
    if !(1 <= limit <= 1000 && offset >= 0) then Failure(ValidationFailed)
    else if t.Value() !in store then Failure(NotFound)
    else
      var rows := store[t.Value()].rows;
      var data := Page(rows, offset, limit);
      Success(DatasetPage(t, |rows|, |data|, offset, limit, data))
  }

  /** delete_dataset: 404 for an empty slot, otherwise the number of rows dropped
      and the slot emptied. */
  function DeleteDataset(store: Store, t: DatasetType): (r: Result<(Store, nat), int>)
    ensures r.Failure? <==> t.Value() !in store
    ensures r.Failure? ==> r.error == NotFound
    ensures r.Success? ==>
              && r.value.1 == |store[t.Value()].rows|
              && r.value.0.Keys == store.Keys - {t.Value()}
              && forall k :: k in r.value.0 ==> r.value.0[k] == store[k]
  {
    if t.Value() !in store then Failure(NotFound)
    else Success((store - {t.Value()}, |store[t.Value()].rows|))
  }

  /** Each dataset type has its own slot. */
  lemma ValuesDistinct(s: DatasetType, t: DatasetType)
    ensures s.Value() == t.Value() <==> s == t
  {
    if s != t {
      var a, b := s.Value(), t.Value();
      assert a[0] != b[0] || a[1] != b[1] || a[2] != b[2] || a[|a| - 1] != b[|b| - 1] || |a| != |b|;
    }
  }

  /** A successful upload into an empty slot or with replacement is read back
      page by page as it was uploaded. */
  lemma StoredUploadReadsBack(store: Store, filename: string, t: DatasetType, f: Frame, replace: bool,
                              limit: int, offset: int)
    requires 1 <= limit <= 1000 && offset >= 0
    requires replace || t.Value() !in store
    requires Upload(store, filename, t, Success(f), replace).answer.Success?
    requires Upload(store, filename, t, Success(f), replace).answer.value.success
    ensures GetDataset(Upload(store, filename, t, Success(f), replace).store, t, limit, offset).Success?
    ensures GetDataset(Upload(store, filename, t, Success(f), replace).store, t, limit, offset).value.data
              == Page(f.rows, offset, limit)
  {
  }

  /** Appending keeps the stored rows in front: the page starting where the old
      data ended shows the new file's first rows. */
  lemma AppendedRowsFollow(store: Store, filename: string, t: DatasetType, f: Frame, limit: int)
    requires 1 <= limit <= 1000 && t.Value() in store
    requires Upload(store, filename, t, Success(f), false).answer.Success?
    requires Upload(store, filename, t, Success(f), false).answer.value.success
    ensures var before := store[t.Value()].rows;
      && GetDataset(Upload(store, filename, t, Success(f), false).store, t, limit, 0).value.totalRecords
           == |before| + |f.rows|
      && GetDataset(Upload(store, filename, t, Success(f), false).store, t, limit, |before|).value.data
           == Page(f.rows, 0, limit)
  {
    var o := Upload(store, filename, t, Success(f), false);
    assert o.store == StoreUpload(store, t, f, false);
    assert o.store[t.Value()].rows == store[t.Value()].rows + f.rows;
    PageAfterPrefix(store[t.Value()].rows, f.rows, limit);
  }

  /** Paging past a prefix reads the rest from its start. */
  lemma PageAfterPrefix(a: seq<Row>, b: seq<Row>, limit: nat)
    ensures Page(a + b, |a|, limit) == Page(b, 0, limit)
  {
    var p, q := Page(a + b, |a|, limit), Page(b, 0, limit);
    assert |p| == |q|;
    forall i | 0 <= i < |p| ensures p[i] == q[i] {
      assert (a + b)[|a| + i] == b[i];
    }
  }

  /** A rejected upload leaves every slot as it was. */
  lemma RejectedUploadChangesNothing(store: Store, filename: string, t: DatasetType, parsed: Result<Frame, string>)
    requires var o := Upload(store, filename, t, parsed, false); o.answer.Failure? || !o.answer.value.success
    ensures Upload(store, filename, t, parsed, false).store == store
  {
  }

  /** Deleting a dataset makes the next read of it a 404. */
  lemma DeleteThenGet(store: Store, t: DatasetType, limit: int, offset: int)
    requires t.Value() in store && 1 <= limit <= 1000 && offset >= 0
    ensures GetDataset(DeleteDataset(store, t).value.0, t, limit, offset) == Failure(NotFound)
    ensures DeleteDataset(DeleteDataset(store, t).value.0, t) == Failure(NotFound)
  {
  }
}
