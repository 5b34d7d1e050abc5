/** Release qualification: the reviewed cases are exactly the required matrix, and the evidence archive holds
    exactly one matching report for each of them.

    Case identifiers and report names are kept as the values they spell; the spellings are distinct. */
module QualificationEvidence {
  import opened Common
  import opened Ordering

  datatype Version = V1 | V2
  datatype SampleRate = Rate40k | Rate48k
  datatype TrainingMethod = TrainPm | TrainHarvest | TrainDio | TrainRmvpe | TrainRmvpeGpu
  datatype InferenceMethod = Pm | Harvest | Crepe | Rmvpe
  datatype Operation = Cancellation | RestartRecovery | TelemetrySpool | NoPublicEgress

  /** The required matrix. */
  datatype CaseId =
    | Core(version: Version, rate: SampleRate, f0: bool)
    | Training(training: TrainingMethod)
    | Sample(version: Version, rate: SampleRate, index: bool, inference: InferenceMethod)
    | Ops(operation: Operation)

  /** What the file gives as an identifier or a path. */
  datatype CaseText = Known(id: CaseId) | Unknown(text: string)
  datatype ReportName = ReportOf(id: CaseId) | OtherName(text: string)

  datatype CaseRecord = CaseRecord(caseId: CaseText, result: string, report: ReportName, digest: string)

  datatype QualificationError = NotRequired | DuplicateCase | NotPassed | WrongReportPath | InvalidDigest | Incomplete
                              | TooManyMembers | DuplicateMember | NotRegular | UnsafeSize | TotalLimit | Unlisted | WrongDigest

  const VERSIONS := [V1, V2]
  const RATES := [Rate40k, Rate48k]
  const TRAINING_METHODS := [TrainPm, TrainHarvest, TrainDio, TrainRmvpe, TrainRmvpeGpu]
  const INFERENCE_METHODS := [Pm, Harvest, Crepe, Rmvpe]
  const OPERATIONS := [Cancellation, RestartRecovery, TelemetrySpool, NoPublicEgress]
  const SWITCHES := [false, true]

  // ----- How cases are spelled -----

  function VersionText(v: Version): (s: string)
    ensures |s| == 2 && (s[1] == '1' <==> v == V1)
  {
    match v case V1 => "v1" case V2 => "v2"
  }

  function RateText(r: SampleRate): (s: string)
    ensures |s| == 3 && (s[1] == '0' <==> r == Rate40k)
  {
    match r case Rate40k => "40k" case Rate48k => "48k"
  }

  function F0Text(f0: bool): (s: string)
    ensures |s| == if f0 then 5 else 6
  {
    if f0 then "f0-on" else "f0-off"
  }

  function IndexText(index: bool): (s: string)
    ensures |s| >= 8 && (s[7] == 'n' <==> index)
  {
    if index then "index-on" else "index-off"
  }

  function TrainingText(m: TrainingMethod): (s: string)
    ensures s != ""
  {
    match m
    case TrainPm => "pm"
    case TrainHarvest => "harvest"
    case TrainDio => "dio"
    case TrainRmvpe => "rmvpe"
    case TrainRmvpeGpu => "rmvpe-gpu"
  }

  function InferenceText(m: InferenceMethod): (s: string)
    ensures s != ""
  {
    match m case Pm => "pm" case Harvest => "harvest" case Crepe => "crepe" case Rmvpe => "rmvpe"
  }

  function OperationText(o: Operation): (s: string)
    ensures s != ""
  {
    match o
    case Cancellation => "cancellation"
    case RestartRecovery => "restart-recovery"
    case TelemetrySpool => "telemetry-spool"
    case NoPublicEgress => "no-public-egress"
  }

  /** The identifier in the qualification file. */
  function Spelled(c: CaseId): string {
    match c
    case Core(v, rate, f0) => "core-" + (VersionText(v) + ("-" + (RateText(rate) + ("-" + F0Text(f0)))))
    case Training(m) => "training-f0-" + TrainingText(m)
    case Sample(v, rate, index, m) =>
      "sample-" + (VersionText(v) + ("-" + (RateText(rate) + ("-" + (IndexText(index) + ("-" + InferenceText(m)))))))
    case Ops(o) => "ops-" + OperationText(o)
  }

  /** The name of the report that has to come with it. */
  function ReportPath(c: CaseId): string { "reports/" + (Spelled(c) + ".json") }

  /** The methods and operations are spelled by exactly these texts. */
  lemma TrainingTexts(s: string)
    ensures (exists m :: TrainingText(m) == s) <==> s in ["pm", "harvest", "dio", "rmvpe", "rmvpe-gpu"]
  {
    assert TrainingText(TrainPm) == "pm" && TrainingText(TrainHarvest) == "harvest" && TrainingText(TrainDio) == "dio";
    assert TrainingText(TrainRmvpe) == "rmvpe" && TrainingText(TrainRmvpeGpu) == "rmvpe-gpu";
  }

  lemma InferenceTexts(s: string)
    ensures (exists m :: InferenceText(m) == s) <==> s in ["pm", "harvest", "crepe", "rmvpe"]
  {
    assert InferenceText(Pm) == "pm" && InferenceText(Harvest) == "harvest";
    assert InferenceText(Crepe) == "crepe" && InferenceText(Rmvpe) == "rmvpe";
  }

  lemma OperationTexts(s: string)
    ensures (exists o :: OperationText(o) == s) <==>
              s in ["cancellation", "restart-recovery", "telemetry-spool", "no-public-egress"]
  {
    assert OperationText(Cancellation) == "cancellation" && OperationText(RestartRecovery) == "restart-recovery";
    assert OperationText(TelemetrySpool) == "telemetry-spool" && OperationText(NoPublicEgress) == "no-public-egress";
  }

  lemma SameStart<T>(a: seq<T>, x: seq<T>, b: seq<T>, y: seq<T>)
    requires |a| == |b| && a + x == b + y
    ensures a == b && x == y
  {
    assert (a + x)[..|a|] == a && (b + y)[..|b|] == b;
    assert (a + x)[|a|..] == x && (b + y)[|b|..] == y;
  }

  lemma SameVersionAndRate(v: Version, rate: SampleRate, x: string, w: Version, other: SampleRate, y: string)
    requires VersionText(v) + ("-" + (RateText(rate) + ("-" + x))) == VersionText(w) + ("-" + (RateText(other) + ("-" + y)))
    ensures v == w && rate == other && x == y
  {
    SameStart(VersionText(v), "-" + (RateText(rate) + ("-" + x)), VersionText(w), "-" + (RateText(other) + ("-" + y)));
    SameStart("-", RateText(rate) + ("-" + x), "-", RateText(other) + ("-" + y));
    SameStart(RateText(rate), "-" + x, RateText(other), "-" + y);
    SameStart("-", x, "-", y);
  }

  lemma CoreTextsDiffer(a: CaseId, b: CaseId)
    requires a.Core? && b.Core? && Spelled(a) == Spelled(b)
    ensures a == b
  {
    var x := VersionText(a.version) + ("-" + (RateText(a.rate) + ("-" + F0Text(a.f0))));
    var y := VersionText(b.version) + ("-" + (RateText(b.rate) + ("-" + F0Text(b.f0))));
    SameStart("core-", x, "core-", y);
    SameVersionAndRate(a.version, a.rate, F0Text(a.f0), b.version, b.rate, F0Text(b.f0));
  }

  lemma SampleTextsDiffer(a: CaseId, b: CaseId)
    requires a.Sample? && b.Sample? && Spelled(a) == Spelled(b)
    ensures a == b
  {
    var i := IndexText(a.index) + ("-" + InferenceText(a.inference));
    var j := IndexText(b.index) + ("-" + InferenceText(b.inference));
    var x := VersionText(a.version) + ("-" + (RateText(a.rate) + ("-" + i)));
    var y := VersionText(b.version) + ("-" + (RateText(b.rate) + ("-" + j)));
    SameStart("sample-", x, "sample-", y);
    SameVersionAndRate(a.version, a.rate, i, b.version, b.rate, j);
    assert i[7] == IndexText(a.index)[7] && j[7] == IndexText(b.index)[7];
    SameStart(IndexText(a.index), "-" + InferenceText(a.inference), IndexText(b.index), "-" + InferenceText(b.inference));
    SameStart("-", InferenceText(a.inference), "-", InferenceText(b.inference));
    InferenceTextsDiffer(a.inference, b.inference);
  }

  lemma InferenceTextsDiffer(m: InferenceMethod, n: InferenceMethod)
    requires InferenceText(m) == InferenceText(n)
    ensures m == n
  {
    assert InferenceText(m)[0] == InferenceText(n)[0];
  }

  lemma TrainingTextsDiffer(m: TrainingMethod, n: TrainingMethod)
    requires TrainingText(m) == TrainingText(n)
    ensures m == n
  {
    assert |TrainingText(m)| == |TrainingText(n)| && TrainingText(m)[0] == TrainingText(n)[0];
  }

  lemma OperationTextsDiffer(o: Operation, p: Operation)
    requires OperationText(o) == OperationText(p)
    ensures o == p
  {
    assert OperationText(o)[0] == OperationText(p)[0];
  }

  /** Different cases are spelled differently, and so are the names of their reports: comparing the texts is
      comparing the cases. */
  lemma SpelledTextsDiffer(a: CaseId, b: CaseId)
    ensures Spelled(a) == Spelled(b) <==> a == b
    ensures ReportPath(a) == ReportPath(b) <==> a == b
  {
    if ReportPath(a) == ReportPath(b) {
      SameStart("reports/", Spelled(a) + ".json", "reports/", Spelled(b) + ".json");
      assert |Spelled(a)| == |Spelled(b)|;
      SameStart(Spelled(a), ".json", Spelled(b), ".json");
    }
    if Spelled(a) == Spelled(b) {
      assert Spelled(a)[0] == Spelled(b)[0];
      match (a, b) {
        case (Core(_, _, _), Core(_, _, _)) => CoreTextsDiffer(a, b);
        case (Sample(_, _, _, _), Sample(_, _, _, _)) => SampleTextsDiffer(a, b);
        case (Training(m), Training(n)) =>
          SameStart("training-f0-", TrainingText(m), "training-f0-", TrainingText(n));
          TrainingTextsDiffer(m, n);
        case (Ops(o), Ops(p)) =>
          SameStart("ops-", OperationText(o), "ops-", OperationText(p));
          OperationTextsDiffer(o, p);
        case _ => assert false;
      }
    }
  }

  // ----- The required matrix -----

  lemma PrefixGrows<T>(s: seq<T>, i: nat)
    requires i < |s|
    ensures forall x :: x in s[..i + 1] <==> x in s[..i] || x == s[i]
  {
    assert s[..i + 1] == s[..i] + [s[i]];
  }

  lemma ListsAreComplete()
    ensures forall v :: v in VERSIONS[..|VERSIONS|]
    ensures forall r :: r in RATES[..|RATES|]
    ensures forall m :: m in TRAINING_METHODS[..|TRAINING_METHODS|]
    ensures forall m :: m in INFERENCE_METHODS[..|INFERENCE_METHODS|]
    ensures forall o :: o in OPERATIONS[..|OPERATIONS|]
    ensures forall b :: b in SWITCHES[..|SWITCHES|]
  {
    assert VERSIONS[..|VERSIONS|] == VERSIONS && RATES[..|RATES|] == RATES && SWITCHES[..|SWITCHES|] == SWITCHES;
    assert TRAINING_METHODS[..|TRAINING_METHODS|] == TRAINING_METHODS && OPERATIONS[..|OPERATIONS|] == OPERATIONS;
    assert INFERENCE_METHODS[..|INFERENCE_METHODS|] == INFERENCE_METHODS;
    forall v ensures v in VERSIONS { match v case V1 => assert VERSIONS[0] == v; case V2 => assert VERSIONS[1] == v; }
    forall r ensures r in RATES { match r case Rate40k => assert RATES[0] == r; case Rate48k => assert RATES[1] == r; }
    forall m ensures m in TRAINING_METHODS {
      match m
      case TrainPm => assert TRAINING_METHODS[0] == m;
      case TrainHarvest => assert TRAINING_METHODS[1] == m;
      case TrainDio => assert TRAINING_METHODS[2] == m;
      case TrainRmvpe => assert TRAINING_METHODS[3] == m;
      case TrainRmvpeGpu => assert TRAINING_METHODS[4] == m;
    }
    forall m ensures m in INFERENCE_METHODS {
      match m
      case Pm => assert INFERENCE_METHODS[0] == m;
      case Harvest => assert INFERENCE_METHODS[1] == m;
      case Crepe => assert INFERENCE_METHODS[2] == m;
      case Rmvpe => assert INFERENCE_METHODS[3] == m;
    }
    forall o ensures o in OPERATIONS {
      match o
      case Cancellation => assert OPERATIONS[0] == o;
      case RestartRecovery => assert OPERATIONS[1] == o;
      case TelemetrySpool => assert OPERATIONS[2] == o;
      case NoPublicEgress => assert OPERATIONS[3] == o;
    }
  }

  method CoreCases(version: Version, rate: SampleRate) returns (cases: set<CaseId>)
    ensures forall c :: c in cases <==> c.Core? && c.version == version && c.rate == rate
  {
    cases := {};
    for i := 0 to |SWITCHES|
      invariant forall c :: c in cases <==> c.Core? && c.version == version && c.rate == rate && c.f0 in SWITCHES[..i]
    {
      PrefixGrows(SWITCHES, i);
      cases := cases + {Core(version, rate, SWITCHES[i])};
    }
    ListsAreComplete();
  }

  method IndexedSamples(version: Version, rate: SampleRate, index: bool) returns (cases: set<CaseId>)
    ensures forall c :: c in cases <==> c.Sample? && c.version == version && c.rate == rate && c.index == index
  {
    cases := {};
    for i := 0 to |INFERENCE_METHODS|
      invariant forall c :: c in cases <==>
                  c.Sample? && c.version == version && c.rate == rate && c.index == index && c.inference in INFERENCE_METHODS[..i]
    {
      PrefixGrows(INFERENCE_METHODS, i);
      cases := cases + {Sample(version, rate, index, INFERENCE_METHODS[i])};
    }
    ListsAreComplete();
  }

  method SampleCases(version: Version, rate: SampleRate) returns (cases: set<CaseId>)
    ensures forall c :: c in cases <==> c.Sample? && c.version == version && c.rate == rate
  {
    cases := {};
    for i := 0 to |SWITCHES|
      invariant forall c :: c in cases <==> c.Sample? && c.version == version && c.rate == rate && c.index in SWITCHES[..i]
    {
      PrefixGrows(SWITCHES, i);
      var more := IndexedSamples(version, rate, SWITCHES[i]);
      cases := cases + more;
    }
    ListsAreComplete();
  }

  method CasesOfVersion(version: Version) returns (cases: set<CaseId>)
    ensures forall c :: c in cases <==> (c.Core? || c.Sample?) && c.version == version
  {
    cases := {};
    for i := 0 to |RATES|
      invariant forall c :: c in cases <==> (c.Core? || c.Sample?) && c.version == version && c.rate in RATES[..i]
    {
      PrefixGrows(RATES, i);
      var core := CoreCases(version, RATES[i]);
      var samples := SampleCases(version, RATES[i]);
      cases := cases + core + samples;
    }
    ListsAreComplete();
  }

  /** `_required_case_ids`: the loops produce every case of the matrix. */
  method RequiredCaseIds() returns (cases: set<CaseId>)
    ensures forall c :: c in cases
  {
    cases := {};
    for i := 0 to |VERSIONS|
      invariant forall c :: c in cases <==> (c.Core? || c.Sample?) && c.version in VERSIONS[..i]
    {
      PrefixGrows(VERSIONS, i);
      var more := CasesOfVersion(VERSIONS[i]);
      cases := cases + more;
    }
    ListsAreComplete();
    for i := 0 to |TRAINING_METHODS|
      invariant forall c :: c in cases <==> c.Core? || c.Sample? || (c.Training? && c.training in TRAINING_METHODS[..i])
    {
      PrefixGrows(TRAINING_METHODS, i);
      cases := cases + {Training(TRAINING_METHODS[i])};
    }
    ListsAreComplete();
    for i := 0 to |OPERATIONS|
      invariant forall c :: c in cases <==> c.Core? || c.Training? || c.Sample? || (c.Ops? && c.operation in OPERATIONS[..i])
    {
      PrefixGrows(OPERATIONS, i);
      cases := cases + {Ops(OPERATIONS[i])};
    }
    ListsAreComplete();
  }

  // ----- The reviewed cases -----

  const PASSED: string := "passed"

  /** What one record is checked for on its own. */
  predicate RecordPasses(r: CaseRecord, required: set<CaseId>) {
    && r.caseId.Known? && r.caseId.id in required && r.result == PASSED
    && r.report == ReportOf(r.caseId.id) && IsSha256(r.digest)
  }

  ghost predicate AllPass(records: seq<CaseRecord>, required: set<CaseId>) {
    forall i :: 0 <= i < |records| ==> RecordPasses(records[i], required)
  }

  function CaseIds(records: seq<CaseRecord>): (ids: seq<CaseText>)
    ensures |ids| == |records| && forall i :: 0 <= i < |ids| ==> ids[i] == records[i].caseId
  {
    seq(|records|, i requires 0 <= i < |records| => records[i].caseId)
  }

  /** The identifier was recorded. */
  ghost predicate Recorded(records: seq<CaseRecord>, c: CaseId) {
    exists i :: 0 <= i < |records| && records[i].caseId == Known(c)
  }

  /** The records are a permutation of the required cases, all passed. */
  ghost predicate Complete(records: seq<CaseRecord>, required: set<CaseId>) {
    && AllPass(records, required) && Distinct(CaseIds(records))
    && forall c :: c in required ==> Recorded(records, c)
  }

  /** The reports to expect, with their hashes. */
  ghost predicate ReportsOf(records: seq<CaseRecord>, reports: map<ReportName, string>) {
    && (forall i :: 0 <= i < |records| ==> records[i].report in reports && reports[records[i].report] == records[i].digest)
    && (forall n :: n in reports ==> exists i :: 0 <= i < |records| && records[i].report == n)
  }

  lemma RecordedIsRequired(records: seq<CaseRecord>, required: set<CaseId>, c: CaseId)
    requires AllPass(records, required) && Recorded(records, c)
    ensures c in required
  {
    var i :| 0 <= i < |records| && records[i].caseId == Known(c);
    assert RecordPasses(records[i], required);
  }

  /** Counting is enough: that many distinct required cases are all of them. */
  lemma CompleteIsCounted(records: seq<CaseRecord>, required: set<CaseId>)
    requires AllPass(records, required) && Distinct(CaseIds(records))
    ensures |records| == |required| <==> Complete(records, required)
  {
    var seen := set c | c in required && Recorded(records, c);
    forall c
      ensures c in seen <==> Recorded(records, c)
    {
      if Recorded(records, c) {
        RecordedIsRequired(records, required, c);
      }
    }
    SeenCount(records, required, seen);
    assert required == seen + (required - seen);
    if Complete(records, required) {
      assert seen == required;
    }
    if |records| == |required| {
      assert required - seen == {};
    }
  }

  lemma RecordedButLast(records: seq<CaseRecord>, c: CaseId)
    requires records != [] && Distinct(CaseIds(records))
    ensures Recorded(records[..|records| - 1], c) <==> Recorded(records, c) && records[|records| - 1].caseId != Known(c)
  {
    var init, n := records[..|records| - 1], |records| - 1;
    forall i | 0 <= i < n
      ensures init[i].caseId != records[n].caseId
    {
      assert CaseIds(records)[i] != CaseIds(records)[n];
    }
    if Recorded(init, c) {
      var i :| 0 <= i < n && init[i].caseId == Known(c);
      assert records[i].caseId == Known(c);
    }
    if Recorded(records, c) && records[n].caseId != Known(c) {
      var i :| 0 <= i < |records| && records[i].caseId == Known(c);
      assert init[i].caseId == Known(c);
    }
  }

  lemma {:induction false} SeenCount(records: seq<CaseRecord>, required: set<CaseId>, seen: set<CaseId>)
    requires AllPass(records, required) && Distinct(CaseIds(records))
    requires forall c :: c in seen <==> Recorded(records, c)
    ensures |seen| == |records|
  {
    if records == [] {
      assert seen == {};
    } else {
      var init, last := records[..|records| - 1], records[|records| - 1];
      assert RecordPasses(last, required);
      var fewer := seen - {last.caseId.id};
      forall c
        ensures c in fewer <==> Recorded(init, c)
      {
        RecordedButLast(records, c);
      }
      assert forall i :: 0 <= i < |init| ==> CaseIds(init)[i] == CaseIds(records)[i] && init[i] == records[i];
      SeenCount(init, required, fewer);
      assert last.caseId == Known(last.caseId.id);
      assert Recorded(records, last.caseId.id);
      assert seen == fewer + {last.caseId.id};
    }
  }

  /** `_validate_cases` accepts exactly the permutations of the required cases. */
  method ValidateCases(records: seq<CaseRecord>, required: set<CaseId>) returns (r: Result<map<ReportName, string>, QualificationError>)
    ensures r.Ok? <==> Complete(records, required)
    ensures r.Ok? ==> ReportsOf(records, r.value) && |r.value| == |required|
  {
    var reports: map<ReportName, string> := map[];
    var ids: seq<CaseText> := [];
    for i := 0 to |records|
      invariant ids == CaseIds(records[..i]) && AllPass(records[..i], required) && Distinct(ids)
      invariant ReportsOf(records[..i], reports) && |reports| == i
    {
      var one := records[i];
      assert CaseIds(records)[..i] == ids;
      if one.caseId.Unknown? || one.caseId.id !in required {
        return Err(NotRequired);
      }
      if one.caseId in ids {
        RepeatedCase(records, i);
        return Err(DuplicateCase);
      }
      if one.result != PASSED {
        return Err(NotPassed);
      }
      if one.report != ReportOf(one.caseId.id) || one.report in reports {
        NewReport(records, i, required, reports);
        return Err(WrongReportPath);
      }
      if !IsSha256(one.digest) {
        return Err(InvalidDigest);
      }
      NextRecord(records, i, required, reports);
      ids := ids + [one.caseId];
      reports := reports[one.report := one.digest];
    }
    assert records[..|records|] == records;
    CompleteIsCounted(records, required);
    if |ids| != |required| {
      return Err(Incomplete);
    }
    r := Ok(reports);
  }

  lemma RepeatedCase(records: seq<CaseRecord>, i: nat)
    requires i < |records| && records[i].caseId in CaseIds(records[..i])
    ensures !Distinct(CaseIds(records))
  {
    var j :| 0 <= j < i && CaseIds(records[..i])[j] == records[i].caseId;
    assert CaseIds(records)[j] == CaseIds(records)[i];
  }

  /** A new case has a new report name. */
  lemma NewReport(records: seq<CaseRecord>, i: nat, required: set<CaseId>, reports: map<ReportName, string>)
    requires i < |records| && AllPass(records[..i], required) && ReportsOf(records[..i], reports)
    requires records[i].caseId.Known? && records[i].caseId !in CaseIds(records[..i])
    ensures ReportOf(records[i].caseId.id) !in reports
  {
    forall j | 0 <= j < i
      ensures records[..i][j].report != ReportOf(records[i].caseId.id)
    {
      assert RecordPasses(records[..i][j], required);
      assert CaseIds(records[..i])[j] != records[i].caseId;
    }
  }

  lemma NextReports(records: seq<CaseRecord>, one: CaseRecord, reports: map<ReportName, string>)
    requires ReportsOf(records, reports) && one.report !in reports
    ensures ReportsOf(records + [one], reports[one.report := one.digest])
    ensures |reports[one.report := one.digest]| == |reports| + 1
  {
    var after, next := records + [one], reports[one.report := one.digest];
    assert next.Keys == reports.Keys + {one.report};
    forall n | n in next
      ensures exists j :: 0 <= j < |after| && after[j].report == n
    {
      if n in reports {
        var j :| 0 <= j < |records| && records[j].report == n;
        assert after[j].report == n;
      } else {
        assert after[|records|].report == n;
      }
    }
  }

  lemma NextRecord(records: seq<CaseRecord>, i: nat, required: set<CaseId>, reports: map<ReportName, string>)
    requires i < |records| && AllPass(records[..i], required) && ReportsOf(records[..i], reports)
    requires RecordPasses(records[i], required) && records[i].report !in reports
    requires Distinct(CaseIds(records[..i])) && records[i].caseId !in CaseIds(records[..i])
    ensures AllPass(records[..i + 1], required) && Distinct(CaseIds(records[..i + 1]))
    ensures CaseIds(records[..i + 1]) == CaseIds(records[..i]) + [records[i].caseId]
    ensures ReportsOf(records[..i + 1], reports[records[i].report := records[i].digest])
    ensures |reports[records[i].report := records[i].digest]| == |reports| + 1
  {
    assert records[..i + 1] == records[..i] + [records[i]];
    NextReports(records[..i], records[i], reports);
    assert CaseIds(records[..i + 1]) == CaseIds(records[..i]) + [records[i].caseId];
  }

  // ----- The evidence archive -----

  datatype EvidenceMember = EvidenceMember(name: ReportName, regular: bool, data: seq<Byte>)

  const MAX_REPORT_BYTES: nat := 16 * 1024 * 1024
  const MAX_TOTAL_BYTES: nat := 256 * 1024 * 1024

  function MemberNames(ms: seq<EvidenceMember>): seq<ReportName> { Map((m: EvidenceMember) => m.name, ms) }

  function MemberSizes(ms: seq<EvidenceMember>): seq<int> { Map((m: EvidenceMember) => |m.data|, ms) }

  /** What one member is checked for on its own. */
  predicate MemberMatches(m: EvidenceMember, hash: seq<Byte> -> string, reports: map<ReportName, string>) {
    && m.regular && 0 < |m.data| <= MAX_REPORT_BYTES
    && m.name in reports && hash(m.data) == reports[m.name]
  }

  ghost predicate AllMatch(ms: seq<EvidenceMember>, hash: seq<Byte> -> string, reports: map<ReportName, string>) {
    forall i :: 0 <= i < |ms| ==> MemberMatches(ms[i], hash, reports)
  }

  /** Members and expected reports correspond one to one, and every hash matches. */
  ghost predicate Corresponds(ms: seq<EvidenceMember>, hash: seq<Byte> -> string, reports: map<ReportName, string>) {
    && AllMatch(ms, hash, reports) && Distinct(MemberNames(ms))
    && (forall n :: n in reports ==> n in MemberNames(ms))
    && Total(MemberSizes(ms)) <= MAX_TOTAL_BYTES
  }

  /** What the loop knows of the members it has read. */
  ghost predicate Streamed(ms: seq<EvidenceMember>, hash: seq<Byte> -> string, reports: map<ReportName, string>,
                           seen: set<ReportName>, total: int) {
    && AllMatch(ms, hash, reports) && Distinct(MemberNames(ms)) && |seen| == |ms|
    && (forall n :: n in seen <==> n in MemberNames(ms))
    && total == Total(MemberSizes(ms)) && total <= MAX_TOTAL_BYTES
  }

  lemma StreamedNext(ms: seq<EvidenceMember>, i: nat, hash: seq<Byte> -> string, reports: map<ReportName, string>,
                     seen: set<ReportName>, total: int)
    requires i < |ms| && Streamed(ms[..i], hash, reports, seen, total) && MemberMatches(ms[i], hash, reports)
    requires ms[i].name !in seen && total + |ms[i].data| <= MAX_TOTAL_BYTES
    ensures Streamed(ms[..i + 1], hash, reports, seen + {ms[i].name}, total + |ms[i].data|)
  {
    assert ms[..i + 1] == ms[..i] + [ms[i]];
    assert MemberNames(ms[..i + 1]) == MemberNames(ms[..i]) + [ms[i].name];
    assert MemberSizes(ms[..i + 1])[..i] == MemberSizes(ms[..i]);
  }

  /** The member passes after the ones already seen. */
  predicate PassesHere(m: EvidenceMember, hash: seq<Byte> -> string, reports: map<ReportName, string>,
                       seen: set<ReportName>, total: int, count: nat)
  {
    && count + 1 <= |reports| && m.name !in seen && MemberMatches(m, hash, reports)
    && total + |m.data| <= MAX_TOTAL_BYTES
  }

  lemma SeenAreListed(ms: seq<EvidenceMember>, hash: seq<Byte> -> string, reports: map<ReportName, string>, seen: set<ReportName>)
    requires AllMatch(ms, hash, reports) && forall n :: n in seen <==> n in MemberNames(ms)
    ensures seen <= reports.Keys
  {
    forall n | n in seen
      ensures n in reports.Keys
    {
      var j :| 0 <= j < |ms| && MemberNames(ms)[j] == n;
      assert MemberMatches(ms[j], hash, reports);
    }
  }

  lemma SubsetCount(a: set<ReportName>, reports: map<ReportName, string>)
    requires a <= reports.Keys
    ensures |a| <= |reports| && (|a| == |reports| ==> a == reports.Keys)
  {
    assert reports.Keys == a + (reports.Keys - a);
    assert |reports| == |reports.Keys|;
  }

  lemma NextIsNew(ms: seq<EvidenceMember>, i: nat)
    requires i < |ms| && Distinct(MemberNames(ms))
    ensures ms[i].name !in MemberNames(ms[..i])
  {
    forall j | 0 <= j < i
      ensures MemberNames(ms[..i])[j] != ms[i].name
    {
      assert MemberNames(ms)[j] != MemberNames(ms)[i];
    }
  }

  lemma NextFits(ms: seq<EvidenceMember>, i: nat)
    requires i < |ms| && Total(MemberSizes(ms)) <= MAX_TOTAL_BYTES
    ensures Total(MemberSizes(ms[..i])) + |ms[i].data| <= MAX_TOTAL_BYTES
  {
    var sizes := MemberSizes(ms);
    TotalGrows(sizes, i + 1);
    assert sizes[..i + 1][..i] == MemberSizes(ms[..i]);
  }

  /** In a corresponding archive every member passes where it stands, including the count. */
  lemma AllPassHere(ms: seq<EvidenceMember>, i: nat, hash: seq<Byte> -> string, reports: map<ReportName, string>,
                    seen: set<ReportName>, total: int)
    requires i < |ms| && Corresponds(ms, hash, reports) && Streamed(ms[..i], hash, reports, seen, total)
    ensures PassesHere(ms[i], hash, reports, seen, total, i)
  {
    assert MemberMatches(ms[i], hash, reports);
    NextIsNew(ms, i);
    NextFits(ms, i);
    SeenAreListed(ms[..i], hash, reports, seen);
    SubsetCount(seen + {ms[i].name}, reports);
  }

  /** The checks of one member, in the order they are made. */
  method CheckMember(m: EvidenceMember, hash: seq<Byte> -> string, reports: map<ReportName, string>,
                     seen: set<ReportName>, total: int, count: nat)
    returns (error: Option<QualificationError>)
    ensures error.None? <==> PassesHere(m, hash, reports, seen, total, count)
  {
    if count + 1 > |reports| {
      return Some(TooManyMembers);
    }
    if m.name in seen {
      return Some(DuplicateMember);
    }
    if !m.regular {
      return Some(NotRegular);
    }
    if |m.data| == 0 || |m.data| > MAX_REPORT_BYTES {
      return Some(UnsafeSize);
    }
    if total + |m.data| > MAX_TOTAL_BYTES {
      return Some(TotalLimit);
    }
    if m.name !in reports {
      return Some(Unlisted);
    }
    if hash(m.data) != reports[m.name] {
      return Some(WrongDigest);
    }
    error := None;
  }

  lemma CoveredBySeen(names: seq<ReportName>, reports: map<ReportName, string>, seen: set<ReportName>)
    requires seen <= reports.Keys && forall n :: n in seen <==> n in names
    ensures (forall n :: n in reports ==> n in names) <==> |seen| == |reports| && seen == reports.Keys
  {
    assert |reports| == |reports.Keys|;
    if forall n :: n in reports ==> n in names {
      assert forall n :: n in reports.Keys ==> n in seen;
      assert seen == reports.Keys;
    }
  }

  lemma StreamedAll(ms: seq<EvidenceMember>, hash: seq<Byte> -> string, reports: map<ReportName, string>,
                    seen: set<ReportName>, total: int)
    requires Streamed(ms, hash, reports, seen, total)
    ensures Corresponds(ms, hash, reports) <==> |ms| == |reports| && seen == reports.Keys
  {
    SeenAreListed(ms, hash, reports, seen);
    CoveredBySeen(MemberNames(ms), reports, seen);
  }

  /** The streaming check, with nothing but a counter, a total and the names seen, accepts exactly the archives
      in one-to-one correspondence with the expected reports. */
  method VerifyMembers(ms: seq<EvidenceMember>, hash: seq<Byte> -> string, reports: map<ReportName, string>)
    returns (error: Option<QualificationError>)
    ensures error.None? <==> Corresponds(ms, hash, reports)
  {
    var seen: set<ReportName> := {};
    var total := 0;
    var count := 0;
    for i := 0 to |ms|
      invariant count == i && Streamed(ms[..i], hash, reports, seen, total)
    {
      error := CheckMember(ms[i], hash, reports, seen, total, count);
      if error.Some? {
        assert !Corresponds(ms, hash, reports) by {
          if Corresponds(ms, hash, reports) {
            AllPassHere(ms, i, hash, reports, seen, total);
          }
        }
        return;
      }
      StreamedNext(ms, i, hash, reports, seen, total);
      count := count + 1;
      seen := seen + {ms[i].name};
      total := total + |ms[i].data|;
    }
    assert ms[..|ms|] == ms;
    StreamedAll(ms, hash, reports, seen, total);
    if count != |reports| || seen != reports.Keys {
      return Some(Incomplete);
    }
    error := None;
  }

  /** After both checks each required case has exactly one report in the archive, and it is the reviewed one. */
  lemma EveryCaseHasOneReport(records: seq<CaseRecord>, required: set<CaseId>, reports: map<ReportName, string>,
                              ms: seq<EvidenceMember>, hash: seq<Byte> -> string, c: CaseId)
    requires Complete(records, required) && ReportsOf(records, reports) && Corresponds(ms, hash, reports) && c in required
    ensures exists i, j :: && 0 <= i < |ms| && 0 <= j < |records| && records[j].caseId == Known(c)
                           && ms[i].name == ReportOf(c) && hash(ms[i].data) == records[j].digest
    ensures forall i, k :: 0 <= i < |ms| && 0 <= k < |ms| && ms[i].name == ReportOf(c) && ms[k].name == ReportOf(c) ==> i == k
  {
    assert Recorded(records, c);
    var j :| 0 <= j < |records| && records[j].caseId == Known(c);
    assert RecordPasses(records[j], required);
    assert ReportOf(c) in MemberNames(ms);
    var i :| 0 <= i < |ms| && MemberNames(ms)[i] == ReportOf(c);
    assert MemberMatches(ms[i], hash, reports);
    forall i, k | 0 <= i < |ms| && 0 <= k < |ms| && ms[i].name == ReportOf(c) && ms[k].name == ReportOf(c)
      ensures i == k
    {
      assert MemberNames(ms)[i] == MemberNames(ms)[k];
    }
  }
}
