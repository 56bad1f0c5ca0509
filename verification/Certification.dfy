/** From live case results to a certification fragment, and the gate a release fragment must pass. */
module Certification {
  import opened Common

  datatype Surface =
    | GeoservicesFeatureserver
    | GeoservicesRoot
    | OgcApiFeatures
    | OgcApiProcesses
    | GrpcFeatureService
    | SdkFactory

  datatype Cell = Cell(surface: Surface, operation: string)

  /** The cases the harness knows, and any other name. */
  datatype Case =
    | FeatureQueryEnvelope
    | FeatureQueryJsonbProjection
    | FeatureQueryFieldMetadata
    | FeatureQueryInvalid
    | CatalogListsService
    | OgcFeaturesItems
    | OgcFeaturesItemsJsonb
    | TemporalQuery
    | ReplicaSyncSurface
    | GrpcQueryFeatures
    | GrpcQueryFeaturesStream
    | ApplyEditsRoundtrip
    | AnalysisProcessList
    | Unlisted(name: string)

  /** The surface and the operation `CASE_CERTIFICATION` gives each case. */
  function CellOf(c: Case): Cell
    requires !c.Unlisted?
  {
    match c
    case FeatureQueryEnvelope => Cell(GeoservicesFeatureserver, "query")
    case FeatureQueryJsonbProjection => Cell(GeoservicesFeatureserver, "query-json-fields")
    case FeatureQueryFieldMetadata => Cell(GeoservicesFeatureserver, "layer-metadata")
    case FeatureQueryInvalid => Cell(GeoservicesFeatureserver, "query-invalid")
    case CatalogListsService => Cell(GeoservicesRoot, "list-services")
    case OgcFeaturesItems => Cell(OgcApiFeatures, "items")
    case OgcFeaturesItemsJsonb => Cell(OgcApiFeatures, "items-json-fields")
    case TemporalQuery => Cell(GeoservicesFeatureserver, "temporal-query")
    case ReplicaSyncSurface => Cell(GeoservicesFeatureserver, "sync-capability")
    case GrpcQueryFeatures => Cell(GrpcFeatureService, "query-features")
    case GrpcQueryFeaturesStream => Cell(GrpcFeatureService, "query-features-stream")
    case ApplyEditsRoundtrip => Cell(GeoservicesFeatureserver, "apply-edits")
    case AnalysisProcessList => Cell(OgcApiProcesses, "list-processes")
  }

  const LISTED := [
    FeatureQueryEnvelope, FeatureQueryJsonbProjection, FeatureQueryFieldMetadata, FeatureQueryInvalid,
    CatalogListsService, OgcFeaturesItems, OgcFeaturesItemsJsonb, TemporalQuery, ReplicaSyncSurface,
    GrpcQueryFeatures, GrpcQueryFeaturesStream, ApplyEditsRoundtrip, AnalysisProcessList]

  lemma ListedIsComplete(c: Case)
    ensures c in LISTED <==> !c.Unlisted?
  {
  }

  const COVERED_FACTORIES := {"feature_server", "grpc", "ogc_features", "ogc_processes"}

  function Dashed(name: string): string {
    if name == "" then "" else [if name[0] == '_' then '-' else name[0]] + Dashed(name[1..])
  }

  /** `uncovered_certification_operations`. */
  function Uncovered(factories: set<string>): set<Cell> {
    set name | name in factories && name !in COVERED_FACTORIES :: Cell(SdkFactory, Dashed(name))
  }

  function CaseCells(): set<Cell> {
    set c | c in LISTED :: CellOf(c)
  }

  /** `_required_certification_operations`: what must be certified, whatever the harness can do. */
  function Required(factories: set<string>): set<Cell> {
    CaseCells()
    + {Cell(GrpcFeatureService, "query-features"), Cell(GrpcFeatureService, "query-features-stream"),
       Cell(GeoservicesFeatureserver, "apply-edits")}
    + Uncovered(factories)
  }

  // ---- the fragment ---------------------------------------------------------------------------------

  /** A case result; `proved` is whether its details hold a fresh disabled-license proof. */
  datatype CaseResult = CaseResult(case_: Case, passed: bool, knownGap: bool, proved: bool)

  datatype Context = Context(maturity: string, tier: string)

  datatype Outcome = Pass | Skip | Fail

  datatype Record = Record(mode: string, result: CaseResult)

  datatype Receipt = Receipt(context: Context, revision: string, cutAt: string, payload: seq<Record>)

  datatype Observation = Observation(cell: Cell, context: Context, outcome: Outcome, receipt: Option<Receipt>)

  datatype Fragment = Fragment(cutAt: string, revision: string, complete: bool, required: seq<Cell>,
                               observations: seq<Observation>)

  /**
   A run: the governed context of each case, the candidate cut, the requirements revision and the
   entitlement mode.
   */
  datatype Run = Run(governed: Case -> Option<Context>, cutAt: string, revision: string, mode: string,
                     factories: set<string>)

  function OutcomeOf(r: CaseResult): Outcome {
    if r.passed then Pass else if r.knownGap then Skip else Fail
  }

  function Payload(run: Run, results: seq<CaseResult>): seq<Record> {
    seq(|results|, i requires 0 <= i < |results| => Record(run.mode, results[i]))
  }

  predicate Buildable(run: Run, r: CaseResult) {
    !r.case_.Unlisted? && run.governed(r.case_).Some?
  }

  function ObservationOf(run: Run, payload: seq<Record>, r: CaseResult): Observation
    requires Buildable(run, r)
  {
    var context := run.governed(r.case_).value;
    Observation(CellOf(r.case_), context, OutcomeOf(r),
      if OutcomeOf(r) == Skip then None else Some(Receipt(context, run.revision, run.cutAt, payload)))
  }

  method PassedOperations(results: seq<CaseResult>) returns (result: Result<set<Cell>>)
    ensures result.Ok? <==> forall i | 0 <= i < |results| :: results[i].passed ==> !results[i].case_.Unlisted?
    ensures result.Ok? ==> forall cell :: cell in result.value <==>
      exists i | 0 <= i < |results| :: results[i].passed && CellOf(results[i].case_) == cell
  {
    hide CellOf;
    var passed: set<Cell> := {};
    for n := 0 to |results|
      invariant forall i | 0 <= i < n :: results[i].passed ==> !results[i].case_.Unlisted?
      invariant forall cell ::
                  cell in passed <==> exists i | 0 <= i < n :: results[i].passed && CellOf(results[i].case_) == cell
    {
      if results[n].passed {
        if results[n].case_.Unlisted? {
          return Raised(Error("KeyError"));
        }
        passed := passed + {CellOf(results[n].case_)};
      }
    }
    result := Ok(passed);
  }

  /** `build_certification_fragment`, from the point where the target and its requirements have been read. */
  method BuildFragment(run: Run, results: seq<CaseResult>) returns (result: Result<Fragment>)
    ensures result.Ok? <==> forall i | 0 <= i < |results| :: Buildable(run, results[i])
    ensures result.Ok? ==> BuiltFrom(run, results, result.value)
  {
    hide CellOf, Required;
    var payload := Payload(run, results);
    var observations: seq<Observation> := [];
    for n := 0 to |results|
      invariant |observations| == n
      invariant forall i | 0 <= i < n ::
                  Buildable(run, results[i]) && observations[i] == ObservationOf(run, payload, results[i])
    {
      if results[n].case_.Unlisted? || run.governed(results[n].case_).None? {
        assert !Buildable(run, results[n]);
        return Raised(Error("KeyError"));
      }
      observations := observations + [ObservationOf(run, payload, results[n])];
    }
    var passed :- PassedOperations(results);
    var required := ListSet(Required(run.factories));
    result := Ok(Fragment(run.cutAt, run.revision, passed == Required(run.factories), required, observations));
  }

  /** What the fragment of a run says. */
  ghost predicate BuiltFrom(run: Run, results: seq<CaseResult>, f: Fragment) {
    && (forall i | 0 <= i < |results| :: Buildable(run, results[i]))
    && f.cutAt == run.cutAt && f.revision == run.revision
    && (forall cell :: cell in f.required <==> cell in Required(run.factories))
    && |f.required| == |Required(run.factories)|
    && |f.observations| == |results|
    && (forall i | 0 <= i < |results| :: f.observations[i] == ObservationOf(run, Payload(run, results), results[i]))
    && (f.complete <==> forall cell :: cell in Required(run.factories) <==>
      exists i | 0 <= i < |results| :: results[i].passed && CellOf(results[i].case_) == cell)
  }

  // ---- the release gate -------------------------------------------------------------------------------

  const MATURITIES := {"supported", "preview", "experimental", "roadmap", "deprecated", "internal"}

  const TIERS := {"pr", "nightly", "release"}

  predicate Governable(context: Context) {
    context.maturity in MATURITIES && context.tier in TIERS
  }

  predicate BoundToContext(f: Fragment, row: Observation) {
    row.outcome != Skip ==>
      row.receipt.Some? && Governable(row.context) && row.receipt.value.context == row.context
          && row.receipt.value.revision == f.revision
  }

  function Edits(payload: seq<Record>): seq<Record> {
    if payload == [] then []
    else
      var last := payload[|payload| - 1];
      Edits(payload[..|payload| - 1]) + (if last.result.case_ == ApplyEditsRoundtrip then [last] else [])
  }

  /** Disabled-license evidence: exactly one edit record, passed and proved. */
  predicate Entitled(payload: seq<Record>) {
    && payload != []
    && (forall i | 0 <= i < |payload| :: payload[i].mode == "disabled")
    && |Edits(payload)| == 1
    && Edits(payload)[0].result.passed
    && Edits(payload)[0].result.proved
  }

  predicate BoundToCut(f: Fragment, row: Observation) {
    row.receipt.Some? && row.receipt.value.cutAt == f.cutAt && Entitled(row.receipt.value.payload)
  }

  predicate Distinct<T(==)>(xs: seq<T>) {
    forall i, j | 0 <= i < j < |xs| :: xs[i] != xs[j]
  }

  function Cells(rows: seq<Observation>): seq<Cell> {
    seq(|rows|, i requires 0 <= i < |rows| => rows[i].cell)
  }

  ghost predicate Acceptable(f: Fragment, cutValid: string -> bool) {
    && cutValid(f.cutAt) && f.revision != ""
    && (forall i | 0 <= i < |f.observations| :: BoundToContext(f, f.observations[i]))
    && f.complete
    && Distinct(f.required)
    && Distinct(Cells(f.observations))
    && (forall cell | cell in f.required :: cell in Cells(f.observations))
    && (forall i | 0 <= i < |f.observations| :: f.observations[i].outcome == Pass)
    && (forall i | 0 <= i < |f.observations| :: BoundToCut(f, f.observations[i]))
  }

  // ---- what the fragment and the gate say, row by row -----------------------------------------------

  /** Exactly one record is of the edit case; it passed, with a fresh proof in its details. */
  ghost predicate OneProvedEdit(payload: seq<Record>) {
    exists p ::
      && 0 <= p < |payload| && payload[p].result.case_ == ApplyEditsRoundtrip
      && payload[p].result.passed && payload[p].result.proved
      && forall q | 0 <= q < |payload| && payload[q].result.case_ == ApplyEditsRoundtrip :: q == p
  }

  /** A passed row, governed, with a receipt for the same context, revision and cut, on a disabled license. */
  ghost predicate ReleasedRow(f: Fragment, row: Observation) {
    && row.outcome == Pass && row.receipt.Some?
    && row.context.maturity in {"supported", "preview", "experimental", "roadmap", "deprecated", "internal"}
    && row.context.tier in {"pr", "nightly", "release"}
    && row.receipt.value.context.maturity == row.context.maturity
    && row.receipt.value.context.tier == row.context.tier
    && row.receipt.value.revision == f.revision && row.receipt.value.cutAt == f.cutAt
    && |row.receipt.value.payload| > 0
    && (forall i | 0 <= i < |row.receipt.value.payload| :: row.receipt.value.payload[i].mode == "disabled")
    && OneProvedEdit(row.receipt.value.payload)
  }

  lemma {:induction false} NoEdits(payload: seq<Record>)
    ensures Edits(payload) == [] <==>
            forall q | 0 <= q < |payload| :: payload[q].result.case_ != ApplyEditsRoundtrip
  {
    if payload != [] {
      var front := payload[..|payload| - 1];
      NoEdits(front);
      assert forall q | 0 <= q < |front| :: payload[q] == front[q];
    }
  }

  lemma {:induction false} SoleEdit(payload: seq<Record>) returns (p: nat)
    requires |Edits(payload)| == 1
    ensures p < |payload| && payload[p].result.case_ == ApplyEditsRoundtrip && Edits(payload) == [payload[p]]
    ensures forall q | 0 <= q < |payload| && payload[q].result.case_ == ApplyEditsRoundtrip :: q == p
  {
    var front := payload[..|payload| - 1];
    assert forall q | 0 <= q < |front| :: payload[q] == front[q];
    if payload[|payload| - 1].result.case_ == ApplyEditsRoundtrip {
      p := |payload| - 1;
      NoEdits(front);
    } else {
      p := SoleEdit(front);
    }
  }

  lemma EntitledIff(payload: seq<Record>)
    ensures Entitled(payload) <==>
            && |payload| > 0 && OneProvedEdit(payload)
            && (forall i | 0 <= i < |payload| :: payload[i].mode == "disabled")
  {
    hide Edits;
    if |Edits(payload)| == 1 {
      var p := SoleEdit(payload);
    }
    if OneProvedEdit(payload) {
      var p :| 0 <= p < |payload| && payload[p].result.case_ == ApplyEditsRoundtrip
        && payload[p].result.passed && payload[p].result.proved
        && forall q | 0 <= q < |payload| && payload[q].result.case_ == ApplyEditsRoundtrip :: q == p;
      OnlyEdit(payload, p);
    }
  }

  lemma {:induction false} OnlyEdit(payload: seq<Record>, p: nat)
    requires p < |payload| && payload[p].result.case_ == ApplyEditsRoundtrip
    requires forall q | 0 <= q < |payload| && payload[q].result.case_ == ApplyEditsRoundtrip :: q == p
    ensures Edits(payload) == [payload[p]]
  {
    var front, last := payload[..|payload| - 1], payload[|payload| - 1];
    assert forall q | 0 <= q < |front| :: front[q] == payload[q];
    if p == |payload| - 1 {
      NoEdits(front);
    } else {
      OnlyEdit(front, p);
    }
  }

  lemma RowIff(f: Fragment, row: Observation)
    ensures row.outcome == Pass && BoundToContext(f, row) && BoundToCut(f, row) <==> ReleasedRow(f, row)
  {
    hide Entitled, OneProvedEdit;
    if row.receipt.Some? {
      EntitledIff(row.receipt.value.payload);
    }
  }

  /** The gate passes complete scopes whose distinct cells cover what is required and whose rows are all released. */
  lemma AcceptableIff(f: Fragment, cutValid: string -> bool)
    ensures Acceptable(f, cutValid) <==>
            && cutValid(f.cutAt) && |f.revision| > 0 && f.complete
            && (forall i, j | 0 <= i < j < |f.required| :: f.required[i] != f.required[j])
            && (forall i, j | 0 <= i < j < |f.observations| :: f.observations[i].cell != f.observations[j].cell)
            && (forall k | 0 <= k < |f.required| ::
                  exists i :: 0 <= i < |f.observations| && f.observations[i].cell == f.required[k])
            && forall i | 0 <= i < |f.observations| :: ReleasedRow(f, f.observations[i])
  {
    hide BoundToContext, BoundToCut, ReleasedRow;
    forall i | 0 <= i < |f.observations|
      ensures var row := f.observations[i];
        row.outcome == Pass && BoundToContext(f, row) && BoundToCut(f, row) <==> ReleasedRow(f, row)
    {
      RowIff(f, f.observations[i]);
    }
    var cells := Cells(f.observations);
    assert forall i | 0 <= i < |cells| :: cells[i] == f.observations[i].cell;
    if Acceptable(f, cutValid) {
      forall k | 0 <= k < |f.required|
        ensures exists i :: 0 <= i < |f.observations| && f.observations[i].cell == f.required[k]
      {
        assert f.required[k] in cells;
      }
    }
  }

  /** Each observation of a built fragment says how its case went; all but a known gap come with the whole run. */
  lemma BuiltFragmentSays(run: Run, results: seq<CaseResult>, f: Fragment, i: nat)
    requires BuiltFrom(run, results, f) && i < |results|
    ensures |f.observations| == |results|
    ensures var row, r := f.observations[i], results[i];
      && (row.outcome == Pass <==> r.passed) && (row.outcome == Skip <==> !r.passed && r.knownGap)
      && Some(row.context) == run.governed(r.case_)
      && (row.receipt.None? <==> row.outcome == Skip)
      && (row.receipt.Some? ==>
            && row.receipt.value.context == row.context
            && row.receipt.value.revision == run.revision && row.receipt.value.cutAt == run.cutAt
            && |row.receipt.value.payload| == |results|
            && forall j | 0 <= j < |results| ::
                 row.receipt.value.payload[j].mode == run.mode && row.receipt.value.payload[j].result == results[j])
  {
    hide CellOf, Required;
  }

  lemma {:induction false} DashedIs(name: string)
    ensures |Dashed(name)| == |name|
    ensures forall i | 0 <= i < |name| :: Dashed(name)[i] == if name[i] == '_' then '-' else name[i]
  {
    if name != "" {
      DashedIs(name[1..]);
    }
  }

  /** Factories whose names have no dash are required one by one: no two share an operation. */
  lemma UncoveredStayApart(a: string, b: string)
    requires forall i | 0 <= i < |a| :: a[i] != '-'
    requires forall i | 0 <= i < |b| :: b[i] != '-'
    ensures Dashed(a) == Dashed(b) ==> a == b
  {
    DashedIs(a);
    DashedIs(b);
    if Dashed(a) == Dashed(b) {
      forall i | 0 <= i < |a| ensures a[i] == b[i] {
        assert Dashed(a)[i] == Dashed(b)[i];
      }
    }
  }

  lemma {:induction false} SetSizeTellsDistinct<T>(xs: seq<T>)
    ensures |set x | x in xs| <= |xs|
    ensures |set x | x in xs| == |xs| <==> Distinct(xs)
  {
    if xs != [] {
      var last, front := xs[|xs| - 1], xs[..|xs| - 1];
      SetSizeTellsDistinct(front);
      assert (set x | x in xs) == (set x | x in front) + {last};
      if Distinct(xs) {
        assert last !in front;
      }
      if Distinct(front) && last !in front {
        assert Distinct(xs);
      }
    }
  }

  method CheckBindings(f: Fragment) returns (verdict: Verdict)
    ensures verdict.Accepted? <==> forall i | 0 <= i < |f.observations| :: BoundToContext(f, f.observations[i])
  {
    for n := 0 to |f.observations|
      invariant forall i | 0 <= i < n :: BoundToContext(f, f.observations[i])
    {
      if !BoundToContext(f, f.observations[n]) {
        return Refused("receipt is not bound to governed certification context");
      }
    }
    verdict := Accepted;
  }

  method CheckCells(f: Fragment) returns (verdict: Verdict)
    ensures verdict.Accepted? <==>
      && Distinct(f.required)
      && Distinct(Cells(f.observations))
      && (forall cell | cell in f.required :: cell in Cells(f.observations))
  {
    var observed := Cells(f.observations);
    SetSizeTellsDistinct(f.required);
    SetSizeTellsDistinct(observed);
    var required := set cell | cell in f.required;
    if |required| != |f.required| {
      return Refused("required operation entries are duplicated");
    }
    if |set cell | cell in observed| != |observed| {
      return Refused("duplicate operation cells");
    }
    var missing := required - set cell | cell in observed;
    if missing != {} {
      ghost var cell :| cell in missing;
      assert cell in f.required && cell !in observed;
      return Refused("missing operation cells");
    }
    assert forall cell | cell in f.required :: cell in required && cell !in missing;
    verdict := Accepted;
  }

  method CheckReceipts(f: Fragment) returns (verdict: Verdict)
    ensures verdict.Accepted? <==> forall i | 0 <= i < |f.observations| :: BoundToCut(f, f.observations[i])
  {
    for n := 0 to |f.observations|
      invariant forall i | 0 <= i < n :: BoundToCut(f, f.observations[i])
    {
      if !BoundToCut(f, f.observations[n]) {
        return Refused("receipt is not bound to the candidate cut or lacks entitlement evidence");
      }
    }
    verdict := Accepted;
  }

  method CheckPasses(f: Fragment) returns (verdict: Verdict)
    ensures verdict.Accepted? <==> forall i | 0 <= i < |f.observations| :: f.observations[i].outcome == Pass
  {
    for n := 0 to |f.observations|
      invariant forall i | 0 <= i < n :: f.observations[i].outcome == Pass
    {
      if f.observations[n].outcome != Pass {
        return Refused("non-pass cells");
      }
    }
    verdict := Accepted;
  }

  /** `validate_release_certification_fragment`; `cutValid` is the calendar check. */
  method ValidateRelease(f: Fragment, cutValid: string -> bool) returns (verdict: Verdict)
    ensures verdict.Accepted? <==> Acceptable(f, cutValid)
  {
    hide BoundToContext, BoundToCut, Distinct, Cells;
    if !cutValid(f.cutAt) {
      return Refused("candidate_cut_at");
    }
    if f.revision == "" {
      return Refused("missing requirements_revision");
    }
    verdict := CheckBindings(f);
    if verdict.Refused? {
      return;
    }
    if !f.complete {
      return Refused("operation scope is incomplete");
    }
    verdict := CheckCells(f);
    if verdict.Refused? {
      return;
    }
    verdict := CheckPasses(f);
    if verdict.Refused? {
      return;
    }
    verdict := CheckReceipts(f);
  }

  // ---- what acceptance means ---------------------------------------------------------------------------

  predicate Listed(r: CaseResult) {
    !r.case_.Unlisted?
  }

  function ResultCells(results: seq<CaseResult>): seq<Cell>
    requires forall i | 0 <= i < |results| :: Listed(results[i])
  {
    seq(|results|, i requires 0 <= i < |results| =>
      assert Listed(results[i]);
      CellOf(results[i].case_))
  }

  /**
   The run itself, with no mention of the fragment: the required operations, each once, all passed, on a
   disabled license.
   */
  ghost predicate Certified(run: Run, results: seq<CaseResult>, cutValid: string -> bool) {
    && cutValid(run.cutAt) && run.revision != "" && run.mode == "disabled"
    && (forall i | 0 <= i < |results| :: Listed(results[i]))
    && (forall i | 0 <= i < |results| ::
          Buildable(run, results[i]) && results[i].passed && Governable(run.governed(results[i].case_).value))
    && (forall i | 0 <= i < |results| :: results[i].case_ == ApplyEditsRoundtrip ==> results[i].proved)
    && multiset(ResultCells(results)) == multiset(Required(run.factories))
  }

  lemma {:induction false} DistinctCount<T>(xs: seq<T>, x: T)
    requires Distinct(xs)
    ensures multiset(xs)[x] == if x in xs then 1 else 0
  {
    if xs != [] {
      var front := xs[..|xs| - 1];
      assert xs == front + [xs[|xs| - 1]];
      DistinctCount(front, x);
    }
  }

  lemma SetCountMeansDistinct<T>(xs: seq<T>, s: set<T>)
    ensures multiset(xs) == multiset(s) <==> Distinct(xs) && forall x :: x in xs <==> x in s
  {
    if multiset(xs) == multiset(s) {
      forall x ensures x in xs <==> x in s {
        assert x in multiset(xs) <==> x in multiset(s);
      }
      forall i, j | 0 <= i < j < |xs| ensures xs[i] != xs[j] {
        if xs[i] == xs[j] {
          TwiceCounts(xs, i, j);
        }
      }
    }
    if Distinct(xs) && forall x :: x in xs <==> x in s {
      forall x ensures multiset(xs)[x] == multiset(s)[x] {
        DistinctCount(xs, x);
      }
    }
  }

  lemma TwiceCounts<T>(xs: seq<T>, i: nat, j: nat)
    requires i < j < |xs| && xs[i] == xs[j]
    ensures multiset(xs)[xs[i]] >= 2
  {
    assert xs == xs[..i] + [xs[i]] + xs[i + 1..j] + [xs[j]] + xs[j + 1..];
  }

  lemma ListingIsDistinct(run: Run, results: seq<CaseResult>, f: Fragment)
    requires BuiltFrom(run, results, f)
    ensures Distinct(f.required) && forall cell :: cell in f.required <==> cell in Required(run.factories)
  {
    hide Required, ObservationOf, Payload;
    SetSizeTellsDistinct(f.required);
    assert (set cell | cell in f.required) == Required(run.factories);
  }

  lemma CellsAreResultCells(run: Run, results: seq<CaseResult>, f: Fragment)
    requires BuiltFrom(run, results, f)
    ensures forall i | 0 <= i < |results| :: Listed(results[i])
    ensures Cells(f.observations) == ResultCells(results)
  {
    hide Required, CellOf;
  }

  lemma {:induction false} OneEdit(run: Run, results: seq<CaseResult>, k: nat, n: nat)
    requires k < |results| && n <= |results|
    requires forall i | 0 <= i < |results| :: results[i].case_ == ApplyEditsRoundtrip <==> i == k
    ensures Edits(Payload(run, results)[..n]) == if k < n then [Record(run.mode, results[k])] else []
  {
    if n > 0 {
      OneEdit(run, results, k, n - 1);
      var payload := Payload(run, results);
      assert payload[..n][..n - 1] == payload[..n - 1];
    }
  }

  lemma EditsHaveOneCase(c: Case)
    requires !c.Unlisted?
    ensures CellOf(c) == Cell(GeoservicesFeatureserver, "apply-edits") <==> c == ApplyEditsRoundtrip
  {
    assert "apply-edits"[0] == 'a' && "query"[0] == 'q' && "query-json-fields"[0] == 'q' && "layer-metadata"[0] == 'l';
    assert "query-invalid"[0] == 'q' && "temporal-query"[0] == 't' && "sync-capability"[0] == 's';
  }

  /** Where the required operations were each observed once, the edits were run once and stand in every payload. */
  lemma EditsRunOnce(run: Run, results: seq<CaseResult>) returns (k: nat)
    requires forall i | 0 <= i < |results| :: Listed(results[i])
    requires Distinct(ResultCells(results))
    requires forall cell | cell in Required(run.factories) :: cell in ResultCells(results)
    ensures k < |results| && results[k].case_ == ApplyEditsRoundtrip
    ensures forall i | 0 <= i < |results| :: results[i].case_ == ApplyEditsRoundtrip <==> i == k
    ensures Edits(Payload(run, results)) == [Record(run.mode, results[k])]
  {
    hide CellOf, Edits;
    var cells, edits := ResultCells(results), Cell(GeoservicesFeatureserver, "apply-edits");
    assert edits in cells;
    k :| 0 <= k < |cells| && cells[k] == edits;
    forall i | 0 <= i < |results| ensures results[i].case_ == ApplyEditsRoundtrip <==> i == k {
      assert Listed(results[i]) && Listed(results[k]);
      EditsHaveOneCase(results[i].case_);
      EditsHaveOneCase(results[k].case_);
      assert cells[i] == CellOf(results[i].case_);
    }
    OneEdit(run, results, k, |results|);
    assert Payload(run, results)[..|results|] == Payload(run, results);
  }

  lemma AcceptedIsCertified(run: Run, results: seq<CaseResult>, f: Fragment, cutValid: string -> bool)
    requires BuiltFrom(run, results, f) && Acceptable(f, cutValid)
    ensures Certified(run, results, cutValid)
  {
    hide Required, CellOf, Distinct, Cells, Edits, Governable;
    ListingIsDistinct(run, results, f);
    CellsAreResultCells(run, results, f);
    forall i | 0 <= i < |results|
      ensures Buildable(run, results[i]) && results[i].passed && Governable(run.governed(results[i].case_).value)
    {
      assert f.observations[i] == ObservationOf(run, Payload(run, results), results[i]);
      assert f.observations[i].outcome == Pass && BoundToContext(f, f.observations[i]);
    }
    var k := EditsRunOnce(run, results);
    assert BoundToCut(f, f.observations[k])
        && f.observations[k] == ObservationOf(run, Payload(run, results), results[k]);
    assert Payload(run, results)[k].mode == run.mode;
    ObservedIsRequired(run, results, f);
    SetCountMeansDistinct(ResultCells(results), Required(run.factories));
  }

  /** A complete scope observed nothing but required operations. */
  lemma ObservedIsRequired(run: Run, results: seq<CaseResult>, f: Fragment)
    requires BuiltFrom(run, results, f) && f.complete
    requires forall i | 0 <= i < |results| :: Listed(results[i]) && results[i].passed
    ensures forall cell :: cell in ResultCells(results) <==> cell in Required(run.factories)
  {
    hide Required, CellOf, ObservationOf;
    var cells := ResultCells(results);
    forall cell ensures cell in cells <==> cell in Required(run.factories) {
      if cell in cells {
        var i :| 0 <= i < |cells| && cells[i] == cell;
        assert Listed(results[i]) && results[i].passed && CellOf(results[i].case_) == cell;
      }
      if cell in Required(run.factories) {
        var i :| 0 <= i < |results| && results[i].passed && CellOf(results[i].case_) == cell;
        assert cells[i] == cell;
      }
    }
  }

  lemma CertifiedIsAccepted(run: Run, results: seq<CaseResult>, f: Fragment, cutValid: string -> bool)
    requires BuiltFrom(run, results, f) && Certified(run, results, cutValid)
    ensures Acceptable(f, cutValid)
  {
    hide Required, CellOf, Distinct, Cells, Edits, Governable;
    ListingIsDistinct(run, results, f);
    CellsAreResultCells(run, results, f);
    var cells := ResultCells(results);
    SetCountMeansDistinct(cells, Required(run.factories));
    var k := EditsRunOnce(run, results);
    forall i | 0 <= i < |results|
      ensures f.observations[i].outcome == Pass && BoundToContext(f, f.observations[i])
                && BoundToCut(f, f.observations[i])
    {
      assert Buildable(run, results[i]) && results[i].passed;
      assert f.observations[i] == ObservationOf(run, Payload(run, results), results[i]);
    }
    forall cell
      ensures cell in Required(run.factories)
         <==> exists i | 0 <= i < |results| :: results[i].passed && CellOf(results[i].case_) == cell
    {
      if cell in cells {
        var i :| 0 <= i < |cells| && cells[i] == cell;
        assert results[i].passed && CellOf(results[i].case_) == cell;
      }
      if i :| 0 <= i < |results| && results[i].passed && CellOf(results[i].case_) == cell {
        assert cells[i] == cell;
      }
    }
  }

  /**
   A fragment built from case results passes the release gate exactly when the results are, up to order,
   the required operations, all passed, in governed contexts, on a proved disabled license.
   */
  lemma ReleaseIff(run: Run, results: seq<CaseResult>, f: Fragment, cutValid: string -> bool)
    requires BuiltFrom(run, results, f)
    ensures Acceptable(f, cutValid) <==> Certified(run, results, cutValid)
  {
    hide *;
    if Acceptable(f, cutValid) {
      AcceptedIsCertified(run, results, f, cutValid);
    }
    if Certified(run, results, cutValid) {
      CertifiedIsAccepted(run, results, f, cutValid);
    }
  }

  lemma CasesAreNoFactories(c: Case)
    requires !c.Unlisted?
    ensures CellOf(c).surface != SdkFactory
  {
  }

  /** While any public factory is uncovered, no list of results whatever is certified. */
  lemma UncoveredFactoryNeverPasses(run: Run, results: seq<CaseResult>, f: Fragment, cutValid: string -> bool,
                                    factory: string)
    requires BuiltFrom(run, results, f) && factory in run.factories && factory !in COVERED_FACTORIES
    ensures !Acceptable(f, cutValid)
  {
    hide Acceptable, CellOf, COVERED_FACTORIES;
    var cell := Cell(SdkFactory, Dashed(factory));
    assert cell in Required(run.factories);
    ReleaseIff(run, results, f, cutValid);
    if Certified(run, results, cutValid) {
      var cells := ResultCells(results);
      SetCountMeansDistinct(cells, Required(run.factories));
      var i :| 0 <= i < |cells| && cells[i] == cell;
      assert Listed(results[i]);
      CasesAreNoFactories(results[i].case_);
    }
  }

  lemma CellsTellCases(c: Case, d: Case)
    requires !c.Unlisted? && !d.Unlisted? && CellOf(c) == CellOf(d)
    ensures c == d
  {
  }

  function CaseNames(results: seq<CaseResult>): seq<Case> {
    seq(|results|, i requires 0 <= i < |results| => results[i].case_)
  }

  /** With every factory covered, an accepted fragment means each of the thirteen cases was run exactly once. */
  lemma EveryCaseRunOnce(run: Run, results: seq<CaseResult>, f: Fragment, cutValid: string -> bool)
    requires BuiltFrom(run, results, f) && Acceptable(f, cutValid) && run.factories <= COVERED_FACTORIES
    ensures Distinct(CaseNames(results)) && forall c :: c in CaseNames(results) <==> c in LISTED
  {
    hide Acceptable, CellOf, COVERED_FACTORIES, LISTED, BuiltFrom;
    ReleaseIff(run, results, f, cutValid);
    var cells, names := ResultCells(results), CaseNames(results);
    SetCountMeansDistinct(cells, Required(run.factories));
    forall i, j | 0 <= i < j < |names| ensures names[i] != names[j] {
      assert Listed(results[i]) && Listed(results[j]) && cells[i] != cells[j];
    }
    forall c ensures c in names <==> c in LISTED {
      ListedIsComplete(c);
      if c in names {
        var i :| 0 <= i < |names| && names[i] == c;
        assert Listed(results[i]);
      }
      if c in LISTED {
        assert CellOf(c) in Required(run.factories);
        var i :| 0 <= i < |cells| && cells[i] == CellOf(c);
        assert Listed(results[i]);
        CellsTellCases(results[i].case_, c);
        assert names[i] == c;
      }
    }
  }

  /** Every listed case once, passed and proved. */
  const FULL_PASS: seq<CaseResult> :=
    seq(|LISTED|, i requires 0 <= i < |LISTED| => CaseResult(LISTED[i], true, false, true))

  lemma ListedCells()
    ensures forall i | 0 <= i < |FULL_PASS| :: Listed(FULL_PASS[i])
    ensures Distinct(ResultCells(FULL_PASS))
    ensures forall cell :: cell in ResultCells(FULL_PASS) <==> cell in CaseCells()
  {
    hide CellOf, LISTED;
    ListingIsSound();
    forall i | 0 <= i < |FULL_PASS| ensures Listed(FULL_PASS[i]) {
      ListedIsComplete(LISTED[i]);
    }
    var cells := ResultCells(FULL_PASS);
    forall i, j | 0 <= i < j < |cells| ensures cells[i] != cells[j] {
      assert Listed(FULL_PASS[i]) && Listed(FULL_PASS[j]);
      if cells[i] == cells[j] {
        CellsTellCases(LISTED[i], LISTED[j]);
      }
    }
    forall cell ensures cell in cells <==> cell in CaseCells() {
      if cell in cells {
        var i :| 0 <= i < |cells| && cells[i] == cell;
        assert Listed(FULL_PASS[i]) && LISTED[i] in LISTED && CellOf(LISTED[i]) == cell;
      }
      if cell in CaseCells() {
        var c := CaseOf(cell);
        var i :| 0 <= i < |LISTED| && LISTED[i] == c;
        assert cells[i] == cell;
      }
    }
  }

  lemma CaseOf(cell: Cell) returns (c: Case)
    requires cell in CaseCells()
    ensures c in LISTED && !c.Unlisted? && CellOf(c) == cell
  {
    hide CellOf;
    c :| c in LISTED && CellOf(c) == cell;
  }

  lemma ListingIsSound()
    ensures Distinct(LISTED)
  {
  }

  lemma ListedCellsAreRequired(factories: set<string>)
    requires factories <= COVERED_FACTORIES
    ensures forall i | 0 <= i < |FULL_PASS| :: Listed(FULL_PASS[i])
    ensures Distinct(ResultCells(FULL_PASS))
    ensures forall cell :: cell in ResultCells(FULL_PASS) <==> cell in Required(factories)
  {
    hide CellOf, LISTED, FULL_PASS, Distinct, COVERED_FACTORIES, CaseCells;
    ListedCells();
    ExtrasAreCaseCells();
    assert Uncovered(factories) == {};
  }

  lemma ExtrasAreListed()
    ensures CellOf(GrpcQueryFeatures) == Cell(GrpcFeatureService, "query-features") && GrpcQueryFeatures in LISTED
    ensures CellOf(GrpcQueryFeaturesStream) == Cell(GrpcFeatureService, "query-features-stream")
              && GrpcQueryFeaturesStream in LISTED
    ensures CellOf(ApplyEditsRoundtrip) == Cell(GeoservicesFeatureserver, "apply-edits")
              && ApplyEditsRoundtrip in LISTED
  {
  }

  lemma ExtrasAreCaseCells()
    ensures {Cell(GrpcFeatureService, "query-features"), Cell(GrpcFeatureService, "query-features-stream"),
             Cell(GeoservicesFeatureserver, "apply-edits")} <= CaseCells()
  {
    hide LISTED, CellOf;
    ExtrasAreListed();
  }

  /** With every factory covered and every case governed, the run in which each case passes is accepted. */
  lemma FullPassIsAccepted(run: Run, f: Fragment, cutValid: string -> bool)
    requires BuiltFrom(run, FULL_PASS, f) && run.factories <= COVERED_FACTORIES
    requires cutValid(run.cutAt) && run.revision != "" && run.mode == "disabled"
    requires forall c | c in LISTED :: run.governed(c).Some? && Governable(run.governed(c).value)
    ensures Acceptable(f, cutValid)
  {
    hide CellOf, Required, BuiltFrom, Acceptable, Governable, LISTED, Distinct;
    ListedCellsAreRequired(run.factories);
    SetCountMeansDistinct(ResultCells(FULL_PASS), Required(run.factories));
    forall i | 0 <= i < |FULL_PASS|
      ensures Buildable(run, FULL_PASS[i]) && FULL_PASS[i].passed && Governable(run.governed(FULL_PASS[i].case_).value)
    {
      assert Listed(FULL_PASS[i]) && LISTED[i] in LISTED;
    }
    CertifiedIsAccepted(run, FULL_PASS, f, cutValid);
  }
}
