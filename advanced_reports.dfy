/**
 * The GET handler of the advanced-reports endpoint: it checks the report
 * name, validates the scope and user parameters of the query string, builds
 * the Elasticsearch filter map, derives the report's own option, and decides
 * which metrics-engine call runs. The engine call itself is not performed:
 * the handler's outcome is either an error response or a dispatch decision.
 */
module AdvancedReports {
  import opened Wrappers
  import opened Php
  import opened Envelope

  // ---------------------------------------------------------------------------
  // Reports and outcomes
  // ---------------------------------------------------------------------------

  datatype ReportName = UserStats | Counts | RecordedTaxaList

  /** The URL path segment that names each report. */
  function Url(report: ReportName): string {
    match report
    case UserStats => "user-stats"
    case Counts => "counts"
    case RecordedTaxaList => "recorded-taxa-list"
  }

  const ValidReports: seq<string> := ["user-stats", "counts", "recorded-taxa-list"]

  /** Elasticsearch filters: document field name to the value it must have. */
  type Filters = map<string, string>

  /** The metrics-engine operation chosen, with the arguments it is given. */
  datatype Call =
    | UserMetrics(filters: Filters)
    | GetCounts(filters: Filters, categories: seq<string>)
    | GetRecordedTaxaList(filters: Filters, speciesOnly: bool)

  /**
   * What the handler answers: an error response, or the engine call to run
   * on an engine built for `engineUser`.
   */
  datatype Outcome =
    | Reject(response: ErrorResponse)
    | Run(engineUser: string, call: Call)

  // ---------------------------------------------------------------------------
  // Stage 1: the report name
  // ---------------------------------------------------------------------------

  function BadReportUrl(): ErrorResponse {
    BadRequest("Missing or incorrect report url.")
  }

  /**
   * The report-name check: an empty name or one outside the three reports is
   * a 400; a valid name is parsed into its report.
   */
  function CheckReport(report: string): (r: Result<ReportName, ErrorResponse>)
    ensures r.Success? <==> report in ValidReports
    ensures r.Success? ==> Url(r.value) == report
    ensures r.Failure? ==> r.error == BadReportUrl() && r.error.code == 400
  {
    if EmptyString(report) || report !in ValidReports then Failure(BadReportUrl())
    else if report == "user-stats" then Success(UserStats)
    else if report == "counts" then Success(Counts)
    else Success(RecordedTaxaList)
  }

  // ---------------------------------------------------------------------------
  // Stage 2: parameter validation
  // ---------------------------------------------------------------------------

  function MissingScope(): ErrorResponse {
    BadRequest("Parameter for survey_id or group_id missing from query string.")
  }

  function OtherUsersData(): ErrorResponse {
    Unauthorized("Cannot request other user's data.")
  }

  /** Neither a survey nor a group scopes the request. */
  predicate ScopeMissing(q: Query) {
    IsEmpty(q, "survey_id") && IsEmpty(q, "group_id")
  }

  /** The query names a user other than the caller. */
  predicate AsksForOtherUser(callerId: string, q: Query) {
    !IsEmpty(q, "user_id") && q["user_id"] != callerId
  }

  /**
   * `validateFilterParameters`: a missing scope is a 400 whatever the report;
   * otherwise asking for another user's data is a 401 except on `user-stats`,
   * whose `user_id` parameter plays no part; otherwise there is no error.
   */
  function ValidateFilterParameters(report: ReportName, callerId: string, q: Query): (r: Option<ErrorResponse>)
    ensures r.Some? ==> r.value.code == 400 || r.value.code == 401
    ensures (r.Some? && r.value.code == 400) <==> ScopeMissing(q)
    ensures (r.Some? && r.value.code == 401) <==>
      !ScopeMissing(q) && AsksForOtherUser(callerId, q) && report != UserStats
    ensures report == UserStats ==> (r.None? <==> !ScopeMissing(q))
    ensures r.Some? ==> r.value == MissingScope() || r.value == OtherUsersData()
  {
    if IsEmpty(q, "survey_id") && IsEmpty(q, "group_id") then
      Some(MissingScope())
    else if !IsEmpty(q, "user_id") && q["user_id"] != callerId && report != UserStats then
      Some(OtherUsersData())
    else
      None
  }

  // ---------------------------------------------------------------------------
  // Stage 3: filters
  // ---------------------------------------------------------------------------

  /** The five filters the handler can set. */
  datatype Field = SurveyId | GroupId | TaxonGroupId | Year | CreatedById

  /** The Elasticsearch document field a filter constrains. */
  function Key(f: Field): string {
    match f
    case SurveyId => "metadata.survey.id"
    case GroupId => "metadata.group.id"
    case TaxonGroupId => "taxon.group_id"
    case Year => "event.year"
    case CreatedById => "metadata.created_by_id"
  }

  /** The query parameter a filter's value comes from. */
  function Param(f: Field): string {
    match f
    case SurveyId => "survey_id"
    case GroupId => "group_id"
    case TaxonGroupId => "taxon_group_id"
    case Year => "year"
    case CreatedById => "user_id"
  }

  /** Every document field a filter can constrain. */
  /** Every document field a filter can constrain. */
  const FilterKeys: set<string> :=
    {"metadata.survey.id", "metadata.group.id", "taxon.group_id", "event.year", "metadata.created_by_id"}

  /** `FilterKeys` is exactly the set of fields the five filters constrain. */
  lemma FilterKeysAreKeys()
    ensures FilterKeys == set f: Field :: Key(f)
  {
    assert Key(SurveyId) == "metadata.survey.id" && Key(GroupId) == "metadata.group.id";
    assert Key(TaxonGroupId) == "taxon.group_id" && Key(Year) == "event.year";
    assert Key(CreatedById) == "metadata.created_by_id";
  }

  /**
   * When a filter is set: survey before group, taxon group always, year and
   * user everywhere but `user-stats`; each needs a non-empty parameter.
   */
  predicate Applies(report: ReportName, q: Query, f: Field) {
    !IsEmpty(q, Param(f)) &&
    match f
    case SurveyId => true
    case GroupId => IsEmpty(q, "survey_id")
    case TaxonGroupId => true
    case Year => report != UserStats
    case CreatedById => report != UserStats
  }

  /** The filter a field contributes: its key and parameter value, or nothing. */
  function Entry(report: ReportName, q: Query, f: Field): (m: Filters)
    ensures Key(f) in m <==> Applies(report, q, f)
    ensures m.Keys <= {Key(f)}
  {
    if Applies(report, q, f) then map[Key(f) := q[Param(f)]] else map[]
  }

  /**
   * The filters `getFilters` returns, given declaratively as the union of
   * what each field contributes: exactly the applicable fields, each carrying
   * its parameter's value unchanged.
   */
  function FilterSpec(report: ReportName, q: Query): (m: Filters)
    ensures m.Keys <= FilterKeys
    ensures forall f :: Key(f) in m <==> Applies(report, q, f)
    ensures forall f :: Key(f) in m ==> Param(f) in q && m[Key(f)] == q[Param(f)]
    ensures !("metadata.survey.id" in m && "metadata.group.id" in m)
    ensures !IsEmpty(q, "survey_id") ==>
      "metadata.survey.id" in m && m["metadata.survey.id"] == q["survey_id"] && "metadata.group.id" !in m
    ensures !ScopeMissing(q) ==> ("metadata.survey.id" in m <==> "metadata.group.id" !in m)
    ensures ("taxon.group_id" in m) <==> !IsEmpty(q, "taxon_group_id")
    ensures report == UserStats ==> "event.year" !in m && "metadata.created_by_id" !in m
  {
    Entry(report, q, SurveyId) + Entry(report, q, GroupId) + Entry(report, q, TaxonGroupId)
      + Entry(report, q, Year) + Entry(report, q, CreatedById)
  }

  /** `getFilters`: the filter map built one conditional assignment at a time. */
  method GetFilters(report: ReportName, q: Query) returns (filters: Filters)
    ensures filters == FilterSpec(report, q)
  {
    ghost var survey, group := Entry(report, q, SurveyId), Entry(report, q, GroupId);
    ghost var taxon, year := Entry(report, q, TaxonGroupId), Entry(report, q, Year);
    ghost var user := Entry(report, q, CreatedById);
    filters := map[];
    if !IsEmpty(q, "survey_id") {
      filters := filters["metadata.survey.id" := q["survey_id"]];
    } else if !IsEmpty(q, "group_id") {
      filters := filters["metadata.group.id" := q["group_id"]];
    }
    assert filters == survey + group;
    // The taxon group filter applies to every report.
    if !IsEmpty(q, "taxon_group_id") {
      filters := filters["taxon.group_id" := q["taxon_group_id"]];
    }
    assert filters == survey + group + taxon;
    // Year and user filters do not apply to the per-user statistics.
    if !IsEmpty(q, "year") && report != UserStats {
      filters := filters["event.year" := q["year"]];
    }
    assert filters == survey + group + taxon + year;
    if !IsEmpty(q, "user_id") && report != UserStats {
      filters := filters["metadata.created_by_id" := q["user_id"]];
    }
    assert filters == survey + group + taxon + year + user;
  }

  // ---------------------------------------------------------------------------
  // Stage 4: report options
  // ---------------------------------------------------------------------------

  const ValidCategories: seq<string> := ["records", "species", "photos", "recorders"]

  function InvalidCategory(category: string): ErrorResponse {
    BadRequest("Parameter for categories contains invalid value " + category + ".")
  }

  /** `i` is the position of the first token that is not a valid category. */
  ghost predicate FirstInvalidAt(tokens: seq<string>, i: int) {
    && 0 <= i < |tokens|
    && tokens[i] !in ValidCategories
    && forall j :: 0 <= j < i ==> tokens[j] in ValidCategories
  }

  /** If some token is invalid then there is a first one. */
  lemma {:induction false} FirstInvalidExists(tokens: seq<string>, k: int)
    requires 0 <= k < |tokens| && tokens[k] !in ValidCategories
    ensures exists i :: FirstInvalidAt(tokens, i)
    decreases k
  {
    if !FirstInvalidAt(tokens, k) {
      var j :| 0 <= j < k && tokens[j] !in ValidCategories;
      FirstInvalidExists(tokens, j);
    }
  }

  /**
   * The category list of a `counts` request: `["records"]` when `categories`
   * is not set; otherwise its comma-separated tokens, in order, or a 400
   * naming the first token that is not a valid category.
   */
  ghost function CategorySpec(q: Query): (r: Result<seq<string>, ErrorResponse>)
    ensures r.Success? ==> |r.value| >= 1 && forall i :: 0 <= i < |r.value| ==> r.value[i] in ValidCategories
    ensures r.Success? && "categories" in q ==> Implode(',', r.value) == q["categories"]
    ensures r.Failure? ==> "categories" in q && r.error.code == 400
  {
    if "categories" !in q then Success(["records"])
    else
      var tokens := Explode(',', q["categories"]);
      ImplodeExplode(',', q["categories"]);
      if forall i :: 0 <= i < |tokens| ==> tokens[i] in ValidCategories then Success(tokens)
      else
        var k :| 0 <= k < |tokens| && tokens[k] !in ValidCategories;
        FirstInvalidExists(tokens, k);
        var i :| FirstInvalidAt(tokens, i);
        Failure(InvalidCategory(tokens[i]))
  }

  /**
   * The `counts` branch's category handling: the default list, or the
   * exploded parameter checked token by token, stopping at the first invalid
   * token.
   */
  method GetCategories(q: Query) returns (r: Result<seq<string>, ErrorResponse>)
    ensures r == CategorySpec(q)
  {
    if "categories" !in q {
      return Success(["records"]);
    }
    var categories := Explode(',', q["categories"]);
    var i := 0;
    while i < |categories|
      invariant 0 <= i <= |categories|
      invariant forall j :: 0 <= j < i ==> categories[j] in ValidCategories
    {
      if categories[i] !in ValidCategories {
        assert FirstInvalidAt(categories, i);
        return Failure(InvalidCategory(categories[i]));
      }
      i := i + 1;
    }
    return Success(categories);
  }

  /**
   * The `speciesOnly` flag of `recorded-taxa-list`: either the deprecated
   * `exclude_higher_taxa` or `species_only` is set to exactly `"t"`.
   */
  function SpeciesOnly(q: Query): (b: bool)
    ensures b <==>
      ("exclude_higher_taxa" in q && q["exclude_higher_taxa"] == "t") ||
      ("species_only" in q && q["species_only"] == "t")
  {
    var excludeHigherTaxa := IsSetTo(q, "exclude_higher_taxa", "t");
    var speciesOnly := IsSetTo(q, "species_only", "t");
    excludeHigherTaxa || speciesOnly
  }

  // ---------------------------------------------------------------------------
  // The handler
  // ---------------------------------------------------------------------------

  /** What the handler answers, stage by stage, for a request from `callerId`. */
  ghost function Handle(report: string, callerId: string, q: Query): Outcome {
    match CheckReport(report)
    case Failure(e) => Reject(e)
    case Success(name) =>
      match ValidateFilterParameters(name, callerId, q)
      case Some(e) => Reject(e)
      case None =>
        var filters := FilterSpec(name, q);
        match name
        case UserStats => Run(callerId, UserMetrics(filters))
        case Counts =>
          (match CategorySpec(q)
           case Failure(e) => Reject(e)
           case Success(categories) => Run(callerId, GetCounts(filters, categories)))
        case RecordedTaxaList => Run(callerId, GetRecordedTaxaList(filters, SpeciesOnly(q)))
  }

  /**
   * `AdvancedReportController::get`: the report check, the validation, the
   * filters, then the report's own option and the engine call it dispatches.
   */
  method Get(report: string, callerId: string, q: Query) returns (out: Outcome)
    ensures out == Handle(report, callerId, q)
  {
    var checked := CheckReport(report);
    if checked.Failure? {
      return Reject(checked.error);
    }
    var name := checked.value;
    var filterError := ValidateFilterParameters(name, callerId, q);
    if filterError.Some? {
      return Reject(filterError.value);
    }
    var filters := GetFilters(name, q);
    match name {
      case UserStats =>
        out := Run(callerId, UserMetrics(filters));
      case Counts =>
        var categories := GetCategories(q);
        if categories.Failure? {
          return Reject(categories.error);
        }
        out := Run(callerId, GetCounts(filters, categories.value));
      case RecordedTaxaList =>
        out := Run(callerId, GetRecordedTaxaList(filters, SpeciesOnly(q)));
    }
  }
}
