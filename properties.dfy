/**
 * What the advanced-reports handler guarantees, stated about the handler's
 * outcome `Handle` for every report name, caller and query string.
 */
module AdvancedReportsProperties {
  import opened Wrappers
  import opened Php
  import opened Envelope
  import opened AdvancedReports

  // ---------------------------------------------------------------------------
  // Report name
  // ---------------------------------------------------------------------------

  /**
   * An unknown or empty report name is a 400 whatever the caller and the
   * query string: no parameter is read before the name is checked.
   */
  lemma UnknownReportRejectedFirst(report: string, callerId: string, q: Query, otherCaller: string, otherQuery: Query)
    requires report !in ValidReports
    ensures Handle(report, callerId, q) == Reject(BadReportUrl())
    ensures Handle(report, callerId, q) == Handle(report, otherCaller, otherQuery)
    ensures Handle(report, callerId, q).response.code == 400
  {
  }

  lemma EmptyReportRejected(callerId: string, q: Query)
    ensures Handle("", callerId, q) == Reject(BadReportUrl())
    ensures Handle("0", callerId, q) == Reject(BadReportUrl())
  {
    UnknownReportRejectedFirst("", callerId, q, callerId, q);
    UnknownReportRejectedFirst("0", callerId, q, callerId, q);
  }

  /** The three valid names each select their own report. */
  lemma ReportNamesParsed(report: ReportName)
    ensures CheckReport(Url(report)) == Success(report)
  {
  }

  // ---------------------------------------------------------------------------
  // Validation
  // ---------------------------------------------------------------------------

  /** Without a survey or a group the answer is a 400, for every report name. */
  lemma MissingScopeRejected(report: string, callerId: string, q: Query)
    requires ScopeMissing(q)
    ensures Handle(report, callerId, q).Reject?
    ensures Handle(report, callerId, q).response.code == 400
    ensures report in ValidReports ==> Handle(report, callerId, q) == Reject(MissingScope())
  {
  }

  /**
   * The answer is a 401 exactly when the report is valid, a scope is given,
   * `user_id` names someone other than the caller, and the report is not
   * `user-stats`.
   */
  lemma UnauthorizedExactly(report: string, callerId: string, q: Query)
    ensures (Handle(report, callerId, q).Reject? && Handle(report, callerId, q).response.code == 401) <==>
      && report in ValidReports
      && !ScopeMissing(q)
      && AsksForOtherUser(callerId, q)
      && report != "user-stats"
  {
    var checked := CheckReport(report);
    if checked.Success? {
      assert Url(checked.value) == report;
      var v := ValidateFilterParameters(checked.value, callerId, q);
      if v.None? && checked.value == Counts {
        var cs := CategorySpec(q);
        assert cs.Failure? ==> cs.error.code == 400;
      }
    }
  }

  /** A 401 carries the fixed "other user's data" body. */
  lemma UnauthorizedBody(report: string, callerId: string, q: Query)
    requires Handle(report, callerId, q).Reject?
    requires Handle(report, callerId, q).response.code == 401
    ensures Handle(report, callerId, q).response == OtherUsersData()
    ensures Handle(report, callerId, q).response.errors == [ErrorObject("401", "Cannot request other user's data.")]
  {
    UnauthorizedExactly(report, callerId, q);
  }

  /** A scoped `user-stats` request always runs, for the caller, whatever `user_id` says. */
  lemma UserStatsNeverUnauthorized(callerId: string, q: Query)
    requires !ScopeMissing(q)
    ensures Handle("user-stats", callerId, q) == Run(callerId, UserMetrics(FilterSpec(UserStats, q)))
  {
  }

  /** The `user_id` parameter plays no part in a `user-stats` answer. */
  lemma UserStatsIgnoresUserId(callerId: string, q: Query, userId: string)
    ensures Handle("user-stats", callerId, q["user_id" := userId]) == Handle("user-stats", callerId, q - {"user_id"})
  {
    var q1, q2 := q["user_id" := userId], q - {"user_id"};
    assert forall k :: k != "user_id" ==> (IsEmpty(q1, k) <==> IsEmpty(q2, k));
    assert forall k :: k != "user_id" && k in q1 ==> q1[k] == q2[k];
    assert Param(SurveyId) != "user_id" && Param(GroupId) != "user_id";
    assert Param(TaxonGroupId) != "user_id" && Param(Year) != "user_id";
    assert ScopeMissing(q1) <==> ScopeMissing(q2);
    assert FilterSpec(UserStats, q1) == FilterSpec(UserStats, q2);
  }

  // ---------------------------------------------------------------------------
  // Filters of a dispatched request
  // ---------------------------------------------------------------------------

  /** The filters of the dispatched call. */
  function CallFilters(call: Call): Filters {
    match call
    case UserMetrics(f) => f
    case GetCounts(f, _) => f
    case GetRecordedTaxaList(f, _) => f
  }

  /**
   * A dispatched request runs on an engine built for the caller, with the
   * report's filters, and exactly one of the survey and group filters.
   */
  lemma DispatchedFilters(report: string, callerId: string, q: Query)
    requires Handle(report, callerId, q).Run?
    ensures report in ValidReports
    ensures Handle(report, callerId, q).engineUser == callerId
    ensures CallFilters(Handle(report, callerId, q).call) == FilterSpec(CheckReport(report).value, q)
    ensures var f := CallFilters(Handle(report, callerId, q).call);
      "metadata.survey.id" in f <==> "metadata.group.id" !in f
  {
  }

  /** Given both a survey and a group, the survey wins and the group is dropped. */
  lemma SurveyBeatsGroup(report: ReportName)
    ensures var f := FilterSpec(report, map["survey_id" := "5", "group_id" := "9"]);
      f == map["metadata.survey.id" := "5"]
  {
    var q := map["survey_id" := "5", "group_id" := "9"];
    var f := FilterSpec(report, q);
    assert !IsEmpty(q, "survey_id");
    assert IsEmpty(q, "taxon_group_id") && IsEmpty(q, "year") && IsEmpty(q, "user_id");
    assert f.Keys == {"metadata.survey.id"};
  }

  // ---------------------------------------------------------------------------
  // Counts
  // ---------------------------------------------------------------------------

  lemma FirstInvalidUnique(tokens: seq<string>, i: int, j: int)
    requires FirstInvalidAt(tokens, i) && FirstInvalidAt(tokens, j)
    ensures i == j
  {
  }

  /** A `counts` request without `categories` counts records only. */
  lemma CountsDefaultCategory(callerId: string, q: Query)
    requires !ScopeMissing(q) && !AsksForOtherUser(callerId, q)
    requires "categories" !in q
    ensures Handle("counts", callerId, q) == Run(callerId, GetCounts(FilterSpec(Counts, q), ["records"]))
  {
  }

  /** Valid tokens are passed on as split, in order, duplicates and all. */
  lemma CountsCategoriesAsSplit(callerId: string, q: Query)
    requires !ScopeMissing(q) && !AsksForOtherUser(callerId, q)
    requires "categories" in q
    requires var tokens := Explode(',', q["categories"]);
      forall i :: 0 <= i < |tokens| ==> tokens[i] in ValidCategories
    ensures Handle("counts", callerId, q) ==
      Run(callerId, GetCounts(FilterSpec(Counts, q), Explode(',', q["categories"])))
  {
  }

  /** An invalid token is a 400 naming the first invalid token. */
  lemma CountsInvalidCategory(callerId: string, q: Query, i: int)
    requires !ScopeMissing(q) && !AsksForOtherUser(callerId, q)
    requires "categories" in q
    requires FirstInvalidAt(Explode(',', q["categories"]), i)
    ensures Handle("counts", callerId, q) == Reject(InvalidCategory(Explode(',', q["categories"])[i]))
  {
    var tokens := Explode(',', q["categories"]);
    var r := CategorySpec(q);
    assert !(forall k :: 0 <= k < |tokens| ==> tokens[k] in ValidCategories);
    assert r.Failure?;
    var j :| FirstInvalidAt(tokens, j) && r == Failure(InvalidCategory(tokens[j]));
    FirstInvalidUnique(tokens, i, j);
  }

  /** `categories=` is one empty token, so it fails naming the empty token. */
  lemma CountsEmptyCategories(callerId: string, q: Query)
    requires !ScopeMissing(q) && !AsksForOtherUser(callerId, q)
    requires "categories" in q && q["categories"] == ""
    ensures Handle("counts", callerId, q) ==
      Reject(BadRequest("Parameter for categories contains invalid value ."))
  {
    assert Explode(',', "") == [""];
    assert FirstInvalidAt([""], 0);
    CountsInvalidCategory(callerId, q, 0);
    assert "Parameter for categories contains invalid value " + "" + "."
      == "Parameter for categories contains invalid value .";
  }

  /** `categories=species,photos` counts species and photos, in that order. */
  lemma CountsSpeciesAndPhotos(callerId: string, q: Query)
    requires !ScopeMissing(q) && !AsksForOtherUser(callerId, q)
    requires "categories" in q && q["categories"] == "species,photos"
    ensures Handle("counts", callerId, q) == Run(callerId, GetCounts(FilterSpec(Counts, q), ["species", "photos"]))
  {
    ExplodeImplode(',', ["species", "photos"]);
    assert Implode(',', ["species", "photos"]) == "species,photos";
    CountsCategoriesAsSplit(callerId, q);
  }

  /** `categories=bogus` is a 400 naming `bogus`. */
  lemma CountsBogusCategory(callerId: string, q: Query)
    requires !ScopeMissing(q) && !AsksForOtherUser(callerId, q)
    requires "categories" in q && q["categories"] == "bogus"
    ensures Handle("counts", callerId, q) ==
      Reject(BadRequest("Parameter for categories contains invalid value bogus."))
  {
    ExplodeImplode(',', ["bogus"]);
    assert Implode(',', ["bogus"]) == "bogus";
    assert FirstInvalidAt(["bogus"], 0);
    CountsInvalidCategory(callerId, q, 0);
    assert "Parameter for categories contains invalid value " + "bogus" + "."
      == "Parameter for categories contains invalid value bogus.";
  }

  // ---------------------------------------------------------------------------
  // Recorded taxa list
  // ---------------------------------------------------------------------------

  /**
   * `speciesOnly` is true exactly when `exclude_higher_taxa` or `species_only`
   * is set to the literal `t`.
   */
  lemma SpeciesOnlyFlag(callerId: string, q: Query)
    requires !ScopeMissing(q) && !AsksForOtherUser(callerId, q)
    ensures Handle("recorded-taxa-list", callerId, q).Run?
    ensures Handle("recorded-taxa-list", callerId, q).call.GetRecordedTaxaList?
    ensures Handle("recorded-taxa-list", callerId, q).call.speciesOnly <==>
      ("exclude_higher_taxa" in q && q["exclude_higher_taxa"] == "t") ||
      ("species_only" in q && q["species_only"] == "t")
  {
  }

  /** Only the lower-case `t` switches the flag on. */
  lemma SpeciesOnlyLiteral(q: Query)
    requires "exclude_higher_taxa" in q ==> q["exclude_higher_taxa"] in {"T", "true", "1", ""}
    requires "species_only" in q ==> q["species_only"] in {"T", "true", "1", ""}
    ensures !SpeciesOnly(q)
    ensures SpeciesOnly(q["species_only" := "t"])
    ensures SpeciesOnly(q["exclude_higher_taxa" := "t"])
  {
  }
}
