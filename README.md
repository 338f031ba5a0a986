# Advanced-reports GET handler, modelled in Dafny

This project models the request handling of the Indicia advanced-reports
endpoint (`AdvancedReportController::get` and the `error()` envelope
builder). The handler receives a report name from the URL path, the calling
user's warehouse user id, and the query string. It answers in one of two
ways:

- an error response: 400 Bad Request or 401 Unauthorized, with a JSON body
  `{"errors": [{"status": ..., "title": ...}]}`;
- a dispatch decision: which metrics-engine operation runs, on an engine
  built for the caller, with the Elasticsearch filter map and the report's
  own option. That option is the category list for `counts` and the
  `speciesOnly` flag for `recorded-taxa-list`.

The handler has four stages, and each can stop the request:

1. `AdvancedReports.CheckReport` checks the report name.
2. `AdvancedReports.ValidateFilterParameters` checks the parameters. A survey
   or a group scope is required. A caller may only ask for their own
   `user_id`, except on `user-stats`.
3. `AdvancedReports.GetFilters` builds the filters. It is an imperative
   method, proved equal to the declarative `AdvancedReports.FilterSpec`.
4. `AdvancedReports.GetCategories` derives the category list. It is the
   `foreach` loop with an early return, proved equal to
   `AdvancedReports.CategorySpec`. `AdvancedReports.SpeciesOnly` derives the
   species-only flag.

`AdvancedReports.Get` runs the stages in order and is proved equal to
`AdvancedReports.Handle`, the stage-by-stage specification of the answer.
The lemmas in `properties.dfy` state the handler's guarantees about `Handle`.
Because `Handle` is a function of the report name, the caller id and the
query string, the same request always gets the same answer.

The model is written in these terms:

- `$_GET` is an explicit immutable `map<string, string>` (`Php.Query`).
- PHP `empty()` is `Php.IsEmpty`: the parameter is absent, `""` or `"0"`.
- `isset(...) && ... === 't'` is `Php.IsSetTo`: the key is present and the
  value is literally equal.
- `explode(',', ...)` is `Php.Explode`. It keeps order, duplicates and empty
  pieces. `Php.Implode` is its inverse.
- `(string) $code` is `Php.IntToString`, and `Php.StringToInt` reads it back.
- The caller id is a string, compared with `user_id` by string equality,
  as the strict `!==` does.

Two consequences of the code are worth stating:

- The category list is a sequence. Order, duplicates and empty tokens are
  kept, so `categories=` fails naming the empty token.
- The `taxon_group_id`, `year` and `user_id` filters apply only when the
  parameter is non-empty in `empty()`'s sense, so `"0"` or `""` sets no
  filter.

Files:

- `wrappers.dfy`: Option and Result.
- `php.dfy`: the PHP built-ins.
- `envelope.dfy`: `error()`.
- `advanced_reports.dfy`: the handler.
- `properties.dfy`: lemmas about the handler.

## Model

| member | source | states |
|---|---|---|
| Php.Explode | src/AdvancedReportController.php:97 | `explode` always gives at least one piece, and no piece contains the separator |
| Php.ImplodeExplode | src/AdvancedReportController.php:97 | joining the exploded pieces with the separator gives back the original string, so nothing is lost |
| Php.ExplodeImplode | src/AdvancedReportController.php:97 | exploding a join of one or more separator-free pieces gives back exactly those pieces, in order |
| Php.IsEmpty | src/AdvancedReportController.php:157 | `empty($_GET[key])` holds exactly when the parameter is absent or its value is `""` or `"0"` (used at lines 69, 157, 168 and 190-205) |
| Php.EmptyValues | src/AdvancedReportController.php:190-205 | an absent parameter, `""` and `"0"` are empty; `"00"`, `" "`, `"false"` and `"t"` are not |
| Php.IsSetTo | src/AdvancedReportController.php:115-116 | `isset($_GET[key]) && $_GET[key] === v` holds exactly when the parameter is present and its value is literally `v` (also line 120) |
| Php.IntToString | src/AdvancedReportController.php:36 | `(string) $code` is a canonical decimal string: no leading zero, no `-0`, and a leading `-` exactly for negatives. Reading it back gives the code |
| Php.CanonicalDecimalUnique | src/AdvancedReportController.php:36 | any canonical decimal string that denotes `n` is exactly `IntToString(n)`, so the contract of `IntToString` fixes the string |
| Envelope.Error | src/AdvancedReportController.php:25-48 | the response has HTTP code `code` and `Status` line "code status". With no `errors`, the body has exactly one error object, whose title is `title` and whose status is `IntToString(code)`, the canonical decimal string that reads back as `code`. With `errors`, that list is the body unchanged |
| Envelope.BadRequest | src/AdvancedReportController.php:70 | a 400 response whose body is the single error object with status "400" and the given title |
| Envelope.Unauthorized | src/AdvancedReportController.php:173 | a 401 response whose body is the single error object with status "401" and the given title |
| AdvancedReports.CheckReport | src/AdvancedReportController.php:68-71 | the name passes exactly when it is one of `user-stats`, `counts` and `recorded-taxa-list`, and it parses to the report with that URL. Otherwise the answer is the 400 "Missing or incorrect report url." |
| AdvancedReports.ValidateFilterParameters | src/AdvancedReportController.php:155-176 | every error is a 400 or a 401. A 400 is returned exactly when both `survey_id` and `group_id` are empty. A 401 is returned exactly when a scope is given, `user_id` is non-empty and differs from the caller, and the report is not `user-stats`. A `user-stats` request fails only for a missing scope |
| AdvancedReports.FilterKeysAreKeys | src/AdvancedReportController.php:191-206 | the five field names a filter can set are exactly the fields of the five filters |
| AdvancedReports.FilterSpec | src/AdvancedReportController.php:188-209 | the keys are among the five field names, and a field is present exactly when its rule applies. Each value equals its query parameter unchanged. Survey and group are never both present, a non-empty `survey_id` always wins, and with a scope exactly one of the two is present. `taxon.group_id` is present exactly when `taxon_group_id` is non-empty. `user-stats` never gets `event.year` or `metadata.created_by_id` |
| AdvancedReports.GetFilters | src/AdvancedReportController.php:188-209 | the map built by the conditional assignments equals `FilterSpec` |
| AdvancedReports.CategorySpec | src/AdvancedReportController.php:93-108 | an accepted list is non-empty and holds only valid categories. When `categories` is given, an accepted list joins back to exactly the parameter. A rejection happens only when `categories` is given, and it is a 400 |
| AdvancedReports.GetCategories | src/AdvancedReportController.php:93-108 | the loop over the exploded tokens, which stops at the first invalid one, returns exactly `CategorySpec` |
| AdvancedReports.SpeciesOnly | src/AdvancedReportController.php:114-125 | the flag is true exactly when `exclude_higher_taxa` or `species_only` is present with the literal value `t` |
| AdvancedReports.Get | src/AdvancedReportController.php:67-131 | the handler's answer is `Handle`: the report check, then validation, then the filters, then the report option and the dispatched engine call, each stage stopping the request on error |
| AdvancedReportsProperties.UnknownReportRejectedFirst | src/AdvancedReportController.php:68-71 | a report name outside the three gets the 400 "Missing or incorrect report url." whatever the caller and the query string are |
| AdvancedReportsProperties.EmptyReportRejected | src/AdvancedReportController.php:69 | the empty report names `""` and `"0"` are rejected with that 400 |
| AdvancedReportsProperties.ReportNamesParsed | src/AdvancedReportController.php:68 | each report's URL name selects that report |
| AdvancedReportsProperties.MissingScopeRejected | src/AdvancedReportController.php:157-165 | with both `survey_id` and `group_id` empty, every report name gets a 400. For a valid name it is the missing-scope error |
| AdvancedReportsProperties.UnauthorizedExactly | src/AdvancedReportController.php:167-174 | the handler answers 401 exactly when all of these hold: the report is valid, a scope is given, `user_id` is non-empty and differs from the caller, and the report is not `user-stats` |
| AdvancedReportsProperties.UnauthorizedBody | src/AdvancedReportController.php:173 | every 401 answer has the body `[{"status": "401", "title": "Cannot request other user's data."}]` |
| AdvancedReportsProperties.UserStatsNeverUnauthorized | src/AdvancedReportController.php:87-88 | a scoped `user-stats` request always runs the user-metrics call for the caller, with its filters |
| AdvancedReportsProperties.UserStatsIgnoresUserId | src/AdvancedReportController.php:170 | the answer to `user-stats` is the same whatever `user_id` holds and whether or not it is given |
| AdvancedReportsProperties.DispatchedFilters | src/AdvancedReportController.php:79-83 | a dispatched call is for a valid report and runs on an engine built for the caller, with the report's filters, which hold exactly one of the survey and group keys |
| AdvancedReportsProperties.SurveyBeatsGroup | src/AdvancedReportController.php:190-195 | with `survey_id=5` and `group_id=9`, the filters are exactly `{metadata.survey.id: 5}` |
| AdvancedReportsProperties.FirstInvalidUnique | src/AdvancedReportController.php:98-107 | the first invalid category token is at a unique position |
| AdvancedReportsProperties.CountsDefaultCategory | src/AdvancedReportController.php:93-95 | a valid `counts` request without `categories` counts `["records"]` |
| AdvancedReportsProperties.CountsCategoriesAsSplit | src/AdvancedReportController.php:96-109 | when every token is a valid category, the counts call gets the split list, in order, with duplicates kept |
| AdvancedReportsProperties.CountsInvalidCategory | src/AdvancedReportController.php:98-107 | when a token is invalid, the answer is the 400 naming the first invalid token |
| AdvancedReportsProperties.CountsEmptyCategories | src/AdvancedReportController.php:97-104 | `categories=` gives the 400 naming the empty token |
| AdvancedReportsProperties.CountsSpeciesAndPhotos | src/AdvancedReportController.php:97-109 | `categories=species,photos` counts `["species", "photos"]` |
| AdvancedReportsProperties.CountsBogusCategory | src/AdvancedReportController.php:97-104 | `categories=bogus` gives the 400 naming `bogus` |
| AdvancedReportsProperties.SpeciesOnlyFlag | src/AdvancedReportController.php:112-126 | a valid `recorded-taxa-list` request runs the taxa-list call, and its `speciesOnly` is true exactly when `exclude_higher_taxa` or `species_only` is present and equal to `t` |
| AdvancedReportsProperties.SpeciesOnlyLiteral | src/AdvancedReportController.php:114-122 | values such as `T`, `true`, `1` or the empty string leave the flag off, and setting either parameter to `t` turns it on |

## Left out

- Loading the current user (`User::load`, `currentUser()`, lines 73-74) belongs to the framework. The caller's warehouse user id is an input string.
- The `RecorderMetrics` engine (lines 81-83, 88, 109, 123) is not part of this model. It runs the Elasticsearch aggregations. The model stops at the dispatch decision (`Call`), and engine failures are not modelled.
- Only the code, the `Status` line and the body of error responses are modelled. The `JsonResponse` object, the CORS headers (lines 26-31) and the 200 success response with its headers (lines 132-138) are HTTP plumbing.
- The `INDICIA_ID_FIELD` constant (lines 9-11) is configuration.
- The switch's `default` branch (lines 129-130, "Unknown advanced report requested.") is not modelled. The switch is an exhaustive match over the parsed report name, and no name outside the three gets past the report check, so the branch cannot be reached.
- Only string-valued query parameters are modelled. PHP's other loose typing is left out, for example array-valued parameters such as `categories[]=...`. The loose comparison of `in_array` is modelled as string equality. For the non-numeric report and category names this is the same thing.
- The order of the filter map is not kept. PHP's `$filters` array keeps insertion order (survey or group, taxon group, year, user), while a Dafny `map` has no order. No property of the handler depends on that order.
