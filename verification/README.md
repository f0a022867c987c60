# School grading platform: scoring, evaluations and access rules in Dafny

This project models the core of a school grading platform. Teachers record
weighted evaluations for the students in their courses. Each student gets a
per-course percentage score. Teachers see a ranked, optionally bounded list of
their course's students. Students see their own results grouped per course. A
browser front end keeps the session in a store and guards its routes by role.

The model covers:

- the `Evaluation` entity: its result and weight accessors, its validation
  ranges, and the participation rule (a negative result means "absent");
- the `Course` entity: the idempotent add/remove pair on its evaluation
  collection, and its roster of students;
- the `EvaluationDto` constraints and the validator's violations;
- the score service: the weighted percentage with PHP's half-away-from-zero
  `round()`, and the bounded, descending ranking;
- the student and teacher controllers: who may act, the 404/400/201 decision
  order of `createEvaluation`, and the per-course grouping of `getResults`;
- the front-end authentication store and the router's navigation guard.

Results are integers in hundredths: the result column is `NUMERIC(4,2)`, so
`8` is `800` and the range `-1 .. 10` is `-100 .. 1000`. A score is
`round(100 * Σ result·weight / Σ 10·weight)`. The model computes it exactly as
`RoundHalfAway(Σ contribution, Σ 10·weight)` on integers, where an absent
evaluation contributes `0` to the numerator.

Module layout: `Types`, `Seqs` (duplicate freedom, first occurrences),
`Rounding`, `Evaluations`, `EvaluationDtos`, `Courses`, `Ranking`,
`ScoreCalculation`, `Users`, `StudentController`, `TeacherController`,
`AuthStore`, `Router`, and `Fixtures` (the repository's test scenarios as
lemmas).

Repositories, the request and the logged-in user are parameters:

- the evaluation table is a `seq<Evaluation>`;
- users and courses are maps from id to entity;
- the query string is a map from parameter name to its numeric value;
- the decoded JSON body is a `Payload`;
- browser storage is a map from key to stored value.

## Model

| member | source | states |
|---|---|---|
| Evaluations.NewEvaluation | backend/src/Entity/Evaluation.php:45-48 | A new evaluation has no result, weight, message, student or course yet, and its unused participation flag is true. |
| Evaluations.SetResult | backend/src/Entity/Evaluation.php:60-64 | Setting the result stores exactly that value and changes no other field. |
| Evaluations.GetResultAsWritten | backend/src/Entity/Evaluation.php:55-58 | The getter as written answers null exactly when no result is stored or the stored result is 0; otherwise it answers the stored value. The stored 0 here is a result set in memory, which is kept as the text "0". An evaluation loaded from the database holds "0.00", which is truthy, so it is not affected. |
| Evaluations.GetResult | backend/src/Entity/Evaluation.php:55-58 | The corrected getter answers null iff no result is stored. It agrees with the as-written getter on every stored value except an in-memory 0, so it is also what the as-written getter answers for database-loaded evaluations. |
| Evaluations.SetResultRoundTrip | backend/src/Entity/Evaluation.php:55-64 | The corrected getter reads back any set result, including 0. The as-written getter does so for every non-zero result. |
| Evaluations.ZeroResultReadsBackAsNull | backend/src/Entity/Evaluation.php:55-58 | A result set to 0 reads back as null through the as-written getter, but as 0 through the corrected one. |
| Evaluations.SetWeight | backend/src/Entity/Evaluation.php:71-75 | Setting the weight stores exactly that value and changes no other field. |
| Evaluations.SettersRoundTrip | backend/src/Entity/Evaluation.php:60-75 | The weight reads back as set, and each setter leaves the other field's getter unchanged. |
| Evaluations.HasParticipated | backend/src/Entity/Evaluation.php:121-124 | An evaluation counts as participated iff it has no result, or its result is at least 0. PHP's `null >= 0` is true. |
| Evaluations.ParticipationIgnoresZeroQuirk | backend/src/Entity/Evaluation.php:55-124 | Participation is the same whether the result is read through the as-written or the corrected getter. |
| Evaluations.SetHasParticipated | backend/src/Entity/Evaluation.php:125-130 | The setter writes only the stored flag. |
| Evaluations.SetHasParticipatedIsUnobservable | backend/src/Entity/Evaluation.php:121-130 | The stored flag is never read: setting it changes neither participation nor any getter. |
| Evaluations.ContributionIgnoresZeroQuirk | backend/src/Service/ScoreCalculationService.php:29-34 | Each evaluation adds the same amount to the weighted total under either getter. |
| Evaluations.ValidContributionBounds | backend/src/Entity/Evaluation.php:18-26 | When result and weight are within their validated ranges, an evaluation adds between 0 and 100 % of its maximum. An absence adds nothing. |
| EvaluationDtos.Violations | backend/src/Dto/EvaluationDto.php:9-29 | A violation is reported iff its constraint fails, and no other is: "required" exactly for a null result or weight, the range message exactly for a present out-of-range value, the length message exactly for an overlong message. So the DTO has no violations iff it satisfies every constraint. |
| EvaluationDtos.ErrorMap | backend/src/Controller/TeacherController.php:137-142 | The error object's keys are exactly the violated property paths, and each key maps to one of that path's violation messages. |
| EvaluationDtos.ErrorMapOfViolations | backend/src/Controller/TeacherController.php:135-142 | For a submitted DTO, each violated path maps to that violation's own message, since no path fails two constraints at once. |
| Courses.AddEvaluation | backend/src/Entity/Course.php:87-94 | An evaluation already in the collection changes nothing. Otherwise it is appended with its course reference set to this course. Unique membership and back-references are preserved. |
| Courses.AddEvaluationIdempotent | backend/src/Entity/Course.php:87-94 | Adding the same evaluation twice has the effect of adding it once. |
| Courses.RemoveFirst | backend/src/Entity/Course.php:98 | Removal deletes exactly the first occurrence, and nothing when the element is absent. In a duplicate-free collection the element is gone afterwards. |
| Courses.RemoveEvaluation | backend/src/Entity/Course.php:96-104 | For a member, the collection becomes exactly the collection minus its first occurrence, the course is otherwise unchanged, and the evaluation's course reference is cleared if it pointed at this course. A non-member changes nothing. Unique membership and back-references are preserved. |
| Courses.AddThenRemove | backend/src/Entity/Course.php:87-104 | Removing a just-added evaluation restores the collection and leaves the evaluation without a course. |
| Courses.GetStudents | backend/src/Entity/Course.php:109-119 | The roster lists each student with an evaluation in the course exactly once, and nobody else. Students appear in the order of their first evaluation. Evaluations without a student are skipped. |
| Courses.AddEvaluationEnrolsStudent | backend/src/Entity/Course.php:87-119 | After adding a student's evaluation, that student is on the roster. |
| Seqs.DistinctPresentInFirstOccurrenceOrder | backend/src/Entity/Course.php:112-117 | The roster scan collects values in the order of their first occurrence. |
| Rounding.RoundHalfAway | backend/src/Service/ScoreCalculationService.php:40-41 | The result is the integer nearest to `n / d`. Halves round away from zero, as PHP's `round()` does. |
| Rounding.RoundingIsUnique | backend/src/Service/ScoreCalculationService.php:40-41 | At most one integer meets that rounding relation, so the relation fixes the score. |
| Rounding.RoundingStaysInRange | backend/src/Service/ScoreCalculationService.php:40-41 | A quotient between two integers rounds to a value between them. |
| ScoreCalculation.Score | backend/src/Service/ScoreCalculationService.php:15-42 | No evaluations gives no score. A total weight of zero gives no score. Otherwise the score is `Σ contribution / Σ 10·weight`, rounded half away from zero. |
| ScoreCalculation.CalculateStudentScore | backend/src/Service/ScoreCalculationService.php:22-41 | The one-pass loop, with its early returns, computes that same score. |
| ScoreCalculation.SumPermutation | backend/src/Service/ScoreCalculationService.php:29-34 | The accumulated totals do not depend on the order of the evaluations. |
| ScoreCalculation.ScoreOrderIndependent | backend/src/Service/ScoreCalculationService.php:17-41 | The score does not depend on the order in which the repository returns the evaluations. |
| ScoreCalculation.TotalsBounds | backend/src/Service/ScoreCalculationService.php:26-34 | For evaluations in the validated ranges, `0 <= weighted total <= 100 · max total`, and the max total is positive for a non-empty list. |
| ScoreCalculation.ScoreIsPercentage | backend/src/Service/ScoreCalculationService.php:15-42 | A non-empty list of valid evaluations always has a score, and the score lies in `0 .. 100`. |
| ScoreCalculation.FullMarksScoreHundred | backend/src/Service/ScoreCalculationService.php:29-41 | A single evaluation scored 10 gives 100. |
| ScoreCalculation.AbsenceScoresZero | backend/src/Service/ScoreCalculationService.php:29-41 | A single absence (result -1) gives 0. |
| ScoreCalculation.AbsenceOnlyRaisesDenominator | backend/src/Service/ScoreCalculationService.php:30-33 | Adding an absence leaves the weighted total unchanged and adds `10·weight` to the maximum. |
| ScoreCalculation.FindBy | backend/src/Service/ScoreCalculationService.php:17-20 | The lookup returns only evaluations of that student in that course, and every such evaluation of the table. |
| ScoreCalculation.FindByCounts | backend/src/Service/ScoreCalculationService.php:17-20 | Each matching evaluation occurs in the lookup exactly as often as in the table, and nothing else occurs. With `ScoreOrderIndependent`, this fixes the score. |
| ScoreCalculation.Included | backend/src/Service/ScoreCalculationService.php:49-70 | An entry is kept iff its student is on the roster, has a score, and the score lies within both inclusive bounds. An absent bound filters nothing. A duplicate-free roster gives one entry per student. |
| ScoreCalculation.RankStudents | backend/src/Service/ScoreCalculationService.php:44-78 | The ranking is sorted by non-increasing score. It is a permutation of the filtered entries, holds each kept student once, and is empty for an empty roster. |
| ScoreCalculation.GetStudentsWithScores | backend/src/Service/ScoreCalculationService.php:44-78 | Over the course's roster, the list holds exactly the students with an evaluation in the course whose score passes the bounds. It is descending, has no repeated student, and is empty for a course without evaluations. |
| Ranking.InsertDesc | backend/src/Service/ScoreCalculationService.php:73-75 | Inserting into a descending list keeps it descending and adds exactly that entry. |
| Ranking.SortDesc | backend/src/Service/ScoreCalculationService.php:73-75 | The sort returns a descending permutation of its input. |
| Ranking.PermutationKeepsDistinctStudents | backend/src/Service/ScoreCalculationService.php:73-75 | Reordering cannot introduce a repeated student. |
| Users.StudentFromIdOrToken | backend/src/Controller/StudentController.php:87-107 | The acting student holds the student role. Without a route id, a student acts iff the logged-in user is a student, and it is that user. With an id, the actor is the stored user under that id. A logged-in user with a different id gets no actor. |
| Users.TeacherFromIdOrToken | backend/src/Controller/TeacherController.php:172-192 | The same rule for teachers: the actor holds the teacher role, is the logged-in teacher when no id is given, is the stored user under the id otherwise, and is absent when a logged-in user has a different id. |
| Users.ResolveActor | backend/src/Controller/StudentController.php:87-107 | Without a route id, the actor is the logged-in user if that user holds the role. With an id, the actor is the stored user with that id, iff that user exists, holds the role, and either nobody is logged in or the logged-in user has that id. |
| Users.ActorIsTheLoggedInUser | backend/src/Controller/TeacherController.php:172-192 | When someone is logged in, any resolved actor is that same user. |
| StudentController.FindByStudent | backend/src/Controller/StudentController.php:35 | The lookup returns only evaluations of that student, and every such evaluation of the table. |
| StudentController.FindByStudentCounts | backend/src/Controller/StudentController.php:35 | Each of the student's evaluations occurs in the lookup exactly as often as in the table, and nothing else occurs. |
| StudentController.InCourse | backend/src/Controller/StudentController.php:67-77 | Filtering by course keeps only that course's evaluations, and all of them. |
| StudentController.InCourseCounts | backend/src/Controller/StudentController.php:67-77 | Each evaluation of the course is kept exactly as often as it occurs, and nothing else is kept. |
| StudentController.Group | backend/src/Controller/StudentController.php:66-77 | There are never more groups than rows, and every group holds at least one evaluation. |
| StudentController.GroupKeys | backend/src/Controller/StudentController.php:66-77 | The groups' course ids are the distinct courses of the rows, in order of first appearance. |
| StudentController.GroupContents | backend/src/Controller/StudentController.php:66-77 | Each group lists exactly the views of its course's rows, in order. |
| StudentController.GroupSize | backend/src/Controller/StudentController.php:66-83 | The group sizes add up to the number of rows, which is `total_evaluations`. |
| StudentController.GroupHeaders | backend/src/Controller/StudentController.php:44-73 | Each group header carries its course's overall score. |
| StudentController.ResultsOf | backend/src/Controller/StudentController.php:35-84 | For an acting student, the response has one group per course the student has evaluations in, in order of first evaluation. Each group holds exactly that course's evaluations, in order, under that course's score. The total counts every evaluation. |
| StudentController.GetResults | backend/src/Controller/StudentController.php:27-85 | The response is 404 iff no student is acting. Otherwise it has one group per course the student has evaluations in, in order of first evaluation. Each group holds exactly that course's evaluations, under that course's score. The total counts every evaluation. |
| TeacherController.OwnedCourse | backend/src/Controller/TeacherController.php:69-73 | The course passes the ownership gate iff it exists and belongs to the acting teacher. |
| TeacherController.QueryBound | backend/src/Controller/TeacherController.php:75-79 | A bound is present iff its query parameter is present, and it then carries the parameter's value. |
| TeacherController.GetCourseStudents | backend/src/Controller/TeacherController.php:61-98 | The teacher check answers 404 first, then the ownership check. Otherwise the response lists the service's ranking, row for row in the same order, with the scores unchanged. |
| TeacherController.BuildEvaluation | backend/src/Controller/TeacherController.php:145-150 | An evaluation built from a valid DTO satisfies the entity's constraints and carries the submitted fields, the student and the course. |
| TeacherController.CreateEvaluation | backend/src/Controller/TeacherController.php:102-170 | The checks apply in this order, and each failure leaves the table unchanged: teacher, course ownership, target student (all 404), unreadable body (400), constraint violations (400 with the error map). Creation happens iff all checks pass. Then exactly one valid evaluation is appended. It holds the new id, the submitted result, weight and message, the target student and the course. The 201 body echoes the submitted result, weight and message. The echo reads the result through the corrected getter, so a submitted 0 is echoed as 0. |
| TeacherController.ZeroResultEchoedAsNullAsWritten | backend/src/Controller/TeacherController.php:145-158 | With the getter as written, a submitted result of 0 would be echoed as null. |
| AuthStore.Init | frontend/src/stores/authStore.js:7-8 | On startup, an empty or missing token reads as null, a missing user reads as null, and a stored user is restored. |
| AuthStore.IsAuthenticated | frontend/src/stores/authStore.js:11-13 | Authentication needs both a token and a user. A user without a token is not authenticated, whatever its roles; a token without a user is not either. |
| AuthStore.HasRole | frontend/src/stores/authStore.js:28-33 | The check is false without a user or a roles list. Otherwise it is membership in the roles. |
| AuthStore.SetToken | frontend/src/stores/authStore.js:16-19 | Setting the token replaces it, mirrors it into storage, and leaves the user alone. |
| AuthStore.SetUser | frontend/src/stores/authStore.js:22-25 | Setting the user replaces it, mirrors it into storage, and leaves the token alone. |
| AuthStore.Logout | frontend/src/stores/authStore.js:36-41 | Logging out leaves the store unauthenticated. Both fields become null and both storage keys are removed; every other storage entry is kept. |
| AuthStore.SetUserAloneDoesNotAuthenticate | frontend/src/stores/authStore.js:11-25 | Without a token, setting a user does not authenticate. |
| AuthStore.ReloadRestoresSession | frontend/src/stores/authStore.js:7-25 | After setting a non-empty token and a user, a reload restores both. |
| AuthStore.ReloadAfterLogoutIsLoggedOut | frontend/src/stores/authStore.js:7-41 | A reload after logout is still logged out. |
| Router.Lookup | frontend/src/router/index.js:10-44 | Route matching finds the first record with the path, or none iff no record has it. |
| Router.Dashboard | frontend/src/router/index.js:60-70 | A user is sent to the home route of their first role, in the order teacher, student, admin, and to the fallback without one. |
| Router.BeforeEachAsWritten | frontend/src/router/index.js:47-91 | The guard as written sends an unauthenticated user on a protected route to /login, and a role mismatch to the user's dashboard. It sends an authenticated user on a guest route to their dashboard, or to `/` when they hold none of the roles. It proceeds exactly when none of these applies. |
| Router.BeforeEach | frontend/src/router/index.js:47-91 | The corrected guard is the same, except that an authenticated user without any of the three roles may stay on a guest route. |
| Router.GuardsAgreeForRoledOrGuestUsers | frontend/src/router/index.js:76-88 | Both guards agree for every user except an authenticated one holding none of the three roles. |
| Router.MetaTable | frontend/src/router/index.js:10-39 | `/` redirects to /login. The teacher and student dashboards require authentication and their role. The admin page names its role but does not require authentication, and the guard checks a route's role only when it requires authentication, so the admin role is never enforced. |
| Router.AdminRouteIsOpen | frontend/src/router/index.js:33-38 | Everyone, logged in or not, passes the guard on the admin page. |
| Router.RedirectTargetPasses | frontend/src/router/index.js:47-91 | Wherever the corrected guard redirects a user, the same user then passes the guard, so there is no redirect loop. |
| Router.RedirectTargetPassesAsWritten | frontend/src/router/index.js:47-91 | The guard as written has the same property for users who hold one of the roles or are logged out. |
| Router.RedirectLoopAsWritten | frontend/src/router/index.js:12-86 | With the guard as written, an authenticated user without any of the three roles goes from a dashboard to /login, then to `/`, which leads back to /login. |
| Router.RoleLessUserStaysOnLogin | frontend/src/router/index.js:51-72 | The corrected guard lets that user stay on /login. |
| Fixtures.SingleEvaluationScores80 | backend/tests/Service/ScoreCalculationServiceTest.php:58-72 | A result of 8 at weight 2 scores 80. |
| Fixtures.TwoEvaluationsScore68 | backend/tests/Service/ScoreCalculationServiceTest.php:74-91 | Results 8 at weight 2 and 6 at weight 3 score 68. |
| Fixtures.MissedEvaluationScores32 | backend/tests/Service/ScoreCalculationServiceTest.php:93-110 | A missed evaluation at weight 3 next to 8 at weight 2 scores 32. |
| Fixtures.RoundsToNearest67 | backend/tests/Service/ScoreCalculationServiceTest.php:112-129 | 66.67 % rounds to 67. |
| Fixtures.NoEvaluationsNoScore | backend/tests/Service/ScoreCalculationServiceTest.php:28-42 | No evaluations gives no score. |
| Fixtures.ZeroWeightNoScore | backend/tests/Service/ScoreCalculationServiceTest.php:44-56 | A zero total weight gives no score. |
| Fixtures.RankingIsDescending | backend/tests/Service/ScoreCalculationServiceTest.php:164-195 | Scores 70, 90, 50 in roster order rank as 90, 70, 50. |
| Fixtures.LowerBoundIsInclusive | backend/src/Service/ScoreCalculationService.php:55-57 | A lower bound of 70 keeps a score of exactly 70. |
| Fixtures.UpperBoundIsInclusive | backend/src/Service/ScoreCalculationService.php:59-61 | An upper bound of 70 keeps a score of exactly 70. |
| Fixtures.StudentsWithoutEvaluationsAreLeftOut | backend/tests/Service/ScoreCalculationServiceTest.php:143-162 | Students without a score are not listed. |
| Fixtures.WeightAboveRangeIsRejected | backend/tests/Controller/ApiControllerTest.php:262-282 | A weight of 25 violates exactly the weight range constraint. |

## Left out

- Floating point: results are exact hundredths and scores are computed on exact integer quotients. PHP's float division can put a score a hair off an exact `.5` boundary; the model rounds the exact value.
- The string storage of results: the result column holds text, and `(string)`/`(float)` conversions are not modelled. A result with more precision than hundredths is outside the model.
- `createdAt`, display fields (names, usernames, course name and description, teacher name) and the response timestamp format.
- Persistence, the entity manager, generated ids: a new evaluation's id is a parameter. The 500 response for an exception during persisting is not modelled.
- `json_decode` and PHP type coercion of the body: the decoded body is a `Payload`, and a falsy decode result is `Unreadable`.
- The `(float)` cast of query parameters: the query string arrives as numbers.
- `getCourses` and the admin, user and JWT endpoints, and the `EvaluationController` stub: they are outside the scoring core.
- The per-request cache of course scores in `getResults`: it memoises a pure function, so every row gets the same score as recomputing it would.
- ScoreCalculation.RankStudents: the order among equal scores is deliberately left open. The contract says sorted and a permutation, not which tie comes first.
- Users.ResolveActor: the user repository and the logged-in user are parameters; the security token itself is not modelled.
- Router.Lookup: paths are compared exactly. vue-router matches paths case-insensitively and accepts an optional trailing slash; those URL variants (`/Teacher/Dashboard`, `/teacher/dashboard/`) are not modelled, and the model finds no route for them.
- Router.BeforeEach: vue-router's own detection of infinite redirects and its history handling are not modelled; the guard is a decision function.
- AuthStore.SetToken: the token is a string and the user an optional record, so JavaScript-only calls are not modelled: `setToken(null)` would store the text "null", which a reload reads as a token, and `setUser(undefined)` would count as a present user. Nothing in the modelled code passes such values.
- AuthStore.Init: a stored user that is not valid JSON (which would throw) is read as no user.
- The demo data fixtures (named users and courses) are not modelled.
- Evaluations.GetResultAsWritten: an evaluation's result is kept as a number, and the model does not track whether it was set in memory or loaded from the database. The as-written getter is the in-memory reading. Every read of a stored row (scores, `getResults`) goes through `GetResult`, which is what the as-written getter answers for a loaded row.

## Findings

| source | as written | input that shows it | evidently intended | confidence | as-written member | corrected member |
|---|---|---|---|---|---|---|
| backend/src/Entity/Evaluation.php:55-58 | `getResult` tests the stored text for truthiness. `setResult(0)` stores the text `"0"`, which is falsy in PHP, so a result of 0 set in memory reads back as null. The 201 response of `createEvaluation` reads it before any reload, so it echoes `"result": null` for a submitted 0. A zero loaded from the database is the text `"0.00"`, which is truthy, so stored rows read back correctly. | `setResult(0)` then `getResult()`; or POST `{"result": 0, "weight": 1}` | return null only when no result is stored, so the 201 body echoes 0 | not executed | Evaluations.GetResultAsWritten (with Evaluations.ZeroResultReadsBackAsNull, TeacherController.ZeroResultEchoedAsNullAsWritten) | Evaluations.GetResult (with Evaluations.SetResultRoundTrip, TeacherController.CreateEvaluation, whose echo uses it) |
| frontend/src/router/index.js:76-86 | An authenticated user holding none of ROLE_TEACHER, ROLE_STUDENT or ROLE_ADMIN who lands on /login is sent to `/`. The route record redirects `/` to /login, so the navigation never settles. | a logged-in user whose roles are `["ROLE_USER"]` opening /teacher/dashboard | let such a user stay on the guest page | not executed | Router.BeforeEachAsWritten (with Router.RedirectLoopAsWritten) | Router.BeforeEach (with Router.RedirectTargetPasses, Router.RoleLessUserStaysOnLogin) |
