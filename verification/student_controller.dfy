/**
  The student results endpoint as a decision function: resolve the acting
  student, fetch all their evaluations, attach each course's overall score,
  and group the evaluations per course in order of first appearance.
  Display-only fields (names, descriptions, timestamps) are not modelled.
 */
module StudentController {
  import opened Types
  import opened Seqs
  import opened Evaluations
  import opened Users
  import opened ScoreCalculation

  /** One evaluation as listed to the student, without its course. */
  datatype EvalView = EvalView(id: EvalId, result: Option<int>, weight: Option<int>, message: Option<string>, participated: bool)

  /** One evaluation together with its course and that course's overall score, before grouping. */
  datatype Row = Row(view: EvalView, course: CourseId, overallScore: Option<int>)

  /** A course header with the evaluations listed under it. */
  datatype CourseGroup = CourseGroup(course: CourseId, overallScore: Option<int>, evaluations: seq<EvalView>)

  datatype StudentResults =
    | StudentNotFound
    | Results(studentId: UserId, resultsByCourse: seq<CourseGroup>, totalEvaluations: nat)

  /** `findBy(['student' => s])`: all evaluations of one student, in repository order. */
  function FindByStudent(db: seq<Evaluation>, s: UserId): (r: seq<Evaluation>)
    ensures forall e :: e in r <==> e in db && e.student == Some(s)
    ensures |r| <= |db|
  {
    if |db| == 0 then []
    else
      var rest := FindByStudent(db[1..], s);
      assert db == [db[0]] + db[1..];
      if db[0].student == Some(s) then [db[0]] + rest else rest
  }

  /** The lookup keeps every evaluation of the student exactly as often as the table holds it, and nothing else. */
  lemma {:induction false} FindByStudentCounts(db: seq<Evaluation>, s: UserId)
    ensures forall e :: multiset(FindByStudent(db, s))[e] == if e.student == Some(s) then multiset(db)[e] else 0
  {
    if |db| > 0 {
      FindByStudentCounts(db[1..], s);
      assert db == [db[0]] + db[1..];
    }
  }

  function View(e: Evaluation): EvalView {
    EvalView(e.id, GetResult(e), GetWeight(e), e.message, HasParticipated(e))
  }

  function Views(evs: seq<Evaluation>): (vs: seq<EvalView>)
    ensures |vs| == |evs|
    ensures forall i :: 0 <= i < |evs| ==> vs[i] == View(evs[i])
  {
    seq(|evs|, i requires 0 <= i < |evs| => View(evs[i]))
  }

  /** The evaluations of course `c`, in order. */
  function InCourse(evs: seq<Evaluation>, c: CourseId): (r: seq<Evaluation>)
    ensures forall e :: e in r <==> e in evs && e.course == Some(c)
  {
    if |evs| == 0 then []
    else
      var pre := evs[..|evs| - 1];
      var last := evs[|evs| - 1];
      assert evs == pre + [last];
      InCourse(pre, c) + (if last.course == Some(c) then [last] else [])
  }

  /** The filter keeps every evaluation of course `c` exactly as often as it occurs, and nothing else. */
  lemma {:induction false} InCourseCounts(evs: seq<Evaluation>, c: CourseId)
    ensures forall e :: multiset(InCourse(evs, c))[e] == if e.course == Some(c) then multiset(evs)[e] else 0
  {
    if |evs| > 0 {
      var pre := evs[..|evs| - 1];
      InCourseCounts(pre, c);
      assert evs == pre + [evs[|evs| - 1]];
    }
  }

  /** The (nullable) courses of a sequence of evaluations, position by position. */
  function CourseRefs(evs: seq<Evaluation>): (refs: seq<Option<CourseId>>)
    ensures |refs| == |evs|
    ensures forall i :: 0 <= i < |evs| ==> refs[i] == evs[i].course
  {
    seq(|evs|, i requires 0 <= i < |evs| => evs[i].course)
  }

  /** The first loop: one row per evaluation, carrying its course and the course's overall score. */
  function ToRows(db: seq<Evaluation>, s: UserId, evs: seq<Evaluation>): (rows: seq<Row>)
    requires forall e :: e in evs ==> e.course.Some?
    ensures |rows| == |evs|
    ensures forall i :: 0 <= i < |evs| ==>
      rows[i] == Row(View(evs[i]), evs[i].course.value, StudentScore(db, s, evs[i].course.value))
  {
    seq(|evs|, i requires 0 <= i < |evs| => Row(View(evs[i]), evs[i].course.value, StudentScore(db, s, evs[i].course.value)))
  }

  function CourseIds(gs: seq<CourseGroup>): (ids: seq<CourseId>)
    ensures |ids| == |gs|
    ensures forall k :: 0 <= k < |gs| ==> ids[k] == gs[k].course
  {
    seq(|gs|, k requires 0 <= k < |gs| => gs[k].course)
  }

  /** The total number of evaluations listed over all groups. */
  function TotalSize(gs: seq<CourseGroup>): nat {
    if |gs| == 0 then 0 else |gs[0].evaluations| + TotalSize(gs[1..])
  }

  lemma {:induction false} TotalSizeUpdate(gs: seq<CourseGroup>, k: nat, g: CourseGroup)
    requires k < |gs|
    ensures TotalSize(gs[k := g]) == TotalSize(gs) - |gs[k].evaluations| + |g.evaluations|
    decreases k
  {
    if k > 0 {
      assert gs[k := g][1..] == gs[1..][k - 1 := g];
      TotalSizeUpdate(gs[1..], k - 1, g);
    }
  }

  lemma {:induction false} TotalSizeAppend(gs: seq<CourseGroup>, g: CourseGroup)
    ensures TotalSize(gs + [g]) == TotalSize(gs) + |g.evaluations|
    decreases |gs|
  {
    if |gs| == 0 {
      assert gs + [g] == [g];
      assert [g][1..] == [];
    } else {
      assert (gs + [g])[1..] == gs[1..] + [g];
      TotalSizeAppend(gs[1..], g);
    }
  }

  /**
    The second loop's step: the row's view joins the group of its course,
    opening a new group (headed by the row's course data) at the end when the
    course has none yet.
   */
  function AddToGroups(gs: seq<CourseGroup>, row: Row): seq<CourseGroup> {
    if row.course in CourseIds(gs) then
      var k := FirstIndex(CourseIds(gs), row.course);
      gs[k := gs[k].(evaluations := gs[k].evaluations + [row.view])]
    else
      gs + [CourseGroup(row.course, row.overallScore, [row.view])]
  }

  /** The second loop: rows grouped per course, groups in order of first appearance. */
  function Group(rows: seq<Row>): (gs: seq<CourseGroup>)
    ensures |gs| <= |rows|
    ensures forall i :: 0 <= i < |gs| ==> |gs[i].evaluations| > 0
  {
    if |rows| == 0 then [] else AddToGroups(Group(rows[..|rows| - 1]), rows[|rows| - 1])
  }

  /** The courses of a sequence of rows, as present values. */
  function RowCourses(rows: seq<Row>): (keys: seq<Option<CourseId>>)
    ensures |keys| == |rows|
    ensures forall i :: 0 <= i < |rows| ==> keys[i] == Some(rows[i].course)
  {
    seq(|rows|, i requires 0 <= i < |rows| => Some(rows[i].course))
  }

  /** The views of the rows of course `c`, in order. */
  function RowViews(rows: seq<Row>, c: CourseId): seq<EvalView> {
    if |rows| == 0 then []
    else RowViews(rows[..|rows| - 1], c) + (if rows[|rows| - 1].course == c then [rows[|rows| - 1].view] else [])
  }

  /** No row of a course that never occurs contributes a view. */
  lemma {:induction false} RowViewsOfAbsentCourse(rows: seq<Row>, c: CourseId)
    requires forall i :: 0 <= i < |rows| ==> rows[i].course != c
    ensures RowViews(rows, c) == []
  {
    if |rows| > 0 {
      RowViewsOfAbsentCourse(rows[..|rows| - 1], c);
    }
  }

  /** One step of the grouping adds the row's course to the group ids unless it is there already. */
  lemma AddToGroupsKeys(gs: seq<CourseGroup>, row: Row)
    ensures CourseIds(AddToGroups(gs, row)) ==
      if row.course in CourseIds(gs) then CourseIds(gs) else CourseIds(gs) + [row.course]
  {
  }

  /** The distinct courses of the rows grow by the last row's course unless it was seen before. */
  lemma RowCoursesStep(rows: seq<Row>)
    requires |rows| > 0
    ensures var d := DistinctPresent(RowCourses(rows[..|rows| - 1]));
      DistinctPresent(RowCourses(rows)) == if rows[|rows| - 1].course in d then d else d + [rows[|rows| - 1].course]
  {
    var keys := RowCourses(rows);
    assert keys[..|rows| - 1] == RowCourses(rows[..|rows| - 1]);
    assert keys[|rows| - 1] == Some(rows[|rows| - 1].course);
  }

  /** Group ids follow the courses' first appearances. */
  lemma {:induction false} GroupKeys(rows: seq<Row>)
    ensures CourseIds(Group(rows)) == DistinctPresent(RowCourses(rows))
  {
    if |rows| > 0 {
      var pre := rows[..|rows| - 1];
      GroupKeys(pre);
      RowCoursesStep(rows);
      AddToGroupsKeys(Group(pre), rows[|rows| - 1]);
    }
  }

  /** Every row's course has a group. */
  lemma RowCourseIsGrouped(rows: seq<Row>, i: nat)
    requires i < |rows|
    ensures rows[i].course in CourseIds(Group(rows))
  {
    GroupKeys(rows);
    assert RowCourses(rows)[i] == Some(rows[i].course);
  }

  /** Each group lists exactly the views of its course's rows, in order. */
  lemma {:induction false} GroupContents(rows: seq<Row>)
    ensures forall k :: 0 <= k < |Group(rows)| ==> Group(rows)[k].evaluations == RowViews(rows, Group(rows)[k].course)
  {
    if |rows| > 0 {
      var pre := rows[..|rows| - 1];
      var row := rows[|rows| - 1];
      GroupContents(pre);
      GroupKeys(pre);
      var gs := Group(pre);
      var gs' := Group(rows);
      assert gs' == AddToGroups(gs, row);
      assert NoDuplicates(CourseIds(gs));
      forall k | 0 <= k < |gs'|
        ensures gs'[k].evaluations == RowViews(rows, gs'[k].course)
      {
        assert RowViews(rows, gs'[k].course) ==
          RowViews(pre, gs'[k].course) + (if row.course == gs'[k].course then [row.view] else []);
        if row.course !in CourseIds(gs) && k == |gs| {
          forall i | 0 <= i < |pre|
            ensures pre[i].course != row.course
          {
            RowCourseIsGrouped(pre, i);
          }
          RowViewsOfAbsentCourse(pre, row.course);
        } else if row.course in CourseIds(gs) && k == FirstIndex(CourseIds(gs), row.course) {
        } else {
          assert gs'[k] == gs[k];
          assert CourseIds(gs)[k] == gs[k].course;
        }
      }
    }
  }

  /** The group sizes add up to the number of rows. */
  lemma {:induction false} GroupSize(rows: seq<Row>)
    ensures TotalSize(Group(rows)) == |rows|
  {
    if |rows| > 0 {
      var pre := rows[..|rows| - 1];
      var row := rows[|rows| - 1];
      GroupSize(pre);
      var gs := Group(pre);
      if row.course in CourseIds(gs) {
        var k := FirstIndex(CourseIds(gs), row.course);
        TotalSizeUpdate(gs, k, gs[k].(evaluations := gs[k].evaluations + [row.view]));
      } else {
        TotalSizeAppend(gs, CourseGroup(row.course, row.overallScore, [row.view]));
      }
    }
  }

  /** When every row carries its course's overall score, so does every group header. */
  lemma {:induction false} GroupHeaders(rows: seq<Row>, db: seq<Evaluation>, s: UserId)
    requires forall i :: 0 <= i < |rows| ==> rows[i].overallScore == StudentScore(db, s, rows[i].course)
    ensures forall k :: 0 <= k < |Group(rows)| ==> Group(rows)[k].overallScore == StudentScore(db, s, Group(rows)[k].course)
  {
    if |rows| > 0 {
      var pre := rows[..|rows| - 1];
      GroupHeaders(pre, db, s);
    }
  }

  /** Rows built from evaluations list, per course, exactly the views of that course's evaluations. */
  lemma {:induction false} RowViewsOfEvaluations(db: seq<Evaluation>, s: UserId, evs: seq<Evaluation>, c: CourseId)
    requires forall e :: e in evs ==> e.course.Some?
    ensures RowViews(ToRows(db, s, evs), c) == Views(InCourse(evs, c))
  {
    var rows := ToRows(db, s, evs);
    if |evs| > 0 {
      var pre := evs[..|evs| - 1];
      var last := evs[|evs| - 1];
      assert rows[..|rows| - 1] == ToRows(db, s, pre);
      assert rows[|rows| - 1].view == View(last);
      RowViewsOfEvaluations(db, s, pre, c);
      var kept := if last.course == Some(c) then [last] else [];
      InCourseStep(evs, c);
      ViewsConcat(InCourse(pre, c), kept);
      assert RowViews(rows, c) == RowViews(ToRows(db, s, pre), c) + (if last.course == Some(c) then [View(last)] else []);
      assert Views(kept) == (if last.course == Some(c) then [View(last)] else []);
    } else {
      assert rows == [] && InCourse(evs, c) == [];
    }
  }

  /** One step of the course filter: the last evaluation is kept exactly when it is of course `c`. */
  lemma InCourseStep(evs: seq<Evaluation>, c: CourseId)
    requires |evs| > 0
    ensures InCourse(evs, c) == InCourse(evs[..|evs| - 1], c) + (if evs[|evs| - 1].course == Some(c) then [evs[|evs| - 1]] else [])
  {
  }

  lemma ViewsConcat(a: seq<Evaluation>, b: seq<Evaluation>)
    ensures Views(a + b) == Views(a) + Views(b)
  {
  }

  /**
    The 200 body of `getResults` for student `s`: the student's evaluations
    grouped per course, each course once in order of its first evaluation,
    each group listing exactly that course's evaluations in order under the
    course's overall score, and `total_evaluations` counting them all.
   */
  function ResultsOf(db: seq<Evaluation>, s: UserId): (r: StudentResults)
    requires forall e :: e in db ==> e.course.Some?
    ensures r.Results?
    ensures
      var evs := FindByStudent(db, s);
      && r.studentId == s
      && r.totalEvaluations == |evs|
      && TotalSize(r.resultsByCourse) == r.totalEvaluations
      && CourseIds(r.resultsByCourse) == DistinctPresent(CourseRefs(evs))
      && (forall k :: 0 <= k < |r.resultsByCourse| ==>
            && r.resultsByCourse[k].overallScore == StudentScore(db, s, r.resultsByCourse[k].course)
            && r.resultsByCourse[k].evaluations == Views(InCourse(evs, r.resultsByCourse[k].course)))
  {
    var evs := FindByStudent(db, s);
    var rows := ToRows(db, s, evs);
    var groups := Group(rows);
    GroupKeys(rows);
    GroupSize(rows);
    GroupContents(rows);
    GroupHeaders(rows, db, s);
    assert RowCourses(rows) == CourseRefs(evs);
    assert forall c :: RowViews(rows, c) == Views(InCourse(evs, c)) by {
      forall c
        ensures RowViews(rows, c) == Views(InCourse(evs, c))
      {
        RowViewsOfEvaluations(db, s, evs, c);
      }
    }
    Results(s, groups, |rows|)
  }

  /** `getResults`: 404 when no student is acting, otherwise the acting student's grouped results. */
  function GetResults(users: map<UserId, User>, db: seq<Evaluation>, current: Option<User>, id: Option<UserId>): (r: StudentResults)
    requires forall e :: e in db ==> e.course.Some?
    ensures r.StudentNotFound? <==> StudentFromIdOrToken(users, current, id).None?
    ensures r.Results? ==>
      var s := StudentFromIdOrToken(users, current, id).value;
      var evs := FindByStudent(db, s.id);
      && r.studentId == s.id
      && r.totalEvaluations == |evs|
      && TotalSize(r.resultsByCourse) == r.totalEvaluations
      && CourseIds(r.resultsByCourse) == DistinctPresent(CourseRefs(evs))
      && (forall k :: 0 <= k < |r.resultsByCourse| ==>
            && r.resultsByCourse[k].overallScore == StudentScore(db, s.id, r.resultsByCourse[k].course)
            && r.resultsByCourse[k].evaluations == Views(InCourse(evs, r.resultsByCourse[k].course)))
  {
    match StudentFromIdOrToken(users, current, id)
    case None => StudentNotFound
    case Some(s) => ResultsOf(db, s.id)
  }
}
