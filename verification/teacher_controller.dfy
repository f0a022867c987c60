/**
  The teacher endpoints as decision functions over abstract lookups: the
  user and course repositories are maps from id to entity, the evaluation
  table is a sequence, and the request is reduced to the values the
  controller reads from it. The check order of `createEvaluation` decides
  which failure is reported when several apply.
 */
module TeacherController {
  import opened Types
  import opened Evaluations
  import opened EvaluationDtos
  import opened Courses
  import opened Users
  import opened Ranking
  import opened ScoreCalculation

  const TeacherNotFound: string := "Teacher not found"
  const CourseNotFound: string := "Course not found or access denied"
  const StudentNotFound: string := "Student not found"

  const LowerBoundParam: string := "score_lowerbound"
  const UpperBoundParam: string := "score_upperbound"

  /**
    The request body after `json_decode`: `Unreadable` when decoding yields a
    falsy value (malformed JSON, an empty body, an empty object); otherwise
    the three fields, an absent field read as null.
   */
  datatype Payload = Unreadable | Fields(result: Option<int>, weight: Option<int>, message: Option<string>)

  /** One student line of the course listing (display names are not modelled). */
  datatype StudentRow = StudentRow(id: UserId, score: int, courseId: CourseId)

  /** The body of a 201 response (display names and the timestamp are not modelled). */
  datatype Echo = Echo(id: EvalId, result: Option<int>, weight: Option<int>, message: Option<string>, studentId: UserId, courseId: CourseId)

  datatype Response =
    | NotFound(error: string)
    | InvalidJson
    | ValidationFailed(errors: map<Field, string>)
    | StudentList(rows: seq<StudentRow>)
    | Created(echo: Echo)

  /** The HTTP status of each response. */
  function Status(r: Response): int {
    match r
    case NotFound(_) => 404
    case InvalidJson => 400
    case ValidationFailed(_) => 400
    case StudentList(_) => 200
    case Created(_) => 201
  }

  /** The ownership gate: the course exists and its teacher is the acting teacher. */
  function OwnedCourse(courses: map<CourseId, Course>, courseId: CourseId, teacher: User): (r: Option<Course>)
    ensures r.Some? <==> courseId in courses && courses[courseId].teacher == Some(teacher.id)
    ensures r.Some? ==> r.value == courses[courseId]
  {
    if courseId !in courses || courses[courseId].teacher != Some(teacher.id) then None
    else Some(courses[courseId])
  }

  /** A score bound from the query string: absent means no bound, a present value is passed through. */
  function QueryBound(query: map<string, real>, name: string): (b: Option<real>)
    ensures b.Some? <==> name in query
    ensures b.Some? ==> b.value == query[name]
  {
    if name in query then Some(query[name]) else None
  }

  /** The listing keeps the service's order and copies each score unchanged. */
  function ToStudentRows(ranked: seq<Entry>, courseId: CourseId): (rows: seq<StudentRow>)
    ensures |rows| == |ranked|
    ensures forall i :: 0 <= i < |ranked| ==> rows[i] == StudentRow(ranked[i].student, ranked[i].score, courseId)
  {
    seq(|ranked|, i requires 0 <= i < |ranked| => StudentRow(ranked[i].student, ranked[i].score, courseId))
  }

  /**
    `getCourseStudents`: 404 unless a teacher is acting and owns the course;
    otherwise the course's ranked students, bounded by the query's optional
    `score_lowerbound` and `score_upperbound`.
   */
  function GetCourseStudents(
    users: map<UserId, User>, courses: map<CourseId, Course>, db: seq<Evaluation>,
    current: Option<User>, id: Option<UserId>, courseId: CourseId, query: map<string, real>): (r: Response)
    ensures r.NotFound? || r.StudentList?
    ensures TeacherFromIdOrToken(users, current, id).None? ==> r == NotFound(TeacherNotFound)
    ensures TeacherFromIdOrToken(users, current, id).Some? ==>
      var teacher := TeacherFromIdOrToken(users, current, id).value;
      (OwnedCourse(courses, courseId, teacher).None? ==> r == NotFound(CourseNotFound))
      && (OwnedCourse(courses, courseId, teacher).Some? ==>
            var ranked := GetStudentsWithScores(db, courses[courseId],
              QueryBound(query, LowerBoundParam), QueryBound(query, UpperBoundParam));
            && r.StudentList?
            && SortedDesc(ranked)
            && |r.rows| == |ranked|
            && forall i :: 0 <= i < |ranked| ==>
                 r.rows[i].id == ranked[i].student && r.rows[i].score == ranked[i].score && r.rows[i].courseId == courseId)
  {
    match TeacherFromIdOrToken(users, current, id)
    case None => NotFound(TeacherNotFound)
    case Some(teacher) =>
      match OwnedCourse(courses, courseId, teacher)
      case None => NotFound(CourseNotFound)
      case Some(course) =>
        var lower := QueryBound(query, LowerBoundParam);
        var upper := QueryBound(query, UpperBoundParam);
        StudentList(ToStudentRows(GetStudentsWithScores(db, course, lower, upper), courseId))
  }

  /** The evaluation built from a validated DTO for a student in a course. */
  function BuildEvaluation(newId: EvalId, d: EvaluationDto, student: UserId, course: CourseId): (e: Evaluation)
    requires IsValid(d)
    ensures Valid(e)
    ensures e.id == newId && GetResult(e) == d.result && GetWeight(e) == d.weight && e.message == d.message
    ensures e.student == Some(student) && e.course == Some(course)
  {
    var e := SetWeight(SetResult(NewEvaluation(newId), d.result.value), d.weight.value);
    e.(message := d.message, student := Some(student), course := Some(course))
  }

  /** The target of a new evaluation: an existing user with the student role. */
  predicate IsStudentTarget(users: map<UserId, User>, studentId: UserId) {
    studentId in users && RoleStudent in users[studentId].roles
  }

  /** Every check before the body is read passes. */
  predicate Admitted(users: map<UserId, User>, courses: map<CourseId, Course>, current: Option<User>, id: Option<UserId>, courseId: CourseId, studentId: UserId) {
    && TeacherFromIdOrToken(users, current, id).Some?
    && OwnedCourse(courses, courseId, TeacherFromIdOrToken(users, current, id).value).Some?
    && IsStudentTarget(users, studentId)
  }

  /**
    `createEvaluation`: checks in order the acting teacher, the ownership of
    the course, the target student (all 404), the body (400 "Invalid JSON")
    and the constraints (400 with the error map); only when all pass is the
    evaluation appended to the table and echoed with 201. Returns the response
    and the evaluation table afterwards.
   */
  function CreateEvaluation(
    users: map<UserId, User>, courses: map<CourseId, Course>, db: seq<Evaluation>,
    current: Option<User>, id: Option<UserId>, courseId: CourseId, studentId: UserId,
    payload: Payload, newId: EvalId): (r: (Response, seq<Evaluation>))
    ensures !r.0.Created? ==> r.1 == db
    ensures TeacherFromIdOrToken(users, current, id).None? ==> r.0 == NotFound(TeacherNotFound)
    ensures (TeacherFromIdOrToken(users, current, id).Some? &&
             OwnedCourse(courses, courseId, TeacherFromIdOrToken(users, current, id).value).None?)
            ==> r.0 == NotFound(CourseNotFound)
    ensures (TeacherFromIdOrToken(users, current, id).Some? &&
             OwnedCourse(courses, courseId, TeacherFromIdOrToken(users, current, id).value).Some? &&
             !IsStudentTarget(users, studentId))
            ==> r.0 == NotFound(StudentNotFound)
    ensures Admitted(users, courses, current, id, courseId, studentId) && payload.Unreadable? ==> r.0 == InvalidJson
    ensures Admitted(users, courses, current, id, courseId, studentId) && payload.Fields? ==>
      var d := EvaluationDto(payload.result, payload.weight, payload.message);
      (!IsValid(d) ==> r.0 == ValidationFailed(ErrorMap(Violations(d))))
    ensures r.0.Created? <==>
      Admitted(users, courses, current, id, courseId, studentId) && payload.Fields? &&
      IsValid(EvaluationDto(payload.result, payload.weight, payload.message))
    ensures r.0.Created? ==>
      && Status(r.0) == 201
      && |r.1| == |db| + 1 && r.1[..|db|] == db && Valid(r.1[|db|])
      && r.0.echo == Echo(newId, payload.result, payload.weight, payload.message, studentId, courseId)
    ensures r.0.Created? ==>
      var stored := r.1[|db|];
      && stored.id == newId
      && GetResult(stored) == payload.result && GetWeight(stored) == payload.weight
      && stored.message == payload.message
      && stored.student == Some(studentId) && stored.course == Some(courseId)
  {
    match TeacherFromIdOrToken(users, current, id)
    case None => (NotFound(TeacherNotFound), db)
    case Some(teacher) =>
      match OwnedCourse(courses, courseId, teacher)
      case None => (NotFound(CourseNotFound), db)
      case Some(course) =>
        if !IsStudentTarget(users, studentId) then (NotFound(StudentNotFound), db)
        else
          match payload
          case Unreadable => (InvalidJson, db)
          case Fields(result, weight, message) =>
            var d := EvaluationDto(result, weight, message);
            var violations := Violations(d);
            if |violations| > 0 then (ValidationFailed(ErrorMap(violations)), db)
            else
              var e := BuildEvaluation(newId, d, studentId, courseId);
              var db' := db + [e];
              assert db'[..|db|] == db;
              (Created(Echo(e.id, GetResult(e), GetWeight(e), e.message, studentId, courseId)), db')
  }

  /**
    With the result getter as written, a submitted result of 0 would be
    echoed as null: the new evaluation's stored 0 reads back as no result.
   */
  lemma ZeroResultEchoedAsNullAsWritten(newId: EvalId, weight: int, student: UserId, course: CourseId)
    requires WeightInRange(weight)
    ensures GetResultAsWritten(BuildEvaluation(newId, EvaluationDto(Some(0), Some(weight), None), student, course)) == None
    ensures GetResult(BuildEvaluation(newId, EvaluationDto(Some(0), Some(weight), None), student, course)) == Some(0)
  {
  }
}
