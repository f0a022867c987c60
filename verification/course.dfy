/**
  The Course entity as far as scoring needs it: its owner and its collection
  of evaluations (the inverse side of the evaluation's course reference), with
  the idempotent add/remove pair and the roster of students derived from it.
 */
module Courses {
  import opened Types
  import opened Seqs
  import opened Evaluations

  datatype Course = Course(id: CourseId, teacher: Option<UserId>, evaluations: seq<Evaluation>)

  /** The identities of a sequence of evaluations, position by position. */
  function Ids(evs: seq<Evaluation>): (ids: seq<EvalId>)
    ensures |ids| == |evs|
    ensures forall i :: 0 <= i < |evs| ==> ids[i] == evs[i].id
  {
    seq(|evs|, i requires 0 <= i < |evs| => evs[i].id)
  }

  /** The (nullable) students of a sequence of evaluations, position by position. */
  function StudentRefs(evs: seq<Evaluation>): (refs: seq<Option<UserId>>)
    ensures |refs| == |evs|
    ensures forall i :: 0 <= i < |evs| ==> refs[i] == evs[i].student
  {
    seq(|evs|, i requires 0 <= i < |evs| => evs[i].student)
  }

  /** The collection holds each evaluation object at most once. */
  predicate UniqueIds(c: Course) {
    NoDuplicates(Ids(c.evaluations))
  }

  /** Every evaluation in the collection points back at this course. */
  predicate BackReferences(c: Course) {
    forall i :: 0 <= i < |c.evaluations| ==> c.evaluations[i].course == Some(c.id)
  }

  /**
    `addEvaluation`: an evaluation already in the collection changes nothing;
    otherwise it is appended and its course reference is set to this course.
    Returns the updated course and the updated evaluation.
   */
  function AddEvaluation(c: Course, e: Evaluation): (r: (Course, Evaluation))
    ensures r.1.id == e.id && e.id in Ids(r.0.evaluations)
    ensures r.0.id == c.id && r.0.teacher == c.teacher
    ensures e.id in Ids(c.evaluations) ==> r == (c, e)
    ensures e.id !in Ids(c.evaluations) ==>
      r.1 == e.(course := Some(c.id)) && r.0.evaluations == c.evaluations + [r.1]
    ensures UniqueIds(c) ==> UniqueIds(r.0)
    ensures BackReferences(c) ==> BackReferences(r.0)
  {
    if e.id in Ids(c.evaluations) then (c, e)
    else
      var e' := e.(course := Some(c.id));
      var c' := c.(evaluations := c.evaluations + [e']);
      assert Ids(c'.evaluations) == Ids(c.evaluations) + [e.id];
      (c', e')
  }

  /** Adding the same evaluation a second time changes nothing. */
  lemma AddEvaluationIdempotent(c: Course, e: Evaluation)
    ensures AddEvaluation(AddEvaluation(c, e).0, AddEvaluation(c, e).1) == AddEvaluation(c, e)
  {
  }

  /** The collection without the first evaluation whose identity is `ref` (ArrayCollection::removeElement). */
  function RemoveFirst(evs: seq<Evaluation>, ref: EvalId): (r: seq<Evaluation>)
    ensures ref !in Ids(evs) ==> r == evs
    ensures ref in Ids(evs) ==>
      var k := FirstIndex(Ids(evs), ref); |r| == |evs| - 1 && r == evs[..k] + evs[k + 1..]
    ensures multiset(r) <= multiset(evs)
    ensures NoDuplicates(Ids(evs)) ==> ref !in Ids(r) && NoDuplicates(Ids(r))
  {
    if ref !in Ids(evs) then evs
    else
      var k := FirstIndex(Ids(evs), ref);
      var r := evs[..k] + evs[k + 1..];
      assert evs == evs[..k] + [evs[k]] + evs[k + 1..];
      assert Ids(r) == Ids(evs)[..k] + Ids(evs)[k + 1..];
      DropKeepsNoDuplicates(Ids(evs), k);
      r
  }

  /**
    `removeEvaluation`: when the evaluation is in the collection it is removed,
    and its course reference is cleared if it pointed at this course; an
    evaluation that is not in the collection changes nothing.
   */
  function RemoveEvaluation(c: Course, e: Evaluation): (r: (Course, Evaluation))
    ensures r.1.id == e.id && r.0.id == c.id && r.0.teacher == c.teacher
    ensures e.id !in Ids(c.evaluations) ==> r == (c, e)
    ensures e.id in Ids(c.evaluations) ==>
      |r.0.evaluations| == |c.evaluations| - 1 &&
      r.0 == c.(evaluations := RemoveFirst(c.evaluations, e.id)) &&
      r.1 == e.(course := if e.course == Some(c.id) then None else e.course)
    ensures UniqueIds(c) ==> e.id !in Ids(r.0.evaluations) && UniqueIds(r.0)
    ensures BackReferences(c) ==> BackReferences(r.0)
  {
    if e.id !in Ids(c.evaluations) then (c, e)
    else
      var c' := c.(evaluations := RemoveFirst(c.evaluations, e.id));
      assert forall i :: 0 <= i < |c'.evaluations| ==> c'.evaluations[i] in multiset(c.evaluations);
      var e' := if e.course == Some(c.id) then e.(course := None) else e;
      (c', e')
  }

  /** Removing a just-added evaluation restores the collection and leaves the evaluation without a course. */
  lemma {:induction false} AddThenRemove(c: Course, e: Evaluation)
    requires e.id !in Ids(c.evaluations)
    ensures RemoveEvaluation(AddEvaluation(c, e).0, AddEvaluation(c, e).1) == (c, e.(course := None))
  {
    var (c1, e1) := AddEvaluation(c, e);
    assert Ids(c1.evaluations) == Ids(c.evaluations) + [e.id];
    assert FirstIndex(Ids(c1.evaluations), e.id) == |c.evaluations|;
    assert c1.evaluations[..|c.evaluations|] == c.evaluations;
    assert c1.evaluations[|c.evaluations| + 1..] == [];
    assert RemoveFirst(c1.evaluations, e.id) == c.evaluations;
    assert e1.course == Some(c.id);
  }

  /** The index of the first evaluation of the course whose student is `s`. */
  function FirstEvaluationOf(c: Course, s: UserId): (k: nat)
    requires exists i :: 0 <= i < |c.evaluations| && c.evaluations[i].student == Some(s)
    ensures k < |c.evaluations| && c.evaluations[k].student == Some(s)
    ensures forall j :: 0 <= j < k ==> c.evaluations[j].student != Some(s)
  {
    FirstIndex(StudentRefs(c.evaluations), Some(s))
  }

  /**
    `getStudents`: every student who has an evaluation in the course, once,
    in the order of their first evaluation; an evaluation without a student
    is skipped.
   */
  function GetStudents(c: Course): (r: seq<UserId>)
    ensures NoDuplicates(r)
    ensures forall s :: s in r <==> exists i :: 0 <= i < |c.evaluations| && c.evaluations[i].student == Some(s)
    ensures forall i, j :: 0 <= i < j < |r| ==> FirstEvaluationOf(c, r[i]) < FirstEvaluationOf(c, r[j])
  {
    var refs := StudentRefs(c.evaluations);
    var r := DistinctPresent(refs);
    DistinctPresentInFirstOccurrenceOrder(refs);
    assert forall s :: Some(s) in refs <==> exists i :: 0 <= i < |c.evaluations| && c.evaluations[i].student == Some(s);
    r
  }

  /** A student whose evaluation is added to the course is on the roster afterwards. */
  lemma AddEvaluationEnrolsStudent(c: Course, e: Evaluation, s: UserId)
    requires e.student == Some(s)
    requires e.id in Ids(c.evaluations) ==> e in c.evaluations
    ensures s in GetStudents(AddEvaluation(c, e).0)
  {
    var c1 := AddEvaluation(c, e).0;
    if e.id !in Ids(c.evaluations) {
      assert c1.evaluations[|c.evaluations|] == e.(course := Some(c.id));
    } else {
      var k :| 0 <= k < |c.evaluations| && c.evaluations[k] == e;
      assert c1.evaluations[k].student == Some(s);
    }
  }
}
