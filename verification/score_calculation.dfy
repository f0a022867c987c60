/**
  The score service. `Score` reduces one student's evaluations in one course
  to a rounded percentage, or to "no score"; `RankStudents` scores a course's
  roster, drops students without a score or outside the optional inclusive
  bounds, and sorts the rest by descending score.

  All arithmetic is exact: a result is in hundredths, so
  `(sum result*weight) / (sum 10*weight) * 100` is the integer quotient
  `Numerator / Denominator` below, rounded half away from zero.
 */
module ScoreCalculation {
  import opened Types
  import opened Seqs
  import opened Rounding
  import opened Evaluations
  import opened Courses
  import opened Ranking

  /** The sum of `f` over a sequence of evaluations. */
  function Sum(evs: seq<Evaluation>, f: Evaluation -> int): int {
    if |evs| == 0 then 0 else f(evs[0]) + Sum(evs[1..], f)
  }

  /** Sums split over concatenation. */
  lemma {:induction false} SumConcat(a: seq<Evaluation>, b: seq<Evaluation>, f: Evaluation -> int)
    ensures Sum(a + b, f) == Sum(a, f) + Sum(b, f)
    decreases |a|
  {
    if |a| == 0 {
      assert a + b == b;
    } else {
      assert (a + b)[0] == a[0];
      assert (a + b)[1..] == a[1..] + b;
      SumConcat(a[1..], b, f);
    }
  }

  /** The sum over one evaluation is its own value. */
  lemma SumSingleton(e: Evaluation, f: Evaluation -> int)
    ensures Sum([e], f) == f(e)
  {
    assert [e][1..] == [];
  }

  /** Taking one evaluation out of a sequence takes its value out of the sum. */
  lemma {:induction false} SumRemove(b: seq<Evaluation>, k: nat, f: Evaluation -> int)
    requires k < |b|
    ensures Sum(b, f) == f(b[k]) + Sum(b[..k] + b[k + 1..], f)
  {
    var pre, x, post := b[..k], b[k], b[k + 1..];
    assert b == (pre + [x]) + post;
    SumConcat(pre + [x], post, f);
    SumConcat(pre, [x], f);
    SumConcat(pre, post, f);
    SumSingleton(x, f);
  }

  /** Taking one element out of a sequence takes it out of the multiset. */
  lemma MultisetRemove(b: seq<Evaluation>, k: nat)
    requires k < |b|
    ensures multiset(b) == multiset(b[..k] + b[k + 1..]) + multiset{b[k]}
  {
    assert b == b[..k] + [b[k]] + b[k + 1..];
    assert multiset(b) == multiset(b[..k]) + multiset{b[k]} + multiset(b[k + 1..]);
  }

  /** Multiset union with one element cancels. */
  lemma CancelOne(p: multiset<Evaluation>, q: multiset<Evaluation>, x: Evaluation)
    requires p + multiset{x} == q + multiset{x}
    ensures p == q
  {
    assert forall y :: p[y] == (p + multiset{x})[y] - multiset{x}[y];
  }

  /** A sum does not depend on the order of the evaluations. */
  lemma {:induction false} SumPermutation(a: seq<Evaluation>, b: seq<Evaluation>, f: Evaluation -> int)
    requires multiset(a) == multiset(b)
    ensures Sum(a, f) == Sum(b, f)
    decreases |a|
  {
    if |a| > 0 {
      assert a[0] in multiset(b);
      var k := FirstIndex(b, a[0]);
      var rest := b[..k] + b[k + 1..];
      MultisetRemove(b, k);
      assert a == [a[0]] + a[1..];
      assert multiset(a) == multiset(a[1..]) + multiset{a[0]};
      CancelOne(multiset(a[1..]), multiset(rest), a[0]);
      SumPermutation(a[1..], rest, f);
      SumRemove(b, k, f);
    }
  }

  /** Sum of `result * weight` over the participated evaluations, in hundredths. */
  function Numerator(evs: seq<Evaluation>): int {
    Sum(evs, Contribution)
  }

  /** Sum of `10 * weight` over all evaluations: the attainable maximum. */
  function Denominator(evs: seq<Evaluation>): int {
    Sum(evs, MaxContribution)
  }

  /**
    `calculateStudentScore` on the evaluations the repository returned: no
    score for an empty list or a zero total weight, otherwise the percentage
    `Numerator / Denominator` rounded half away from zero.
   */
  function Score(evs: seq<Evaluation>): (r: Option<int>)
    ensures |evs| == 0 ==> r.None?
    ensures |evs| > 0 ==> (r.None? <==> Denominator(evs) == 0)
    ensures r.Some? && Denominator(evs) > 0 ==> RoundsHalfAwayTo(Numerator(evs), Denominator(evs), r.value)
    ensures r.Some? && Denominator(evs) < 0 ==> RoundsHalfAwayTo(-Numerator(evs), -Denominator(evs), r.value)
  {
    if |evs| == 0 then None
    else if Denominator(evs) == 0 then None
    else Some(RoundHalfAway(Numerator(evs), Denominator(evs)))
  }

  /**
    The service's loop: one pass accumulating the weighted total (participated
    evaluations only) and the maximum total (every evaluation), then the
    zero-total guard and the rounding.
   */
  method CalculateStudentScore(evs: seq<Evaluation>) returns (score: Option<int>)
    ensures score == Score(evs)
  {
    if |evs| == 0 {
      return None;
    }
    var totalWeightedScore := 0;
    var totalMaxScore := 0;
    var i := 0;
    while i < |evs|
      invariant 0 <= i <= |evs|
      invariant totalWeightedScore == Numerator(evs[..i])
      invariant totalMaxScore == Denominator(evs[..i])
    {
      var e := evs[i];
      if HasParticipated(e) {
        totalWeightedScore := totalWeightedScore + GetResult(e).GetOr(0) * WeightValue(e);
      }
      totalMaxScore := totalMaxScore + 10 * WeightValue(e);
      assert evs[..i + 1] == evs[..i] + [e];
      SumConcat(evs[..i], [e], Contribution);
      SumConcat(evs[..i], [e], MaxContribution);
      i := i + 1;
    }
    assert evs[..i] == evs;
    if totalMaxScore == 0 {
      return None;
    }
    return Some(RoundHalfAway(totalWeightedScore, totalMaxScore));
  }

  /** The order in which the repository returns the evaluations does not change the score. */
  lemma ScoreOrderIndependent(a: seq<Evaluation>, b: seq<Evaluation>)
    requires multiset(a) == multiset(b)
    ensures Score(a) == Score(b)
  {
    SumPermutation(a, b, Contribution);
    SumPermutation(a, b, MaxContribution);
    assert |a| == |multiset(a)| == |multiset(b)| == |b|;
  }

  /** Over evaluations within the validated ranges, `0 <= Numerator <= 100 * Denominator` and every evaluation adds at least 10 to the denominator. */
  lemma {:induction false} TotalsBounds(evs: seq<Evaluation>)
    requires forall e :: e in evs ==> RangesHold(e)
    ensures 0 <= Numerator(evs) <= 100 * Denominator(evs)
    ensures Denominator(evs) >= 10 * |evs|
  {
    if |evs| > 0 {
      ValidContributionBounds(evs[0]);
      TotalsBounds(evs[1..]);
    }
  }

  /**
    For evaluations within the validated ranges (result -1 .. 10, weight
    1 .. 19) a non-empty list always has a score, and it lies in 0 .. 100.
   */
  lemma ScoreIsPercentage(evs: seq<Evaluation>)
    requires forall e :: e in evs ==> RangesHold(e)
    requires |evs| > 0
    ensures Score(evs).Some?
    ensures 0 <= Score(evs).value <= 100
  {
    TotalsBounds(evs);
    RoundingStaysInRange(Numerator(evs), Denominator(evs), 0, 100);
  }

  /** A single evaluation with full marks scores 100, whatever its positive weight. */
  lemma FullMarksScoreHundred(e: Evaluation)
    requires e.stored == Some(1000) && e.weight.Some? && e.weight.value > 0
    ensures Score([e]) == Some(100)
  {
    var w := e.weight.value;
    SumSingleton(e, Contribution);
    SumSingleton(e, MaxContribution);
    RoundingIsUnique(1000 * w, 10 * w, 100, Score([e]).value);
  }

  /** A single absence scores 0, not "no score", whatever its positive weight. */
  lemma AbsenceScoresZero(e: Evaluation)
    requires e.stored == Some(-100) && e.weight.Some? && e.weight.value > 0
    ensures Score([e]) == Some(0)
  {
    var w := e.weight.value;
    SumSingleton(e, Contribution);
    SumSingleton(e, MaxContribution);
    RoundingIsUnique(0, 10 * w, 0, Score([e]).value);
  }

  /**
    An absence added to a list leaves the numerator alone and raises the
    denominator by ten per unit of weight.
   */
  lemma AbsenceOnlyRaisesDenominator(evs: seq<Evaluation>, e: Evaluation)
    requires !HasParticipated(e)
    ensures Numerator(evs + [e]) == Numerator(evs)
    ensures Denominator(evs + [e]) == Denominator(evs) + 10 * WeightValue(e)
  {
    SumConcat(evs, [e], Contribution);
    SumConcat(evs, [e], MaxContribution);
    SumSingleton(e, Contribution);
    SumSingleton(e, MaxContribution);
  }

  /** `findBy(['student' => s, 'course' => c])`: the repository's evaluations of one student in one course, in repository order. */
  function FindBy(db: seq<Evaluation>, s: UserId, c: CourseId): (r: seq<Evaluation>)
    ensures forall e :: e in r <==> e in db && e.student == Some(s) && e.course == Some(c)
    ensures |r| <= |db|
  {
    if |db| == 0 then []
    else
      var rest := FindBy(db[1..], s, c);
      assert db == [db[0]] + db[1..];
      if db[0].student == Some(s) && db[0].course == Some(c) then [db[0]] + rest else rest
  }

  /** The lookup keeps every matching evaluation exactly as often as the table holds it, and nothing else. */
  lemma {:induction false} FindByCounts(db: seq<Evaluation>, s: UserId, c: CourseId)
    ensures forall e :: multiset(FindBy(db, s, c))[e] == if e.student == Some(s) && e.course == Some(c) then multiset(db)[e] else 0
  {
    if |db| > 0 {
      FindByCounts(db[1..], s, c);
      assert db == [db[0]] + db[1..];
    }
  }

  /** The score of student `s` in course `c`. */
  function StudentScore(db: seq<Evaluation>, s: UserId, c: CourseId): Option<int> {
    Score(FindBy(db, s, c))
  }

  /** The inclusive bound filter; an absent bound filters nothing. */
  predicate WithinBounds(score: int, lower: Option<real>, upper: Option<real>) {
    && (lower.None? || score as real >= lower.value)
    && (upper.None? || score as real <= upper.value)
  }

  /** The roster's students that have a score within the bounds, with that score, in roster order. */
  function Included(db: seq<Evaluation>, c: CourseId, roster: seq<UserId>, lower: Option<real>, upper: Option<real>): (r: seq<Entry>)
    ensures forall e :: e in r <==>
      e.student in roster && StudentScore(db, e.student, c) == Some(e.score) && WithinBounds(e.score, lower, upper)
    ensures NoDuplicates(roster) ==> DistinctStudents(r)
    ensures |r| <= |roster|
  {
    if |roster| == 0 then []
    else
      var rest := Included(db, c, roster[1..], lower, upper);
      assert roster == [roster[0]] + roster[1..];
      assert NoDuplicates(roster) ==> roster[0] !in roster[1..] && NoDuplicates(roster[1..]) by {
        if NoDuplicates(roster) {
          forall i, j | 0 <= i < j < |roster[1..]|
            ensures roster[1..][i] != roster[1..][j]
          {
            assert roster[1..][i] == roster[i + 1] && roster[1..][j] == roster[j + 1];
          }
        }
      }
      match StudentScore(db, roster[0], c)
      case Some(v) =>
        if WithinBounds(v, lower, upper) then [Entry(roster[0], v)] + rest else rest
      case None => rest
  }

  /**
    `getStudentsWithScores` after the roster is known: exactly the students
    with a score inside the bounds, each once when the roster is duplicate
    free, sorted by non-increasing score. The order among equal scores is not
    specified.
   */
  function RankStudents(db: seq<Evaluation>, c: CourseId, roster: seq<UserId>, lower: Option<real>, upper: Option<real>): (r: seq<Entry>)
    ensures SortedDesc(r)
    ensures multiset(r) == multiset(Included(db, c, roster, lower, upper))
    ensures forall e :: e in r <==>
      e.student in roster && StudentScore(db, e.student, c) == Some(e.score) && WithinBounds(e.score, lower, upper)
    ensures NoDuplicates(roster) ==> DistinctStudents(r)
    ensures |roster| == 0 ==> r == []
  {
    var included := Included(db, c, roster, lower, upper);
    var r := SortDesc(included);
    assert forall e :: e in r <==> e in multiset(included);
    if NoDuplicates(roster) then
      PermutationKeepsDistinctStudents(included, r);
      r
    else r
  }

  /**
    `getStudentsWithScores(course, lower, upper)`: ranks the course's roster
    (its students in order of first evaluation, each once).
   */
  function GetStudentsWithScores(db: seq<Evaluation>, course: Course, lower: Option<real>, upper: Option<real>): (r: seq<Entry>)
    ensures SortedDesc(r)
    ensures DistinctStudents(r)
    ensures forall e :: e in r <==>
      (exists i :: 0 <= i < |course.evaluations| && course.evaluations[i].student == Some(e.student))
      && StudentScore(db, e.student, course.id) == Some(e.score)
      && WithinBounds(e.score, lower, upper)
    ensures |course.evaluations| == 0 ==> r == []
  {
    RankStudents(db, course.id, GetStudents(course), lower, upper)
  }
}
