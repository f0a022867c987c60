/**
  Worked examples: the repository's own test scenarios, stated
  as lemmas about the model. Results are in hundredths (8 is `800`).
 */
module Fixtures {
  import opened Types
  import opened Evaluations
  import opened EvaluationDtos
  import opened Ranking
  import opened ScoreCalculation
  import opened Rounding

  /** An evaluation of student `s` in course `c` with the given stored result and weight. */
  function Graded(id: EvalId, s: UserId, c: CourseId, result: int, weight: int): Evaluation {
    Evaluation(id, Some(result), Some(weight), None, Some(s), Some(c), true)
  }

  lemma SingleEvaluationScores80()
    ensures Score([Graded(1, 1, 1, 800, 2)]) == Some(80)
  {
  }

  lemma TwoEvaluationsScore68()
    ensures Score([Graded(1, 1, 1, 800, 2), Graded(2, 1, 1, 600, 3)]) == Some(68)
  {
  }

  /** A missed evaluation counts in the maximum only: 16 of 50. */
  lemma MissedEvaluationScores32()
    ensures Score([Graded(1, 1, 1, 800, 2), Graded(2, 1, 1, -100, 3)]) == Some(32)
  {
  }

  /** 20 of 30 is 66.67 percent, rounded to 67. */
  lemma RoundsToNearest67()
    ensures Score([Graded(1, 1, 1, 600, 1), Graded(2, 1, 1, 700, 2)]) == Some(67)
  {
  }

  lemma NoEvaluationsNoScore()
    ensures Score([]) == None
  {
  }

  lemma ZeroWeightNoScore()
    ensures Score([Graded(1, 1, 1, 800, 0)]) == None
  {
  }

  /** Three students scoring 70, 90 and 50 percent, in roster order 1, 2, 3. */
  const RankingDb: seq<Evaluation> := [Graded(1, 1, 7, 700, 1), Graded(2, 2, 7, 900, 1), Graded(3, 3, 7, 500, 1)]

  lemma RankingScores()
    ensures RanksSeventyNinetyFifty(RankingDb)
  {
    RankingLookup(1);
    RankingLookup(2);
    RankingLookup(3);
    SingleEvaluationScore(RankingDb[0], 70);
    SingleEvaluationScore(RankingDb[1], 90);
    SingleEvaluationScore(RankingDb[2], 50);
  }

  /** Each student of the ranking data has exactly one evaluation in course 7. */
  lemma RankingLookup(s: UserId)
    requires 1 <= s <= 3
    ensures FindBy(RankingDb, s, 7) == [RankingDb[s - 1]]
  {
    var db := RankingDb;
    assert db[1..][1..] == db[2..] && db[2..][1..] == [];
    FindByStep(db, s, 7);
    FindByStep(db[1..], s, 7);
    FindByStep(db[2..], s, 7);
  }

  /** One step of the repository lookup: the head is kept exactly when it matches. */
  lemma FindByStep(db: seq<Evaluation>, s: UserId, c: CourseId)
    requires |db| > 0
    ensures FindBy(db, s, c) == (if db[0].student == Some(s) && db[0].course == Some(c) then [db[0]] else []) + FindBy(db[1..], s, c)
  {
  }

  /** A single evaluation at weight 1 scores its result, in percent. */
  lemma SingleEvaluationScore(e: Evaluation, v: int)
    requires e.stored == Some(10 * v) && e.weight == Some(1) && 0 <= v <= 100
    ensures Score([e]) == Some(v)
  {
    SumSingleton(e, Contribution);
    SumSingleton(e, MaxContribution);
    RoundingStaysInRange(10 * v, 10, v, v);
  }

  /** The entry the filter keeps for a student with score `v`: itself when the bounds admit it, nothing otherwise. */
  function Kept(s: UserId, v: int, lower: Option<real>, upper: Option<real>): seq<Entry> {
    if WithinBounds(v, lower, upper) then [Entry(s, v)] else []
  }

  /** The filter over roster 1, 2, 3 for any database giving them 70, 90 and 50 percent. */
  lemma IncludedFromScores(db: seq<Evaluation>, lower: Option<real>, upper: Option<real>)
    requires RanksSeventyNinetyFifty(db)
    ensures Included(db, 7, [1, 2, 3], lower, upper) ==
      Kept(1, 70, lower, upper) + (Kept(2, 90, lower, upper) + Kept(3, 50, lower, upper))
  {
    var none: seq<UserId> := [];
    assert [3] + none == [3] && [2] + [3] == [2, 3] && [1] + [2, 3] == [1, 2, 3];
    assert Included(db, 7, none, lower, upper) == [];
    IncludedStep(db, 7, 3, 50, none, lower, upper);
    assert Kept(3, 50, lower, upper) + [] == Kept(3, 50, lower, upper);
    IncludedStep(db, 7, 2, 90, [3], lower, upper);
    IncludedStep(db, 7, 1, 70, [2, 3], lower, upper);
  }

  /** One roster step of the filter: a scored student is kept exactly when the bounds admit the score. */
  lemma IncludedStep(db: seq<Evaluation>, c: CourseId, s: UserId, v: int, rest: seq<UserId>, lower: Option<real>, upper: Option<real>)
    requires StudentScore(db, s, c) == Some(v)
    ensures Included(db, c, [s] + rest, lower, upper) == Kept(s, v, lower, upper) + Included(db, c, rest, lower, upper)
  {
    assert ([s] + rest)[0] == s && ([s] + rest)[1..] == rest;
  }

  /** Any database giving students 1, 2 and 3 the scores 70, 90 and 50 percent: RankingDb is one. */
  predicate RanksSeventyNinetyFifty(db: seq<Evaluation>) {
    && StudentScore(db, 1, 7) == Some(70)
    && StudentScore(db, 2, 7) == Some(90)
    && StudentScore(db, 3, 7) == Some(50)
  }

  lemma RankingIsDescending(db: seq<Evaluation>)
    requires RanksSeventyNinetyFifty(db)
    ensures RankStudents(db, 7, [1, 2, 3], None, None) == [Entry(2, 90), Entry(1, 70), Entry(3, 50)]
  {
    IncludedFromScores(db, None, None);
    assert Kept(1, 70, None, None) == [Entry(1, 70)] && Kept(2, 90, None, None) == [Entry(2, 90)];
    assert Kept(3, 50, None, None) == [Entry(3, 50)];
    assert Included(db, 7, [1, 2, 3], None, None) == [Entry(1, 70), Entry(2, 90), Entry(3, 50)];
    SortsThreeEntries();
    assert RankStudents(db, 7, [1, 2, 3], None, None) == SortDesc([Entry(1, 70), Entry(2, 90), Entry(3, 50)]);
  }

  /** The insertion sort on the roster-ordered entries 70, 90, 50, one insertion at a time. */
  lemma SortsThreeEntries()
    ensures SortDesc([Entry(1, 70), Entry(2, 90), Entry(3, 50)]) == [Entry(2, 90), Entry(1, 70), Entry(3, 50)]
  {
    var s := [Entry(1, 70), Entry(2, 90), Entry(3, 50)];
    assert s[1..] == [Entry(2, 90), Entry(3, 50)];
    SortsTwoEntries();
    InsertsBelowTheLeader();
  }

  lemma SortsTwoEntries()
    ensures SortDesc([Entry(2, 90), Entry(3, 50)]) == [Entry(2, 90), Entry(3, 50)]
  {
    var s := [Entry(2, 90), Entry(3, 50)];
    assert s[1..] == [Entry(3, 50)];
    assert SortDesc([Entry(3, 50)]) == [Entry(3, 50)];
  }

  lemma InsertsBelowTheLeader()
    ensures InsertDesc(Entry(1, 70), [Entry(2, 90), Entry(3, 50)]) == [Entry(2, 90), Entry(1, 70), Entry(3, 50)]
  {
    var s := [Entry(2, 90), Entry(3, 50)];
    assert s[1..] == [Entry(3, 50)];
    assert InsertDesc(Entry(1, 70), [Entry(3, 50)]) == [Entry(1, 70), Entry(3, 50)];
  }

  lemma LowerBoundIsInclusive(db: seq<Evaluation>)
    requires RanksSeventyNinetyFifty(db)
    ensures RankStudents(db, 7, [1, 2, 3], Some(70.0), None) == [Entry(2, 90), Entry(1, 70)]
  {
    IncludedFromScores(db, Some(70.0), None);
    assert Kept(1, 70, Some(70.0), None) == [Entry(1, 70)] && Kept(2, 90, Some(70.0), None) == [Entry(2, 90)];
    assert Kept(3, 50, Some(70.0), None) == [];
    assert Included(db, 7, [1, 2, 3], Some(70.0), None) == [Entry(1, 70), Entry(2, 90)];
    SortsTwoReversed();
    assert RankStudents(db, 7, [1, 2, 3], Some(70.0), None) == SortDesc([Entry(1, 70), Entry(2, 90)]);
  }

  lemma SortsTwoReversed()
    ensures SortDesc([Entry(1, 70), Entry(2, 90)]) == [Entry(2, 90), Entry(1, 70)]
  {
    var s := [Entry(1, 70), Entry(2, 90)];
    assert s[1..] == [Entry(2, 90)];
    assert [Entry(2, 90)][1..] == [];
    assert SortDesc([Entry(2, 90)]) == [Entry(2, 90)];
    assert InsertDesc(Entry(1, 70), []) == [Entry(1, 70)];
    assert InsertDesc(Entry(1, 70), [Entry(2, 90)]) == [Entry(2, 90), Entry(1, 70)];
  }

  lemma UpperBoundIsInclusive(db: seq<Evaluation>)
    requires RanksSeventyNinetyFifty(db)
    ensures RankStudents(db, 7, [1, 2, 3], None, Some(70.0)) == [Entry(1, 70), Entry(3, 50)]
  {
    IncludedFromScores(db, None, Some(70.0));
    assert Kept(1, 70, None, Some(70.0)) == [Entry(1, 70)] && Kept(2, 90, None, Some(70.0)) == [];
    assert Kept(3, 50, None, Some(70.0)) == [Entry(3, 50)];
    assert Included(db, 7, [1, 2, 3], None, Some(70.0)) == [Entry(1, 70), Entry(3, 50)];
    var s := [Entry(1, 70), Entry(3, 50)];
    assert s[1..] == [Entry(3, 50)];
    assert SortDesc(s[1..]) == [Entry(3, 50)];
  }

  lemma StudentsWithoutEvaluationsAreLeftOut()
    ensures RankStudents([], 7, [1, 2], None, None) == []
  {
  }

  lemma WeightAboveRangeIsRejected()
    ensures Violations(EvaluationDto(Some(850), Some(25), Some("Test evaluation"))) == [Violation(WeightField, WeightOutOfRange)]
  {
  }
}
