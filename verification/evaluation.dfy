/**
  The Evaluation entity: one graded assessment of a student in a course.

  A result is stored in a NUMERIC(4,2) column and is modelled as an integer
  number of hundredths, so the validated range -1 .. 10 becomes -100 .. 1000.
  A result of -1 marks an absence; participation is derived from the sign of
  the result, never from a stored flag.
 */
module Evaluations {
  import opened Types

  /** Lowest valid result, in hundredths (-1). */
  const ResultMin: int := -100
  /** Highest valid result, in hundredths (10). */
  const ResultMax: int := 1000
  /** Lowest valid weight. */
  const WeightMin: int := 1
  /** Highest valid weight. */
  const WeightMax: int := 19
  /** Longest valid message, in characters. */
  const MessageMaxLength: int := 1000

  predicate ResultInRange(r: int) {
    ResultMin <= r <= ResultMax
  }

  predicate WeightInRange(w: int) {
    WeightMin <= w <= WeightMax
  }

  /** A message is optional; a present one has at most 1000 characters. */
  predicate MessageFits(m: Option<string>) {
    m.None? || |m.value| <= MessageMaxLength
  }

  /**
    An evaluation object. `stored` is the result column (hundredths, `None`
    until a result is set); `participatedFlag` is the stored participation flag
    that nothing ever reads. The creation timestamp is not modelled.
   */
  datatype Evaluation = Evaluation(
    id: EvalId,
    stored: Option<int>,
    weight: Option<int>,
    message: Option<string>,
    student: Option<UserId>,
    course: Option<CourseId>,
    participatedFlag: bool)

  /** A freshly constructed evaluation: nothing set, the unused flag true. */
  function NewEvaluation(id: EvalId): (e: Evaluation)
    ensures e.id == id && e.participatedFlag
    ensures e.stored.None? && e.weight.None? && e.message.None?
    ensures e.student.None? && e.course.None?
  {
    Evaluation(id, None, None, None, None, None, true)
  }

  /** Result and weight present and within their validated ranges: what the score needs. */
  predicate RangesHold(e: Evaluation) {
    && e.stored.Some? && ResultInRange(e.stored.value)
    && e.weight.Some? && WeightInRange(e.weight.value)
  }

  /**
    The entity's validation constraints: result and weight present and in
    range, message within its length limit, student and course present.
   */
  predicate Valid(e: Evaluation) {
    && RangesHold(e)
    && MessageFits(e.message)
    && e.student.Some? && e.course.Some?
  }

  function SetResult(e: Evaluation, r: int): (e': Evaluation)
    ensures e'.stored == Some(r)
    ensures e' == e.(stored := e'.stored)
  {
    e.(stored := Some(r))
  }

  /**
    The result getter as written: a truthiness test on the stored
    text. A result set to 0 is stored as the text "0", which is falsy, so the
    getter answers null for it. An evaluation loaded from the database holds
    the column's text instead ("0.00" for a zero result), which is truthy, so
    the quirk shows only for a result set in memory, before it is reloaded.
   */
  function GetResultAsWritten(e: Evaluation): (r: Option<int>)
    ensures r.Some? <==> e.stored.Some? && e.stored.value != 0
    ensures r.Some? ==> r == e.stored
  {
    if e.stored.None? || e.stored.value == 0 then None else e.stored
  }

  /**
    The result getter as intended: the stored result, null only when no result
    was ever set. It is also what the getter as written answers for an
    evaluation loaded from the database. The rest of the model reads results
    through this getter.
   */
  function GetResult(e: Evaluation): (r: Option<int>)
    ensures r.None? <==> e.stored.None?
    ensures e.stored != Some(0) ==> r == GetResultAsWritten(e)
  {
    e.stored
  }

  /** setResult then getResult gives the value back, for every value including 0. */
  lemma SetResultRoundTrip(e: Evaluation, r: int)
    ensures GetResult(SetResult(e, r)) == Some(r)
    ensures r != 0 ==> GetResultAsWritten(SetResult(e, r)) == Some(r)
  {
  }

  /** The as-written getter loses a zero result: it reads back as null. */
  lemma ZeroResultReadsBackAsNull(e: Evaluation)
    ensures GetResultAsWritten(SetResult(e, 0)) == None
    ensures GetResult(SetResult(e, 0)) == Some(0)
  {
  }

  function SetWeight(e: Evaluation, w: int): (e': Evaluation)
    ensures e'.weight == Some(w)
    ensures e' == e.(weight := e'.weight)
  {
    e.(weight := Some(w))
  }

  function GetWeight(e: Evaluation): Option<int> {
    e.weight
  }

  /** setWeight then getWeight gives the weight back, and neither setter disturbs the other field. */
  lemma SettersRoundTrip(e: Evaluation, r: int, w: int)
    ensures GetWeight(SetWeight(e, w)) == Some(w)
    ensures GetResult(SetWeight(e, w)) == GetResult(e)
    ensures GetWeight(SetResult(e, r)) == GetWeight(e)
  {
  }

  /**
    `hasParticipated()`: the result read through the getter compared with 0.
    A null result compares as not below 0, so an evaluation without a result
    counts as participated.
   */
  predicate HasParticipated(e: Evaluation)
    ensures HasParticipated(e) <==> e.stored.None? || e.stored.value >= 0
  {
    match GetResult(e)
    case None => true
    case Some(r) => r >= 0
  }

  /** Participation read through the as-written getter is the same: null and 0 both count as present. */
  lemma ParticipationIgnoresZeroQuirk(e: Evaluation)
    ensures HasParticipated(e) <==>
      (match GetResultAsWritten(e) case None => true case Some(r) => r >= 0)
  {
  }

  /** `setHasParticipated`: writes the stored flag and nothing else. */
  function SetHasParticipated(e: Evaluation, flag: bool): (e': Evaluation)
    ensures e'.participatedFlag == flag
    ensures e' == e.(participatedFlag := flag)
  {
    e.(participatedFlag := flag)
  }

  /** The stored flag is never read: setting it leaves `hasParticipated()` and the getters alone. */
  lemma SetHasParticipatedIsUnobservable(e: Evaluation, flag: bool)
    ensures HasParticipated(SetHasParticipated(e, flag)) == HasParticipated(e)
    ensures GetResult(SetHasParticipated(e, flag)) == GetResult(e)
    ensures GetWeight(SetHasParticipated(e, flag)) == GetWeight(e)
  {
  }

  /** A null weight multiplies as 0. */
  function WeightValue(e: Evaluation): int {
    GetWeight(e).GetOr(0)
  }

  /**
    What one evaluation adds to the numerator of the score, in hundredths:
    `result * weight` when participated (a null result multiplies as 0),
    nothing otherwise.
   */
  function Contribution(e: Evaluation): int {
    if HasParticipated(e) then GetResult(e).GetOr(0) * WeightValue(e) else 0
  }

  /** What one evaluation adds to the denominator: ten points per unit of weight, participated or not. */
  function MaxContribution(e: Evaluation): int {
    10 * WeightValue(e)
  }

  /**
    Reading the result through the as-written getter changes no contribution:
    the lost zero is a null, which still counts as participated and multiplies as 0.
   */
  lemma ContributionIgnoresZeroQuirk(e: Evaluation)
    ensures Contribution(e) ==
      (if HasParticipated(e) then GetResultAsWritten(e).GetOr(0) * WeightValue(e) else 0)
  {
  }

  /**
    A valid evaluation contributes between 0 and the full hundred percent of
    its maximum: `0 <= contribution <= 100 * maxContribution`, and an absence
    contributes nothing.
   */
  lemma ValidContributionBounds(e: Evaluation)
    requires RangesHold(e)
    ensures 0 <= Contribution(e) <= 100 * MaxContribution(e)
    ensures MaxContribution(e) >= 10 * WeightMin
    ensures e.stored.value < 0 ==> Contribution(e) == 0
  {
    var r := e.stored.value;
    var w := e.weight.value;
    if r >= 0 {
      assert r * w <= 1000 * w;
    }
  }
}
