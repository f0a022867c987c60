/**
  The data-transfer object a teacher submits to create an evaluation, and the
  validator's verdict on it: a list of violations, each naming the offending
  property and carrying the constraint's message.
 */
module EvaluationDtos {
  import opened Types
  import opened Evaluations

  /** The three submitted fields, stored by the constructor exactly as given. */
  datatype EvaluationDto = EvaluationDto(result: Option<int>, weight: Option<int>, message: Option<string>)

  /** The property path a violation is reported under. */
  datatype Field = ResultField | WeightField | MessageField

  datatype Violation = Violation(path: Field, message: string)

  const ResultRequired: string := "Result is required"
  const ResultOutOfRange: string := "Result must be between -1 and 10"
  const WeightRequired: string := "Weight is required"
  const WeightOutOfRange: string := "Weight must be between 1 and 19"
  const MessageTooLong: string := "Message cannot be longer than 1000 characters"

  /** The DTO satisfies every constraint. */
  predicate IsValid(d: EvaluationDto) {
    && d.result.Some? && ResultInRange(d.result.value)
    && d.weight.Some? && WeightInRange(d.weight.value)
    && MessageFits(d.message)
  }

  /**
    Violations of the result constraints. The range check skips a null value,
    so a null result violates only the not-null constraint.
   */
  function ResultViolations(r: Option<int>): seq<Violation> {
    if r.None? then [Violation(ResultField, ResultRequired)]
    else if !ResultInRange(r.value) then [Violation(ResultField, ResultOutOfRange)]
    else []
  }

  function WeightViolations(w: Option<int>): seq<Violation> {
    if w.None? then [Violation(WeightField, WeightRequired)]
    else if !WeightInRange(w.value) then [Violation(WeightField, WeightOutOfRange)]
    else []
  }

  /** The length check skips a null message. */
  function MessageViolations(m: Option<string>): seq<Violation> {
    if MessageFits(m) then [] else [Violation(MessageField, MessageTooLong)]
  }

  /** Violation `v` is reported for `d`: its constraint names `v`'s path and message, and `d` fails it. */
  predicate Fails(d: EvaluationDto, v: Violation) {
    || (v == Violation(ResultField, ResultRequired) && d.result.None?)
    || (v == Violation(ResultField, ResultOutOfRange) && d.result.Some? && !ResultInRange(d.result.value))
    || (v == Violation(WeightField, WeightRequired) && d.weight.None?)
    || (v == Violation(WeightField, WeightOutOfRange) && d.weight.Some? && !WeightInRange(d.weight.value))
    || (v == Violation(MessageField, MessageTooLong) && !MessageFits(d.message))
  }

  /** The validator's verdict, property by property in declaration order. */
  function Violations(d: EvaluationDto): (vs: seq<Violation>)
    ensures |vs| == 0 <==> IsValid(d)
    ensures |vs| <= 3
    ensures d.result.None? ==> Violation(ResultField, ResultRequired) in vs && Violation(ResultField, ResultOutOfRange) !in vs
    ensures d.result.Some? ==> (Violation(ResultField, ResultOutOfRange) in vs <==> !ResultInRange(d.result.value))
    ensures d.weight.None? ==> Violation(WeightField, WeightRequired) in vs && Violation(WeightField, WeightOutOfRange) !in vs
    ensures d.weight.Some? ==> (Violation(WeightField, WeightOutOfRange) in vs <==> !WeightInRange(d.weight.value))
    ensures Violation(MessageField, MessageTooLong) in vs <==> !MessageFits(d.message)
    ensures forall v :: v in vs <==> Fails(d, v)
  {
    ResultViolations(d.result) + WeightViolations(d.weight) + MessageViolations(d.message)
  }

  /** The error object of a 400 response: property path to message, a later violation overwriting an earlier one. */
  function ErrorMap(vs: seq<Violation>): (errors: map<Field, string>)
    ensures forall f :: f in errors <==> exists v :: v in vs && v.path == f
    ensures forall f :: f in errors ==> Violation(f, errors[f]) in vs
  {
    if |vs| == 0 then map[]
    else
      var v := vs[|vs| - 1];
      var prefix := vs[..|vs| - 1];
      assert vs == prefix + [v];
      ErrorMap(prefix)[v.path := v.message]
  }

  /**
    For a validated DTO the error object holds, under each violated path, that
    path's one message: no path fails two constraints at once.
   */
  lemma ErrorMapOfViolations(d: EvaluationDto)
    ensures forall v :: v in Violations(d) ==> v.path in ErrorMap(Violations(d)) && ErrorMap(Violations(d))[v.path] == v.message
  {
    var vs := Violations(d);
    forall v | v in vs
      ensures v.path in ErrorMap(vs) && ErrorMap(vs)[v.path] == v.message
    {
      var w := Violation(v.path, ErrorMap(vs)[v.path]);
      assert w in vs;
      assert Fails(d, v) && Fails(d, w);
    }
  }
}
