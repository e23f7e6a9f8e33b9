/** The `(value, error)` result of a calculation (int64.go, bool.go) and the
    test double FailingCalculation of failing_calculation.go, which reports
    the zero value together with a failure chosen by its creator. */
module FailingCalculations {
  import opened Errors

  datatype Option<T> = None | Some(value: T)

  /** Go's int64. */
  newtype int64 = x: int | -0x8000_0000_0000_0000 <= x < 0x8000_0000_0000_0000

  /** What CalculateBool and CalculateInt64 return: a value and an error,
      where `None` stands for Go's nil error, that is, success. */
  datatype Result<T> = Result(value: T, err: Option<Err>)

  /** The calculation reported success. */
  predicate Succeeded<T>(r: Result<T>)
  {
    r.err.None?
  }

  /** A calculation for both result types that reports `err`. Go allows a
      nil `Err`, hence the `Option`. */
  datatype FailingCalculation = FailingCalculation(err: Option<Err>)

  /** NewFailingCalculation: keeps the given error as it is. */
  function NewFailingCalculation(err: Option<Err>): (c: FailingCalculation)
    ensures c.err == err
  {
    FailingCalculation(err)
  }

  /** CalculateBool: the zero value false and exactly the stored error. */
  function CalculateBool(c: FailingCalculation): (r: Result<bool>)
    ensures r.value == false
    ensures r.err == c.err
    ensures Succeeded(r) <==> c.err == None
  {
    Result(false, c.err)
  }

  /** CalculateInt64: the zero value 0 and exactly the stored error. */
  function CalculateInt64(c: FailingCalculation): (r: Result<int64>)
    ensures r.value == 0
    ensures r.err == c.err
    ensures Succeeded(r) <==> c.err == None
  {
    Result(0, c.err)
  }

  /** Created with a failure, the double never reports success, whichever
      result type is asked for, and both report the same failure. */
  lemma NeverSucceeds(e: Err)
    ensures !Succeeded(CalculateBool(NewFailingCalculation(Some(e))))
    ensures !Succeeded(CalculateInt64(NewFailingCalculation(Some(e))))
    ensures CalculateBool(NewFailingCalculation(Some(e))).err == CalculateInt64(NewFailingCalculation(Some(e))).err
  {
  }

  /** The failure comes back as the one supplied, not wrapped in an
      aggregate of one element, and so with the supplied message. */
  lemma ReportsSuppliedFailure(e: Err)
    ensures CalculateBool(NewFailingCalculation(Some(e))) == Result(false, Some(e))
    ensures CalculateInt64(NewFailingCalculation(Some(e))) == Result(0, Some(e))
    ensures CalculateBool(NewFailingCalculation(Some(e))).err != Some(Multi([e]))
    ensures Message(CalculateBool(NewFailingCalculation(Some(e))).err.value) == Message(e)
  {
    assert [e][0] == e;
  }

  /** The double built in the negation test: its message is "whoopsie", and
      it is not an aggregate, so no "multiple errors: " prefix appears. */
  lemma WhoopsieComesThrough()
    ensures var r := CalculateBool(NewFailingCalculation(Some(Leaf("whoopsie"))));
      r.err.Some? && r.err.value.Leaf? && Message(r.err.value) == "whoopsie"
  {
  }

  /** Two doubles whose failures an aggregate combines in operand order:
      the combined message contains both, as the equality test checks. The
      sum test uses its own double `errCalc`, whose CalculateInt64 also
      returns 0 and its stored error, so the same holds there. */
  lemma AggregatedFailuresAreContained(e1: Err, e2: Err)
    ensures var agg := Multi([CalculateInt64(NewFailingCalculation(Some(e1))).err.value,
                              CalculateInt64(NewFailingCalculation(Some(e2))).err.value]);
      Contains(Message(agg), Message(e1)) && Contains(Message(agg), Message(e2))
  {
    RenderContainsMessage([e1, e2], 0);
    RenderContainsMessage([e1, e2], 1);
  }
}
