/**
 * Option and Result types shared by every module.  A Python exception raised by the
 * source becomes an `Err` carrying the kind of exception; a Python loop that would
 * spin forever becomes `Err(Diverges)`.
 */
module Outcomes {

  datatype Option<+T> = None | Some(value: T)

  /** The exceptions (and the one non-terminating loop) the source can end in. */
  datatype Error =
    | IndexError          // a string or list index out of range
    | ValueError          // `str.index` found nothing
    | KeyError            // a dictionary lookup of a missing key
    | AttributeError      // an attribute read on `None`, or one the object never set
    | TypeError           // a `defaultdict` default constructor called without its argument
    | NotParenthesis      // `findbracketpair` called on a character that is not a parenthesis
    | InvalidType         // no slash at parenthesis depth 0 in a function category
    | CannotApply         // `functionapplication` with mismatched semantic types
    | Diverges            // a `while` loop whose state no longer changes
    | OutOfFuel           // the proof search exhausted its duplication budget

  datatype Result<+T> = Ok(value: T) | Err(error: Error) {
    predicate IsFailure() { Err? }

    function PropagateFailure<U>(): Result<U>
      requires Err?
    {
      Err(error)
    }

    function Extract(): T
      requires Ok?
    {
      value
    }
  }
}
