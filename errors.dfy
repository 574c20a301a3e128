/** The exceptions the pattern decoder and parser raise, as values, and the
    failure-compatible wrappers that carry them out of a method. */
module Errors {

  /** What a RegexParseException reports: its message, as a value. Messages
      that print a character carry its code point. */
  datatype Message =
    | ExpectedOctalDigit
    | ExpectedHexDigit
    | ExpectedDecimalDigit
    | NotValidUnicode(value: int)
    | SurrogateEscapesNotAllowed
    | ExpectedCharacter(c: int)
    | ExpectedCharacterInRange(lo: int, hi: int)
    | CharacterNotInRange(lo: int, hi: int)
    | UnexpectedEndOfPattern
    | CannotRepeatNothing
    | CannotMakeNothingOptional
    | InvalidRepetition
    | MultipleQuantifierModifiers
    | MaxLessThanMin
    | ExpectedHexDigits
    | InvalidEscapeCharacter(c: int)

  /** The regex feature a NotImplementedException names. */
  datatype Feature =
    | StartAssertion
    | EndAssertion
    | DotMatching
    | CharacterClasses
    | Groups
    | Assertions
    | BackReferences
    | UnicodeProperties
    | GraphemeClusters

  /** The three kinds of failure: a positional parse error (message, index into
      the code-point pattern, and the pattern itself), an unsupported feature,
      and a lone UTF-16 surrogate at a code-unit index while decoding. */
  datatype Exception =
    | RegexParseException(message: Message, index: int, regex: seq<int>)
    | NotImplementedException(feature: Feature)
    | InvalidSurrogate(unitIndex: nat)

  /** A value or the exception that prevented it. */
  datatype Result<+T> = Ok(value: T) | Err(error: Exception) {
    predicate IsFailure() { Err? }

    function PropagateFailure<U>(): Result<U>
      requires Err?
    {
      Err(error)
    }

    function Extract(): T
      requires Ok?
    {
      value
    }
  }

  /** A value that may be absent, as the source's out-parameter tries return. */
  datatype Option<+T> = None | Some(value: T)

  /** Completion of an operation that returns nothing, or its exception. */
  datatype Outcome = Pass | Fail(error: Exception) {
    predicate IsFailure() { Fail? }

    function PropagateFailure<U>(): Result<U>
      requires Fail?
    {
      Err(error)
    }
  }
}
