/** Failure-carrying results shared by every stage of code generation. */
module Outcomes {

  datatype Option<+T> = None | Some(value: T)

  /** The conditions that abort a generation run. */
  datatype Error =
    | MalformedInput                                         // a locale tree holds a non-primitive leaf or is not an object
    | MissingLocaleFile(language: string)                    // a configured language has no decoded file
    | UnknownArgumentType(identifier: string, variableName: string)
    | ArgumentParseMismatch(line: string, parsed: nat, found: nat)
    | UnknownKey(language: string)                           // a secondary language defines a key the default does not
    | ArgumentSignatureMismatch(key: string, language: string)

  datatype Result<+T> = Ok(value: T) | Err(error: Error) {
    predicate IsFailure() { Err? }

    function PropagateFailure<U>(): Result<U>
      requires Err?
    {
      Err(error)
    }

    function Extract(): T
      requires Ok?
    {
      value
    }
  }
}
