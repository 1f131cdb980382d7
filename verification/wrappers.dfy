/** Failure-carrying datatypes shared by every part of the model.

    The original program reports every failure as a message string that starts
    with an error marker; here a failure is a tagged `Error` value instead, so
    that contracts can talk about which failure happened. */
module Wrappers {

  datatype Option<+T> = None | Some(value: T) {
    predicate IsFailure() { None? }

    function PropagateFailure<U>(): Option<U>
      requires None?
    {
      None
    }

    function Extract(): T
      requires Some?
    {
      value
    }

    function GetOr(default: T): T {
      match this
      case Some(v) => v
      case None => default
    }
  }

  /** Which behaviour to follow at a spot where the original is defective:
      the code as written, or what it was evidently meant to do. */
  datatype Code = AsWritten | Corrected

  /** The failure kinds the readers, the scanner, the merge and the factory report. */
  datatype Error =
    | NotFound                  // the source file does not exist
    | CannotRead                // the source file exists but cannot be read
    | CannotDecode              // the JSON part is not valid UTF-8
    | CannotParse               // a bare `except:` turned an exception into a parse error
    | WrongStructure            // a `KeyError` caught by a reader
    | WrongDateFormat           // a `ValueError` caught by a reader
    | MissingLabel(name: string)
    | CorruptedData             // unbalanced braces in an Aeon 3 project file
    | NoJsonPart                // the scanner found no brace-delimited part at all
    | NotMeantToBeImported      // the factory refuses a cross-reference or brief-synopsis file
    | Unsupported(path: string) // no file class matches the path
    | Uncaught(reason: string)  // an exception nothing in the original catches

  /** A dictionary lookup of a missing key that nothing catches. */
  const KeyError := Uncaught("KeyError")

  datatype Result<+R> = Ok(value: R) | Err(error: Error) {
    predicate IsFailure() { Err? }

    function PropagateFailure<U>(): Result<U>
      requires Err?
    {
      Err(error)
    }

    function Extract(): R
      requires Ok?
    {
      value
    }
  }
}
