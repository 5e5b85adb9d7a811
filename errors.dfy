/** The error taxonomy of the directory layer, and the failures of the older getter layer. */
module Errors {

  /** The variants of the directory layer's `Error` enum. */
  datatype Error =
    | ValueIsMissing
    /** Built with the value's text only; the expected-type field is never filled in. */
    | InvalidValueDetected(value: string)
    | IntegerConversionError(value: string, intendedType: string)
    | MiscConversionError(value: string, intendedType: string, why: string)
    | MissingSchemaRecord
    | SchemaRecordHasNoChildren
    | IoError(reason: string)
    | UuidError(reason: string)
    | SddlError(reason: string)

  /**
   * Everything that can stop an operation: a typed `Error`, the reader's
   * end-of-data and unreadable-cell errors, the "invalid value detected"
   * message of the older getters, and a panic (`expect`, `unwrap`,
   * `unimplemented!`, an arithmetic overflow), each of which ends the run.
   */
  datatype Failure =
    | Ntds(error: Error)
    | UnexpectedEof
    | CellUnreadable(column: int)
    | InvalidValue(value: string, field: string)
    | Panic(message: string)
}
