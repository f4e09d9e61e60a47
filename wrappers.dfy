/** Option, Result and Outcome: the model's stand-ins for Java's null and exceptions. */
module Wrappers {

  datatype Option<+T> = None | Some(value: T)

  /** A value or the exception that was thrown instead. */
  datatype Result<+T, +E> = Success(value: T) | Failure(error: E)

  /** The outcome of a `void` method: it returned normally or threw. */
  datatype Outcome<+E> = Pass | Fail(error: E)
}

/** The exceptions the modelled code throws; messages are not modelled. */
module Exceptions {

  datatype Error =
    | IllegalArgument                    // IllegalArgumentException (pascal case of "")
    | NullPointer                        // a @NonNull argument was null
    | CannotCreateValidEncoding          // SchemaFactory: no encoding for the field type
    | IllegalAccess                      // AvroSchema: unsupported field type
    | CannotGenerateSchema(cause: Error) // AvroSchema.generate wraps every failure in this
    | NotARecordSchema                   // GenericData.Record built on a missing schema
    | NotAValidSchemaField(name: string) // GenericData.Record.put on an unknown field name
}
