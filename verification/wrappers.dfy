/** Failure-carrying datatypes shared by the models: an optional value, standing
    for a Java reference that may be null, and a result that is either a value or
    the message of the exception or assertion failure that the Java code raises. */
module Wrappers {

  datatype Option<+T> = None | Some(value: T)

  datatype Result<+T> = Success(value: T) | Failure(message: string)
}
