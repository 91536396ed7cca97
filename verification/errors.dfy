/** Option and Result wrappers, and the exceptions the modelled Java code raises. */
module Errors {

  datatype Option<+T> = None | Some(value: T)

  datatype Result<+T, +E> = Ok(value: T) | Err(error: E)

  /** The outcome of a Java `void` method: it returns normally or throws. */
  datatype Outcome<+E> = Pass | Fail(error: E)

  /**
   * The Java exceptions that can leave the modelled code. Messages written in
   * the source are kept as they are; exceptions raised inside the JDK carry only
   * what identifies them.
   */
  datatype Error =
    | IllegalArgument(message: string)      // java.lang.IllegalArgumentException
    | IllegalState(message: string)         // java.lang.IllegalStateException
    | NullPointer(message: string)          // java.lang.NullPointerException (Objects.requireNonNull)
    | NumberFormat(input: string)           // NumberFormatException from Integer/Long.parseX
    | FieldTypeMismatch(field: string)      // IllegalArgumentException from Field.set
    | NoDefaultConstructor(typeName: string)  // NoSuchMethodException from getDeclaredConstructor
    | StoreFailure(message: string)         // BaseAdapter.StoreException
    | AlreadyExists(message: string)        // BaseAdapter.AlreadyExists, a StoreException
    | Runtime(message: string, cause: Error)  // RuntimeException wrapping a cause

  /** `catch (StoreException e)` catches both store errors: AlreadyExists extends StoreException. */
  predicate IsStoreException(e: Error) {
    e.StoreFailure? || e.AlreadyExists?
  }
}
