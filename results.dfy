/** Failure-carrying values for the operations of the tokenizer and the input encoder. */
module Results {

  datatype Option<+T> = None | Some(value: T)

  /** The exceptions the Java code can raise inside the modelled core. */
  datatype Error =
    | LookupError(token: string)  // vocabulary::get returned null and unboxing it failed
    | IllegalCapacity             // IntBuffer.allocate was given a negative capacity
    | BufferOverflow              // IntBuffer.put past the buffer's capacity

  datatype Result<+T> = Success(value: T) | Failure(error: Error)
}
