/** The outcome of an operation that refuses some shapes. */
module Results {

  datatype Result<T> = Ok(value: T) | BadShape
}
