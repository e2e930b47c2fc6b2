/** The error-carrying result used wherever the script can raise. */
module Results {

  /** Either a value or the text of the exception that replaced it. */
  datatype Result<+T> = Ok(value: T) | Err(error: string)
}
