/** Failure-carrying datatypes shared by the model. The contribution step
    reports every recovered failure as a single text message, so `Result`
    carries a `string` on its error side. */
module Results {

  datatype Option<+T> = None | Some(value: T)

  /** Mirrors `Result<_, String>` as returned to the host. */
  datatype Result<+T> = Ok(value: T) | Err(message: string)
}
