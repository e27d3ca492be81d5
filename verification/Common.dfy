/** Vocabulary shared by every part of the model. */
module Common {
  datatype Option<+T> = None | Some(value: T)

  datatype Result<+T, +E> = Ok(value: T) | Err(error: E)

  /** Stage, approval, field and rule-set keys. */
  type Key = string

  /** Instants and durations are whole milliseconds on one wall-clock line. */
  const SECOND := 1000
  const MINUTE := 60 * SECOND
  const HOUR := 60 * MINUTE
  const DAY := 24 * HOUR
}
