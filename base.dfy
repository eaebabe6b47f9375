/** Small value types shared by the whole model. */
module Base {

  datatype Option<T> = None | Some(value: T)

  datatype Result<T, E> = Ok(value: T) | Err(error: E)

  newtype byte = x: int | 0 <= x < 256

  /** A uuid.UUID, read as a 128-bit number; the zero value is the nil UUID. */
  datatype Uuid = Uuid(bits: nat)

  const NIL_UUID: Uuid := Uuid(0)

  /** A time.Time, read as nanoseconds since Go's zero time (so the zero value is Time(0)). */
  datatype Time = Time(nanos: int)

  const ZERO_TIME: Time := Time(0)
}
