/** What several modules share. */
module Common {
  datatype Option<+T> = None | Some(value: T)

  /** The CPU of a direction that is not assigned to a worker. */
  const NO_CPU := -1

  const MAX_RELAYS: nat := 64
}
