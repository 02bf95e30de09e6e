/** Results shared by the system calls. */
module Results {
  datatype Option<T> = None | Some(value: T)

  /** What a read or a write does to its caller: -EBUSY, a count of bytes, or sleep. */
  datatype Outcome = Busy | Done(n: nat) | Blocked
}
