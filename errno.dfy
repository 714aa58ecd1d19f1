/** Kernel error numbers returned (negated) by the driver's entry points. */
module Errno {
  const EINTR: int := 4
  const EAGAIN: int := 11
  const ENOMEM: int := 12
  const EFAULT: int := 14
  const EINVAL: int := 22
  const ENOSPC: int := 28
  const ETIMEDOUT: int := 110
  /** Returned by an interrupted wait_event_interruptible. */
  const ERESTARTSYS: int := 512

  /** A kernel status: 0 for success or a negated error number. */
  type Err = x: int | x <= 0
}
