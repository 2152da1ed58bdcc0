/** The event descriptor of src/pal/efd.c, one atomic access at a time. */
module Efd {
  import opened Common

  /** The flag, and the count of the kernel object behind it. */
  datatype Fd = Fd(signaled: bool, counter: nat) {
    /** What poll reports. */
    predicate Readable() { counter > 0 }
  }

  /** Where a thread is in mb_efd_signal. */
  datatype Signaling = Cas | Write

  /** Where a thread is in mb_efd_unsignal. */
  datatype Unsignaling = Store | Drain | Load | Rearm

  /** One step of mb_efd_signal; without a next point the call returns. */
  function SignalStep(fd: Fd, at: Signaling): (Fd, Option<Signaling>) {
    match at
    case Cas => if fd.signaled then (fd, None) else (fd.(signaled := true), Some(Write))
    case Write => (fd.(counter := fd.counter + 1), None)
  }

  /** One step of mb_efd_unsignal. */
  function UnsignalStep(fd: Fd, at: Unsignaling): (Fd, Option<Unsignaling>) {
    match at
    case Store => (fd.(signaled := false), Some(Drain))
    case Drain => (fd.(counter := 0), Some(Load))
    case Load => if fd.signaled then (fd, Some(Rearm)) else (fd, None)
    case Rearm => (fd.(counter := fd.counter + 1), None)
  }
}
