/** Values for what the suite expresses with `None` and with exceptions. */
module Wrappers {
  datatype Option<+T> = None | Some(value: T)

  /** The kinds of exception the handlers of the suite tell apart. `Interrupt` stands for
      every BaseException that is not an Exception (Ctrl-C, a pytest timeout). */
  datatype Exn = LibvirtError(text: string) | OtherError(text: string) | Interrupt

  datatype Status = Fine | Failed(error: Exn)

  datatype Result<+T> = Ok(value: T) | Raised(error: Exn)
}
