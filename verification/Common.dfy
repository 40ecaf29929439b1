/** Result types shared by the driver modules. */
module Common {

  datatype Option<+T> = None | Some(value: T)

  /** The NTSTATUS values the modelled code distinguishes. */
  datatype Status =
    | Success
    | BufferTooSmall
    | BadData
    | NoMoreEntries
    | Unsuccessful

  function Min(a: nat, b: nat): nat {
    if a < b then a else b
  }
}
