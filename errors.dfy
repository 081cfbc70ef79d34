/**
 * The exceptions the UT330 driver raises, and the Option and Result wrappers
 * that carry them. Each Python exception class the driver can raise or let
 * through is one constructor of `Error`; its message becomes a label.
 */
module Errors {

  datatype Option<T> = None | Some(value: T)

  datatype Result<T> = Ok(value: T) | Err(error: Error)

  /** The command a failed status check belongs to. */
  datatype Command = DeleteData | WriteConfig | WriteDatetime | WriteOffsets | RestoreFactory

  /** What an `IOError` raised by the driver or the serial port says. */
  datatype IOKind =
    | NotDetected          // no USB port carries the logger
    | NotOpenOnPort        // the serial port did not open
    | PortNotOpen          // a read or write on a closed port
    | WriteTimeout         // the write timeout expired before the whole frame went out
    | CloseFailed          // the operating system refused to close the port
    | BadReply(command: Command) // the 7-byte status reply differs from the expected one

  /** What a `ValueError` raised by the driver says. */
  datatype ValueKind =
    | NameTooLong
    | NameEmpty
    | SamplingInterval
    | DelayTiming
    | TemperatureOffset
    | HumidityOffset
    | PressureOffset
    | ByteRange            // `bytearray` met an element outside 0..255
    | ShortWrite           // fewer bytes written than the command holds
    | BadDateTime          // `datetime` refused the decoded fields

  datatype Error =
    | IOError(io: IOKind)
    | ValueError(value: ValueKind)
    | IndexError           // a field read past the end of the received bytes
    | AttributeError       // a port operation before any port was assigned

  /** Prepends `prefix` to a successful list result; an error stays. */
  function Prepend<T>(prefix: seq<T>, r: Result<seq<T>>): (q: Result<seq<T>>)
    ensures q.Ok? <==> r.Ok?
    ensures q.Err? ==> q.error == r.error
    ensures q.Ok? ==> q.value == prefix + r.value
  {
    match r
    case Ok(rest) => Ok(prefix + rest)
    case Err(e) => Err(e)
  }
}
