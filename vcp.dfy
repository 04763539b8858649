/** The brightness write: `SetVCPFeature(handle, 0x10, (uint)brightness)`, the
    VESA Monitor Control Command Set (MCCS) "Luminance" control carried over
    DDC/CI, and the exceptions the monitor classes raise around it. */
module Vcp {
  import opened Wrappers
  import opened Decimal

  /** VCP code 10h, Luminance, in the VESA Monitor Control Command Set. */
  const VcpLuminance: int := 0x10

  const UInt32Modulus: int := 0x1_0000_0000

  /** The unchecked C# cast `(uint)v`: two's-complement wrap-around to 32 bits. */
  function ToUInt32(v: int): (r: int)
    ensures 0 <= r < UInt32Modulus
    ensures 0 <= v < UInt32Modulus ==> r == v
    ensures -UInt32Modulus <= v < 0 ==> r == v + UInt32Modulus
  {
    v % UInt32Modulus
  }

  /** One `SetVCPFeature` call: the physical-monitor handle, the VCP code and the new value. */
  datatype VcpCommand = VcpCommand(handle: Int64, code: int, value: int)

  /** The two reasons `Models/DisplayMonitor` gives in its `IOException`s. */
  datatype IoReason =
    | SetRejected    // "Failed to set brightness on monitor '...'"
    | Communication  // "Error communicating with monitor '...'", wrapping another exception

  /** The exceptions that leave a write or an enumeration. */
  datatype Exception =
    | InvalidOperation(message: string)      // the set call reported failure
    | ParseFailure(error: ParseError)        // `long.Parse` of the stored path
    | IO(monitorName: string, reason: IoReason, inner: Option<Exception>)
    | Enumeration                            // an exception escaped `GetMonitors`

  const SetFailedMessage: string := "Failed to set monitor brightness."

  /** What one write did: the command sent to the monitor, if any, and the exception raised, if any. */
  datatype Attempt = Attempt(sent: Option<VcpCommand>, thrown: Option<Exception>)

  /** The write shared by `MonitorInfo.SetBrightness`, `Monitor.SetBrightness` and the
      library `DisplayMonitor.SetBrightnessAsync`: parse the stored path back to a
      handle, send VCP 10h with the brightness, raise `InvalidOperationException`
      when the call reports failure. `accepted` is the call's result. */
  function SetLuminance(path: string, brightness: int, accepted: bool): (r: Attempt)
    ensures r.sent.Some? <==> ParseInt64(path).Success?
    ensures r.sent.Some? ==> r.sent.value == VcpCommand(ParseInt64(path).value, VcpLuminance, ToUInt32(brightness))
    ensures r.thrown.None? <==> r.sent.Some? && accepted
    ensures r.sent.None? ==> r.thrown == Some(ParseFailure(ParseInt64(path).error))
    ensures r.sent.Some? && !accepted ==> r.thrown == Some(InvalidOperation(SetFailedMessage))
  {
    match ParseInt64(path)
    case Failure(e) => Attempt(None, Some(ParseFailure(e)))
    case Success(h) =>
      Attempt(Some(VcpCommand(h, VcpLuminance, ToUInt32(brightness))),
              if accepted then None else Some(InvalidOperation(SetFailedMessage)))
  }

  /** A path made from a handle by `ToString()` addresses that same handle, and a
      track-bar level is sent unchanged as the Luminance value. */
  lemma WriteReachesHandle(h: Int64, brightness: int, accepted: bool)
    requires 0 <= brightness <= 100
    ensures SetLuminance(FormatInt(h), brightness, accepted).sent == Some(VcpCommand(h, VcpLuminance, brightness))
    ensures SetLuminance(FormatInt(h), brightness, accepted).thrown.None? <==> accepted
  {
    ParseFormatRoundTrip(h);
  }
}
