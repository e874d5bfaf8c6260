/**
 * The error strings of the capture DLL (SpyX/Capture/WindowCaptureAPI.cpp): every
 * failure records one of these in g_LastError. Start failures embed the HRESULT in
 * the "0x%08X" format, modelled here digit by digit.
 */
module ApiErrors {
  import opened WinTypes

  datatype ApiError =
    | NoError                     // the empty string of a response that succeeded
    | UnknownError                // SetError(nullptr)
    | NotCapturing
    | NoFrameAvailable
    | InvalidTextureDimensions
    | StagingFailed
    | MapFailed
    | AllocFailed
    | DeviceInitFailed
    | NotInitialized
    | InvalidWindowHandle
    | StartFailed(hr: HResult)
    | ComInitFailed
    | ThreadStartFailed
    | ThreadNotRunning
    | InvalidParameters
    | NullFrameInfo
    | NullFrameData
    | InvalidFrameDimensions
    | BufferTooSmall

  /** The text of an error, as the DLL writes it. */
  function Message(e: ApiError): string {
    match e
    case NoError => ""
    case UnknownError => "Unknown error"
    case NotCapturing => "Not capturing"
    case NoFrameAvailable => "No frame available"
    case InvalidTextureDimensions => "Invalid texture dimensions"
    case StagingFailed => "Failed to create staging texture"
    case MapFailed => "Failed to map staging texture"
    case AllocFailed => "Failed to allocate memory"
    case DeviceInitFailed => "Failed to initialize D3D11"
    case NotInitialized => "Not initialized"
    case InvalidWindowHandle => "Invalid window handle"
    case StartFailed(hr) => "Failed to start capture (HRESULT: 0x" + Hex(hr, 8) + ")"
    case ComInitFailed => "Failed to initialize COM in capture thread"
    case ThreadStartFailed => "Failed to start capture thread"
    case ThreadNotRunning => "Capture thread not running"
    case InvalidParameters => "Invalid parameters"
    case NullFrameInfo => "Invalid parameter: outInfo is null"
    case NullFrameData => "Frame data is null despite success"
    case InvalidFrameDimensions => "Invalid frame dimensions in response"
    case BufferTooSmall => "Buffer too small"
  }

  /** An upper-case hexadecimal digit, as printf's %X writes it. */
  function HexDigit(d: int): (c: char)
    requires 0 <= d < 16
    ensures IsHexDigit(c) && DigitValue(c) == d
  {
    if d < 10 then (48 + d) as char else (55 + d) as char
  }

  predicate IsHexDigit(c: char) {
    '0' <= c <= '9' || 'A' <= c <= 'F'
  }

  function DigitValue(c: char): (d: nat)
    requires IsHexDigit(c)
    ensures d < 16
  {
    if c <= '9' then c as int - 48 else c as int - 55
  }

  function Pow16(k: nat): (p: nat)
    ensures p >= 1
  {
    if k == 0 then 1 else 16 * Pow16(k - 1)
  }

  /** n in exactly `digits` upper-case hexadecimal digits, zero-padded ("%0<digits>X"). */
  function Hex(n: nat, digits: nat): (s: string)
    ensures |s| == digits
    ensures forall i :: 0 <= i < |s| ==> IsHexDigit(s[i])
  {
    if digits == 0 then "" else Hex(n / 16, digits - 1) + [HexDigit(n % 16)]
  }

  /** The number a string of hexadecimal digits denotes. */
  function HexValue(s: string): nat
    requires forall i :: 0 <= i < |s| ==> IsHexDigit(s[i])
  {
    if s == [] then 0 else 16 * HexValue(s[..|s| - 1]) + DigitValue(s[|s| - 1])
  }

  /** Reading the digits back gives the number: "%08X" loses nothing of a 32-bit value. */
  lemma {:induction false} HexRoundTrip(n: nat, digits: nat)
    requires n < Pow16(digits)
    ensures HexValue(Hex(n, digits)) == n
  {
    if digits > 0 {
      var s := Hex(n, digits);
      assert s[..|s| - 1] == Hex(n / 16, digits - 1);
      assert n / 16 < Pow16(digits - 1) by {
        assert n < 16 * Pow16(digits - 1);
      }
      HexRoundTrip(n / 16, digits - 1);
    }
  }

  /** The start-failure text carries the whole HRESULT, recoverable from its digits. */
  lemma StartFailureNamesHResult(hr: HResult)
    ensures var m := Message(StartFailed(hr));
            && |m| == 45 && m[..36] == "Failed to start capture (HRESULT: 0x" && m[44] == ')'
            && (forall i :: 36 <= i < 44 ==> IsHexDigit(m[i]))
            && HexValue(m[36..44]) == hr
  {
    assert Pow16(8) == 0x1_0000_0000;
    HexRoundTrip(hr, 8);
    var m := Message(StartFailed(hr));
    assert m[36..44] == Hex(hr, 8);
  }
}
