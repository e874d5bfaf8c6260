/** Windows and COM vocabulary shared by the capture, overlay and delegate models. */
module WinTypes {

  /** A value or its absence (a null pointer, a missing frame). */
  datatype Option<+T> = None | Some(value: T)

  /** One byte of a BGRA pixel buffer. */
  type Byte = b: int | 0 <= b < 256

  /** A window handle; 0 is the null HWND. */
  type Hwnd = nat

  const NullHwnd: Hwnd := 0

  /** An HRESULT, as its unsigned 32-bit pattern. */
  type HResult = h: int | 0 <= h < 0x1_0000_0000

  const S_OK: HResult := 0
  const S_FALSE: HResult := 1
  const E_NOINTERFACE: HResult := 0x8000_4002
  const E_FAIL: HResult := 0x8000_4005
  const E_UNEXPECTED: HResult := 0x8000_FFFF
  const E_HANDLE: HResult := 0x8007_0006
  const E_INVALIDARG: HResult := 0x8007_0057

  /** FAILED(hr): the severity bit, bit 31, is set. */
  predicate Failed(hr: HResult) {
    hr >= 0x8000_0000
  }

  /** MAKE_HRESULT(SEVERITY_ERROR, FACILITY_ITF, code): a custom interface error. */
  function MakeItfError(code: int): (hr: HResult)
    requires 0 <= code < 0x1_0000
    ensures Failed(hr) && hr % 0x1_0000 == code
    ensures hr != S_OK && hr != S_FALSE
  {
    0x8004_0000 + code
  }
}
