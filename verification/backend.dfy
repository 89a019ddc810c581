/** The native Embree 4 device, seen from the wrapper as an oracle.

    The wrapper never looks inside a backend call; it only sees what the call
    returns (a handle or buffer pointer that may be null) and what it leaves in
    the device's error slot.  The slot follows the Embree 4 API documentation of
    `rtcGetDeviceError`: a failing call stores its error code only when the slot
    holds no earlier error, and reading the slot returns the stored code and
    resets it to `RTC_ERROR_NONE`.

    `DeviceState` is that slot together with the log of every call the wrapper
    has made, error reads included, so that orderings, counts and absences of
    calls can be stated about it. */
module Backend {
  import opened Outcomes

  newtype u32 = x: int | 0 <= x < 0x1_0000_0000

  /** `RTCError`. */
  datatype RtcError =
    | ErrorNone
    | ErrorUnknown
    | ErrorInvalidArgument
    | ErrorInvalidOperation
    | ErrorOutOfMemory
    | ErrorUnsupportedCpu
    | ErrorCancelled

  /** The `{:?}` rendering of an error code. */
  function Name(e: RtcError): string
  {
    match e
    case ErrorNone => "RTC_ERROR_NONE"
    case ErrorUnknown => "RTC_ERROR_UNKNOWN"
    case ErrorInvalidArgument => "RTC_ERROR_INVALID_ARGUMENT"
    case ErrorInvalidOperation => "RTC_ERROR_INVALID_OPERATION"
    case ErrorOutOfMemory => "RTC_ERROR_OUT_OF_MEMORY"
    case ErrorUnsupportedCpu => "RTC_ERROR_UNSUPPORTED_CPU"
    case ErrorCancelled => "RTC_ERROR_CANCELLED"
  }

  /** Reads an error code back from its rendering. */
  function FromName(s: string): (r: Option<RtcError>)
    ensures r.Some? ==> Name(r.value) == s
  {
    if s == "RTC_ERROR_NONE" then Some(ErrorNone)
    else if s == "RTC_ERROR_UNKNOWN" then Some(ErrorUnknown)
    else if s == "RTC_ERROR_INVALID_ARGUMENT" then Some(ErrorInvalidArgument)
    else if s == "RTC_ERROR_INVALID_OPERATION" then Some(ErrorInvalidOperation)
    else if s == "RTC_ERROR_OUT_OF_MEMORY" then Some(ErrorOutOfMemory)
    else if s == "RTC_ERROR_UNSUPPORTED_CPU" then Some(ErrorUnsupportedCpu)
    else if s == "RTC_ERROR_CANCELLED" then Some(ErrorCancelled)
    else None
  }

  /** Every rendering reads back as the code it came from, so distinct codes
      render distinctly. */
  lemma NameRoundTrip(e: RtcError)
    ensures FromName(Name(e)) == Some(e)
  {
  }

  /** Every rendering starts with `RTC_ERROR_`. */
  lemma NamePrefix(e: RtcError)
    ensures StartsWith(Name(e), "RTC_ERROR_")
  {
  }

  /** A raw handle or pointer returned by the backend. */
  datatype Ptr = Null | Addr(addr: nat)

  /** A non-null `extern "C"` function pointer. */
  datatype FnPtr = FnPtr(addr: nat)

  datatype GeometryType = TriangleGeometry | UserGeometryType

  datatype BufferType = VertexBuffer | IndexBuffer

  datatype Format = Float3 | Uint3

  /** `RTCBuildQuality`. */
  datatype RtcBuildQuality = BuildQualityLow | BuildQualityMedium | BuildQualityHigh | BuildQualityRefit

  /** One entry of the call log: a backend call with the arguments the wrapper
      passed.  The device handle every call carries is left implicit. */
  datatype Call =
    | NewGeometry(kind: GeometryType)
    | SetNewGeometryBuffer(geometry: Ptr, bufferType: BufferType, slot: nat, format: Format,
                           byteStride: nat, itemCount: nat)
    | SetGeometryUserPrimitiveCount(geometry: Ptr, count: u32)
    | SetGeometryUserData(geometry: Ptr, userPtr: Ptr)
    | SetGeometryBoundsFunction(geometry: Ptr, boundsFn: FnPtr, userPtr: Ptr)
    | SetGeometryIntersectFunction(geometry: Ptr, intersectFn: FnPtr)
    | SetGeometryOccludedFunction(geometry: Ptr, occludedFn: FnPtr)
    | CommitGeometry(geometry: Ptr)
    | ReleaseGeometry(geometry: Ptr)
    | NewScene
    | SetSceneBuildQuality(scene: Ptr, quality: RtcBuildQuality)
    | SetSceneFlags(scene: Ptr)
    | ReleaseScene(scene: Ptr)
    | GetDeviceError

  /** What the oracle answers to a call that returns a handle or pointer: the
      value returned and the error the call raised (`ErrorNone` if none). */
  datatype Reply = Reply(ret: Ptr, raised: RtcError)

  /** The device's error slot and the log of calls made on the device. */
  datatype DeviceState = DeviceState(pending: RtcError, trace: seq<Call>)

  /** The slot after a call raised `raised`: an earlier unread error is kept. */
  function Raise(pending: RtcError, raised: RtcError): (slot: RtcError)
    ensures slot == ErrorNone <==> pending == ErrorNone && raised == ErrorNone
    ensures pending != ErrorNone ==> slot == pending
    ensures pending == ErrorNone ==> slot == raised
  {
    if pending == ErrorNone then raised else pending
  }

  /** Makes call `c`, which raises `raised`. */
  function Invoke(d: DeviceState, c: Call, raised: RtcError): (d': DeviceState)
    ensures d'.trace == d.trace + [c]
    ensures d'.pending == ErrorNone <==> d.pending == ErrorNone && raised == ErrorNone
  {
    DeviceState(Raise(d.pending, raised), d.trace + [c])
  }

  /** `rtcGetDeviceError`: returns the stored code and clears the slot. */
  function ReadError(d: DeviceState): (r: (RtcError, DeviceState))
    ensures r.0 == d.pending
    ensures r.1 == DeviceState(ErrorNone, d.trace + [GetDeviceError])
  {
    (d.pending, DeviceState(ErrorNone, d.trace + [GetDeviceError]))
  }

  /** True iff no call in `calls` releases a geometry or a scene. */
  predicate ReleasesNothing(calls: seq<Call>)
  {
    forall i :: 0 <= i < |calls| ==> !calls[i].ReleaseGeometry? && !calls[i].ReleaseScene?
  }
}
