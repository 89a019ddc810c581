/** The crate's error-slot helpers (`src/lib.rs`): every construction path
    turns the backend's side-channel error code into an `Option` or a `Result`
    through these two functions. */
module DeviceErrors {
  import opened Outcomes
  import opened Backend

  /** `device_error_raw`: reads the slot once; `None` stands for `RTC_ERROR_NONE`. */
  function DeviceErrorRaw(d: DeviceState): (r: (Option<RtcError>, DeviceState))
    ensures r.0 == None <==> d.pending == ErrorNone
    ensures r.0.Some? ==> r.0.value == d.pending && r.0.value != ErrorNone
    ensures r.1.pending == ErrorNone
    ensures r.1.trace == d.trace + [GetDeviceError]
  {
    var (err, d') := ReadError(d);
    if err != ErrorNone then (Some(err), d') else (None, d')
  }

  /** The `{:?}` rendering of an `Option<RTCError>`. */
  function DebugOption(o: Option<RtcError>): string
  {
    match o
    case None => "None"
    case Some(e) => "Some(" + Name(e) + ")"
  }

  /** The text `bail!("{}: {:?}", message, error)` produces. */
  function ErrorText(message: string, e: RtcError): string
  {
    message + ": " + Name(e)
  }

  /** `device_error_or`: `Ok(okValue)` when the slot was clean, otherwise an
      error naming `message` and the code; the slot is read exactly once. */
  function DeviceErrorOr<T>(d: DeviceState, okValue: T, message: string): (r: (Outcome<T>, DeviceState))
    ensures r.0 == Ok(okValue) <==> d.pending == ErrorNone
    ensures r.0.Err? <==> d.pending != ErrorNone
    ensures r.0.Err? ==> r.0.message == ErrorText(message, d.pending)
    ensures r.1.pending == ErrorNone
    ensures r.1.trace == d.trace + [GetDeviceError]
  {
    var (err, d') := DeviceErrorRaw(d);
    match err
    case Some(e) => (Err(ErrorText(message, e)), d')
    case None => (Ok(okValue), d')
  }

  /** The text of an error names the code it was built from: a fixed message
      with two different codes gives two different texts. */
  lemma ErrorTextInjective(message: string, e1: RtcError, e2: RtcError)
    requires ErrorText(message, e1) == ErrorText(message, e2)
    ensures e1 == e2
  {
    var n := |message| + 2;
    assert Name(e1) == ErrorText(message, e1)[n..];
    assert Name(e2) == ErrorText(message, e2)[n..];
    NameRoundTrip(e1);
    NameRoundTrip(e2);
  }

  /** An error text starts with its message and a colon, and what follows
      reads back as the code. */
  lemma ErrorTextNamesCode(message: string, e: RtcError)
    ensures StartsWith(ErrorText(message, e), message + ": ")
    ensures FromName(ErrorText(message, e)[|message| + 2..]) == Some(e)
  {
    assert ErrorText(message, e)[|message| + 2..] == Name(e);
    NameRoundTrip(e);
  }

  /** The rendering of an `Option` never reads like a bare code: `None` and
      `Some(..)` differ from `RTC_ERROR_..` in their first character. */
  lemma DebugOptionFirstChar(o: Option<RtcError>)
    ensures |DebugOption(o)| > 0 && DebugOption(o)[0] in {'N', 'S'}
  {
  }
}
