/**
 * The error block of a response envelope, and the "status if truthy,
 * else 500" rule it shares with the interceptor.
 */
module ErrorEnvelopeDto {
  import opened Wrappers

  const InternalServerError := 500

  /**
   * A numeric status or code that may be absent: the value when it is
   * present and truthy (non-zero), otherwise 500. The result is never 0.
   */
  function CodeOrInternalServerError(code: Option<int>): (r: int)
    ensures r != 0
    ensures code.Some? && code.value != 0 ==> r == code.value
    ensures code.None? || code.value == 0 ==> r == InternalServerError
  {
    if code.Some? && code.value != 0 then code.value else InternalServerError
  }

  /** The error block; `data` and `trace` are absent unless given. */
  datatype ErrorEnvelope = ErrorEnvelope(message: string, code: int, data: Option<string>, trace: Option<string>)

  /**
   * The constructor: the message given replaces the field's initial text, the code defaults
   * to 500 when absent or 0, data and trace are kept as given.
   */
  function NewErrorEnvelope(message: string, code: Option<int>, data: Option<string>, trace: Option<string>): (r: ErrorEnvelope)
    ensures r.message == message && r.data == data && r.trace == trace
    ensures r.code != 0
    ensures r.code == InternalServerError <==> code.None? || code.value == 0 || code.value == InternalServerError
    ensures code.Some? && code.value != 0 ==> r.code == code.value
  {
    ErrorEnvelope(message, CodeOrInternalServerError(code), data, trace)
  }
}
