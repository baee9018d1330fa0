/**
 * The envelope interceptor: every value a handler emits is wrapped in an
 * envelope; every error it throws becomes an HTTP exception whose body is
 * the error's envelope and whose status is the error's own when it has
 * a truthy one, else 500.
 */
module EnvelopeInterceptor {
  import opened Wrappers
  import opened Paginated
  import opened ErrorEnvelopeDto
  import opened EnvelopeDto
  import opened EnvelopeService

  /**
   * The body mapDataToApiEnvelope produces: a page record or a single
   * value becomes the payload, a thrown error the all-null envelope;
   * pagination and error blocks are never set.
   */
  function MappedBody<R>(v: Value<R>): (r: EnvelopeBody<R>)
    ensures r.pagination.None? && r.error.None?
    ensures v.Failure? ==> r.data == Null
    ensures !v.Failure? ==> r.data == v
  {
    match v
    case Paginated(_) => EnvelopeBody(v, None, None)
    case Failure(_) => EnvelopeBody(Null, None, None)
    case _ => EnvelopeBody(v, None, None)
  }

  /** mapDataToApiEnvelope: the page test first, then the error test, then a single resource. */
  method MapDataToApiEnvelope<R>(v: Value<R>) returns (e: Envelope<R>)
    ensures fresh(e) && e.Body() == MappedBody(v)
  {
    if v.Paginated? {
      e := MapMultipleResources(v.resources);
    } else if v.Failure? {
      e := MapErrorOrException(v.error);
    } else {
      e := MapSingleResource(v);
    }
  }

  /**
   * The status of the HTTP exception for a thrown value: the error's own
   * status when present and truthy, otherwise 500; never 0.
   */
  function ErrorStatus<R>(thrown: Value<R>): (r: int)
    ensures r != 0
    ensures thrown.Failure? && thrown.error.status.Some? && thrown.error.status.value != 0 ==> r == thrown.error.status.value
    ensures r != InternalServerError ==> thrown.Failure? && thrown.error.status == Some(r)
  {
    match thrown
    case Failure(ErrorObject(_, _, Some(status))) => if status != 0 then status else InternalServerError
    case _ => InternalServerError
  }

  /**
   * The exception status and the code of an error envelope built from the
   * same status follow the same truthy-or-500 rule.
   */
  lemma ErrorStatusMatchesErrorEnvelope<R>(e: ErrorObject)
    ensures ErrorStatus<R>(Failure(e)) == NewErrorEnvelope(e.message, e.status, None, None).code
  {
  }

  /** What the handler does: emit a value or throw one. */
  datatype Emission<R> = Next(value: Value<R>) | Thrown(thrown: Value<R>)

  /** What the client receives: an envelope, or an HTTP exception carrying one and a status. */
  datatype Reply<R> = Emitted(envelope: Envelope<R>) | HttpException(response: Envelope<R>, status: int)

  /** intercept: emitted values are mapped; thrown values become an HTTP exception. */
  method Intercept<R>(call: Emission<R>) returns (r: Reply<R>)
    ensures call.Next? ==> r.Emitted? && fresh(r.envelope) && r.envelope.Body() == MappedBody(call.value)
    ensures call.Thrown? ==> r.HttpException? && fresh(r.response)
    ensures call.Thrown? ==> r.response.Body() == MappedBody(call.thrown) && r.status == ErrorStatus(call.thrown)
  {
    match call
    case Thrown(err) =>
      var body := MapDataToApiEnvelope(err);
      r := HttpException(body, ErrorStatus(err));
    case Next(data) =>
      var body := MapDataToApiEnvelope(data);
      r := Emitted(body);
  }
}
