/**
 * The envelope service: each mapping allocates a fresh envelope and
 * fills in what it maps.
 */
module EnvelopeService {
  import opened Wrappers
  import opened Paginated
  import opened EnvelopeDto

  /** getEnvelope: a fresh, all-null envelope. */
  method GetEnvelope<R>() returns (e: Envelope<R>)
    ensures fresh(e) && e.Body() == EnvelopeBody(Null, None, None)
  {
    e := new Envelope();
  }

  /** mapSingleResource: the value becomes the payload; pagination and error stay null. */
  method MapSingleResource<R>(resource: Value<R>) returns (e: Envelope<R>)
    ensures fresh(e) && e.Body() == EnvelopeBody(resource, None, None)
  {
    e := GetEnvelope();
    e.SetData(resource);
  }

  /**
   * mapMultipleResources: the whole page record becomes the payload; the
   * pagination block is never filled in.
   */
  method MapMultipleResources<R>(resources: PaginatedResources<R>) returns (e: Envelope<R>)
    ensures fresh(e) && e.Body() == EnvelopeBody(Paginated(resources), None, None)
  {
    e := GetEnvelope();
    e.SetData(Paginated(resources));
  }

  /** mapErrorOrException: the error is ignored; payload, pagination and error all stay null. */
  method MapErrorOrException<R>(err: ErrorObject) returns (e: Envelope<R>)
    ensures fresh(e) && e.Body() == EnvelopeBody(Null, None, None)
  {
    e := GetEnvelope();
  }
}
