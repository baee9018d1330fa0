/**
 * The response envelope: a payload, a pagination block and an error
 * block, each null until set. What a handler produces (and so what the
 * payload can be) is a `Value`: null, one resource, a page of resources
 * or a thrown error.
 */
module EnvelopeDto {
  import opened Wrappers
  import opened Paginated
  import opened PaginationEnvelopeDto
  import opened ErrorEnvelopeDto

  /** A thrown error: its name and message, and an HTTP status if it carries one. */
  datatype ErrorObject = ErrorObject(name: string, message: string, status: Option<int>)

  datatype Value<R> =
    | Null
    | Resource(resource: R)
    | Paginated(resources: PaginatedResources<R>)
    | Failure(error: ErrorObject)

  /** The envelope as it is serialized into the response body. */
  datatype EnvelopeBody<R> = EnvelopeBody(data: Value<R>, pagination: Option<PaginationEnvelope>, error: Option<ErrorEnvelope>)

  class Envelope<R> {
    var data: Value<R>
    var pagination: Option<PaginationEnvelope>
    var error: Option<ErrorEnvelope>

    /** The fields as they are serialized. */
    function Body(): EnvelopeBody<R>
      reads this
    {
      EnvelopeBody(data, pagination, error)
    }

    /** A new envelope: payload, pagination and error all null. */
    constructor ()
      ensures data == Null && pagination == None && error == None
    {
      data := Null;
      pagination := None;
      error := None;
    }

    /** setData: replaces the payload only. */
    method SetData(resource: Value<R>)
      modifies this
      ensures Body() == old(Body()).(data := resource)
    {
      data := resource;
    }

    /** setPagination: replaces the pagination block only. */
    method SetPagination(p: PaginationEnvelope)
      modifies this
      ensures Body() == old(Body()).(pagination := Some(p))
    {
      pagination := Some(p);
    }

    /** setError: replaces the error block only. */
    method SetError(e: ErrorEnvelope)
      modifies this
      ensures Body() == old(Body()).(error := Some(e))
    {
      error := Some(e);
    }
  }
}
