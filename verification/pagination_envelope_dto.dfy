/** The pagination block of a response envelope. */
module PaginationEnvelopeDto {
  datatype PaginationEnvelope = PaginationEnvelope(page: int, nbPages: int, nbResults: int, nbResultsPerPage: int)

  /** A new pagination block: page 1 of 1, one result, fifty per page. */
  function NewPaginationEnvelope(): (r: PaginationEnvelope)
    ensures r.page == 1 && r.nbPages == 1
    ensures r.nbResults == 1 && r.nbResultsPerPage == 50
  {
    PaginationEnvelope(1, 1, 1, 50)
  }
}
