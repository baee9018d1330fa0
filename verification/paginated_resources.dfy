/**
 * The page of resources a paginated query hands to the response layer:
 * the rows and four counters, stored in the order the constructor
 * receives them.
 */
module Paginated {
  datatype PaginatedResources<R> = PaginatedResources(
    resources: seq<R>,
    page: int,
    nbPages: int,
    nbResults: int,
    nbResultsPerPage: int)
}
