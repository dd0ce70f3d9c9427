/**
 * The list/sort request: the `sort` query parameter captured once, when the
 * request object is built, then validated and turned into a `QuerySort`,
 * or rejected with every error collected.
 */
module SortRequests {
  import opened Wrappers
  import opened Text
  import opened Errors
  import opened ValidationExceptions
  import opened Validations

  /** The field a listing is sorted by when the request names none. */
  const DefaultSortByField: string := "name"

  /** The only supported sort field. */
  const SupportedSortValues: seq<string> := ["name"]

  /** The validated sort command handed to the business layer. */
  datatype QuerySort = QuerySort(sortBy: string)

  /** `SortRequest`: the raw sort value and the error reported when it is unsupported. */
  class SortRequest {
    const sortBy: Option<string>
    const invalidSortError: ApplicationError

    /** Reads `sort` from the request's query parameters, once. */
    constructor (queryParameters: map<string, string>, invalidSortError: ApplicationError)
      ensures sortBy == (if "sort" in queryParameters then Some(queryParameters["sort"]) else None)
      ensures this.invalidSortError == invalidSortError
    {
      sortBy := if "sort" in queryParameters then Some(queryParameters["sort"]) else None;
      this.invalidSortError := invalidSortError;
    }

    /**
     * `validateAndTransform`: collects the errors of every rule (here the one
     * supported-value rule), throws them all if there are any and otherwise
     * returns the sort command, defaulted to "name" for a missing or blank
     * value. A non-blank value that trims to anything but "name" is rejected
     * with exactly one error, bound to `operation`, echoing the raw value and
     * the supported list; an accepted value is returned raw, untrimmed.
     */
    method ValidateAndTransform(operation: Operation) returns (r: Result<QuerySort, ValidationException>)
      ensures r.Failure? <==> sortBy.Some? && !IsBlank(sortBy.value) && Trim(sortBy.value) != DefaultSortByField
      ensures r.Failure? ==>
        var errors := r.error.GetApplicationErrors();
        |errors| == 1 && BoundFrom(errors[0], invalidSortError, operation) &&
        errors[0].args == [Str(sortBy.value), Str("name")]
      ensures r.Success? && IsNullOrBlank(sortBy) ==> r.value.sortBy == DefaultSortByField
      ensures r.Success? && !IsNullOrBlank(sortBy) ==> r.value.sortBy == sortBy.value && Trim(r.value.sortBy) == DefaultSortByField
    {
      var errors: seq<ApplicationError> := [];
      var error := SupportedValue(sortBy, SupportedSortValues, operation, invalidSortError);
      if error.Some? {
        errors := errors + [error.value];
      }
      if |errors| > 0 {
        return Failure(ValidationException(errors));
      }
      r := Success(QuerySort(if IsNullOrBlank(sortBy) then DefaultSortByField else sortBy.value));
    }
  }
}
