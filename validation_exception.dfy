/** The exception a validate-and-transform pass throws, carrying every error it collected. */
module ValidationExceptions {
  import opened Errors

  /** `ValidationException(vararg applicationError)`: the errors in the order they were passed. */
  datatype ValidationException = ValidationException(applicationError: seq<ApplicationError>)
  {
    /** `getApplicationErrors()`: every error passed at construction, in the same order, none dropped, merged or de-duplicated. */
    function GetApplicationErrors(): (errors: seq<ApplicationError>)
      ensures |errors| == |applicationError|
      ensures forall i :: 0 <= i < |errors| ==> errors[i] == applicationError[i]
    {
      applicationError
    }
  }
}
