/**
 * The request-validation rules. Each rule looks at one candidate value and
 * either passes (`None`, Kotlin's `null`) or returns the given error template
 * bound to the current operation, and where the rule says so to a resource
 * prefix and positional message arguments. Rules never throw.
 *
 * The parsers the rules borrow from the JDK and other libraries
 * (`UUID.fromString`, the ISO-8601 formatters, `LocalDate.parse`, the email
 * validator, the runtime's time-zone identifiers) are parameters: each rule
 * is stated relative to whatever parser it is given.
 */
module Validations {
  import opened Wrappers
  import opened Text
  import opened Errors

  /** `isNullOrBlank()`. */
  predicate IsNullOrBlank(value: Option<string>)
  {
    value.None? || IsBlank(value.value)
  }

  /** `isNullOrEmpty()` on a string. */
  predicate IsNullOrEmpty(value: Option<string>)
  {
    value.None? || value.value == []
  }

  // ---------------------------------------------------------------- required

  /** `required(String?)`: an error, echoing the value (or ""), exactly when it is null or trims to nothing. */
  function RequiredString(value: Option<string>, operation: Operation, noValueError: ApplicationError): (r: Option<ApplicationError>)
    ensures r.Some? <==> value.None? || Trim(value.value) == []
    ensures r.Some? ==> BoundFrom(r.value, noValueError, operation) && r.value.args == [Str(value.GetOr(""))]
  {
    if IsNullOrBlank(value) then Some(noValueError.ForOperation(operation).WithArgs([Str(value.GetOr(""))])) else None
  }

  /**
   * `required(Int?)`, `required(Long?)`, `required(Double?)`, `required(Boolean?)`
   * and `required(Any?)`: an error exactly when the value is null, so zero
   * and `false` are present values. The error keeps the template's arguments.
   */
  function Required<T>(value: Option<T>, operation: Operation, noValueError: ApplicationError): (r: Option<ApplicationError>)
    ensures r.Some? <==> value.None?
    ensures r.Some? ==> BoundFrom(r.value, noValueError, operation) && r.value.args == noValueError.args
  {
    if value.None? then Some(noValueError.ForOperation(operation)) else None
  }

  /** `required(List<Any>?)`: an error exactly when the list is null or empty. */
  function RequiredList<T>(value: Option<seq<T>>, operation: Operation, noValueError: ApplicationError): (r: Option<ApplicationError>)
    ensures r.Some? <==> value.None? || |value.value| == 0
    ensures r.Some? ==> BoundFrom(r.value, noValueError, operation) && r.value.args == noValueError.args
  {
    if value.None? || value.value == [] then Some(noValueError.ForOperation(operation)) else None
  }

  /**
   * `required(String?, supportedValues, ...)`: the "missing" error for a null
   * or blank value; otherwise the "unsupported" error exactly when the value,
   * as given and untrimmed, is not one of the supported values. The
   * "unsupported" error echoes the value and the supported values joined by
   * ", " in their given order.
   */
  function RequiredSupported(value: Option<string>, supportedValues: seq<string>, operation: Operation,
                             noValueError: ApplicationError, unsupportedEnumValueError: ApplicationError): (r: Option<ApplicationError>)
    ensures IsNullOrBlank(value) ==> r == Some(noValueError.ForOperation(operation))
    ensures !IsNullOrBlank(value) ==> (r.Some? <==> value.value !in supportedValues)
    ensures !IsNullOrBlank(value) && r.Some? ==>
      BoundFrom(r.value, unsupportedEnumValueError, operation) &&
      r.value.args == [Str(value.value), Str(Join(supportedValues, ", "))]
  {
    if IsNullOrBlank(value) then Some(noValueError.ForOperation(operation))
    else if value.value !in supportedValues then
      Some(unsupportedEnumValueError.ForOperation(operation).WithArgs([Str(value.value), Str(Join(supportedValues, ", "))]))
    else None
  }

  /** `requiredNull`: an error exactly when a value is present. */
  function RequiredNull(value: Option<int>, operation: Operation, noValueError: ApplicationError): (r: Option<ApplicationError>)
    ensures r.Some? <==> value.Some?
    ensures r.Some? ==> BoundFrom(r.value, noValueError, operation) && r.value.args == noValueError.args
  {
    if value.Some? then Some(noValueError.ForOperation(operation)) else None
  }

  /** `supportedValue`: blank values pass; otherwise an error exactly when the trimmed value is not supported, echoing the raw value and the supported values joined by ", ". */
  function SupportedValue(value: Option<string>, supportedValues: seq<string>, operation: Operation,
                          invalidValueError: ApplicationError): (r: Option<ApplicationError>)
    ensures r.Some? <==> !IsNullOrBlank(value) && Trim(value.value) !in supportedValues
    ensures r.Some? ==>
      BoundFrom(r.value, invalidValueError, operation) &&
      r.value.args == [Str(value.value), Str(Join(supportedValues, ", "))]
  {
    if IsNullOrBlank(value) then None
    else if Trim(value.value) !in supportedValues then
      Some(invalidValueError.ForOperation(operation).WithArgs([Str(value.value), Str(Join(supportedValues, ", "))]))
    else None
  }

  // ------------------------------------------------------------- identifiers

  /** `validUUID`: blank values pass; otherwise an error scoped to `resourceType`, echoing the value, exactly when it does not parse as a UUID. */
  function ValidUuid(value: Option<string>, resourceType: string, operation: Operation,
                     invalidValueError: ApplicationError, uuidFromString: string -> bool): (r: Option<ApplicationError>)
    ensures r.Some? <==> !IsNullOrBlank(value) && !uuidFromString(value.value)
    ensures r.Some? ==>
      BoundFrom(r.value, invalidValueError.Resource(resourceType), operation) &&
      r.value.args == [Str(value.value)] && r.value.resourceType == resourceType
  {
    if IsNullOrBlank(value) then None
    else if uuidFromString(value.value) then None
    else Some(invalidValueError.Resource(resourceType).ForOperation(operation).WithArgs([Str(value.value)]))
  }

  /**
   * `isValidUUID`: whether the value parses as a UUID. It agrees with the
   * per-element check of `validateUUIDS` on every non-empty value and with
   * `validUUID` on every non-blank one, whatever the resource, operation and
   * error.
   */
  function IsValidUuid(value: string, uuidFromString: string -> bool): (r: bool)
    ensures value != [] ==> forall resourceType, operation, e ::
      ValidateUuid(Some(value), resourceType, operation, e, uuidFromString).None? <==> r
    ensures !IsBlank(value) ==> forall resourceType, operation, e ::
      ValidUuid(Some(value), resourceType, operation, e, uuidFromString).None? <==> r
  {
    uuidFromString(value)
  }

  /**
   * The per-element check of `validateUUIDS`: a null or empty element is an
   * error with the literal argument "null" (a blank one is not: it is parsed
   * and echoed); otherwise an error, echoing the element, exactly when it
   * does not parse as a UUID.
   */
  function ValidateUuid(value: Option<string>, resourceType: string, operation: Operation,
                        error: ApplicationError, uuidFromString: string -> bool): (r: Option<ApplicationError>)
    ensures r.Some? <==> IsNullOrEmpty(value) || !uuidFromString(value.value)
    ensures r.Some? ==>
      BoundFrom(r.value, error.Resource(resourceType), operation) &&
      r.value.args == [Str(if IsNullOrEmpty(value) then "null" else value.value)]
  {
    if IsNullOrEmpty(value) then Some(error.Resource(resourceType).ForOperation(operation).WithArgs([Str("null")]))
    else if uuidFromString(value.value) then None
    else Some(error.Resource(resourceType).ForOperation(operation).WithArgs([Str(value.value)]))
  }

  /**
   * `mapNotNull` of `ValidateUuid` over a list: one error per invalid
   * element, in list order. There are never more errors than elements, and
   * none exactly when every element is a non-empty, parseable UUID.
   */
  function InvalidUuids(list: seq<string>, resourceType: string, operation: Operation,
                        error: ApplicationError, uuidFromString: string -> bool): (errors: seq<ApplicationError>)
    ensures |errors| <= |list|
    ensures errors == [] <==> forall i :: 0 <= i < |list| ==> list[i] != [] && uuidFromString(list[i])
    ensures forall k :: 0 <= k < |errors| ==>
      BoundFrom(errors[k], error.Resource(resourceType), operation) && |errors[k].args| == 1
  {
    if list == [] then []
    else
      var e := ValidateUuid(Some(list[0]), resourceType, operation, error, uuidFromString);
      var rest := InvalidUuids(list[1..], resourceType, operation, error, uuidFromString);
      assert forall i :: 1 <= i < |list| ==> list[i] == list[1..][i - 1];
      (if e.Some? then [e.value] else []) + rest
  }

  /** `validateUUIDS`: null exactly for a null list; otherwise the errors of its invalid elements, in list order. */
  function ValidateUuids(list: Option<seq<string>>, resourceType: string, operation: Operation,
                         error: ApplicationError, uuidFromString: string -> bool): (r: Option<seq<ApplicationError>>)
    ensures r.None? <==> list.None?
    ensures r.Some? ==> |r.value| <= |list.value|
    ensures r.Some? ==> (r.value == [] <==> forall i :: 0 <= i < |list.value| ==> list.value[i] != [] && uuidFromString(list.value[i]))
    ensures r.Some? ==> forall k :: 0 <= k < |r.value| ==>
      r.value[k].resourceType == resourceType && r.value[k].operation == Some(operation)
  {
    if list.None? then None else Some(InvalidUuids(list.value, resourceType, operation, error, uuidFromString))
  }

  // ----------------------------------------------------------- length, numbers

  /**
   * `maxLength`: an error carrying the limit exactly when the value is not
   * blank and its trimmed length, counted in UTF-16 units as Kotlin does,
   * exceeds the limit; a length at the limit passes.
   */
  function MaxLength(value: Option<string>, maxLength: int, operation: Operation, valueTooLongError: ApplicationError): (r: Option<ApplicationError>)
    ensures r.Some? <==> !IsNullOrBlank(value) && Utf16Length(Trim(value.value)) > maxLength
    ensures r.Some? ==> BoundFrom(r.value, valueTooLongError, operation) && r.value.args == [Named("max_length", maxLength)]
  {
    if !IsNullOrBlank(value) && Utf16Length(Trim(value.value)) > maxLength then
      Some(valueTooLongError.ForOperation(operation).WithArgs([Named("max_length", maxLength)]))
    else None
  }

  /** `positiveNumber`: null passes; otherwise an error echoing the value exactly when it is not above zero. */
  function PositiveNumber(value: Option<int>, operation: Operation, invalidValueError: ApplicationError): (r: Option<ApplicationError>)
    ensures r.Some? <==> value.Some? && value.value <= 0
    ensures r.Some? ==> BoundFrom(r.value, invalidValueError, operation) && r.value.args == [Number(value.value)]
  {
    if value.None? then None
    else if value.value <= 0 then Some(invalidValueError.ForOperation(operation).WithArgs([Number(value.value)]))
    else None
  }

  /** `validatePlannedDuration`: with no duration there is no error; with one, an error echoing it unless the flag is `true`. */
  function ValidatePlannedDuration(value: Option<bool>, duration: Option<int>, operation: Operation,
                                   invalidValueError: ApplicationError): (r: Option<ApplicationError>)
    ensures r.Some? <==> duration.Some? && value != Some(true)
    ensures r.Some? ==> BoundFrom(r.value, invalidValueError, operation) && r.value.args == [Number(duration.value)]
  {
    if duration.None? then None
    else if value != Some(true) then Some(invalidValueError.ForOperation(operation).WithArgs([Number(duration.value)]))
    else None
  }

  /**
   * `greaterOrEqualsTo` over any `Comparable`, given by its `compareTo`
   * (`compare`) and its message rendering (`show`): null passes; otherwise an
   * error echoing the value and the bound exactly when value < minValue.
   */
  function GreaterOrEqualsTo<T>(value: Option<T>, minValue: T, compare: (T, T) -> int, show: T -> Arg,
                                operation: Operation, invalidValueError: ApplicationError): (r: Option<ApplicationError>)
    ensures r.Some? <==> value.Some? && compare(value.value, minValue) < 0
    ensures r.Some? ==> BoundFrom(r.value, invalidValueError, operation) && r.value.args == [show(value.value), show(minValue)]
  {
    if value.None? then None
    else if compare(value.value, minValue) < 0 then
      Some(invalidValueError.ForOperation(operation).WithArgs([show(value.value), show(minValue)]))
    else None
  }

  /** `greaterThan`: null passes; otherwise an error echoing the value and the bound exactly when value <= minValue. */
  function GreaterThan<T>(value: Option<T>, minValue: T, compare: (T, T) -> int, show: T -> Arg,
                          operation: Operation, invalidValueError: ApplicationError): (r: Option<ApplicationError>)
    ensures r.Some? <==> value.Some? && compare(value.value, minValue) <= 0
    ensures r.Some? ==> BoundFrom(r.value, invalidValueError, operation) && r.value.args == [show(value.value), show(minValue)]
  {
    if value.None? then None
    else if compare(value.value, minValue) <= 0 then
      Some(invalidValueError.ForOperation(operation).WithArgs([show(value.value), show(minValue)]))
    else None
  }

  /** `lowerOrEqualsTo`: null passes; otherwise an error echoing the value and the bound exactly when value > maxValue. */
  function LowerOrEqualsTo<T>(value: Option<T>, maxValue: T, compare: (T, T) -> int, show: T -> Arg,
                              operation: Operation, invalidValueError: ApplicationError): (r: Option<ApplicationError>)
    ensures r.Some? <==> value.Some? && compare(value.value, maxValue) > 0
    ensures r.Some? ==> BoundFrom(r.value, invalidValueError, operation) && r.value.args == [show(value.value), show(maxValue)]
  {
    if value.None? then None
    else if compare(value.value, maxValue) > 0 then
      Some(invalidValueError.ForOperation(operation).WithArgs([show(value.value), show(maxValue)]))
    else None
  }

  // ----------------------------------------------------------- character sets

  predicate IsAsciiLetter(c: char)
  {
    'a' <= c <= 'z' || 'A' <= c <= 'Z'
  }

  /**
   * The Latin-1 letters `À-ÿ` (U+00C0..U+00FF) less the excluded symbols
   * × Þ ß ÷ þ ø. The `(?i)` flag of the patterns is ASCII-only (the patterns
   * are compiled without UNICODE_CASE), so it widens `a-z` to `A-Z` and no more.
   */
  predicate IsAccented(c: char)
  {
    0xC0 <= c as int <= 0xFF && c != '×' && c != 'Þ' && c != 'ß' && c != '÷' && c != 'þ' && c != 'ø'
  }

  /** The character classes of the named patterns. */
  datatype CharSet =
    | AlphaNumDashUnderscore                            // [a-zA-Z0-9-_]
    | AlphaAccentNumDashUnderscoreSpace                 // (?i)[-_ 0-9a-zÀ-ÿ] less the excluded symbols
    | AlphaNumDashUnderscoreSharpDot                    // [a-zA-Z0-9-_#.]
    | AlphaAccentNumDashUnderscoreSpaceSharpDot         // (?i)[-_#.', 0-9a-zÀ-ÿ] less the excluded symbols
    | AlphaAccentNumDashUnderscoreSpaceSharpDotParenthesis // (?i)[-)_(#./ 0-9a-zÀ-ÿ] less the excluded symbols
    | NumDot                                            // [0-9.]
  {
    predicate Allows(c: char)
    {
      match this
      case AlphaNumDashUnderscore =>
        IsAsciiLetter(c) || IsDigit(c) || c == '-' || c == '_'
      case AlphaAccentNumDashUnderscoreSpace =>
        IsAsciiLetter(c) || IsDigit(c) || IsAccented(c) || c == '-' || c == '_' || c == ' '
      case AlphaNumDashUnderscoreSharpDot =>
        IsAsciiLetter(c) || IsDigit(c) || c == '-' || c == '_' || c == '#' || c == '.'
      case AlphaAccentNumDashUnderscoreSpaceSharpDot =>
        IsAsciiLetter(c) || IsDigit(c) || IsAccented(c)
        || c == '-' || c == '_' || c == '#' || c == '.' || c == '\'' || c == ',' || c == ' '
      case AlphaAccentNumDashUnderscoreSpaceSharpDotParenthesis =>
        IsAsciiLetter(c) || IsDigit(c) || IsAccented(c)
        || c == '-' || c == ')' || c == '_' || c == '(' || c == '#' || c == '.' || c == '/' || c == ' '
      case NumDot =>
        IsDigit(c) || c == '.'
    }

    /** `s.matches(pattern)` for the pattern `[class]+$`: a non-empty string of allowed characters. */
    predicate Matches(s: string)
    {
      |s| > 0 && forall i :: 0 <= i < |s| ==> Allows(s[i])
    }
  }

  /** `validCharacters(value, regex, ...)`: blank values pass; otherwise an error echoing the raw value exactly when the trimmed value does not match. */
  function ValidCharacters(value: Option<string>, matches: string -> bool, operation: Operation,
                           invalidValueError: ApplicationError): (r: Option<ApplicationError>)
    ensures r.Some? <==> !IsNullOrBlank(value) && !matches(Trim(value.value))
    ensures r.Some? ==> BoundFrom(r.value, invalidValueError, operation) && r.value.args == [Str(value.value)]
  {
    if !IsNullOrBlank(value) && !matches(Trim(value.value)) then
      Some(invalidValueError.ForOperation(operation).WithArgs([Str(value.value)]))
    else None
  }

  /**
   * The named character-set rules (`alphaNumDashUnderscore`,
   * `alphaAccentNumDashUnderscoreSpace` and the three others): blank values
   * pass; otherwise an error echoing the raw value exactly when some
   * character of the trimmed value lies outside the class.
   */
  function CharSetRule(value: Option<string>, charSet: CharSet, operation: Operation,
                       invalidValueError: ApplicationError): (r: Option<ApplicationError>)
    ensures r.Some? <==> !IsNullOrBlank(value) && exists i :: 0 <= i < |Trim(value.value)| && !charSet.Allows(Trim(value.value)[i])
    ensures r.Some? ==> BoundFrom(r.value, invalidValueError, operation) && r.value.args == [Str(value.value)]
  {
    ValidCharacters(value, s => charSet.Matches(s), operation, invalidValueError)
  }

  /** The `is...Regex` checks: whether the trimmed value matches; false for null and for blank values. */
  function MatchesCharSet(value: Option<string>, charSet: CharSet): (r: bool)
    ensures r ==> !IsNullOrBlank(value)
    ensures r <==> value.Some? && Trim(value.value) != [] && forall i :: 0 <= i < |Trim(value.value)| ==> charSet.Allows(Trim(value.value)[i])
  {
    value.Some? && charSet.Matches(Trim(value.value))
  }

  /** `isEmailValid`: blank values pass; otherwise an error echoing the value exactly when the validator rejects the untrimmed value. */
  function IsEmailValid(value: Option<string>, operation: Operation, invalidValueError: ApplicationError,
                        emailValidator: string -> bool): (r: Option<ApplicationError>)
    ensures r.Some? <==> !IsNullOrBlank(value) && !emailValidator(value.value)
    ensures r.Some? ==> BoundFrom(r.value, invalidValueError, operation) && r.value.args == [Str(value.value)]
  {
    if !IsNullOrBlank(value) && !emailValidator(value.value) then
      Some(invalidValueError.ForOperation(operation).WithArgs([Str(value.value)]))
    else None
  }

  /** A label of the domain-name pattern: 1 to 63 ASCII letters, digits or dashes, neither starting nor ending with a dash. */
  predicate IsHostLabel(piece: string)
  {
    1 <= |piece| <= 63 && piece[0] != '-' && piece[|piece| - 1] != '-'
    && forall i :: 0 <= i < |piece| ==> IsAsciiLetter(piece[i]) || IsDigit(piece[i]) || piece[i] == '-'
  }

  /** The last label of the domain-name pattern: 2 to 6 ASCII letters. */
  predicate IsTopLevelLabel(piece: string)
  {
    2 <= |piece| <= 6 && forall i :: 0 <= i < |piece| ==> IsAsciiLetter(piece[i])
  }

  /**
   * The whole-string match of `^((?!-)[A-Za-z0-9-]{1,63}(?<!-)\.)+[A-Za-z]{2,6}$`.
   * No part of the pattern matches a dot except the separators, so a string
   * matches exactly when its dot-separated pieces are one or more host labels
   * followed by a top-level label.
   */
  predicate IsDomainName(s: string)
  {
    var labels := Split(s, '.');
    |labels| >= 2 && IsTopLevelLabel(labels[|labels| - 1])
    && forall i :: 0 <= i < |labels| - 1 ==> IsHostLabel(labels[i])
  }

  /** `validDomainName`: blank values pass; otherwise an error echoing the raw value exactly when the trimmed value is not a domain name. */
  function ValidDomainName(value: Option<string>, operation: Operation, invalidValueError: ApplicationError): (r: Option<ApplicationError>)
    ensures r.Some? <==> !IsNullOrBlank(value) && !IsDomainName(Trim(value.value))
    ensures r.Some? ==> BoundFrom(r.value, invalidValueError, operation) && r.value.args == [Str(value.value)]
  {
    if !IsNullOrBlank(value) && !IsDomainName(Trim(value.value)) then
      Some(invalidValueError.ForOperation(operation).WithArgs([Str(value.value)]))
    else None
  }

  // -------------------------------------------------------------------- lists

  /** `count { it.isBlank() }`. */
  function CountBlank(list: seq<string>): (n: nat)
    ensures n <= |list|
    ensures n > 0 <==> exists i :: 0 <= i < |list| && IsBlank(list[i])
  {
    if list == [] then 0
    else
      assert forall i :: 1 <= i < |list| ==> list[i] == list[1..][i - 1];
      (if IsBlank(list[0]) then 1 else 0) + CountBlank(list[1..])
  }

  /** `noBlankElement`: a null or empty list passes; otherwise an error scoped to `resourceType`, carrying the number of blank elements, exactly when there is one. */
  function NoBlankElement(list: Option<seq<string>>, resourceType: string, operation: Operation,
                          blankListElementError: ApplicationError): (r: Option<ApplicationError>)
    ensures r.Some? <==> list.Some? && exists i :: 0 <= i < |list.value| && IsBlank(list.value[i])
    ensures r.Some? ==>
      BoundFrom(r.value, blankListElementError.Resource(resourceType), operation) &&
      r.value.args == [Number(CountBlank(list.value))] && 0 < CountBlank(list.value) <= |list.value|
  {
    if list.None? || list.value == [] then None
    else
      var blankCount := CountBlank(list.value);
      if blankCount > 0 then
        Some(blankListElementError.Resource(resourceType).ForOperation(operation).WithArgs([Number(blankCount)]))
      else None
  }

  // ------------------------------------------------------- dates and times

  /** `validDate`: blank values pass; otherwise an error echoing the raw value exactly when the trimmed value is not an ISO-8601 offset date-time. */
  function ValidDate(value: Option<string>, operation: Operation, invalidValueError: ApplicationError,
                     parsesOffsetDateTime: string -> bool): (r: Option<ApplicationError>)
    ensures r.Some? <==> !IsNullOrBlank(value) && !parsesOffsetDateTime(Trim(value.value))
    ensures r.Some? ==> BoundFrom(r.value, invalidValueError, operation) && r.value.args == [Str(value.value)]
  {
    if IsNullOrBlank(value) then None
    else if parsesOffsetDateTime(Trim(value.value)) then None
    else Some(invalidValueError.ForOperation(operation).WithArgs([Str(value.value)]))
  }

  /** `validTime`: blank values pass; otherwise an error echoing the raw value exactly when the trimmed value is not an ISO-8601 local time. */
  function ValidTime(value: Option<string>, operation: Operation, invalidValueError: ApplicationError,
                     parsesLocalTime: string -> bool): (r: Option<ApplicationError>)
    ensures r.Some? <==> !IsNullOrBlank(value) && !parsesLocalTime(Trim(value.value))
    ensures r.Some? ==> BoundFrom(r.value, invalidValueError, operation) && r.value.args == [Str(value.value)]
  {
    if IsNullOrBlank(value) then None
    else if parsesLocalTime(Trim(value.value)) then None
    else Some(invalidValueError.ForOperation(operation).WithArgs([Str(value.value)]))
  }

  /** `validTimezone`: blank values pass; otherwise an error echoing the raw value exactly when the trimmed value is not an available zone identifier. */
  function ValidTimezone(value: Option<string>, operation: Operation, invalidValueError: ApplicationError,
                         availableIds: set<string>): (r: Option<ApplicationError>)
    ensures r.Some? <==> !IsNullOrBlank(value) && Trim(value.value) !in availableIds
    ensures r.Some? ==> BoundFrom(r.value, invalidValueError, operation) && r.value.args == [Str(value.value)]
  {
    if !IsNullOrBlank(value) && Trim(value.value) !in availableIds then
      Some(invalidValueError.ForOperation(operation).WithArgs([Str(value.value)]))
    else None
  }

  /** `isValidDate`: blank values pass; otherwise an error without arguments exactly when the untrimmed value is not an ISO-8601 date. */
  function IsValidDate(date: Option<string>, operation: Operation, errorToReturn: ApplicationError,
                       localDate: string -> Option<int>): (r: Option<ApplicationError>)
    ensures r.Some? <==> !IsNullOrBlank(date) && localDate(date.value).None?
    ensures r.Some? ==> BoundFrom(r.value, errorToReturn, operation) && r.value.args == errorToReturn.args
  {
    if !IsNullOrBlank(date) && localDate(date.value).None? then Some(errorToReturn.ForOperation(operation)) else None
  }

  /** `tryToParseDateTime` and `tryToParseDate`: the trimmed value parsed, or null when it is null or does not parse. */
  function TryToParse(value: Option<string>, parse: string -> Option<int>): (r: Option<int>)
    ensures r.Some? <==> value.Some? && parse(Trim(value.value)).Some?
    ensures r.Some? ==> r == parse(Trim(value.value))
  {
    if value.None? then None else parse(Trim(value.value))
  }

  /**
   * `dateTimeBeforeThan`: when either side is null or does not parse there
   * is no error; otherwise an error, echoing the raw end and then the raw
   * start, exactly when the start instant is not strictly before the end
   * instant. Instants are compared, not texts, so equal instants written
   * with different offsets are an error too.
   */
  function DateTimeBeforeThan(dateTime: Option<string>, beforeThan: Option<string>, operation: Operation,
                              errorToReturn: ApplicationError, offsetDateTimeInstant: string -> Option<int>): (r: Option<ApplicationError>)
    ensures TryToParse(dateTime, offsetDateTimeInstant).None? || TryToParse(beforeThan, offsetDateTimeInstant).None? ==> r.None?
    ensures r.Some? <==>
      dateTime.Some? && beforeThan.Some? &&
      match (offsetDateTimeInstant(Trim(dateTime.value)), offsetDateTimeInstant(Trim(beforeThan.value)))
      case (Some(start), Some(end)) => end <= start
      case _ => false
    ensures r.Some? ==>
      BoundFrom(r.value, errorToReturn, operation) &&
      r.value.args == [Str(beforeThan.value), Str(dateTime.value)]
  {
    var start := TryToParse(dateTime, offsetDateTimeInstant);
    var end := TryToParse(beforeThan, offsetDateTimeInstant);
    if start.Some? && end.Some? && start.value >= end.value then
      Some(errorToReturn.ForOperation(operation).WithArgs([Str(beforeThan.value), Str(dateTime.value)]))
    else None
  }

  /** `dateBeforeThan`: the same ordering rule on ISO-8601 dates; its error carries no arguments. */
  function DateBeforeThan(date: Option<string>, beforeThan: Option<string>, operation: Operation,
                          errorToReturn: ApplicationError, localDate: string -> Option<int>): (r: Option<ApplicationError>)
    ensures TryToParse(date, localDate).None? || TryToParse(beforeThan, localDate).None? ==> r.None?
    ensures r.Some? <==>
      date.Some? && beforeThan.Some? &&
      match (localDate(Trim(date.value)), localDate(Trim(beforeThan.value)))
      case (Some(start), Some(end)) => end <= start
      case _ => false
    ensures r.Some? ==> BoundFrom(r.value, errorToReturn, operation) && r.value.args == errorToReturn.args
  {
    var start := TryToParse(date, localDate);
    var end := TryToParse(beforeThan, localDate);
    if start.Some? && end.Some? && start.value >= end.value then Some(errorToReturn.ForOperation(operation)) else None
  }
}
