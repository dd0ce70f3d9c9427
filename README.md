# Request validation rules and collect-then-fail aggregation

A Dafny model of the validation core of ProductFunctionApp, a small set of
Kotlin HTTP functions:

- the **rule library** `Validations`: stateless rules that take a candidate
  value, the current `Operation` and an error template. Each returns `null`
  when the value is valid. Otherwise it returns the template bound to the
  operation, and, where the rule says so, to a resource prefix and to
  positional message arguments;
- the **error identity**: an `ApplicationError` template bound to an
  operation. Its machine code is `{resource}_{HTTP verb}_{numeric code}`.
  The HTTP method resolves to an operation: POST→CREATE, PUT→UPDATE,
  GET→READ, DELETE→DELETE;
- the **aggregation pattern** `SortRequest.validateAndTransform`. It collects
  the errors of its rules in a list. If there are any it throws a
  `ValidationException` holding all of them; otherwise it returns a
  `QuerySort` whose field defaults to "name";
- `ValidationException`, the ordered error container.

Files:

| file | module | models |
|---|---|---|
| wrappers.dfy | `Wrappers` | `Option` (a Kotlin nullable) and `Result` (a value returned or an exception thrown) |
| text.dfy | `Text` | text helpers. The rules use `isWhitespace`, `isBlank`, `trim`, UTF-16 `length` and `joinToString`. `Split` takes a domain name apart into labels. Decimal rendering, `lastIndexOf` and `substring` build an error code and read its numeric part back |
| application_error.dfy | `Errors` | `Operation`, `HttpMethod`, `toOperation`, `ApplicationError` and its code |
| validation_exception.dfy | `ValidationExceptions` | `ValidationException` |
| validations.dfy | `Validations` | every rule of `Validations.kt` |
| validations_properties.dfy | `ValidationProperties` | lemmas relating the rules to each other and to the behaviour the tests describe |
| sort_request.dfy | `SortRequests` | `SortRequest` as a class with a method |

Modelling choices:

- Kotlin's `null` is `Option.None`, and a rule's "no error" is `None`.
- Strings are `seq<char>`. One whitespace predicate, `Text.IsWhitespace`, is
  Kotlin's `Char.isWhitespace` on the JVM. `IsBlank` and `Trim` are both
  derived from it.
- Kotlin's `String.length` counts UTF-16 code units, so `maxLength` counts a
  character outside the BMP as two (`Text.Utf16Length`).
- The rules borrow parsers from the JDK and from Apache Commons:
  `UUID.fromString`, `ISO_OFFSET_DATE_TIME`, `ISO_LOCAL_TIME`,
  `LocalDate.parse`, `EmailValidator` and `TimeZone.getAvailableIDs()`.
  Each of these is a parameter of the rule that uses it: a predicate, a
  parse function to an optional instant or day number (`string ->
  Option<int>`), or a set of identifiers. Each rule is proved for every
  parser it could be given.
- A generic `Comparable` rule takes the value's `compareTo` as `compare` and
  its message rendering as `show`.
- A message is recorded as its list of arguments (`Arg`), not as rendered
  text.
- `ApplicationError` and `Operation` are modelled from the behaviour their
  tests show; their own code is not modelled:
  - `ValidationsTest.kt` shows that `forOperation` replaces the operation
    and that `resource` replaces the prefix;
  - `OperationTest.kt` gives the verb mapping and the failure message.
- The five named character-set rules are copies of `validCharacters`, each
  with its own fixed pattern. They are modelled once, as
  `Validations.CharSetRule`, with a `CharSet` value naming the pattern:
  - `alphaNumDashUnderscore` is `AlphaNumDashUnderscore`;
  - `alphaAccentNumDashUnderscoreSpace` is `AlphaAccentNumDashUnderscoreSpace`;
  - `alphaNumDashUnderscoreSharpDotRegex` is `AlphaNumDashUnderscoreSharpDot`;
  - `alphaAccentNumDashUnderscoreSpaceSharpDotRegex` is `AlphaAccentNumDashUnderscoreSpaceSharpDot`;
  - `alphaAccentNumDashUnderscoreSpaceSharpDotParenthesisRegex` is `AlphaAccentNumDashUnderscoreSpaceSharpDotParenthesis`.

  The three `is...Regex` booleans are `Validations.MatchesCharSet`:
  - `isAlphaAccentNumDashUnderscoreSpaceSharpDotRegex` is `AlphaAccentNumDashUnderscoreSpaceSharpDot`;
  - `isNumDotRegex` is `NumDot`;
  - `isAlphaNumDashUnderscoreSharpDotRegex` is `AlphaNumDashUnderscoreSharpDot`.

  `NumDot` has an `is...Regex` check but no rule, so `CharSetRule` with
  `NumDot` has no counterpart in the source.
- Each pattern is written out as its character class. The patterns are
  compiled by `toRegex()` with no flags, so their inline `(?i)` is
  ASCII-only. It widens `a-z` to `A-Z` and nothing else. The excluded
  symbols are therefore exactly × Þ ß ÷ þ ø. The capital Ø (U+00D8) is
  accepted (`ValidationProperties.CapitalOSlashAccepted`): because `(?i)`
  is ASCII-only, the lookahead excludes the lower-case ø but not Ø.
- The domain-name pattern is written out over the dot-separated labels of
  the trimmed value (`Validations.IsDomainName`).
- `ValidationException`'s vararg may be empty, so the model allows any
  sequence of errors.
  `SortRequest.ValidateAndTransform` is proved to throw only with exactly
  one error.

## Model

| member | source | states |
|---|---|---|
| Text.Trim | src/main/kotlin/com/pierre2803/functionapp/Validations.kt:132 | `trim()` drops exactly the leading and trailing whitespace; the result is empty iff the value is blank, and otherwise starts and ends with a non-whitespace character |
| Text.TrimIdempotent | src/main/kotlin/com/pierre2803/functionapp/Validations.kt:132 | trimming a trimmed value changes nothing |
| Text.TrimUnpadded | src/main/kotlin/com/pierre2803/functionapp/Validations.kt:132 | a value that neither starts nor ends with whitespace is its own trim |
| Text.Utf16LengthBounds | src/main/kotlin/com/pierre2803/functionapp/Validations.kt:98 | the Kotlin length lies between the character count and twice it, and equals the character count iff every character is in the BMP |
| Text.JoinAppend | src/main/kotlin/com/pierre2803/functionapp/Validations.kt:54 | `joinToString` keeps the given order: appending an element appends the separator and that element |
| Text.SplitJoin | src/main/kotlin/com/pierre2803/functionapp/Validations.kt:20 | pieces without the separator, joined with it, split back into the same pieces |
| Text.JoinSplit | src/main/kotlin/com/pierre2803/functionapp/Validations.kt:20 | splitting on a character and joining with it gives back the original string |
| Text.ParseDecimalString | src/test/kotlin/com/pierre2803/functionapp/ApplicationErrorTest.kt:40 | `toInt()` of the decimal rendering of a numeric code gives back that code |
| Text.AfterLastSeparator | src/test/kotlin/com/pierre2803/functionapp/ApplicationErrorTest.kt:39 | the text after the last `_` is exactly the underscore-free tail |
| Errors.ToOperation | src/test/kotlin/com/pierre2803/functionapp/OperationTest.kt:19-45 | POST, PUT, GET and DELETE resolve, each to the operation served on it; every other method fails with a message naming it |
| Errors.ToOperationOfHttpVerb | src/test/kotlin/com/pierre2803/functionapp/OperationTest.kt:19-37 | each operation is resolved back from the method it is served on |
| Errors.ApplicationError.ForOperation | src/test/kotlin/com/pierre2803/functionapp/ValidationsTest.kt:48-55 | `forOperation(op)`: the error is bound to `op`; status, numeric code, template, resource and arguments are unchanged |
| Errors.ApplicationError.Resource | src/test/kotlin/com/pierre2803/functionapp/ValidationsTest.kt:323-331 | `resource(prefix)`: the resource prefix is replaced; the operation, arguments and everything else are unchanged |
| Errors.ApplicationError.WithArgs | src/main/kotlin/com/pierre2803/functionapp/Validations.kt:170-176 | `args(...)`: the positional arguments are replaced; the operation, resource and everything else are unchanged |
| Errors.ApplicationError.Code | src/test/kotlin/com/pierre2803/functionapp/ValidationsTest.kt:323-331 | `getCode()`: the code starts with the resource prefix and an underscore, and the text after its last underscore is the decimal numeric code |
| Errors.NumericSuffixRoundTrip | src/test/kotlin/com/pierre2803/functionapp/ApplicationErrorTest.kt:34-44 | for any text before the last underscore, `substring(lastIndexOf('_') + 1).toInt()` gives back the numeric code, bound to an operation or not |
| Errors.NumericSuffixesDistinguish | src/test/kotlin/com/pierre2803/functionapp/ApplicationErrorTest.kt:21-31 | two codes with the same text before the last underscore are equal iff their numeric codes are equal |
| Errors.CodeNumberRoundTrip | src/test/kotlin/com/pierre2803/functionapp/ApplicationErrorTest.kt:34-44 | the numeric code is recovered by parsing the text after the code's last underscore |
| Errors.CodesDistinguishNumericCodes | src/test/kotlin/com/pierre2803/functionapp/ApplicationErrorTest.kt:22-32 | two errors with the same resource and operation have the same code iff they have the same numeric code |
| Errors.CodeExamples | src/test/kotlin/com/pierre2803/functionapp/ValidationsTest.kt:323-331 | the codes read `ZZZ_POST_200`, `ZZZ_GET_100`, and `TEST_GET_1010` once scoped to `TEST` |
| ValidationExceptions.ValidationException.GetApplicationErrors | src/main/kotlin/com/pierre2803/functionapp/ValidationException.kt:3-4 | the errors passed at construction, same length, element i unchanged |
| Validations.RequiredString | src/main/kotlin/com/pierre2803/functionapp/Validations.kt:23-25 | error iff the string is null or trims to nothing; echoes the value or "" |
| Validations.Required | src/main/kotlin/com/pierre2803/functionapp/Validations.kt:27-49 | the `Int`, `Long`, `Double`, `Boolean` and `Any` overloads: error iff null, so zero and false are present |
| Validations.RequiredList | src/main/kotlin/com/pierre2803/functionapp/Validations.kt:43-45 | error iff the list is null or empty |
| Validations.RequiredSupported | src/main/kotlin/com/pierre2803/functionapp/Validations.kt:51-58 | the missing error for null or blank; otherwise the unsupported error iff the untrimmed value is not supported, echoing it and the list joined by ", " |
| Validations.RequiredNull | src/main/kotlin/com/pierre2803/functionapp/Validations.kt:60-62 | error iff a value is present |
| Validations.SupportedValue | src/main/kotlin/com/pierre2803/functionapp/Validations.kt:170-176 | blank passes; otherwise error iff the trimmed value is not supported, echoing the raw value and the joined list |
| Validations.IsValidUuid | src/main/kotlin/com/pierre2803/functionapp/Validations.kt:74-81 | `isValidUUID` agrees with the per-element check of `validateUUIDS` on every non-empty value, and with `validUUID` on every non-blank value, for any resource, operation and error |
| Validations.ValidUuid | src/main/kotlin/com/pierre2803/functionapp/Validations.kt:64-72 | blank passes; otherwise error iff the value does not parse, scoped to the resource and echoing the value |
| Validations.ValidateUuid | src/main/kotlin/com/pierre2803/functionapp/Validations.kt:87-95 | a null or empty element is an error with argument "null"; otherwise error iff it does not parse, echoing it |
| Validations.InvalidUuids | src/main/kotlin/com/pierre2803/functionapp/Validations.kt:84 | the `mapNotNull`: never more errors than elements, none iff every element is a non-empty parseable UUID, each bound to the resource and operation |
| Validations.ValidateUuids | src/main/kotlin/com/pierre2803/functionapp/Validations.kt:83-85 | null iff the list is null; otherwise at most one error per element, none iff all are valid, each carrying the resource and operation |
| Validations.MaxLength | src/main/kotlin/com/pierre2803/functionapp/Validations.kt:97-99 | error iff non-blank and the trimmed UTF-16 length exceeds the limit; the error carries the limit |
| Validations.PositiveNumber | src/main/kotlin/com/pierre2803/functionapp/Validations.kt:106-109 | null passes; error iff the value is at most zero, echoing it |
| Validations.ValidatePlannedDuration | src/main/kotlin/com/pierre2803/functionapp/Validations.kt:111-114 | no duration passes; otherwise error iff the flag is not true, echoing the duration |
| Validations.GreaterOrEqualsTo | src/main/kotlin/com/pierre2803/functionapp/Validations.kt:116-119 | null passes; error iff value compares below the bound, echoing value and bound |
| Validations.GreaterThan | src/main/kotlin/com/pierre2803/functionapp/Validations.kt:121-124 | null passes; error iff value compares at or below the bound |
| Validations.LowerOrEqualsTo | src/main/kotlin/com/pierre2803/functionapp/Validations.kt:126-129 | null passes; error iff value compares above the bound |
| Validations.ValidCharacters | src/main/kotlin/com/pierre2803/functionapp/Validations.kt:131-133 | blank passes; error iff the trimmed value does not match the pattern, echoing the raw value |
| Validations.CharSetRule | src/main/kotlin/com/pierre2803/functionapp/Validations.kt:135-153 | the five named rules: blank passes; error iff some character of the trimmed value is outside the class, echoing the raw value (the `NumDot` case has no rule in the source) |
| Validations.MatchesCharSet | src/main/kotlin/com/pierre2803/functionapp/Validations.kt:154-162 | the `is...Regex` checks: true iff the value is present and its trimmed form is a non-empty string over the class, so false for null and blank |
| Validations.IsEmailValid | src/main/kotlin/com/pierre2803/functionapp/Validations.kt:158-160 | blank passes; error iff the validator rejects the untrimmed value |
| Validations.CountBlank | src/main/kotlin/com/pierre2803/functionapp/Validations.kt:166 | the count is at most the length and is positive iff some element is blank |
| Validations.NoBlankElement | src/main/kotlin/com/pierre2803/functionapp/Validations.kt:164-168 | null or empty passes; error iff some element is blank, scoped to the resource and carrying the blank count |
| Validations.ValidDate | src/main/kotlin/com/pierre2803/functionapp/Validations.kt:178-186 | blank passes; error iff the trimmed value is not an offset date-time, echoing the raw value |
| Validations.ValidTime | src/main/kotlin/com/pierre2803/functionapp/Validations.kt:188-196 | blank passes; error iff the trimmed value is not a local time, echoing the raw value |
| Validations.TryToParse | src/main/kotlin/com/pierre2803/functionapp/Validations.kt:238-252 | `tryToParseDateTime` and `tryToParseDate` on the trimmed value: null exactly when the value is null or the parser rejects it, and otherwise the parser's value |
| Validations.DateTimeBeforeThan | src/main/kotlin/com/pierre2803/functionapp/Validations.kt:198-207 | no error if either side is null or unparsable; otherwise error iff start is not strictly before end as instants, with arguments (raw end, raw start) |
| Validations.DateBeforeThan | src/main/kotlin/com/pierre2803/functionapp/Validations.kt:209-216 | the same ordering rule on dates, with no arguments |
| Validations.IsValidDate | src/main/kotlin/com/pierre2803/functionapp/Validations.kt:218-228 | blank passes; error iff the untrimmed value is not a date |
| Validations.ValidTimezone | src/main/kotlin/com/pierre2803/functionapp/Validations.kt:234-236 | blank passes; error iff the trimmed value is not an available zone identifier |
| Validations.ValidDomainName | src/main/kotlin/com/pierre2803/functionapp/Validations.kt:256-258 | blank passes; error iff the trimmed value is not labels joined by dots ending in a 2-6 letter label |
| ValidationProperties.RequiredStringExamples | src/test/kotlin/com/pierre2803/functionapp/ValidationsTest.kt:38-55 | null, "" and "  " are missing; "valid" is present |
| ValidationProperties.EnumRulesAgreeOnTrimmedValues | src/main/kotlin/com/pierre2803/functionapp/Validations.kt:170-176 | on an already-trimmed non-blank value the two enum rules return the same result |
| ValidationProperties.EnumRulesDifferOnPaddedValue | src/main/kotlin/com/pierre2803/functionapp/Validations.kt:51-58 | " a" against ["a"]: the required-with-enum rule rejects it, `supportedValue` accepts it |
| ValidationProperties.MaxLengthOnBmpText | src/main/kotlin/com/pierre2803/functionapp/Validations.kt:97-99 | on BMP text the rule errors iff non-blank and the trimmed character count exceeds the limit |
| ValidationProperties.MaxLengthMonotone | src/main/kotlin/com/pierre2803/functionapp/Validations.kt:98 | raising the limit never creates an error |
| ValidationProperties.IntegerBounds | src/main/kotlin/com/pierre2803/functionapp/Validations.kt:116-129 | on integers the three bounds error exactly when v < b, v ≤ b and v > b; inclusive and strict lower bounds differ only at the bound |
| ValidationProperties.PositiveNumberIsGreaterThanZero | src/main/kotlin/com/pierre2803/functionapp/Validations.kt:106-109 | `positiveNumber` errors on exactly the values `greaterThan(0)` errors on |
| ValidationProperties.CharSetInclusions | src/main/kotlin/com/pierre2803/functionapp/Validations.kt:14-21 | `CharSet.Allows` and `CharSet.Matches`, the character classes: each plain class lies inside its accented counterpart and the sharp-dot classes extend their base classes; the plain classes reject é; of all six classes, only the sharp-dot accented class allows `'` and `,`, and only the parenthesis class allows `(` |
| ValidationProperties.ExcludedSymbolsRejected | src/main/kotlin/com/pierre2803/functionapp/Validations.kt:16-19 | the accented classes reject × Þ ß ÷ þ ø, and a value of one of them is an error; é, è and Ê are accepted |
| ValidationProperties.CapitalOSlashAccepted | src/main/kotlin/com/pierre2803/functionapp/Validations.kt:16 | the accented classes accept Ø |
| ValidationProperties.RuleAgreesWithMatchCheck | src/main/kotlin/com/pierre2803/functionapp/Validations.kt:135-162 | a character-set rule errors iff the value is not blank and its `is...Regex` check is false |
| ValidationProperties.AlphaNumDashUnderscoreExamples | src/test/kotlin/com/pierre2803/functionapp/ValidationsTest.kt:202-218 | the test's strings: the lower-case letters, digits, dash and underscore pass; the same followed by "<>" is an error |
| ValidationProperties.CountBlankAppend | src/main/kotlin/com/pierre2803/functionapp/Validations.kt:166 | the blank count of a concatenation is the sum of the counts |
| ValidationProperties.NoBlankElementExample | src/test/kotlin/com/pierre2803/functionapp/ValidationsTest.kt:266-276 | ["a", "", "   ", "2"] yields one error carrying the count 2 |
| ValidationProperties.InvalidUuidsAppend | src/main/kotlin/com/pierre2803/functionapp/Validations.kt:83-85 | the errors of a concatenation are those of each part in order, so list order is kept |
| ValidationProperties.InvalidUuidsOfOne | src/main/kotlin/com/pierre2803/functionapp/Validations.kt:84 | a one-element list yields exactly that element's error, if any |
| ValidationProperties.ValidUuidPasses | src/main/kotlin/com/pierre2803/functionapp/Validations.kt:74-81 | a non-empty value `isValidUUID` accepts passes both UUID rules |
| ValidationProperties.DateTimeOrderIsStrict | src/main/kotlin/com/pierre2803/functionapp/Validations.kt:198-207 | equal instants are an error in both orders; distinct instants in exactly one order |
| ValidationProperties.TryToParseIgnoresPadding | src/main/kotlin/com/pierre2803/functionapp/Validations.kt:199-200 | surrounding whitespace does not change what the date-time parsers read |
| ValidationProperties.RejectedDateTimeIsNotOrdered | src/main/kotlin/com/pierre2803/functionapp/Validations.kt:178-207 | when the format rule and the ordering rule share the offset date-time parser, a value the format rule rejects, on either side, makes the ordering rule pass |
| ValidationProperties.DomainNameOfLabels | src/main/kotlin/com/pierre2803/functionapp/Validations.kt:20 | `IsDomainName`, the domain-name pattern: one or more host labels and a top-level label joined by dots always match |
| ValidationProperties.DomainNameShape | src/main/kotlin/com/pierre2803/functionapp/Validations.kt:20 | a domain name contains a dot and ends with a letter |
| ValidationProperties.DomainNameExamples | src/main/kotlin/com/pierre2803/functionapp/Validations.kt:20 | "ab.io" matches; "-b.io" and "ab" do not |
| SortRequests.SortRequest.constructor | src/main/kotlin/com/pierre2803/functionapp/SortRequest.kt:9-11 | the sort value is the `sort` query parameter, read once at construction |
| SortRequests.SortRequest.ValidateAndTransform | src/main/kotlin/com/pierre2803/functionapp/SortRequest.kt:13-18 | it throws iff the value is non-blank and does not trim to "name", and then with exactly one error, bound to the operation and echoing the raw value and "name"; otherwise it returns "name" for a missing or blank value, and the raw untrimmed value otherwise |

## Left out

- `positiveDouble` (Validations.kt:101-104): its NaN test and comparisons are floating point.
- The parser grammars are not modelled, only their use. Each rule takes its parser as a parameter. This covers the ISO-8601 formatters, `LocalDate.parse`, `UUID.fromString`, Apache Commons `EmailValidator` and the runtime's `TimeZone.getAvailableIDs()`.
- `parseValidDate` (Validations.kt:254): it only returns the JDK parser's own value, or throws.
- Message rendering (`%s`, `%d`, `%.1f` and what `args(...)` does with them) lives in `ApplicationError.kt`. That file is not part of this model. A message is its template plus its argument list.
- The error catalog (`ApplicationError.Companion`, `ApplicationError.Product`) is not modelled, so neither are its code-uniqueness and code-range checks over concrete entries. `Errors.NumericSuffixRoundTrip` and `Errors.NumericSuffixesDistinguish` state what those checks rely on, for any text before the last underscore.
- Errors.ApplicationError.Code: gives a code only to an error bound to an operation. For a catalog constant built without one, such as `GeneralApplicationError(status, code, messageTemplate)`, the verb segment comes from `ApplicationError.kt`, which is not modelled.
- CodeNumberRoundTrip: stated for bound errors only; `Errors.NumericSuffixRoundTrip` covers a code with any prefix, so it also covers an unbound constant's code.
- CodesDistinguishNumericCodes: stated for bound errors with the same resource and operation only; `Errors.NumericSuffixesDistinguish` covers codes with any shared prefix.
- `DateUtils.kt`, `MessageSender.kt` and `ErrorHandler.kt`: week-day arithmetic over `java.time`, an Azure Service Bus client built from an environment variable, and logging.
- The product request subclasses, handlers, services and repository are not modelled: they only consume the validated values.
- `Errors.HttpMethod` lists the nine methods of the Azure Functions `HttpMethod` enumeration.
- `Text.IsWhitespace` follows a recent Unicode version. U+180E, which older JDKs treat as a space separator, is not whitespace here.
- Integer widths are not modelled: `Long` and `Int` values are unbounded `int`. The rules only compare them, so no overflow can arise.
- `ParseDecimal`: handles unsigned decimal text only, not the sign or the overflow cases of `String.toInt()`; the numeric codes it reads back are non-negative.
- `GreaterOrEqualsTo`, `GreaterThan` and `LowerOrEqualsTo` assume nothing about `compare`. The generic rules hold for any `compareTo`; the ordering lemmas are proved for integers.
