/**
 * Operations and error identities: the inbound HTTP method resolved to an
 * operation, and an error template bound to an operation, a resource prefix
 * and positional message arguments, whose machine code is
 * `{resource}_{HTTP verb}_{numeric code}`.
 */
module Errors {
  import opened Wrappers
  import opened Text

  /** The semantic operation a request performs. */
  datatype Operation = Create | Read | Update | Delete

  /** The HTTP methods of the functions runtime. */
  datatype HttpMethod = GET | HEAD | POST | PUT | DELETE | CONNECT | OPTIONS | TRACE | PATCH

  function MethodName(m: HttpMethod): string
  {
    match m
    case GET => "GET"
    case HEAD => "HEAD"
    case POST => "POST"
    case PUT => "PUT"
    case DELETE => "DELETE"
    case CONNECT => "CONNECT"
    case OPTIONS => "OPTIONS"
    case TRACE => "TRACE"
    case PATCH => "PATCH"
  }

  /** The HTTP method an operation is served on; its name is the verb segment of an error code. */
  function HttpVerb(op: Operation): HttpMethod
  {
    match op
    case Create => POST
    case Read => GET
    case Update => PUT
    case Delete => DELETE
  }

  /**
   * `Operation.toOperation`: POST, PUT, GET and DELETE resolve to CREATE,
   * UPDATE, READ and DELETE; every other method is a configuration error
   * (an `IllegalArgumentException`) that names the method.
   */
  function ToOperation(m: HttpMethod): (r: Result<Operation, string>)
    ensures r.Success? <==> m == POST || m == PUT || m == GET || m == DELETE
    ensures r.Success? ==> HttpVerb(r.value) == m
    ensures r.Failure? ==> r.error == "No supported operation matches the HTTP method " + MethodName(m) + "."
  {
    match m
    case POST => Success(Create)
    case PUT => Success(Update)
    case GET => Success(Read)
    case DELETE => Success(Delete)
    case _ => Failure("No supported operation matches the HTTP method " + MethodName(m) + ".")
  }

  /** Every operation is resolved back from the method it is served on. */
  lemma ToOperationOfHttpVerb(op: Operation)
    ensures ToOperation(HttpVerb(op)) == Success(op)
  {
  }

  /** A positional argument of an error message. */
  datatype Arg =
    | Str(text: string)                // a string, echoed as given
    | Number(number: int)              // an integer
    | Named(name: string, amount: int) // a `Pair(name, value)`, such as the maximum length

  /**
   * An error identity and, once bound, an instantiated error: the response
   * status, the numeric code, the message template, the resource prefix, the
   * operation (absent until bound) and the positional message arguments.
   */
  datatype ApplicationError = ApplicationError(
    status: nat,
    numericCode: nat,
    messageTemplate: string,
    resourceType: string,
    operation: Option<Operation>,
    args: seq<Arg>)
  {
    /** `forOperation(op)`: the same error bound to `op`; nothing else changes. */
    function ForOperation(op: Operation): (r: ApplicationError)
      ensures r.operation == Some(op)
      ensures r.status == status && r.numericCode == numericCode && r.messageTemplate == messageTemplate
      ensures r.resourceType == resourceType && r.args == args
    {
      this.(operation := Some(op))
    }

    /** `resource(prefix)`: the same error scoped to another resource prefix; nothing else changes. */
    function Resource(prefix: string): (r: ApplicationError)
      ensures r.resourceType == prefix
      ensures r.status == status && r.numericCode == numericCode && r.messageTemplate == messageTemplate
      ensures r.operation == operation && r.args == args
    {
      this.(resourceType := prefix)
    }

    /** `args(...)`: the same error with these positional message arguments; nothing else changes. */
    function WithArgs(values: seq<Arg>): (r: ApplicationError)
      ensures r.args == values
      ensures r.status == status && r.numericCode == numericCode && r.messageTemplate == messageTemplate
      ensures r.resourceType == resourceType && r.operation == operation
    {
      this.(args := values)
    }

    /** `getCode()` of a bound error: resource prefix, HTTP verb and numeric code, joined by underscores. */
    function Code(): (r: string)
      requires operation.Some?
      ensures |r| > |resourceType| && r[..|resourceType| + 1] == resourceType + "_"
      ensures AfterLast(r, '_') == DecimalString(numericCode)
    {
      var verb := MethodName(HttpVerb(operation.value));
      var digits := DecimalString(numericCode);
      NumericSuffix(resourceType + "_" + verb, numericCode);
      PrefixOfAppend(resourceType + "_", verb + "_" + digits);
      resourceType + "_" + verb + "_" + digits
    }
  }

  lemma PrefixOfAppend(a: string, b: string)
    ensures |a + b| >= |a| && (a + b)[..|a|] == a
  {
  }

  /**
   * Whatever text comes before the last underscore, the decimal text after it
   * reads back as the number it renders. The catalog range check reads every
   * code this way, bound to an operation or not.
   */
  lemma NumericSuffixRoundTrip(prefix: string, n: nat)
    ensures AfterLast(prefix + "_" + DecimalString(n), '_') == DecimalString(n)
    ensures ParseDecimal(AfterLast(prefix + "_" + DecimalString(n), '_')) == Some(n)
  {
    NumericSuffix(prefix, n);
    ParseDecimalString(n);
  }

  /** The decimal text after the last underscore is the rendered number. */
  lemma NumericSuffix(prefix: string, n: nat)
    ensures AfterLast(prefix + "_" + DecimalString(n), '_') == DecimalString(n)
  {
    assert '_' !in DecimalString(n);
    AfterLastSeparator(prefix, '_', DecimalString(n));
  }

  /** Codes that share everything before the last underscore are equal exactly when their numeric parts are. */
  lemma NumericSuffixesDistinguish(prefix: string, m: nat, n: nat)
    ensures prefix + "_" + DecimalString(m) == prefix + "_" + DecimalString(n) <==> m == n
  {
    NumericSuffixRoundTrip(prefix, m);
    NumericSuffixRoundTrip(prefix, n);
  }

  /** The numeric code is recovered from the text after the code's last underscore, as the catalog range check reads it. */
  lemma CodeNumberRoundTrip(e: ApplicationError)
    requires e.operation.Some?
    ensures ParseDecimal(AfterLast(e.Code(), '_')) == Some(e.numericCode)
  {
    ParseDecimalString(e.numericCode);
  }

  /** `e` is `template` bound to `op`, carrying whatever arguments `e` carries. */
  predicate BoundFrom(e: ApplicationError, template: ApplicationError, op: Operation)
  {
    e == template.ForOperation(op).WithArgs(e.args)
  }

  /** Two bound errors with the same resource and operation share a code exactly when they share a numeric code. */
  lemma CodesDistinguishNumericCodes(a: ApplicationError, b: ApplicationError)
    requires a.operation.Some? && a.operation == b.operation && a.resourceType == b.resourceType
    ensures a.Code() == b.Code() <==> a.numericCode == b.numericCode
  {
    CodeNumberRoundTrip(a);
    CodeNumberRoundTrip(b);
  }

  /** The codes the rules' tests expect: `ZZZ_POST_200`, `ZZZ_GET_100` and `TEST_GET_1010` after scoping to `TEST`. */
  lemma CodeExamples(template: ApplicationError)
    requires template.resourceType == "ZZZ"
    ensures template.(numericCode := 200).ForOperation(Create).Code() == "ZZZ_POST_200"
    ensures template.(numericCode := 100).ForOperation(Read).Code() == "ZZZ_GET_100"
    ensures template.(numericCode := 1010).Resource("TEST").ForOperation(Read).Code() == "TEST_GET_1010"
  {
    CodeExamplePost200(template);
    CodeExampleGet100(template);
    CodeExampleGet1010(template);
  }

  lemma CodeExamplePost200(template: ApplicationError)
    requires template.resourceType == "ZZZ"
    ensures template.(numericCode := 200).ForOperation(Create).Code() == "ZZZ_POST_200"
  {
    assert DecimalString(200) == "200" by {
      assert DecimalString(2) == "2";
      assert DecimalString(20) == "20";
    }
    CodeExample(template.(numericCode := 200).ForOperation(Create), "200");
  }

  lemma CodeExampleGet100(template: ApplicationError)
    requires template.resourceType == "ZZZ"
    ensures template.(numericCode := 100).ForOperation(Read).Code() == "ZZZ_GET_100"
  {
    assert DecimalString(100) == "100" by {
      assert DecimalString(1) == "1";
      assert DecimalString(10) == "10";
    }
    CodeExample(template.(numericCode := 100).ForOperation(Read), "100");
  }

  lemma CodeExampleGet1010(template: ApplicationError)
    ensures template.(numericCode := 1010).Resource("TEST").ForOperation(Read).Code() == "TEST_GET_1010"
  {
    assert DecimalString(1010) == "1010" by {
      assert DecimalString(1) == "1";
      assert DecimalString(10) == "10";
      assert DecimalString(101) == "101";
    }
    CodeExample(template.(numericCode := 1010).Resource("TEST").ForOperation(Read), "1010");
  }

  /** A bound error's code once its numeric code's digits are known. */
  lemma CodeExample(e: ApplicationError, digits: string)
    requires e.operation.Some? && DecimalString(e.numericCode) == digits
    ensures e.Code() == e.resourceType + "_" + MethodName(HttpVerb(e.operation.value)) + "_" + digits
  {
  }
}
