/** Properties that relate the validation rules to each other and to the behaviour their tests describe. */
module ValidationProperties {
  import opened Wrappers
  import opened Text
  import opened Errors
  import opened Validations

  // ---------------------------------------------------------------- required

  /** `required` on strings: null, "" and "  " are missing; "valid" is present. */
  lemma RequiredStringExamples(operation: Operation, noValueError: ApplicationError)
    ensures RequiredString(None, operation, noValueError).Some?
    ensures RequiredString(Some(""), operation, noValueError).Some?
    ensures RequiredString(Some("  "), operation, noValueError).Some?
    ensures RequiredString(Some("valid"), operation, noValueError).None?
  {
    assert IsBlank("  ");
    assert !IsWhitespace("valid"[0]);
  }

  /**
   * The two enum rules differ on padded values: the required-with-enum rule
   * tests the untrimmed value, `supportedValue` the trimmed one. On a value
   * that is already trimmed and not blank they agree.
   */
  lemma EnumRulesAgreeOnTrimmedValues(value: string, supportedValues: seq<string>, operation: Operation,
                                      noValueError: ApplicationError, unsupportedError: ApplicationError)
    requires !IsBlank(value) && Trim(value) == value
    ensures RequiredSupported(Some(value), supportedValues, operation, noValueError, unsupportedError)
         == SupportedValue(Some(value), supportedValues, operation, unsupportedError)
  {
  }

  /** `" a"` against the supported values ["a"]: the required-with-enum rule rejects it, `supportedValue` accepts it. */
  lemma EnumRulesDifferOnPaddedValue(operation: Operation, noValueError: ApplicationError, unsupportedError: ApplicationError)
    ensures RequiredSupported(Some(" a"), ["a"], operation, noValueError, unsupportedError)
         == Some(unsupportedError.ForOperation(operation).WithArgs([Str(" a"), Str("a")]))
    ensures SupportedValue(Some(" a"), ["a"], operation, unsupportedError).None?
  {
    assert LeadingWhitespace(" a") == 1 by {
      assert LeadingWhitespace(" a"[1..]) == 0;
    }
    assert TrimmedEnd(" a") == 2;
    assert Trim(" a") == "a";
    assert " a" != "a";
    assert !IsBlank(" a") by { assert !IsWhitespace(" a"[1]); }
  }

  // ------------------------------------------------------------------- length

  /** On text without characters outside the BMP, `maxLength` errors exactly when the trimmed text is longer than the limit. */
  lemma MaxLengthOnBmpText(value: string, limit: int, operation: Operation, valueTooLongError: ApplicationError)
    requires forall i :: 0 <= i < |value| ==> value[i] as int <= 0xFFFF
    ensures MaxLength(Some(value), limit, operation, valueTooLongError).Some? <==> !IsBlank(value) && |Trim(value)| > limit
  {
    var t := Trim(value);
    var i := LeadingWhitespace(value);
    forall k | 0 <= k < |t| ensures t[k] as int <= 0xFFFF {
      assert t[k] == value[i + k];
    }
    Utf16LengthBounds(t);
  }

  /** Raising the limit never turns a passing value into an error. */
  lemma MaxLengthMonotone(value: Option<string>, limit: int, larger: int, operation: Operation, valueTooLongError: ApplicationError)
    requires limit <= larger
    requires MaxLength(value, limit, operation, valueTooLongError).None?
    ensures MaxLength(value, larger, operation, valueTooLongError).None?
  {
  }

  // ----------------------------------------------------------------- numbers

  /** `compareTo` on integers. */
  function IntCompare(a: int, b: int): int
  {
    if a < b then -1 else if a == b then 0 else 1
  }

  /** An integer as a message argument. */
  function ShowInt(n: int): Arg
  {
    Number(n)
  }

  /**
   * The comparable rules on integers: `greaterOrEqualsTo` errors exactly when
   * v < bound, `greaterThan` when v <= bound and `lowerOrEqualsTo` when
   * v > bound; the inclusive and the strict lower bound differ only at the
   * bound itself.
   */
  lemma IntegerBounds(v: int, bound: int, operation: Operation, e: ApplicationError)
    ensures GreaterOrEqualsTo(Some(v), bound, IntCompare, ShowInt, operation, e).Some? <==> v < bound
    ensures GreaterThan(Some(v), bound, IntCompare, ShowInt, operation, e).Some? <==> v <= bound
    ensures LowerOrEqualsTo(Some(v), bound, IntCompare, ShowInt, operation, e).Some? <==> v > bound
    ensures (GreaterOrEqualsTo(Some(v), bound, IntCompare, ShowInt, operation, e).Some?
             != GreaterThan(Some(v), bound, IntCompare, ShowInt, operation, e).Some?) <==> v == bound
  {
  }

  /** `positiveNumber` errors on exactly the values `greaterThan(0)` errors on. */
  lemma PositiveNumberIsGreaterThanZero(value: Option<int>, operation: Operation, e: ApplicationError)
    ensures PositiveNumber(value, operation, e).Some? <==> GreaterThan(value, 0, IntCompare, ShowInt, operation, e).Some?
  {
  }

  // ---------------------------------------------------------- character sets

  /** The three character sets with accented letters. */
  predicate IsAccentedSet(charSet: CharSet)
  {
    charSet == AlphaAccentNumDashUnderscoreSpace
    || charSet == AlphaAccentNumDashUnderscoreSpaceSharpDot
    || charSet == AlphaAccentNumDashUnderscoreSpaceSharpDotParenthesis
  }

  /**
   * The accented sets reject the excluded symbols × Þ ß ÷ þ ø, even though
   * they lie in À-ÿ, and a one-character value made of one of them is an
   * error; the other letters of the range, such as é, è and Ê, are accepted.
   */
  lemma ExcludedSymbolsRejected(charSet: CharSet, c: char, operation: Operation, e: ApplicationError)
    requires IsAccentedSet(charSet)
    requires c == '×' || c == 'Þ' || c == 'ß' || c == '÷' || c == 'þ' || c == 'ø'
    ensures !charSet.Allows(c)
    ensures CharSetRule(Some([c]), charSet, operation, e) == Some(e.ForOperation(operation).WithArgs([Str([c])]))
    ensures charSet.Allows('é') && charSet.Allows('è') && charSet.Allows('Ê')
  {
    assert !IsWhitespace([c][0]);
    TrimUnpadded([c]);
  }

  /**
   * Because the patterns' `(?i)` is ASCII-only, the exclusion does not reach
   * the capital Ø (U+00D8), which the accented sets accept.
   */
  lemma CapitalOSlashAccepted(charSet: CharSet)
    requires IsAccentedSet(charSet)
    ensures charSet.Allows('Ø')
  {
  }

  /** Each rule fails on a non-blank value exactly when the matching `is...Regex` check is false. */
  lemma RuleAgreesWithMatchCheck(value: Option<string>, charSet: CharSet, operation: Operation, e: ApplicationError)
    ensures CharSetRule(value, charSet, operation, e).Some? <==> !IsNullOrBlank(value) && !MatchesCharSet(value, charSet)
  {
  }

  /** The `alphaNumDashUnderscore` examples: the lower-case ASCII letters, the digits, dash and underscore pass; the same followed by "<>" fails. */
  lemma AlphaNumDashUnderscoreExamples(operation: Operation, e: ApplicationError)
    ensures CharSetRule(Some("abcdefghijklmnopqrstuvwxyz0123456789-_"), AlphaNumDashUnderscore, operation, e).None?
    ensures CharSetRule(Some("abcdefghijklmnopqrstuvwxyz0123456789-_<>"), AlphaNumDashUnderscore, operation, e).Some?
  {
    var ok := "abcdefghijklmnopqrstuvwxyz0123456789-_";
    LettersDigitsDashUnderscoreMatch();
    assert !IsWhitespace(ok[0]) && !IsWhitespace(ok[|ok| - 1]);
    TrimUnpadded(ok);
    var bad := ok + "<>";
    assert bad == "abcdefghijklmnopqrstuvwxyz0123456789-_<>";
    assert !IsWhitespace(bad[0]) && !IsWhitespace(bad[|bad| - 1]);
    TrimUnpadded(bad);
    assert !AlphaNumDashUnderscore.Allows(bad[|ok|]);
  }

  /** The valid string of the `alphaNumDashUnderscore` examples matches its class. */
  lemma LettersDigitsDashUnderscoreMatch()
    ensures AlphaNumDashUnderscore.Matches("abcdefghijklmnopqrstuvwxyz0123456789-_")
  {
    var a, b, c, d, e := "abcdefgh", "ijklmnop", "qrstuvwx", "yz012345", "6789-_";
    assert "abcdefghijklmnopqrstuvwxyz0123456789-_" == a + b + c + d + e;
    MatchesAppend(AlphaNumDashUnderscore, a, b);
    MatchesAppend(AlphaNumDashUnderscore, a + b, c);
    MatchesAppend(AlphaNumDashUnderscore, a + b + c, d);
    MatchesAppend(AlphaNumDashUnderscore, a + b + c + d, e);
  }

  /** Two matching strings match when concatenated. */
  lemma MatchesAppend(charSet: CharSet, a: string, b: string)
    requires charSet.Matches(a) && charSet.Matches(b)
    ensures charSet.Matches(a + b)
  {
    assert forall i :: 0 <= i < |a + b| ==> (a + b)[i] == if i < |a| then a[i] else b[i - |a|];
  }


  /**
   * How the patterns nest: each plain class lies inside its accented
   * counterpart and the sharp-dot classes extend their base classes, while
   * the plain classes reject accented letters and the two widest accented
   * classes differ in `'`, `,` and the parentheses.
   */
  lemma CharSetInclusions(s: string)
    ensures AlphaNumDashUnderscore.Matches(s) ==>
      AlphaNumDashUnderscoreSharpDot.Matches(s) && AlphaAccentNumDashUnderscoreSpace.Matches(s)
    ensures AlphaAccentNumDashUnderscoreSpace.Matches(s) ==>
      AlphaAccentNumDashUnderscoreSpaceSharpDot.Matches(s) && AlphaAccentNumDashUnderscoreSpaceSharpDotParenthesis.Matches(s)
    ensures AlphaNumDashUnderscoreSharpDot.Matches(s) ==>
      AlphaAccentNumDashUnderscoreSpaceSharpDot.Matches(s) && AlphaAccentNumDashUnderscoreSpaceSharpDotParenthesis.Matches(s)
    ensures NumDot.Matches(s) ==> AlphaNumDashUnderscoreSharpDot.Matches(s)
    ensures !AlphaNumDashUnderscore.Allows('é') && !AlphaNumDashUnderscoreSharpDot.Allows('é')
    ensures AlphaAccentNumDashUnderscoreSpaceSharpDot.Allows('\'') && AlphaAccentNumDashUnderscoreSpaceSharpDot.Allows(',')
    ensures !AlphaAccentNumDashUnderscoreSpaceSharpDotParenthesis.Allows('\'') && !AlphaAccentNumDashUnderscoreSpaceSharpDotParenthesis.Allows(',')
    ensures AlphaAccentNumDashUnderscoreSpaceSharpDotParenthesis.Allows('(') && !AlphaAccentNumDashUnderscoreSpaceSharpDot.Allows('(')
    ensures forall charSet: CharSet :: charSet.Allows('\'') <==> charSet == AlphaAccentNumDashUnderscoreSpaceSharpDot
    ensures forall charSet: CharSet :: charSet.Allows(',') <==> charSet == AlphaAccentNumDashUnderscoreSpaceSharpDot
    ensures forall charSet: CharSet :: charSet.Allows('(') <==> charSet == AlphaAccentNumDashUnderscoreSpaceSharpDotParenthesis
  {
  }


  // -------------------------------------------------------------------- lists

  /** The blank count of a concatenation is the sum of the counts. */
  lemma {:induction false} CountBlankAppend(a: seq<string>, b: seq<string>)
    ensures CountBlank(a + b) == CountBlank(a) + CountBlank(b)
  {
    if a != [] {
      assert (a + b)[1..] == a[1..] + b;
      assert (a + b)[0] == a[0];
      CountBlankAppend(a[1..], b);
      assert CountBlank(a + b) == (if IsBlank(a[0]) then 1 else 0) + CountBlank(a[1..] + b);
    } else {
      assert a + b == b;
    }
  }

  /** ["a", "", "   ", "2"] has two blank elements. */
  lemma NoBlankElementExample(operation: Operation, e: ApplicationError)
    ensures NoBlankElement(Some(["a", "", "   ", "2"]), "ZZZ", operation, e)
         == Some(e.Resource("ZZZ").ForOperation(operation).WithArgs([Number(2)]))
  {
    var l := ["a", "", "   ", "2"];
    assert !IsBlank(l[0]) by { assert !IsWhitespace(l[0][0]); }
    assert IsBlank(l[1]) && IsBlank(l[2]);
    assert !IsBlank(l[3]) by { assert !IsWhitespace(l[3][0]); }
    assert l == [l[0]] + [l[1]] + [l[2]] + [l[3]];
    CountBlankAppend([l[0]] + [l[1]] + [l[2]], [l[3]]);
    CountBlankAppend([l[0]] + [l[1]], [l[2]]);
    CountBlankAppend([l[0]], [l[1]]);
  }

  /** The UUID errors of a concatenation are those of each part, in order: the list check keeps list order. */
  lemma {:induction false} InvalidUuidsAppend(a: seq<string>, b: seq<string>, resourceType: string, operation: Operation,
                                              e: ApplicationError, uuidFromString: string -> bool)
    ensures InvalidUuids(a + b, resourceType, operation, e, uuidFromString)
         == InvalidUuids(a, resourceType, operation, e, uuidFromString) + InvalidUuids(b, resourceType, operation, e, uuidFromString)
  {
    if a != [] {
      assert (a + b)[1..] == a[1..] + b;
      assert (a + b)[0] == a[0];
      InvalidUuidsAppend(a[1..], b, resourceType, operation, e, uuidFromString);
      var head := ValidateUuid(Some(a[0]), resourceType, operation, e, uuidFromString);
      var h := if head.Some? then [head.value] else [];
      assert InvalidUuids(a + b, resourceType, operation, e, uuidFromString)
          == h + InvalidUuids(a[1..] + b, resourceType, operation, e, uuidFromString);
      assert InvalidUuids(a, resourceType, operation, e, uuidFromString)
          == h + InvalidUuids(a[1..], resourceType, operation, e, uuidFromString);
    } else {
      assert a + b == b;
    }
  }

  /** A one-element list yields exactly the error of that element's own check, if any. */
  lemma InvalidUuidsOfOne(x: string, resourceType: string, operation: Operation, e: ApplicationError, uuidFromString: string -> bool)
    ensures InvalidUuids([x], resourceType, operation, e, uuidFromString)
         == match ValidateUuid(Some(x), resourceType, operation, e, uuidFromString)
            case Some(error) => [error]
            case None => []
  {
    assert [x][1..] == [];
  }

  /** A value `isValidUUID` accepts passes both UUID rules. */
  lemma ValidUuidPasses(value: string, resourceType: string, operation: Operation, e: ApplicationError, uuidFromString: string -> bool)
    requires value != [] && IsValidUuid(value, uuidFromString)
    ensures ValidUuid(Some(value), resourceType, operation, e, uuidFromString).None?
    ensures ValidateUuid(Some(value), resourceType, operation, e, uuidFromString).None?
  {
  }

  // --------------------------------------------------------- temporal order

  /**
   * For two values that both parse, the ordering rule is strict: if they
   * denote the same instant (whatever their offsets) both orders are errors,
   * and otherwise exactly one of the two orders is.
   */
  lemma DateTimeOrderIsStrict(a: string, b: string, operation: Operation, e: ApplicationError,
                              offsetDateTimeInstant: string -> Option<int>)
    requires offsetDateTimeInstant(Trim(a)).Some? && offsetDateTimeInstant(Trim(b)).Some?
    ensures offsetDateTimeInstant(Trim(a)) == offsetDateTimeInstant(Trim(b)) ==>
      DateTimeBeforeThan(Some(a), Some(b), operation, e, offsetDateTimeInstant).Some? &&
      DateTimeBeforeThan(Some(b), Some(a), operation, e, offsetDateTimeInstant).Some?
    ensures offsetDateTimeInstant(Trim(a)) != offsetDateTimeInstant(Trim(b)) ==>
      (DateTimeBeforeThan(Some(a), Some(b), operation, e, offsetDateTimeInstant).Some?
       != DateTimeBeforeThan(Some(b), Some(a), operation, e, offsetDateTimeInstant).Some?)
  {
  }

  /** Surrounding whitespace does not change what the date parsers read. */
  lemma TryToParseIgnoresPadding(value: string, parse: string -> Option<int>)
    ensures TryToParse(Some(value), parse) == TryToParse(Some(Trim(value)), parse)
  {
    TrimIdempotent(value);
  }

  /**
   * The format rule and the ordering rule read offset date-times with the
   * same parser, so a value the format rule rejects, on either side, is
   * skipped by the ordering rule.
   */
  lemma RejectedDateTimeIsNotOrdered(dateTime: Option<string>, beforeThan: Option<string>, operation: Operation,
                                     invalidValueError: ApplicationError, errorToReturn: ApplicationError,
                                     parsesOffsetDateTime: string -> bool, offsetDateTimeInstant: string -> Option<int>)
    requires forall s :: parsesOffsetDateTime(s) == offsetDateTimeInstant(s).Some?
    requires ValidDate(dateTime, operation, invalidValueError, parsesOffsetDateTime).Some?
          || ValidDate(beforeThan, operation, invalidValueError, parsesOffsetDateTime).Some?
    ensures DateTimeBeforeThan(dateTime, beforeThan, operation, errorToReturn, offsetDateTimeInstant).None?
  {
  }

  // ------------------------------------------------------------ domain names

  /** A domain name contains a dot and ends with a letter of its top-level label. */
  lemma DomainNameShape(s: string)
    requires IsDomainName(s)
    ensures '.' in s && IsAsciiLetter(s[|s| - 1])
  {
    var labels := Split(s, '.');
    var top := labels[|labels| - 1];
    assert IsTopLevelLabel(top);
    JoinSplit(s, '.');
    JoinLast(labels, ".");
    EndsWithLabel(Join(labels[..|labels| - 1], "."), top);
  }

  /** A string ending in a dot and a non-empty label has the dot in it and ends with the label's last character. */
  lemma EndsWithLabel(front: string, top: string)
    requires top != []
    ensures '.' in front + "." + top
    ensures (front + "." + top)[|front + "." + top| - 1] == top[|top| - 1]
  {
    var s := front + "." + top;
    assert s[|front|] == '.';
  }


  /**
   * Every string of one or more host labels and a top-level label, joined by
   * dots, is a domain name: together with `DomainNameShape` and `JoinSplit`
   * this makes the label reading of the pattern generate exactly its matches.
   */
  lemma DomainNameOfLabels(hosts: seq<string>, top: string)
    requires |hosts| >= 1 && forall i :: 0 <= i < |hosts| ==> IsHostLabel(hosts[i])
    requires IsTopLevelLabel(top)
    ensures IsDomainName(Join(hosts + [top], "."))
  {
    var labels := hosts + [top];
    forall i | 0 <= i < |labels| ensures '.' !in labels[i] {
      if i < |hosts| {
        HostLabelHasNoDot(hosts[i]);
      } else {
        TopLevelLabelHasNoDot(top);
      }
    }
    SplitJoin(labels, '.');
    assert Split(Join(labels, "."), '.') == labels;
    assert labels[|labels| - 1] == top;
    assert forall i :: 0 <= i < |labels| - 1 ==> labels[i] == hosts[i];
  }

  lemma HostLabelHasNoDot(piece: string)
    requires IsHostLabel(piece)
    ensures '.' !in piece
  {
  }

  lemma TopLevelLabelHasNoDot(piece: string)
    requires IsTopLevelLabel(piece)
    ensures '.' !in piece
  {
  }


  /** "ab.io" is a domain name, while "-b.io" (a label starting with a dash) and "ab" (no top-level label) are not. */
  lemma DomainNameExamples()
    ensures IsDomainName("ab.io")
    ensures !IsDomainName("-b.io")
    ensures !IsDomainName("ab")
  {
    ShortDomainNameMatches();
    DashedLabelDoesNotMatch();
    SplitWithout("ab", '.');
  }

  lemma ShortDomainNameMatches()
    ensures IsDomainName("ab.io")
  {
    assert Join(["ab", "io"], ".") == "ab.io";
    SplitJoin(["ab", "io"], '.');
    assert IsHostLabel("ab") && IsTopLevelLabel("io");
  }

  lemma DashedLabelDoesNotMatch()
    ensures !IsDomainName("-b.io")
  {
    assert Join(["-b", "io"], ".") == "-b.io";
    SplitJoin(["-b", "io"], '.');
    assert !IsHostLabel("-b");
  }


}
