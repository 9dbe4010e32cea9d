/**
 * The request-parameter and presentation helpers of NEMO's utilities:
 * the Bootstrap colour table, the forgiving integer conversion and the
 * validated string lookup in an HTTP parameter dictionary.
 */
module RequestParameters {
  import opened Wrappers
  import opened Text

  predicate IsLowerHexDigit(c: char) {
    ('0' <= c <= '9') || ('a' <= c <= 'f')
  }

  /** A CSS colour written `#rrggbb` in lower-case hexadecimal. */
  predicate IsHexColor(s: string) {
    |s| == 7 && s[0] == '#' && forall k :: 1 <= k < 7 ==> IsLowerHexDigit(s[k])
  }

  /** The colour of each Bootstrap contextual class; other names have none (Python's None). */
  function BootstrapPrimaryColor(colorType: string): (color: Option<string>)
    ensures color.Some? <==> colorType in {"success", "info", "warning", "danger"}
    ensures color.Some? ==> IsHexColor(color.value)
  {
    if colorType == "success" then Some("#5cb85c")
    else if colorType == "info" then Some("#5bc0de")
    else if colorType == "warning" then Some("#f0ad4e")
    else if colorType == "danger" then Some("#d9534f")
    else None
  }

  /** The table is injective: no two contextual classes share a colour. */
  lemma BootstrapColorsDistinct(a: string, b: string)
    requires BootstrapPrimaryColor(a).Some? && BootstrapPrimaryColor(b).Some?
    requires a != b
    ensures BootstrapPrimaryColor(a) != BootstrapPrimaryColor(b)
  {
  }

  /**
   * `quiet_int`: the converted integer when `toInt` (Python's `int()`) succeeds,
   * otherwise the default; it never fails.
   */
  method QuietInt(valueToConvert: string, toInt: string -> Option<int>, defaultUponFailure: int := 0)
    returns (result: int)
    ensures toInt(valueToConvert).Some? ==> result == toInt(valueToConvert).value
    ensures toInt(valueToConvert).None? ==> result == defaultUponFailure
  {
    result := defaultUponFailure;
    var converted := toInt(valueToConvert);
    if converted.Some? {
      result := converted.value;
    }
  }

  /** The two exceptions `parse_parameter_string` re-raises. */
  datatype ParameterError =
    | MissingKey(key: string)
    | TooLong(key: string, length: int, maximumLength: int)

  /**
   * `parse_parameter_string`: the stripped value under `key`. With `raiseOnError`
   * an absent key or an over-long value is an error; without it every failure
   * yields `defaultReturn` and the length is not checked.
   */
  function ParseParameterString(parameters: map<string, string>, key: string,
                                maximumLength: int := 3000, raiseOnError: bool := false,
                                defaultReturn: string := ""): (r: Result<string, ParameterError>)
    ensures !raiseOnError ==> r.Success?
    ensures key !in parameters ==> r == (if raiseOnError then Failure(MissingKey(key)) else Success(defaultReturn))
    ensures key in parameters && r.Success? ==> r.value == Strip(parameters[key])
    ensures key in parameters && raiseOnError ==>
      (r.Failure? <==> |Strip(parameters[key])| > maximumLength)
    ensures r.Failure? ==> raiseOnError && r.error.key == key
  {
    if key in parameters then
      var parameter := Strip(parameters[key]);
      if raiseOnError && |parameter| > maximumLength then
        Failure(TooLong(key, |parameter|, maximumLength))
      else Success(parameter)
    else if raiseOnError then Failure(MissingKey(key))
    else Success(defaultReturn)
  }

  /**
   * What a present key yields carries no surrounding whitespace, and with
   * `raiseOnError` it respects the length limit.
   */
  lemma ParsedParameterIsTrimmed(parameters: map<string, string>, key: string,
                                 maximumLength: int, raiseOnError: bool, defaultReturn: string)
    requires key in parameters
    requires ParseParameterString(parameters, key, maximumLength, raiseOnError, defaultReturn).Success?
    ensures var v := ParseParameterString(parameters, key, maximumLength, raiseOnError, defaultReturn).value;
      && (v != [] ==> !IsSpace(v[0]) && !IsSpace(v[|v| - 1]))
      && (raiseOnError ==> |v| <= maximumLength)
      && Strip(v) == v
  {
    StripIdempotent(parameters[key]);
  }

  /** Without `raiseOnError` the limit is never consulted: any two limits give the same result. */
  lemma LimitIgnoredWithoutRaise(parameters: map<string, string>, key: string,
                                 limit1: int, limit2: int, defaultReturn: string)
    ensures ParseParameterString(parameters, key, limit1, false, defaultReturn)
         == ParseParameterString(parameters, key, limit2, false, defaultReturn)
  {
  }
}
