/** The validation engine: the errors one field's value produces, the email
    shape check, and the per-form aggregation. */
module Validation {
  import opened Wrappers
  import opened Text
  import opened FormModel
  import Seqs

  datatype FieldResult = FieldResult(valid: bool, errors: seq<string>)

  /** `new RegExp(pattern)` followed by `.test`: None when the pattern does
      not compile, otherwise the compiled test. Supplied by the caller; the
      model does not interpret regular expressions. */
  type PatternCompiler = string -> Option<string -> bool>

  // ---------------------------------------------------------------- email

  /** A character `[^\s@]` accepts. */
  predicate EmailPartChar(c: char) {
    !IsWhitespace(c) && c != '@'
  }

  predicate AllEmailPartChars(s: string) {
    forall i :: 0 <= i < |s| ==> EmailPartChar(s[i])
  }

  /** A string `[^\s@]+` accepts. */
  predicate IsEmailPart(s: string) {
    |s| > 0 && AllEmailPartChars(s)
  }

  /** `s` splits as `local@left.right` around the given parts. */
  ghost predicate EmailSplit(s: string, local: string, left: string, right: string) {
    IsEmailPart(local) && IsEmailPart(left) && IsEmailPart(right)
    && s == local + "@" + left + "." + right
  }

  /** The language of `/^[^\s@]+@[^\s@]+\.[^\s@]+$/`. */
  ghost predicate MatchesEmailRegex(s: string) {
    exists local, left, right :: EmailSplit(s, local, left, right)
  }

  /** The text after the `@`: no white space and no `@`, and a dot with text
      on both sides of it. */
  predicate IsEmailDomain(d: string) {
    AllEmailPartChars(d) && exists j :: 0 < j < |d| - 1 && d[j] == '.'
  }

  /** The first `@` of `s` ends a non-empty local part and starts a domain. */
  predicate EmailCheck(s: string) {
    match Seqs.FindIndex(s, (c: char) => c == '@')
    case None => false
    case Some(k) => IsEmailPart(s[..k]) && IsEmailDomain(s[k + 1..])
  }

  /** `validateEmail`, decided by locating the first `@`. */
  function ValidateEmail(s: string): (ok: bool)
    ensures ok <==> MatchesEmailRegex(s)
  {
    EmailCheckSound(s);
    EmailCheckComplete(s);
    EmailCheck(s)
  }

  lemma EmailCheckSound(s: string)
    ensures EmailCheck(s) ==> MatchesEmailRegex(s)
  {
    if !EmailCheck(s) { return; }
    var k := Seqs.FindIndex(s, (c: char) => c == '@').value;
    var d := s[k + 1..];
    var j :| 0 < j < |d| - 1 && d[j] == '.';
    assert s == s[..k] + "@" + d;
    assert d == d[..j] + "." + d[j + 1..];
    assert EmailSplit(s, s[..k], d[..j], d[j + 1..]);
  }

  lemma EmailCheckComplete(s: string)
    ensures MatchesEmailRegex(s) ==> EmailCheck(s)
  {
    if !MatchesEmailRegex(s) { return; }
    var local, left, right :| EmailSplit(s, local, left, right);
    var k := |local|;
    var at := Seqs.FindIndex(s, (c: char) => c == '@');
    assert s[k] == '@';
    assert forall i :: 0 <= i < k ==> s[i] == local[i];
    assert at == Some(k);
    assert s[..k] == local;
    var d := s[k + 1..];
    assert d == left + "." + right;
    assert d[|left|] == '.';
  }

  // ------------------------------------------------------- single field

  /** Never set, or the empty string. */
  predicate IsBlank(v: Value) {
    v == Absent || v == Str("")
  }

  function RequiredMessage(field: Field): string {
    OrElse(field.validation.customError, field.labelText + " is required")
  }

  function CheckedMessage(field: Field): string {
    OrElse(field.validation.customError, field.labelText + " must be checked")
  }

  /** An inclusive lower bound is violated. */
  predicate BelowMin(min: Option<int>, n: int) {
    min.Some? && n < min.value
  }

  /** An inclusive upper bound is violated. */
  predicate AboveMax(max: Option<int>, n: int) {
    max.Some? && n > max.value
  }

  /** The errors of the `email`, `number` and `text` cases; other types have
      no type-specific rule. An email field has one error exactly when the
      value does not match the email expression; a number field that is not
      a number gets exactly the type error; otherwise each violated
      inclusive bound adds its own error, the minimum's first. */
  function TypeErrors(field: Field, value: Value): (errors: seq<string>)
    ensures |errors| <= 2
    ensures field.fieldType !in {"email", "number", "text"} ==> errors == []
    ensures field.fieldType == "email" ==>
      && |errors| <= 1
      && (errors == [] <==> MatchesEmailRegex(ToStr(value)))
      && (errors != [] ==> errors == [OrElse(field.validation.customError, "Please enter a valid email address")])
    ensures field.fieldType == "number" && ToNumber(value).None? ==>
      errors == [OrElse(field.validation.customError, "Please enter a valid number")]
    ensures field.fieldType == "number" && ToNumber(value).Some? ==>
      var rule := field.validation;
      var n := ToNumber(value).value;
      && |errors| == (if BelowMin(rule.min, n) then 1 else 0) + (if AboveMax(rule.max, n) then 1 else 0)
      && (BelowMin(rule.min, n) ==>
            errors[0] == OrElse(rule.customError, "Value must be at least " + IntToString(rule.min.value)))
      && (AboveMax(rule.max, n) ==>
            errors[|errors| - 1] == OrElse(rule.customError, "Value must be at most " + IntToString(rule.max.value)))
    ensures field.fieldType == "text" ==>
      var rule := field.validation;
      var len := |ToStr(value)|;
      && |errors| == (if BelowMin(rule.min, len) then 1 else 0) + (if AboveMax(rule.max, len) then 1 else 0)
      && (BelowMin(rule.min, len) ==>
            errors[0] == OrElse(rule.customError, "Must be at least " + IntToString(rule.min.value) + " characters"))
      && (AboveMax(rule.max, len) ==>
            errors[|errors| - 1] == OrElse(rule.customError, "Must be at most " + IntToString(rule.max.value) + " characters"))
  {
    var rule := field.validation;
    var ce := rule.customError;
    if field.fieldType == "email" then
      if ValidateEmail(ToStr(value)) then [] else [OrElse(ce, "Please enter a valid email address")]
    else if field.fieldType == "number" then
      match ToNumber(value)
      case None => [OrElse(ce, "Please enter a valid number")]
      case Some(n) =>
        (if BelowMin(rule.min, n) then [OrElse(ce, "Value must be at least " + IntToString(rule.min.value))] else [])
        + (if AboveMax(rule.max, n) then [OrElse(ce, "Value must be at most " + IntToString(rule.max.value))] else [])
    else if field.fieldType == "text" then
      var len := |ToStr(value)|;
      (if BelowMin(rule.min, len) then [OrElse(ce, "Must be at least " + IntToString(rule.min.value) + " characters")] else [])
      + (if AboveMax(rule.max, len) then [OrElse(ce, "Must be at most " + IntToString(rule.max.value) + " characters")] else [])
    else []
  }

  /** The pattern check: at most one error, and one exactly when a non-empty
      pattern is configured, the value is truthy, the pattern compiles and
      its test rejects the stringified value. */
  function PatternErrors(field: Field, value: Value, compile: PatternCompiler): (errors: seq<string>)
    ensures |errors| <= 1
    ensures errors != [] <==>
      && field.validation.pattern.Some? && field.validation.pattern.value != ""
      && !Falsy(value)
      && compile(field.validation.pattern.value).Some?
      && !compile(field.validation.pattern.value).value(ToStr(value))
    ensures errors != [] ==> errors == [OrElse(field.validation.customError, "Value does not match the required pattern")]
  {
    match field.validation.pattern
    case Some(p) =>
      if p != "" && !Falsy(value) then
        match compile(p)
        case Some(test) =>
          if test(ToStr(value)) then []
          else [OrElse(field.validation.customError, "Value does not match the required pattern")]
        case None => []
      else []
    case None => []
  }

  /** `validateField`: the required checks stop at their first error, an
      optional blank value is valid without further checks, and otherwise
      the type-specific errors are followed by the pattern error. */
  function ValidateField(field: Field, value: Value, compile: PatternCompiler): (r: FieldResult)
    ensures r.valid <==> r.errors == []
    ensures |r.errors| <= 3
    ensures field.required && IsBlank(value) ==> r.errors == [RequiredMessage(field)]
    ensures field.required && !IsBlank(value) && field.fieldType == "checkbox" && Falsy(value) ==>
      r.errors == [CheckedMessage(field)]
    ensures !field.required && IsBlank(value) ==> r == FieldResult(true, [])
    ensures !IsBlank(value) && !(field.required && field.fieldType == "checkbox" && Falsy(value)) ==>
      r.errors == TypeErrors(field, value) + PatternErrors(field, value, compile)
  {
    if field.required && IsBlank(value) then FieldResult(false, [RequiredMessage(field)])
    else if field.required && field.fieldType == "checkbox" && Falsy(value) then FieldResult(false, [CheckedMessage(field)])
    else if IsBlank(value) then FieldResult(true, [])
    else
      var errors := TypeErrors(field, value) + PatternErrors(field, value, compile);
      FieldResult(errors == [], errors)
  }

  /** With bounds 5 and 10 and no custom message or pattern, 3 is below the
      minimum, 12 above the maximum, and 7 passes. */
  lemma NumberBoundsExample(compile: PatternCompiler)
    ensures var f := Field("n", "number", "Age", "", false, ValidationRule(Some(5), Some(10), None, ""), [],
                           ConditionalLogic(false, "show", "all", []));
      && ValidateField(f, Num(3), compile) == FieldResult(false, ["Value must be at least 5"])
      && ValidateField(f, Num(12), compile) == FieldResult(false, ["Value must be at most 10"])
      && ValidateField(f, Num(7), compile) == FieldResult(true, [])
  {
    var f := Field("n", "number", "Age", "", false, ValidationRule(Some(5), Some(10), None, ""), [],
                   ConditionalLogic(false, "show", "all", []));
    assert IntToString(5) == "5";
    assert IntToString(10) == "10" by { assert NatToString(10) == NatToString(1) + [DigitChar(0)]; }
    assert "Value must be at least " + "5" == "Value must be at least 5";
    assert "Value must be at most " + "10" == "Value must be at most 10";
    assert TypeErrors(f, Num(3)) == ["Value must be at least 5"];
    assert PatternErrors(f, Num(3), compile) == [];
    assert TypeErrors(f, Num(12)) == ["Value must be at most 10"];
  }

  /** A required text field left empty reports only that it is required. */
  lemma RequiredShortCircuits(field: Field, compile: PatternCompiler)
    requires field.required
    ensures ValidateField(field, Str(""), compile) == FieldResult(false, [RequiredMessage(field)])
    ensures field.validation.customError == "" ==>
      ValidateField(field, Absent, compile).errors == [field.labelText + " is required"]
  {
  }

  // ---------------------------------------------------------- whole form

  /** The `fieldResults` dictionary after validating `fields` in order: a
      later field overwrites an earlier one with the same id. */
  function ResultsMap(fields: seq<Field>, values: map<string, Value>, compile: PatternCompiler)
    : map<string, FieldResult>
  {
    if fields == [] then map[]
    else
      var last := fields[|fields| - 1];
      ResultsMap(fields[..|fields| - 1], values, compile)[last.id := ValidateField(last, Lookup(values, last.id), compile)]
  }

  /** The results have one entry per field id and no other. */
  lemma {:induction false} ResultsMapKeys(fields: seq<Field>, values: map<string, Value>, compile: PatternCompiler)
    ensures ResultsMap(fields, values, compile).Keys == IdSet(fields)
  {
    if fields != [] {
      var init := fields[..|fields| - 1];
      var last := fields[|fields| - 1];
      ResultsMapKeys(init, values, compile);
      assert fields == init + [last];
      assert IdSet(fields) == IdSet(init) + {last.id};
    }
  }

  /** Every field's own value passes its checks. */
  predicate AllValid(fields: seq<Field>, values: map<string, Value>, compile: PatternCompiler) {
    forall i :: 0 <= i < |fields| ==> ValidateField(fields[i], Lookup(values, fields[i].id), compile).valid
  }

  /** A valid form is one where no field reports an error; in particular no
      required field is left blank. */
  lemma AllValidMeansNoErrors(fields: seq<Field>, values: map<string, Value>, compile: PatternCompiler)
    ensures AllValid(fields, values, compile) <==>
      forall i :: 0 <= i < |fields| ==> ValidateField(fields[i], Lookup(values, fields[i].id), compile).errors == []
    ensures AllValid(fields, values, compile) ==>
      forall i :: 0 <= i < |fields| ==> !(fields[i].required && IsBlank(Lookup(values, fields[i].id)))
  {
  }

  /** `validateAllFields`. */
  method ValidateAllFields(fields: seq<Field>, values: map<string, Value>, compile: PatternCompiler)
    returns (isValid: bool, fieldResults: map<string, FieldResult>)
    ensures fieldResults == ResultsMap(fields, values, compile)
    ensures isValid == AllValid(fields, values, compile)
  {
    fieldResults := map[];
    isValid := true;
    var i := 0;
    while i < |fields|
      invariant 0 <= i <= |fields|
      invariant fieldResults == ResultsMap(fields[..i], values, compile)
      invariant isValid == AllValid(fields[..i], values, compile)
    {
      var field := fields[i];
      var result := ValidateField(field, Lookup(values, field.id), compile);
      fieldResults := fieldResults[field.id := result];
      if !result.valid {
        isValid := false;
      }
      ResultsMapExtend(fields, values, compile, i);
      AllValidExtend(fields, values, compile, i);
      i := i + 1;
    }
    assert fields[..i] == fields;
  }

  lemma ResultsMapExtend(fields: seq<Field>, values: map<string, Value>, compile: PatternCompiler, i: int)
    requires 0 <= i < |fields|
    ensures ResultsMap(fields[..i + 1], values, compile)
         == ResultsMap(fields[..i], values, compile)[fields[i].id := ValidateField(fields[i], Lookup(values, fields[i].id), compile)]
  {
    assert fields[..i + 1][..i] == fields[..i];
  }

  lemma AllValidExtend(fields: seq<Field>, values: map<string, Value>, compile: PatternCompiler, i: int)
    requires 0 <= i < |fields|
    ensures AllValid(fields[..i + 1], values, compile)
        == (AllValid(fields[..i], values, compile) && ValidateField(fields[i], Lookup(values, fields[i].id), compile).valid)
  {
    assert forall k :: 0 <= k < i ==> fields[..i + 1][k] == fields[..i][k];
    assert fields[..i + 1][i] == fields[i];
  }

  /** With unique ids, each field's entry is its own validation result. */
  lemma {:induction false} ResultsMapEntries(fields: seq<Field>, values: map<string, Value>, compile: PatternCompiler, i: int)
    requires UniqueIds(fields) && 0 <= i < |fields|
    ensures fields[i].id in ResultsMap(fields, values, compile)
    ensures ResultsMap(fields, values, compile)[fields[i].id] == ValidateField(fields[i], Lookup(values, fields[i].id), compile)
  {
    var n := |fields|;
    if i < n - 1 {
      var init := fields[..n - 1];
      assert init[i] == fields[i];
      ResultsMapEntries(init, values, compile, i);
      assert fields[n - 1].id != fields[i].id;
    }
  }

  /** The form is valid iff every recorded result is valid, and an empty
      form is valid. */
  lemma ValidityAgreesWithResults(fields: seq<Field>, values: map<string, Value>, compile: PatternCompiler)
    requires UniqueIds(fields)
    ensures AllValid(fields, values, compile) <==>
      forall id :: id in ResultsMap(fields, values, compile) ==> ResultsMap(fields, values, compile)[id].valid
    ensures AllValid([], values, compile)
  {
    var m := ResultsMap(fields, values, compile);
    ResultsMapKeys(fields, values, compile);
    forall i | 0 <= i < |fields| ensures m[fields[i].id] == ValidateField(fields[i], Lookup(values, fields[i].id), compile) {
      ResultsMapEntries(fields, values, compile, i);
    }
    if AllValid(fields, values, compile) {
      forall id | id in m ensures m[id].valid {
        var f :| f in fields && f.id == id;
        var i :| 0 <= i < |fields| && fields[i] == f;
      }
    } else {
      var i :| 0 <= i < |fields| && !ValidateField(fields[i], Lookup(values, fields[i].id), compile).valid;
      assert !m[fields[i].id].valid;
    }
  }
}
