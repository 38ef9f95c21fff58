/** The preview's submit path: only the fields the conditional logic shows
    are validated. */
module FormPreview {
  import opened Wrappers
  import opened FormModel
  import opened ConditionalLogic
  import opened Validation
  import Seqs

  /** The fields shown for these values, in order. */
  function VisibleFields(fields: seq<Field>, values: map<string, Value>): (r: seq<Field>)
    ensures forall i :: 0 <= i < |r| ==> r[i] in fields && EvaluateFieldVisibility(r[i], values)
    ensures forall i :: 0 <= i < |fields| && EvaluateFieldVisibility(fields[i], values) ==> fields[i] in r
  {
    Seqs.Filter(fields, (f: Field) => EvaluateFieldVisibility(f, values))
  }

  /** Submitting validates the visible fields; the form is accepted exactly
      when every visible field is valid, and otherwise the per-field results
      are what is shown. */
  method Submit(fields: seq<Field>, values: map<string, Value>, compile: PatternCompiler)
    returns (accepted: bool, shownErrors: map<string, FieldResult>)
    ensures accepted == AllValid(VisibleFields(fields, values), values, compile)
    ensures !accepted ==> shownErrors == ResultsMap(VisibleFields(fields, values), values, compile)
    ensures accepted ==> shownErrors == map[]
  {
    var visible := VisibleFields(fields, values);
    var isValid, fieldResults := ValidateAllFields(visible, values, compile);
    if !isValid {
      return false, fieldResults;
    }
    return true, map[];
  }

  /** A hidden field is never validated: it has no entry among the results. */
  lemma HiddenFieldsAreNotValidated(fields: seq<Field>, values: map<string, Value>, compile: PatternCompiler, i: nat)
    requires UniqueIds(fields) && i < |fields| && !EvaluateFieldVisibility(fields[i], values)
    ensures fields[i].id !in ResultsMap(VisibleFields(fields, values), values, compile)
  {
    ResultsMapKeys(VisibleFields(fields, values), values, compile);
  }

  /** A visible field is validated against its own value. */
  lemma VisibleFieldsAreValidated(fields: seq<Field>, values: map<string, Value>, compile: PatternCompiler, i: nat)
    requires UniqueIds(fields) && i < |fields| && EvaluateFieldVisibility(fields[i], values)
    ensures var results := ResultsMap(VisibleFields(fields, values), values, compile);
      fields[i].id in results
      && results[fields[i].id] == ValidateField(fields[i], Lookup(values, fields[i].id), compile)
  {
    var visible := VisibleFields(fields, values);
    Seqs.FilterKeepsKeysDistinct(fields, (f: Field) => EvaluateFieldVisibility(f, values), (f: Field) => f.id);
    assert UniqueIds(visible);
    var k :| 0 <= k < |visible| && visible[k] == fields[i];
    ResultsMapEntries(visible, values, compile, k);
  }

  /** Two required fields: a text field `a`, and a number field `b` shown
      only when `a` equals "x". With nothing entered, `b` is hidden, so only
      `a` is validated, `b`'s being required is not reported, and the
      submission is refused because `a` is required. */
  lemma HiddenDependentFieldScenario(compile: PatternCompiler)
    ensures var a := Field("a", "text", "A", "", true, ValidationRule(None, None, None, ""), [],
                           ConditionalLogic(false, "show", "all", []));
      var b := Field("b", "number", "B", "", true, ValidationRule(None, None, None, ""), [],
                     ConditionalLogic(true, "show", "all", [Condition("c1", "a", "equals", "x")]));
      && VisibleFields([a, b], map[]) == [a]
      && ResultsMap(VisibleFields([a, b], map[]), map[], compile).Keys == {"a"}
      && "b" !in ResultsMap(VisibleFields([a, b], map[]), map[], compile)
      && !AllValid(VisibleFields([a, b], map[]), map[], compile)
  {
    var a := Field("a", "text", "A", "", true, ValidationRule(None, None, None, ""), [],
                   ConditionalLogic(false, "show", "all", []));
    var b := Field("b", "number", "B", "", true, ValidationRule(None, None, None, ""), [],
                   ConditionalLogic(true, "show", "all", [Condition("c1", "a", "equals", "x")]));
    assert !EvaluateCondition(Condition("c1", "a", "equals", "x"), map[]);
    assert !EvaluateFieldVisibility(b, map[]);
    assert EvaluateFieldVisibility(a, map[]);
    Seqs.FilterDropsOne([a, b], (f: Field) => EvaluateFieldVisibility(f, map[]), 1);
    assert [a, b][..1] + [a, b][2..] == [a];
    assert IdSet([a]) == {"a"};
    assert !ValidateField(a, Absent, compile).valid;
    ResultsMapEntries([a], map[], compile, 0);
    ResultsMapKeys([a], map[], compile);
  }
}
