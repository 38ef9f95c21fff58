/** The conditional-logic evaluator: whether one condition, or a field's
    whole condition list, holds for the current preview values, and the two
    projections of that answer (visible, disabled) selected by the field's
    action; plus the condition descriptions and operator menus shown in the
    editor. */
module ConditionalLogic {
  import opened Wrappers
  import opened Text
  import opened FormModel
  import FieldDefaults
  import Seqs

  /** The operators `EvaluateCondition` has a case for. */
  predicate IsKnownOperator(op: string) {
    op in {"equals", "notEquals", "contains", "greaterThan", "lessThan", "isEmpty", "isNotEmpty"}
  }

  /** Numeric `a > b`, false when either side is NaN. */
  predicate NumGreater(a: Option<int>, b: Option<int>) {
    a.Some? && b.Some? && a.value > b.value
  }

  /** Numeric `a < b`, false when either side is NaN. */
  predicate NumLess(a: Option<int>, b: Option<int>) {
    a.Some? && b.Some? && a.value < b.value
  }

  /** The value is `''` or `false`. */
  predicate IsEmptyValue(v: Value) {
    v == Str("") || v == Bool(false)
  }

  /** `evaluateCondition`: does the value of field `c.fieldId` satisfy `c`.
      Only the seven known operators can hold, and apart from `isEmpty` only
      on a value that is present. */
  function EvaluateCondition(c: Condition, values: map<string, Value>): (r: bool)
    ensures r ==> IsKnownOperator(c.operator)
    ensures r && c.operator != "isEmpty" ==> Lookup(values, c.fieldId) != Absent
  {
    var v := Lookup(values, c.fieldId);
    if v == Absent then c.operator == "isEmpty"
    else if c.operator == "equals" then Lower(ToStr(v)) == Lower(c.value)
    else if c.operator == "notEquals" then Lower(ToStr(v)) != Lower(c.value)
    else if c.operator == "contains" then Includes(Lower(ToStr(v)), Lower(c.value))
    else if c.operator == "greaterThan" then NumGreater(ToNumber(v), ParseNumber(c.value))
    else if c.operator == "lessThan" then NumLess(ToNumber(v), ParseNumber(c.value))
    else if c.operator == "isEmpty" then IsEmptyValue(v)
    else if c.operator == "isNotEmpty" then v != Str("") && v != Bool(false)
    else false
  }

  /** An absent value satisfies `isEmpty` and nothing else, whatever the
      operator. */
  lemma AbsentSatisfiesOnlyIsEmpty(c: Condition, values: map<string, Value>)
    requires Lookup(values, c.fieldId) == Absent
    ensures EvaluateCondition(c, values) <==> c.operator == "isEmpty"
  {
  }

  /** On a present value, `notEquals` is exactly the negation of `equals`. */
  lemma EqualsNotEqualsComplement(fieldId: string, target: string, values: map<string, Value>, id1: string, id2: string)
    requires Lookup(values, fieldId) != Absent
    ensures EvaluateCondition(Condition(id1, fieldId, "notEquals", target), values)
        == !EvaluateCondition(Condition(id2, fieldId, "equals", target), values)
  {
  }

  /** `equals` compares lower-cased strings: it holds exactly when the two
      spellings agree after lower-casing, so changing the case of either side
      never changes the answer. */
  lemma EqualsIgnoresCase(c: Condition, values: map<string, Value>, s: string)
    requires c.operator == "equals" && Lookup(values, c.fieldId) == Str(s)
    ensures EvaluateCondition(c, values) <==> Lower(s) == Lower(c.value)
    ensures EvaluateCondition(c, values) == EvaluateCondition(c, values[c.fieldId := Str(Upper(s))])
    ensures EvaluateCondition(c, values) == EvaluateCondition(c.(value := Upper(c.value)), values)
  {
    LowerForgetsCase(s);
    LowerForgetsCase(c.value);
  }

  /** `contains` is a case-insensitive substring test. */
  lemma ContainsIsSubstring(c: Condition, values: map<string, Value>)
    requires c.operator == "contains" && Lookup(values, c.fieldId) != Absent
    ensures EvaluateCondition(c, values)
        <==> IsSubstring(Lower(c.value), Lower(ToStr(Lookup(values, c.fieldId))))
  {
  }

  /** `greaterThan` and `lessThan` never hold together, and neither holds
      when either side is not a number. */
  lemma NumericComparisons(fieldId: string, target: string, values: map<string, Value>, id1: string, id2: string)
    ensures !(EvaluateCondition(Condition(id1, fieldId, "greaterThan", target), values)
           && EvaluateCondition(Condition(id2, fieldId, "lessThan", target), values))
    ensures ToNumber(Lookup(values, fieldId)).None? || ParseNumber(target).None? ==>
      !EvaluateCondition(Condition(id1, fieldId, "greaterThan", target), values)
      && !EvaluateCondition(Condition(id2, fieldId, "lessThan", target), values)
  {
  }

  /** When both sides are numbers, `greaterThan` and `lessThan` compare
      them. */
  lemma ComparisonsCompareNumbers(fieldId: string, target: string, values: map<string, Value>,
                                  id1: string, id2: string, n: int, m: int)
    requires Lookup(values, fieldId) != Absent
    requires ToNumber(Lookup(values, fieldId)) == Some(n) && ParseNumber(target) == Some(m)
    ensures EvaluateCondition(Condition(id1, fieldId, "greaterThan", target), values) <==> n > m
    ensures EvaluateCondition(Condition(id2, fieldId, "lessThan", target), values) <==> n < m
  {
  }

  /** `equals` compares the stringified value, whatever its kind: a number
      equals its decimal text, and a boolean equals "true" or "false". */
  lemma EqualsComparesStrings(c: Condition, values: map<string, Value>)
    requires c.operator == "equals" && Lookup(values, c.fieldId) != Absent
    ensures EvaluateCondition(c, values) <==> Lower(ToStr(Lookup(values, c.fieldId))) == Lower(c.value)
    ensures Lookup(values, c.fieldId).Num? && c.value == IntToString(Lookup(values, c.fieldId).n) ==>
      EvaluateCondition(c, values)
    ensures Lookup(values, c.fieldId) == Bool(true) ==> (EvaluateCondition(c, values) <==> Lower(c.value) == "true")
    ensures Lookup(values, c.fieldId) == Bool(false) ==> (EvaluateCondition(c, values) <==> Lower(c.value) == "false")
  {
  }

  /** On a present value `isEmpty` holds iff the value is `''` or `false`,
      and `isNotEmpty` is its complement. */
  lemma EmptinessOperators(c: Condition, values: map<string, Value>)
    requires Lookup(values, c.fieldId) != Absent
    ensures c.operator == "isEmpty" ==>
      (EvaluateCondition(c, values) <==> Lookup(values, c.fieldId) in {Str(""), Bool(false)})
    ensures EvaluateCondition(c.(operator := "isNotEmpty"), values) == !EvaluateCondition(c.(operator := "isEmpty"), values)
  {
  }

  /** The operator menu of the catalog lists exactly the operators the
      evaluator handles. */
  lemma OperatorMenuIsHandled()
    ensures forall op :: op in FieldDefaults.Values(FieldDefaults.Operators) <==> IsKnownOperator(op)
  {
    FieldDefaults.OperatorMenu();
  }

  /** Every condition holds (`every`). */
  function AllMet(cs: seq<Condition>, values: map<string, Value>): (r: bool)
    ensures r <==> forall i :: 0 <= i < |cs| ==> EvaluateCondition(cs[i], values)
  {
    if cs == [] then true
    else EvaluateCondition(cs[0], values) && AllMet(cs[1..], values)
  }

  /** Some condition holds (`some`). */
  function AnyMet(cs: seq<Condition>, values: map<string, Value>): (r: bool)
    ensures r <==> exists i :: 0 <= i < |cs| && EvaluateCondition(cs[i], values)
  {
    if cs == [] then false
    else if EvaluateCondition(cs[0], values) then true
    else
      var r := AnyMet(cs[1..], values);
      assert forall i :: 1 <= i < |cs| ==> cs[i] == cs[1..][i - 1];
      r
  }

  /** `evaluateConditions`: an empty list is satisfied; `"all"` is the
      conjunction and any other logic type the disjunction. */
  function EvaluateConditions(cs: seq<Condition>, logicType: string, values: map<string, Value>): (met: bool)
    ensures cs == [] ==> met
    ensures cs != [] && logicType == "all" ==>
      (met <==> forall i :: 0 <= i < |cs| ==> EvaluateCondition(cs[i], values))
    ensures cs != [] && logicType != "all" ==>
      (met <==> exists i :: 0 <= i < |cs| && EvaluateCondition(cs[i], values))
  {
    if |cs| == 0 then true
    else if logicType == "all" then AllMet(cs, values)
    else AnyMet(cs, values)
  }

  /** The conditions are switched on and there is at least one. */
  predicate LogicActive(field: Field) {
    field.conditionalLogic.enabled && |field.conditionalLogic.conditions| > 0
  }

  /** Whether the field's conditions are met. */
  function ConditionsMet(field: Field, values: map<string, Value>): bool {
    EvaluateConditions(field.conditionalLogic.conditions, field.conditionalLogic.logicType, values)
  }

  /** `evaluateFieldVisibility`: only an active show or hide rule can hide a
      field; show shows it when the conditions are met, hide when they are
      not. */
  function EvaluateFieldVisibility(field: Field, values: map<string, Value>): (visible: bool)
    ensures !LogicActive(field) ==> visible
    ensures field.conditionalLogic.action !in {"show", "hide"} ==> visible
    ensures LogicActive(field) && field.conditionalLogic.action == "show" ==> (visible <==> ConditionsMet(field, values))
    ensures LogicActive(field) && field.conditionalLogic.action == "hide" ==> (visible <==> !ConditionsMet(field, values))
  {
    var logic := field.conditionalLogic;
    if !logic.enabled || |logic.conditions| == 0 then true
    else
      var met := EvaluateConditions(logic.conditions, logic.logicType, values);
      if logic.action == "show" then met
      else if logic.action == "hide" then !met
      else true
  }

  /** `evaluateFieldDisabled`: only an active enable or disable rule can
      disable a field; enable disables it when the conditions are not met,
      disable when they are. */
  function EvaluateFieldDisabled(field: Field, values: map<string, Value>): (disabled: bool)
    ensures !LogicActive(field) ==> !disabled
    ensures field.conditionalLogic.action !in {"enable", "disable"} ==> !disabled
    ensures LogicActive(field) && field.conditionalLogic.action == "enable" ==> (disabled <==> !ConditionsMet(field, values))
    ensures LogicActive(field) && field.conditionalLogic.action == "disable" ==> (disabled <==> ConditionsMet(field, values))
  {
    var logic := field.conditionalLogic;
    if !logic.enabled || |logic.conditions| == 0 then false
    else
      var met := EvaluateConditions(logic.conditions, logic.logicType, values);
      if logic.action == "enable" then !met
      else if logic.action == "disable" then met
      else false
  }

  /** The two projections are orthogonal: a field is never both hidden and
      disabled, a show/hide field is never disabled and an enable/disable
      field is always visible. */
  lemma VisibilityAndDisabledOrthogonal(field: Field, values: map<string, Value>)
    ensures !(!EvaluateFieldVisibility(field, values) && EvaluateFieldDisabled(field, values))
    ensures field.conditionalLogic.action in {"show", "hide"} ==> !EvaluateFieldDisabled(field, values)
    ensures field.conditionalLogic.action in {"enable", "disable"} ==> EvaluateFieldVisibility(field, values)
  {
  }

  /** The human-readable label of an operator (the operator itself when it
      has none). */
  function OperatorLabel(op: string): (r: string)
    ensures IsKnownOperator(op) ==> r != ""
    ensures !IsKnownOperator(op) ==> r == op
  {
    if op == "equals" then "equals"
    else if op == "notEquals" then "does not equal"
    else if op == "contains" then "contains"
    else if op == "greaterThan" then "is greater than"
    else if op == "lessThan" then "is less than"
    else if op == "isEmpty" then "is empty"
    else if op == "isNotEmpty" then "is not empty"
    else op
  }

  /** The seven known operators read differently. */
  lemma OperatorLabelsDistinct(a: string, b: string)
    requires IsKnownOperator(a) && IsKnownOperator(b) && a != b
    ensures OperatorLabel(a) != OperatorLabel(b)
  {
  }

  /** The label of the first field with id `id`, or "Unknown field". */
  function FieldName(fields: seq<Field>, id: string): (name: string)
    ensures (forall i :: 0 <= i < |fields| ==> fields[i].id != id) ==> name == "Unknown field"
    ensures forall i :: 0 <= i < |fields| && fields[i].id == id && (forall k :: 0 <= k < i ==> fields[k].id != id) ==>
      name == fields[i].labelText
  {
    match Seqs.FindIndex(fields, (f: Field) => f.id == id)
    case Some(i) => fields[i].labelText
    case None => "Unknown field"
  }

  /** `describeCondition`: `"<field>" <operator label>`, followed by
      ` "<value>"` except for the two emptiness operators. */
  function DescribeCondition(c: Condition, fields: seq<Field>): (r: string)
    ensures var head := "\"" + FieldName(fields, c.fieldId) + "\" " + OperatorLabel(c.operator);
      head <= r && (r == head <==> c.operator in {"isEmpty", "isNotEmpty"})
    ensures c.operator !in {"isEmpty", "isNotEmpty"} ==>
      |r| == |"\"" + FieldName(fields, c.fieldId) + "\" " + OperatorLabel(c.operator)| + |c.value| + 3
  {
    var name := FieldName(fields, c.fieldId);
    var head := "\"" + name + "\" " + OperatorLabel(c.operator);
    if c.operator == "isEmpty" || c.operator == "isNotEmpty" then head
    else head + " \"" + c.value + "\""
  }

  /** A description names "Unknown field" when no field has the target id,
      and ends with the quoted target value when the operator compares. */
  lemma DescribeConditionParts(c: Condition, fields: seq<Field>)
    ensures (forall i :: 0 <= i < |fields| ==> fields[i].id != c.fieldId) ==>
      "\"Unknown field\" " <= DescribeCondition(c, fields)
    ensures c.operator !in {"isEmpty", "isNotEmpty"} ==>
      var r := DescribeCondition(c, fields);
      |r| >= |c.value| + 3 && r[|r| - |c.value| - 3..] == " \"" + c.value + "\""
  {
  }

  const BaseOperators: seq<Choice> := [
    Choice("equals", "Equals"),
    Choice("notEquals", "Does not equal"),
    Choice("isEmpty", "Is empty"),
    Choice("isNotEmpty", "Is not empty")
  ]

  /** `getOperatorsForFieldType`: the four base operators, plus `contains`
      for text and email fields, plus `greaterThan`/`lessThan` for number
      fields. */
  function GetOperatorsForFieldType(fieldType: string): (r: seq<Choice>)
    ensures |r| >= 4 && r[..4] == BaseOperators
    ensures (exists i :: 0 <= i < |r| && r[i].value == "contains") <==> fieldType in {"text", "email"}
    ensures (exists i :: 0 <= i < |r| && r[i].value == "greaterThan") <==> fieldType == "number"
    ensures (exists i :: 0 <= i < |r| && r[i].value == "lessThan") <==> fieldType == "number"
    ensures forall i :: 0 <= i < |r| ==> IsKnownOperator(r[i].value)
  {
    if fieldType == "text" || fieldType == "email" then
      var r := BaseOperators + [Choice("contains", "Contains")];
      assert r[4].value == "contains";
      r
    else if fieldType == "number" then
      var r := BaseOperators + [Choice("greaterThan", "Greater than"), Choice("lessThan", "Less than")];
      assert r[4].value == "greaterThan" && r[5].value == "lessThan";
      r
    else BaseOperators
  }
}
