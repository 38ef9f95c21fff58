/** The conditional-logic editor of one field (the owner). Each handler
    computes the logic object it hands to `onChange`; None means it hands
    over nothing. */
module ConditionalLogicEditor {
  import opened Wrappers
  import opened FormModel
  import Seqs

  /** The condition key an edit names. */
  datatype ConditionKey = FieldIdKey | OperatorKey | ValueKey

  /** The fields a condition may name: every field but the owner, in order. */
  function AvailableFields(fields: seq<Field>, ownerId: string): (r: seq<Field>)
    ensures forall i :: 0 <= i < |r| ==> r[i] in fields && r[i].id != ownerId
    ensures forall i :: 0 <= i < |fields| && fields[i].id != ownerId ==> fields[i] in r
  {
    Seqs.Filter(fields, (f: Field) => f.id != ownerId)
  }

  /** The available fields keep the order they have in the form. */
  lemma AvailableFieldsKeepOrder(fields: seq<Field>, ownerId: string, i: int, j: int)
    requires 0 <= i < j < |fields| && fields[i].id != ownerId && fields[j].id != ownerId
    ensures var r := AvailableFields(fields, ownerId);
      exists k, l :: 0 <= k < l < |r| && r[k] == fields[i] && r[l] == fields[j]
  {
    var p := (f: Field) => f.id != ownerId;
    var r := AvailableFields(fields, ownerId);
    assert r == Seqs.Filter(fields, p);
    Seqs.FilterKeepsOrder(fields, p, i, j);
    var k, l :| 0 <= k < l < |r| && r[k] == fields[i] && r[l] == fields[j];
  }

  /** Switching logic on or off keeps action, logic type and conditions. */
  function Toggle(logic: ConditionalLogic, enabled: bool): (r: ConditionalLogic)
    ensures r.enabled == enabled && r == logic.(enabled := r.enabled)
  {
    logic.(enabled := enabled)
  }

  /** Choosing an action keeps everything else. */
  function ActionChange(logic: ConditionalLogic, action: string): (r: ConditionalLogic)
    ensures r.action == action && r == logic.(action := r.action)
  {
    logic.(action := action)
  }

  /** The toggle group reports null when the selected button is clicked
      again; a missing or empty logic type is ignored (None). */
  function LogicTypeChange(logic: ConditionalLogic, newLogicType: Option<string>): (r: Option<ConditionalLogic>)
    ensures r.None? <==> newLogicType.None? || newLogicType == Some("")
    ensures r.Some? ==> r.value == logic.(logicType := newLogicType.value)
  {
    match newLogicType
    case None => None
    case Some(t) => if t == "" then None else Some(logic.(logicType := t))
  }

  /** Adding appends an "equals ''" condition on the first other field; with
      no other field nothing is added (None). */
  function AddCondition(logic: ConditionalLogic, fields: seq<Field>, ownerId: string, freshId: string)
    : (r: Option<ConditionalLogic>)
    ensures r.None? <==> forall i :: 0 <= i < |fields| ==> fields[i].id == ownerId
    ensures r.Some? ==>
      var cs := r.value.conditions;
      && |cs| == |logic.conditions| + 1
      && cs[..|logic.conditions|] == logic.conditions
      && cs[|logic.conditions|].id == freshId
      && cs[|logic.conditions|].fieldId in IdSet(fields)
      && cs[|logic.conditions|].fieldId != ownerId
      && cs[|logic.conditions|].operator == "equals" && cs[|logic.conditions|].value == ""
      && r.value == logic.(conditions := cs)
  {
    var available := AvailableFields(fields, ownerId);
    if available == [] then
      assert forall i :: 0 <= i < |fields| ==> fields[i].id == ownerId;
      None
    else
      assert available[0] in fields;
      Some(logic.(conditions := logic.conditions + [Condition(freshId, available[0].id, "equals", "")]))
  }

  /** The new condition names the first field other than the owner. */
  lemma AddConditionPicksFirstOther(logic: ConditionalLogic, fields: seq<Field>, ownerId: string, freshId: string, i: nat)
    requires i < |fields| && fields[i].id != ownerId
    requires forall k :: 0 <= k < i ==> fields[k].id == ownerId
    ensures AddCondition(logic, fields, ownerId, freshId).Some?
    ensures AddCondition(logic, fields, ownerId, freshId).value.conditions[|logic.conditions|].fieldId == fields[i].id
  {
    var p := (f: Field) => f.id != ownerId;
    var available := AvailableFields(fields, ownerId);
    Seqs.FilterDropsPrefix(fields, p, i);
  }

  /** `{ ...c, [key]: value }`. */
  function SetConditionKey(c: Condition, key: ConditionKey, value: string): Condition {
    match key
    case FieldIdKey => c.(fieldId := value)
    case OperatorKey => c.(operator := value)
    case ValueKey => c.(value := value)
  }

  /** Editing sets one key of the conditions with that id; the rest of the
      logic, the other conditions and the order are kept. */
  function UpdateCondition(logic: ConditionalLogic, conditionId: string, key: ConditionKey, value: string)
    : (r: ConditionalLogic)
    ensures |r.conditions| == |logic.conditions|
    ensures forall i :: 0 <= i < |logic.conditions| && logic.conditions[i].id != conditionId ==>
      r.conditions[i] == logic.conditions[i]
    ensures forall i :: 0 <= i < |logic.conditions| && logic.conditions[i].id == conditionId ==>
      r.conditions[i].id == conditionId
      && r.conditions[i].fieldId == (if key == FieldIdKey then value else logic.conditions[i].fieldId)
      && r.conditions[i].operator == (if key == OperatorKey then value else logic.conditions[i].operator)
      && r.conditions[i].value == (if key == ValueKey then value else logic.conditions[i].value)
    ensures r == logic.(conditions := r.conditions)
  {
    var cs := logic.conditions;
    logic.(conditions := seq(|cs|, i requires 0 <= i < |cs| =>
      if cs[i].id == conditionId then SetConditionKey(cs[i], key, value) else cs[i]))
  }

  /** Removing filters out the conditions with that id. */
  function RemoveCondition(logic: ConditionalLogic, conditionId: string): (r: ConditionalLogic)
    ensures forall i :: 0 <= i < |r.conditions| ==> r.conditions[i].id != conditionId && r.conditions[i] in logic.conditions
    ensures forall i :: 0 <= i < |logic.conditions| && logic.conditions[i].id != conditionId ==>
      logic.conditions[i] in r.conditions
    ensures r == logic.(conditions := r.conditions)
  {
    logic.(conditions := Seqs.Filter(logic.conditions, (c: Condition) => c.id != conditionId))
  }

  /** The conditions left by a removal keep their order. */
  lemma RemoveConditionKeepsOrder(logic: ConditionalLogic, conditionId: string, i: int, j: int)
    requires var cs := logic.conditions;
      0 <= i < j < |cs| && cs[i].id != conditionId && cs[j].id != conditionId
    ensures var cs := logic.conditions; var r := RemoveCondition(logic, conditionId).conditions;
      exists k, l :: 0 <= k < l < |r| && r[k] == cs[i] && r[l] == cs[j]
  {
    Seqs.FilterKeepsOrder(logic.conditions, (c: Condition) => c.id != conditionId, i, j);
  }

  /** With unique condition ids, removing takes out exactly the one
      condition with that id and keeps the rest in order. */
  lemma RemoveConditionTakesExactlyOne(logic: ConditionalLogic, i: int)
    requires var cs := logic.conditions;
      0 <= i < |cs| && forall a, b :: 0 <= a < b < |cs| ==> cs[a].id != cs[b].id
    ensures var cs := logic.conditions;
      RemoveCondition(logic, cs[i].id).conditions == cs[..i] + cs[i + 1..]
  {
    var cs := logic.conditions;
    Seqs.FilterDropsOne(cs, (c: Condition) => c.id != cs[i].id, i);
  }

  /** The owner's conditions stay resolvable across the editor's edits:
      adding names another present field, removing only drops conditions,
      and editing one to name another present field keeps it resolvable. */
  predicate ResolvesFor(logic: ConditionalLogic, fields: seq<Field>, ownerId: string) {
    forall c :: c in logic.conditions ==> c.fieldId in IdSet(fields) && c.fieldId != ownerId
  }

  lemma AddConditionKeepsResolved(logic: ConditionalLogic, fields: seq<Field>, ownerId: string, freshId: string)
    requires ResolvesFor(logic, fields, ownerId)
    requires AddCondition(logic, fields, ownerId, freshId).Some?
    ensures ResolvesFor(AddCondition(logic, fields, ownerId, freshId).value, fields, ownerId)
  {
    var r := AddCondition(logic, fields, ownerId, freshId).value;
    forall c | c in r.conditions ensures c.fieldId in IdSet(fields) && c.fieldId != ownerId {
      var k :| 0 <= k < |r.conditions| && r.conditions[k] == c;
      if k < |logic.conditions| { assert c == logic.conditions[k]; }
    }
  }

  lemma RemoveConditionKeepsResolved(logic: ConditionalLogic, fields: seq<Field>, ownerId: string, conditionId: string)
    requires ResolvesFor(logic, fields, ownerId)
    ensures ResolvesFor(RemoveCondition(logic, conditionId), fields, ownerId)
  {
    var r := RemoveCondition(logic, conditionId);
    forall c | c in r.conditions ensures c.fieldId in IdSet(fields) && c.fieldId != ownerId {
      var k :| 0 <= k < |r.conditions| && r.conditions[k] == c;
    }
  }

  lemma UpdateConditionKeepsResolved(logic: ConditionalLogic, fields: seq<Field>, ownerId: string,
                                     conditionId: string, key: ConditionKey, value: string)
    requires ResolvesFor(logic, fields, ownerId)
    requires key == FieldIdKey ==> value in IdSet(fields) && value != ownerId
    ensures ResolvesFor(UpdateCondition(logic, conditionId, key, value), fields, ownerId)
  {
    var r := UpdateCondition(logic, conditionId, key, value);
    forall c | c in r.conditions ensures c.fieldId in IdSet(fields) && c.fieldId != ownerId {
      var k :| 0 <= k < |r.conditions| && r.conditions[k] == c;
      assert logic.conditions[k] in logic.conditions;
    }
  }
}
