/** The schema store: the reducer over the form state, one function per
    action, and `Step`, which dispatches on the action. The random ids the
    source draws from `nanoid` are supplied as a sequence `ids`, used in the
    order the source draws them, and the clock reading as `now`. */
module FormStore {
  import opened Wrappers
  import opened Text
  import opened FormModel
  import Seqs

  /** An ISO-8601 time stamp, kept opaque. */
  type Timestamp = string

  datatype FormState = FormState(
    formTitle: string,
    formDescription: string,
    fields: seq<Field>,
    selectedFieldId: Option<string>,
    previewValues: map<string, Value>,
    lastSaved: Option<Timestamp>,
    isDirty: bool)

  const InitialState := FormState("Untitled Form", "", [], None, map[], None, false)

  /** A new form is an untitled, empty, clean and never saved one, so it
      meets the schema invariant and no id is taken yet. */
  lemma InitialStateIsClean()
    ensures InitialState.formTitle == "Untitled Form" && InitialState.fields == []
    ensures InitialState.selectedFieldId.None? && InitialState.previewValues == map[]
    ensures !InitialState.isDirty && InitialState.lastSaved.None?
    ensures SchemaConsistent(InitialState) && StateIds(InitialState) == {}
  {
  }

  /** The keys an `UPDATE_FIELD` payload may carry; None is a key that is
      not there. */
  datatype FieldUpdate = FieldUpdate(
    id: Option<string>,
    fieldType: Option<string>,
    labelText: Option<string>,
    placeholder: Option<string>,
    required: Option<bool>,
    validation: Option<ValidationRule>,
    options: Option<seq<FieldOption>>,
    conditionalLogic: Option<ConditionalLogic>)

  const NoUpdate := FieldUpdate(None, None, None, None, None, None, None, None)

  datatype Action =
    | AddFieldAction(fieldType: string)
    | UpdateFieldAction(id: string, updates: FieldUpdate)
    | RemoveFieldAction(id: string)
    | DuplicateFieldAction(id: string)
    | ReorderFieldsAction(activeId: string, overId: string)
    | SelectFieldAction(selection: Option<string>)
    | SetPreviewValueAction(fieldId: string, value: Value)
    | ResetPreviewAction
    | UpdateFormMetaAction(formTitle: Option<string>, formDescription: Option<string>)
    | LoadFormAction(formTitle: Option<string>, formDescription: Option<string>, fields: Option<seq<Field>>)
    | ResetFormAction
    | MarkSavedAction
    | MarkDirtyAction
    | UnrecognizedAction(actionType: string)

  // ------------------------------------------------------------ ids

  /** Every id the state holds: fields, their options, their conditions. */
  function StateIds(s: FormState): set<string> {
    IdSet(s.fields)
    + (set f, o | f in s.fields && o in f.options :: o.id)
    + (set f, c | f in s.fields && c in f.conditionalLogic.conditions :: c.id)
  }

  /** The supplied ids are pairwise distinct and new to the state. */
  predicate FreshIds(s: FormState, ids: seq<string>) {
    && (forall i, j :: 0 <= i < j < |ids| ==> ids[i] != ids[j])
    && (forall i :: 0 <= i < |ids| ==> ids[i] !in StateIds(s))
  }

  /** The index of the first field with id `id` (`findIndex`). */
  function IndexOfField(fields: seq<Field>, id: string): (r: Option<nat>)
    ensures r.None? <==> id !in IdSet(fields)
    ensures r.Some? ==> r.value < |fields| && fields[r.value].id == id
    ensures r.Some? ==> forall k :: 0 <= k < r.value ==> fields[k].id != id
  {
    var r := Seqs.FindIndex(fields, (f: Field) => f.id == id);
    if r.None? then NoMatchMeansAbsent(fields, id); r else r
  }

  lemma NoMatchMeansAbsent(fields: seq<Field>, id: string)
    requires forall i :: 0 <= i < |fields| ==> fields[i].id != id
    ensures id !in IdSet(fields)
  {
    forall f | f in fields ensures f.id != id {
      var k :| 0 <= k < |fields| && fields[k] == f;
    }
  }

  // ------------------------------------------------------- ADD_FIELD

  /** How many ids `getDefaultField` draws: one, plus one per default option. */
  function IdsForNewField(t: string): nat {
    if t == "radio" || t == "dropdown" then 3 else 1
  }

  /** `type.charAt(0).toUpperCase() + type.slice(1)`. */
  function Capitalize(t: string): string {
    if t == "" then "" else [UpperChar(t[0])] + t[1..]
  }

  /** `getDefaultField`: a new field of type `t`; radio and dropdown fields
      start with two options, every other type with none. */
  function DefaultField(t: string, ids: seq<string>): (f: Field)
    requires |ids| >= IdsForNewField(t)
    ensures f.id == ids[0] && f.fieldType == t
    ensures f.labelText == "New " + Capitalize(t) + " Field" && f.placeholder == ""
    ensures !f.required
    ensures f.validation == ValidationRule(None, None, None, "")
    ensures f.conditionalLogic == ConditionalLogic(false, "show", "all", [])
    ensures |f.options| == (if t in {"radio", "dropdown"} then 2 else 0)
    ensures t in {"radio", "dropdown"} ==>
      f.options == [FieldOption(ids[1], "Option 1", "option1"), FieldOption(ids[2], "Option 2", "option2")]
  {
    Field(
      ids[0], t, "New " + Capitalize(t) + " Field", "", false,
      ValidationRule(None, None, None, ""),
      if t == "radio" || t == "dropdown" then
        [FieldOption(ids[1], "Option 1", "option1"), FieldOption(ids[2], "Option 2", "option2")]
      else [],
      ConditionalLogic(false, "show", "all", []))
  }

  /** `ADD_FIELD`: appends one default field, selects it and marks the form
      dirty; every earlier field stays where it was. */
  function AddField(s: FormState, t: string, ids: seq<string>): (r: FormState)
    requires |ids| >= IdsForNewField(t)
    ensures |r.fields| == |s.fields| + 1
    ensures r.fields[..|s.fields|] == s.fields
    ensures r.fields[|s.fields|] == DefaultField(t, ids)
    ensures r.selectedFieldId == Some(ids[0])
    ensures r == s.(fields := r.fields, selectedFieldId := r.selectedFieldId, isDirty := true)
  {
    var f := DefaultField(t, ids);
    s.(fields := s.fields + [f], selectedFieldId := Some(f.id), isDirty := true)
  }

  lemma AddFieldKeepsInvariant(s: FormState, t: string, ids: seq<string>)
    requires |ids| >= IdsForNewField(t) && FreshIds(s, ids)
    requires UniqueIds(s.fields) && ConditionsResolve(s.fields)
    ensures UniqueIds(AddField(s, t, ids).fields) && ConditionsResolve(AddField(s, t, ids).fields)
  {
    var r := AddField(s, t, ids).fields;
    assert r == s.fields + [DefaultField(t, ids)];
    assert IdSet(s.fields) <= IdSet(r);
    assert ids[0] !in IdSet(s.fields);
  }

  // ----------------------------------------------------- UPDATE_FIELD

  /** `{ ...field, ...updates }`. */
  function MergeField(f: Field, u: FieldUpdate): Field {
    Field(
      u.id.GetOr(f.id),
      u.fieldType.GetOr(f.fieldType),
      u.labelText.GetOr(f.labelText),
      u.placeholder.GetOr(f.placeholder),
      u.required.GetOr(f.required),
      u.validation.GetOr(f.validation),
      u.options.GetOr(f.options),
      u.conditionalLogic.GetOr(f.conditionalLogic))
  }

  /** Merging applies the update: every key it names takes the update's
      value and every other key keeps the field's. So an empty update
      changes nothing, and merging the same update twice is merging it
      once. */
  lemma MergeTouchesOnlyNamedKeys(f: Field, u: FieldUpdate)
    ensures var r := MergeField(f, u);
      && r.id == (if u.id.Some? then u.id.value else f.id)
      && r.fieldType == (if u.fieldType.Some? then u.fieldType.value else f.fieldType)
      && r.labelText == (if u.labelText.Some? then u.labelText.value else f.labelText)
      && r.placeholder == (if u.placeholder.Some? then u.placeholder.value else f.placeholder)
      && r.required == (if u.required.Some? then u.required.value else f.required)
      && r.validation == (if u.validation.Some? then u.validation.value else f.validation)
      && r.options == (if u.options.Some? then u.options.value else f.options)
      && r.conditionalLogic == (if u.conditionalLogic.Some? then u.conditionalLogic.value else f.conditionalLogic)
    ensures MergeField(f, NoUpdate) == f
    ensures MergeField(MergeField(f, u), u) == MergeField(f, u)
  {
  }

  /** `UPDATE_FIELD`: the fields with that id are merged with the update,
      every other field and the order are kept; the form is marked dirty
      even when no field matched. */
  function UpdateField(s: FormState, id: string, u: FieldUpdate): (r: FormState)
    ensures |r.fields| == |s.fields|
    ensures forall i :: 0 <= i < |s.fields| && s.fields[i].id != id ==> r.fields[i] == s.fields[i]
    ensures forall i :: 0 <= i < |s.fields| && s.fields[i].id == id ==> r.fields[i] == MergeField(s.fields[i], u)
    ensures id !in IdSet(s.fields) ==> r.fields == s.fields
    ensures r == s.(fields := r.fields, isDirty := true)
  {
    var fields := seq(|s.fields|, i requires 0 <= i < |s.fields| =>
      if s.fields[i].id == id then MergeField(s.fields[i], u) else s.fields[i]);
    s.(fields := fields, isDirty := true)
  }

  /** An update the schema can take: it keeps the field's id, and a new
      condition list names only other fields that are present. */
  predicate UpdateRespectsSchema(s: FormState, id: string, u: FieldUpdate) {
    && (u.id.None? || u.id == Some(id))
    && (u.conditionalLogic.Some? ==>
          forall c :: c in u.conditionalLogic.value.conditions ==> c.fieldId in IdSet(s.fields) && c.fieldId != id)
  }

  /** Such an update keeps the schema invariant. */
  lemma UpdateFieldKeepsInvariant(s: FormState, id: string, u: FieldUpdate)
    requires SchemaConsistent(s) && UpdateRespectsSchema(s, id, u)
    ensures SchemaConsistent(UpdateField(s, id, u))
  {
    var r := UpdateField(s, id, u).fields;
    assert forall i :: 0 <= i < |r| ==> r[i].id == s.fields[i].id;
    assert IdSet(r) == IdSet(s.fields) by {
      forall x | x in IdSet(r) ensures x in IdSet(s.fields) {
        var f :| f in r && f.id == x;
        var k :| 0 <= k < |r| && r[k] == f;
        assert s.fields[k] in s.fields;
      }
      forall x | x in IdSet(s.fields) ensures x in IdSet(r) {
        var f :| f in s.fields && f.id == x;
        var k :| 0 <= k < |s.fields| && s.fields[k] == f;
        assert r[k] in r;
      }
    }
    forall i, c | 0 <= i < |r| && c in r[i].conditionalLogic.conditions
      ensures c.fieldId in IdSet(r) && c.fieldId != r[i].id
    {
      if s.fields[i].id == id && u.conditionalLogic.Some? {
        assert c in u.conditionalLogic.value.conditions;
      } else {
        assert c in s.fields[i].conditionalLogic.conditions;
      }
    }
  }

  // ----------------------------------------------------- REMOVE_FIELD

  /** The field with every condition on field `id` filtered out. */
  function WithoutConditionsOn(f: Field, id: string): Field {
    f.(conditionalLogic := f.conditionalLogic.(
      conditions := Seqs.Filter(f.conditionalLogic.conditions, (c: Condition) => c.fieldId != id)))
  }

  /** `REMOVE_FIELD`: the field goes, every condition anywhere that named it
      goes with it, the selection is cleared when it was that field, and the
      form is marked dirty. */
  function RemoveField(s: FormState, id: string): (r: FormState)
    ensures forall i :: 0 <= i < |r.fields| ==> r.fields[i].id != id
    ensures forall i, c :: 0 <= i < |r.fields| && c in r.fields[i].conditionalLogic.conditions ==> c.fieldId != id
    ensures forall f :: f in s.fields && f.id != id ==> WithoutConditionsOn(f, id) in r.fields
    ensures forall g :: g in r.fields ==> exists f :: f in s.fields && f.id != id && g == WithoutConditionsOn(f, id)
    ensures r.selectedFieldId == (if s.selectedFieldId == Some(id) then None else s.selectedFieldId)
    ensures r == s.(fields := r.fields, selectedFieldId := r.selectedFieldId, isDirty := true)
  {
    var kept := Seqs.Filter(s.fields, (f: Field) => f.id != id);
    var cleaned := seq(|kept|, k requires 0 <= k < |kept| => WithoutConditionsOn(kept[k], id));
    Seqs.FilterMembership(s.fields, (f: Field) => f.id != id);
    CleanedFieldsCorrespond(s.fields, id, kept, cleaned);
    s.(fields := cleaned,
       selectedFieldId := if s.selectedFieldId == Some(id) then None else s.selectedFieldId,
       isDirty := true)
  }

  lemma CleanedFieldsCorrespond(fields: seq<Field>, id: string, kept: seq<Field>, cleaned: seq<Field>)
    requires forall f :: f in kept <==> f in fields && f.id != id
    requires |cleaned| == |kept| && forall k :: 0 <= k < |kept| ==> cleaned[k] == WithoutConditionsOn(kept[k], id)
    ensures forall f :: f in fields && f.id != id ==> WithoutConditionsOn(f, id) in cleaned
    ensures forall g :: g in cleaned ==> exists f :: f in fields && f.id != id && g == WithoutConditionsOn(f, id)
  {
    forall f | f in fields && f.id != id
      ensures WithoutConditionsOn(f, id) in cleaned
    {
      var k :| 0 <= k < |kept| && kept[k] == f;
      assert cleaned[k] == WithoutConditionsOn(f, id);
    }
    forall g | g in cleaned
      ensures exists f :: f in fields && f.id != id && g == WithoutConditionsOn(f, id)
    {
      var k :| 0 <= k < |cleaned| && cleaned[k] == g;
      assert kept[k] in kept;
    }
  }

  /** The fields that remain keep their relative order. */
  lemma RemoveFieldKeepsOrder(s: FormState, id: string, i: int, j: int)
    requires 0 <= i < j < |s.fields| && s.fields[i].id != id && s.fields[j].id != id
    ensures var r := RemoveField(s, id).fields;
      exists k, l :: 0 <= k < l < |r|
        && r[k] == WithoutConditionsOn(s.fields[i], id) && r[l] == WithoutConditionsOn(s.fields[j], id)
  {
    var p := (f: Field) => f.id != id;
    var kept := Seqs.Filter(s.fields, p);
    Seqs.FilterKeepsOrder(s.fields, p, i, j);
    var k, l :| 0 <= k < l < |kept| && kept[k] == s.fields[i] && kept[l] == s.fields[j];
    var r := RemoveField(s, id).fields;
    assert r[k] == WithoutConditionsOn(s.fields[i], id) && r[l] == WithoutConditionsOn(s.fields[j], id);
  }

  /** A field's surviving conditions are exactly those not on `id`, in
      their order. */
  lemma SurvivingConditionsKeepOrder(f: Field, id: string, i: int, j: int)
    requires 0 <= i < j < |f.conditionalLogic.conditions|
    requires f.conditionalLogic.conditions[i].fieldId != id && f.conditionalLogic.conditions[j].fieldId != id
    ensures var cs := WithoutConditionsOn(f, id).conditionalLogic.conditions;
      exists k, l :: 0 <= k < l < |cs|
        && cs[k] == f.conditionalLogic.conditions[i] && cs[l] == f.conditionalLogic.conditions[j]
  {
    Seqs.FilterKeepsOrder(f.conditionalLogic.conditions, (c: Condition) => c.fieldId != id, i, j);
  }

  /** The remaining fields keep their ids, so unique ids stay unique. */
  lemma RemoveFieldKeepsUnique(s: FormState, id: string)
    requires UniqueIds(s.fields)
    ensures UniqueIds(RemoveField(s, id).fields)
  {
    var p := (f: Field) => f.id != id;
    var kept := Seqs.Filter(s.fields, p);
    var r := RemoveField(s, id).fields;
    assert |r| == |kept| && forall k :: 0 <= k < |r| ==> r[k].id == kept[k].id;
    Seqs.FilterKeepsKeysDistinct(s.fields, p, (f: Field) => f.id);
  }

  lemma RemoveFieldKeepsInvariant(s: FormState, id: string)
    requires UniqueIds(s.fields) && ConditionsResolve(s.fields)
    ensures UniqueIds(RemoveField(s, id).fields) && ConditionsResolve(RemoveField(s, id).fields)
  {
    RemoveFieldKeepsUnique(s, id);
    var r := RemoveField(s, id).fields;
    forall k, c | 0 <= k < |r| && c in r[k].conditionalLogic.conditions
      ensures c.fieldId in IdSet(r) && c.fieldId != r[k].id
    {
      assert r[k] in r;
      var f :| f in s.fields && f.id != id && r[k] == WithoutConditionsOn(f, id);
      var i :| 0 <= i < |s.fields| && s.fields[i] == f;
      assert c in f.conditionalLogic.conditions;
      var g :| g in s.fields && g.id == c.fieldId;
      assert WithoutConditionsOn(g, id) in r;
    }
  }

  // -------------------------------------------------- DUPLICATE_FIELD

  /** How many ids duplicating draws: one for the clone and one per option. */
  function IdsToDuplicate(fields: seq<Field>, id: string): nat {
    match IndexOfField(fields, id)
    case None => 0
    case Some(i) => 1 + |fields[i].options|
  }

  /** The clone: a fresh id, " (Copy)" appended to the label, fresh option
      ids with the same labels and values, and no conditions, the rest of
      its conditional logic kept. */
  function CloneField(f: Field, ids: seq<string>): (r: Field)
    requires |ids| >= 1 + |f.options|
    ensures r.id == ids[0]
    ensures r.labelText == f.labelText + " (Copy)"
    ensures |r.options| == |f.options|
    ensures forall k :: 0 <= k < |f.options| ==>
      r.options[k].id == ids[k + 1] && r.options[k].labelText == f.options[k].labelText && r.options[k].value == f.options[k].value
    ensures r.conditionalLogic.conditions == []
    ensures r.conditionalLogic == f.conditionalLogic.(conditions := [])
    ensures r == f.(id := r.id, labelText := r.labelText, options := r.options, conditionalLogic := r.conditionalLogic)
  {
    f.(id := ids[0],
       labelText := f.labelText + " (Copy)",
       options := seq(|f.options|, k requires 0 <= k < |f.options| => f.options[k].(id := ids[k + 1])),
       conditionalLogic := f.conditionalLogic.(conditions := []))
  }

  /** `DUPLICATE_FIELD`: with the id absent the state is returned as it is;
      otherwise the clone is inserted directly after the first field with
      that id, selected, and the form marked dirty. */
  function DuplicateField(s: FormState, id: string, ids: seq<string>): (r: FormState)
    requires |ids| >= IdsToDuplicate(s.fields, id)
    ensures id !in IdSet(s.fields) ==> r == s
    ensures IndexOfField(s.fields, id).Some? ==>
      var i := IndexOfField(s.fields, id).value;
      && |r.fields| == |s.fields| + 1
      && r.fields[..i + 1] == s.fields[..i + 1]
      && r.fields[i + 1] == CloneField(s.fields[i], ids)
      && r.fields[i + 2..] == s.fields[i + 1..]
      && r == s.(fields := r.fields, selectedFieldId := Some(ids[0]), isDirty := true)
  {
    match IndexOfField(s.fields, id)
    case None => s
    case Some(i) =>
      var copy := CloneField(s.fields[i], ids);
      var fields := Seqs.InsertAt(s.fields, i + 1, copy);
      assert fields[..i + 1] == s.fields[..i + 1];
      assert fields[i + 2..] == s.fields[i + 1..];
      s.(fields := fields, selectedFieldId := Some(copy.id), isDirty := true)
  }

  /** With fresh ids the clone's id is new to the form and its option ids
      are new, pairwise distinct and unlike the original's. */
  lemma DuplicateUsesFreshIds(s: FormState, id: string, ids: seq<string>)
    requires |ids| >= IdsToDuplicate(s.fields, id) && FreshIds(s, ids)
    requires id in IdSet(s.fields)
    ensures var i := IndexOfField(s.fields, id).value;
      var copy := DuplicateField(s, id, ids).fields[i + 1];
      && copy.id !in IdSet(s.fields)
      && (forall k, m :: 0 <= k < |copy.options| && 0 <= m < |s.fields[i].options| ==> copy.options[k].id != s.fields[i].options[m].id)
      && (forall k, m :: 0 <= k < m < |copy.options| ==> copy.options[k].id != copy.options[m].id)
  {
    var i := IndexOfField(s.fields, id).value;
    var f := s.fields[i];
    forall m | 0 <= m < |f.options| ensures f.options[m].id in StateIds(s) {
      assert f in s.fields && f.options[m] in f.options;
    }
  }

  /** Placing a field with a new id anywhere keeps the ids unique. */
  lemma InsertNewIdKeepsUnique(fields: seq<Field>, k: nat, f: Field)
    requires k <= |fields| && UniqueIds(fields) && f.id !in IdSet(fields)
    ensures UniqueIds(Seqs.InsertAt(fields, k, f))
  {
    var r := Seqs.InsertAt(fields, k, f);
    forall a, b | 0 <= a < b < |r| ensures r[a].id != r[b].id {
      if a == k { assert r[b] == fields[b - 1]; }
      else if b == k { assert r[a] == fields[a]; }
    }
  }

  lemma DuplicateFieldKeepsInvariant(s: FormState, id: string, ids: seq<string>)
    requires |ids| >= IdsToDuplicate(s.fields, id) && FreshIds(s, ids)
    requires UniqueIds(s.fields) && ConditionsResolve(s.fields)
    ensures UniqueIds(DuplicateField(s, id, ids).fields) && ConditionsResolve(DuplicateField(s, id, ids).fields)
  {
    if id in IdSet(s.fields) {
      var i := IndexOfField(s.fields, id).value;
      var copy := CloneField(s.fields[i], ids);
      var r := Seqs.InsertAt(s.fields, i + 1, copy);
      assert DuplicateField(s, id, ids).fields == r;
      assert ids[0] !in StateIds(s);
      InsertNewIdKeepsUnique(s.fields, i + 1, copy);
      assert IdSet(s.fields) <= IdSet(r) by {
        forall x | x in IdSet(s.fields) ensures x in IdSet(r) {
          var g :| g in s.fields && g.id == x;
          var m :| 0 <= m < |s.fields| && s.fields[m] == g;
          if m <= i { assert r[m] == g; } else { assert r[m + 1] == g; }
        }
      }
      forall k, c | 0 <= k < |r| && c in r[k].conditionalLogic.conditions
        ensures c.fieldId in IdSet(r) && c.fieldId != r[k].id
      {
        if k < i + 1 { assert r[k] == s.fields[k]; }
        else if k > i + 1 { assert r[k] == s.fields[k - 1]; }
      }
    }
  }

  // -------------------------------------------------- REORDER_FIELDS

  /** `REORDER_FIELDS`: a no-op when the ids are equal or either is absent;
      otherwise the moved field is taken out and put back at the original
      index of the target, and the form is marked dirty. */
  function ReorderFields(s: FormState, activeId: string, overId: string): (r: FormState)
    ensures activeId == overId || activeId !in IdSet(s.fields) || overId !in IdSet(s.fields) ==> r == s
    ensures activeId != overId && activeId in IdSet(s.fields) && overId in IdSet(s.fields) ==>
      var i := IndexOfField(s.fields, activeId).value;
      var j := IndexOfField(s.fields, overId).value;
      && |r.fields| == |s.fields|
      && multiset(r.fields) == multiset(s.fields)
      && r.fields[j] == s.fields[i]
      && Seqs.RemoveAt(r.fields, j) == Seqs.RemoveAt(s.fields, i)
      && r == s.(fields := r.fields, isDirty := true)
  {
    if activeId == overId then s
    else
      match (IndexOfField(s.fields, activeId), IndexOfField(s.fields, overId))
      case (Some(i), Some(j)) =>
        var rest := Seqs.RemoveAt(s.fields, i);
        var fields := Seqs.InsertAt(rest, j, s.fields[i]);
        Seqs.MovePermutes(s.fields, i, j);
        Seqs.RemoveInserted(rest, j, s.fields[i]);
        s.(fields := fields, isDirty := true)
      case _ => s
  }

  /** Where the target ends up: moving a field up inserts it before the
      target, but moving it down leaves it after the target. */
  lemma ReorderPlacement(s: FormState, activeId: string, overId: string)
    requires activeId != overId && activeId in IdSet(s.fields) && overId in IdSet(s.fields)
    ensures var i := IndexOfField(s.fields, activeId).value;
      var j := IndexOfField(s.fields, overId).value;
      var r := ReorderFields(s, activeId, overId).fields;
      && (i < j ==> r[j - 1] == s.fields[j] && r[j] == s.fields[i])
      && (j < i ==> r[j] == s.fields[i] && r[j + 1] == s.fields[j])
  {
  }

  /** Taking a field out keeps the others' ids unique and leaves its id
      unused. */
  lemma RemoveAtKeepsUnique(fields: seq<Field>, i: nat)
    requires i < |fields| && UniqueIds(fields)
    ensures UniqueIds(Seqs.RemoveAt(fields, i)) && fields[i].id !in IdSet(Seqs.RemoveAt(fields, i))
  {
    var rest := Seqs.RemoveAt(fields, i);
    forall g | g in rest ensures g.id != fields[i].id {
      var k :| 0 <= k < |rest| && rest[k] == g;
      if k < i { assert g == fields[k]; } else { assert g == fields[k + 1]; }
    }
  }

  /** Referential integrity depends only on which fields there are, not on
      their order. */
  lemma PermutationKeepsConditionsResolved(a: seq<Field>, b: seq<Field>)
    requires multiset(a) == multiset(b) && ConditionsResolve(a)
    ensures ConditionsResolve(b)
  {
    assert forall g :: g in a <==> g in b by {
      forall g ensures g in a <==> g in b {
        assert g in a <==> g in multiset(a);
        assert g in b <==> g in multiset(b);
      }
    }
    assert IdSet(a) == IdSet(b);
    forall k, c | 0 <= k < |b| && c in b[k].conditionalLogic.conditions
      ensures c.fieldId in IdSet(b) && c.fieldId != b[k].id
    {
      assert b[k] in b;
      var m :| 0 <= m < |a| && a[m] == b[k];
    }
  }

  lemma ReorderFieldsKeepsInvariant(s: FormState, activeId: string, overId: string)
    requires UniqueIds(s.fields) && ConditionsResolve(s.fields)
    ensures UniqueIds(ReorderFields(s, activeId, overId).fields) && ConditionsResolve(ReorderFields(s, activeId, overId).fields)
  {
    if activeId != overId && activeId in IdSet(s.fields) && overId in IdSet(s.fields) {
      var i := IndexOfField(s.fields, activeId).value;
      var j := IndexOfField(s.fields, overId).value;
      var rest := Seqs.RemoveAt(s.fields, i);
      var r := ReorderFields(s, activeId, overId).fields;
      assert r == Seqs.InsertAt(rest, j, s.fields[i]);
      RemoveAtKeepsUnique(s.fields, i);
      InsertNewIdKeepsUnique(rest, j, s.fields[i]);
      PermutationKeepsConditionsResolved(s.fields, r);
    }
  }

  // ----------------------------------------- selection, preview, meta

  /** `SET_PREVIEW_VALUE`: only the entry of `fieldId` changes. */
  function SetPreviewValue(s: FormState, fieldId: string, v: Value): (r: FormState)
    ensures Lookup(r.previewValues, fieldId) == v
    ensures forall k :: k != fieldId ==> Lookup(r.previewValues, k) == Lookup(s.previewValues, k)
    ensures r.previewValues.Keys == s.previewValues.Keys + {fieldId}
    ensures r == s.(previewValues := r.previewValues)
  {
    s.(previewValues := s.previewValues[fieldId := v])
  }

  /** `UPDATE_FORM_META`: a missing (null or undefined) title or
      description keeps the old one; a given one, even empty, replaces it.
      The fields are not touched. */
  function UpdateFormMeta(s: FormState, title: Option<string>, description: Option<string>): (r: FormState)
    ensures title.None? ==> r.formTitle == s.formTitle
    ensures title.Some? ==> r.formTitle == title.value
    ensures description.None? ==> r.formDescription == s.formDescription
    ensures description.Some? ==> r.formDescription == description.value
    ensures r.fields == s.fields
    ensures r == s.(formTitle := r.formTitle, formDescription := r.formDescription, isDirty := true)
  {
    s.(formTitle := title.GetOr(s.formTitle), formDescription := description.GetOr(s.formDescription), isDirty := true)
  }

  /** A missing or empty string. */
  predicate FalsyString(x: Option<string>) {
    x.None? || x == Some("")
  }

  /** `LOAD_FORM`: title, description and fields are replaced wholesale,
      with "Untitled Form", "" and [] for missing or empty inputs; nothing
      about the loaded fields is checked. The selection and preview values
      are cleared, the form is clean and stamped with `now`. */
  function LoadForm(s: FormState, title: Option<string>, description: Option<string>, fields: Option<seq<Field>>,
                    now: Timestamp): (r: FormState)
    ensures r.formTitle == (if FalsyString(title) then "Untitled Form" else title.value)
    ensures r.formDescription == (if FalsyString(description) then "" else description.value)
    ensures fields.Some? ==> r.fields == fields.value
    ensures fields.None? ==> r.fields == []
    ensures r.selectedFieldId.None? && r.previewValues == map[] && !r.isDirty && r.lastSaved == Some(now)
  {
    FormState(
      if FalsyString(title) then "Untitled Form" else title.value,
      if FalsyString(description) then "" else description.value,
      fields.GetOr([]),
      None, map[], Some(now), false)
  }

  // ---------------------------------------------------------- reducer

  /** How many fresh ids the action draws. */
  function IdsNeeded(s: FormState, a: Action): nat {
    match a
    case AddFieldAction(t) => IdsForNewField(t)
    case DuplicateFieldAction(id) => IdsToDuplicate(s.fields, id)
    case _ => 0
  }

  /** The schema invariant: unique field ids, and every condition names
      another field that is present. */
  predicate SchemaConsistent(s: FormState) {
    UniqueIds(s.fields) && ConditionsResolve(s.fields)
  }

  /** The actions that edit the schema or its metadata. */
  predicate IsEdit(a: Action) {
    a.AddFieldAction? || a.UpdateFieldAction? || a.RemoveFieldAction? || a.UpdateFormMetaAction?
  }

  /** `formReducer`. Edits always leave the form dirty; only loading,
      saving and resetting touch the save stamp; the fields change only
      under the five field actions, a load and a reset; an unrecognized
      action returns the state unchanged. */
  function Step(s: FormState, a: Action, ids: seq<string>, now: Timestamp): (r: FormState)
    requires |ids| >= IdsNeeded(s, a)
    ensures IsEdit(a) || a.MarkDirtyAction? ==> r.isDirty
    ensures a.LoadFormAction? || a.MarkSavedAction? || a.ResetFormAction? ==> !r.isDirty
    ensures r.lastSaved != s.lastSaved ==> a.LoadFormAction? || a.MarkSavedAction? || a.ResetFormAction?
    ensures r.fields != s.fields ==>
      IsEdit(a) || a.DuplicateFieldAction? || a.ReorderFieldsAction? || a.LoadFormAction? || a.ResetFormAction?
    ensures a.SelectFieldAction? ==> r == s.(selectedFieldId := a.selection)
    ensures a.ResetPreviewAction? ==> r == s.(previewValues := map[])
    ensures a.MarkSavedAction? ==> r == s.(lastSaved := Some(now), isDirty := false)
    ensures a.MarkDirtyAction? ==> r == s.(isDirty := true)
    ensures a.ResetFormAction? ==> r == InitialState
    ensures a.UnrecognizedAction? ==> r == s
  {
    match a
    case AddFieldAction(t) => AddField(s, t, ids)
    case UpdateFieldAction(id, u) => UpdateField(s, id, u)
    case RemoveFieldAction(id) => RemoveField(s, id)
    case DuplicateFieldAction(id) => DuplicateField(s, id, ids)
    case ReorderFieldsAction(activeId, overId) => ReorderFields(s, activeId, overId)
    case SelectFieldAction(selection) => s.(selectedFieldId := selection)
    case SetPreviewValueAction(fieldId, v) => SetPreviewValue(s, fieldId, v)
    case ResetPreviewAction => s.(previewValues := map[])
    case UpdateFormMetaAction(title, description) => UpdateFormMeta(s, title, description)
    case LoadFormAction(title, description, fields) => LoadForm(s, title, description, fields, now)
    case ResetFormAction => InitialState.(isDirty := false)
    case MarkSavedAction => s.(lastSaved := Some(now), isDirty := false)
    case MarkDirtyAction => s.(isDirty := true)
    case UnrecognizedAction(_) => s
  }

  /** With fresh ids, every action except an update of a field and a
      wholesale load keeps the schema consistent; those two install what
      the caller gives them. */
  lemma StepKeepsSchemaConsistent(s: FormState, a: Action, ids: seq<string>, now: Timestamp)
    requires |ids| >= IdsNeeded(s, a) && FreshIds(s, ids)
    requires SchemaConsistent(s) && !a.LoadFormAction?
    requires a.UpdateFieldAction? ==> UpdateRespectsSchema(s, a.id, a.updates)
    ensures SchemaConsistent(Step(s, a, ids, now))
  {
    match a {
      case AddFieldAction(t) => AddFieldKeepsInvariant(s, t, ids);
      case UpdateFieldAction(id, u) => UpdateFieldKeepsInvariant(s, id, u);
      case RemoveFieldAction(id) => RemoveFieldKeepsInvariant(s, id);
      case DuplicateFieldAction(id) => DuplicateFieldKeepsInvariant(s, id, ids);
      case ReorderFieldsAction(activeId, overId) => ReorderFieldsKeepsInvariant(s, activeId, overId);
      case _ =>
    }
  }

  /** After removing a field no condition anywhere refers to it (the one
      cross-entity repair the store performs). */
  lemma RemoveLeavesNoDanglingCondition(s: FormState, id: string, ids: seq<string>, now: Timestamp)
    ensures var r := Step(s, RemoveFieldAction(id), ids, now);
      id !in IdSet(r.fields)
      && forall f, c :: f in r.fields && c in f.conditionalLogic.conditions ==> c.fieldId != id
  {
    var r := Step(s, RemoveFieldAction(id), ids, now);
    forall f, c | f in r.fields && c in f.conditionalLogic.conditions ensures c.fieldId != id {
      var k :| 0 <= k < |r.fields| && r.fields[k] == f;
    }
  }
}
