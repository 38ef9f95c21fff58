# Dynamic Form Builder — a Dafny model of its core

Dynamic Form Builder is a browser application. A user composes a form
schema by adding fields of seven types (text, email, number, date,
checkbox, radio, dropdown). The user configures labels, validation rules,
options and conditional show/hide/enable/disable rules, reorders the
fields, and tries the form out in a live preview.

This project models the parts of the application that hold its logic:

- **The schema store** (`form_store.dfy`): the reducer over the form
  state. There is one function per action and a dispatcher, `Step`.
- **The condition evaluator** (`conditional_logic.dfy`): a single
  condition, AND/OR combination, field visibility and disabled state,
  condition descriptions, and the operators offered per field type.
- **The validation engine** (`validation.dfy`): one field, the email
  check, and the whole form.
- **The field catalog** (`field_defaults.dfy`): the palette table and the
  menus, with their lookups.
- **The two editors** (`options_editor.dfy`, `conditional_logic_editor.dfy`):
  the handlers of the option-list editor and the conditional-logic editor.
  Each handler is modelled as the value it hands to `onChange`, or None
  when it hands over nothing.
- **The preview's submit path** (`form_preview.dfy`): only the visible
  fields are validated.

`form_model.dfy` holds the shared schema. `text.dfy` holds the parts of
JavaScript's string and number behaviour the core relies on: `String(n)`,
`Number(s)`, `toLowerCase`, `includes` and the `\s` class. `seqs.dfy`
holds the array operations: `filter`, `findIndex` and `splice`. The
source's `label` key is called `labelText`, because `label` is a Dafny
keyword.

The properties proved include:

- Referential integrity of the schema: unique field ids, and every
  condition names another field that is present. Every action except a
  wholesale load preserves it, a field update provided it keeps the
  field's id and names only present fields in new conditions.
- Removing a field leaves no condition that refers to it.
- Duplication inserts the clone right after the original, with fresh ids
  and no conditions.
- Reordering is a permutation that puts the moved field at the target's
  old index.
- The AND/OR combination equals a quantifier over the conditions.
- Show/hide and enable/disable are orthogonal.
- The email check is exactly the regular expression `^[^\s@]+@[^\s@]+\.[^\s@]+$`.
- The whole-form validation loop computes the per-field results, and a
  submission is accepted exactly when every visible field is valid.
- A hidden field is never validated.

## Model

| member | source | states |
|---|---|---|
| FormStore.DefaultField | src/context/FormContext.js:35-59 | the new field's id is the first fresh id. The label is "New <Type> Field" with the first letter upper-cased. It is not required, the validation rule is empty, and logic is disabled with show/all and no conditions. Radio and dropdown fields get exactly the two options Option 1/option1 and Option 2/option2 with the next two ids; every other type gets none |
| FormStore.AddField | src/context/FormContext.js:64-72 | appends the default field and keeps every earlier field in place. The new field is selected and the form marked dirty; nothing else changes |
| FormStore.AddFieldKeepsInvariant | src/context/FormContext.js:64-72 | with fresh ids, adding keeps field ids unique and conditions resolvable |
| FormStore.MergeTouchesOnlyNamedKeys | src/context/FormContext.js:79-81 | `{...field, ...updates}`: each of the eight keys takes the update's value when the update names it and keeps the field's value otherwise; an empty update changes nothing, and merging twice equals merging once |
| FormStore.UpdateField | src/context/FormContext.js:74-83 | the fields with the id are merged with the update; every other field and their order are kept. An absent id leaves the fields unchanged, yet the form is still marked dirty |
| FormStore.UpdateFieldKeepsInvariant | src/context/FormContext.js:74-83 | an update that keeps the field's id, and whose new conditions name only present fields other than the field itself, keeps field ids unique and conditions resolvable |
| FormStore.RemoveField | src/context/FormContext.js:85-103 | no remaining field has the id and no remaining condition names it. Each other field survives with its conditions on the id removed, and every survivor comes from such a field. The selection is cleared exactly when it was the removed field; the form is dirty |
| FormStore.RemoveFieldKeepsOrder | src/context/FormContext.js:86 | the remaining fields keep their relative order |
| FormStore.SurvivingConditionsKeepOrder | src/context/FormContext.js:91-93 | a field's surviving conditions keep their relative order |
| FormStore.RemoveFieldKeepsInvariant | src/context/FormContext.js:85-103 | removal keeps field ids unique and conditions resolvable, because references to the removed field are cleaned up |
| FormStore.RemoveLeavesNoDanglingCondition | src/context/FormContext.js:88-95 | after the reducer removes a field, neither the field nor any condition on it remains |
| FormStore.IndexOfField | src/context/FormContext.js:120 | `findIndex`: None exactly when no field has the id; otherwise the first index that has it |
| FormStore.CloneField | src/context/FormContext.js:109-118 | the clone takes the next fresh id and appends " (Copy)" to the label. Its options get fresh ids and keep their labels and values. Its conditions are emptied and all other logic keys kept; every other key is copied |
| FormStore.DuplicateField | src/context/FormContext.js:105-130 | an absent id returns the state unchanged. Otherwise the clone is inserted directly after the first field with that id, the fields before and after are unchanged, the clone is selected, and the form is dirty |
| FormStore.DuplicateUsesFreshIds | src/context/FormContext.js:111-113 | given fresh ids, the clone's id is new to the form. Its option ids are pairwise distinct and differ from the original's |
| FormStore.DuplicateFieldKeepsInvariant | src/context/FormContext.js:105-130 | with fresh ids, duplication keeps field ids unique and conditions resolvable |
| FormStore.InsertNewIdKeepsUnique | src/context/FormContext.js:122 | `splice`-inserting a field whose id is unused keeps ids unique |
| FormStore.ReorderFields | src/context/FormContext.js:132-150 | equal ids, or an id that is absent, return the state unchanged. Otherwise the result is a permutation with the moved field at the target's old index, and removing it there gives the list with the moved field removed from its old index. The form is dirty |
| FormStore.ReorderPlacement | src/context/FormContext.js:142-143 | moving up puts the field before the target; moving down leaves it after the target |
| FormStore.RemoveAtKeepsUnique | src/context/FormContext.js:142 | taking a field out keeps the other ids unique and frees its id |
| FormStore.PermutationKeepsConditionsResolved | src/context/FormContext.js:141-143 | conditions resolve independently of field order |
| FormStore.ReorderFieldsKeepsInvariant | src/context/FormContext.js:132-150 | reordering keeps field ids unique and conditions resolvable |
| FormStore.SetPreviewValue | src/context/FormContext.js:158-165 | only the entry of that field changes, and it holds the new value; nothing else in the state changes, and isDirty is not touched |
| FormStore.UpdateFormMeta | src/context/FormContext.js:173-179 | a missing title or description keeps the old one; a given one, even "", replaces it. The fields are untouched and the form is dirty |
| FormStore.LoadForm | src/context/FormContext.js:181-194 | title, description and fields are replaced. A missing or empty value falls back to "Untitled Form", "" and []. The loaded fields are taken as they come. The selection and preview values are cleared, and the form is clean and stamped with the supplied time |
| FormStore.Step | src/context/FormContext.js:62-218 | the reducer. Edits and MARK_DIRTY leave the form dirty, and LOAD_FORM, MARK_SAVED and RESET_FORM leave it clean. Only those three change the save stamp. The fields change only under field actions, load and reset. SELECT_FIELD, RESET_PREVIEW, MARK_SAVED and MARK_DIRTY change only their own keys, RESET_FORM gives the initial state, and an unknown action returns the state |
| FormStore.StepKeepsSchemaConsistent | src/context/FormContext.js:62-218 | with fresh ids, every action except LOAD_FORM keeps field ids unique and conditions resolvable; UPDATE_FIELD does so when the update keeps the field's id and its new conditions name present fields other than the field itself |
| FormStore.InitialStateIsClean | src/context/FormContext.js:7-15 | the initial state is an untitled, empty form with no selection or preview values, clean and never saved; it meets the schema invariant and holds no id |
| Text.Lower | src/utils/conditionalLogic.js:24 | `toLowerCase`: the same length, no upper-case letter left, and every character that was not an upper-case letter kept |
| Text.ParseNumber | src/utils/conditionalLogic.js:33 | `Number(s)`: "" is 0 and a digit string a non-negative number; any accepted string is an optional sign followed by digits, and a negative result has a minus sign |
| Text.ParseIntToString | src/utils/validation.js:44 | reading back the decimal text of an integer gives the integer |
| FormModel.Lookup | src/utils/conditionalLogic.js:8 | `fieldValues[fieldId]`: the stored value for a present key; undefined exactly when the key is missing or holds undefined/null |
| FormModel.ToStr | src/utils/conditionalLogic.js:24 | `String(v)`: a string is itself, a number is non-empty decimal text that reads back as the number, a boolean is "true" or "false" accordingly, and undefined is "undefined" |
| FormModel.ToNumber | src/utils/validation.js:39 | `Number(v)`: a boolean is 1 or 0, undefined is NaN, and anything else is the number its string spells |
| FormModel.Falsy | src/utils/validation.js:17 | `!value`: a falsy value is undefined or numerically 0; a string is falsy exactly when empty, a number exactly when 0, a boolean exactly when false |
| Text.LowerForgetsCase | src/utils/conditionalLogic.js:24 | lower-casing is idempotent and erases any prior upper-casing |
| Text.Includes | src/utils/conditionalLogic.js:30 | `includes` holds exactly when the needle occurs at some offset of the haystack |
| ConditionalLogic.EvaluateCondition | src/utils/conditionalLogic.js:6-47 | only the seven known operators can hold, and every operator but isEmpty holds only on a present value |
| ConditionalLogic.AbsentSatisfiesOnlyIsEmpty | src/utils/conditionalLogic.js:11-20 | an undefined or null field value satisfies isEmpty and nothing else |
| ConditionalLogic.EqualsNotEqualsComplement | src/utils/conditionalLogic.js:23-27 | notEquals is the negation of equals, absent values aside |
| ConditionalLogic.EqualsIgnoresCase | src/utils/conditionalLogic.js:23-24 | equals compares the lower-cased spellings, so upper-casing either side does not change the result |
| ConditionalLogic.ContainsIsSubstring | src/utils/conditionalLogic.js:29-30 | contains holds exactly when the lower-cased target is a substring of the lower-cased value |
| ConditionalLogic.NumericComparisons | src/utils/conditionalLogic.js:32-36 | greaterThan and lessThan never both hold, and both fail when either side is not a number (NaN) |
| ConditionalLogic.ComparisonsCompareNumbers | src/utils/conditionalLogic.js:32-36 | when both sides are numbers, greaterThan holds exactly when the value is larger and lessThan exactly when it is smaller |
| ConditionalLogic.EqualsComparesStrings | src/utils/conditionalLogic.js:23-24 | equals compares the lower-cased `String` of any present value: a number equals its decimal text, and a boolean equals "true" or "false" in any case |
| ConditionalLogic.EmptinessOperators | src/utils/conditionalLogic.js:38-42 | on a present value, isEmpty holds for "" and false only, and isNotEmpty is its complement |
| ConditionalLogic.OperatorMenuIsHandled | src/utils/fieldDefaults.js:64-72 | the operator menu lists exactly the operators the evaluator handles |
| ConditionalLogic.AllMet | src/utils/conditionalLogic.js:59 | `every` equals the universal quantifier over the conditions |
| ConditionalLogic.AnyMet | src/utils/conditionalLogic.js:62 | `some` equals the existential quantifier over the conditions |
| ConditionalLogic.EvaluateConditions | src/utils/conditionalLogic.js:52-64 | an empty list is met. Otherwise "all" is met exactly when every condition holds, and any other logic type exactly when some condition holds |
| ConditionalLogic.EvaluateFieldVisibility | src/utils/conditionalLogic.js:69-92 | a field without enabled, non-empty logic is visible, and so is one whose action is neither show nor hide. Show is visible exactly when the conditions are met, hide exactly when they are not |
| ConditionalLogic.EvaluateFieldDisabled | src/utils/conditionalLogic.js:97-120 | a field without enabled, non-empty logic is enabled, and so is one whose action is neither enable nor disable. Enable disables it exactly when the conditions are not met, disable exactly when they are |
| ConditionalLogic.VisibilityAndDisabledOrthogonal | src/utils/conditionalLogic.js:69-120 | no field is hidden and disabled at once. A show/hide field is never disabled, and an enable/disable field is always visible |
| ConditionalLogic.OperatorLabel | src/utils/conditionalLogic.js:129-139 | a known operator has a non-empty label; any other operator is shown as itself |
| ConditionalLogic.OperatorLabelsDistinct | src/utils/conditionalLogic.js:129-137 | the seven known operators have pairwise-distinct labels |
| ConditionalLogic.FieldName | src/utils/conditionalLogic.js:126-127 | the label of the first field with the id, or "Unknown field" when there is none |
| ConditionalLogic.DescribeCondition | src/utils/conditionalLogic.js:125-146 | the text starts with the quoted field name and the operator label. It is exactly that for isEmpty/isNotEmpty; otherwise it is exactly three characters plus the target value longer, the space and quotes around the value |
| ConditionalLogic.DescribeConditionParts | src/utils/conditionalLogic.js:139-145 | a missing field is described as "Unknown field"; a comparing operator ends the text with the quoted target value |
| ConditionalLogic.GetOperatorsForFieldType | src/utils/conditionalLogic.js:151-179 | the list always starts with the four base operators. contains is offered exactly for text and email. greaterThan and lessThan are offered exactly for number. Every offered operator is one the evaluator handles |
| FieldDefaults.GetFieldTypeConfig | src/utils/fieldDefaults.js:23-25 | returns a catalog entry: the one of that type when it exists, otherwise the text entry |
| FieldDefaults.GetFieldIcon | src/utils/fieldDefaults.js:30-33 | the type's catalog icon, falling back to the text icon |
| FieldDefaults.GetFieldColor | src/utils/fieldDefaults.js:38-41 | the type's catalog colour, falling back to #6366f1 |
| FieldDefaults.FieldTypesDistinct | src/utils/fieldDefaults.js:10-18 | the catalog has seven pairwise-distinct types, and a type is known exactly when it is one of them |
| FieldDefaults.ActionAndLogicMenus | src/utils/fieldDefaults.js:46-59 | the action menu is show, hide, enable, disable; the logic menu is all, any |
| FieldDefaults.OperatorMenu | src/utils/fieldDefaults.js:64-72 | seven pairwise-distinct operators, in menu order |
| Validation.ValidateEmail | src/utils/validation.js:87-90 | accepts exactly the strings matched by `^[^\s@]+@[^\s@]+\.[^\s@]+$` |
| Validation.EmailCheckSound | src/utils/validation.js:88 | a string the split check accepts matches the regular expression |
| Validation.EmailCheckComplete | src/utils/validation.js:88 | a string matching the regular expression passes the split check |
| Validation.TypeErrors | src/utils/validation.js:31-64 | at most two errors, and none for a type other than email, number and text. An email field has an error exactly when the stringified value fails the regular expression, and then only the email message. A number field that is NaN gives only "Please enter a valid number". Otherwise a number value, or a text field's string length, gives one error per violated inclusive bound: the min message ("Value must be at least n" / "Must be at least n characters") first and the max message last. The custom error replaces each message |
| Validation.PatternErrors | src/utils/validation.js:67-76 | reports one error exactly when a non-empty pattern is set, the value is truthy, the pattern compiles and its test rejects the stringified value. The message is the custom error or the default |
| Validation.ValidateField | src/utils/validation.js:6-82 | valid exactly when there are no errors, and at most three errors. A blank required field gives only the required message, and a falsy required checkbox only the must-be-checked message. A blank optional field is valid. Otherwise the errors are the type errors followed by the pattern error |
| Validation.NumberBoundsExample | src/utils/validation.js:43-48 | with bounds 5..10, 3 gives "Value must be at least 5", 12 gives "Value must be at most 10", and 7 is valid |
| Validation.RequiredShortCircuits | src/utils/validation.js:10-14 | a required field with "" gives exactly the required message, "<label> is required" without a custom error |
| Validation.AllValidMeansNoErrors | src/utils/validation.js:104-111 | the form is valid exactly when no field reports an error, and then no required field is blank |
| Validation.ValidateAllFields | src/utils/validation.js:95-113 | the loop's results are the per-field map, and the form is valid exactly when every field is valid |
| Validation.ResultsMapKeys | src/utils/validation.js:102 | the results are keyed by exactly the fields' ids |
| Validation.ResultsMapEntries | src/utils/validation.js:100-102 | with unique ids, each field's entry is its ValidateField result on its own value |
| Validation.ValidityAgreesWithResults | src/utils/validation.js:104-111 | with unique ids, the form is valid exactly when every entry of the results is valid |
| OptionsEditor.AddOption | src/components/builder/OptionsEditor.js:14-21 | appends one option with the fresh id, labelled "Option n" with value "optionn", where n is the new length; earlier options stay |
| OptionsEditor.AddOptionKeepsIdsUnique | src/components/builder/OptionsEditor.js:16 | adding with a fresh id keeps option ids unique |
| OptionsEditor.UpdateOption | src/components/builder/OptionsEditor.js:23-29 | sets the named key of the options with the id; every other key, every other option and the order are kept |
| OptionsEditor.UpdateOptionKeepsIds | src/components/builder/OptionsEditor.js:23-29 | editing never changes an id, so unique ids stay unique |
| OptionsEditor.RemoveOption | src/components/builder/OptionsEditor.js:31-35 | refused exactly when at most one option is left. Otherwise the result has no option with that id, and it keeps every option without that id |
| OptionsEditor.RemoveOptionTakesExactlyOne | src/components/builder/OptionsEditor.js:31-35 | with unique ids, removal deletes exactly that one option, keeps the others in order, and never empties the list |
| OptionsEditor.RemoveAbsentOptionKeepsAll | src/components/builder/OptionsEditor.js:33 | removing an id no option has changes nothing |
| ConditionalLogicEditor.AvailableFields | src/components/builder/ConditionalLogicEditor.js:30 | exactly the fields other than the owner |
| ConditionalLogicEditor.AvailableFieldsKeepOrder | src/components/builder/ConditionalLogicEditor.js:30 | the available fields keep their order in the form |
| ConditionalLogicEditor.Toggle | src/components/builder/ConditionalLogicEditor.js:32-37 | sets enabled and keeps the rest of the logic |
| ConditionalLogicEditor.ActionChange | src/components/builder/ConditionalLogicEditor.js:39-44 | sets the action and keeps the rest of the logic |
| ConditionalLogicEditor.LogicTypeChange | src/components/builder/ConditionalLogicEditor.js:46-53 | a missing or empty logic type is ignored; any other one replaces the logic type and keeps the rest |
| ConditionalLogicEditor.AddCondition | src/components/builder/ConditionalLogicEditor.js:55-70 | nothing is emitted exactly when no field other than the owner exists. Otherwise one condition is appended with the fresh id, operator "equals" and value "", naming a present field other than the owner |
| ConditionalLogicEditor.AddConditionPicksFirstOther | src/components/builder/ConditionalLogicEditor.js:56-61 | the new condition names the first field other than the owner |
| ConditionalLogicEditor.UpdateCondition | src/components/builder/ConditionalLogicEditor.js:72-79 | sets the named key of the conditions with the id; every other key, every other condition and the order are kept |
| ConditionalLogicEditor.RemoveCondition | src/components/builder/ConditionalLogicEditor.js:81-86 | the result has no condition with that id and keeps every other condition |
| ConditionalLogicEditor.RemoveConditionKeepsOrder | src/components/builder/ConditionalLogicEditor.js:84 | the remaining conditions keep their relative order |
| ConditionalLogicEditor.RemoveConditionTakesExactlyOne | src/components/builder/ConditionalLogicEditor.js:81-86 | with unique condition ids, removal deletes exactly that one condition and keeps the others in order |
| ConditionalLogicEditor.AddConditionKeepsResolved | src/components/builder/ConditionalLogicEditor.js:55-70 | adding keeps every condition of the owner naming a present field other than the owner |
| ConditionalLogicEditor.RemoveConditionKeepsResolved | src/components/builder/ConditionalLogicEditor.js:81-86 | removing keeps the owner's conditions resolvable |
| ConditionalLogicEditor.UpdateConditionKeepsResolved | src/components/builder/ConditionalLogicEditor.js:72-79 | editing keeps them resolvable when a new fieldId names a present field other than the owner |
| FormPreview.VisibleFields | src/components/preview/FormPreview.js:15-17 | exactly the fields visible for the preview values |
| FormPreview.Submit | src/components/preview/FormPreview.js:19-33 | accepted exactly when every visible field is valid. On refusal it shows the per-field results of the visible fields; on acceptance it shows no errors |
| FormPreview.HiddenFieldsAreNotValidated | src/components/preview/FormPreview.js:15-23 | with unique ids, a hidden field has no entry in the results |
| FormPreview.VisibleFieldsAreValidated | src/components/preview/FormPreview.js:15-23 | with unique ids, a visible field's entry is its own validation result |
| FormPreview.HiddenDependentFieldScenario | src/components/preview/FormPreview.js:15-23 | a required number field shown only when a required text field equals "x" is hidden when nothing is entered. Only the text field is validated, the hidden field's being required is not reported, and the submission is refused |

## Left out

- Integers stand in for JavaScript numbers. `Number(s)` is modelled on an
  optional sign followed by decimal digits. The empty string gives 0.
  Anything else is NaN, including decimals, exponents, surrounding
  whitespace, hexadecimal and "Infinity". Floating-point rounding is not
  modelled.
- Case mapping is ASCII only. `toLowerCase`/`toUpperCase` on other scripts
  is not modelled, and string length counts characters, not UTF-16 code
  units.
- User patterns (`new RegExp(pattern)`) are a caller-supplied compiler,
  because regular-expression semantics are not modelled. The fixed email
  expression is written out and proved equal to an executable check.
- Validation.TypeErrors: the number-field bounds are whole numbers
  (`Option<int>`). The source also compares against the fractional
  numbers the configuration dialog can store.
- Every field is modelled with a `validation` and a `conditionalLogic`
  object, as `getDefaultField` creates them. The source's guards for a
  missing object (`field.validation?.`, `!conditionalLogic`) therefore have
  no counterpart.
- OptionsEditor.UpdateOption and ConditionalLogicEditor.UpdateCondition
  accept only the keys the editors pass: label/value for options, and
  fieldId/operator/value for conditions. An arbitrary `[key]` is not
  modelled.
- Field ids come from `nanoid` and time stamps from `new Date()` in the
  source. The model takes them as supplied parameters. Freshness of ids
  is an explicit precondition of the invariant lemmas, not a consequence
  of randomness.
- FormStore.Step: the `console.log` of LOAD_FORM, the React provider,
  `useForm` and the memoised action creators are not modelled.
- FormStore.UpdateField keeps the schema invariant only for an update
  that keeps the field's id and names present fields in new conditions
  (FormStore.UpdateFieldKeepsInvariant); the reducer checks nothing.
- FormStore.LoadForm installs the fields it is given as they come
  (src/context/FormContext.js:181-194), so the schema invariant after a
  load is only as good as the loaded data.
- FormStore.ReorderFields puts the moved field at the target's original
  index (src/context/FormContext.js:142-143), which is after the target
  when moving down.
- FormModel.Lookup and ConditionalLogic.OperatorLabel: JavaScript's
  plain-object lookups (`fieldValues[fieldId]`,
  src/utils/conditionalLogic.js:8; `values[field.id]`,
  src/utils/validation.js:100; `operatorLabels[op]`,
  src/utils/conditionalLogic.js:139) also find inherited
  `Object.prototype` keys. A field id "constructor" with `{}` as values
  yields a function rather than undefined, and an operator "toString"
  gets a function rather than its own name as label. The model treats
  such keys like any other missing key.
- The value shapes the preview inputs store are not modelled: numbers for
  number fields and booleans for checkboxes. Any `Value` may appear
  against any field.
- src/utils/storage.js, src/utils/shareUrl.js, the autosave and share
  hooks, the theme and all rendering components are not part of this
  model.
