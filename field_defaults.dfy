/** The field catalog: the seven field types with their palette metadata,
    and the menus of conditional actions, logic types and operators. */
module FieldDefaults {
  import opened FormModel
  import Seqs

  /** The icon components of the palette, kept opaque. */
  datatype Icon = TextFieldsIcon | EmailIcon | PinIcon | EventIcon | CheckBoxIcon | RadioButtonCheckedIcon | ListIcon

  datatype FieldTypeConfig = FieldTypeConfig(fieldType: string, labelText: string, icon: Icon, color: string)

  const FieldTypes: seq<FieldTypeConfig> := [
    FieldTypeConfig("text", "Text", TextFieldsIcon, "#6366f1"),
    FieldTypeConfig("email", "Email", EmailIcon, "#ec4899"),
    FieldTypeConfig("number", "Number", PinIcon, "#f59e0b"),
    FieldTypeConfig("date", "Date", EventIcon, "#10b981"),
    FieldTypeConfig("checkbox", "Checkbox", CheckBoxIcon, "#8b5cf6"),
    FieldTypeConfig("radio", "Radio", RadioButtonCheckedIcon, "#06b6d4"),
    FieldTypeConfig("dropdown", "Dropdown", ListIcon, "#f43f5e")
  ]

  const ConditionalActions: seq<Choice> := [
    Choice("show", "Show this field"),
    Choice("hide", "Hide this field"),
    Choice("enable", "Enable this field"),
    Choice("disable", "Disable this field")
  ]

  const LogicTypes: seq<Choice> := [
    Choice("all", "ALL conditions are met (AND)"),
    Choice("any", "ANY condition is met (OR)")
  ]

  const Operators: seq<Choice> := [
    Choice("equals", "Equals"),
    Choice("notEquals", "Does not equal"),
    Choice("contains", "Contains"),
    Choice("greaterThan", "Greater than"),
    Choice("lessThan", "Less than"),
    Choice("isEmpty", "Is empty"),
    Choice("isNotEmpty", "Is not empty")
  ]

  /** The type tag is one of the catalog's. */
  predicate IsKnownType(t: string) {
    exists i :: 0 <= i < |FieldTypes| && FieldTypes[i].fieldType == t
  }

  /** The catalog entry of type `t`, or the first entry (text) when there is
      none. */
  function GetFieldTypeConfig(t: string): (r: FieldTypeConfig)
    ensures r in FieldTypes
    ensures IsKnownType(t) ==> r.fieldType == t
    ensures !IsKnownType(t) ==> r == FieldTypes[0]
  {
    match Seqs.FindIndex(FieldTypes, (c: FieldTypeConfig) => c.fieldType == t)
    case Some(i) => FieldTypes[i]
    case None => FieldTypes[0]
  }

  /** The icon of the entry of type `t`, falling back to the text icon. */
  function GetFieldIcon(t: string): (r: Icon)
    ensures forall i :: 0 <= i < |FieldTypes| && FieldTypes[i].fieldType == t ==> r == FieldTypes[i].icon
    ensures !IsKnownType(t) ==> r == TextFieldsIcon
  {
    FieldTypesDistinct();
    GetFieldTypeConfig(t).icon
  }

  /** The colour of the entry of type `t`, falling back to the text colour. */
  function GetFieldColor(t: string): (r: string)
    ensures forall i :: 0 <= i < |FieldTypes| && FieldTypes[i].fieldType == t ==> r == FieldTypes[i].color
    ensures !IsKnownType(t) ==> r == "#6366f1"
  {
    FieldTypesDistinct();
    GetFieldTypeConfig(t).color
  }

  /** The catalog lists the seven type tags, pairwise distinct. */
  lemma FieldTypesDistinct()
    ensures |FieldTypes| == 7
    ensures forall i, j :: 0 <= i < j < |FieldTypes| ==> FieldTypes[i].fieldType != FieldTypes[j].fieldType
    ensures forall t :: IsKnownType(t) <==> t in {"text", "email", "number", "date", "checkbox", "radio", "dropdown"}
  {
    forall t | t in {"text", "email", "number", "date", "checkbox", "radio", "dropdown"}
      ensures IsKnownType(t)
    {
      if t == "text" { assert FieldTypes[0].fieldType == t; }
      else if t == "email" { assert FieldTypes[1].fieldType == t; }
      else if t == "number" { assert FieldTypes[2].fieldType == t; }
      else if t == "date" { assert FieldTypes[3].fieldType == t; }
      else if t == "checkbox" { assert FieldTypes[4].fieldType == t; }
      else if t == "radio" { assert FieldTypes[5].fieldType == t; }
      else { assert FieldTypes[6].fieldType == t; }
    }
  }

  /** The values of a menu, in order. */
  function Values(menu: seq<Choice>): (r: seq<string>)
    ensures |r| == |menu| && forall i :: 0 <= i < |menu| ==> r[i] == menu[i].value
  {
    seq(|menu|, i requires 0 <= i < |menu| => menu[i].value)
  }

  /** Four actions and two logic types, exactly these. */
  lemma ActionAndLogicMenus()
    ensures Values(ConditionalActions) == ["show", "hide", "enable", "disable"]
    ensures Values(LogicTypes) == ["all", "any"]
  {
  }

  /** Seven operators, pairwise distinct. */
  lemma OperatorMenu()
    ensures Values(Operators) == ["equals", "notEquals", "contains", "greaterThan", "lessThan", "isEmpty", "isNotEmpty"]
    ensures forall i, j :: 0 <= i < j < |Operators| ==> Operators[i].value != Operators[j].value
  {
  }
}
