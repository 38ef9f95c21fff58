/** The form schema the store, the evaluator, the validator and the editors
    share: fields, their options, validation rules and conditional logic, and
    the values a user enters in the preview. The source's `label` keys are
    called `labelText` here, `label` being a Dafny keyword, and a field's
    `type` is `fieldType`. */
module FormModel {
  import opened Wrappers
  import opened Text

  /** A preview value: never set (`undefined`/`null`), a string, a number or
      a checkbox's boolean. */
  datatype Value = Absent | Str(s: string) | Num(n: int) | Bool(b: bool)

  /** One choice of a radio or dropdown field. */
  datatype FieldOption = FieldOption(id: string, labelText: string, value: string)

  /** "the value of field `fieldId` `operator` `value`". */
  datatype Condition = Condition(id: string, fieldId: string, operator: string, value: string)

  datatype ConditionalLogic = ConditionalLogic(
    enabled: bool,
    action: string,
    logicType: string,
    conditions: seq<Condition>)

  /** Bounds are character counts for text fields and values for number
      fields; `pattern` is the source of a user-supplied regular expression. */
  datatype ValidationRule = ValidationRule(
    min: Option<int>,
    max: Option<int>,
    pattern: Option<string>,
    customError: string)

  datatype Field = Field(
    id: string,
    fieldType: string,
    labelText: string,
    placeholder: string,
    required: bool,
    validation: ValidationRule,
    options: seq<FieldOption>,
    conditionalLogic: ConditionalLogic)

  /** A `{ value, label }` entry of a menu. */
  datatype Choice = Choice(value: string, labelText: string)

  /** `values[id]`, with a missing key read as undefined. */
  function Lookup(values: map<string, Value>, id: string): (v: Value)
    ensures id in values ==> v == values[id]
    ensures v == Absent <==> id !in values || values[id] == Absent
  {
    if id in values then values[id] else Absent
  }

  /** `String(v)`: strings are themselves, a number reads back as itself,
      booleans spell "true"/"false", undefined spells "undefined". */
  function ToStr(v: Value): (r: string)
    ensures v.Str? ==> r == v.s
    ensures v.Num? ==> r != "" && ParseNumber(r) == Some(v.n)
    ensures v.Bool? ==> r in {"true", "false"} && (r == "true" <==> v.b)
    ensures v == Absent ==> r == "undefined"
  {
    match v
    case Absent => "undefined"
    case Str(s) => s
    case Num(n) => ParseIntToString(n); IntToString(n)
    case Bool(b) => if b then "true" else "false"
  }

  /** `Number(v)`, None standing for NaN. For everything but a boolean it is
      `Number(String(v))`; booleans are 1 and 0. */
  function ToNumber(v: Value): (r: Option<int>)
    ensures !v.Bool? ==> r == ParseNumber(ToStr(v))
    ensures v.Bool? ==> r == Some(if v.b then 1 else 0)
    ensures v == Absent ==> r.None?
  {
    match v
    case Absent => assert !IsDigit("undefined"[0]); None
    case Str(s) => ParseNumber(s)
    case Num(n) => Some(n)
    case Bool(b) => Some(if b then 1 else 0)
  }

  /** JavaScript falsiness: undefined, the empty string, 0 and false. Every
      falsy value is undefined or reads as the number 0. */
  predicate Falsy(v: Value): (r: bool)
    ensures r ==> v == Absent || ToNumber(v) == Some(0)
    ensures v.Str? ==> (r <==> v.s == "")
    ensures v.Num? ==> (r <==> v.n == 0)
    ensures v.Bool? ==> (r <==> !v.b)
  {
    v == Absent || v == Str("") || v == Num(0) || v == Bool(false)
  }

  /** `a || b` on strings: `b` when `a` is the empty string. */
  function OrElse(a: string, b: string): string {
    if a == "" then b else a
  }

  /** The ids of the fields, as a set. */
  function IdSet(fields: seq<Field>): set<string> {
    set f | f in fields :: f.id
  }

  /** No two fields share an id. */
  predicate UniqueIds(fields: seq<Field>) {
    forall i, j :: 0 <= i < j < |fields| ==> fields[i].id != fields[j].id
  }

  /** Referential integrity of conditions: every condition names a field that
      is present, and never the field that owns it. */
  predicate ConditionsResolve(fields: seq<Field>) {
    forall i, c :: 0 <= i < |fields| && c in fields[i].conditionalLogic.conditions ==>
      c.fieldId in IdSet(fields) && c.fieldId != fields[i].id
  }
}
