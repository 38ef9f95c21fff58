/** The option-list editor of radio and dropdown fields. Each handler
    computes the list it hands to `onChange`; None means it hands over
    nothing. */
module OptionsEditor {
  import opened Wrappers
  import opened Text
  import opened FormModel
  import Seqs

  /** The option key an edit names. */
  datatype OptionKey = LabelKey | ValueKey

  /** No two options share an id. */
  predicate UniqueOptionIds(options: seq<FieldOption>) {
    forall i, j :: 0 <= i < j < |options| ==> options[i].id != options[j].id
  }

  /** Adding appends "Option n" / "optionn", n being the new length. */
  function AddOption(options: seq<FieldOption>, freshId: string): (r: seq<FieldOption>)
    ensures |r| == |options| + 1 && r[..|options|] == options
    ensures r[|options|].id == freshId
    ensures r[|options|].labelText == "Option " + NatToString(|r|)
    ensures r[|options|].value == "option" + NatToString(|r|)
  {
    var n := NatToString(|options| + 1);
    options + [FieldOption(freshId, "Option " + n, "option" + n)]
  }

  /** Adding an option with a fresh id keeps the ids unique. */
  lemma AddOptionKeepsIdsUnique(options: seq<FieldOption>, freshId: string)
    requires UniqueOptionIds(options)
    requires forall i :: 0 <= i < |options| ==> options[i].id != freshId
    ensures UniqueOptionIds(AddOption(options, freshId))
  {
    var r := AddOption(options, freshId);
    forall i, j | 0 <= i < j < |r| ensures r[i].id != r[j].id {
      assert r[i] == options[i];
      if j < |options| { assert r[j] == options[j]; }
    }
  }

  /** `{ ...opt, [key]: value }`. */
  function SetOptionKey(o: FieldOption, key: OptionKey, value: string): FieldOption {
    match key
    case LabelKey => o.(labelText := value)
    case ValueKey => o.(value := value)
  }

  /** Editing sets one key of the options with that id; the others, and the
      order, are kept. */
  function UpdateOption(options: seq<FieldOption>, id: string, key: OptionKey, value: string): (r: seq<FieldOption>)
    ensures |r| == |options|
    ensures forall i :: 0 <= i < |options| && options[i].id != id ==> r[i] == options[i]
    ensures forall i :: 0 <= i < |options| && options[i].id == id ==>
      r[i].id == id && (if key == LabelKey then r[i].labelText == value && r[i].value == options[i].value
                        else r[i].value == value && r[i].labelText == options[i].labelText)
  {
    seq(|options|, i requires 0 <= i < |options| =>
      if options[i].id == id then SetOptionKey(options[i], key, value) else options[i])
  }

  /** Editing never changes an id, so unique ids stay unique. */
  lemma UpdateOptionKeepsIds(options: seq<FieldOption>, id: string, key: OptionKey, value: string)
    requires UniqueOptionIds(options)
    ensures UniqueOptionIds(UpdateOption(options, id, key, value))
  {
    var r := UpdateOption(options, id, key, value);
    assert forall i :: 0 <= i < |options| ==> r[i].id == options[i].id;
  }

  /** Removing is refused (None) while at most one option is left; otherwise
      the options with that id are filtered out. */
  function RemoveOption(options: seq<FieldOption>, id: string): (r: Option<seq<FieldOption>>)
    ensures r.None? <==> |options| <= 1
    ensures r.Some? ==> forall i :: 0 <= i < |r.value| ==> r.value[i].id != id && r.value[i] in options
    ensures r.Some? ==> forall i :: 0 <= i < |options| && options[i].id != id ==> options[i] in r.value
  {
    if |options| > 1 then Some(Seqs.Filter(options, (o: FieldOption) => o.id != id)) else None
  }

  /** With unique ids, removing takes out exactly the one option with that
      id, keeps the rest in order, and so never empties the list. */
  lemma RemoveOptionTakesExactlyOne(options: seq<FieldOption>, i: nat)
    requires i < |options| && |options| > 1 && UniqueOptionIds(options)
    ensures RemoveOption(options, options[i].id) == Some(options[..i] + options[i + 1..])
    ensures |RemoveOption(options, options[i].id).value| == |options| - 1 >= 1
  {
    Seqs.FilterDropsOne(options, (o: FieldOption) => o.id != options[i].id, i);
  }

  /** Removing an id no option has changes nothing. */
  lemma RemoveAbsentOptionKeepsAll(options: seq<FieldOption>, id: string)
    requires |options| > 1 && forall i :: 0 <= i < |options| ==> options[i].id != id
    ensures RemoveOption(options, id) == Some(options)
  {
    Seqs.FilterKeepsAll(options, (o: FieldOption) => o.id != id);
  }
}
