/** The content-optimization block's editor: the id it generates, the name
    it shows and accepts, the enable toggle, and the choice of the variant
    being edited. The earlier editor runs the same prelude, name rule and
    toggle, without the variant choice. */
module OptimizationEditor {
  import opened Common
  import EditorIds
  import VariantEditor

  /** The block's attributes; each may be unset. */
  datatype OptimizationAttributes = OptimizationAttributes(
    status: Option<bool>,
    optimizationId: Option<string>,
    optimizationName: Option<string>,
    editorSelectedVariantId: Option<string>,
    editorSelectedVariantIndex: Option<int>)

  /** The values one render works with, and the `setAttributes({optimizationId})`
      call it makes, if any. */
  datatype OptimizationView = OptimizationView(optimizationId: string, optimizationName: string, written: Option<string>)

  /** The render prelude: a missing id is generated from `draws` and written
      back once; a missing name shows as the id. */
  function OpenOptimization(attrs: OptimizationAttributes, draws: seq<Draw>): (v: OptimizationView)
    requires |draws| == EditorIds.OptimizationIdLength
    ensures attrs.optimizationId.Some? ==> v.optimizationId == attrs.optimizationId.value && v.written.None?
    ensures attrs.optimizationId.None? ==>
      && |v.optimizationId| == EditorIds.OptimizationIdLength
      && (forall i :: 0 <= i < |v.optimizationId| ==> EditorIds.IsAlnum(v.optimizationId[i]))
      && v.written == Some(v.optimizationId)
    ensures v.optimizationName == attrs.optimizationName.GetOr(v.optimizationId)
  {
    var id := if attrs.optimizationId.Some? then attrs.optimizationId.value else EditorIds.IdFromDraws(draws);
    OptimizationView(id, attrs.optimizationName.GetOr(id), if attrs.optimizationId.Some? then None else Some(id))
  }

  /** The id is written at most once: after the first render's write, later
      renders keep it and write nothing. */
  lemma IdIsWrittenOnce(attrs: OptimizationAttributes, draws: seq<Draw>, again: seq<Draw>)
    requires |draws| == EditorIds.OptimizationIdLength && |again| == EditorIds.OptimizationIdLength
    ensures var first := OpenOptimization(attrs, draws);
      var saved := if first.written.Some? then attrs.(optimizationId := first.written) else attrs;
      OpenOptimization(saved, again) == first.(written := None)
  {
  }

  /** A name with no stored name is the id, which always passes the name rule. */
  lemma DefaultNameIsValid(attrs: OptimizationAttributes, draws: seq<Draw>)
    requires |draws| == EditorIds.OptimizationIdLength
    requires attrs.optimizationId.None? && attrs.optimizationName.None?
    ensures EditorIds.MatchesNamePattern(OpenOptimization(attrs, draws).optimizationName)
  {
    EditorIds.GeneratedIdIsValidName(draws);
  }

  /** The name field's `onChange`: stored iff it passes the name rule,
      otherwise the attributes stay as they are. */
  function OnNameChange(attrs: OptimizationAttributes, value: string): (a: OptimizationAttributes)
    ensures EditorIds.MatchesNamePattern(value) ==> a == attrs.(optimizationName := Some(value))
    ensures !EditorIds.MatchesNamePattern(value) ==> a == attrs
  {
    if EditorIds.MatchesNamePattern(value) then attrs.(optimizationName := Some(value)) else attrs
  }

  /** A stored name is made of letters, digits, spaces and dashes. */
  predicate NameIsClean(attrs: OptimizationAttributes) {
    attrs.optimizationName.None?
    || forall i :: 0 <= i < |attrs.optimizationName.value| ==> EditorIds.NameChar(attrs.optimizationName.value[i])
  }

  /** Name edits keep every stored name clean. */
  lemma NameEditsKeepNamesClean(attrs: OptimizationAttributes, value: string)
    requires NameIsClean(attrs)
    ensures NameIsClean(OnNameChange(attrs, value))
  {
    EditorIds.NamePatternIffNameChars(value);
  }

  /** The toggle's `checked` state: `!!status`. */
  predicate Enabled(attrs: OptimizationAttributes) {
    attrs.status == Some(true)
  }

  /** The toggle's `onChange`: `status: !status`. */
  function ToggleStatus(attrs: OptimizationAttributes): (a: OptimizationAttributes)
    ensures a.status.Some? && Enabled(a) != Enabled(attrs)
    ensures a.optimizationId == attrs.optimizationId && a.optimizationName == attrs.optimizationName
    ensures a == attrs.(status := a.status)
  {
    attrs.(status := Some(!Enabled(attrs)))
  }

  /** Toggling twice gives back the switch position, now stored explicitly. */
  lemma ToggleTwiceRestores(attrs: OptimizationAttributes)
    ensures ToggleStatus(ToggleStatus(attrs)) == attrs.(status := Some(Enabled(attrs)))
  {
  }

  /** The `for … of innerBlocks.entries()` loop of `handleVariantSelection`
      from position `i` on: the entry whose position equals `index` sets the
      selected id and index and selects that block. */
  function SelectFrom(attrs: OptimizationAttributes, inner: seq<VariantEditor.VariantAttributes>,
                      index: int, i: nat, selected: Option<nat>): (r: (OptimizationAttributes, Option<nat>))
    requires i <= |inner|
    ensures i <= index < |inner| ==>
      r.0 == attrs.(editorSelectedVariantId := inner[index].variantId, editorSelectedVariantIndex := Some(index))
      && r.1.Some? && r.1.value == index
    ensures !(i <= index < |inner|) ==> r == (attrs, selected)
    decreases |inner| - i
  {
    if i == |inner| then (attrs, selected)
    else if i == index then
      SelectFrom(attrs.(editorSelectedVariantId := inner[i].variantId, editorSelectedVariantIndex := Some(i)),
                 inner, index, i + 1, Some(i))
    else SelectFrom(attrs, inner, index, i + 1, selected)
  }

  /** `handleVariantSelection(index)`: the new attributes and the inner block
      selected in the editor. An index outside the list changes nothing. */
  function HandleVariantSelection(attrs: OptimizationAttributes, inner: seq<VariantEditor.VariantAttributes>,
                                  index: int): (r: (OptimizationAttributes, Option<nat>))
    ensures 0 <= index < |inner| ==>
      r.0 == attrs.(editorSelectedVariantId := inner[index].variantId, editorSelectedVariantIndex := Some(index))
      && r.1.Some? && r.1.value == index
    ensures !(0 <= index < |inner|) ==> r == (attrs, None)
  {
    SelectFrom(attrs, inner, index, 0, None)
  }

  /** After choosing a variant, that variant renders its content; when the
      variant ids are distinct it is the only one that does. */
  lemma SelectedVariantIsShown(attrs: OptimizationAttributes, inner: seq<VariantEditor.VariantAttributes>,
                               index: int, j: int)
    requires 0 <= index < |inner| && 0 <= j < |inner|
    requires forall a, b :: 0 <= a < b < |inner| ==> inner[a].variantId != inner[b].variantId
    ensures var a := HandleVariantSelection(attrs, inner, index).0;
      VariantEditor.ShowsInner(inner[j], a.editorSelectedVariantId) <==> j == index
  {
  }
}
