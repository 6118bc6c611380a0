/** The variant block's editor: the id it generates, the defaults it shows
    for unset attributes, the edits it stores, and when it renders the
    variant's content. Also the earlier variant editor, which only generates
    the id. */
module VariantEditor {
  import opened Common
  import EditorIds
  import ConditionalEditor
  import Frontend

  const DefaultTargetPercentage := 50

  /** The block's attributes; each may be unset. */
  datatype VariantAttributes = VariantAttributes(
    variantId: Option<string>,
    variantName: Option<string>,
    targetPercentage: Option<int>,
    conditionals: Option<seq<ConditionalEditor.Record>>)

  /** What one render works with: the local values after defaulting, and the
      `setAttributes({variantId})` call it makes, if any. */
  datatype VariantView = VariantView(
    variantId: string,
    variantName: string,
    targetPercentage: int,
    conditionals: seq<ConditionalEditor.Record>,
    written: Option<string>)

  /** A value the percentage slider can produce: 0 to 100 in steps of 1. */
  type Percent = p: int | 0 <= p <= 100

  /** The render prelude: a missing id is generated from `draws` and written
      back; missing name, percentage and conditionals fall back to the id, 50
      and the empty list. */
  function OpenVariant(attrs: VariantAttributes, draws: seq<Draw>): (v: VariantView)
    requires |draws| == EditorIds.VariantIdLength
    ensures attrs.variantId.Some? ==> v.variantId == attrs.variantId.value && v.written.None?
    ensures attrs.variantId.None? ==>
      && |v.variantId| == EditorIds.VariantIdLength
      && (forall i :: 0 <= i < |v.variantId| ==> EditorIds.IsAlnum(v.variantId[i]))
      && v.written == Some(v.variantId)
    ensures v.variantName == attrs.variantName.GetOr(v.variantId)
    ensures v.targetPercentage == attrs.targetPercentage.GetOr(DefaultTargetPercentage)
    ensures v.conditionals == attrs.conditionals.GetOr([])
  {
    var id := if attrs.variantId.Some? then attrs.variantId.value else EditorIds.IdFromDraws(draws);
    VariantView(id, attrs.variantName.GetOr(id), attrs.targetPercentage.GetOr(DefaultTargetPercentage),
                attrs.conditionals.GetOr([]), if attrs.variantId.Some? then None else Some(id))
  }

  /** Opening a variant a second time, after its generated id was written,
      keeps that id and writes nothing. */
  lemma IdIsGeneratedOnce(attrs: VariantAttributes, draws: seq<Draw>, again: seq<Draw>)
    requires |draws| == EditorIds.VariantIdLength && |again| == EditorIds.VariantIdLength
    ensures var first := OpenVariant(attrs, draws);
      var saved := if first.written.Some? then attrs.(variantId := first.written) else attrs;
      OpenVariant(saved, again).variantId == first.variantId && OpenVariant(saved, again).written.None?
  {
  }

  /** The editor's default percentage is the weight the frontend gives a
      variant without a usable percentage. */
  lemma DefaultPercentageMatchesRuntime(attrs: VariantAttributes, draws: seq<Draw>)
    requires |draws| == EditorIds.VariantIdLength && attrs.targetPercentage.None?
    ensures OpenVariant(attrs, draws).targetPercentage == Frontend.DefaultWeight
  {
  }

  /** A name edit is stored as typed, with no validation. */
  function OnVariantNameChange(attrs: VariantAttributes, value: string): (a: VariantAttributes)
    ensures a.variantName == Some(value)
    ensures a.variantId == attrs.variantId && a.targetPercentage == attrs.targetPercentage
      && a.conditionals == attrs.conditionals
  {
    attrs.(variantName := Some(value))
  }

  /** Unlike the experiment name, a variant name may hold any character:
      every string is stored as typed, those the experiment-name rule rejects
      included, and such strings exist (`"A/B"`). */
  lemma VariantNamesAreNotValidated(attrs: VariantAttributes, name: string)
    ensures OnVariantNameChange(attrs, name).variantName == Some(name)
    ensures exists rejected ::
      && !EditorIds.MatchesNamePattern(rejected)
      && OnVariantNameChange(attrs, rejected).variantName == Some(rejected)
  {
    assert !EditorIds.NameChar("A/B"[1]);
    EditorIds.NamePatternIffNameChars("A/B");
    assert !EditorIds.MatchesNamePattern("A/B");
  }

  /** A slider move is stored as given; the slider only yields 0..100. */
  function OnPercentageChange(attrs: VariantAttributes, p: Percent): (a: VariantAttributes)
    ensures a.targetPercentage == Some(p) && 0 <= a.targetPercentage.value <= 100
    ensures a.variantId == attrs.variantId && a.variantName == attrs.variantName
      && a.conditionals == attrs.conditionals
  {
    attrs.(targetPercentage := Some(p))
  }

  /** The variant's inner content is rendered only while it is the variant
      selected in the parent optimization. The comparison uses the stored
      attribute, so a variant whose id is still being written shows its
      content only while nothing is selected. */
  predicate ShowsInner(attrs: VariantAttributes, selectedVariantId: Option<string>) {
    attrs.variantId == selectedVariantId
  }

  /** The earlier variant editor: only the id is defaulted; name and
      percentage are shown as stored. */
  datatype LegacyVariantView = LegacyVariantView(variantId: string, written: Option<string>)

  function OpenLegacyVariant(attrs: VariantAttributes, draws: seq<Draw>): (v: LegacyVariantView)
    requires |draws| == EditorIds.VariantIdLength
    ensures attrs.variantId.Some? ==> v.variantId == attrs.variantId.value && v.written.None?
    ensures attrs.variantId.None? ==>
      && |v.variantId| == EditorIds.VariantIdLength
      && (forall i :: 0 <= i < |v.variantId| ==> EditorIds.IsAlnum(v.variantId[i]))
      && v.written == Some(v.variantId)
  {
    if attrs.variantId.Some? then LegacyVariantView(attrs.variantId.value, None)
    else
      var id := EditorIds.IdFromDraws(draws);
      LegacyVariantView(id, Some(id))
  }

  /** Both editors settle on the same id for the same block and draws. */
  lemma EditorsAgreeOnId(attrs: VariantAttributes, draws: seq<Draw>)
    requires |draws| == EditorIds.VariantIdLength
    ensures OpenLegacyVariant(attrs, draws).variantId == OpenVariant(attrs, draws).variantId
    ensures OpenLegacyVariant(attrs, draws).written == OpenVariant(attrs, draws).written
  {
  }
}
