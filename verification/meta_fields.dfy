/** The split-URL document panel: three post meta fields edited through
    `editPost({meta: {[name]: value}})`. */
module MetaFields {
  import opened Common
  import EditorIds
  import SplitUrl

  const PostIsVariantKey := "_planet4_optimize_post_is_variant"
  const ExperimentNameKey := "_planet4_optimize_experiment_name"
  const VariantNameKey := "_planet4_optimize_variant_name"

  type Meta = map<string, Value>

  /** `updateMetaField`: the edit merges one key into the post's meta. */
  function UpdateMetaField(meta: Meta, name: string, value: Value): (m: Meta)
    ensures name in m && m[name] == value
    ensures forall k :: k != name ==> (k in m <==> k in meta)
    ensures forall k :: k != name && k in meta ==> m[k] == meta[k]
  {
    meta[name := value]
  }

  function Lookup(meta: Meta, name: string): Option<Value> {
    if name in meta then Some(meta[name]) else None
  }

  /** The toggle's `checked` state: `!!pageIsVariant`. */
  predicate IsVariant(meta: Meta) {
    JsTruthy(Lookup(meta, PostIsVariantKey))
  }

  /** The toggle's `onChange`: writes the boolean negation of the current value. */
  function ToggleIsVariant(meta: Meta): (m: Meta)
    ensures Lookup(m, PostIsVariantKey) == Some(Bool(!IsVariant(meta)))
    ensures IsVariant(m) != IsVariant(meta)
    ensures forall k :: k != PostIsVariantKey ==> Lookup(m, k) == Lookup(meta, k)
  {
    UpdateMetaField(meta, PostIsVariantKey, Bool(!IsVariant(meta)))
  }

  /** Turning the toggle on stores exactly `true`, which is what the split-URL
      script requires of `current_post_is_variant`; any other stored truthy
      value would not make the page a variant. */
  lemma ToggledOnMakesVariantPage(meta: Meta, s: SplitUrl.SplitSettings)
    requires !IsVariant(meta)
    requires s.currentPostIsVariant == ToggleIsVariant(meta)[PostIsVariantKey]
    ensures SplitUrl.IsVariantPage(Some(s))
  {
  }

  /** The experiment name field: written iff it passes the name rule. */
  function OnExperimentNameChange(meta: Meta, value: string): (m: Meta)
    ensures EditorIds.MatchesNamePattern(value) ==> Lookup(m, ExperimentNameKey) == Some(Str(value))
    ensures !EditorIds.MatchesNamePattern(value) ==> m == meta
    ensures forall k :: k != ExperimentNameKey ==> Lookup(m, k) == Lookup(meta, k)
  {
    if EditorIds.MatchesNamePattern(value) then UpdateMetaField(meta, ExperimentNameKey, Str(value)) else meta
  }

  /** The variant name field: written whatever it holds. */
  function OnVariantNameChange(meta: Meta, value: string): (m: Meta)
    ensures Lookup(m, VariantNameKey) == Some(Str(value))
    ensures forall k :: k != VariantNameKey ==> Lookup(m, k) == Lookup(meta, k)
  {
    UpdateMetaField(meta, VariantNameKey, Str(value))
  }

  /** A stored experiment name that only this panel ever wrote is clean. */
  predicate ExperimentNameClean(meta: Meta) {
    match Lookup(meta, ExperimentNameKey)
    case None => true
    case Some(Str(s)) => forall i :: 0 <= i < |s| ==> EditorIds.NameChar(s[i])
    case Some(_) => false
  }

  /** Every edit the panel makes keeps the stored experiment name clean. */
  lemma PanelEditsKeepExperimentNameClean(meta: Meta, value: string)
    requires ExperimentNameClean(meta)
    ensures ExperimentNameClean(ToggleIsVariant(meta))
    ensures ExperimentNameClean(OnExperimentNameChange(meta, value))
    ensures ExperimentNameClean(OnVariantNameChange(meta, value))
  {
    EditorIds.NamePatternIffNameChars(value);
  }
}
