/** The editor panel for one targeting conditional: the state it starts
    from, the type presets, which fields it shows, the operator menu, and the
    record it saves. */
module ConditionalEditor {
  import opened Common
  import Browser
  import UrlRule
  import Frontend

  const UrlParameter := "url_parameter"
  const UtmMedium := "utm_medium"
  const UtmSource := "utm_source"
  const UtmCampaign := "utm_campaign"
  const LocalStorage := "local_storage"
  const SessionStorage := "session_storage"
  const StringData := "string"
  const CommaSeparated := "comma_separated"
  const Exists := "exists"
  const DoesNotExist := "does_not_exist"
  const DefaultNameInStorage := "gp_optimize_data"

  /** A conditional as stored in the variant's `conditionals` attribute; every
      field may be missing (or `null`). */
  datatype Record = Record(
    index: Option<int>,
    condType: Option<string>,
    typeSelection: Option<string>,
    nameInStorage: Option<string>,
    dataType: Option<string>,
    conditionalKey: Option<string>,
    operator: Option<string>,
    value: Option<string>,
    showDetails: Option<bool>)

  /** The panel's local state. `typeSelection` is `None` for `null`. */
  datatype EditorState = EditorState(
    condType: string,
    typeSelection: Option<string>,
    nameInStorage: string,
    dataType: string,
    conditionalKey: string,
    operator: string,
    value: string,
    showDetails: bool)

  predicate IsUtmPreset(selected: string) {
    selected == UtmMedium || selected == UtmSource || selected == UtmCampaign
  }

  /** The `useState` initialisers: each field from the record, or its default. */
  function Mount(r: Record): (st: EditorState)
    ensures r.condType.None? ==> st.condType == UrlParameter
    ensures r.nameInStorage.None? ==> st.nameInStorage == DefaultNameInStorage
    ensures r.dataType.None? ==> st.dataType == StringData
    ensures r.conditionalKey.None? ==> st.conditionalKey == ""
    ensures r.operator.None? ==> st.operator == UrlRule.Is
    ensures r.value.None? ==> st.value == ""
    ensures r.showDetails.None? ==> !st.showDetails
    ensures r.condType.Some? ==> st.condType == r.condType.value
    ensures r.nameInStorage.Some? ==> st.nameInStorage == r.nameInStorage.value
    ensures r.dataType.Some? ==> st.dataType == r.dataType.value
    ensures r.conditionalKey.Some? ==> st.conditionalKey == r.conditionalKey.value
    ensures r.operator.Some? ==> st.operator == r.operator.value
    ensures r.value.Some? ==> st.value == r.value.value
    ensures r.showDetails.Some? ==> st.showDetails == r.showDetails.value
    ensures st.typeSelection == r.typeSelection
  {
    EditorState(
      r.condType.GetOr(UrlParameter),
      r.typeSelection,
      r.nameInStorage.GetOr(DefaultNameInStorage),
      r.dataType.GetOr(StringData),
      r.conditionalKey.GetOr(""),
      r.operator.GetOr(UrlRule.Is),
      r.value.GetOr(""),
      r.showDetails.GetOr(false))
  }

  /** `onTypeSelection`: a UTM preset is a URL-parameter rule on the parameter
      of the same name; any other choice becomes the type and keeps the key. */
  function OnTypeSelection(st: EditorState, selected: string): (st2: EditorState)
    ensures st2.typeSelection == Some(selected)
    ensures IsUtmPreset(selected) ==> st2.condType == UrlParameter && st2.conditionalKey == selected
    ensures !IsUtmPreset(selected) ==> st2.condType == selected && st2.conditionalKey == st.conditionalKey
    ensures st2.nameInStorage == st.nameInStorage && st2.dataType == st.dataType
      && st2.operator == st.operator && st2.value == st.value && st2.showDetails == st.showDetails
  {
    if IsUtmPreset(selected) then
      st.(condType := UrlParameter, typeSelection := Some(selected), conditionalKey := selected)
    else
      st.(typeSelection := Some(selected), condType := selected)
  }

  predicate IsStorageSelection(ts: Option<string>) {
    ts == Some(LocalStorage) || ts == Some(SessionStorage)
  }

  /** `showKeyField`: the key is hidden for a whole-value storage entry
      (string or comma-separated) and for the UTM presets, whose key is fixed. */
  function ShowKeyField(st: EditorState): (shown: bool)
    ensures !shown <==>
      (IsStorageSelection(st.typeSelection) && (st.dataType == StringData || st.dataType == CommaSeparated))
      || (st.typeSelection.Some? && IsUtmPreset(st.typeSelection.value))
  {
    !(|| (st.typeSelection == Some(LocalStorage) && st.dataType == StringData)
      || (st.typeSelection == Some(LocalStorage) && st.dataType == CommaSeparated)
      || (st.typeSelection == Some(SessionStorage) && st.dataType == StringData)
      || (st.typeSelection == Some(SessionStorage) && st.dataType == CommaSeparated)
      || st.typeSelection == Some(UtmMedium)
      || st.typeSelection == Some(UtmSource)
      || st.typeSelection == Some(UtmCampaign))
  }

  /** The operator menu, in display order. */
  function OperatorOptions(dataType: string): (ops: seq<string>)
    ensures UrlRule.Is in ops <==> dataType != CommaSeparated
    ensures UrlRule.IsNot in ops <==> dataType != CommaSeparated
    ensures UrlRule.Contains in ops && UrlRule.DoesNotContain in ops && Exists in ops && DoesNotExist in ops
    ensures |ops| == if dataType == CommaSeparated then 4 else 6
    ensures ops[|ops| - 4..] == [UrlRule.Contains, UrlRule.DoesNotContain, Exists, DoesNotExist]
  {
    (if dataType != CommaSeparated then [UrlRule.Is, UrlRule.IsNot] else [])
    + [UrlRule.Contains, UrlRule.DoesNotContain, Exists, DoesNotExist]
  }

  /** The value field is hidden for the operators that take no value. */
  function ValueFieldVisible(operator: string): (shown: bool)
    ensures !shown <==> operator == Exists || operator == DoesNotExist
  {
    operator != Exists && operator != DoesNotExist
  }

  /** `onSaveConditional`: the record handed to the list (every current
      field, the given index, collapsed), and the collapsed panel. */
  function OnSaveConditional(st: EditorState, index: int): (saved: (Record, EditorState))
    ensures saved.0.index == Some(index) && saved.0.showDetails == Some(false)
    ensures saved.0.condType == Some(st.condType) && saved.0.typeSelection == st.typeSelection
    ensures saved.0.nameInStorage == Some(st.nameInStorage) && saved.0.dataType == Some(st.dataType)
    ensures saved.0.conditionalKey == Some(st.conditionalKey) && saved.0.operator == Some(st.operator)
      && saved.0.value == Some(st.value)
    ensures !saved.1.showDetails
  {
    (Record(Some(index), Some(st.condType), st.typeSelection, Some(st.nameInStorage), Some(st.dataType),
            Some(st.conditionalKey), Some(st.operator), Some(st.value), Some(false)),
     st.(showDetails := false))
  }

  /** Saving loses nothing: reopening the saved record restores the panel
      exactly as it was saved. */
  lemma SaveThenMountRoundTrips(st: EditorState, index: int)
    ensures Mount(OnSaveConditional(st, index).0) == OnSaveConditional(st, index).1
    ensures OnSaveConditional(st, index).1 == st.(showDetails := false)
  {
  }

  /** The frontend reads a saved panel exactly as it was edited: its type is
      always present, so a URL-parameter panel is always evaluated. */
  lemma SavedPanelIsWhatRuntimeSees(st: EditorState, index: int)
    ensures ToRuntime(OnSaveConditional(st, index).0)
         == Browser.Conditional(Some(st.condType), st.conditionalKey, st.operator, st.value)
  {
  }

  /** After a UTM preset is chosen the key field is hidden, and the key it
      would have shown already names the preset's parameter. */
  lemma PresetHidesKeyField(st: EditorState, selected: string)
    requires IsUtmPreset(selected)
    ensures !ShowKeyField(OnTypeSelection(st, selected))
    ensures OnTypeSelection(st, selected).conditionalKey == selected
  {
  }

  /** The conditional as the frontend reads it from `data-conditionals`. */
  function ToRuntime(r: Record): (c: Browser.Conditional)
    ensures c.condType == r.condType
    ensures r.conditionalKey.Some? ==> c.conditionalKey == r.conditionalKey.value
    ensures r.operator.Some? ==> c.operator == r.operator.value
    ensures r.value.Some? ==> c.value == r.value.value
    ensures r.conditionalKey.None? ==> c.conditionalKey == ""
    ensures r.operator.None? ==> c.operator == ""
    ensures r.value.None? ==> c.value == ""
  {
    Browser.Conditional(r.condType, r.conditionalKey.GetOr(""), r.operator.GetOr(""), r.value.GetOr(""))
  }

  /** A conditional saved straight from the defaults (empty key, `is`, empty
      value) never forces its variant: no parameter can be present, non-empty
      and equal to the empty string. */
  lemma DefaultConditionalNeverFires(query: map<string, string>, r: Record, index: int)
    requires r.condType.None? && r.conditionalKey.None? && r.operator.None? && r.value.None?
    ensures !Frontend.Fires(query, ToRuntime(OnSaveConditional(Mount(r), index).0))
  {
  }

  /** A saved UTM preset with `is` forces its variant exactly when the UTM
      parameter of that name carries the (non-empty) value. */
  lemma UtmPresetFiresOnParameter(query: map<string, string>, st: EditorState, selected: string, v: string, index: int)
    requires IsUtmPreset(selected)
    ensures var edited := OnTypeSelection(st, selected).(operator := UrlRule.Is, value := v);
      Frontend.Fires(query, ToRuntime(OnSaveConditional(edited, index).0))
      <==> selected in query && query[selected] != "" && query[selected] == v
  {
  }

  /** The operators offered beyond the four string tests are never matched at
      runtime: a conditional using them cannot force a variant. */
  lemma ExistenceOperatorsNeverFire(query: map<string, string>, c: Browser.Conditional)
    requires c.operator == Exists || c.operator == DoesNotExist
    ensures !Frontend.Fires(query, c)
  {
  }

  /** The value field is hidden exactly where the value cannot matter: with
      `exists` or `does_not_exist` no value changes whether a conditional fires. */
  lemma HiddenValueIsIgnored(query: map<string, string>, c: Browser.Conditional, other: string)
    requires !ValueFieldVisible(c.operator)
    ensures Frontend.Fires(query, c) == Frontend.Fires(query, c.(value := other))
  {
    ExistenceOperatorsNeverFire(query, c);
    ExistenceOperatorsNeverFire(query, c.(value := other));
  }
}
