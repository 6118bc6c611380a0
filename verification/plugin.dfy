/** The plugin's bootstrap hooks: registering the two blocks and printing
    the frontend settings object into pages that hold an optimization. */
module Plugin {
  import opened Common
  import opened Browser
  import Emitter

  /** `get_option('planet4_gpch_plugin_optimize_settings')`: `None` when the
      option was never saved (WordPress returns `false`). */
  type Options = Option<map<string, Value>>

  const DefaultEventType := Str("experiment_started")
  const DefaultDataLayerEventName := Str("")

  /** `isset($options[key]) ? (bool) $options[key] : false`. */
  predicate Enabled(options: Options, key: string) {
    options.Some? && IsSetAndTruthy(options.value, key)
  }

  /** `isset($options[key]) ? $options[key] : fallback`. */
  function SettingOr(options: Options, key: string, fallback: Value): (v: Value)
    ensures options.Some? && key in options.value && options.value[key] != Null ==> v == options.value[key]
    ensures !(options.Some? && key in options.value) ==> v == fallback
    ensures options.Some? && key in options.value && options.value[key] == Null ==> v == fallback
  {
    if options.Some? && key in options.value && options.value[key] != Null then options.value[key]
    else fallback
  }

  /** `planet4_gpch_plugin_optimize_init`: the content-optimization and
      variant block types are registered iff `enable_blocks` is set and truthy. */
  function RegisteredBlocks(options: Options): (names: seq<string>)
    ensures |names| == 0 || |names| == 2
    ensures |names| == 2 <==> Enabled(options, "enable_blocks")
  {
    if Enabled(options, "enable_blocks") then ["content-optimization", "variant"] else []
  }

  /** `planet4_gpch_plugin_optimize_add_inline_script`: the settings object a
      page receives, or `None` when the script is not added (not a singular
      view, no current post, or no optimization block in it). */
  function InlineSettings(isSingular: bool, hasOptimizationBlock: bool, options: Options): (s: Option<Settings>)
    ensures s.Some? <==> isSingular && hasOptimizationBlock
    ensures s.Some? ==> (s.value.eventType == SettingOr(options, "event_type", DefaultEventType)
                         && s.value.datalayerEventName == SettingOr(options, "datalayer_event_name", DefaultDataLayerEventName))
  {
    if !isSingular || !hasOptimizationBlock then None
    else Some(Settings(SettingOr(options, "event_type", DefaultEventType),
                       SettingOr(options, "datalayer_event_name", DefaultDataLayerEventName)))
  }

  /** Until `event_type` is saved, the printed default names neither sink,
      so no experiment event is ever sent. */
  lemma UnsavedEventTypeSendsNothing(options: Options, p: Page)
    requires !(options.Some? && "event_type" in options.value && options.value["event_type"] != Null)
    requires InlineSettings(true, true, options).Some?
    ensures !Emitter.SinkActive(p, InlineSettings(true, true, options).value)
  {
  }

  /** A saved `event_type` reaches the frontend unchanged. */
  lemma SavedEventTypeReachesPage(options: Options, v: Value)
    requires options.Some? && "event_type" in options.value && options.value["event_type"] == v && v != Null
    ensures InlineSettings(true, true, options) == Some(Settings(v, SettingOr(options, "datalayer_event_name", DefaultDataLayerEventName)))
  {
  }
}
