/** The split-URL test: a page that is itself a variant announces the
    experiment it belongs to, through the same sinks as the block frontend. */
module SplitUrl {
  import opened Common
  import opened Browser
  import Emitter

  /** The split-URL settings object the plugin prints into a variant page. */
  datatype SplitSettings = SplitSettings(
    currentPostIsVariant: Value,
    experimentName: string,
    variantName: string,
    eventType: Value,
    datalayerEventName: Value)

  /** The page is a variant only when `current_post_is_variant === true`;
      `"true"`, `1` and other truthy values do not count. */
  predicate IsVariantPage(settings: Option<SplitSettings>) {
    settings.Some? && settings.value.currentPostIsVariant == Bool(true)
  }

  /** `SplitUrlTest`. */
  function SplitUrlTest(settings: Option<SplitSettings>, p: Page): (q: Page)
    ensures !IsVariantPage(settings) ==> q == p
    ensures q.query == p.query && q.storage == p.storage && q.mixpanel == p.mixpanel
    ensures p.tracked <= q.tracked && p.dataLayer.GetOr([]) <= q.dataLayer.GetOr([])
    ensures IsVariantPage(settings) ==>
      var s := settings.value;
      Emissions(q) == Emissions(p) + (if Emitter.SinkActive(p, Settings(s.eventType, s.datalayerEventName)) then 1 else 0)
  {
    if !IsVariantPage(settings) then p
    else
      var s := settings.value;
      Emitter.Emit(p, Settings(s.eventType, s.datalayerEventName), s.experimentName, s.variantName)
  }

  /** On a variant page the event carries the post's experiment and variant
      names: as a `track` call when Mixpanel is loaded, as a `dataLayer` entry
      when the data layer is configured, and not at all for any other sink. */
  lemma SplitEventCarriesPostNames(settings: Option<SplitSettings>, p: Page)
    requires IsVariantPage(settings)
    ensures var s := settings.value;
      var q := SplitUrlTest(settings, p);
      && (s.eventType == Emitter.MixpanelSink && p.mixpanel == Loaded ==>
            q.tracked == p.tracked + [TrackCall(Emitter.ExperimentStarted, Some(s.experimentName), s.variantName)])
      && (s.eventType == Emitter.DataLayerSink ==>
            q.dataLayer == Some(p.dataLayer.GetOr([]) + [LayerEntry(s.datalayerEventName, s.experimentName, s.variantName)]))
      && (s.eventType != Emitter.MixpanelSink && s.eventType != Emitter.DataLayerSink ==> q == p)
  {
  }
}
