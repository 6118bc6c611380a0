/** The analytics event that both the block frontend and the split-URL test
    send: a Mixpanel `track` call or a `dataLayer` push, chosen by
    `event_type`. */
module Emitter {
  import opened Common
  import opened Browser

  const ExperimentStarted := "$experiment_started"
  const MixpanelSink := Str("mixpanel")
  const DataLayerSink := Str("datalayer")

  /** The configured sink records an event on this page: Mixpanel only when
      `typeof window.mixpanel !== 'undefined'`, the data layer always. */
  predicate SinkActive(p: Page, s: Settings) {
    || (s.eventType == MixpanelSink && p.mixpanel == Loaded)
    || s.eventType == DataLayerSink
  }

  /** Sends one experiment event. `window.dataLayer || []` keeps the entries
      already there and creates the array when it is missing. */
  function Emit(p: Page, s: Settings, experimentName: string, variantName: string): (q: Page)
    ensures q.query == p.query && q.storage == p.storage && q.settings == p.settings && q.mixpanel == p.mixpanel
    ensures Emissions(q) == Emissions(p) + (if SinkActive(p, s) then 1 else 0)
    ensures p.tracked <= q.tracked && p.dataLayer.GetOr([]) <= q.dataLayer.GetOr([])
    ensures s.eventType == MixpanelSink && p.mixpanel == Loaded ==>
      q.tracked == p.tracked + [TrackCall(ExperimentStarted, Some(experimentName), variantName)]
      && q.dataLayer == p.dataLayer
    ensures s.eventType == DataLayerSink ==>
      q.dataLayer == Some(p.dataLayer.GetOr([]) + [LayerEntry(s.datalayerEventName, experimentName, variantName)])
      && q.tracked == p.tracked
    ensures !SinkActive(p, s) ==> q == p
  {
    if s.eventType == MixpanelSink then
      if p.mixpanel == Loaded then
        p.(tracked := p.tracked + [TrackCall(ExperimentStarted, Some(experimentName), variantName)])
      else p
    else if s.eventType == DataLayerSink then
      var layer := p.dataLayer.GetOr([]);
      p.(dataLayer := Some(layer + [LayerEntry(s.datalayerEventName, experimentName, variantName)]))
    else p
  }
}
