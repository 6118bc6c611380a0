/** The page as the frontend scripts see it, made explicit: the decoded
    query string, `localStorage`, the settings global, the Mixpanel global,
    `window.dataLayer` and the calls made to Mixpanel, together with the
    experiment containers and their variant elements. */
module Browser {
  import opened Common

  /** One entry of a variant's `data-conditionals` array, already parsed. A
      conditional added in the editor but never saved carries no `type`. */
  datatype Conditional = Conditional(
    condType: Option<string>,
    conditionalKey: string,
    operator: string,
    value: string)

  /** Inline `style.display` of a variant element: `'block'` or `'none'`. */
  datatype Display = Block | Hidden

  /** A `.gp-optimize-variant` element. `targetPercentage` is the result of
      `parseInt` on its data attribute (`None` for `NaN`); `conditionals` is
      `None` when the element has no `data-conditionals`; `display` is `None`
      while no inline style has been set. */
  datatype Variant = Variant(
    variantId: string,
    variantName: string,
    targetPercentage: Option<int>,
    conditionals: Option<seq<Conditional>>,
    display: Option<Display>)

  /** A `.gp-optimize-container` element and the variants inside it. */
  datatype Container = Container(
    status: Option<string>,
    optimizationId: Option<string>,
    optimizationName: Option<string>,
    variants: seq<Variant>)

  /** The settings object the plugin prints into the page. */
  datatype Settings = Settings(eventType: Value, datalayerEventName: Value)

  /** The state of a global name: never declared, declared but `undefined`, or loaded. */
  datatype Global = Undeclared | DeclaredUndefined | Loaded

  /** One `mixpanel.track(event, {'Experiment name', 'Variant name'})` call. */
  datatype TrackCall = TrackCall(event: string, experimentName: Option<string>, variantName: string)

  /** One object pushed onto `window.dataLayer`. */
  datatype LayerEntry = LayerEntry(event: Value, experimentName: string, variantName: string)

  datatype Page = Page(
    query: map<string, string>,
    storage: map<string, string>,
    settings: Option<Settings>,
    mixpanel: Global,
    dataLayer: Option<seq<LayerEntry>>,
    tracked: seq<TrackCall>)

  /** The outcome of a script step: it ran to the end, or an exception
      escaped, leaving the state as it was when it was thrown. */
  datatype Step<T> = Ok(value: T) | Thrown(at: T) {
    function State(): T {
      match this
      case Ok(v) => v
      case Thrown(v) => v
    }
  }

  /** Number of analytics events recorded on the page so far. */
  function Emissions(p: Page): nat {
    |p.tracked| + |p.dataLayer.GetOr([])|
  }
}
