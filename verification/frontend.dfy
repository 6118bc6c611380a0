/** The current block frontend: for every experiment container it chooses a
    variant (URL targeting, then the stored choice, then weighted random),
    stores the choice, shows the winner, hides the rest and sends one event.
    The containers are given as already found; the random draws are
    parameters, one per container. */
module Frontend {
  import opened Common
  import opened Browser
  import Weighted
  import UrlRule
  import Emitter

  const UrlParameter := "url_parameter"
  const StoragePrefix := "gp-optimize-"
  const DefaultWeight := 50

  /** The `localStorage` key that holds the chosen variant of an experiment. */
  function StorageKey(optimizationId: string): string {
    StoragePrefix + optimizationId
  }

  /** A conditional forces its variant: it is a URL-parameter rule and it matches. */
  predicate Fires(query: map<string, string>, c: Conditional) {
    c.condType == Some(UrlParameter)
    && UrlRule.MatchURLParameters(query, c.conditionalKey, c.value, c.operator)
  }

  /** Some conditional of the variant fires; the scan of that variant stops at the first one. */
  predicate Forced(query: map<string, string>, v: Variant) {
    v.conditionals.Some? && exists c :: c in v.conditionals.value && Fires(query, c)
  }

  /** Position of the variant the labelled `variantLoop` breaks out on. */
  function ForcedIndex(query: map<string, string>, vs: seq<Variant>): (r: Option<nat>)
    ensures r.Some? ==> r.value < |vs| && Forced(query, vs[r.value])
    ensures r.Some? ==> forall j :: 0 <= j < r.value ==> !Forced(query, vs[j])
    ensures r.None? <==> forall j :: 0 <= j < |vs| ==> !Forced(query, vs[j])
  {
    if |vs| == 0 then None
    else if Forced(query, vs[0]) then Some(0)
    else
      match ForcedIndex(query, vs[1..])
      case None => None
      case Some(k) => Some(k + 1)
  }

  /** Some variant element carries the id `id`. */
  predicate HasId(vs: seq<Variant>, id: string) {
    exists v :: v in vs && v.variantId == id
  }

  /** The stored choice is honoured only while it names a current variant. */
  predicate StickyHit(storage: map<string, string>, key: string, vs: seq<Variant>) {
    key in storage && HasId(vs, storage[key])
  }

  /** `parseInt(targetPercentage)`, with `NaN` replaced by 50. */
  function Weights(vs: seq<Variant>): (ws: seq<int>)
    ensures |ws| == |vs|
    ensures forall i :: 0 <= i < |vs| ==> ws[i] == vs[i].targetPercentage.GetOr(DefaultWeight)
  {
    seq(|vs|, i requires 0 <= i < |vs| => vs[i].targetPercentage.GetOr(DefaultWeight))
  }

  /** The winning id and the storage after it was persisted. */
  datatype Selection = Selection(winner: string, storage: map<string, string>)

  /** `chooseVariant`. `None` stands for the `TypeError` thrown when the weighted
      pick returns `undefined` (no variants, or weights that total zero). */
  function ChooseVariant(optimizationId: string, vs: seq<Variant>, query: map<string, string>,
                         storage: map<string, string>, u: Draw): (r: Option<Selection>)
    ensures r.Some? ==> HasId(vs, r.value.winner)
    ensures r.Some? ==> r.value.storage == storage[StorageKey(optimizationId) := r.value.winner]
  {
    var key := StorageKey(optimizationId);
    match ForcedIndex(query, vs)
    case Some(k) =>
      assert vs[k] in vs;
      Some(Selection(vs[k].variantId, storage[key := vs[k].variantId]))
    case None =>
      if StickyHit(storage, key, vs) then
        Some(Selection(storage[key], storage))
      else
        match Weighted.SelectWeightedRandomItem(Weights(vs), u)
        case None => None
        case Some(k) =>
          assert vs[k] in vs;
          Some(Selection(vs[k].variantId, storage[key := vs[k].variantId]))
  }

  /** Sets `style.display` on every variant element. */
  function ApplyVisibility(vs: seq<Variant>, winner: string): (ws: seq<Variant>)
    ensures |ws| == |vs|
    ensures forall i :: 0 <= i < |vs| ==>
      ws[i] == vs[i].(display := Some(if vs[i].variantId == winner then Block else Hidden))
  {
    seq(|vs|, i requires 0 <= i < |vs| =>
      vs[i].(display := Some(if vs[i].variantId == winner then Block else Hidden)))
  }

  /** The element the visibility loop leaves in `winnerVariant`: the loop does
      not break, so it is the LAST element with the winning id (-1 if none). */
  function LastWithId(vs: seq<Variant>, id: string): (k: int)
    ensures -1 <= k < |vs|
    ensures 0 <= k ==> vs[k].variantId == id
    ensures forall j :: k < j < |vs| ==> vs[j].variantId != id
  {
    if |vs| == 0 then -1
    else if vs[|vs| - 1].variantId == id then |vs| - 1
    else LastWithId(vs[..|vs| - 1], id)
  }

  /** `optimizationName || optimizationId`. */
  function EventName(c: Container, optimizationId: string): string {
    match c.optimizationName
    case Some(n) => if n != "" then n else optimizationId
    case None => optimizationId
  }

  /** The container is processed only when `status === 'true'` and it has an id. */
  predicate Active(c: Container) {
    c.status == Some("true") && c.optimizationId.Some?
  }

  /** The body of the `forEach` over the containers. */
  function ProcessContainer(p: Page, c: Container, u: Draw): (r: Step<(Page, Container)>)
    ensures !Active(c) ==> r == Ok((p, c))
    ensures r.Thrown? ==> r.at == (p, c)
    ensures r.State().0.query == p.query && r.State().0.settings == p.settings
    ensures r.State().0.mixpanel == p.mixpanel
  {
    if !Active(c) then Ok((p, c))
    else
      var id := c.optimizationId.value;
      match ChooseVariant(id, c.variants, p.query, p.storage, u)
      case None => Thrown((p, c))
      case Some(sel) =>
        var shown := c.(variants := ApplyVisibility(c.variants, sel.winner));
        var stored := p.(storage := sel.storage);
        match p.settings
        case None => Ok((stored, shown))
        case Some(s) =>
          Ok((Emitter.Emit(stored, s, EventName(c, id), EventVariantName(c, sel.winner)), shown))
  }

  /** The `forEach` over all containers; an exception ends it, leaving the
      remaining containers as they were. */
  function RunPage(p: Page, cs: seq<Container>, draws: seq<Draw>): (r: Step<(Page, seq<Container>)>)
    requires |draws| == |cs|
    ensures |r.State().1| == |cs|
    ensures r.State().0.query == p.query && r.State().0.settings == p.settings
    ensures r.State().0.mixpanel == p.mixpanel
    decreases |cs|
  {
    if |cs| == 0 then Ok((p, []))
    else
      match ProcessContainer(p, cs[0], draws[0])
      case Thrown((p1, c1)) => Thrown((p1, [c1] + cs[1..]))
      case Ok((p1, c1)) =>
        match RunPage(p1, cs[1..], draws[1..])
        case Ok((p2, rest)) => Ok((p2, [c1] + rest))
        case Thrown((p2, rest)) => Thrown((p2, [c1] + rest))
  }

  // Selection priority

  /** URL targeting beats the stored choice and the weights: the first variant
      with a firing conditional wins whatever is stored and whatever is drawn. */
  lemma ForcedTargetingWins(optimizationId: string, vs: seq<Variant>, query: map<string, string>,
                            storage: map<string, string>, u: Draw, k: nat)
    requires k < |vs| && Forced(query, vs[k])
    requires forall j :: 0 <= j < k ==> !Forced(query, vs[j])
    ensures ChooseVariant(optimizationId, vs, query, storage, u)
         == Some(Selection(vs[k].variantId, storage[StorageKey(optimizationId) := vs[k].variantId]))
  {
    assert ForcedIndex(query, vs).Some?;
  }

  /** Without targeting, a stored id that names a current variant is returned
      and storage is left exactly as it was. */
  lemma StoredChoiceKept(optimizationId: string, vs: seq<Variant>, query: map<string, string>,
                         storage: map<string, string>, u: Draw)
    requires ForcedIndex(query, vs).None?
    requires StickyHit(storage, StorageKey(optimizationId), vs)
    ensures ChooseVariant(optimizationId, vs, query, storage, u)
         == Some(Selection(storage[StorageKey(optimizationId)], storage))
  {
  }

  /** A stored id that no current variant carries is ignored: the outcome is
      the one for a visitor with nothing stored. */
  lemma StaleChoiceIgnored(optimizationId: string, vs: seq<Variant>, query: map<string, string>,
                           storage: map<string, string>, u: Draw)
    requires !StickyHit(storage, StorageKey(optimizationId), vs)
    ensures var key := StorageKey(optimizationId);
      var r := ChooseVariant(optimizationId, vs, query, storage, u);
      var blank := ChooseVariant(optimizationId, vs, query, storage - {key}, u);
      r.Some? == blank.Some? && (r.Some? ==> r.value.winner == blank.value.winner)
  {
    var key := StorageKey(optimizationId);
    assert !StickyHit(storage - {key}, key, vs);
  }

  /** On the weighted path a variant of weight zero is never the winner. */
  lemma {:induction false} RandomWinnerHasPositiveWeight(optimizationId: string, vs: seq<Variant>,
      query: map<string, string>, storage: map<string, string>, u: Draw)
    requires Weighted.NonNegative(Weights(vs))
    requires ForcedIndex(query, vs).None?
    requires !StickyHit(storage, StorageKey(optimizationId), vs)
    requires ChooseVariant(optimizationId, vs, query, storage, u).Some?
    ensures exists i :: (0 <= i < |vs|
      && vs[i].variantId == ChooseVariant(optimizationId, vs, query, storage, u).value.winner
      && Weights(vs)[i] > 0)
  {
    Weighted.PickedWeightIsPositive(Weights(vs), u);
    var k := Weighted.SelectWeightedRandomItem(Weights(vs), u).value;
    assert vs[k].variantId == ChooseVariant(optimizationId, vs, query, storage, u).value.winner;
  }

  /** With non-negative weights the selection throws exactly when nothing is
      forced, nothing usable is stored and the weights total zero. */
  lemma {:induction false} ThrowsIffNothingToPick(optimizationId: string, vs: seq<Variant>,
      query: map<string, string>, storage: map<string, string>, u: Draw)
    requires Weighted.NonNegative(Weights(vs))
    ensures ChooseVariant(optimizationId, vs, query, storage, u).None?
        <==> (ForcedIndex(query, vs).None?
              && !StickyHit(storage, StorageKey(optimizationId), vs)
              && Weighted.Sum(Weights(vs)) == 0)
  {
    Weighted.TotalNonNegative(Weights(vs));
    if Weighted.Sum(Weights(vs)) == 0 {
      Weighted.ZeroTotalNeverPicks(Weights(vs), u);
    } else {
      Weighted.PositiveTotalAlwaysPicks(Weights(vs), u);
    }
  }

  /** Persistence makes the choice stable: running the selection again on the
      storage it left, with the same variants and query and any draw, returns
      the same winner and writes nothing new. */
  lemma {:induction false} ChoiceIsStable(optimizationId: string, vs: seq<Variant>, query: map<string, string>,
                                         storage: map<string, string>, u: Draw, u2: Draw)
    ensures var r := ChooseVariant(optimizationId, vs, query, storage, u);
      r.Some? ==> ChooseVariant(optimizationId, vs, query, r.value.storage, u2) == r
  {
    var r := ChooseVariant(optimizationId, vs, query, storage, u);
    if r.Some? {
      var first := r.value;
      var key := StorageKey(optimizationId);
      assert first.storage[key] == first.winner;
      if ForcedIndex(query, vs).None? {
        assert StickyHit(first.storage, key, vs);
      } else {
        assert first.storage[key := first.winner] == first.storage;
      }
    }
  }

  // Visibility

  predicate DistinctIds(vs: seq<Variant>) {
    forall i, j :: 0 <= i < j < |vs| ==> vs[i].variantId != vs[j].variantId
  }

  /** Number of variant elements displayed as `block`. */
  function ShownCount(vs: seq<Variant>): nat {
    if |vs| == 0 then 0
    else (if vs[0].display == Some(Block) then 1 else 0) + ShownCount(vs[1..])
  }

  lemma {:induction false} NoneShownWithoutId(vs: seq<Variant>, winner: string)
    requires !HasId(vs, winner)
    ensures ShownCount(ApplyVisibility(vs, winner)) == 0
  {
    if |vs| > 0 {
      assert ApplyVisibility(vs, winner)[1..] == ApplyVisibility(vs[1..], winner);
      assert !HasId(vs[1..], winner) by {
        forall v | v in vs[1..] ensures v.variantId != winner {
          assert v in vs;
        }
      }
      NoneShownWithoutId(vs[1..], winner);
    }
  }

  /** When the variant ids are distinct, exactly one element is shown. */
  lemma {:induction false} ExactlyOneShown(vs: seq<Variant>, winner: string)
    requires DistinctIds(vs)
    requires HasId(vs, winner)
    ensures ShownCount(ApplyVisibility(vs, winner)) == 1
  {
    var ws := ApplyVisibility(vs, winner);
    assert ws[1..] == ApplyVisibility(vs[1..], winner);
    if vs[0].variantId == winner {
      assert !HasId(vs[1..], winner) by {
        forall i | 0 <= i < |vs[1..]| ensures vs[1..][i].variantId != winner {
          assert vs[1..][i] == vs[i + 1];
        }
      }
      NoneShownWithoutId(vs[1..], winner);
    } else {
      assert HasId(vs[1..], winner) by {
        var v :| v in vs && v.variantId == winner;
        var i :| 0 <= i < |vs| && vs[i] == v;
        assert vs[1..][i - 1] == v;
      }
      ExactlyOneShown(vs[1..], winner);
    }
  }

  // One container, and the whole page

  /** The variant name the event of a container carries: that of the last
      element with the winning id. */
  function EventVariantName(c: Container, winner: string): (n: string)
    requires HasId(c.variants, winner)
    ensures exists k ::
      && 0 <= k < |c.variants| && c.variants[k].variantId == winner
      && n == c.variants[k].variantName
      && (forall j :: k < j < |c.variants| ==> c.variants[j].variantId != winner)
  {
    c.variants[LastWithId(c.variants, winner)].variantName
  }

  /** An active container that completes has the winner `chooseVariant`
      returned stored under `gp-optimize-<id>` (and nothing else in storage
      changed), exactly the elements with that id shown, and one event if the
      sink is active: a `track` call or a `dataLayer` entry named
      `optimizationName || optimizationId` and carrying the variant name of
      the last element with the winning id. */
  lemma ProcessedContainer(p: Page, c: Container, u: Draw)
    requires Active(c)
    ensures var sel := ChooseVariant(c.optimizationId.value, c.variants, p.query, p.storage, u);
      var (p1, c1) := ProcessContainer(p, c, u).State();
      ProcessContainer(p, c, u).Ok? ==>
        && sel.Some?
        && p1.storage == sel.value.storage
        && c1 == c.(variants := ApplyVisibility(c.variants, sel.value.winner))
        && (forall i :: 0 <= i < |c1.variants| ==>
              (c1.variants[i].display == Some(Block) <==> c.variants[i].variantId == sel.value.winner))
    ensures var (p1, c1) := ProcessContainer(p, c, u).State();
      ProcessContainer(p, c, u).Ok? ==> Emissions(p1) == Emissions(p) + (if p.settings.Some? && Emitter.SinkActive(p, p.settings.value) then 1 else 0)
    ensures var sel := ChooseVariant(c.optimizationId.value, c.variants, p.query, p.storage, u);
      var p1 := ProcessContainer(p, c, u).State().0;
      ProcessContainer(p, c, u).Ok? && p.settings.Some? && p.settings.value.eventType == Emitter.MixpanelSink
        && p.mixpanel == Loaded ==>
        (p1.tracked == p.tracked + [TrackCall(Emitter.ExperimentStarted, Some(EventName(c, c.optimizationId.value)),
                                              EventVariantName(c, sel.value.winner))]
         && p1.dataLayer == p.dataLayer)
    ensures var sel := ChooseVariant(c.optimizationId.value, c.variants, p.query, p.storage, u);
      var p1 := ProcessContainer(p, c, u).State().0;
      ProcessContainer(p, c, u).Ok? && p.settings.Some? && p.settings.value.eventType == Emitter.DataLayerSink ==>
        (p1.dataLayer == Some(p.dataLayer.GetOr([]) + [LayerEntry(p.settings.value.datalayerEventName,
                                                                  EventName(c, c.optimizationId.value),
                                                                  EventVariantName(c, sel.value.winner))])
         && p1.tracked == p.tracked)
  {
  }

  /** An active container throws only when no variant can be chosen: once a
      winner exists the container always completes, and a missing Mixpanel
      global (`typeof window.mixpanel === 'undefined'`) only skips the event. */
  lemma SelectedContainerCompletes(p: Page, c: Container, u: Draw)
    requires Active(c)
    ensures ProcessContainer(p, c, u).Thrown?
        <==> ChooseVariant(c.optimizationId.value, c.variants, p.query, p.storage, u).None?
    ensures ProcessContainer(p, c, u).Ok? && p.mixpanel != Loaded
            && p.settings.Some? && p.settings.value.eventType == Emitter.MixpanelSink ==>
      Emissions(ProcessContainer(p, c, u).value.0) == Emissions(p)
  {
  }

  function ActiveCount(cs: seq<Container>): nat {
    if |cs| == 0 then 0 else (if Active(cs[0]) then 1 else 0) + ActiveCount(cs[1..])
  }

  /** A page run that completes sends exactly one event per active container
      when the sink is active, and none at all otherwise. */
  lemma {:induction false} OneEventPerActiveContainer(p: Page, cs: seq<Container>, draws: seq<Draw>)
    requires |draws| == |cs|
    ensures RunPage(p, cs, draws).Ok? ==>
      (Emissions(RunPage(p, cs, draws).State().0)
         == Emissions(p) + (if p.settings.Some? && Emitter.SinkActive(p, p.settings.value) then ActiveCount(cs) else 0))
    decreases |cs|
  {
    if |cs| > 0 && ProcessContainer(p, cs[0], draws[0]).Ok? {
      var (p1, c1) := ProcessContainer(p, cs[0], draws[0]).value;
      if Active(cs[0]) {
        ProcessedContainer(p, cs[0], draws[0]);
      }
      OneEventPerActiveContainer(p1, cs[1..], draws[1..]);
    }
  }
}
