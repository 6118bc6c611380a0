/** The earlier frontend script: no URL targeting, weights taken from
    `parseInt` with no default, and a Mixpanel event named by
    `optimizationName` alone, guarded by `mixpanel !== undefined`. */
module LegacyFrontend {
  import opened Common
  import opened Browser
  import Weighted
  import Emitter
  import Frontend

  /** `parseInt(targetPercentage)` as is: `NaN` stays `NaN`. */
  function LegacyWeights(vs: seq<Variant>): (ws: seq<Option<int>>)
    ensures |ws| == |vs|
    ensures forall i :: 0 <= i < |vs| ==> ws[i] == vs[i].targetPercentage
  {
    seq(|vs|, i requires 0 <= i < |vs| => vs[i].targetPercentage)
  }

  /** The earlier `chooseVariant`: the stored choice if it still names a
      variant (returned without writing), otherwise weighted random, persisted.
      `None` is the `TypeError` on an `undefined` pick. */
  function LegacyChooseVariant(optimizationId: string, vs: seq<Variant>,
                               storage: map<string, string>, u: Draw): (r: Option<Frontend.Selection>)
    ensures r.Some? ==> Frontend.HasId(vs, r.value.winner)
    ensures r.Some? ==> r.value.storage == storage[Frontend.StorageKey(optimizationId) := r.value.winner]
  {
    var key := Frontend.StorageKey(optimizationId);
    if Frontend.StickyHit(storage, key, vs) then
      Some(Frontend.Selection(storage[key], storage))
    else
      match Weighted.LegacySelectWeightedRandomItem(LegacyWeights(vs), u)
      case None => None
      case Some(k) =>
        assert vs[k] in vs;
        Some(Frontend.Selection(vs[k].variantId, storage[key := vs[k].variantId]))
  }

  /** The body of the earlier `forEach`. Comparing an undeclared `mixpanel`
      with `undefined` throws a `ReferenceError` after the choice has been
      stored and shown. */
  function LegacyProcessContainer(p: Page, c: Container, u: Draw): (r: Step<(Page, Container)>)
    ensures !Frontend.Active(c) ==> r == Ok((p, c))
    ensures r.State().0.query == p.query && r.State().0.mixpanel == p.mixpanel
    ensures r.State().0.dataLayer == p.dataLayer
    ensures Frontend.Active(c) ==>
      var sel := LegacyChooseVariant(c.optimizationId.value, c.variants, p.storage, u);
      && (sel.None? ==> r == Thrown((p, c)))
      && (r.Thrown? <==> sel.None? || p.mixpanel == Undeclared)
      && (sel.Some? ==>
            && r.State().0.storage == sel.value.storage
            && r.State().1 == c.(variants := Frontend.ApplyVisibility(c.variants, sel.value.winner))
            && (p.mixpanel == Loaded ==>
                  r.State().0.tracked == p.tracked + [TrackCall(Emitter.ExperimentStarted, c.optimizationName,
                                                                Frontend.EventVariantName(c, sel.value.winner))])
            && (p.mixpanel != Loaded ==> r.State().0.tracked == p.tracked))
  {
    if !Frontend.Active(c) then Ok((p, c))
    else
      var id := c.optimizationId.value;
      match LegacyChooseVariant(id, c.variants, p.storage, u)
      case None => Thrown((p, c))
      case Some(sel) =>
        var shown := c.(variants := Frontend.ApplyVisibility(c.variants, sel.winner));
        var stored := p.(storage := sel.storage);
        match p.mixpanel
        case Undeclared => Thrown((stored, shown))
        case DeclaredUndefined => Ok((stored, shown))
        case Loaded =>
          var call := TrackCall(Emitter.ExperimentStarted, c.optimizationName,
                                Frontend.EventVariantName(c, sel.winner));
          Ok((stored.(tracked := p.tracked + [call]), shown))
  }

  /** When every weight parses and no URL rule fires, the earlier selection
      is the current one. */
  lemma LegacyAgreesWithCurrent(optimizationId: string, vs: seq<Variant>, query: map<string, string>,
                                storage: map<string, string>, u: Draw)
    requires Weighted.AllNumeric(LegacyWeights(vs))
    requires Frontend.ForcedIndex(query, vs).None?
    ensures LegacyChooseVariant(optimizationId, vs, storage, u)
         == Frontend.ChooseVariant(optimizationId, vs, query, storage, u)
  {
    Weighted.LegacyAgreesOnNumbers(LegacyWeights(vs), u);
    assert Weighted.Numbers(LegacyWeights(vs)) == Frontend.Weights(vs);
  }

  /** A variant whose percentage does not parse makes the earlier weighted
      pick throw, where the current script would weigh it 50. */
  lemma LegacyUnparsedWeightThrows(optimizationId: string, vs: seq<Variant>,
                                   storage: map<string, string>, u: Draw, j: nat)
    requires j < |vs| && vs[j].targetPercentage.None?
    requires !Frontend.StickyHit(storage, Frontend.StorageKey(optimizationId), vs)
    ensures LegacyChooseVariant(optimizationId, vs, storage, u).None?
  {
    Weighted.LegacyNaNNeverPicks(LegacyWeights(vs), u, j);
  }

  /** Persistence makes the earlier choice stable as well. */
  lemma LegacyChoiceIsStable(optimizationId: string, vs: seq<Variant>,
                             storage: map<string, string>, u: Draw, u2: Draw)
    requires LegacyChooseVariant(optimizationId, vs, storage, u).Some?
    ensures var first := LegacyChooseVariant(optimizationId, vs, storage, u).value;
      LegacyChooseVariant(optimizationId, vs, first.storage, u2) == Some(first)
  {
    var first := LegacyChooseVariant(optimizationId, vs, storage, u).value;
    assert Frontend.StickyHit(first.storage, Frontend.StorageKey(optimizationId), vs);
  }

  /** The earlier event: one `track` call whose experiment name is the
      container's `optimizationName` as it is, absent included. */
  lemma LegacyEventUsesNameVerbatim(p: Page, c: Container, u: Draw)
    requires Frontend.Active(c) && p.mixpanel == Loaded
    requires LegacyProcessContainer(p, c, u).Ok?
    ensures var p1 := LegacyProcessContainer(p, c, u).value.0;
      |p1.tracked| == |p.tracked| + 1
      && p1.tracked[..|p.tracked|] == p.tracked
      && p1.tracked[|p.tracked|].experimentName == c.optimizationName
      && p1.tracked[|p.tracked|].event == Emitter.ExperimentStarted
  {
  }

  /** Without the Mixpanel script the earlier frontend throws on every active
      container whose variant it could choose: the choice is stored and
      shown, and the exception ends the loop over the remaining containers. */
  lemma LegacyThrowsWithoutTracker(p: Page, c: Container, u: Draw)
    requires Frontend.Active(c) && p.mixpanel == Undeclared
    requires LegacyChooseVariant(c.optimizationId.value, c.variants, p.storage, u).Some?
    ensures LegacyProcessContainer(p, c, u).Thrown?
    ensures var sel := LegacyChooseVariant(c.optimizationId.value, c.variants, p.storage, u).value;
      LegacyProcessContainer(p, c, u).at.0.storage == sel.storage
  {
  }

  /** The earlier `forEach` over all containers; an exception ends it. */
  function LegacyRunPage(p: Page, cs: seq<Container>, draws: seq<Draw>): (r: Step<(Page, seq<Container>)>)
    requires |draws| == |cs|
    ensures |r.State().1| == |cs|
    ensures r.State().0.query == p.query && r.State().0.mixpanel == p.mixpanel
    decreases |cs|
  {
    if |cs| == 0 then Ok((p, []))
    else
      match LegacyProcessContainer(p, cs[0], draws[0])
      case Thrown((p1, c1)) => Thrown((p1, [c1] + cs[1..]))
      case Ok((p1, c1)) =>
        match LegacyRunPage(p1, cs[1..], draws[1..])
        case Ok((p2, rest)) => Ok((p2, [c1] + rest))
        case Thrown((p2, rest)) => Thrown((p2, [c1] + rest))
  }

  /** Without the Mixpanel script, the first active container is the last one
      the earlier script touches, provided a variant can be chosen for it:
      the containers before it are inactive and left as they are, the run
      throws there, and every later container is left as it was, its
      variants' display untouched. */
  lemma {:induction false} LegacyRunStopsWithoutTracker(p: Page, cs: seq<Container>, draws: seq<Draw>, k: nat)
    requires |draws| == |cs| && k < |cs|
    requires forall j :: 0 <= j < k ==> !Frontend.Active(cs[j])
    requires Frontend.Active(cs[k]) && p.mixpanel == Undeclared
    requires LegacyChooseVariant(cs[k].optimizationId.value, cs[k].variants, p.storage, draws[k]).Some?
    ensures LegacyRunPage(p, cs, draws).Thrown?
    ensures |LegacyRunPage(p, cs, draws).at.1| == |cs|
    ensures LegacyRunPage(p, cs, draws).at.1[..k] == cs[..k]
    ensures LegacyRunPage(p, cs, draws).at.1[k + 1..] == cs[k + 1..]
    decreases k
  {
    if k == 0 {
      LegacyThrowsWithoutTracker(p, cs[0], draws[0]);
    } else {
      assert LegacyProcessContainer(p, cs[0], draws[0]) == Ok((p, cs[0]));
      LegacyRunStopsWithoutTracker(p, cs[1..], draws[1..], k - 1);
      var rest := LegacyRunPage(p, cs[1..], draws[1..]).at.1;
      assert LegacyRunPage(p, cs, draws).at.1 == [cs[0]] + rest;
      assert rest[..k - 1] == cs[1..][..k - 1];
      assert ([cs[0]] + rest)[..k] == [cs[0]] + rest[..k - 1];
      assert cs[..k] == [cs[0]] + cs[1..][..k - 1];
      assert ([cs[0]] + rest)[k + 1..] == rest[k..];
    }
  }
}
