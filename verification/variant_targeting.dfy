/** The list of conditionals of one variant, as the targeting panel edits it. */
module VariantTargeting {
  import opened Common
  import ConditionalEditor
  import UrlRule

  /** The record `onAddConditional` appends: only `showDetails: true`. */
  const NewConditional := ConditionalEditor.Record(None, None, None, None, None, None, None, None, Some(true))

  /** The panel: the `conditionals` attribute and the local `conditionalsCount`
      (which starts at 0 whatever the list holds). */
  datatype Panel = Panel(conditionals: seq<ConditionalEditor.Record>, count: int)

  /** `onAddConditional`. */
  function OnAddConditional(p: Panel): (q: Panel)
    ensures |q.conditionals| == |p.conditionals| + 1
    ensures q.conditionals[..|p.conditionals|] == p.conditionals
    ensures q.conditionals[|p.conditionals|] == NewConditional
    ensures q.count == p.count + 1
  {
    Panel(p.conditionals + [NewConditional], p.count + 1)
  }

  /** `onSaveConditionals`: the record goes to the position it carries. The
      index is the one the list rendered the panel with. */
  function OnSaveConditionals(p: Panel, data: ConditionalEditor.Record): (q: Panel)
    requires data.index.Some? && 0 <= data.index.value < |p.conditionals|
    ensures |q.conditionals| == |p.conditionals| && q.count == p.count
    ensures q.conditionals[data.index.value] == data
    ensures forall i :: 0 <= i < |p.conditionals| && i != data.index.value ==> q.conditionals[i] == p.conditionals[i]
  {
    p.(conditionals := p.conditionals[data.index.value := data])
  }

  /** `conditionals.filter((_, i) => i !== index)`, walking the list with the
      position `offset` of its first element. */
  function Without<T>(cs: seq<T>, index: int, offset: int): (r: seq<T>)
    ensures offset <= index < offset + |cs| ==> r == cs[..index - offset] + cs[index - offset + 1..]
    ensures !(offset <= index < offset + |cs|) ==> r == cs
    decreases |cs|
  {
    if |cs| == 0 then []
    else
      var rest := Without(cs[1..], index, offset + 1);
      var r := (if offset == index then [] else [cs[0]]) + rest;
      assert offset < index < offset + |cs| ==> r == cs[..index - offset] + cs[index - offset + 1..] by {
        if offset < index < offset + |cs| {
          assert cs[..index - offset] == [cs[0]] + cs[1..][..index - offset - 1];
          assert cs[index - offset + 1..] == cs[1..][index - offset..];
        }
      }
      assert !(offset <= index < offset + |cs|) ==> r == cs by {
        if !(offset <= index < offset + |cs|) {
          assert cs == [cs[0]] + cs[1..];
        }
      }
      r
  }

  /** `onRemoveConditional`: exactly the element at `index` goes, the rest keep
      their order, and the count becomes the new length. */
  function OnRemoveConditional(p: Panel, index: int): (q: Panel)
    ensures 0 <= index < |p.conditionals| ==>
      q.conditionals == p.conditionals[..index] + p.conditionals[index + 1..]
    ensures !(0 <= index < |p.conditionals|) ==> q.conditionals == p.conditionals
    ensures q.count == |q.conditionals|
  {
    var cs := Without(p.conditionals, index, 0);
    Panel(cs, |cs|)
  }

  /** Removing the conditional just added gives back the list before it. */
  lemma AddThenRemoveRestores(p: Panel)
    ensures OnRemoveConditional(OnAddConditional(p), |p.conditionals|).conditionals == p.conditionals
  {
  }

  /** A removal shortens an in-range list by one and leaves the count in step
      with the list, whatever it was before. */
  lemma RemoveResyncsCount(p: Panel, index: int)
    requires 0 <= index < |p.conditionals|
    ensures |OnRemoveConditional(p, index).conditionals| == |p.conditionals| - 1
    ensures OnRemoveConditional(p, index).count == |p.conditionals| - 1
  {
  }

  /** The panel of a conditional just added opens expanded, every other field
      at its default. */
  lemma AddedConditionalOpensExpanded(p: Panel)
    ensures ConditionalEditor.Mount(OnAddConditional(p).conditionals[|p.conditionals|])
         == ConditionalEditor.EditorState(ConditionalEditor.UrlParameter, None, ConditionalEditor.DefaultNameInStorage,
                                          ConditionalEditor.StringData, "", UrlRule.Is, "", true)
  {
  }

  /** A conditional added but not yet saved has no type, so it is skipped by
      the frontend's URL-parameter scan. */
  lemma UnsavedConditionalHasNoType(p: Panel)
    ensures ConditionalEditor.ToRuntime(OnAddConditional(p).conditionals[|p.conditionals|]).condType.None?
  {
  }

  // The panels on screen. `Conditional` keeps every field in `useState`,
  // whose initialiser runs only when the panel is first mounted, and the
  // list renders the panels with `key={ index }`.

  /** The list together with the local state of the panel rendered at each
      position. */
  datatype Shown = Shown(panel: Panel, states: seq<ConditionalEditor.EditorState>)

  /** Each panel shows the record at its own position. */
  predicate InSync(s: Shown) {
    && |s.states| == |s.panel.conditionals|
    && forall j :: 0 <= j < |s.states| ==> s.states[j] == ConditionalEditor.Mount(s.panel.conditionals[j])
  }

  /** The first render: every panel mounted from its record. */
  function Render(p: Panel): (s: Shown)
    ensures s.panel == p && InSync(s)
  {
    Shown(p, seq(|p.conditionals|, j requires 0 <= j < |p.conditionals| => ConditionalEditor.Mount(p.conditionals[j])))
  }

  /** A removal as the list renders it, keyed by position: the panels at the
      positions that remain keep their state, and only the last one goes. */
  function RemoveKeyedByIndex(s: Shown, index: int): (t: Shown)
    requires |s.states| == |s.panel.conditionals|
    ensures t.panel == OnRemoveConditional(s.panel, index)
    ensures |t.states| == |t.panel.conditionals|
    ensures forall j :: 0 <= j < |t.states| ==> t.states[j] == s.states[j]
  {
    var q := OnRemoveConditional(s.panel, index);
    Shown(q, s.states[..|q.conditionals|])
  }

  /** A removal keyed by the conditional itself: the removed record's panel
      goes with it. */
  function RemoveKeyedByIdentity(s: Shown, index: int): (t: Shown)
    requires |s.states| == |s.panel.conditionals|
    ensures t.panel == OnRemoveConditional(s.panel, index)
    ensures 0 <= index < |s.states| ==> t.states == s.states[..index] + s.states[index + 1..]
    ensures !(0 <= index < |s.states|) ==> t.states == s.states
  {
    Shown(OnRemoveConditional(s.panel, index), Without(s.states, index, 0))
  }

  /** `onSaveConditional` of the panel at position `j`, written into the list
      by `onSaveConditionals`; the panel closes. */
  function SavePanel(s: Shown, j: nat): (t: Shown)
    requires |s.states| == |s.panel.conditionals| && j < |s.states|
    ensures |t.states| == |t.panel.conditionals| == |s.states|
    ensures t.panel.conditionals[j] == ConditionalEditor.OnSaveConditional(s.states[j], j).0
    ensures forall i :: 0 <= i < |s.states| && i != j ==> t.panel.conditionals[i] == s.panel.conditionals[i]
    ensures t.states == s.states[j := s.states[j].(showDetails := false)]
  {
    var (record, closed) := ConditionalEditor.OnSaveConditional(s.states[j], j);
    Shown(OnSaveConditionals(s.panel, record), s.states[j := closed])
  }

  /** As written: after the first of two conditionals is removed, the panel
      left on screen still shows the removed one, and saving it writes the
      removed conditional's value over the one that remained. */
  lemma IndexKeysReuseRemovedPanel(a: ConditionalEditor.Record, b: ConditionalEditor.Record, count: int)
    requires a.value.Some? && b.value.Some? && a.value != b.value
    ensures var t := RemoveKeyedByIndex(Render(Panel([a, b], count)), 0);
      && t.panel.conditionals == [b]
      && !InSync(t)
      && SavePanel(t, 0).panel.conditionals[0].value == a.value
  {
    var t := RemoveKeyedByIndex(Render(Panel([a, b], count)), 0);
    assert t.states[0] == ConditionalEditor.Mount(a);
    assert ConditionalEditor.Mount(a).value != ConditionalEditor.Mount(b).value;
  }

  /** Keyed by identity, a removal keeps every panel on the record at its
      position, so a later save writes back what that record's panel shows. */
  lemma IdentityKeysKeepPanelsInSync(s: Shown, index: int)
    requires InSync(s)
    ensures InSync(RemoveKeyedByIdentity(s, index))
  {
    var t := RemoveKeyedByIdentity(s, index);
    if 0 <= index < |s.states| {
      forall j | 0 <= j < |t.states|
        ensures t.states[j] == ConditionalEditor.Mount(t.panel.conditionals[j])
      {
        if j < index {
          assert t.states[j] == s.states[j];
          assert t.panel.conditionals[j] == s.panel.conditionals[j];
        } else {
          assert t.states[j] == s.states[j + 1];
          assert t.panel.conditionals[j] == s.panel.conditionals[j + 1];
        }
      }
    }
  }

  /** A panel in sync saves the record at its own position with its fields
      kept and the panel closed. */
  lemma SyncedSaveKeepsRecord(s: Shown, j: nat)
    requires InSync(s) && j < |s.states|
    ensures var r := SavePanel(s, j).panel.conditionals[j];
      ConditionalEditor.Mount(r) == ConditionalEditor.Mount(s.panel.conditionals[j]).(showDetails := false)
  {
  }
}
