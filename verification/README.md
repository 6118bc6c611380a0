# Planet4 GPCH Optimize — a Dafny model

This project models the A/B-testing engine of the Planet4 GPCH Optimize WordPress plugin, and proves properties of that model. The model covers:

- **The frontend script.** It picks one variant per experiment container. A URL-parameter conditional forces a variant first. Otherwise the script reuses the variant remembered in `localStorage` under `gp-optimize-<optimizationId>`. Otherwise it makes a weighted random pick over the variants' target percentages. The script then stores the winner, shows only the winner's elements, and announces the experiment to Mixpanel or to the Tag Manager `dataLayer`.
- **The earlier frontend.** It has no URL targeting and a Mixpanel-only event.
- **The split-URL test script.** It sends the same event from pages marked as variants.
- **The admin report.** It lists every content-optimization block in the posts' block trees.
- **The editor-side decision logic.**
  - the block allow-list filter and the asset and registration switches;
  - the conditional editor and its list;
  - id generation and name validation in the block editors;
  - the split-URL document panel.

The model is purely functional:

- **Page state.** The page is a value (`Browser.Page`). It holds the decoded query string, `localStorage`, the settings global, the state of the `mixpanel` global, `window.dataLayer`, and the log of Mixpanel `track` calls.
- **Random draws.** `Math.random()` is a parameter, a real in [0, 1).
- **Parsing.** `parseInt` gives `Option<int>`, where `None` is `NaN`.
- **Exceptions.** An uncaught exception is a `Thrown` step carrying the state at the throw.

Modules follow the source files:

| module | file |
|---|---|
| `Weighted` | `selectWeightedRandomItem` in both frontends |
| `UrlRule` | `matchURLParameters` |
| `Emitter` | the shared event block |
| `Frontend` | the current frontend |
| `LegacyFrontend` | the earlier frontend |
| `SplitUrl` | the split-URL test |
| `Report` | the report |
| `Plugin` | the plugin bootstrap |
| `EditorIntegration` | the editor integration |
| `ConditionalEditor` | `Conditional.js` |
| `VariantTargeting` | `VariantTargeting.js` |
| `EditorIds` | the id generator and the name pattern shared by the editors |
| `OptimizationEditor` | the content-optimization editors |
| `VariantEditor` | the variant editors |
| `MetaFields` | the document panel |

Behaviours of the code a reader may not expect; the model follows the code:

- **A failed selection throws.** When no variant can be picked (no variants, or weights that total zero), the current frontend throws a `TypeError` on `undefined.variantId`. It does not degrade to a default. `Frontend.ChooseVariant` returns `None`, and `Frontend.ProcessContainer` then returns `Thrown`, which ends the loop over the page's remaining containers.
- **Inactive containers are left alone.** A container whose `status` is not `'true'` is skipped entirely. No variant is forced and no display is set.
- **The sticky check always passes.** It compares `localStorage.getItem` with `undefined`, and `getItem` returns `null`, never `undefined`. So a stored id is honoured exactly when it names a current variant, and a missing entry behaves the same as a stale one.
- **The event names the last match.** The visibility loop has no `break`, so the event's variant name comes from the LAST element that carries the winning id (`Frontend.LastWithId`).
- **A conditional needs a saved type.** A conditional added in the editor but never saved has no `type`, so the URL scan skips it.
- **The alphabet is built, not written out.** The id alphabet `chars` is defined by code-point ranges (`EditorIds.Span`): A–Z, then a–z, then 0–9. It is the same 62-character string as the literal in the editors.

## Model

| member | source | states |
|---|---|---|
| Weighted.Scaled | src/blocks/content-optimization/view.js:46 | The draw times the last running total lies in [0, T) for a positive total T. |
| Weighted.PrefixSums | src/blocks/content-optimization/view.js:41-44 | The `reduce` yields one running total per item; element i is the sum of weights 0..i. |
| Weighted.FindIndexAbove | src/blocks/content-optimization/view.js:48 | `findIndex` returns the first total above the draw and -1 when none is; every total before the result is at most the draw. |
| Weighted.SelectWeightedRandomItem | src/blocks/content-optimization/view.js:40-49 | The picked item is the first one whose running total exceeds the scaled draw. Nothing is picked iff no running total exceeds it. |
| Weighted.PickedWeightIsPositive | src/blocks/content-optimization/view.js:40-49 | With non-negative weights, a picked item never has weight zero. |
| Weighted.PositiveTotalAlwaysPicks | src/blocks/content-optimization/view.js:40-49 | With non-negative weights and a positive total, some item is always returned. |
| Weighted.ZeroTotalNeverPicks | src/blocks/content-optimization/view.js:46-48 | With weights totalling 0, `findIndex` yields -1 and `undefined` is returned. |
| Weighted.PickedIffDrawInSlice | src/blocks/content-optimization/view.js:40-49 | Item k is picked iff the scaled draw lies in [sum of weights before k, sum through k): each item owns a slice of the range as wide as its weight. |
| Weighted.LegacyPrefixSums | src/content-optimization/view.js:14-17 | Running totals over `parseInt` results; once a `NaN` enters, it stays. |
| Weighted.LegacyFindIndexAbove | src/content-optimization/view.js:21 | `findIndex` over possibly-`NaN` totals; a `NaN` comparison is false. |
| Weighted.LegacySelectWeightedRandomItem | src/content-optimization/view.js:13-22 | The earlier pick returns an index of the list or nothing. |
| Weighted.LegacyPrefixSumsNumeric | src/content-optimization/view.js:14-17 | When every weight parses, the earlier running totals are the current ones. |
| Weighted.LegacyPrefixSumsPoisoned | src/content-optimization/view.js:14-17 | From the first `NaN` weight on, every running total is `NaN`. |
| Weighted.LegacyFindIndexNumeric | src/content-optimization/view.js:21 | On numeric totals the earlier `findIndex` agrees with the current one. |
| Weighted.LegacyFindIndexNaN | src/content-optimization/view.js:19-21 | A `NaN` draw (the last total was `NaN`) makes `findIndex` return -1. |
| Weighted.LegacyAgreesOnNumbers | src/content-optimization/view.js:13-22 | When every weight parses, the earlier pick equals the current pick for every draw. |
| Weighted.LegacyNaNNeverPicks | src/content-optimization/view.js:13-22 | A single unparsable weight makes the earlier pick return nothing for every draw. |
| UrlRule.Includes | src/blocks/content-optimization/view.js:77 | `String.prototype.includes` scans every start position. |
| UrlRule.IncludesIffSubstring | src/blocks/content-optimization/view.js:77-81 | `includes` is true iff the value occurs at some position of the parameter. |
| UrlRule.MatchURLParameters | src/blocks/content-optimization/view.js:64-87 | Absent or empty parameter: false for every operator. Otherwise `is` ⇔ equal, `is_not` ⇔ unequal, `contains` ⇔ substring, `does_not_contain` ⇔ not substring. Any other operator (including `exists`, `does_not_exist`): false. |
| UrlRule.NegatedOperatorsComplement | src/blocks/content-optimization/view.js:68-83 | For a present, non-empty parameter, `is_not` is the negation of `is` and `does_not_contain` the negation of `contains`; otherwise all four are false. |
| UrlRule.IsImpliesContains | src/blocks/content-optimization/view.js:68-79 | Whenever `is` matches, `contains` matches too. |
| Emitter.Emit | src/blocks/content-optimization/view.js:239-266 | `mixpanel` with the global loaded: exactly one `$experiment_started` track call. `datalayer`: the array is created if missing, earlier entries are kept, and exactly one `{event, experiment_name, variant_name}` is appended. Any other sink, or no Mixpanel: the page is unchanged. Storage and query are never touched. |
| Frontend.ForcedIndex | src/blocks/content-optimization/view.js:100-130 | The labelled loop stops at the first variant with a firing `url_parameter` conditional; none is found iff no variant has one. |
| Frontend.Weights | src/blocks/content-optimization/view.js:155-165 | One weight per variant: the parsed percentage, or 50 for `NaN`. |
| Frontend.ChooseVariant | src/blocks/content-optimization/view.js:95-183 | A chosen winner is the id of a current variant. Storage afterwards is storage with `gp-optimize-<id>` set to the winner and nothing else changed. |
| Frontend.ForcedTargetingWins | src/blocks/content-optimization/view.js:100-130 | The first forced variant wins, whatever is stored and whatever is drawn, and is persisted. |
| Frontend.StoredChoiceKept | src/blocks/content-optimization/view.js:133-151 | With nothing forced, a stored id naming a current variant is returned and storage is left exactly as it was. |
| Frontend.StaleChoiceIgnored | src/blocks/content-optimization/view.js:139-151 | A stored id naming no current variant makes no difference: the outcome equals that with the key removed. |
| Frontend.RandomWinnerHasPositiveWeight | src/blocks/content-optimization/view.js:153-171 | On the weighted path the winner is a variant of positive weight. |
| Frontend.ThrowsIffNothingToPick | src/blocks/content-optimization/view.js:153-171 | With non-negative weights, the selection throws iff nothing is forced, nothing usable is stored and the weights total zero. |
| Frontend.ChoiceIsStable | src/blocks/content-optimization/view.js:174-178 | Re-running the selection on the storage it left, with any draw, returns the same winner and storage. |
| Frontend.ApplyVisibility | src/blocks/content-optimization/view.js:225-232 | Every element gets `block` if its id is the winner's and `none` otherwise; nothing else about it changes. |
| Frontend.LastWithId | src/blocks/content-optimization/view.js:225-232 | `winnerVariant` ends as the last element with the winning id (or none). |
| Frontend.NoneShownWithoutId | src/blocks/content-optimization/view.js:225-232 | If no element carries the winning id, none is shown. |
| Frontend.ExactlyOneShown | src/blocks/content-optimization/view.js:225-232 | With distinct ids and a winner among them, exactly one element is shown. |
| Frontend.ProcessContainer | src/blocks/content-optimization/view.js:198-267 | A container without `status === 'true'` and an id is untouched. A throw leaves the page as it was. Query, settings and the Mixpanel global are never changed. |
| Frontend.EventVariantName | src/blocks/content-optimization/view.js:225-251 | The event's variant name is that of an element with the winning id after which no element carries that id. |
| Frontend.ProcessedContainer | src/blocks/content-optimization/view.js:199-266 | A completed active container has the winner `chooseVariant` returned stored under its key, with storage otherwise as `chooseVariant` left it, and exactly the elements with that id shown. It records one event when the configured sink is active: with Mixpanel loaded, one `$experiment_started` call named `optimizationName \|\| optimizationId` with the last winning element's variant name; with the data layer, one entry with the configured event name, that experiment name and that variant name. The other sink is left alone. |
| Frontend.SelectedContainerCompletes | src/blocks/content-optimization/view.js:239-253 | An active container throws iff no variant can be chosen. Once a winner exists it always completes, and without the Mixpanel global the event is skipped, not thrown. |
| Frontend.RunPage | src/blocks/content-optimization/view.js:198-268 | The `forEach` keeps one container per input container and never changes query, settings or the Mixpanel global. |
| Frontend.OneEventPerActiveContainer | src/blocks/content-optimization/view.js:198-268 | A page run that completes records exactly one event per active container when the sink is active, none otherwise. |
| LegacyFrontend.LegacyWeights | src/content-optimization/view.js:46-52 | The earlier weights are the `parseInt` results as they are, `NaN` included. |
| LegacyFrontend.LegacyChooseVariant | src/content-optimization/view.js:30-66 | A chosen winner names a current variant. Storage becomes storage with `gp-optimize-<id>` set to it. |
| LegacyFrontend.LegacyAgreesWithCurrent | src/content-optimization/view.js:30-66 | When every weight parses and no URL rule fires, the earlier selection equals the current one. |
| LegacyFrontend.LegacyUnparsedWeightThrows | src/content-optimization/view.js:46-55 | With no usable stored id, one unparsable percentage makes the earlier selection throw. |
| LegacyFrontend.LegacyChoiceIsStable | src/content-optimization/view.js:31-43 | A stored id naming a current variant is returned without writing; the earlier choice is stable. |
| LegacyFrontend.LegacyProcessContainer | src/content-optimization/view.js:69-106 | An inactive container is untouched; query, `dataLayer` and the Mixpanel global are never changed. An active one throws, untouched, when no variant can be chosen. Otherwise the chosen winner is stored and exactly the elements with its id are shown, and then it throws iff `mixpanel` is undeclared. With Mixpanel loaded it appends one call carrying `optimizationName` and the last winning element's variant name; otherwise no call is made. |
| LegacyFrontend.LegacyEventUsesNameVerbatim | src/content-optimization/view.js:98-105 | With Mixpanel loaded, exactly one `$experiment_started` call is appended. Its experiment name is `optimizationName` as stored, absent included, with no fallback to the id. |
| LegacyFrontend.LegacyThrowsWithoutTracker | src/content-optimization/view.js:99-105 | With the `mixpanel` global undeclared, an active container whose variant was chosen throws after the choice was stored. |
| LegacyFrontend.LegacyRunPage | src/content-optimization/view.js:69-107 | The earlier `forEach` keeps one container per input and never changes query or the Mixpanel global. |
| LegacyFrontend.LegacyRunStopsWithoutTracker | src/content-optimization/view.js:69-107 | Without the Mixpanel script, if a variant can be chosen for the first active container (at any position), the run throws there. The inactive containers before it and every container after it are left as they were. |
| SplitUrl.SplitUrlTest | src/frontend/split-url-test.js:2-30 | Unless the settings exist and `current_post_is_variant === true`, nothing changes. Otherwise query, storage and the Mixpanel global are kept, earlier events are kept, and one event is added iff the sink is active. |
| SplitUrl.SplitEventCarriesPostNames | src/frontend/split-url-test.js:12-28 | On a variant page the track call or `dataLayer` entry carries the post's experiment and variant names; any other `event_type` changes nothing. |
| Report.AttrsOf | classes/class-optimizationsreport.php:256-266 | `attrs ?? []`: a block's attributes, the empty map when it has none. |
| Report.VariantsOf | classes/class-optimizationsreport.php:261-270 | An entry is among the variants iff it is the name and attributes (`[]` when missing) of some direct inner block named `variant`; there are never more variants than inner blocks. |
| Report.VariantsOfAppend | classes/class-optimizationsreport.php:262-269 | The variants keep the inner blocks' order: those of a list are those of its front followed by those of its back. |
| Report.VariantsOfSingle | classes/class-optimizationsreport.php:263-268 | A single inner block contributes its name and attributes (`[]` when missing) if it is named `variant`, and nothing otherwise. |
| Report.EntryFor | classes/class-optimizationsreport.php:254-272 | An entry carries the scanned post's id and the block's attributes, `[]` when missing. |
| Report.GetOptimizations | classes/class-optimizationsreport.php:239-286 | Every entry carries the id of one of the scanned posts. |
| Report.ExtractIsPreorderFilter | classes/class-optimizationsreport.php:250-279 | The extracted entries are exactly the content-optimization blocks of the tree in document pre-order, mapped to entries. |
| Report.ExtractBlocksCarriesPostId | classes/class-optimizationsreport.php:244-283 | Every entry from one post carries that post's id. |
| Report.EveryOptimizationReported | classes/class-optimizationsreport.php:275-278 | An optimization block at any depth, even inside another optimization, has its entry in the report. |
| Report.OneEntryPerOptimization | classes/class-optimizationsreport.php:250-279 | The number of entries equals the number of optimization blocks at any depth. |
| Report.VariantsIgnoreDeeperBlocks | classes/class-optimizationsreport.php:261-270 | Variants depend only on the names and attributes of the direct inner blocks; deeper blocks are never looked at. |
| Report.VariantCount | classes/class-optimizationsreport.php:261-270 | There is one variant per direct inner block named `variant`. |
| Report.PostsInOrder | classes/class-optimizationsreport.php:244-283 | The report over several posts is the concatenation of the single-post reports in `post_ids` order. |
| Report.StatusLabel | classes/class-optimizationsreport.php:116-120 | The label is "Active" iff `status` is set and truthy, otherwise "Deactivated". |
| Plugin.SettingOr | planet4-gpch-plugin-optimize.php:60-61 | `isset($options[k]) ? $options[k] : default`: a saved non-null value wins; an unsaved or null one gives the default. |
| Plugin.RegisteredBlocks | planet4-gpch-plugin-optimize.php:29-37 | Both block types are registered iff `enable_blocks` is set and truthy, none otherwise. |
| Plugin.InlineSettings | planet4-gpch-plugin-optimize.php:46-68 | The settings object is printed iff the view is singular and the post holds an optimization block. `event_type` defaults to `experiment_started` and `datalayer_event_name` to `''`. |
| Plugin.UnsavedEventTypeSendsNothing | planet4-gpch-plugin-optimize.php:60 | While `event_type` is unsaved, the printed default matches neither sink, so no event is ever sent. |
| Plugin.SavedEventTypeReachesPage | planet4-gpch-plugin-optimize.php:60 | A saved `event_type` reaches the page unchanged. |
| EditorIntegration.FilterAllowedBlockTypes | classes/class-editorintegration.php:51-66 | A list comes back as the list followed by `content-optimization` then `variant`: length + 2, no de-duplication. `true`, `false` or a string come back unchanged. |
| EditorIntegration.FilterOnlyWidens | classes/class-editorintegration.php:53-61 | Every slug allowed before stays allowed, and both plugin slugs become allowed. |
| EditorIntegration.EnqueuedAssets | classes/class-editorintegration.php:89-103 | The panel script and style are enqueued iff `split_url_testing` is set and truthy. |
| ConditionalEditor.Mount | src/components/VariantTargeting/Conditional.js:27-72 | Each `field ?? default`: a field the record holds is used as it is. A missing field defaults to type `url_parameter`, storage name `gp_optimize_data`, data type `string`, key `''`, operator `is`, value `''` and details closed; `typeSelection` is `null` when missing. |
| ConditionalEditor.OnTypeSelection | src/components/VariantTargeting/Conditional.js:79-96 | A UTM preset sets type `url_parameter` and the key to the preset's name. Any other choice becomes the type and keeps the key. `typeSelection` is always the choice. |
| ConditionalEditor.ShowKeyField | src/components/VariantTargeting/Conditional.js:121-137 | The key is hidden iff the selection is a storage type with data type `string` or `comma_separated`, or a UTM preset. |
| ConditionalEditor.OperatorOptions | src/components/VariantTargeting/Conditional.js:358-409 | `is` and `is_not` are offered iff the data type is not `comma_separated`. `contains`, `does_not_contain`, `exists` and `does_not_exist` are always offered, last and in that order. |
| ConditionalEditor.ValueFieldVisible | src/components/VariantTargeting/Conditional.js:411-423 | The value field is hidden iff the operator is `exists` or `does_not_exist`. |
| ConditionalEditor.HiddenValueIsIgnored | src/components/VariantTargeting/Conditional.js:411-423 | The value field is hidden only where the value cannot matter: with `exists` or `does_not_exist`, no value changes whether the conditional fires. |
| ConditionalEditor.OnSaveConditional | src/components/VariantTargeting/Conditional.js:101-114 | The saved record holds every field of the panel as it stands, each present: type, type selection, storage name, data type, key, operator and value. It also carries the given index and `showDetails: false`, and the panel closes. |
| ConditionalEditor.SavedPanelIsWhatRuntimeSees | src/components/VariantTargeting/Conditional.js:101-114 | The frontend reads a saved panel with its type present and its key, operator and value as edited, so a saved URL-parameter panel is always evaluated. |
| ConditionalEditor.SaveThenMountRoundTrips | src/components/VariantTargeting/Conditional.js:27-114 | Reopening a saved record restores every field of the panel as it was saved, with details closed. |
| ConditionalEditor.PresetHidesKeyField | src/components/VariantTargeting/Conditional.js:79-137 | After a UTM preset the key field is hidden, and the key already names the preset's parameter. |
| ConditionalEditor.ToRuntime | src/blocks/content-optimization/view.js:101-112 | The frontend sees the saved record's type, key, operator and value as they were saved; a field the record lacks is read as the empty string. |
| ConditionalEditor.DefaultConditionalNeverFires | src/components/VariantTargeting/Conditional.js:53-65 | A conditional saved with the default key, operator and value never forces its variant. |
| ConditionalEditor.UtmPresetFiresOnParameter | src/components/VariantTargeting/Conditional.js:79-91 | A saved UTM preset with `is` forces its variant iff the UTM parameter of that name is present, non-empty and equal to the value. |
| ConditionalEditor.ExistenceOperatorsNeverFire | src/blocks/content-optimization/view.js:64-87 | A conditional with `exists` or `does_not_exist`, although offered in the editor, never forces a variant. |
| VariantTargeting.OnAddConditional | src/components/VariantTargeting/VariantTargeting.js:12-17 | Exactly one `{showDetails: true}` is appended, earlier items are kept, and the count goes up by one. |
| VariantTargeting.OnSaveConditionals | src/components/VariantTargeting/VariantTargeting.js:19-21 | Only the element at the record's index is replaced; length and count are kept. |
| VariantTargeting.Without | src/components/VariantTargeting/VariantTargeting.js:25-27 | The index filter removes exactly the element at the index, keeping the rest in order; an out-of-range index removes nothing. |
| VariantTargeting.OnRemoveConditional | src/components/VariantTargeting/VariantTargeting.js:23-31 | The element at the index is removed and the rest keep their order; an out-of-range index leaves the list unchanged. The count becomes the new length. |
| VariantTargeting.AddThenRemoveRestores | src/components/VariantTargeting/VariantTargeting.js:12-31 | Removing the conditional just added gives back the list as it was. |
| VariantTargeting.RemoveResyncsCount | src/components/VariantTargeting/VariantTargeting.js:23-31 | An in-range removal shortens the list by one and sets the count to the new length, whatever it was. |
| VariantTargeting.AddedConditionalOpensExpanded | src/components/VariantTargeting/VariantTargeting.js:12-17 | The panel of a conditional just added mounts expanded (`showDetails: true`), with every other field at its default. |
| VariantTargeting.Render | src/components/VariantTargeting/VariantTargeting.js:45-53 | On first render every panel is mounted from the record at its own position. |
| VariantTargeting.RemoveKeyedByIndex | src/components/VariantTargeting/VariantTargeting.js:23-31 | A removal as rendered with `key={ index }`: the list loses the indexed record, while the panels at the remaining positions keep their state. |
| VariantTargeting.RemoveKeyedByIdentity | src/components/VariantTargeting/VariantTargeting.js:23-31 | A removal keyed by the conditional itself: the removed record's panel state goes with it, and the others keep their order. |
| VariantTargeting.SavePanel | src/components/VariantTargeting/Conditional.js:101-114 | Saving the panel at position j writes that panel's fields, with index j and details closed, at position j. Every other record is kept, and only that panel closes. |
| VariantTargeting.IndexKeysReuseRemovedPanel | src/components/VariantTargeting/VariantTargeting.js:45-52 | After the first of two conditionals is removed, the remaining panel still shows the removed one. Saving it writes the removed conditional's value over the one that remained. |
| VariantTargeting.IdentityKeysKeepPanelsInSync | src/components/VariantTargeting/VariantTargeting.js:23-31 | With panels keyed by identity, every panel still shows the record at its position after any removal. |
| VariantTargeting.SyncedSaveKeepsRecord | src/components/VariantTargeting/Conditional.js:101-114 | A panel in sync saves back the record at its own position, fields kept and details closed. |
| VariantTargeting.UnsavedConditionalHasNoType | src/components/VariantTargeting/VariantTargeting.js:13 | A conditional added but not saved reaches the frontend without a type. |
| EditorIds.Slot | src/blocks/content-optimization/edit.js:77-79 | `Math.floor(r * 62)` lies in [0, 61] for r in [0, 1). |
| EditorIds.CharFor | src/blocks/content-optimization/edit.js:77-79 | Each generated character is a letter of the alphabet. |
| EditorIds.AlphabetIsAlnum | src/blocks/content-optimization/edit.js:71-72 | The alphabet has 62 characters, all letters or digits. |
| EditorIds.AlnumInAlphabet | src/blocks/content-optimization/edit.js:71-72 | Every ASCII letter and digit is in the alphabet. |
| EditorIds.GenerateId | src/blocks/content-optimization/edit.js:74-80 | The generation loop yields one character per draw, each a letter or digit. |
| EditorIds.IdFromDraws | src/blocks/variant/edit.js:34-40 | An id from n draws has n characters, all in `[A-Za-z0-9]`. |
| EditorIds.EveryAlnumReachable | src/blocks/content-optimization/edit.js:76-80 | Every letter and digit is produced by some draw. |
| EditorIds.NamePatternIffNameChars | src/blocks/content-optimization/edit.js:124 | `^[A-Za-z0-9 -]*$` accepts a string iff each character is a letter, digit, space or dash. |
| EditorIds.GeneratedIdIsValidName | src/blocks/content-optimization/edit.js:85-87 | A generated id, which is the default name, always passes the name rule. |
| OptimizationEditor.OpenOptimization | src/blocks/content-optimization/edit.js:69-87 | A missing id becomes 16 characters of `[A-Za-z0-9]` and is written back. An existing id is kept and nothing is written. A missing name shows as the id. |
| OptimizationEditor.IdIsWrittenOnce | src/content-optimization/edit.js:51-65 | After the one write of a generated id, later renders keep it and write nothing. |
| OptimizationEditor.DefaultNameIsValid | src/content-optimization/edit.js:67-69 | A missing name falls back to the generated id, which passes the name rule. |
| OptimizationEditor.OnNameChange | src/blocks/content-optimization/edit.js:123-134 | A name edit is stored iff it matches `^[A-Za-z0-9 -]*$`; otherwise the attributes are unchanged. |
| OptimizationEditor.NameEditsKeepNamesClean | src/content-optimization/edit.js:105-116 | Name edits keep every stored name made of letters, digits, spaces and dashes. |
| OptimizationEditor.ToggleStatus | src/blocks/content-optimization/edit.js:101-105 | The toggle stores the negation of the current switch position; every other attribute is kept. |
| OptimizationEditor.ToggleTwiceRestores | src/content-optimization/edit.js:83-87 | Toggling twice restores the switch position. |
| OptimizationEditor.SelectFrom | src/blocks/content-optimization/edit.js:55-66 | From position i, the loop sets the selection iff the index lies ahead, and changes nothing otherwise. |
| OptimizationEditor.HandleVariantSelection | src/blocks/content-optimization/edit.js:54-67 | An in-range index selects that inner block's id and index. Any other index changes nothing. |
| OptimizationEditor.SelectedVariantIsShown | src/blocks/variant/edit.js:130-137 | After a selection the chosen variant renders its content; with distinct ids it is the only one. |
| VariantEditor.OpenVariant | src/blocks/variant/edit.js:29-55 | A missing id becomes 8 characters of `[A-Za-z0-9]` and is written back, and an existing id is kept. Name defaults to the id, percentage to 50, conditionals to `[]`. |
| VariantEditor.IdIsGeneratedOnce | src/blocks/variant/edit.js:29-43 | Once written, the generated id is kept and never regenerated. |
| VariantEditor.DefaultPercentageMatchesRuntime | src/blocks/variant/edit.js:49-51 | The editor's default percentage equals the weight the frontend gives an unparsable percentage. |
| VariantEditor.OnVariantNameChange | src/variant/edit.js:83-85 | A variant name edit is stored as typed; nothing else changes. |
| VariantEditor.VariantNamesAreNotValidated | src/blocks/variant/edit.js:78-80 | Every string is stored as the variant name as typed, and some of these strings fail the experiment-name rule. |
| VariantEditor.OnPercentageChange | src/variant/edit.js:96-101 | A slider value in 0..100 is stored as given; nothing else changes. |
| VariantEditor.OpenLegacyVariant | src/variant/edit.js:46-60 | The earlier editor generates 8 characters of `[A-Za-z0-9]` only for a missing id, and writes only a generated id. |
| VariantEditor.EditorsAgreeOnId | src/variant/edit.js:46-60 | Both variant editors settle on the same id and the same write. |
| MetaFields.UpdateMetaField | src/editor/document-setting-panel/plugin-meta-fields.js:23-25 | Only the named meta key changes. |
| MetaFields.ToggleIsVariant | src/editor/document-setting-panel/plugin-meta-fields.js:35-40 | The toggle writes the boolean negation of the current value and flips the checked state; other keys are kept. |
| MetaFields.ToggledOnMakesVariantPage | src/frontend/split-url-test.js:3-7 | Switching the toggle on stores exactly `true`, the one value `=== true` accepts: if that stored value reaches the page's settings unchanged, the page is a variant page. |
| MetaFields.OnExperimentNameChange | src/editor/document-setting-panel/plugin-meta-fields.js:54-68 | The experiment name is written iff it matches `^[A-Za-z0-9 -]*$`; otherwise the meta is unchanged. |
| MetaFields.OnVariantNameChange | src/editor/document-setting-panel/plugin-meta-fields.js:79-81 | The variant name is written unconditionally; other keys are kept. |
| MetaFields.PanelEditsKeepExperimentNameClean | src/editor/document-setting-panel/plugin-meta-fields.js:54-68 | No edit the panel makes can store an experiment name with other characters. |

## Left out

- `waitForElement` and its `MutationObserver` are left out. This is asynchronous DOM observation, so the model starts from the list of containers already found.
- `Math.random` is a parameter. Each container consumes one draw, and an id consumes one draw per character.
- `JSON.parse` of `data-conditionals` is left out. Conditionals are modelled as already-parsed lists; a malformed or `null` value, which throws in the source, is not modelled.
- `URLSearchParams` decoding and repeated parameters are left out. The query is a map from a name to its first value.
- `parseInt` string scanning is left out. A percentage is modelled as the integer it parses to, or `NaN`.
- Floating point is modelled with exact reals; JavaScript's rounding is not modelled.
- `console.log` and `alert` are left out: they produce output only.
- Races between tabs on `localStorage` are not modelled, and neither is storage that throws.
- The SQL in `get_posts_ids_with_optimizations`, `parse_blocks`, and the report's HTML and `var_dump` are left out. The report starts from parsed block trees in post-id order.
- The settings page (`classes/class-settingspage.php`) is not part of this model. It is form rendering only.
- JSX, i18n, block registration files, the icon and the build output are left out.
- Asset registration with `filemtime` versions is left out; only the enqueue decision is modelled.
- `wp.data.dispatch('core/block-editor').selectBlock` is modelled as the index of the selected block only.
- PHP arrays that are not lists, PHP floats, and `(bool)` on objects are not modelled; options and attributes hold null, booleans, integers, strings and lists.
- ConditionalEditor.ToRuntime: a record field left missing (only in a never-saved conditional, which has no type and so is never evaluated) is read as the empty string.
- The split-URL settings are assumed to carry both `current_post_experiment_name` and `current_post_variant_name`. An event with a missing name, which would carry `undefined`, is not modelled.
- Nested experiments do not share elements in the model. `querySelectorAll('.gp-optimize-variant')` on a container also returns the variants of containers nested inside its variants, so an outer container draws over and hides them and the inner container later rewrites their display. The model gives each container only its own variants.
- MetaFields.ToggledOnMakesVariantPage: assumes the stored meta value reaches `current_post_is_variant` in the page settings unchanged. The PHP that prints those settings is not part of this model, and WordPress often returns post meta as the string `"1"`, which `=== true` rejects.
- VariantTargeting.OnSaveConditionals: the source writes into the attribute array in place, without `setAttributes`; the model treats that write as an update of the list and requires an index the list rendered.
- Weighted.LegacySelectWeightedRandomItem: states only that a pick is in range; its behaviour is pinned by Weighted.LegacyAgreesOnNumbers and Weighted.LegacyNaNNeverPicks.

## Findings

| source | as written | input that shows it | evidently intended | confidence | as-written member | corrected member |
|---|---|---|---|---|---|---|
| src/content-optimization/view.js:99-105 | `if ( mixpanel !== undefined )` reads a global that is never declared when the Mixpanel script is absent, which throws a `ReferenceError` | an active container with a choosable variant on a page without the Mixpanel script: the choice is stored and shown, then the exception ends the loop, so later containers are never processed | skip the event when Mixpanel is missing, as the later script does with `typeof window.mixpanel !== 'undefined'` (src/blocks/content-optimization/view.js:246) | not executed; high | LegacyFrontend.LegacyThrowsWithoutTracker | Frontend.SelectedContainerCompletes |
| src/components/VariantTargeting/VariantTargeting.js:45-52 | the conditional panels are rendered with `key={ index }`, and each panel keeps its fields in `useState`, read from the record only on first mount | conditionals `[A, B]` with different values: remove A, then save the remaining panel. It still shows A, so A's value is written over B | each panel stays with its own conditional (a key tied to the conditional, not its position), so a removal drops that conditional's panel | not executed; medium | VariantTargeting.IndexKeysReuseRemovedPanel | VariantTargeting.IdentityKeysKeepPanelsInSync |
