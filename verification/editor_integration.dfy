/** The editor-side PHP hooks: the allow-list filter that admits the plugin's
    blocks and the switch that loads the split-URL document panel. */
module EditorIntegration {
  import opened Common
  import Plugin

  const PluginBlocks := ["planet4-gpch-plugin-optimize/content-optimization",
                         "planet4-gpch-plugin-optimize/variant"]

  /** `$allowed_block_types`: a list of slugs, or `true`/`false` for all/none,
      or a string. */
  datatype AllowedTypes = Slugs(slugs: seq<string>) | Flag(all: bool) | Text(text: string)

  /** `filter_allowed_block_types`: a list gets the two plugin slugs appended
      (duplicates are not removed); every other value is returned as is. */
  function FilterAllowedBlockTypes(allowed: AllowedTypes): (r: AllowedTypes)
    ensures allowed.Slugs? <==> r.Slugs?
    ensures allowed.Slugs? ==> (|r.slugs| == |allowed.slugs| + 2
      && r.slugs[..|allowed.slugs|] == allowed.slugs
      && r.slugs[|allowed.slugs|..] == PluginBlocks)
    ensures !allowed.Slugs? ==> r == allowed
  {
    match allowed
    case Slugs(slugs) => Slugs(slugs + PluginBlocks)
    case _ => allowed
  }

  /** Every slug allowed before is still allowed, and both plugin blocks are
      allowed whenever an explicit list is in force. */
  lemma FilterOnlyWidens(allowed: AllowedTypes, slug: string)
    requires allowed.Slugs?
    ensures slug in allowed.slugs ==> slug in FilterAllowedBlockTypes(allowed).slugs
    ensures slug in PluginBlocks ==> slug in FilterAllowedBlockTypes(allowed).slugs
  {
    var r := FilterAllowedBlockTypes(allowed).slugs;
    if slug in allowed.slugs {
      var i :| 0 <= i < |allowed.slugs| && allowed.slugs[i] == slug;
      assert r[i] == slug;
    }
    if slug in PluginBlocks {
      var j :| 0 <= j < 2 && PluginBlocks[j] == slug;
      assert r[|allowed.slugs| + j] == slug;
    }
  }

  /** `enqueue_editor_assets`: the document panel script and style are
      enqueued iff `split_url_testing` is set and truthy. */
  function EnqueuedAssets(options: Plugin.Options): (handles: seq<string>)
    ensures |handles| == 2 <==> Plugin.Enabled(options, "split_url_testing")
    ensures |handles| == 0 <==> !Plugin.Enabled(options, "split_url_testing")
  {
    if Plugin.Enabled(options, "split_url_testing")
    then ["gpch-optimize-plugin-sidebar-js", "gpch-optimize-plugin-sidebar-css"]
    else []
  }
}
